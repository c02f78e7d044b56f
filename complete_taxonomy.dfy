/** The two classifiers of the complete scanner: the cell type guessed from the cell's
    name (or, failing that, its pin count) and the category of its function expression. */
module CompleteTaxonomy {
  import opened Wrappers
  import opened Strings

  /** The name patterns in the order the classifier's dictionary lists them, each with the
      type it stands for. */
  const NamePatterns: seq<(string, string)> := [
    ("and", "AND"), ("nand", "NAND"), ("or", "OR"), ("nor", "NOR"),
    ("inv", "INV"), ("not", "INV"), ("xor", "XOR"), ("buf", "BUF"),
    ("mux", "MUX"), ("dff", "DFF"), ("latch", "LATCH"), ("adder", "ADDER"),
    ("aoi", "AOI"), ("oai", "OAI")
  ]

  /** The index of the first pattern at or after `i` that occurs in `s`. */
  function FirstPatternFrom(s: string, i: nat): (r: Option<nat>)
    requires i <= |NamePatterns|
    ensures r.Some? ==> i <= r.value < |NamePatterns| && Contains(s, NamePatterns[r.value].0)
    ensures r.Some? ==> forall k :: i <= k < r.value ==> !Contains(s, NamePatterns[k].0)
    ensures r.None? ==> forall k :: i <= k < |NamePatterns| ==> !Contains(s, NamePatterns[k].0)
    decreases |NamePatterns| - i
  {
    if i == |NamePatterns| then None
    else if Contains(s, NamePatterns[i].0) then Some(i)
    else FirstPatternFrom(s, i + 1)
  }

  /** The size class used when no name pattern applies. */
  function SizeClass(pinCount: nat): string {
    if pinCount <= 2 then "BASIC"
    else if pinCount <= 4 then "SIMPLE"
    else if pinCount <= 8 then "MEDIUM"
    else "COMPLEX"
  }

  /** `_infer_cell_type`: the first pattern found in the lower-cased name decides; a name
      with none of them is classified by its pin count. */
  function InferCellType(cellName: string, pinCount: nat): (r: string)
    ensures var i := FirstPatternFrom(Lower(cellName), 0);
      i.Some? ==> r == NamePatterns[i.value].1
    ensures (forall k :: 0 <= k < |NamePatterns| ==> !Contains(Lower(cellName), NamePatterns[k].0))
      ==> r == SizeClass(pinCount)
  {
    match FirstPatternFrom(Lower(cellName), 0)
    case Some(i) => NamePatterns[i].1
    case None => SizeClass(pinCount)
  }

  /** A lower-cased name that contains `nand`, `nor` or `xor` also contains the shorter
      `and` or `or`. */
  lemma ShorterPatterns(s: string)
    ensures Contains(s, "nand") ==> Contains(s, "and")
    ensures Contains(s, "nor") ==> Contains(s, "or")
    ensures Contains(s, "xor") ==> Contains(s, "or")
  {
    ContainsAt("nand", "and", 1);
    ContainsAt("nor", "or", 1);
    ContainsAt("xor", "or", 1);
    if Contains(s, "nand") { ContainsTrans(s, "nand", "and"); }
    if Contains(s, "nor") { ContainsTrans(s, "nor", "or"); }
    if Contains(s, "xor") { ContainsTrans(s, "xor", "or"); }
  }

  /** `NAND`, `NOR` and `XOR` are listed after a pattern they contain, so they are never
      returned. */
  lemma InferCellTypeShadowed(cellName: string, pinCount: nat)
    ensures var r := InferCellType(cellName, pinCount);
      r != "NAND" && r != "NOR" && r != "XOR"
  {
    var s := Lower(cellName);
    ShorterPatterns(s);
    var i := FirstPatternFrom(s, 0);
    if i.Some? {
      if i.value >= 1 { assert !Contains(s, NamePatterns[0].0); }
      if i.value >= 3 { assert !Contains(s, NamePatterns[2].0); }
      OtherTypes(i.value);
    }
  }

  /** Only the entries of `nand`, `nor` and `xor` carry their types. */
  lemma OtherTypes(k: nat)
    requires k < |NamePatterns| && k != 1 && k != 3 && k != 6
    ensures NamePatterns[k].1 != "NAND" && NamePatterns[k].1 != "NOR" && NamePatterns[k].1 != "XOR"
  {
  }

  /** Cells named after the shadowed patterns take the type of the pattern that shadows
      them: a `nand` name is `AND`, and a `nor` or `xor` name without `and` is `OR`. */
  lemma InferCellTypeShadowedNames(cellName: string, pinCount: nat)
    ensures var s := Lower(cellName);
      Contains(s, "nand") ==> InferCellType(cellName, pinCount) == "AND"
    ensures var s := Lower(cellName);
      (Contains(s, "nor") || Contains(s, "xor")) && !Contains(s, "and") ==>
        InferCellType(cellName, pinCount) == "OR"
  {
    ShorterPatterns(Lower(cellName));
  }

  /** The result is a pattern's type exactly when some pattern occurs, and otherwise the
      pin count's class: at most 2 pins `BASIC`, at most 4 `SIMPLE`, at most 8 `MEDIUM`,
      more `COMPLEX`. */
  lemma InferCellTypeFallback(cellName: string, pinCount: nat)
    ensures var r := InferCellType(cellName, pinCount);
      (r in {"BASIC", "SIMPLE", "MEDIUM", "COMPLEX"}) <==>
        forall k :: 0 <= k < |NamePatterns| ==> !Contains(Lower(cellName), NamePatterns[k].0)
    ensures (forall k :: 0 <= k < |NamePatterns| ==> !Contains(Lower(cellName), NamePatterns[k].0)) ==>
      (InferCellType(cellName, pinCount) == "BASIC" <==> pinCount <= 2) &&
      (InferCellType(cellName, pinCount) == "SIMPLE" <==> 2 < pinCount <= 4) &&
      (InferCellType(cellName, pinCount) == "MEDIUM" <==> 4 < pinCount <= 8) &&
      (InferCellType(cellName, pinCount) == "COMPLEX" <==> 8 < pinCount)
  {
    var i := FirstPatternFrom(Lower(cellName), 0);
    if i.Some? {
      PatternTypesNotSizes(i.value);
    }
  }

  /** No pattern type is a size class. */
  lemma PatternTypesNotSizes(k: nat)
    requires k < |NamePatterns|
    ensures NamePatterns[k].1 !in {"BASIC", "SIMPLE", "MEDIUM", "COMPLEX"}
  {
  }

  /** `_categorize_function`: `unknown` for a missing or empty expression, otherwise the
      first test that the lower-cased expression passes. */
  function CategorizeFunction(expr: Option<string>): (r: string)
    ensures r == "unknown" <==> expr.None? || expr.value == []
    ensures r in {"unknown", "and_gate", "nand_gate", "or_gate", "nor_gate", "inverter",
      "xor_gate", "multiplexer", "sequential", "buffer", "combinational"}
  {
    if expr.None? || expr.value == [] then "unknown"
    else
      var f := Lower(expr.value);
      if Contains(f, "and") && !Contains(f, "nand") then "and_gate"
      else if Contains(f, "nand") then "nand_gate"
      else if Contains(f, "or") && !Contains(f, "nor") then "or_gate"
      else if Contains(f, "nor") then "nor_gate"
      else if Contains(f, "not") || StartsWith(f, "!") then "inverter"
      else if Contains(f, "xor") then "xor_gate"
      else if Contains(f, "mux") then "multiplexer"
      else if Contains(f, "latch") || Contains(f, "dff") || Contains(f, "ff") then "sequential"
      else if Contains(f, "buf") then "buffer"
      else "combinational"
  }

  /** `xor` contains `or`, so an `xor` expression is caught by the `or` or `nor` test and
      `xor_gate` is never returned. */
  lemma XorUnreachable(expr: Option<string>)
    ensures CategorizeFunction(expr) != "xor_gate"
    ensures expr.Some? && Contains(Lower(expr.value), "xor") ==>
      CategorizeFunction(expr) in {"and_gate", "nand_gate", "or_gate", "nor_gate"}
  {
    if expr.Some? {
      ShorterPatterns(Lower(expr.value));
    }
  }

  /** An expression with `nand` is a `nand_gate` and one with `nor` but neither `and` nor
      `nand` is a `nor_gate`: the `!nand`/`!nor` guards keep the shorter tests from
      capturing them. */
  lemma NegatedGatesRecognised(expr: Option<string>)
    ensures expr.Some? && Contains(Lower(expr.value), "nand") ==>
      CategorizeFunction(expr) == "nand_gate"
    ensures (expr.Some? && Contains(Lower(expr.value), "nor") && !Contains(Lower(expr.value), "and"))
      ==> CategorizeFunction(expr) == "nor_gate"
  {
    if expr.Some? {
      ShorterPatterns(Lower(expr.value));
    }
  }
}
