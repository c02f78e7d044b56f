/** The two classifiers of the optimized scanner. Both are `if` chains over substring
    tests of the lower-cased text, so a test placed after one that it implies is dead. */
module OptimizedTaxonomy {
  import opened Wrappers
  import opened Strings
  import CompleteTaxonomy

  /** `_infer_cell_type`: name tests in source order, then the pin-count classes. */
  function InferCellType(cellName: string, pinCount: nat): (r: string)
    ensures r in {"AND", "OR", "INV", "XOR", "NAND", "NOR", "BUF", "MUX", "SEQ",
      "BASIC", "MEDIUM", "COMPLEX"}
    ensures r == "AND" <==> Contains(Lower(cellName), "and")
    ensures r == "MUX" ==> Contains(Lower(cellName), "mux")
    ensures r == "SEQ" ==> Contains(Lower(cellName), "dff") || Contains(Lower(cellName), "latch")
    ensures r in {"BASIC", "MEDIUM", "COMPLEX"} ==> (r == "BASIC" <==> pinCount <= 3)
  {
    var s := Lower(cellName);
    if Contains(s, "and") then "AND"
    else if Contains(s, "or") then "OR"
    else if Contains(s, "inv") || Contains(s, "not") then "INV"
    else if Contains(s, "xor") then "XOR"
    else if Contains(s, "nand") then "NAND"
    else if Contains(s, "nor") then "NOR"
    else if Contains(s, "buf") then "BUF"
    else if Contains(s, "mux") then "MUX"
    else if Contains(s, "dff") || Contains(s, "latch") then "SEQ"
    else if pinCount <= 3 then "BASIC"
    else if pinCount <= 6 then "MEDIUM"
    else "COMPLEX"
  }

  /** The `xor`, `nand` and `nor` tests come after the `and`/`or` tests that they imply,
      so `XOR`, `NAND` and `NOR` are never returned; such names become `AND` or `OR`. */
  lemma InferCellTypeShadowed(cellName: string, pinCount: nat)
    ensures var r := InferCellType(cellName, pinCount);
      r != "XOR" && r != "NAND" && r != "NOR"
    ensures Contains(Lower(cellName), "nand") ==> InferCellType(cellName, pinCount) == "AND"
    ensures ((Contains(Lower(cellName), "nor") || Contains(Lower(cellName), "xor")) &&
      !Contains(Lower(cellName), "and")) ==> InferCellType(cellName, pinCount) == "OR"
  {
    CompleteTaxonomy.ShorterPatterns(Lower(cellName));
  }

  /** A name that passes none of the name tests is classified by its pin count alone:
      at most 3 pins `BASIC`, at most 6 `MEDIUM`, more `COMPLEX`; and only such names
      get those classes. */
  lemma InferCellTypeFallback(cellName: string, pinCount: nat)
    ensures var s := Lower(cellName);
      var byName := Contains(s, "and") || Contains(s, "or") || Contains(s, "inv") ||
        Contains(s, "not") || Contains(s, "buf") || Contains(s, "mux") ||
        Contains(s, "dff") || Contains(s, "latch");
      var r := InferCellType(cellName, pinCount);
      (r in {"BASIC", "MEDIUM", "COMPLEX"} <==> !byName) &&
      (!byName ==> ((r == "BASIC" <==> pinCount <= 3) &&
        (r == "MEDIUM" <==> 3 < pinCount <= 6) && (r == "COMPLEX" <==> 6 < pinCount)))
  {
    CompleteTaxonomy.ShorterPatterns(Lower(cellName));
  }

  /** `_categorize_function`: `unknown` for a missing or empty expression, otherwise the
      first test the lower-cased expression passes. */
  function CategorizeFunction(expr: Option<string>): (r: string)
    ensures r == "unknown" <==> expr.None? || expr.value == []
    ensures r in {"unknown", "and_gate", "or_gate", "inverter", "xor_gate", "multiplexer",
      "sequential", "combinational"}
  {
    if expr.None? || expr.value == [] then "unknown"
    else
      var f := Lower(expr.value);
      if Contains(f, "and") then "and_gate"
      else if Contains(f, "or") then "or_gate"
      else if Contains(f, "not") || Contains(f, "!") then "inverter"
      else if Contains(f, "xor") then "xor_gate"
      else if Contains(f, "mux") then "multiplexer"
      else if Contains(f, "latch") || Contains(f, "dff") then "sequential"
      else "combinational"
  }

  /** With `and` tested first, a `nand` expression is an `and_gate`; `xor` implies `or`, so
      `xor_gate` is never returned; a `!` anywhere, without `and` or `or`, makes an
      `inverter`. */
  lemma CategorizeFunctionOrder(expr: Option<string>)
    ensures CategorizeFunction(expr) != "xor_gate"
    ensures expr.Some? && Contains(Lower(expr.value), "nand") ==>
      CategorizeFunction(expr) == "and_gate"
    ensures (expr.Some? && Contains(Lower(expr.value), "!") &&
      !Contains(Lower(expr.value), "and") && !Contains(Lower(expr.value), "or"))
      ==> CategorizeFunction(expr) == "inverter"
  {
    if expr.Some? {
      CompleteTaxonomy.ShorterPatterns(Lower(expr.value));
    }
  }
}
