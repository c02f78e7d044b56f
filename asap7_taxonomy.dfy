/** The cell type of the ASAP7 electrical-similarity script: the part of the cell name
    before its drive strength, matched against a fixed list of gate names in order; the
    first gate name found decides, with the arity taken from the digits of the name. */
module Asap7Taxonomy {
  import opened Wrappers
  import opened Strings

  /** `cell_name.split('x')[0]`: the name up to its first lower-case `x`. */
  function BaseName(cellName: string): (r: string)
    ensures |r| <= |cellName| && r == cellName[..|r|]
    ensures 'x' !in r
    ensures |r| == |cellName| || cellName[|r|] == 'x'
  {
    match FindChar(cellName, 'x', 0)
    case None =>
      assert forall k :: 0 <= k < |cellName| ==> cellName[k] != 'x';
      Split(cellName, 'x')[0]
    case Some(i) =>
      assert forall k :: 0 <= k < i ==> cellName[..i][k] != 'x';
      Split(cellName, 'x')[0]
  }

  /** The gate name with the first of `2`, `3`, `4` that occurs in the base, if any. */
  function WithArity(gate: string, base: string): (r: string)
    ensures r == gate || r == gate + "2" || r == gate + "3" || r == gate + "4"
  {
    if Contains(base, "2") then gate + "2"
    else if Contains(base, "3") then gate + "3"
    else if Contains(base, "4") then gate + "4"
    else gate
  }

  /** The labels `_determine_cell_type` can give a name that holds a gate name. */
  const GateLabels: set<string> := {"INV", "BUF", "NAND", "NAND2", "NAND3", "NAND4",
    "NOR", "NOR2", "NOR3", "NOR4", "AND", "AND2", "AND3", "AND4", "OR", "OR2", "OR3", "OR4",
    "XOR", "XOR2", "XNOR", "XNOR2"}

  /** The gate names that take an arity, with each arity, are gate labels. */
  lemma ArityLabels(base: string)
    ensures WithArity("NAND", base) in GateLabels && WithArity("NOR", base) in GateLabels
    ensures WithArity("AND", base) in GateLabels && WithArity("OR", base) in GateLabels
  {
    assert "NAND" + "2" == "NAND2" && "NAND" + "3" == "NAND3" && "NAND" + "4" == "NAND4";
    assert "NOR" + "2" == "NOR2" && "NOR" + "3" == "NOR3" && "NOR" + "4" == "NOR4";
    assert "AND" + "2" == "AND2" && "AND" + "3" == "AND3" && "AND" + "4" == "AND4";
    assert "OR" + "2" == "OR2" && "OR" + "3" == "OR3" && "OR" + "4" == "OR4";
  }

  /** `_determine_cell_type`: a gate label, or the base name itself when it holds none of
      the gate names. The function expression is not consulted. */
  function DetermineCellType(cellName: string, func: string): (r: string)
    ensures r == BaseName(cellName) || r in GateLabels
    ensures (forall g :: g in Gates ==> !Contains(BaseName(cellName), g)) ==> r == BaseName(cellName)
    ensures Contains(BaseName(cellName), "INV") ==> r == "INV"
    ensures Contains(BaseName(cellName), "BUF") && !Contains(BaseName(cellName), "INV") ==> r == "BUF"
  {
    var base := BaseName(cellName);
    ArityLabels(base);
    BaseCellType(base)
  }

  /** The tests of `_determine_cell_type` on the base name, in their order. */
  function BaseCellType(base: string): string {
    if Contains(base, "INV") then "INV"
    else if Contains(base, "BUF") then "BUF"
    else if Contains(base, "NAND") then WithArity("NAND", base)
    else if Contains(base, "NOR") then WithArity("NOR", base)
    else if Contains(base, "AND") then WithArity("AND", base)
    else if Contains(base, "OR") then WithArity("OR", base)
    else if Contains(base, "XOR") then (if Contains(base, "2") then "XOR2" else "XOR")
    else if Contains(base, "XNOR") then (if Contains(base, "2") then "XNOR2" else "XNOR")
    else base
  }

  /** The gate names in the order they are tried. */
  const Gates: seq<string> := ["INV", "BUF", "NAND", "NOR", "AND", "OR", "XOR", "XNOR"]

  /** The index of the first gate name at or after `i` that occurs in `base`. */
  function FirstGateFrom(base: string, i: nat): (r: Option<nat>)
    requires i <= |Gates|
    ensures r.Some? ==> i <= r.value < |Gates| && Contains(base, Gates[r.value])
    ensures r.Some? ==> forall k :: i <= k < r.value ==> !Contains(base, Gates[k])
    ensures r.None? ==> forall k :: i <= k < |Gates| ==> !Contains(base, Gates[k])
    decreases |Gates| - i
  {
    if i == |Gates| then None
    else if Contains(base, Gates[i]) then Some(i)
    else FirstGateFrom(base, i + 1)
  }

  /** `XOR` contains `OR` and `XNOR` contains `NOR`, which are tried first. */
  lemma LaterGatesShadowed(base: string)
    ensures Contains(base, "XOR") ==> Contains(base, "OR")
    ensures Contains(base, "XNOR") ==> Contains(base, "NOR")
  {
    ContainsAt("XOR", "OR", 1);
    ContainsAt("XNOR", "NOR", 1);
    if Contains(base, "XOR") { ContainsTrans(base, "XOR", "OR"); }
    if Contains(base, "XNOR") { ContainsTrans(base, "XNOR", "NOR"); }
  }

  /** The first gate name in the list decides: `INV` and `BUF` as they are, the other
      gates with their arity, and the base itself when there is none. The first gate
      found is never `XOR` or `XNOR`, and the function expression makes no difference. */
  lemma FirstGateDecides(cellName: string, func: string, other: string)
    ensures var base := BaseName(cellName);
      var g := FirstGateFrom(base, 0);
      (g.Some? ==> g.value < 6) &&
      (g.Some? && g.value < 2 ==> DetermineCellType(cellName, func) == Gates[g.value]) &&
      (g.Some? && 2 <= g.value ==> DetermineCellType(cellName, func) == WithArity(Gates[g.value], base)) &&
      (g.None? ==> DetermineCellType(cellName, func) == base)
    ensures DetermineCellType(cellName, func) == DetermineCellType(cellName, other)
  {
    FirstGateDecidesBase(BaseName(cellName));
  }

  /** `FirstGateDecides` for the base name. */
  lemma FirstGateDecidesBase(base: string)
    ensures var g := FirstGateFrom(base, 0);
      (g.Some? ==> g.value < 6) &&
      (g.Some? && g.value < 2 ==> BaseCellType(base) == Gates[g.value]) &&
      (g.Some? && 2 <= g.value ==> BaseCellType(base) == WithArity(Gates[g.value], base)) &&
      (g.None? ==> BaseCellType(base) == base)
  {
    LaterGatesShadowed(base);
  }

  /** The gate's name followed by at most one digit. */
  lemma WithArityStartsWithGate(gate: string, base: string)
    ensures StartsWith(WithArity(gate, base), gate)
  {
    var r := WithArity(gate, base);
    assert r[..|gate|] == gate;
  }

  /** A base without `OR` is none of the exclusive gate names. */
  lemma OrFree(base: string)
    requires !Contains(base, "OR")
    ensures base != "XOR" && base != "XOR2" && base != "XNOR" && base != "XNOR2"
  {
    if |base| >= 3 && base[1..3] == "OR" {
      ContainsAt(base, "OR", 1);
    }
    if |base| >= 4 && base[2..4] == "OR" {
      ContainsAt(base, "OR", 2);
    }
  }

  /** No name is reported as `XOR`, `XOR2`, `XNOR` or `XNOR2`: each of them contains
      `OR`, so a base that is one of them is caught by the `OR` test or an earlier one. */
  lemma ExclusiveGatesUnreachable(cellName: string, func: string)
    ensures var r := DetermineCellType(cellName, func);
      r != "XOR" && r != "XOR2" && r != "XNOR" && r != "XNOR2"
  {
    var base := BaseName(cellName);
    FirstGateDecides(cellName, func, func);
    var g := FirstGateFrom(base, 0);
    if g.None? {
      assert !Contains(base, Gates[5]);
    }
    GateResultNotExclusive(base, g, DetermineCellType(cellName, func));
  }

  /** The result the first gate decides is none of the exclusive gate names. */
  lemma GateResultNotExclusive(base: string, g: Option<nat>, r: string)
    requires g.Some? ==> g.value < 6
    requires g.Some? && g.value < 2 ==> r == Gates[g.value]
    requires g.Some? && 2 <= g.value ==> r == WithArity(Gates[g.value], base)
    requires g.None? ==> r == base && !Contains(base, "OR")
    ensures r != "XOR" && r != "XOR2" && r != "XNOR" && r != "XNOR2"
  {
    if g.None? {
      OrFree(base);
    } else {
      var gate := Gates[g.value];
      assert gate[0] != 'X';
      if 2 <= g.value {
        WithArityStartsWithGate(gate, base);
      }
      assert r[0] == gate[0];
    }
  }

  /** An `XOR2` base without an earlier gate name is reported as `OR2`, and an `XNOR2`
      base as `NOR2`. */
  lemma ExclusiveGatesShadowed(cellName: string, func: string)
    ensures var base := BaseName(cellName);
      (Contains(base, "XOR") && Contains(base, "2") && !Contains(base, "INV") &&
        !Contains(base, "BUF") && !Contains(base, "NAND") && !Contains(base, "NOR") &&
        !Contains(base, "AND")) ==> DetermineCellType(cellName, func) == "OR2"
    ensures var base := BaseName(cellName);
      (Contains(base, "XNOR") && Contains(base, "2") && !Contains(base, "INV") &&
        !Contains(base, "BUF") && !Contains(base, "NAND")) ==> DetermineCellType(cellName, func) == "NOR2"
  {
    LaterGatesShadowed(BaseName(cellName));
  }

  /** A name is cut at its first `x`, whatever follows it. */
  lemma BaseNameOf(prefix: string, rest: string)
    requires 'x' !in prefix
    ensures BaseName(prefix + "x" + rest) == prefix
  {
    var name := prefix + "x" + rest;
    assert name[|prefix|] == 'x';
    assert forall k :: 0 <= k < |prefix| ==> name[k] == prefix[k];
    assert name[..|prefix|] == prefix;
  }

  /** The gate names the base `XOR2` contains. */
  lemma XorBase(base: string)
    requires base == "XOR2"
    ensures Contains(base, "XOR") && Contains(base, "2")
    ensures !Contains(base, "INV") && !Contains(base, "BUF") && !Contains(base, "NAND") &&
      !Contains(base, "NOR") && !Contains(base, "AND")
  {
    assert base[0..3] == "XOR" && base[3..4] == "2";
    ContainsAt(base, "XOR", 0);
    ContainsAt(base, "2", 3);
    MissingChar(base, "INV", 'I');
    MissingChar(base, "BUF", 'B');
    MissingChar(base, "NAND", 'N');
    MissingChar(base, "NOR", 'N');
    MissingChar(base, "AND", 'A');
  }

  /** An `XOR2` cell of any drive strength and variant is reported as `OR2`. */
  lemma XorCellName(rest: string)
    ensures DetermineCellType("XOR2x" + rest, "") == "OR2"
  {
    assert "XOR2x" + rest == "XOR2" + "x" + rest;
    BaseNameOf("XOR2", rest);
    XorBase(BaseName("XOR2x" + rest));
    ExclusiveGatesShadowed("XOR2x" + rest, "");
  }

  /** The gate names the base `XNOR2` contains. */
  lemma XnorBase(base: string)
    requires base == "XNOR2"
    ensures Contains(base, "XNOR") && Contains(base, "2")
    ensures !Contains(base, "INV") && !Contains(base, "BUF") && !Contains(base, "NAND")
  {
    assert base[0..4] == "XNOR" && base[4..5] == "2";
    ContainsAt(base, "XNOR", 0);
    ContainsAt(base, "2", 4);
    MissingChar(base, "INV", 'I');
    MissingChar(base, "BUF", 'B');
    MissingChar(base, "NAND", 'A');
  }

  /** An `XNOR2` cell is reported as `NOR2`. */
  lemma XnorCellName(rest: string)
    ensures DetermineCellType("XNOR2x" + rest, "") == "NOR2"
  {
    assert "XNOR2x" + rest == "XNOR2" + "x" + rest;
    BaseNameOf("XNOR2", rest);
    XnorBase(BaseName("XNOR2x" + rest));
    ExclusiveGatesShadowed("XNOR2x" + rest, "");
  }

  /** `DFFHQN` contains none of the gate names. */
  lemma FlipFlopBase(base: string)
    requires base == "DFFHQN"
    ensures forall k :: 0 <= k < |Gates| ==> !Contains(base, Gates[k])
  {
    MissingChar(base, "INV", 'I');
    MissingChar(base, "BUF", 'B');
    MissingChar(base, "NAND", 'A');
    MissingChar(base, "NOR", 'O');
    MissingChar(base, "AND", 'A');
    MissingChar(base, "OR", 'O');
    MissingChar(base, "XOR", 'X');
    MissingChar(base, "XNOR", 'X');
  }

  /** A flip-flop matches no gate name and keeps its base. */
  lemma FlipFlopCellName(rest: string)
    ensures DetermineCellType("DFFHQNx" + rest, "") == "DFFHQN"
  {
    assert "DFFHQNx" + rest == "DFFHQN" + "x" + rest;
    BaseNameOf("DFFHQN", rest);
    FlipFlopBase(BaseName("DFFHQNx" + rest));
    FirstGateDecides("DFFHQNx" + rest, "", "");
  }
}
