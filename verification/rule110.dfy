/**
 * The elementary cellular automaton Rule 110 as compiler.js evaluates it:
 * the transition table (`applyRule`), one generation on a finite window
 * that loses its two edge cells, and `simulateRule110`, which reduces a
 * window of root-row bits to the bit at the tip of its dependency pyramid.
 */
module Rule110 {
  import opened Wrappers
  import Bits

  /** The neighbourhoods (left, centre, right) whose centre is alive in the next generation. */
  const AliveNeighbourhoods: set<(bool, bool, bool)> :=
    {(false, false, true), (false, true, false), (false, true, true), (true, false, true), (true, true, false)}

  /**
   * `applyRule`: an exhaustive conditional over the eight neighbourhoods,
   * one branch each; the fall-through `return false` after them cannot be reached.
   */
  function ApplyRule(l: bool, c: bool, r: bool): (next: bool)
    ensures next == if l then c != r else c || r
  {
    if !l && !c && !r then false
    else if !l && !c && r then true
    else if !l && c && !r then true
    else if !l && c && r then true
    else if l && !c && !r then false
    else if l && !c && r then true
    else if l && c && !r then true
    else if l && c && r then false
    else assert false; false
  }

  /** The table lists exactly the five neighbourhoods that come alive. */
  lemma ApplyRuleAliveNeighbourhoods(l: bool, c: bool, r: bool)
    ensures ApplyRule(l, c, r) <==> (l, c, r) in AliveNeighbourhoods
  {
  }

  /** Wolfram's numbering: the next state of neighbourhood `lcr` is bit `lcr` (read in binary) of 110. */
  lemma ApplyRuleIsWolfram110(l: bool, c: bool, r: bool)
    ensures ApplyRule(l, c, r) == Bits.Bit(110, (if l then 4 else 0) + (if c then 2 else 0) + (if r then 1 else 0))
  {
    // 110 is 0b01101110: shifting it right by the neighbourhood's number leaves that entry in the units place.
    match (l, c, r)
    case (false, false, false) => assert Bits.ShiftRight(110, 0) == 110;
    case (false, false, true) => assert Bits.ShiftRight(110, 1) == 55;
    case (false, true, false) => assert Bits.ShiftRight(110, 2) == 27;
    case (false, true, true) => assert Bits.ShiftRight(110, 3) == 13;
    case (true, false, false) => assert Bits.ShiftRight(110, 4) == 6;
    case (true, false, true) => assert Bits.ShiftRight(110, 5) == 3;
    case (true, true, false) => assert Bits.ShiftRight(110, 6) == 1;
    case (true, true, true) => assert Bits.ShiftRight(110, 7) == 0;
  }

  /**
   * One generation on a finite window: every consecutive triple yields one
   * cell, so a row of length `L` becomes a row of length `L - 2` (and an
   * empty one when there is no complete triple).
   */
  function Step(row: seq<bool>): (next: seq<bool>)
    ensures |next| == if |row| < 2 then 0 else |row| - 2
    ensures forall k {:trigger next[k]} :: 0 <= k < |next| ==> next[k] == ApplyRule(row[k], row[k + 1], row[k + 2])
  {
    if |row| < 3 then [] else [ApplyRule(row[0], row[1], row[2])] + Step(row[1..])
  }

  /** A generation is determined by its length and its cells: any row with both is `Step(row)`. */
  lemma StepUnique(row: seq<bool>, next: seq<bool>)
    requires |next| == if |row| < 2 then 0 else |row| - 2
    requires forall i :: 1 <= i <= |next| ==> next[i - 1] == ApplyRule(row[i - 1], row[i], row[i + 1])
    ensures next == Step(row)
  {
    var stepped := Step(row);
    forall k | 0 <= k < |next|
      ensures next[k] == stepped[k]
    {
      var i := k + 1;
      assert next[i - 1] == ApplyRule(row[i - 1], row[i], row[i + 1]);
    }
  }

  /** `n` generations on a finite window. */
  function Iterate(row: seq<bool>, n: nat): seq<bool>
  {
    if n == 0 then row else Step(Iterate(row, n - 1))
  }

  /** The value `simulateRule110` returns: the first cell left, or `undefined` when none is. */
  function Simulate(inputs: seq<bool>, targetRow: nat): Option<bool>
  {
    var last := Iterate(inputs, targetRow);
    if |last| == 0 then None else Some(last[0])
  }

  /**
   * The single-shot expansion the header of compiler.js describes:
   * cell `k` of generation `r` above the window is Rule 110 applied to
   * cells `k`, `k+1`, `k+2` of generation `r - 1`, and generation 0 is
   * the window itself.
   */
  function Cell(window: seq<bool>, r: nat, k: nat): bool
    requires k + 2 * r < |window|
    decreases r
  {
    if r == 0 then window[k]
    else ApplyRule(Cell(window, r - 1, k), Cell(window, r - 1, k + 1), Cell(window, r - 1, k + 2))
  }

  /** Each generation shrinks the window by exactly two cells. */
  lemma {:induction false} IterateLength(row: seq<bool>, n: nat)
    requires |row| >= 2 * n
    ensures |Iterate(row, n)| == |row| - 2 * n
  {
    if n > 0 {
      IterateLength(row, n - 1);
    }
  }

  /** The staged reduction computes exactly the single-shot expansion, cell by cell. */
  lemma {:induction false} IterateIsExpansion(row: seq<bool>, n: nat)
    requires 2 * n < |row|
    ensures |Iterate(row, n)| == |row| - 2 * n
    ensures forall k :: 0 <= k < |row| - 2 * n ==> Iterate(row, n)[k] == Cell(row, n, k)
    decreases n
  {
    if n > 0 {
      IterateIsExpansion(row, n - 1);
      var prev := Iterate(row, n - 1);
      assert Iterate(row, n) == Step(prev);
      forall k | 0 <= k < |row| - 2 * n
        ensures Step(prev)[k] == Cell(row, n, k)
      {
        assert Step(prev)[k] == ApplyRule(prev[k], prev[k + 1], prev[k + 2]);
      }
    }
  }

  /** A window of `2·n + 1` bits is reduced to exactly one defined bit: the tip of its pyramid. */
  lemma SimulateTip(inputs: seq<bool>, targetRow: nat)
    requires |inputs| == 2 * targetRow + 1
    ensures Simulate(inputs, targetRow) == Some(Cell(inputs, targetRow, 0))
  {
    IterateIsExpansion(inputs, targetRow);
  }

  /**
   * One round of `simulateRule110`: for every interior position `i` of the
   * current row, push the rule applied to cells `i - 1`, `i`, `i + 1`.
   */
  method NextRow(currentRow: seq<bool>) returns (nextRow: seq<bool>)
    ensures nextRow == Step(currentRow)
  {
    nextRow := [];
    var i := 1;
    while i < |currentRow| - 1
      invariant 1 <= i <= if |currentRow| < 2 then 1 else |currentRow| - 1
      invariant |nextRow| == i - 1
      invariant forall j :: 1 <= j < i ==> nextRow[j - 1] == ApplyRule(currentRow[j - 1], currentRow[j], currentRow[j + 1])
    {
      var left, centre, right := currentRow[i - 1], currentRow[i], currentRow[i + 1];
      nextRow := nextRow + [ApplyRule(left, centre, right)];
      i := i + 1;
    }
    StepUnique(currentRow, nextRow);
  }

  /**
   * `simulateRule110`: `targetRow` rounds of `NextRow`, then the first
   * cell of what is left.
   * (`initialWidth` is accepted and unused, as in the source.)
   */
  method SimulateRule110(inputs: seq<bool>, targetRow: nat, initialWidth: int) returns (tip: Option<bool>)
    ensures tip == Simulate(inputs, targetRow)
  {
    var currentRow := inputs;
    var r := 0;
    while r < targetRow
      invariant 0 <= r <= targetRow
      invariant currentRow == Iterate(inputs, r)
    {
      currentRow := NextRow(currentRow);
      r := r + 1;
    }
    tip := if |currentRow| == 0 then None else Some(currentRow[0]);
  }
}
