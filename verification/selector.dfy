/**
 * `generateSelector` in compiler.js: one alive assignment over the window
 * starting at root index `start` becomes a chain of sibling-selector terms,
 * one per window index inside the hard-coded bound [0, 30), followed by
 * the target cell `.grid .r_<row>_c_<col>`. An assignment that puts a
 * true bit outside the bound yields the sentinel `.impossible-state`.
 *
 * The ids `#t_<index>` and classes `.r_<row>_c_<col>` are the names the
 * page gives its tape checkboxes and grid cells
 * (public/Day-210/scripts/setup.js:96 and :117); building that page is
 * not part of this model.
 */
module Selector {
  import Decimal
  import opened Wrappers

  /** The literal upper bound of the range test (it is 30, not the tape width). */
  const SelectorBound := 30

  const ImpossibleState := ".impossible-state"

  predicate OutOfRange(idx: int)
  {
    idx < 0 || idx >= SelectorBound
  }

  /** One condition on a tape checkbox: `#t_<index>:checked` or `#t_<index>:not(:checked)`. */
  datatype Term = Term(index: int, checked: bool)

  /** The assignment asks for a true bit at an index outside the bound. */
  predicate Unreachable(start: int, inputs: seq<bool>)
  {
    exists k :: 0 <= k < |inputs| && OutOfRange(start + k) && inputs[k]
  }

  /** The in-range window positions with their bits, left to right. */
  function Terms(start: int, inputs: seq<bool>): seq<Term>
    decreases |inputs|
  {
    if inputs == [] then []
    else
      var k := |inputs| - 1;
      Terms(start, inputs[..k]) + (if OutOfRange(start + k) then [] else [Term(start + k, inputs[k])])
  }

  /** The text the scan appends for an in-range index: the checkbox id, the wanted state, and the combinator. */
  function TermText(t: Term): string
  {
    "#t_" + Decimal.IntToString(t.index) + (if t.checked then ":checked" else ":not(:checked)") + " ~ "
  }

  /** The selector chain of a list of terms, in order. */
  function Chain(terms: seq<Term>): string
  {
    if terms == [] then "" else Chain(terms[..|terms| - 1]) + TermText(terms[|terms| - 1])
  }

  function Target(row: int, col: int): string
  {
    ".grid .r_" + Decimal.IntToString(row) + "_c_" + Decimal.IntToString(col)
  }

  /** The string `generateSelector` returns. */
  function Selector(start: int, inputs: seq<bool>, row: int, col: int): string
  {
    if Unreachable(start, inputs) then ImpossibleState else Chain(Terms(start, inputs)) + Target(row, col)
  }

  /** Proof step only: equal arguments give equal selectors, without unfolding `Selector`. */
  lemma SelectorCongruence(s1: int, s2: int, in1: seq<bool>, in2: seq<bool>, row: int, col: int)
    requires s1 == s2 && in1 == in2
    ensures Selector(s1, in1, row, col) == Selector(s2, in2, row, col)
  {
  }

  /**
   * Reads a term back from its text: the digits after `#t_` give the
   * checkbox index, and what follows them gives the wanted state.
   */
  function ParseTerm(s: string): Option<Term>
  {
    if |s| < 3 || s[..3] != "#t_" then None
    else
      var n := Decimal.DigitRun(s[3..]);
      var index := Decimal.ParseNat(s[3..3 + n]);
      var rest := s[3 + n..];
      match ParseState(rest)
      case Some(checked) => if n == 0 then None else Some(Term(index, checked))
      case None => None
  }

  /** The wanted state from the text that follows a checkbox id. */
  function ParseState(rest: string): Option<bool>
  {
    if rest == ":checked ~ " then Some(true)
    else if rest == ":not(:checked) ~ " then Some(false)
    else None
  }

  /** The text of a term with a non-negative index reads back as that term. */
  lemma ParseTermText(t: Term)
    requires t.index >= 0
    ensures ParseTerm(TermText(t)) == Some(t)
  {
    var digits := Decimal.NatToString(t.index);
    var rest := (if t.checked then ":checked" else ":not(:checked)") + " ~ ";
    var s := TermText(t);
    assert s == "#t_" + (digits + rest);
    Decimal.ParseNatToString(t.index);
    ParseTermNumeral(s, digits, rest, t.index, t.checked);
  }

  /** `ParseTerm` on `#t_`, a numeral and a state. */
  lemma ParseTermNumeral(s: string, digits: string, rest: string, index: nat, checked: bool)
    requires s == "#t_" + (digits + rest)
    requires |digits| > 0 && forall k :: 0 <= k < |digits| ==> Decimal.IsDigit(digits[k])
    requires Decimal.ParseNat(digits) == index
    requires rest == (if checked then ":checked" else ":not(:checked)") + " ~ "
    ensures ParseTerm(s) == Some(Term(index, checked))
  {
    var tail := digits + rest;
    SplitAt("#t_", tail, s);
    Decimal.DigitRunOfNumeral(digits, rest);
    SplitAt(digits, rest, tail);
    DropThenSplit(s, 3, tail, |digits|);
    ParseTermParts(s, digits, rest, index, checked);
  }

  /** `ParseTerm` on a text already split into prefix, numeral and state. */
  lemma ParseTermParts(s: string, digits: string, rest: string, index: nat, checked: bool)
    requires |s| >= 3 && s[..3] == "#t_" && |digits| > 0 && Decimal.DigitRun(s[3..]) == |digits|
    requires 3 + |digits| <= |s| && s[3..3 + |digits|] == digits && s[3 + |digits|..] == rest
    requires Decimal.ParseNat(digits) == index
    requires rest == (if checked then ":checked" else ":not(:checked)") + " ~ "
    ensures ParseTerm(s) == Some(Term(index, checked))
  {
    ParseStateText(rest, checked);
  }

  lemma ParseStateText(rest: string, checked: bool)
    requires rest == (if checked then ":checked" else ":not(:checked)") + " ~ "
    ensures ParseState(rest) == Some(checked)
  {
    if !checked {
      assert |rest| != |":checked ~ "|;
    }
  }

  lemma SplitAt(a: string, b: string, s: string)
    requires s == a + b
    ensures s[..|a|] == a && s[|a|..] == b
  {
  }

  lemma DropThenSplit(s: string, j: nat, tail: string, n: nat)
    requires j <= |s| && s[j..] == tail && n <= |tail|
    ensures s[j..j + n] == tail[..n] && s[j + n..] == tail[n..]
  {
  }

  /** Distinct in-range terms have distinct texts: `#t_<index>` names one checkbox, in one state. */
  lemma TermTextInjective(t1: Term, t2: Term)
    requires t1.index >= 0 && t2.index >= 0 && TermText(t1) == TermText(t2)
    ensures t1 == t2
  {
    ParseTermText(t1);
    ParseTermText(t2);
  }

  /**
   * `generateSelector`: scans the window left to right, returning the
   * sentinel at the first true bit outside the bound, skipping false bits
   * outside it, and appending one term per in-range index.
   * (`endIdx` is accepted and unused, as in the source.)
   */
  method GenerateSelector(startIdx: int, endIdx: int, inputs: seq<bool>, targetRow: int, targetCol: int)
    returns (selector: string)
    ensures selector == Selector(startIdx, inputs, targetRow, targetCol)
    ensures selector == ImpossibleState <==> Unreachable(startIdx, inputs)
  {
    selector := "";
    var i := 0;
    while i < |inputs|
      invariant 0 <= i <= |inputs|
      invariant forall k :: 0 <= k < i && OutOfRange(startIdx + k) ==> !inputs[k]
      invariant selector == Chain(Terms(startIdx, inputs[..i]))
    {
      var realIdx := startIdx + i;
      if realIdx < 0 || realIdx >= 30 {
        if inputs[i] {
          assert OutOfRange(startIdx + i) && inputs[i];
          selector := ImpossibleState;
          return;
        }
        ChainSkip(startIdx, inputs, i, selector);
      } else {
        var term := TermText(Term(realIdx, inputs[i]));
        ChainExtend(startIdx, inputs, i, selector, term);
        selector := selector + term;
      }
      assert OutOfRange(startIdx + i) ==> !inputs[i];
      i := i + 1;
    }
    assert inputs[..i] == inputs;
    ChainTargetIsNotSentinel(Terms(startIdx, inputs), targetRow, targetCol);
    selector := selector + (".grid .r_" + Decimal.IntToString(targetRow) + "_c_" + Decimal.IntToString(targetCol));
  }

  /** Growing the scanned prefix by one index adds at most that index's term. */
  lemma TermsSnoc(start: int, inputs: seq<bool>, i: nat)
    requires i < |inputs|
    ensures Terms(start, inputs[..i + 1])
         == Terms(start, inputs[..i]) + (if OutOfRange(start + i) then [] else [Term(start + i, inputs[i])])
  {
    assert inputs[..i + 1][..i] == inputs[..i];
  }

  /** Scanning an out-of-range index adds nothing to the chain. */
  lemma ChainSkip(start: int, inputs: seq<bool>, i: nat, chain: string)
    requires i < |inputs| && OutOfRange(start + i) && chain == Chain(Terms(start, inputs[..i]))
    ensures Chain(Terms(start, inputs[..i + 1])) == chain
  {
    TermsSnoc(start, inputs, i);
    assert Terms(start, inputs[..i + 1]) == Terms(start, inputs[..i]);
  }

  /** Scanning an in-range index appends its term's text to the chain. */
  lemma ChainExtend(start: int, inputs: seq<bool>, i: nat, chain: string, text: string)
    requires i < |inputs| && !OutOfRange(start + i)
    requires chain == Chain(Terms(start, inputs[..i])) && text == TermText(Term(start + i, inputs[i]))
    ensures Chain(Terms(start, inputs[..i + 1])) == chain + text
  {
    TermsSnoc(start, inputs, i);
    ChainSnoc(Terms(start, inputs[..i]), Term(start + i, inputs[i]));
  }

  lemma ChainSnoc(terms: seq<Term>, t: Term)
    ensures Chain(terms + [t]) == Chain(terms) + TermText(t)
  {
    assert (terms + [t])[..|terms|] == terms;
  }

  /** A chain starts with `#` unless it is empty. */
  lemma {:induction false} ChainStart(terms: seq<Term>)
    requires terms != []
    ensures |Chain(terms)| > 0 && Chain(terms)[0] == '#'
    decreases |terms|
  {
    var front := terms[..|terms| - 1];
    if front != [] {
      ChainStart(front);
    }
  }

  /** A real selector never spells the sentinel, so the sentinel test is exact. */
  lemma ChainTargetIsNotSentinel(terms: seq<Term>, row: int, col: int)
    ensures Chain(terms) + Target(row, col) != ImpossibleState
  {
    var s := Chain(terms) + Target(row, col);
    if terms == [] {
      assert s[1] == 'g' != ImpossibleState[1];
    } else {
      ChainStart(terms);
      assert s[0] == '#' != ImpossibleState[0];
    }
  }

  /** Every term names an in-range index of the window and carries that index's bit. */
  lemma {:induction false} TermsSound(start: int, inputs: seq<bool>)
    ensures forall t :: t in Terms(start, inputs) ==>
      !OutOfRange(t.index) && 0 <= t.index - start < |inputs| && t.checked == inputs[t.index - start]
    decreases |inputs|
  {
    if inputs != [] {
      TermsSound(start, inputs[..|inputs| - 1]);
    }
  }

  /** Every in-range index of the window has a term. */
  lemma {:induction false} TermsComplete(start: int, inputs: seq<bool>)
    ensures forall k :: 0 <= k < |inputs| && !OutOfRange(start + k) ==> Term(start + k, inputs[k]) in Terms(start, inputs)
    decreases |inputs|
  {
    if inputs != [] {
      var front := inputs[..|inputs| - 1];
      TermsComplete(start, front);
      assert forall k :: 0 <= k < |front| ==> front[k] == inputs[k];
    }
  }

  /** Terms follow the window from left to right: their indices strictly increase. */
  lemma {:induction false} TermsIncreasing(start: int, inputs: seq<bool>)
    ensures forall j, k :: 0 <= j < k < |Terms(start, inputs)| ==>
      Terms(start, inputs)[j].index < Terms(start, inputs)[k].index
    decreases |inputs|
  {
    if inputs != [] {
      var front := inputs[..|inputs| - 1];
      TermsIncreasing(start, front);
      TermsSound(start, front);
    }
  }

  /** The bits the chain asserts for a window of `width` indices starting at `start`. */
  function Restore(start: int, width: nat, terms: seq<Term>): seq<bool>
  {
    seq(width, k requires 0 <= k < width => Term(start + k, true) in terms)
  }

  /**
   * Pruning loses nothing: for an assignment that is not unreachable, the
   * terms of its selector determine it (out-of-range positions are false).
   */
  lemma RestoreTerms(start: int, inputs: seq<bool>)
    requires !Unreachable(start, inputs)
    ensures Restore(start, |inputs|, Terms(start, inputs)) == inputs
  {
    var terms := Terms(start, inputs);
    var restored := Restore(start, |inputs|, terms);
    forall k | 0 <= k < |inputs|
      ensures restored[k] == inputs[k]
    {
      if inputs[k] {
        assert !OutOfRange(start + k);
        TermsComplete(start, inputs);
        assert Term(start + k, inputs[k]) in terms;
      } else if Term(start + k, true) in terms {
        TermsSound(start, inputs);
        assert false;
      }
    }
  }
}
