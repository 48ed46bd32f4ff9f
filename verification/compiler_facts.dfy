/**
 * What the rules `compileCSS` emits are, independently of how the loops
 * produce them: exactly the live (row, column, assignment) triples within
 * the row cap, each once, in row, column, assignment order; five per
 * column in row 1; sentinel rules included in the count; rows past the
 * cap only add the closing note.
 */
module CompilerFacts {
  import Bits
  import Rule110
  import Selector
  import opened Compiler

  /** The triple `x` is one `ruleCount` counts: a cell within the loops' ranges and a live assignment of its window. */
  predicate Counted(rows: int, cols: int, x: Rule)
  {
    1 <= x.row <= EffectiveRows(rows) && 0 <= x.col < Columns(cols)
    && x.assignment < Bits.Pow2(2 * x.row + 1) && Alive(x.row, x.assignment)
  }

  /** Every counted triple, as a set built straight from the conditions. */
  function CountedSet(rows: int, cols: int): set<Rule>
  {
    set r: nat, c: int, i: nat | 1 <= r <= EffectiveRows(rows) && 0 <= c < Columns(cols)
      && i < Bits.Pow2(2 * r + 1) && Alive(r, i) :: Rule(r, c, i)
  }

  /** Emission order: by row, then column, then assignment number. */
  predicate Precedes(a: Rule, b: Rule)
  {
    a.row < b.row || (a.row == b.row && (a.col < b.col || (a.col == b.col && a.assignment < b.assignment)))
  }

  predicate Ordered(s: seq<Rule>)
  {
    forall j, k :: 0 <= j < k < |s| ==> Precedes(s[j], s[k])
  }

  lemma {:induction false} AssignmentRulesMember(live: (nat, nat) -> bool, r: nat, c: int, n: nat, x: Rule)
    ensures x in AssignmentRules(live, r, c, n) <==> x.row == r && x.col == c && x.assignment < n && live(r, x.assignment)
    decreases n
  {
    if n > 0 {
      AssignmentRulesMember(live, r, c, n - 1, x);
    }
  }

  lemma {:induction false} ColumnRulesMember(live: (nat, nat) -> bool, r: nat, n: nat, x: Rule)
    ensures x in ColumnRules(live, r, n)
        <==> x.row == r && 0 <= x.col < n && x.assignment < Bits.Pow2(2 * x.row + 1) && live(x.row, x.assignment)
    decreases n
  {
    if n > 0 {
      var size := Bits.Pow2(2 * r + 1);
      var front, cell := ColumnRules(live, r, n - 1), AssignmentRules(live, r, n - 1, size);
      ColumnRulesMember(live, r, n - 1, x);
      AssignmentRulesMember(live, r, n - 1, size, x);
      var kept := x.row == r && x.assignment < size && live(r, x.assignment);
      assert (x in front) == (kept && 0 <= x.col < n - 1);
      assert (x in cell) == (kept && x.col == n - 1);
      assert ColumnRules(live, r, n) == front + cell;
      assert (x in front + cell) == (x in front || x in cell);
    }
  }

  lemma {:induction false} RowRulesMember(live: (nat, nat) -> bool, n: nat, cols: nat, x: Rule, s: seq<Rule>)
    requires s == RowRules(live, n, cols)
    ensures x in s
        <==> 1 <= x.row <= n && 0 <= x.col < cols && x.assignment < Bits.Pow2(2 * x.row + 1) && live(x.row, x.assignment)
    decreases n
  {
    if n > 0 {
      var front, row := RowRules(live, n - 1, cols), ColumnRules(live, n, cols);
      RowRulesMember(live, n - 1, cols, x, front);
      ColumnRulesMember(live, n, cols, x);
      RowRulesMemberStep(live, n, cols, x, front, row, s);
    }
  }

  /** One row further: membership in rows 1 .. n from membership in rows 1 .. n-1 and in row n. */
  lemma RowRulesMemberStep(live: (nat, nat) -> bool, n: nat, cols: nat, x: Rule, front: seq<Rule>, row: seq<Rule>, s: seq<Rule>)
    requires n > 0 && s == front + row
    requires x in front
        <==> 1 <= x.row <= n - 1 && 0 <= x.col < cols && x.assignment < Bits.Pow2(2 * x.row + 1) && live(x.row, x.assignment)
    requires x in row
        <==> x.row == n && 0 <= x.col < cols && x.assignment < Bits.Pow2(2 * x.row + 1) && live(x.row, x.assignment)
    ensures x in s
        <==> 1 <= x.row <= n && 0 <= x.col < cols && x.assignment < Bits.Pow2(2 * x.row + 1) && live(x.row, x.assignment)
  {
    var inFront, inRow := x in front, x in row;
    assert (x in front + row) == (inFront || inRow);
  }

  /** Where the `k`-th rule of each list sits: the facts ordering needs, by position. */
  lemma {:induction false} AssignmentRulesAt(live: (nat, nat) -> bool, r: nat, c: int, n: nat, s: seq<Rule>, k: nat)
    requires s == AssignmentRules(live, r, c, n) && k < |s|
    ensures s[k].row == r && s[k].col == c && s[k].assignment < n
    decreases n
  {
    if n > 0 {
      var front := AssignmentRules(live, r, c, n - 1);
      if k < |front| {
        AssignmentRulesAt(live, r, c, n - 1, front, k);
      }
    }
  }

  lemma {:induction false} ColumnRulesAt(live: (nat, nat) -> bool, r: nat, n: nat, s: seq<Rule>, k: nat)
    requires s == ColumnRules(live, r, n) && k < |s|
    ensures s[k].row == r && 0 <= s[k].col < n
    decreases n
  {
    if n > 0 {
      var front, cell := ColumnRules(live, r, n - 1), AssignmentRules(live, r, n - 1, Bits.Pow2(2 * r + 1));
      assert s == front + cell;
      if k < |front| {
        ColumnRulesAt(live, r, n - 1, front, k);
      } else {
        AssignmentRulesAt(live, r, n - 1, Bits.Pow2(2 * r + 1), cell, k - |front|);
      }
    }
  }

  lemma {:induction false} RowRulesAt(live: (nat, nat) -> bool, n: nat, cols: nat, s: seq<Rule>, k: nat)
    requires s == RowRules(live, n, cols) && k < |s|
    ensures 1 <= s[k].row <= n && 0 <= s[k].col < cols
    decreases n
  {
    if n > 0 {
      var front, row := RowRules(live, n - 1, cols), ColumnRules(live, n, cols);
      assert s == front + row;
      if k < |front| {
        RowRulesAt(live, n - 1, cols, front, k);
      } else {
        ColumnRulesAt(live, n, cols, row, k - |front|);
      }
    }
  }

  /** A rule is emitted if and only if its triple is counted. */
  lemma EmittedMember(rows: int, cols: int, x: Rule)
    ensures x in Emitted(rows, cols) <==> Counted(rows, cols, x)
  {
    RowRulesMember(Alive, EffectiveRows(rows), Columns(cols), x, RowRules(Alive, EffectiveRows(rows), Columns(cols)));
  }

  /** Two ordered runs, the first wholly before the second, make an ordered run. */
  lemma OrderedAppend(a: seq<Rule>, b: seq<Rule>)
    requires Ordered(a) && Ordered(b)
    requires forall j, k :: 0 <= j < |a| && 0 <= k < |b| ==> Precedes(a[j], b[k])
    ensures Ordered(a + b)
  {
    var s := a + b;
    forall j, k | 0 <= j < k < |s|
      ensures Precedes(s[j], s[k])
    {
      if k < |a| {
        assert s[j] == a[j] && s[k] == a[k];
      } else if j < |a| {
        assert s[j] == a[j] && s[k] == b[k - |a|];
      } else {
        assert s[j] == b[j - |a|] && s[k] == b[k - |a|];
      }
    }
  }

  lemma {:induction false} AssignmentRulesOrdered(live: (nat, nat) -> bool, r: nat, c: int, n: nat)
    ensures Ordered(AssignmentRules(live, r, c, n))
    decreases n
  {
    if n > 0 {
      var front := AssignmentRules(live, r, c, n - 1);
      AssignmentRulesOrdered(live, r, c, n - 1);
      var last := if live(r, n - 1) then [Rule(r, c, n - 1)] else [];
      forall j, k | 0 <= j < |front| && 0 <= k < |last|
        ensures Precedes(front[j], last[k])
      {
        AssignmentRulesAt(live, r, c, n - 1, front, j);
      }
      OrderedAppend(front, last);
    }
  }

  lemma {:induction false} ColumnRulesOrdered(live: (nat, nat) -> bool, r: nat, n: nat)
    ensures Ordered(ColumnRules(live, r, n))
    decreases n
  {
    if n > 0 {
      ColumnRulesOrdered(live, r, n - 1);
      AssignmentRulesOrdered(live, r, n - 1, Bits.Pow2(2 * r + 1));
      var front, cell := ColumnRules(live, r, n - 1), AssignmentRules(live, r, n - 1, Bits.Pow2(2 * r + 1));
      ColumnsBefore(live, r, n - 1, front, cell);
      OrderedAppend(front, cell);
      assert ColumnRules(live, r, n) == front + cell;
    }
  }

  lemma ColumnsBefore(live: (nat, nat) -> bool, r: nat, c: nat, front: seq<Rule>, cell: seq<Rule>)
    requires front == ColumnRules(live, r, c) && cell == AssignmentRules(live, r, c, Bits.Pow2(2 * r + 1))
    ensures forall j, k :: 0 <= j < |front| && 0 <= k < |cell| ==> Precedes(front[j], cell[k])
  {
    forall j, k | 0 <= j < |front| && 0 <= k < |cell|
      ensures Precedes(front[j], cell[k])
    {
      ColumnRulesAt(live, r, c, front, j);
      AssignmentRulesAt(live, r, c, Bits.Pow2(2 * r + 1), cell, k);
    }
  }

  lemma {:induction false} RowRulesOrdered(live: (nat, nat) -> bool, n: nat, cols: nat)
    ensures Ordered(RowRules(live, n, cols))
    decreases n
  {
    if n > 0 {
      RowRulesOrdered(live, n - 1, cols);
      ColumnRulesOrdered(live, n, cols);
      var done, row := RowRules(live, n - 1, cols), ColumnRules(live, n, cols);
      RowsBefore(live, n, cols, done, row);
      OrderedAppend(done, row);
      assert RowRules(live, n, cols) == done + row;
    }
  }

  lemma RowsBefore(live: (nat, nat) -> bool, n: nat, cols: nat, done: seq<Rule>, row: seq<Rule>)
    requires n > 0 && done == RowRules(live, n - 1, cols) && row == ColumnRules(live, n, cols)
    ensures forall j, k :: 0 <= j < |done| && 0 <= k < |row| ==> Precedes(done[j], row[k])
  {
    forall j, k | 0 <= j < |done| && 0 <= k < |row|
      ensures Precedes(done[j], row[k])
    {
      RowRulesAt(live, n - 1, cols, done, j);
      ColumnRulesAt(live, n, cols, row, k);
    }
  }

  /** The stylesheet lists its rules in row, column, assignment order, so no triple appears twice. */
  lemma EmittedOrdered(rows: int, cols: int)
    ensures Ordered(Emitted(rows, cols))
  {
    RowRulesOrdered(Alive, EffectiveRows(rows), Columns(cols));
  }

  /** An ordered list has as many elements as distinct values. */
  lemma {:induction false} OrderedCardinality(s: seq<Rule>)
    requires Ordered(s)
    ensures |set x | x in s| == |s|
    decreases |s|
  {
    if s != [] {
      var front, last := s[..|s| - 1], s[|s| - 1];
      assert Ordered(front) by {
        forall j, k | 0 <= j < k < |front|
          ensures Precedes(front[j], front[k])
        {
          assert front[j] == s[j] && front[k] == s[k];
        }
      }
      OrderedCardinality(front);
      assert last !in front by {
        forall j | 0 <= j < |front|
          ensures front[j] != last
        {
          assert Precedes(s[j], s[|s| - 1]);
        }
      }
      assert s == front + [last];
      assert (set x | x in s) == (set x | x in front) + {last};
    }
  }

  /** `ruleCount` is the number of counted triples (sentinel selectors included). */
  lemma RuleCount(rows: int, cols: int)
    ensures |Emitted(rows, cols)| == |CountedSet(rows, cols)|
  {
    var s := Emitted(rows, cols);
    forall x
      ensures x in s <==> x in CountedSet(rows, cols)
    {
      EmittedMember(rows, cols, x);
    }
    assert (set x | x in s) == CountedSet(rows, cols);
    EmittedOrdered(rows, cols);
    OrderedCardinality(s);
  }

  /** Row 1: the window is one neighbourhood, so the live assignments are 001, 010, 011, 101 and 110. */
  lemma RowOneRules(c: int)
    ensures AssignmentRules(Alive, 1, c, Bits.Pow2(3))
         == [Rule(1, c, 1), Rule(1, c, 2), Rule(1, c, 3), Rule(1, c, 5), Rule(1, c, 6)]
  {
    RowOneAlive();
    RowOneAssignments(Alive, c);
    assert Bits.Pow2(3) == 8;
    AssignmentRulesCongruence(Alive, 1, c, 8, Bits.Pow2(3));
  }

  /** The eight assignments of a row-1 cell, enumerated under a liveness that keeps 1, 2, 3, 5 and 6. */
  lemma RowOneAssignments(live: (nat, nat) -> bool, c: int)
    requires !live(1, 0) && live(1, 1) && live(1, 2) && live(1, 3)
    requires !live(1, 4) && live(1, 5) && live(1, 6) && !live(1, 7)
    ensures AssignmentRules(live, 1, c, 8)
         == [Rule(1, c, 1), Rule(1, c, 2), Rule(1, c, 3), Rule(1, c, 5), Rule(1, c, 6)]
  {
    assert AssignmentRules(live, 1, c, 1) == [];
    assert AssignmentRules(live, 1, c, 2) == [Rule(1, c, 1)];
    assert AssignmentRules(live, 1, c, 3) == [Rule(1, c, 1), Rule(1, c, 2)];
    assert AssignmentRules(live, 1, c, 4) == [Rule(1, c, 1), Rule(1, c, 2), Rule(1, c, 3)];
    assert AssignmentRules(live, 1, c, 5) == AssignmentRules(live, 1, c, 4);
    assert AssignmentRules(live, 1, c, 6) == [Rule(1, c, 1), Rule(1, c, 2), Rule(1, c, 3), Rule(1, c, 5)];
    assert AssignmentRules(live, 1, c, 7) == [Rule(1, c, 1), Rule(1, c, 2), Rule(1, c, 3), Rule(1, c, 5), Rule(1, c, 6)];
  }

  lemma RowOneAlive()
    ensures !Alive(1, 0) && Alive(1, 1) && Alive(1, 2) && Alive(1, 3)
    ensures !Alive(1, 4) && Alive(1, 5) && Alive(1, 6) && !Alive(1, 7)
  {
    RowOneWindow(false, false, false);
    RowOneWindow(false, false, true);
    RowOneWindow(false, true, false);
    RowOneWindow(false, true, true);
    RowOneWindow(true, false, false);
    RowOneWindow(true, false, true);
    RowOneWindow(true, true, false);
    RowOneWindow(true, true, true);
  }

  /** The 3-bit window `l c r` is assignment 4·l + 2·c + r, and it is alive as Rule 110 says. */
  lemma RowOneWindow(l: bool, c: bool, r: bool)
    ensures Bits.Encode([l, c, r]) == (if l then 4 else 0) + (if c then 2 else 0) + (if r then 1 else 0)
    ensures Alive(1, Bits.Encode([l, c, r])) == Rule110.ApplyRule(l, c, r)
  {
    var bits := [l, c, r];
    Bits.DecodeEncode(bits);
    assert Bits.Decode(Bits.Encode(bits), 3) == bits;
    assert Rule110.Cell(bits, 1, 0) == Rule110.ApplyRule(l, c, r);
    assert [l][..0] == [];
    assert Bits.Encode([l]) == (if l then 1 else 0);
    assert [l, c][..1] == [l];
    assert Bits.Encode([l, c]) == (if l then 2 else 0) + (if c then 1 else 0);
    assert bits[..2] == [l, c];
  }

  /** With a single row, every column contributes exactly five rules. */
  lemma {:induction false} RowOneCount(n: nat)
    ensures |ColumnRules(Alive, 1, n)| == 5 * n
    decreases n
  {
    if n > 0 {
      RowOneCount(n - 1);
      RowOneRules(n - 1);
    }
  }

  /**
   * Column 0 of row 1 has a window starting at -1, outside the bound:
   * assignments 101 and 110 come out alive, so their rules are emitted and
   * counted although their selector is the sentinel.
   */
  lemma SentinelRulesCounted(rows: int, cols: int)
    requires rows >= 1 && cols >= 1
    ensures Rule(1, 0, 5) in Emitted(rows, cols) && RuleSelector(1, 0, 5) == Selector.ImpossibleState
    ensures Rule(1, 0, 6) in Emitted(rows, cols) && RuleSelector(1, 0, 6) == Selector.ImpossibleState
  {
    RowOneAlive();
    RowOneEmitted(rows, cols, 0, 5);
    RowOneEmitted(rows, cols, 0, 6);
    RowOneWindow(true, false, true);
    RowOneWindow(true, true, false);
    SentinelSelector(false, true);
    SentinelSelector(true, false);
  }

  /** A live assignment of a row-1 cell inside the grid is emitted. */
  lemma RowOneEmitted(rows: int, cols: int, c: int, i: nat)
    requires rows >= 1 && 0 <= c < cols && i < 8 && Alive(1, i)
    ensures Rule(1, c, i) in Emitted(rows, cols)
  {
    assert Bits.Pow2(3) == 8;
    EmittedMember(rows, cols, Rule(1, c, i));
  }

  /** A live row-1 window of column 0 whose leftmost bit (root index -1) is set yields the sentinel. */
  lemma SentinelSelector(c: bool, r: bool)
    ensures RuleSelector(1, 0, Bits.Encode([true, c, r])) == Selector.ImpossibleState
  {
    var bits := [true, c, r];
    RowOneWindow(true, c, r);
    Bits.DecodeEncode(bits);
    assert Selector.OutOfRange(-1 + 0) && bits[0];
  }

  /** Rows past the cap add nothing but the closing note. */
  lemma CappedOutput(rows: int, cols: int)
    requires rows > MaxCssRows
    ensures Emitted(rows, cols) == Emitted(MaxCssRows, cols)
    ensures CssText(rows, cols) == CssText(MaxCssRows, cols) + NoteText(rows)
  {
    RowRulesCongruence(Alive, EffectiveRows(rows), EffectiveRows(MaxCssRows), Columns(cols));
    var body := Header + Render(Emitted(MaxCssRows, cols));
    assert CssText(MaxCssRows, cols) == body + "";
    assert body + "" == body;
  }
}
