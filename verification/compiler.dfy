/**
 * `compileCSS` in compiler.js: for every derived cell (row `r`, column
 * `c`) up to the row cap, it enumerates every assignment of the root-row
 * window [c - r, c + r], keeps the ones Rule 110 turns into a live cell,
 * and emits one sibling-selector rule for each, counting them.
 *
 * The output is specified by an ordered list of rule records
 * `Rule(row, col, assignment)`, rendered once into text.
 */
module Compiler {
  import opened Wrappers
  import Bits
  import Decimal
  import Rule110
  import Selector
  import Seqs

  /** `MAX_CSS_ROWS`: rows beyond this depth get no rules. */
  const MaxCssRows := 6

  /** The fixed preamble of the generated stylesheet. */
  const Header: string :=
    "\n/* \n * GENERATED RULE 110 LOGIC \n * \n * This file contains the pre-calculated state selectors.\n"
    + " * Each rule targets a specific cell based on the combination \n * of the root input tape state.\n */\n\n"
    + "/* Default State */\n.cell { background-color: #1a1a25; }\n"
    + ".cell.active { background-color: var(--primary-color); box-shadow: 0 0 5px var(--primary-color); }\n"

  /** The declaration block appended to every selector. */
  const RuleBody: string :=
    " { background-color: var(--primary-color); box-shadow: 0 0 8px var(--primary-color); border-color: #fff; }\n"

  /** The closing note for the rows past the cap. */
  function NoteText(rows: int): string
  {
    "\n/* Note: Rows " + Decimal.IntToString(MaxCssRows + 1) + "-" + Decimal.IntToString(rows)
    + " require JS simulation or deeper CSS depth support which crashes browsers. */"
  }

  /** One emitted rule: the target cell and the number of the window assignment it stands for. */
  datatype Rule = Rule(row: nat, col: int, assignment: nat)

  /**
   * Assignment `i` of the window of a row-`r` cell leads to a live cell:
   * `r` generations of Rule 110 grown from the decoded window, whose
   * outcome at the apex is `Rule110.Cell`.
   */
  predicate Alive(r: nat, i: nat)
  {
    Rule110.Cell(Bits.Decode(i, 2 * r + 1), r, 0)
  }

  /** The selector (possibly the sentinel) for assignment `i` of cell (r, c), whose window starts at column c - r. */
  function RuleSelector(r: nat, c: int, i: nat): string
  {
    Selector.Selector(c - r, Bits.Decode(i, 2 * r + 1), r, c)
  }

  /** The text of the rule for assignment `i` of cell (r, c): its selector and the declaration block. */
  function RuleText(r: nat, c: int, i: nat): string
  {
    RuleSelector(r, c, i) + RuleBody
  }

  function TextOf(x: Rule): string
  {
    RuleText(x.row, x.col, x.assignment)
  }

  /** The texts of `rules`, one after the other. */
  function Render(rules: seq<Rule>): string
  {
    Seqs.Concat(Seqs.Map(TextOf, rules))
  }

  /**
   * The rules for cell (r, c) among the assignments 0 .. n-1, in
   * enumeration order. The three list functions take the liveness test as
   * a parameter, so that facts about the shape of the lists need not look
   * inside Rule 110; the stylesheet uses `Alive`.
   */
  function AssignmentRules(live: (nat, nat) -> bool, r: nat, c: int, n: nat): seq<Rule>
  {
    if n == 0 then []
    else AssignmentRules(live, r, c, n - 1) + (if live(r, n - 1) then [Rule(r, c, n - 1)] else [])
  }

  /** The rules of row r for columns 0 .. n-1, column by column. */
  function ColumnRules(live: (nat, nat) -> bool, r: nat, n: nat): seq<Rule>
  {
    if n == 0 then [] else ColumnRules(live, r, n - 1) + AssignmentRules(live, r, n - 1, Bits.Pow2(2 * r + 1))
  }

  /** The rules of rows 1 .. n, row by row. */
  function RowRules(live: (nat, nat) -> bool, n: nat, cols: nat): seq<Rule>
  {
    if n == 0 then [] else RowRules(live, n - 1, cols) + ColumnRules(live, n, cols)
  }

  /** How many rows the loops visit: `Math.min(rows, 6)`, where a value below 1 means none. */
  function EffectiveRows(rows: int): nat
  {
    if rows < 1 then 0 else if rows < MaxCssRows then rows else MaxCssRows
  }

  /** How many columns the loops visit: none for a negative width. */
  function Columns(cols: int): nat
  {
    if cols < 0 then 0 else cols
  }

  /** Every rule `compileCSS` emits, in emission order. */
  function Emitted(rows: int, cols: int): seq<Rule>
  {
    RowRules(Alive, EffectiveRows(rows), Columns(cols))
  }

  /** The stylesheet `compileCSS` returns. */
  function CssText(rows: int, cols: int): string
  {
    Header + Render(Emitted(rows, cols)) + (if rows > MaxCssRows then NoteText(rows) else "")
  }

  /**
   * The inner loop of `compileCSS` that turns assignment `i` into its
   * window vector, pushing `((i >> (width - 1 - bit)) & 1) == 1` for
   * bit = 0 .. width-1.
   */
  method DecodeInputs(i: nat, width: nat) returns (inputs: seq<bool>)
    ensures inputs == Bits.Decode(i, width)
  {
    inputs := [];
    var bit := 0;
    while bit < width
      invariant 0 <= bit <= width
      invariant |inputs| == bit
      invariant forall k :: 0 <= k < bit ==> inputs[k] == Bits.Bit(i, width - 1 - k)
    {
      inputs := inputs + [Bits.ShiftRight(i, width - 1 - bit) % 2 == 1];
      bit := bit + 1;
    }
    assert inputs == Bits.Decode(i, width);
  }

  /** Rendering a concatenation renders the parts one after the other. */
  lemma RenderAppend(a: seq<Rule>, b: seq<Rule>)
    ensures Render(a + b) == Render(a) + Render(b)
  {
    Seqs.MapAppend(TextOf, a, b);
    Seqs.ConcatAppend(Seqs.Map(TextOf, a), Seqs.Map(TextOf, b));
  }

  /** Appending one rule renders its text after the others. */
  lemma RenderSnoc(rules: seq<Rule>, r: nat, c: int, i: nat)
    ensures Render(rules + [Rule(r, c, i)]) == Render(rules) + RuleText(r, c, i)
  {
    var x := Rule(r, c, i);
    Seqs.MapAppend(TextOf, rules, [x]);
    assert Seqs.Map(TextOf, [x]) == [RuleText(r, c, i)];
    Seqs.ConcatAppend(Seqs.Map(TextOf, rules), [RuleText(r, c, i)]);
    assert Seqs.Concat([RuleText(r, c, i)]) == RuleText(r, c, i) by {
      assert [RuleText(r, c, i)][..0] == [];
    }
  }

  lemma RuleTextOfSelector(r: nat, c: int, i: nat, start: int, width: nat, inputs: seq<bool>, selector: string)
    requires start == c - r && width == 2 * r + 1
    requires inputs == Bits.Decode(i, width)
    requires selector == Selector.Selector(start, inputs, r, c)
    ensures selector == RuleSelector(r, c, i)
  {
    Bits.DecodeWidth(i, width, 2 * r + 1);
    Selector.SelectorCongruence(start, c - r, inputs, Bits.Decode(i, 2 * r + 1), r, c);
  }

  /** `Alive` read off a window decoded at the width the loop computed. */
  lemma AliveOfWindow(r: nat, i: nat, width: nat, inputs: seq<bool>)
    requires width == 2 * r + 1 && inputs == Bits.Decode(i, width)
    ensures Alive(r, i) == Rule110.Cell(inputs, r, 0)
  {
    Bits.DecodeWidth(i, width, 2 * r + 1);
  }

  /**
   * One pass of the assignment loop of `compileCSS` for the cell (r, c):
   * assignment `i` is decoded into the window vector, simulated, and, when
   * the cell comes out alive, turned into a selector and its rule text.
   */
  method CompileAssignment(r: nat, c: int, i: nat) returns (text: Option<string>)
    ensures text.Some? <==> Alive(r, i)
    ensures text.Some? ==> text.value == RuleText(r, c, i)
  {
    var start := c - r;
    var end := c + r;
    var width := end - start + 1;
    assert width == 2 * r + 1;
    var inputs := DecodeInputs(i, width);
    var alive := Rule110.SimulateRule110(inputs, r, width);
    Rule110.SimulateTip(inputs, r);
    AliveOfWindow(r, i, width, inputs);
    if alive == Some(true) {
      var selector := Selector.GenerateSelector(start, end, inputs, r, c);
      RuleTextOfSelector(r, c, i, start, width, inputs, selector);
      text := Some(selector + RuleBody);
    } else {
      text := None;
    }
  }

  /**
   * The body of the column loop of `compileCSS` for the cell (r, c):
   * assignments 0 .. 2^(2r+1)-1 in turn; every live one appends its rule
   * to `css` and bumps the counter.
   */
  method CompileCell(r: nat, c: int, css0: string, ruleCount0: int) returns (css: string, ruleCount: int)
    ensures css == css0 + Render(AssignmentRules(Alive, r, c, Bits.Pow2(2 * r + 1)))
    ensures ruleCount == ruleCount0 + |AssignmentRules(Alive, r, c, Bits.Pow2(2 * r + 1))|
  {
    css, ruleCount := css0, ruleCount0;
    var width := (c + r) - (c - r) + 1;
    var combinations := Bits.Pow2(width);
    var i := 0;
    while i < combinations
      invariant 0 <= i <= combinations
      invariant css == css0 + Render(AssignmentRules(Alive, r, c, i))
      invariant ruleCount == ruleCount0 + |AssignmentRules(Alive, r, c, i)|
    {
      ghost var before := AssignmentRules(Alive, r, c, i);
      var text := CompileAssignment(r, c, i);
      AssignmentStep(r, c, i, text.Some?);
      if text.Some? {
        RenderSnoc(before, r, c, i);
        Seqs.AppendAssoc(css0, Render(before), text.value);
        css := css + text.value;
        ruleCount := ruleCount + 1;
      }
      i := i + 1;
    }
    AssignmentRulesCongruence(Alive, r, c, i, Bits.Pow2(2 * r + 1));
  }

  /**
   * The column loop of `compileCSS` for row `r`: columns 0 .. cols-1, each
   * enumerated by `CompileCell`.
   */
  method CompileRow(r: nat, cols: int, css0: string, ruleCount0: int) returns (css: string, ruleCount: int)
    requires r >= 1
    ensures css == css0 + Render(ColumnRules(Alive, r, Columns(cols)))
    ensures ruleCount == ruleCount0 + |ColumnRules(Alive, r, Columns(cols))|
  {
    css, ruleCount := css0, ruleCount0;
    var c := 0;
    while c < cols
      invariant 0 <= c <= Columns(cols)
      invariant css == css0 + Render(ColumnRules(Alive, r, c))
      invariant ruleCount == ruleCount0 + |ColumnRules(Alive, r, c)|
    {
      ghost var front := ColumnRules(Alive, r, c);
      ghost var cell := AssignmentRules(Alive, r, c, Bits.Pow2(2 * r + 1));
      css, ruleCount := CompileCell(r, c, css, ruleCount);
      assert ColumnRules(Alive, r, c + 1) == front + cell;
      RenderAppend(front, cell);
      Seqs.AppendAssoc(css0, Render(front), Render(cell));
      c := c + 1;
    }
    ColumnRulesCongruence(Alive, r, c, Columns(cols));
  }

  /**
   * The row loop of `compileCSS`: rows 1 .. min(rows, 6), each laid out by
   * `CompileRow`, appending to `css0` and counting from 0.
   */
  method CompileGrid(rows: int, cols: int, css0: string) returns (css: string, ruleCount: int)
    ensures css == css0 + Render(Emitted(rows, cols))
    ensures ruleCount == |Emitted(rows, cols)|
  {
    css := css0;
    ruleCount := 0;
    var effectiveRows := if rows < MaxCssRows then rows else MaxCssRows;
    var r := 1;
    while r <= effectiveRows
      invariant 1 <= r <= EffectiveRows(rows) + 1
      invariant css == css0 + Render(RowRules(Alive, r - 1, Columns(cols)))
      invariant ruleCount == |RowRules(Alive, r - 1, Columns(cols))|
    {
      ghost var done := RowRules(Alive, r - 1, Columns(cols));
      ghost var row := ColumnRules(Alive, r, Columns(cols));
      css, ruleCount := CompileRow(r, cols, css, ruleCount);
      assert RowRules(Alive, r, Columns(cols)) == done + row;
      RenderAppend(done, row);
      Seqs.AppendAssoc(css0, Render(done), Render(row));
      r := r + 1;
    }
    RowRulesCongruence(Alive, r - 1, EffectiveRows(rows), Columns(cols));
  }

  /**
   * Proof steps only, not facts about the stylesheet: equal counts give
   * equal lists. Stating them apart keeps the loops' proofs from unfolding
   * the list functions.
   */
  lemma RowRulesCongruence(live: (nat, nat) -> bool, n1: nat, n2: nat, cols: nat)
    requires n1 == n2
    ensures RowRules(live, n1, cols) == RowRules(live, n2, cols)
  {
  }

  lemma ColumnRulesCongruence(live: (nat, nat) -> bool, r: nat, n1: nat, n2: nat)
    requires n1 == n2
    ensures ColumnRules(live, r, n1) == ColumnRules(live, r, n2)
  {
  }

  /** One assignment further: the rule list grows by that assignment's rule exactly when it is live. */
  lemma AssignmentStep(r: nat, c: int, n: nat, kept: bool)
    requires kept == Alive(r, n)
    ensures kept ==> AssignmentRules(Alive, r, c, n + 1) == AssignmentRules(Alive, r, c, n) + [Rule(r, c, n)]
    ensures !kept ==> AssignmentRules(Alive, r, c, n + 1) == AssignmentRules(Alive, r, c, n)
  {
  }

  /** Proof step only, like `RowRulesCongruence`. */
  lemma AssignmentRulesCongruence(live: (nat, nat) -> bool, r: nat, c: int, n1: nat, n2: nat)
    requires n1 == n2
    ensures AssignmentRules(live, r, c, n1) == AssignmentRules(live, r, c, n2)
  {
  }

  /**
   * `compileCSS`: the header, every rule of `CompileGrid` (sentinel
   * selectors included), and a closing note when rows exceed the cap.
   */
  method CompileCSS(rows: int, cols: int) returns (css: string, ruleCount: int)
    ensures css == CssText(rows, cols)
    ensures ruleCount == |Emitted(rows, cols)|
  {
    css, ruleCount := CompileGrid(rows, cols, Header);
    if rows > MaxCssRows {
      css := css + NoteText(rows);
    }
  }
}
