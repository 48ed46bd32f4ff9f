# Rule 110 selector compiler, in Dafny

This project models the part of the "Rule 110 in pure CSS" page that does
the computing, and proves properties of that model. The page shows a tape of
checkboxes (generation 0) above a grid of derived rows. Its script
`compileCSS` writes a stylesheet in advance: every derived cell it covers
gets one sibling-selector rule per assignment of its dependency window that
Rule 110 turns live. The preset catalogue and `loadPreset` fill the tape with
a starting pattern.

Modules, one per file:

- `wrappers.dfy` (`Wrappers`): `Option`. `None` stands for a JavaScript `undefined`.
- `decimal.dfy` (`Decimal`): how template literals print integers (`${n}`), and the parser that undoes it.
- `bits.dfy` (`Bits`): `1 << width`, `i >> j` and `& 1`. The decoding of an assignment number into a window vector, leftmost entry most significant, and its inverse `Encode`.
- `rule110.dfy` (`Rule110`): `applyRule`; one generation on a shrinking window; `simulateRule110` as a loop over `NextRow`; the single-shot expansion `Cell`.
- `selector.dfy` (`Selector`): `generateSelector`, with the literal bound 30 and the `.impossible-state` sentinel.
- `seqs.dfy` (`Seqs`): flattening and mapping sequences.
- `compiler.dfy` (`Compiler`): `compileCSS` as nested loops. Each loop is proved against a list of rule records `Rule(row, col, assignment)` in emission order; the stylesheet is the header, then the rendering of that list, then the note.
- `compiler_facts.dfy` (`CompilerFacts`): what that list is, independently of the loops:
  - exactly the live triples under the row cap;
  - in row, column, assignment order and without repeats, so `ruleCount` is the number of such triples;
  - five rules per column in row 1;
  - sentinel rules included;
  - rows past the cap add only the note.
- `presets.dfy` (`Presets`): the catalogue, the generators, `getPresetList`, and `loadPreset` on an `array<bool>` tape.

The model follows what the code does, including where that differs from what its comments suggest:

- **Range bound.** `generateSelector` tests indices against the literal 30, not against the number of columns. The page is built with 40 columns, so tape cells 30 to 39 never appear in a selector. `Selector.SelectorBound` is 30.
- **Sentinel rules.** An assignment that needs a live cell outside the bound is not discarded. `compileCSS` emits a rule whose selector is `.impossible-state` and counts it in `ruleCount` (`CompilerFacts.SentinelRulesCounted`). The comment at `compiler.js:250-254` calls such an assignment a case that cannot exist and says its rule can be skipped; the code returns the sentinel instead, and `compileCSS` keeps the rule. Column 0 of row 1 therefore gets 5 rules, and the 2 for assignments 101 and 110 have the selector `.impossible-state`.
- **No validation.** `rows` and `cols` are not checked. A non-positive value makes the loops empty, and no error is raised.

`1 << width` is modelled as `Bits.Pow2(width)`. The largest width is 2·6+1 = 13, so the 32-bit shift never wraps.

## Model

| member | source | states |
|---|---|---|
| Rule110.ApplyRule | public/Day-210/scripts/compiler.js:223-235 | The eight-branch table equals "if left then centre ≠ right else centre ∨ right"; the fall-through `return false` is unreachable (a literal `assert false`). |
| Rule110.ApplyRuleAliveNeighbourhoods | public/Day-210/scripts/compiler.js:225-233 | A neighbourhood comes alive exactly when it is one of 001, 010, 011, 101, 110. |
| Rule110.ApplyRuleIsWolfram110 | public/Day-210/scripts/compiler.js:224-233 | The table is Wolfram rule 110: the next state of `lcr` is bit `4l+2c+r` of 110. |
| Rule110.Step | public/Day-210/scripts/compiler.js:210-215 | One generation turns a row of length L into one of length L−2 (empty below 3), whose cell k is the rule applied to cells k, k+1, k+2. |
| Rule110.StepUnique | public/Day-210/scripts/compiler.js:210-215 | Any row with that length and those cells is the generation `Step` computes. |
| Rule110.NextRow | public/Day-210/scripts/compiler.js:202-215 | The inner loop of `simulateRule110` builds exactly the next generation. |
| Rule110.SimulateRule110 | public/Day-210/scripts/compiler.js:194-221 | The method returns the first cell left after `targetRow` generations, or `undefined` when none is left. |
| Rule110.IterateLength | public/Day-210/scripts/compiler.js:199-217 | Each generation shrinks the window by exactly two, so a window of at least 2n cells has 2n fewer after n steps. |
| Rule110.IterateIsExpansion | public/Day-210/scripts/compiler.js:199-217 | The staged reduction equals the single-shot dependency expansion `Cell`, cell by cell. |
| Rule110.SimulateTip | public/Day-210/scripts/compiler.js:208-220 | A window of 2·r+1 bits reduces to exactly one defined bit: the tip of its pyramid. |
| Bits.EncodeDecode | public/Day-210/scripts/compiler.js:158-167 | Every assignment number below 2^width is recovered from its decoded window. |
| Bits.DecodeEncode | public/Day-210/scripts/compiler.js:158-167 | Every window vector is the decoding of its own number, leftmost entry most significant. |
| Bits.DecodeBijective | public/Day-210/scripts/compiler.js:159-167 | The enumeration 0 .. 2^width−1 visits every window vector of that width exactly once. |
| Compiler.DecodeInputs | public/Day-210/scripts/compiler.js:164-167 | The bit loop produces `Decode(i, width)`: entry `bit` is `((i >> (width-1-bit)) & 1) == 1`. |
| Decimal.ParseNatToString | public/Day-210/scripts/compiler.js:262 | A printed index reads back as the same number. |
| Selector.GenerateSelector | public/Day-210/scripts/compiler.js:237-270 | The result is the sentinel iff some bit outside [0, 30) is true. Otherwise it is the chain of in-range terms, left to right, followed by `.grid .r_<row>_c_<col>`. |
| Selector.ParseTermText | public/Day-210/scripts/compiler.js:262-264 | The text appended for a non-negative index, `#t_<index>` followed by `:checked ~ ` or `:not(:checked) ~ `, reads back as that index and that state. |
| Selector.TermTextInjective | public/Day-210/scripts/compiler.js:262-264 | Two terms with non-negative indices have the same text only if they are the same term: `#t_<index>` names one checkbox, in one state. |
| Selector.ChainSkip | public/Day-210/scripts/compiler.js:255-257 | An out-of-range false bit adds nothing to the selector. |
| Selector.ChainExtend | public/Day-210/scripts/compiler.js:260-265 | An in-range index appends its own term after the earlier ones. |
| Selector.ChainTargetIsNotSentinel | public/Day-210/scripts/compiler.js:256-268 | A built selector never equals `.impossible-state`, so the sentinel test is exact. |
| Selector.TermsSound | public/Day-210/scripts/compiler.js:248-265 | Every term names an index inside [0, 30) and the window, and carries that index's bit. |
| Selector.TermsComplete | public/Day-210/scripts/compiler.js:248-265 | Every in-range window index contributes its term. |
| Selector.TermsIncreasing | public/Day-210/scripts/compiler.js:248-265 | Terms appear in strictly increasing index order. |
| Selector.RestoreTerms | public/Day-210/scripts/compiler.js:250-259 | For an assignment that is not unreachable, pruning loses nothing: the terms determine the whole window, with out-of-range cells false. |
| Compiler.CompileAssignment | public/Day-210/scripts/compiler.js:161-175 | One pass emits text iff the decoded window's Rule 110 apex is alive; the text is that assignment's selector plus the declaration block. |
| Compiler.CompileCell | public/Day-210/scripts/compiler.js:158-176 | The assignment loop appends the rules of the live assignments of cell (r, c) in order and adds their number to the counter. |
| Compiler.CompileRow | public/Day-210/scripts/compiler.js:144-177 | The column loop appends the rules of columns 0 .. cols−1 in order and counts them. |
| Compiler.CompileGrid | public/Day-210/scripts/compiler.js:135-178 | The row loop over 1 .. min(rows, 6) appends every emitted rule and leaves `ruleCount` at their number. |
| Compiler.CompileCSS | public/Day-210/scripts/compiler.js:120-186 | The output is the header, the rendered rule list, and the note when rows > 6; `ruleCount` is the length of the list. |
| Compiler.RenderAppend | public/Day-210/scripts/compiler.js:173 | Appending rules to the stylesheet appends their texts. |
| Compiler.AssignmentStep | public/Day-210/scripts/compiler.js:170-175 | An assignment adds its rule to the list exactly when it is live. |
| CompilerFacts.EmittedMember | public/Day-210/scripts/compiler.js:141-176 | A rule is emitted iff 1 ≤ row ≤ min(rows, 6), 0 ≤ col < cols, assignment < 2^(2·row+1), and the assignment is live. |
| CompilerFacts.AssignmentRulesMember | public/Day-210/scripts/compiler.js:161-175 | The rules of one cell are exactly its live assignments below the bound. |
| CompilerFacts.ColumnRulesMember | public/Day-210/scripts/compiler.js:144-177 | The rules of one row are exactly the live assignments of its columns. |
| CompilerFacts.RowRulesMember | public/Day-210/scripts/compiler.js:143-178 | The rules of rows 1 .. n are exactly the live triples of those rows. |
| CompilerFacts.EmittedOrdered | public/Day-210/scripts/compiler.js:143-175 | Rules come out in row, column, assignment order, strictly. |
| CompilerFacts.RuleCount | public/Day-210/scripts/compiler.js:135-176 | `ruleCount` equals the number of counted triples (row, col, assignment). |
| CompilerFacts.OrderedCardinality | public/Day-210/scripts/compiler.js:174 | A strictly ordered list has no repeats, so counting rules counts distinct triples. |
| CompilerFacts.RowOneAlive | public/Day-210/scripts/compiler.js:225-233 | Of the eight row-1 assignments, exactly 1, 2, 3, 5 and 6 are live. |
| CompilerFacts.RowOneWindow | public/Day-210/scripts/compiler.js:158-170 | The 3-bit window `l c r` is assignment 4l+2c+r, and it is live exactly as `applyRule(l, c, r)`. |
| CompilerFacts.RowOneRules | public/Day-210/scripts/compiler.js:72 | Each row-1 cell gets the rules for assignments 1, 2, 3, 5, 6, in that order. |
| CompilerFacts.RowOneCount | public/Day-210/scripts/compiler.js:72 | Row 1 contributes exactly 5 rules per column. |
| CompilerFacts.SentinelRulesCounted | public/Day-210/scripts/compiler.js:170-175 | Column 0 of row 1 emits and counts two rules whose selector is `.impossible-state` (assignments 101 and 110). |
| CompilerFacts.SentinelSelector | public/Day-210/scripts/compiler.js:255-256 | A row-1, column-0 window whose left bit (index −1) is set yields the sentinel. |
| CompilerFacts.CappedOutput | public/Day-210/scripts/compiler.js:140-183 | With rows > 6, the rules are those for 6 rows and the text is the 6-row text plus the note naming rows 7 .. rows. |
| Presets.Find | public/Day-210/scripts/presets.js:109 | A lookup fails iff no entry has the key; on success it returns an entry stored under that key. |
| Presets.Lookup | public/Day-210/scripts/presets.js:109-110 | `PRESETS[key]` is falsy iff the key is neither a catalogue key nor a name inherited from `Object.prototype`. |
| Presets.CatalogueKeysDistinct | public/Day-210/scripts/presets.js:14-101 | The eleven catalogue keys are pairwise distinct. |
| Presets.FindEntry | public/Day-210/scripts/presets.js:109 | Looking up the key of an entry finds that entry. |
| Presets.GetPresetList | public/Day-210/scripts/presets.js:145-151 | One record per catalogue key. |
| Presets.PresetListLoads | public/Day-210/scripts/presets.js:145-151 | Every listed record's key loads a preset with that record's name and description. |
| Presets.PresetListComplete | public/Day-210/scripts/presets.js:145-151 | Every catalogue key is listed. |
| Presets.Random | public/Day-210/scripts/presets.js:18-21 | Length `cols`; entry i is 1 iff draw i exceeds one half, else 0. |
| Presets.Single | public/Day-210/scripts/presets.js:27-31 | Length `cols`; the only 1 is at index cols−1. |
| Presets.DenseBlock | public/Day-210/scripts/presets.js:94-98 | The loop yields `Dense(cols)`: ones exactly at cols/2−5 .. cols/2+5, with negative indices ignored and indices past the end extending the array. |
| Presets.DenseWide | public/Day-210/scripts/presets.js:94-98 | For cols ≥ 11 the array has length cols, with ones exactly at cols/2−5 .. cols/2+5. |
| Presets.Offset | public/Day-210/scripts/presets.js:130 | The offset is max(0, cols − length of data − 2) for data presets and 0 otherwise. |
| Presets.Placed | public/Day-210/scripts/presets.js:132-137 | The tape has `cols` cells. Cell offset+i is `pattern[i] != 0` when it exists, entries past the end are dropped, and every other cell is false. |
| Presets.ClearTape | public/Day-210/scripts/presets.js:116 | Every checkbox ends unchecked. |
| Presets.WritePattern | public/Day-210/scripts/presets.js:132-137 | Writing the pattern over a cleared tape yields `Placed(cols, pattern, offset)`. |
| Presets.GeneratePattern | public/Day-210/scripts/presets.js:119-120 | The `generate` branch yields the generator's pattern for the tape width. |
| Presets.LoadFound | public/Day-210/scripts/presets.js:112-137 | A found preset leaves the tape as its pattern placed from its offset on a cleared tape. |
| Presets.LoadPreset | public/Day-210/scripts/presets.js:108-140 | An unknown key leaves the tape unchanged; a known one leaves it cleared and then written with the pattern from the offset. |
| Presets.InheritedKeyClears | public/Day-210/scripts/presets.js:109-137 | A name inherited from `Object.prototype` clears the tape and writes nothing. |
| Presets.CatalogueHasNoInheritedKey | public/Day-210/scripts/presets.js:14-101 | No catalogue key shadows an inherited name. |
| Presets.SingleLoads | public/Day-210/scripts/presets.js:24-31 | Loading `single` lights the rightmost cell and no other. |
| Presets.AlternatingLoads | public/Day-210/scripts/presets.js:37-40 | Loading `alternating` lights exactly the even cells. |
| Presets.DataLoads | public/Day-210/scripts/presets.js:121-137 | With room on the tape, a data preset occupies cells cols − (length of data) − 2 .. cols − 3 as booleans; the two rightmost cells and all cells to its left stay clear. |

## Left out

- **Page and interface.** The DOM and the user interface are not modelled: building the tape and grid, event wiring, themes, modals, keyboard handling and canvas export (`setup.js`, `ui.js`). `loadPreset`'s `querySelectorAll` lookup becomes an array parameter whose length is the column count, and its `console.log` line is dropped.
- **Naming contract.** The page names its checkboxes `t_<c>` and its cells `r_<r>_c_<c>`. This is recorded only as a comment in `selector.dfy`.
- **CSS semantics.** Browser matching of selectors is not modelled. The header and the declaration block are opaque constant strings, copied verbatim.
- **Random draws.** `Math.random` in the `random` generator becomes the oracle parameter `coin`. Which draws the browser produces is not modelled.
- **Number types.** `rows` and `cols` are integers. Fractional or `NaN` arguments to `compileCSS`, and a fractional `cols` for `new Array(cols)`, are not modelled.
- **Undefined simulation result.** `Rule110.SimulateRule110` returns `None` where the source returns `undefined`. `compileCSS` always passes a window of 2·r+1 bits, so that case never reaches it (`Rule110.SimulateTip`).
- **Property order.** JavaScript's general property-order rules are not modelled. `GetPresetList` lists keys in declaration order, because no catalogue key is an integer-like string.
- **Generator text.** `Presets.Alternating` states its pattern through `Presets.AlternatingLoads`, and `Presets.Dense` through `Presets.DenseBlock` and `Presets.DenseWide`. Neither function carries its own contract.
- **Other repository files.** Nothing else in the repository is modelled: `public/Day20/script.js`, `public/Day 04/script.js` and `public/Day 30/games.js`.
