/**
 * The preset catalogue of the Rule 110 page and `loadPreset`, which
 * writes a preset onto the tape of checkboxes.
 *
 * Pattern entries are the catalogue's numbers (0 dead, 1 alive); a tape
 * cell is a checkbox state. The tape is an array whose length is the
 * number of columns. `Math.random` is an oracle parameter `coin`: draw `i`
 * exceeds one half exactly when `coin(i)` holds.
 */
module Presets {
  import opened Wrappers

  /** The four `generate` functions of the catalogue. */
  datatype Generator = RandomNoise | SingleCell | AlternatingCells | DenseCentre

  /**
   * A preset carries either a generator over the tape width or a fixed
   * `data` array; an object inherited from `Object.prototype` has neither.
   */
  datatype Source = Generate(generator: Generator) | Data(data: seq<nat>) | NoPattern

  datatype Preset = Preset(name: string, description: string, source: Source)

  /** One record of `getPresetList`. */
  datatype PresetInfo = PresetInfo(key: string, name: string, description: string)

  /** `PRESETS`: its own keys in declaration order, each with its preset. */
  const Catalogue: seq<(string, Preset)> := [
    ("random", Preset("Random Noise",
      "A random distribution of bits. Often settles into stable periodic structures.",
      Generate(RandomNoise))),
    ("single", Preset("Single Cell",
      "A single active cell at the right edge. Generates the classic Rule 110 triangle.",
      Generate(SingleCell))),
    ("alternating", Preset("Alternating",
      "1-0-1-0 pattern. Creates a chaotic interaction zone.",
      Generate(AlternatingCells))),
    ("spaceship_A", Preset("Standard Glider",
      "One of the most common background structures in Rule 110.",
      Data([0, 0, 0, 1, 1, 0, 1, 1, 1, 0, 0, 0]))),
    ("repeater", Preset("Simple Repeater",
      "A small periodic structure.",
      Data([1, 1, 1, 0, 1, 0, 0, 1, 1, 0]))),
    ("ether", Preset("Ether Pattern",
      "The background texture of Rule 110.",
      Data([0, 0, 1, 1, 1, 0, 1, 1, 0, 1, 1, 1, 1, 1, 0, 0, 0, 1]))),
    ("gun_variant", Preset("Glider Gun Variant",
      "Produces multiple gliders over time.",
      Data([1, 1, 1, 0, 1, 1, 0, 1, 0, 0, 0, 1, 1, 1, 0, 0, 1]))),
    ("chaos_A", Preset("Chaos Seed A",
      "A small seed that grows chaotically.",
      Data([0, 0, 0, 1, 1, 1, 0, 1, 1, 1, 0, 0, 0]))),
    ("chaos_B", Preset("Chaos Seed B",
      "Another chaotic seed.",
      Data([1, 0, 1, 0, 0, 1, 0, 0, 0, 1, 1]))),
    ("oscillator_long", Preset("Long Oscillator",
      "Repeats after many generations.",
      Data([1, 1, 1, 1, 1, 0, 0, 0, 1, 0, 0, 1, 1, 0, 1]))),
    ("dense", Preset("Dense Block",
      "A solid block of 1s.",
      Generate(DenseCentre)))
  ]

  /** The first entry of `entries` under `key`, as a property read on the catalogue object. */
  function Find(entries: seq<(string, Preset)>, key: string): (found: Option<Preset>)
    ensures found.None? <==> forall k :: 0 <= k < |entries| ==> entries[k].0 != key
    ensures found.Some? ==> exists k :: 0 <= k < |entries| && entries[k] == (key, found.value)
  {
    if entries == [] then None
    else if entries[0].0 == key then Some(entries[0].1)
    else
      var rest := Find(entries[1..], key);
      assert forall k :: 1 <= k < |entries| ==> entries[k] == entries[1..][k - 1];
      rest
  }

  /**
   * The names `PRESETS` inherits from `Object.prototype`: reading one of
   * them yields a truthy value that is not a catalogue entry.
   */
  const InheritedKeys: set<string> := {
    "constructor", "hasOwnProperty", "isPrototypeOf", "propertyIsEnumerable", "toLocaleString",
    "toString", "valueOf", "__proto__", "__defineGetter__", "__defineSetter__",
    "__lookupGetter__", "__lookupSetter__"
  }

  /** What an inherited name reads as: no generator and no data (its name is irrelevant to loading). */
  const Inherited := Preset("", "", NoPattern)

  /** `PRESETS[key]`, when truthy: an own entry first, then an inherited property; `None` otherwise. */
  function Lookup(key: string): (found: Option<Preset>)
    ensures found.None? <==> key !in InheritedKeys && forall k :: 0 <= k < |Catalogue| ==> Catalogue[k].0 != key
  {
    match Find(Catalogue, key)
    case Some(preset) => Some(preset)
    case None => if key in InheritedKeys then Some(Inherited) else None
  }

  /** No key of the catalogue is declared twice. */
  lemma CatalogueKeysDistinct()
    ensures forall j, k :: 0 <= j < k < |Catalogue| ==> Catalogue[j].0 != Catalogue[k].0
  {
    // Length, first and last character already tell the keys apart.
    var sigs := seq(|Catalogue|, k requires 0 <= k < |Catalogue| => Signature(Catalogue[k].0));
    assert sigs == [(6, 'r', 'm'), (6, 's', 'e'), (11, 'a', 'g'), (11, 's', 'A'), (8, 'r', 'r'), (5, 'e', 'r'),
                    (11, 'g', 't'), (7, 'c', 'A'), (7, 'c', 'B'), (15, 'o', 'g'), (5, 'd', 'e')];
  }

  function Signature(s: string): (int, char, char)
  {
    if s == [] then (0, ' ', ' ') else (|s|, s[0], s[|s| - 1])
  }

  /** With distinct keys, looking up the key of entry `k` finds entry `k`. */
  lemma {:induction false} FindEntry(entries: seq<(string, Preset)>, k: nat)
    requires k < |entries|
    requires forall j :: 0 <= j < k ==> entries[j].0 != entries[k].0
    ensures Find(entries, entries[k].0) == Some(entries[k].1)
    decreases k
  {
    if k > 0 {
      var rest := entries[1..];
      assert rest[k - 1] == entries[k];
      forall j | 0 <= j < k - 1
        ensures rest[j].0 != rest[k - 1].0
      {
        assert rest[j] == entries[j + 1];
      }
      FindEntry(rest, k - 1);
    }
  }

  /** `getPresetList`: one record per key, in key order. */
  function GetPresetList(): (list: seq<PresetInfo>)
    ensures |list| == |Catalogue|
  {
    seq(|Catalogue|, k requires 0 <= k < |Catalogue| =>
      PresetInfo(Catalogue[k].0, Catalogue[k].1.name, Catalogue[k].1.description))
  }

  /** Every listed record names a preset that loads, with that record's name and description. */
  lemma PresetListLoads(k: nat)
    requires k < |GetPresetList()|
    ensures Lookup(GetPresetList()[k].key).Some?
    ensures Lookup(GetPresetList()[k].key).value.name == GetPresetList()[k].name
    ensures Lookup(GetPresetList()[k].key).value.description == GetPresetList()[k].description
  {
    CatalogueKeysDistinct();
    FindEntry(Catalogue, k);
  }

  /** Every key that loads a catalogue entry is listed. */
  lemma PresetListComplete(key: string)
    requires Find(Catalogue, key).Some?
    ensures exists k :: 0 <= k < |GetPresetList()| && GetPresetList()[k].key == key
  {
    var k :| 0 <= k < |Catalogue| && Catalogue[k] == (key, Find(Catalogue, key).value);
    assert GetPresetList()[k].key == key;
  }

  /** The `random` generator with the draws given by `coin`. */
  function Random(cols: nat, coin: nat -> bool): (arr: seq<nat>)
    ensures |arr| == cols
    ensures forall i :: 0 <= i < cols ==> (arr[i] == 1 <==> coin(i)) && arr[i] <= 1
  {
    seq(cols, i requires 0 <= i < cols => if coin(i) then 1 else 0)
  }

  /**
   * The `single` generator: zeros with a 1 at index `cols - 1`. With no
   * columns that write lands on a non-index property, so the array stays empty.
   */
  function Single(cols: nat): (arr: seq<nat>)
    ensures |arr| == cols
    ensures forall j :: 0 <= j < cols ==> (arr[j] == 1 <==> j == cols - 1) && arr[j] <= 1
  {
    if cols == 0 then [] else seq(cols - 1, _ => 0) + [1]
  }

  /** The `alternating` generator: 1 at even indices, 0 at odd ones. */
  function Alternating(cols: nat): (arr: seq<nat>)
  {
    seq(cols, i => if i % 2 == 0 then 1 else 0)
  }

  /**
   * What the `dense` generator returns: the loop sets indices
   * `cols/2 - 5 .. cols/2 + 5`; a negative index is a no-op for the array,
   * and indices at or past its end extend it one cell at a time.
   */
  function Dense(cols: nat): seq<nat>
  {
    var centre := cols / 2;
    seq(Max(cols, centre + 6), j => if centre - 5 <= j <= centre + 5 then 1 else 0)
  }

  function Max(a: int, b: int): int
  {
    if a < b then b else a
  }

  /** The `dense` generator's loop. */
  method DenseBlock(cols: nat) returns (arr: seq<nat>)
    ensures arr == Dense(cols)
  {
    arr := seq(cols, _ => 0);
    var centre := cols / 2;
    var i := centre - 5;
    while i <= centre + 5
      invariant centre - 5 <= i <= centre + 6
      invariant |arr| == Max(cols, i)
      invariant forall j :: 0 <= j < |arr| ==> arr[j] == if centre - 5 <= j < i then 1 else 0
    {
      if 0 <= i < |arr| {
        arr := arr[i := 1];
      } else if 0 <= i {
        arr := arr + [1];
      }
      i := i + 1;
    }
  }

  /** For a tape of at least 11 cells, `dense` lights exactly the 11 cells centred on `cols / 2`. */
  lemma DenseWide(cols: nat)
    requires cols >= 11
    ensures |Dense(cols)| == cols
    ensures forall j :: 0 <= j < cols ==> (Dense(cols)[j] == 1 <==> cols / 2 - 5 <= j <= cols / 2 + 5)
    ensures forall j :: 0 <= j < cols ==> Dense(cols)[j] <= 1
  {
  }

  /** The pattern a preset yields for a tape of `cols` cells. */
  function Pattern(preset: Preset, cols: nat, coin: nat -> bool): seq<nat>
  {
    match preset.source
    case Data(data) => data
    case Generate(RandomNoise) => Random(cols, coin)
    case Generate(SingleCell) => Single(cols)
    case Generate(AlternatingCells) => Alternating(cols)
    case Generate(DenseCentre) => Dense(cols)
    case NoPattern => []
  }

  /** Where the pattern starts: two cells short of the right edge for data presets, at 0 for generated ones. */
  function Offset(preset: Preset, cols: nat): (offset: nat)
    ensures preset.source.Data? && cols >= |preset.source.data| + 2 ==> offset + |preset.source.data| + 2 == cols
    ensures preset.source.Data? && cols < |preset.source.data| + 2 ==> offset == 0
    ensures !preset.source.Data? ==> offset == 0
  {
    if preset.source.Data? then Max(0, cols - |preset.source.data| - 2) else 0
  }

  /**
   * A reset tape of `cols` cells after the pattern is written from
   * `offset`: pattern entries that fall past the end are dropped.
   */
  function Placed(cols: nat, pattern: seq<nat>, offset: nat): (tape: seq<bool>)
    ensures |tape| == cols
    ensures forall i :: 0 <= i < |pattern| && offset + i < cols ==> tape[offset + i] == (pattern[i] != 0)
    ensures forall j :: 0 <= j < cols && (j < offset || j >= offset + |pattern|) ==> !tape[j]
  {
    seq(cols, j requires 0 <= j < cols => offset <= j < offset + |pattern| && pattern[j - offset] != 0)
  }

  /** The `generate` branch of `loadPreset`: the only generator with a loop runs as a method. */
  method GeneratePattern(generator: Generator, cols: nat, coin: nat -> bool) returns (pattern: seq<nat>)
    ensures pattern == Pattern(Preset("", "", Generate(generator)), cols, coin)
  {
    match generator
    case RandomNoise => pattern := Random(cols, coin);
    case SingleCell => pattern := Single(cols);
    case AlternatingCells => pattern := Alternating(cols);
    case DenseCentre => pattern := DenseBlock(cols);
  }

  /**
   * `loadPreset`: an unknown key leaves the tape alone; otherwise every cell
   * is cleared, then the preset's pattern is written from its offset, each
   * entry set when it lands on the tape.
   */
  method LoadPreset(key: string, tape: array<bool>, coin: nat -> bool)
    modifies tape
    ensures Lookup(key).None? ==> tape[..] == old(tape[..])
    ensures Lookup(key).Some? ==> tape[..] == Placed(tape.Length, Pattern(Lookup(key).value, tape.Length, coin), Offset(Lookup(key).value, tape.Length))
  {
    var found := Lookup(key);
    if found.Some? {
      LoadFound(found.value, tape, coin);
    }
  }

  /** `loadPreset` once the key has named `preset`. */
  method LoadFound(preset: Preset, tape: array<bool>, coin: nat -> bool)
    modifies tape
    ensures tape[..] == Placed(tape.Length, Pattern(preset, tape.Length, coin), Offset(preset, tape.Length))
  {
    var cols := tape.Length;
    ClearTape(tape);
    var pattern: seq<nat> := [];
    if preset.source.Generate? {
      pattern := GeneratePattern(preset.source.generator, cols, coin);
    } else if preset.source.Data? {
      pattern := preset.source.data;
    }
    var offset := if preset.source.Data? then Max(0, cols - |preset.source.data| - 2) else 0;
    assert pattern == Pattern(preset, cols, coin) && offset == Offset(preset, cols);
    WritePattern(tape, pattern, offset);
  }

  /** The reset loop of `loadPreset`: every checkbox unchecked. */
  method ClearTape(tape: array<bool>)
    modifies tape
    ensures forall k :: 0 <= k < tape.Length ==> !tape[k]
  {
    var j := 0;
    while j < tape.Length
      invariant 0 <= j <= tape.Length
      invariant forall k :: 0 <= k < j ==> !tape[k]
    {
      tape[j] := false;
      j := j + 1;
    }
  }

  /** The placement loop of `loadPreset` over a cleared tape: entry `i` goes to cell `offset + i` when that cell exists. */
  method WritePattern(tape: array<bool>, pattern: seq<nat>, offset: nat)
    requires forall k :: 0 <= k < tape.Length ==> !tape[k]
    modifies tape
    ensures tape[..] == Placed(tape.Length, pattern, offset)
  {
    var i := 0;
    while i < |pattern|
      invariant 0 <= i <= |pattern|
      invariant forall k :: 0 <= k < tape.Length ==> tape[k] == (offset <= k < offset + i && pattern[k - offset] != 0)
    {
      var target := offset + i;
      if target < tape.Length {
        tape[target] := pattern[i] != 0;
      }
      i := i + 1;
    }
  }

  /** A name inherited from `Object.prototype` clears the tape and writes nothing. */
  lemma InheritedKeyClears(key: string, cols: nat, coin: nat -> bool)
    requires key in InheritedKeys
    ensures Lookup(key).Some?
    ensures forall j :: 0 <= j < cols ==> !Placed(cols, Pattern(Lookup(key).value, cols, coin), Offset(Lookup(key).value, cols))[j]
  {
    CatalogueHasNoInheritedKey();
    assert Find(Catalogue, key).None?;
    assert Lookup(key) == Some(Inherited);
  }

  /** No catalogue key shadows an inherited name. */
  lemma CatalogueHasNoInheritedKey()
    ensures forall k :: 0 <= k < |Catalogue| ==> Catalogue[k].0 !in InheritedKeys
  {
    var sigs := seq(|Catalogue|, k requires 0 <= k < |Catalogue| => Signature(Catalogue[k].0));
    assert sigs == [(6, 'r', 'm'), (6, 's', 'e'), (11, 'a', 'g'), (11, 's', 'A'), (8, 'r', 'r'), (5, 'e', 'r'),
                    (11, 'g', 't'), (7, 'c', 'A'), (7, 'c', 'B'), (15, 'o', 'g'), (5, 'd', 'e')];
    forall k, name | 0 <= k < |Catalogue| && name in InheritedKeys
      ensures Catalogue[k].0 != name
    {
      assert Signature(name) != sigs[k];
    }
  }

  /** Loading `single` lights the rightmost cell and nothing else. */
  lemma SingleLoads(cols: nat)
    requires cols >= 1
    ensures forall j :: 0 <= j < cols ==> (Placed(cols, Single(cols), 0)[j] <==> j == cols - 1)
  {
  }

  /** Loading `alternating` lights exactly the even cells. */
  lemma AlternatingLoads(cols: nat)
    ensures forall j :: 0 <= j < cols ==> (Placed(cols, Alternating(cols), 0)[j] <==> j % 2 == 0)
  {
  }

  /**
   * Loading a data preset onto a tape with room for it writes the data,
   * read as booleans, into cells `cols - |data| - 2 .. cols - 3`; the two
   * rightmost cells and everything to the left of the data stay clear.
   */
  lemma DataLoads(preset: Preset, cols: nat)
    requires preset.source.Data? && cols >= |preset.source.data| + 2
    ensures var data := preset.source.data;
            var tape := Placed(cols, data, Offset(preset, cols));
            && tape[cols - |data| - 2 .. cols - 2] == seq(|data|, i requires 0 <= i < |data| => data[i] != 0)
            && !tape[cols - 1] && !tape[cols - 2]
            && forall j :: 0 <= j < cols - |data| - 2 ==> !tape[j]
  {
  }
}
