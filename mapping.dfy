/** Calibration of a character set against its glyphs' measured intensities
    (`make_mapping`): the intensity -> character dictionary, its normalisation
    range, and the 256-entry luminance -> (normalised intensity, character) table. */
module Mapping {

  /** Glyphs taller than this many pixel rows do not fit one text row and are skipped. */
  const MaxGlyphHeight := 11

  /** Number of luminance levels, and so of lookup-table entries. */
  const Levels := 256

  datatype Option<T> = None | Some(value: T)

  /** What the font reports for one charset character: its cell size
      (`font.getsize`) and the intensity of its rendered bitmap. */
  datatype Glyph = Glyph(ch: char, width: int, height: int, intensity: real)

  /** One item of the intensity -> character dictionary, in insertion order. */
  datatype Pair = Pair(key: real, ch: char)

  /** One lookup-table entry: the chosen glyph's own normalised intensity and its character. */
  datatype Entry = Entry(value: real, ch: char)

  datatype CalibrationError =
    | NoUsableGlyphs     // no glyph passed the height filter: `min` of an empty dict
    | DegenerateCharset  // one distinct intensity only: `mx - mn` is zero

  datatype Result<T> = Success(value: T) | Failure(error: CalibrationError)

  /** A successful calibration: the table and the size of the last glyph measured. */
  datatype Calibration = Calibration(table: seq<Entry>, cellWidth: int, cellHeight: int)

  predicate Survives(g: Glyph) {
    g.height <= MaxGlyphHeight
  }

  /** `g` is a surviving glyph of intensity `k`. */
  predicate Carries(g: Glyph, k: real) {
    Survives(g) && g.intensity == k
  }

  predicate HasKey(d: seq<Pair>, k: real) {
    exists p :: 0 <= p < |d| && d[p].key == k
  }

  /** The dictionary invariant: no key occurs twice. */
  predicate DistinctKeys(d: seq<Pair>) {
    forall p, q :: 0 <= p < q < |d| ==> d[p].key != d[q].key
  }

  function Abs(x: real): real {
    if x < 0.0 then -x else x
  }

  /** The position of key `k` in `d`, or `|d|` when it is absent. */
  function KeyIndex(d: seq<Pair>, k: real): (p: nat)
    ensures p <= |d|
    ensures p < |d| ==> d[p].key == k
    ensures p == |d| ==> !HasKey(d, k)
  {
    if d == [] then 0
    else
      var p := KeyIndex(d[..|d| - 1], k);
      if p < |d| - 1 then p
      else if d[|d| - 1].key == k then |d| - 1
      else
        |d|
  }

  /** Dictionary assignment `d[k] = c`: an existing key keeps its position and
      takes the new character, a new key goes at the end. */
  function Assign(d: seq<Pair>, k: real, c: char): (r: seq<Pair>)
    requires DistinctKeys(d)
    ensures DistinctKeys(r)
    ensures HasKey(d, k) ==>
              |r| == |d| && forall p :: 0 <= p < |d| ==> r[p] == if d[p].key == k then Pair(k, c) else d[p]
    ensures !HasKey(d, k) ==> r == d + [Pair(k, c)]
  {
    var p := KeyIndex(d, k);
    if p < |d| then d[p := Pair(k, c)] else d + [Pair(k, c)]
  }

  /** The dictionary the calibration loop builds: for every surviving glyph, in
      charset order, `float_mapping[intensity] = char`. */
  function FloatMapping(glyphs: seq<Glyph>): (d: seq<Pair>)
    ensures DistinctKeys(d)
  {
    if glyphs == [] then []
    else
      var d := FloatMapping(glyphs[..|glyphs| - 1]);
      var g := glyphs[|glyphs| - 1];
      if Survives(g) then Assign(d, g.intensity, g.ch) else d
  }

  /** No surviving glyph after position `j` has intensity `k`. */
  predicate LastCarrier(glyphs: seq<Glyph>, j: int, k: real) {
    forall j' :: 0 <= j' < |glyphs| && j < j' ==> !Carries(glyphs[j'], k)
  }

  /** The character of the last surviving glyph of intensity `k`, if any. */
  function LastWith(glyphs: seq<Glyph>, k: real): (o: Option<char>)
    ensures o.None? <==> forall j :: 0 <= j < |glyphs| ==> !Carries(glyphs[j], k)
    ensures o.Some? ==>
              exists j :: 0 <= j < |glyphs| && Carries(glyphs[j], k) && glyphs[j].ch == o.value && LastCarrier(glyphs, j, k)
  {
    if glyphs == [] then None
    else if Carries(glyphs[|glyphs| - 1], k) then Some(glyphs[|glyphs| - 1].ch)
    else
      var o := LastWith(glyphs[..|glyphs| - 1], k);
      assert forall j :: 0 <= j < |glyphs| - 1 ==> glyphs[..|glyphs| - 1][j] == glyphs[j];
      o
  }

  /** The position of the first surviving glyph of intensity `k`, or `|glyphs|`. */
  function FirstWith(glyphs: seq<Glyph>, k: real): (j: nat)
    ensures j <= |glyphs|
    ensures j < |glyphs| ==> Carries(glyphs[j], k)
    ensures forall j' :: 0 <= j' < j && j' < |glyphs| ==> !Carries(glyphs[j'], k)
  {
    if glyphs == [] then 0
    else
      var j := FirstWith(glyphs[..|glyphs| - 1], k);
      assert forall j' :: 0 <= j' < |glyphs| - 1 ==> glyphs[..|glyphs| - 1][j'] == glyphs[j'];
      if j < |glyphs| - 1 || Carries(glyphs[|glyphs| - 1], k) then j else |glyphs|
  }

  /** `min(float_mapping)`: the smallest intensity. */
  function MinKey(d: seq<Pair>): (m: real)
    requires d != []
    ensures HasKey(d, m)
    ensures forall p :: 0 <= p < |d| ==> m <= d[p].key
  {
    if |d| == 1 then d[0].key
    else
      var m := MinKey(d[1..]);
      assert forall p :: 1 <= p < |d| ==> d[p] == d[1..][p - 1];
      if d[0].key <= m then d[0].key else m
  }

  /** `max(float_mapping)`: the largest intensity. */
  function MaxKey(d: seq<Pair>): (m: real)
    requires d != []
    ensures HasKey(d, m)
    ensures forall p :: 0 <= p < |d| ==> d[p].key <= m
  {
    if |d| == 1 then d[0].key
    else
      var m := MaxKey(d[1..]);
      assert forall p :: 1 <= p < |d| ==> d[p] == d[1..][p - 1];
      if m <= d[0].key then d[0].key else m
  }

  /** An intensity rescaled by the normalisation range. */
  function Normalise(k: real, mn: real, mx: real): real
    requires mn != mx
  {
    (k - mn) / (mx - mn)
  }

  /** The key `min` minimises at level `n`: `|n/255 - (k - mn)/(mx - mn)|`. */
  function Distance(n: int, k: real, mn: real, mx: real): real
    requires mn != mx
  {
    Abs(n as real / 255.0 - Normalise(k, mn, mx))
  }

  /** `min(float_mapping.items(), key=...)`: the position of the nearest key,
      scanning in insertion order and replacing only on a strictly smaller
      distance, so the earliest of equally near keys wins. */
  function Nearest(d: seq<Pair>, n: int, mn: real, mx: real): (r: nat)
    requires d != [] && mn != mx
    ensures r < |d|
  {
    if |d| == 1 then 0
    else
      var r := Nearest(d[..|d| - 1], n, mn, mx);
      if Distance(n, d[|d| - 1].key, mn, mx) < Distance(n, d[r].key, mn, mx) then |d| - 1 else r
  }

  /** `Nearest` is the first key of least distance. */
  lemma {:induction false} NearestMinimal(d: seq<Pair>, n: int, mn: real, mx: real)
    requires d != [] && mn != mx
    ensures forall p :: 0 <= p < |d| ==>
      Distance(n, d[Nearest(d, n, mn, mx)].key, mn, mx) <= Distance(n, d[p].key, mn, mx)
    ensures forall p :: 0 <= p < Nearest(d, n, mn, mx) ==>
      Distance(n, d[Nearest(d, n, mn, mx)].key, mn, mx) < Distance(n, d[p].key, mn, mx)
  {
    if |d| > 1 {
      var init := d[..|d| - 1];
      NearestMinimal(init, n, mn, mx);
      assert forall p :: 0 <= p < |init| ==> init[p] == d[p];
    }
  }

  /** The normalisation range is usable: some key exists and not all keys are equal. */
  predicate Calibratable(d: seq<Pair>) {
    d != [] && MinKey(d) != MaxKey(d)
  }

  /** Table entry `n`: the nearest key's own normalised intensity and its character. */
  function EntryFor(d: seq<Pair>, n: int): Entry
    requires Calibratable(d)
  {
    var mn, mx := MinKey(d), MaxKey(d);
    var p := Nearest(d, n, mn, mx);
    Entry(Normalise(d[p].key, mn, mx), d[p].ch)
  }

  /** `make_mapping`, from the glyph measurements on: fill the dictionary from
      the surviving glyphs, take its normalisation range, and give every
      luminance level the nearest glyph. */
  method MakeMapping(glyphs: seq<Glyph>) returns (r: Result<Calibration>)
    ensures r == Failure(NoUsableGlyphs) <==> forall j :: 0 <= j < |glyphs| ==> !Survives(glyphs[j])
    ensures r == Failure(DegenerateCharset) <==>
      (exists j :: 0 <= j < |glyphs| && Survives(glyphs[j])) && OneIntensity(glyphs)
    ensures r.Success? ==>
              Calibratable(FloatMapping(glyphs)) && |r.value.table| == Levels &&
              forall n :: 0 <= n < Levels ==> r.value.table[n] == EntryFor(FloatMapping(glyphs), n)
    ensures r.Success? ==>
              glyphs != [] &&
              r.value.cellWidth == glyphs[|glyphs| - 1].width && r.value.cellHeight == glyphs[|glyphs| - 1].height
  {
    var floatMapping := FillDictionary(glyphs);
    FloatMappingEmpty(glyphs);
    if floatMapping == [] {
      return Failure(NoUsableGlyphs);
    }
    FloatMappingDegenerate(glyphs);
    if MinKey(floatMapping) == MaxKey(floatMapping) {
      return Failure(DegenerateCharset);
    }
    var table := FillTable(floatMapping);
    var last := glyphs[|glyphs| - 1];
    r := Success(Calibration(table, last.width, last.height));
  }

  /** The first loop of `make_mapping`: `float_mapping[avg] = char` for every
      glyph that passes the height filter. */
  method FillDictionary(glyphs: seq<Glyph>) returns (floatMapping: seq<Pair>)
    ensures floatMapping == FloatMapping(glyphs)
  {
    floatMapping := [];
    var i := 0;
    while i < |glyphs|
      invariant 0 <= i <= |glyphs|
      invariant floatMapping == FloatMapping(glyphs[..i])
    {
      assert glyphs[..i + 1][..i] == glyphs[..i];
      var g := glyphs[i];
      if Survives(g) {
        floatMapping := Assign(floatMapping, g.intensity, g.ch);
      }
      i := i + 1;
    }
    assert glyphs[..|glyphs|] == glyphs;
  }

  /** The second loop of `make_mapping`: one entry per luminance level, in order. */
  method FillTable(floatMapping: seq<Pair>) returns (table: seq<Entry>)
    requires Calibratable(floatMapping)
    ensures |table| == Levels
    ensures forall n :: 0 <= n < Levels ==> table[n] == EntryFor(floatMapping, n)
  {
    var mn, mx := MinKey(floatMapping), MaxKey(floatMapping);
    table := [];
    for n := 0 to Levels
      invariant |table| == n
      invariant forall m :: 0 <= m < n ==> table[m] == EntryFor(floatMapping, m)
    {
      var total := floatMapping[Nearest(floatMapping, n, mn, mx)];
      var entry := Entry((total.key - mn) / (mx - mn), total.ch);
      assert entry == EntryFor(floatMapping, n);
      table := table + [entry];
    }
  }

  /** The keys of the dictionary are exactly the intensities of surviving glyphs. */
  lemma {:induction false} FloatMappingKeys(glyphs: seq<Glyph>)
    ensures forall k :: HasKey(FloatMapping(glyphs), k) <==> LastWith(glyphs, k).Some?
  {
    if glyphs != [] {
      var init := glyphs[..|glyphs| - 1];
      var g := glyphs[|glyphs| - 1];
      var d := FloatMapping(init);
      var d' := FloatMapping(glyphs);
      FloatMappingKeys(init);
      forall k ensures HasKey(d', k) <==> LastWith(glyphs, k).Some? {
        if Survives(g) {
          if HasKey(d, g.intensity) {
            assert HasKey(d', k) <==> HasKey(d, k) by {
              if HasKey(d', k) {
                var p :| 0 <= p < |d'| && d'[p].key == k;
                assert d[p].key == k;
              }
              if HasKey(d, k) {
                var p :| 0 <= p < |d| && d[p].key == k;
                assert d'[p].key == k;
              }
            }
          } else {
            assert d' == d + [Pair(g.intensity, g.ch)];
            assert HasKey(d', k) <==> HasKey(d, k) || k == g.intensity by {
              if HasKey(d', k) && k != g.intensity {
                var p :| 0 <= p < |d'| && d'[p].key == k;
                assert d[p].key == k;
              }
              if HasKey(d, k) {
                var p :| 0 <= p < |d| && d[p].key == k;
                assert d'[p].key == k;
              }
              if k == g.intensity {
                assert d'[|d|].key == k;
              }
            }
          }
        }
      }
    }
  }

  /** Each key holds the character of the LAST surviving glyph of that intensity:
      a later duplicate overwrites the earlier character. */
  lemma {:induction false} FloatMappingValues(glyphs: seq<Glyph>)
    ensures forall p :: 0 <= p < |FloatMapping(glyphs)| ==>
      LastWith(glyphs, FloatMapping(glyphs)[p].key) == Some(FloatMapping(glyphs)[p].ch)
  {
    if glyphs != [] {
      var init := glyphs[..|glyphs| - 1];
      FloatMappingValues(init);
    }
  }

  /** Keys stand in the order in which their intensity first survived. */
  lemma {:induction false} FloatMappingOrder(glyphs: seq<Glyph>)
    ensures forall p, q :: 0 <= p < q < |FloatMapping(glyphs)| ==>
      FirstWith(glyphs, FloatMapping(glyphs)[p].key) < FirstWith(glyphs, FloatMapping(glyphs)[q].key)
  {
    if glyphs != [] {
      var init := glyphs[..|glyphs| - 1];
      var g := glyphs[|glyphs| - 1];
      var d, d' := FloatMapping(init), FloatMapping(glyphs);
      FloatMappingOrder(init);
      OldKeysFirst(glyphs, init);
      if !Survives(g) || HasKey(d, g.intensity) {
        assert |d'| == |d| && forall p :: 0 <= p < |d| ==> d'[p].key == d[p].key;
      } else {
        NewKeyLast(glyphs);
      }
    }
  }

  /** An intensity already in the dictionary first survived before the last glyph. */
  lemma {:induction false} OldKeysFirst(glyphs: seq<Glyph>, init: seq<Glyph>)
    requires glyphs != [] && init == glyphs[..|glyphs| - 1]
    ensures forall p :: 0 <= p < |FloatMapping(init)| ==>
      FirstWith(glyphs, FloatMapping(init)[p].key) == FirstWith(init, FloatMapping(init)[p].key) < |init|
  {
    var d := FloatMapping(init);
    FloatMappingValues(init);
    forall p | 0 <= p < |d|
      ensures FirstWith(glyphs, d[p].key) == FirstWith(init, d[p].key) < |init|
    {
      assert LastWith(init, d[p].key).Some?;
    }
  }

  /** A new intensity goes to the end of the dictionary and first survived
      with the last glyph. */
  lemma {:induction false} NewKeyLast(glyphs: seq<Glyph>)
    requires glyphs != [] && Survives(glyphs[|glyphs| - 1])
    requires !HasKey(FloatMapping(glyphs[..|glyphs| - 1]), glyphs[|glyphs| - 1].intensity)
    ensures FloatMapping(glyphs) == FloatMapping(glyphs[..|glyphs| - 1]) + [Pair(glyphs[|glyphs| - 1].intensity, glyphs[|glyphs| - 1].ch)]
    ensures FirstWith(glyphs, glyphs[|glyphs| - 1].intensity) == |glyphs| - 1
  {
    var init := glyphs[..|glyphs| - 1];
    var g := glyphs[|glyphs| - 1];
    FloatMappingKeys(init);
    assert FirstWith(init, g.intensity) == |init|;
  }

  /** No glyph survives exactly when the dictionary is empty. */
  lemma {:induction false} FloatMappingEmpty(glyphs: seq<Glyph>)
    ensures FloatMapping(glyphs) == [] <==> forall j :: 0 <= j < |glyphs| ==> !Survives(glyphs[j])
  {
    var d := FloatMapping(glyphs);
    FloatMappingKeys(glyphs);
    if d != [] {
      assert HasKey(d, d[0].key);
    }
    if exists j :: 0 <= j < |glyphs| && Survives(glyphs[j]) {
      var j :| 0 <= j < |glyphs| && Survives(glyphs[j]);
      assert Carries(glyphs[j], glyphs[j].intensity);
      assert HasKey(d, glyphs[j].intensity);
    }
  }

  /** All surviving glyphs share one intensity. */
  predicate OneIntensity(glyphs: seq<Glyph>) {
    forall j, j' :: 0 <= j < |glyphs| && 0 <= j' < |glyphs| && Survives(glyphs[j]) && Survives(glyphs[j']) ==>
      glyphs[j].intensity == glyphs[j'].intensity
  }

  /** The normalisation range is degenerate exactly when all surviving glyphs
      share one intensity. */
  lemma {:induction false} FloatMappingDegenerate(glyphs: seq<Glyph>)
    requires FloatMapping(glyphs) != []
    ensures MinKey(FloatMapping(glyphs)) == MaxKey(FloatMapping(glyphs)) <==> OneIntensity(glyphs)
  {
    var d := FloatMapping(glyphs);
    FloatMappingKeys(glyphs);
    var mn, mx := MinKey(d), MaxKey(d);
    forall j | 0 <= j < |glyphs| && Survives(glyphs[j]) ensures mn <= glyphs[j].intensity <= mx {
      assert Carries(glyphs[j], glyphs[j].intensity);
      assert HasKey(d, glyphs[j].intensity);
    }
    if OneIntensity(glyphs) {
      assert LastWith(glyphs, mn).Some? && LastWith(glyphs, mx).Some?;
      var jp :| 0 <= jp < |glyphs| && Carries(glyphs[jp], mn);
      var jq :| 0 <= jq < |glyphs| && Carries(glyphs[jq], mx);
      assert glyphs[jp].intensity == glyphs[jq].intensity;
    }
  }

  /** Every character in the table is a surviving charset character of the
      entry's intensity, and no later surviving character shares that
      intensity (a duplicate intensity keeps the later character). */
  lemma {:induction false} EntryFromSurvivor(glyphs: seq<Glyph>, n: int)
    requires Calibratable(FloatMapping(glyphs))
    ensures var d := FloatMapping(glyphs);
      var e := EntryFor(d, n);
      exists j :: 0 <= j < |glyphs| && Survives(glyphs[j]) && glyphs[j].ch == e.ch &&
        Normalise(glyphs[j].intensity, MinKey(d), MaxKey(d)) == e.value &&
        LastCarrier(glyphs, j, glyphs[j].intensity)
  {
    var d := FloatMapping(glyphs);
    FloatMappingValues(glyphs);
    var p := Nearest(d, n, MinKey(d), MaxKey(d));
    assert LastWith(glyphs, d[p].key) == Some(d[p].ch);
  }

  lemma {:induction false} NormaliseInRange(k: real, mn: real, mx: real)
    requires mn <= k <= mx && mn < mx
    ensures 0.0 <= Normalise(k, mn, mx) <= 1.0
  {
    var w := mx - mn;
    assert (w - (k - mn)) / w >= 0.0;
    assert (k - mn) / w + (w - (k - mn)) / w == w / w;
  }

  /** Every table value lies in [0, 1]. */
  lemma {:induction false} EntryInRange(d: seq<Pair>, n: int)
    requires Calibratable(d)
    ensures 0.0 <= EntryFor(d, n).value <= 1.0
  {
    var mn, mx := MinKey(d), MaxKey(d);
    NormaliseInRange(d[Nearest(d, n, mn, mx)].key, mn, mx);
  }

  /** Entry 0 holds a least intense glyph: its value is 0. */
  lemma {:induction false} EntryFirst(d: seq<Pair>)
    requires Calibratable(d)
    ensures EntryFor(d, 0).value == 0.0
  {
    var mn, mx := MinKey(d), MaxKey(d);
    var p :| 0 <= p < |d| && d[p].key == mn;
    var r := Nearest(d, 0, mn, mx);
    NearestMinimal(d, 0, mn, mx);
    var v := Normalise(d[r].key, mn, mx);
    NormaliseInRange(d[r].key, mn, mx);
    assert Distance(0, d[p].key, mn, mx) == 0.0;
    assert Distance(0, d[r].key, mn, mx) == v;
  }

  /** Entry 255 holds a most intense glyph: its value is 1. */
  lemma {:induction false} EntryLast(d: seq<Pair>)
    requires Calibratable(d)
    ensures EntryFor(d, Levels - 1).value == 1.0
  {
    var mn, mx := MinKey(d), MaxKey(d);
    var q :| 0 <= q < |d| && d[q].key == mx;
    var r := Nearest(d, Levels - 1, mn, mx);
    NearestMinimal(d, Levels - 1, mn, mx);
    NormaliseInRange(d[r].key, mn, mx);
    NormaliseTop(mn, mx);
    assert Distance(Levels - 1, d[r].key, mn, mx) <= Distance(Levels - 1, d[q].key, mn, mx);
  }

  lemma {:induction false} NormaliseTop(mn: real, mx: real)
    requires mn < mx
    ensures Normalise(mx, mn, mx) == 1.0
    ensures Distance(Levels - 1, mx, mn, mx) == 0.0
  {
    assert (mx - mn) / (mx - mn) == 1.0;
    assert (Levels - 1) as real / 255.0 == 1.0;
  }

  /** Of two points, the one nearer the larger of `a`, `b` cannot lie further left. */
  lemma {:induction false} NearestOrder(s: real, t: real, a: real, b: real)
    requires s < t
    requires Abs(s - a) <= Abs(s - b) && Abs(t - b) <= Abs(t - a)
    ensures a <= b
  {
  }

  /** Table values never decrease with the luminance level. */
  lemma {:induction false} EntryMonotone(d: seq<Pair>, n: int, m: int)
    requires Calibratable(d) && n <= m
    ensures EntryFor(d, n).value <= EntryFor(d, m).value
  {
    if n < m {
      var mn, mx := MinKey(d), MaxKey(d);
      var rn, rm := Nearest(d, n, mn, mx), Nearest(d, m, mn, mx);
      NearestMinimal(d, n, mn, mx);
      NearestMinimal(d, m, mn, mx);
      assert Distance(n, d[rn].key, mn, mx) <= Distance(n, d[rm].key, mn, mx);
      assert Distance(m, d[rm].key, mn, mx) <= Distance(m, d[rn].key, mn, mx);
      NearestOrder(n as real / 255.0, m as real / 255.0, EntryFor(d, n).value, EntryFor(d, m).value);
    }
  }

  /** A successful calibration's table is complete and well ordered. */
  lemma {:induction false} CalibrationTable(glyphs: seq<Glyph>, table: seq<Entry>)
    requires Calibratable(FloatMapping(glyphs)) && |table| == Levels
    requires forall n :: 0 <= n < Levels ==> table[n] == EntryFor(FloatMapping(glyphs), n)
    ensures table[0].value == 0.0 && table[Levels - 1].value == 1.0
    ensures forall n :: 0 <= n < Levels ==> 0.0 <= table[n].value <= 1.0
    ensures forall n, m :: 0 <= n <= m < Levels ==> table[n].value <= table[m].value
  {
    var d := FloatMapping(glyphs);
    EntryFirst(d);
    EntryLast(d);
    forall n | 0 <= n < Levels ensures 0.0 <= table[n].value <= 1.0 {
      EntryInRange(d, n);
    }
    forall n, m | 0 <= n <= m < Levels ensures table[n].value <= table[m].value {
      EntryMonotone(d, n, m);
    }
  }
}
