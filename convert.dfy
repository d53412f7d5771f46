/** The conversion engine (`convert`): a row-major scan of a luminance image
    that opens a text row at every image row, repeats each pixel's character a
    fractional number of times (the aspect accumulator `c`) and, when
    dithering, carries every pixel's quantisation error forward to its
    neighbours. */
module Convert {
  import opened Mapping

  /** A luminance image as PIL's "L" mode yields it: every sample in 0..255. */
  predicate IsLuminance(pixels: seq<int>) {
    forall i :: 0 <= i < |pixels| ==> 0 <= pixels[i] < Levels
  }

  /** What every scan of `k` pixels needs: a table of 256 entries, luminance
      samples, and a width whenever a pixel is read. */
  predicate Scannable(width: nat, pixels: seq<int>, mapping: seq<Entry>, k: nat) {
    k <= |pixels| && (width > 0 || k == 0) && IsLuminance(pixels) && |mapping| == Levels
  }

  function Max(a: int, b: int): int {
    if a < b then b else a
  }

  /** The fractional part of `x`, as `divmod(x, 1)` leaves it. */
  function Frac(x: real): real {
    x - x.Floor as real
  }

  /** The state of the scan: the rows built so far, the aspect accumulator `c`
      and the pending error of each flat offset. */
  datatype Scan = Scan(rows: seq<string>, c: real, offsets: map<int, real>)

  /** Reading `offsets[k]` of a `defaultdict`: an absent offset holds 0. */
  function Get(offsets: map<int, real>, k: int): real {
    if k in offsets then offsets[k] else 0.0
  }

  /** `offsets[k] += v`. */
  function Add(offsets: map<int, real>, k: int, v: real): map<int, real> {
    offsets[k := Get(offsets, k) + v]
  }

  /** `[ch] * n`: `n` copies, and none when `n` is not positive. */
  function Repeat(ch: char, n: int): (s: string)
    ensures |s| == Max(0, n)
  {
    if n <= 0 then [] else Repeat(ch, n - 1) + [ch]
  }

  lemma {:induction false} RepeatAt(ch: char, n: int, x: nat)
    requires x < Max(0, n)
    ensures Repeat(ch, n)[x] == ch
    decreases n
  {
    if x < n - 1 {
      RepeatAt(ch, n - 1, x);
    }
  }

  /** Python's `int(x)` on a float: truncation toward zero. */
  function Trunc(x: real): int {
    if x >= 0.0 then x.Floor else -((-x).Floor)
  }

  /** `min(max(int(new_px), 0), 255)`: the table index of a dithered pixel. */
  function LookupIndex(newPx: real): (idx: int)
    ensures 0 <= idx < Levels
    ensures 0.0 <= newPx < Levels as real ==> idx == newPx.Floor
    ensures newPx < 1.0 ==> idx == 0
    ensures newPx >= (Levels - 1) as real ==> idx == Levels - 1
  {
    var t := Trunc(newPx);
    if t < 0 then 0 else if t > Levels - 1 then Levels - 1 else t
  }

  /** The column of flat offset `i` in rows of `width` pixels: `i % width`,
      counted off a row at a time. */
  function Column(i: nat, width: nat): (col: nat)
    requires width > 0
    ensures col < width
  {
    if i < width then i else Column(i - width, width)
  }

  /** The column of `q * width + r` is `r`. */
  lemma {:induction false} ColumnOf(i: nat, width: nat, q: nat, r: nat)
    requires width > 0 && r < width && i == q * width + r
    ensures Column(i, width) == r
    decreases q
  {
    if q > 0 {
      assert i - width == (q - 1) * width + r;
      ColumnOf(i - width, width, q - 1, r);
    }
  }

  /** `Column` is Python's `i % width`. */
  lemma {:induction false} ColumnIsMod(i: nat, width: nat)
    requires width > 0
    ensures Column(i, width) == i % width
  {
    ColumnOf(i, width, i / width, i % width);
  }

  /** The diffusion of pixel `i`'s error. The first guard is `i+1 % width != 0`
      as written, which binds as `i + (1 % width) != 0`: for a width above 1 it
      always holds, so the right and below-right shares are pushed even from
      the last column, onto the next row. */
  function Diffuse(offsets: map<int, real>, width: nat, i: nat, error: real): map<int, real>
    requires width > 0
  {
    Add(ShareLeft(ShareRight(offsets, width, i, error), width, i, error), i + width, error * (5.0 / 16.0))
  }

  /** The right and below-right shares, under the guard as written. */
  function ShareRight(offsets: map<int, real>, width: nat, i: nat, error: real): map<int, real>
    requires width > 0
  {
    if i + 1 % width != 0
    then Add(Add(offsets, i + 1, error * (7.0 / 16.0)), i + width + 1, error * (1.0 / 16.0))
    else offsets
  }

  /** The below-left share, pushed only off the first column. */
  function ShareLeft(offsets: map<int, real>, width: nat, i: nat, error: real): map<int, real>
    requires width > 0
  {
    if Column(i, width) != 0 then Add(offsets, i + width - 1, error * (3.0 / 16.0)) else offsets
  }

  /** The share of an error that `Diffuse` hands out, by the same guards. */
  function Weight(width: nat, i: nat): real
    requires width > 0
  {
    (if i + 1 % width != 0 then 8.0 / 16.0 else 0.0) +
    (if Column(i, width) != 0 then 3.0 / 16.0 else 0.0) +
    5.0 / 16.0
  }

  /** The sum of the pending errors at offsets `lo` .. `hi - 1`. */
  function Window(offsets: map<int, real>, lo: int, hi: int): real
    decreases hi - lo
  {
    if hi <= lo then 0.0 else Window(offsets, lo, hi - 1) + Get(offsets, hi - 1)
  }

  /** The number of rows opened after `k` pixels: one at every multiple of the width. */
  function RowCount(k: nat, width: nat): nat
    requires width > 0
  {
    if k == 0 then 0 else RowCount(k - 1, width) + (if Column(k - 1, width) == 0 then 1 else 0)
  }

  /** The rows after one pixel: a new row first when `opens`, then `piece`
      appended to the last row. */
  function Extend(rows: seq<string>, opens: bool, piece: string): (r: seq<string>)
    requires rows != [] || opens
    ensures |r| == |rows| + (if opens then 1 else 0)
  {
    var widened := if opens then rows + [[]] else rows;
    widened[..|widened| - 1] + [widened[|widened| - 1] + piece]
  }

  /** The table entry of pixel `i`: with dithering the pixel plus its pending
      error, clamped to the table; without, the pixel itself. */
  function Pick(offsets: map<int, real>, i: nat, px: int, mapping: seq<Entry>, dither: bool): Entry
    requires |mapping| == Levels && 0 <= px < Levels
  {
    if dither then mapping[LookupIndex(px as real + Get(offsets, i))] else mapping[px]
  }

  /** The quantisation error of pixel `i` when dithering: the pixel plus its
      pending error, before clamping, less the chosen entry's level. */
  function DitherError(offsets: map<int, real>, i: nat, px: int, mapping: seq<Entry>): real
    requires |mapping| == Levels
  {
    var newPx := px as real + Get(offsets, i);
    newPx - mapping[LookupIndex(newPx)].value * 255.0
  }

  /** One pass of the loop of `convert`, on pixel `i` of luminance `px`. */
  function Step(s: Scan, width: nat, i: nat, px: int, mapping: seq<Entry>, ratio: real, dither: bool): Scan
    requires width > 0 && |mapping| == Levels && 0 <= px < Levels
    requires s.rows != [] || Column(i, width) == 0
  {
    var acc := s.c + ratio;
    var chars := acc.Floor;
    var e := Pick(s.offsets, i, px, mapping, dither);
    var offsets := if dither then Diffuse(s.offsets, width, i, DitherError(s.offsets, i, px, mapping)) else s.offsets;
    Scan(Extend(s.rows, Column(i, width) == 0, Repeat(e.ch, chars)), acc - chars as real, offsets)
  }

  // ----- The scan after `k` pixels, one component at a time -----

  /** The aspect accumulator after `k` pixels: `ratio` added once per pixel
      and the whole part taken off each time. */
  function Carry(k: nat, ratio: real): real {
    if k == 0 then 0.0 else Frac(Carry(k - 1, ratio) + ratio)
  }

  /** The copies of pixel `i`'s character: the whole part of the accumulator
      once `ratio` is added. */
  function Copies(i: nat, ratio: real): int {
    (Carry(i, ratio) + ratio).Floor
  }

  /** The rows after `k` pixels when pixel `i` shows the character `cs[i]`. */
  function Layout(width: nat, ratio: real, cs: seq<char>, k: nat): (rows: seq<string>)
    requires k <= |cs| && (width > 0 || k == 0)
    ensures rows == [] <==> k == 0
  {
    if k == 0 then []
    else Extend(Layout(width, ratio, cs, k - 1), Column(k - 1, width) == 0, Repeat(cs[k - 1], Copies(k - 1, ratio)))
  }

  /** The pending errors after `k` pixels when dithering. */
  function Pending(width: nat, pixels: seq<int>, mapping: seq<Entry>, k: nat): map<int, real>
    requires Scannable(width, pixels, mapping, k)
  {
    if k == 0 then map[]
    else
      var offsets := Pending(width, pixels, mapping, k - 1);
      Diffuse(offsets, width, k - 1, DitherError(offsets, k - 1, pixels[k - 1], mapping))
  }

  /** The pending errors the scan holds after `k` pixels: none without dithering. */
  function Offsets(width: nat, pixels: seq<int>, mapping: seq<Entry>, dither: bool, k: nat): map<int, real>
    requires Scannable(width, pixels, mapping, k)
  {
    if dither then Pending(width, pixels, mapping, k) else map[]
  }

  /** The character pixel `i` shows, read with the pending errors its turn
      finds. */
  function CharAt(width: nat, pixels: seq<int>, mapping: seq<Entry>, dither: bool, i: nat): char
    requires Scannable(width, pixels, mapping, |pixels|) && i < |pixels|
  {
    Pick(Offsets(width, pixels, mapping, dither, i), i, pixels[i], mapping, dither).ch
  }

  /** The characters of the first `k` pixels. */
  function Chosen(width: nat, pixels: seq<int>, mapping: seq<Entry>, dither: bool, k: nat): (cs: seq<char>)
    requires Scannable(width, pixels, mapping, |pixels|) && k <= |pixels|
    ensures |cs| == k
  {
    if k == 0 then [] else Chosen(width, pixels, mapping, dither, k - 1) + [CharAt(width, pixels, mapping, dither, k - 1)]
  }

  lemma {:induction false} ChosenAt(width: nat, pixels: seq<int>, mapping: seq<Entry>, dither: bool, k: nat, i: nat)
    requires Scannable(width, pixels, mapping, |pixels|) && i < k <= |pixels|
    ensures Chosen(width, pixels, mapping, dither, k)[i] == CharAt(width, pixels, mapping, dither, i)
    decreases k
  {
    if i < k - 1 {
      ChosenAt(width, pixels, mapping, dither, k - 1, i);
    }
  }

  /** The state of the scan after `k` pixels. */
  function Prefix(width: nat, pixels: seq<int>, mapping: seq<Entry>, ratio: real, dither: bool, k: nat): Scan
    requires Scannable(width, pixels, mapping, |pixels|) && k <= |pixels|
  {
    Scan(Layout(width, ratio, Chosen(width, pixels, mapping, dither, |pixels|), k), Carry(k, ratio), Offsets(width, pixels, mapping, dither, k))
  }

  /** `"\n".join(...)`. */
  function Join(rows: seq<string>): string {
    if rows == [] then []
    else if |rows| == 1 then rows[0]
    else rows[0] + "\n" + Join(rows[1..])
  }

  /** The lines of a text, split at every `'\n'`. */
  function Lines(s: string): (ls: seq<string>)
    ensures |ls| >= 1
  {
    if s == [] then [[]]
    else
      var rest := Lines(s[1..]);
      if s[0] == '\n' then [[]] + rest else [[s[0]] + rest[0]] + rest[1..]
  }

  /** The number of characters in all rows together. */
  function TotalLength(rows: seq<string>): nat {
    if rows == [] then 0 else |rows[0]| + TotalLength(rows[1..])
  }

  /** The characters a table can put into the text. */
  function TableChars(mapping: seq<Entry>): set<char> {
    set e | e in mapping :: e.ch
  }

  /** `convert`: scan the pixels in row-major order, opening a row at every
      multiple of the width; add `ratio` to the accumulator and emit its whole
      part as copies of the pixel's character; with dithering, pick the
      character from the pixel plus its pending error and pass the error on. */
  method Convert(width: nat, height: nat, pixels: seq<int>, mapping: seq<Entry>, ratio: real, dither: bool)
    returns (text: string)
    requires |pixels| == width * height && IsLuminance(pixels) && |mapping| == Levels
    ensures width > 0 || |pixels| == 0
    ensures text == Join(Layout(width, ratio, Chosen(width, pixels, mapping, dither, |pixels|), |pixels|))
    ensures width > 0 && height > 0 ==> |text| == Max(0, Scaled(|pixels|, ratio).Floor) + height - 1
    ensures width > 0 && height > 0 && '\n' !in TableChars(mapping) ==> |Lines(text)| == height
    ensures forall x :: 0 <= x < |text| ==> text[x] == '\n' || text[x] in TableChars(mapping)
  {
    assert width == 0 ==> width * height == 0;
    var rows := ScanRows(width, pixels, mapping, ratio, dither);
    text := Join(rows);
    ScanText(width, height, pixels, mapping, ratio, dither);
  }

  /** The loop of `convert`: every pixel in turn, the accumulator and the
      pending errors carried from one to the next. */
  method ScanRows(width: nat, pixels: seq<int>, mapping: seq<Entry>, ratio: real, dither: bool)
    returns (rows: seq<string>)
    requires Scannable(width, pixels, mapping, |pixels|)
    ensures rows == Layout(width, ratio, Chosen(width, pixels, mapping, dither, |pixels|), |pixels|)
  {
    rows := [];
    var c: real := 0.0;
    var offsets: map<int, real> := map[];
    var i := 0;
    while i < |pixels|
      invariant 0 <= i <= |pixels|
      invariant Scan(rows, c, offsets) == Prefix(width, pixels, mapping, ratio, dither, i)
    {
      rows, c, offsets := Advance(width, i, pixels[i], mapping, ratio, dither, rows, c, offsets);
      PrefixStep(width, pixels, mapping, ratio, dither, i);
      i := i + 1;
    }
  }

  /** The error-diffusion block of `convert`: pass the error of pixel `i` on
      to the pixels after it, with the guard of the right-hand neighbour
      written exactly as the program has it. */
  method Spread(offsets: map<int, real>, width: nat, i: nat, error: real) returns (r: map<int, real>)
    requires width > 0
    ensures r == Diffuse(offsets, width, i, error)
  {
    r := offsets;
    if i + 1 % width != 0 {
      r := Add(r, i + 1, error * (7.0 / 16.0));
      r := Add(r, i + width + 1, error * (1.0 / 16.0));
    }
    if Column(i, width) != 0 {
      r := Add(r, i + width - 1, error * (3.0 / 16.0));
    }
    r := Add(r, i + width, error * (5.0 / 16.0));
  }

  /** The character pixel `i` shows and the pending errors after it: the
      `if dither` block of the loop body. */
  method Shade(width: nat, i: nat, px: int, mapping: seq<Entry>, dither: bool, offsets: map<int, real>)
    returns (ch: char, offsets': map<int, real>)
    requires width > 0 && |mapping| == Levels && 0 <= px < Levels
    ensures ch == Pick(offsets, i, px, mapping, dither).ch
    ensures offsets' == if dither then Diffuse(offsets, width, i, DitherError(offsets, i, px, mapping)) else offsets
  {
    offsets' := offsets;
    if dither {
      var newPx := px as real + Get(offsets, i);
      var entry := mapping[LookupIndex(newPx)];
      ch := entry.ch;
      var error := newPx - entry.value * 255.0;
      offsets' := Spread(offsets, width, i, error);
    } else {
      ch := mapping[px].ch;
    }
  }

  /** One pass of the loop body of `convert` for pixel `i`. */
  method Advance(width: nat, i: nat, px: int, mapping: seq<Entry>, ratio: real, dither: bool,
                 rows: seq<string>, c: real, offsets: map<int, real>)
    returns (rows': seq<string>, c': real, offsets': map<int, real>)
    requires width > 0 && |mapping| == Levels && 0 <= px < Levels
    requires rows != [] || Column(i, width) == 0
    ensures Scan(rows', c', offsets') == Step(Scan(rows, c, offsets), width, i, px, mapping, ratio, dither)
  {
    rows' := rows;
    if Column(i, width) == 0 {
      rows' := rows' + [[]];
    }
    c' := c + ratio;
    var chars := c'.Floor;
    c' := c' - chars as real;
    var ch;
    ch, offsets' := Shade(width, i, px, mapping, dither, offsets);
    rows' := rows'[..|rows'| - 1] + [rows'[|rows'| - 1] + Repeat(ch, chars)];
    assert rows' == Extend(rows, Column(i, width) == 0, Repeat(ch, chars));
  }

  /** One pass of the loop takes the state after `k` pixels to the state
      after `k + 1`. */
  lemma {:induction false} PrefixStep(width: nat, pixels: seq<int>, mapping: seq<Entry>, ratio: real, dither: bool, k: nat)
    requires Scannable(width, pixels, mapping, |pixels|) && k < |pixels|
    ensures Step(Prefix(width, pixels, mapping, ratio, dither, k), width, k, pixels[k], mapping, ratio, dither)
         == Prefix(width, pixels, mapping, ratio, dither, k + 1)
  {
    StepRows(width, pixels, mapping, ratio, dither, k);
    StepOffsets(width, pixels, mapping, ratio, dither, k);
  }

  /** The rows part of `PrefixStep`: pixel `k` adds the copies of the
      character it was chosen to show. */
  lemma {:induction false} StepRows(width: nat, pixels: seq<int>, mapping: seq<Entry>, ratio: real, dither: bool, k: nat)
    requires Scannable(width, pixels, mapping, |pixels|) && k < |pixels|
    ensures Step(Prefix(width, pixels, mapping, ratio, dither, k), width, k, pixels[k], mapping, ratio, dither).rows
         == Layout(width, ratio, Chosen(width, pixels, mapping, dither, |pixels|), k + 1)
  {
    var s := Prefix(width, pixels, mapping, ratio, dither, k);
    var cs := Chosen(width, pixels, mapping, dither, |pixels|);
    assert Pick(s.offsets, k, pixels[k], mapping, dither).ch == cs[k] by {
      ChosenAt(width, pixels, mapping, dither, |pixels|, k);
    }
    LayoutStep(width, ratio, cs, k);
  }

  /** The offsets part of `PrefixStep`. */
  lemma {:induction false} StepOffsets(width: nat, pixels: seq<int>, mapping: seq<Entry>, ratio: real, dither: bool, k: nat)
    requires Scannable(width, pixels, mapping, |pixels|) && k < |pixels|
    ensures Step(Prefix(width, pixels, mapping, ratio, dither, k), width, k, pixels[k], mapping, ratio, dither).offsets
         == Offsets(width, pixels, mapping, dither, k + 1)
  {
  }

  /** The rows grow by the copies of one character per pixel. */
  lemma {:induction false} LayoutStep(width: nat, ratio: real, cs: seq<char>, k: nat)
    requires k < |cs| && width > 0
    ensures Layout(width, ratio, cs, k + 1) == Extend(Layout(width, ratio, cs, k), Column(k, width) == 0, Repeat(cs[k], Copies(k, ratio)))
  {
  }

  /** The error is taken from the value before clamping: with a calibrated
      table (level 0 at entry 0, level 1 at entry 255), a value above the
      top of the table passes its whole excess on, a value below 1 passes
      itself on, and a value inside the table passes on its distance to the
      chosen entry's level. */
  lemma {:induction false} DitherErrorUnclamped(offsets: map<int, real>, i: nat, px: int, mapping: seq<Entry>)
    requires |mapping| == Levels
    requires mapping[0].value == 0.0 && mapping[Levels - 1].value == 1.0
    ensures var newPx := px as real + Get(offsets, i);
      && (newPx >= (Levels - 1) as real ==> DitherError(offsets, i, px, mapping) == newPx - 255.0)
      && (newPx < 1.0 ==> DitherError(offsets, i, px, mapping) == newPx)
      && (0.0 <= newPx < Levels as real ==> DitherError(offsets, i, px, mapping) == newPx - mapping[newPx.Floor].value * 255.0)
  {
  }

  /** The text of a whole image: `height` lines, as many characters as the
      whole part of `ratio` added once per pixel besides the line breaks, and nothing
      that is not a line break or a character of the table. */
  lemma {:induction false} ScanText(width: nat, height: nat, pixels: seq<int>, mapping: seq<Entry>, ratio: real, dither: bool)
    requires |pixels| == width * height && IsLuminance(pixels) && |mapping| == Levels
    requires width > 0 || |pixels| == 0
    ensures var text := Join(Layout(width, ratio, Chosen(width, pixels, mapping, dither, |pixels|), |pixels|));
      && (width > 0 && height > 0 ==> |text| == Max(0, Scaled(|pixels|, ratio).Floor) + height - 1)
      && (width > 0 && height > 0 && '\n' !in TableChars(mapping) ==> |Lines(text)| == height)
      && (forall x :: 0 <= x < |text| ==> text[x] == '\n' || text[x] in TableChars(mapping))
  {
    var cs := Chosen(width, pixels, mapping, dither, |pixels|);
    var rows := Layout(width, ratio, cs, |pixels|);
    assert CharsIn(rows, TableChars(mapping)) by {
      ChosenFromTable(width, pixels, mapping, dither);
      LayoutChars(width, ratio, cs, |pixels|, TableChars(mapping));
    }
    JoinChars(rows, TableChars(mapping));
    if width > 0 && height > 0 {
      assert |rows| == height by {
        RowCountEnd(width, height);
        LayoutRowCount(width, ratio, cs, |pixels|);
      }
      assert TotalLength(rows) == Max(0, Scaled(|pixels|, ratio).Floor) by {
        LayoutTotal(width, ratio, cs, |pixels|);
      }
      JoinLength(rows);
      if '\n' !in TableChars(mapping) {
        assert NoBreaks(rows);
        LinesOfJoin(rows);
      }
    }
  }

  /** The aspect ratio of line 86, `(fy + spacing) / fx`; a zero cell width
      is the division by zero. */
  function AspectRatio(cellWidth: int, cellHeight: int, spacing: int): (r: Option<real>)
    ensures r.Some? <==> cellWidth != 0
    ensures r.Some? ==> r.value * cellWidth as real == (cellHeight + spacing) as real
  {
    if cellWidth == 0 then None else Some((cellHeight + spacing) as real / cellWidth as real)
  }

  // ----- Error diffusion -----

  lemma {:induction false} AddGet(offsets: map<int, real>, k: int, v: real, j: int)
    ensures Get(Add(offsets, k, v), j) == Get(offsets, j) + (if j == k then v else 0.0)
  {
  }

  /** The column after `i`: one further along, or the first of the next row. */
  lemma {:induction false} ColumnNext(i: nat, width: nat)
    requires width > 0
    ensures Column(i + 1, width) == if Column(i, width) == width - 1 then 0 else Column(i, width) + 1
    decreases i
  {
    if i >= width {
      ColumnNext(i - width, width);
    }
  }

  /** The guard `i+1 % width != 0` fails only for the first pixel of a one
      pixel wide image. */
  lemma {:induction false} RightGuard(i: nat, width: nat)
    requires width > 0
    ensures (i + 1 % width != 0) <==> (width > 1 || i > 0)
  {
    if width == 1 {
      assert 1 % width == 0;
    } else {
      assert 1 % width == 1;
    }
  }

  /** Diffusion only writes forward: the offsets up to `i` and past
      `i + width + 1` keep their pending errors. */
  lemma {:induction false} DiffuseForward(offsets: map<int, real>, width: nat, i: nat, error: real, j: int)
    requires width > 0
    requires j <= i || j > i + width + 1
    ensures Get(Diffuse(offsets, width, i, error), j) == Get(offsets, j)
  {
    var o1 :=
      if i + 1 % width != 0
      then Add(Add(offsets, i + 1, error * (7.0 / 16.0)), i + width + 1, error * (1.0 / 16.0))
      else offsets;
    var o2 := if Column(i, width) != 0 then Add(o1, i + width - 1, error * (3.0 / 16.0)) else o1;
    if i + 1 % width != 0 {
      AddGet(offsets, i + 1, error * (7.0 / 16.0), j);
      AddGet(Add(offsets, i + 1, error * (7.0 / 16.0)), i + width + 1, error * (1.0 / 16.0), j);
    }
    if Column(i, width) != 0 {
      AddGet(o1, i + width - 1, error * (3.0 / 16.0), j);
    }
    AddGet(o2, i + width, error * (5.0 / 16.0), j);
  }

  /** Adding to one offset adds to every window holding it. */
  lemma {:induction false} WindowAdd(offsets: map<int, real>, lo: int, hi: int, k: int, v: real)
    ensures Window(Add(offsets, k, v), lo, hi) == Window(offsets, lo, hi) + (if lo <= k < hi then v else 0.0)
    decreases hi - lo
  {
    if lo < hi {
      WindowAdd(offsets, lo, hi - 1, k, v);
      AddGet(offsets, k, v, hi - 1);
    }
  }

  /** What diffusion hands out lands in the `width + 1` offsets after `i`,
      and adds up to `Weight` of the error. */
  lemma {:induction false} DiffuseConserves(offsets: map<int, real>, width: nat, i: nat, error: real)
    requires width > 0
    ensures Window(Diffuse(offsets, width, i, error), i + 1, i + width + 2)
         == Window(offsets, i + 1, i + width + 2) + error * Weight(width, i)
  {
    var lo, hi := i + 1, i + width + 2;
    var o1 := ShareRight(offsets, width, i, error);
    var o2 := ShareLeft(o1, width, i, error);
    WindowRight(offsets, width, i, error);
    WindowLeft(o1, width, i, error);
    WindowAdd(o2, lo, hi, i + width, error * (5.0 / 16.0));
    WeightShares(width, i, error);
  }

  /** `Weight` share by share, as `Diffuse` hands the error out. */
  lemma {:induction false} WeightShares(width: nat, i: nat, error: real)
    requires width > 0
    ensures error * Weight(width, i)
         == (if i + 1 % width != 0 then error * (8.0 / 16.0) else 0.0)
          + (if Column(i, width) != 0 then error * (3.0 / 16.0) else 0.0) + error * (5.0 / 16.0)
  {
    var w := Weight(width, i);
    var right, left := i + 1 % width != 0, Column(i, width) != 0;
    if right && left {
      assert w == 1.0;
    } else if right {
      assert w == 13.0 / 16.0;
    } else {
      assert w == 5.0 / 16.0;
    }
  }

  lemma {:induction false} WindowRight(offsets: map<int, real>, width: nat, i: nat, error: real)
    requires width > 0
    ensures Window(ShareRight(offsets, width, i, error), i + 1, i + width + 2)
         == Window(offsets, i + 1, i + width + 2) + (if i + 1 % width != 0 then error * (8.0 / 16.0) else 0.0)
  {
    if i + 1 % width != 0 {
      WindowAdd(offsets, i + 1, i + width + 2, i + 1, error * (7.0 / 16.0));
      WindowAdd(Add(offsets, i + 1, error * (7.0 / 16.0)), i + 1, i + width + 2, i + width + 1, error * (1.0 / 16.0));
    }
  }

  lemma {:induction false} WindowLeft(offsets: map<int, real>, width: nat, i: nat, error: real)
    requires width > 0
    ensures Window(ShareLeft(offsets, width, i, error), i + 1, i + width + 2)
         == Window(offsets, i + 1, i + width + 2) + (if Column(i, width) != 0 then error * (3.0 / 16.0) else 0.0)
  {
    if Column(i, width) != 0 {
      WindowAdd(offsets, i + 1, i + width + 2, i + width - 1, error * (3.0 / 16.0));
    }
  }

  /** The whole error is handed on from every column but the first; from the
      first column the left-below share is dropped (13/16), and for the first
      pixel of a one pixel wide image only the share below is (5/16). */
  lemma {:induction false} WeightByColumn(width: nat, i: nat)
    requires width > 0
    ensures Weight(width, i) == if Column(i, width) != 0 then 1.0
                                else if width > 1 || i > 0 then 13.0 / 16.0
                                else 5.0 / 16.0
  {
    RightGuard(i, width);
  }

  /** From the last column of a row the right-hand share lands on the first
      pixel of the next row (with the left-below share too when the width is 2). */
  lemma {:induction false} DiffuseWrapsRight(offsets: map<int, real>, width: nat, i: nat, error: real)
    requires width > 1 && Column(i, width) == width - 1
    ensures Column(i + 1, width) == 0
    ensures Get(Diffuse(offsets, width, i, error), i + 1)
         == Get(offsets, i + 1) + error * (7.0 / 16.0) + (if width == 2 then error * (3.0 / 16.0) else 0.0)
  {
    ColumnNext(i, width);
    RightGuard(i, width);
    var o0 := Add(offsets, i + 1, error * (7.0 / 16.0));
    var o1 := Add(o0, i + width + 1, error * (1.0 / 16.0));
    var o2 := Add(o1, i + width - 1, error * (3.0 / 16.0));
    AddGet(offsets, i + 1, error * (7.0 / 16.0), i + 1);
    AddGet(o0, i + width + 1, error * (1.0 / 16.0), i + 1);
    AddGet(o1, i + width - 1, error * (3.0 / 16.0), i + 1);
    AddGet(o2, i + width, error * (5.0 / 16.0), i + 1);
  }

  // ----- Arithmetic of the row count -----

  lemma {:induction false} MulAtLeast(a: int, w: int)
    requires a >= 1 && w >= 1
    ensures a * w >= w
  {
    var b := a - 1;
    assert a * w == b * w + w;
    assert b * w >= 0;
  }

  /** The rows opened by `q * w + r` pixels: one per full row, and one more
      for a part row. */
  lemma {:induction false} RowCountOf(k: nat, w: nat, q: nat, r: nat)
    requires w > 0 && r < w && k == q * w + r
    ensures RowCount(k, w) == q + (if r == 0 then 0 else 1)
    decreases k
  {
    if k == 0 {
      if q > 0 {
        MulAtLeast(q, w);
      }
    } else if r > 0 {
      RowCountOf(k - 1, w, q, r - 1);
      ColumnOf(k - 1, w, q, r - 1);
    } else {
      assert k - 1 == (q - 1) * w + (w - 1);
      RowCountOf(k - 1, w, q - 1, w - 1);
      ColumnOf(k - 1, w, q - 1, w - 1);
    }
  }

  /** The rows opened by `k` pixels are `ceil(k / w)`. */
  lemma {:induction false} RowCountDiv(k: nat, w: nat)
    requires w > 0
    ensures RowCount(k, w) == k / w + (if k % w == 0 then 0 else 1)
  {
    RowCountOf(k, w, k / w, k % w);
  }

  /** A full image of `height` rows of `width` pixels opens `height` rows. */
  lemma {:induction false} RowCountEnd(w: nat, h: nat)
    requires w > 0
    ensures RowCount(w * h, w) == h
  {
    RowCountOf(w * h, w, h, 0);
  }

  // ----- Rows and text -----

  lemma {:induction false} TotalLengthAppend(rows: seq<string>, x: string)
    ensures TotalLength(rows + [x]) == TotalLength(rows) + |x|
  {
    if rows != [] {
      assert (rows + [x])[1..] == rows[1..] + [x];
      TotalLengthAppend(rows[1..], x);
    }
  }

  /** `Extend` keeps the rows before the last and appends `piece` to the last. */
  lemma {:induction false} ExtendShape(rows: seq<string>, opens: bool, piece: string)
    requires rows != [] || opens
    ensures forall j :: 0 <= j < |Extend(rows, opens, piece)| - 1 ==> Extend(rows, opens, piece)[j] == rows[j]
    ensures Extend(rows, opens, piece)[|Extend(rows, opens, piece)| - 1] == (if opens then [] else rows[|rows| - 1]) + piece
  {
  }

  lemma {:induction false} ExtendLength(rows: seq<string>, opens: bool, piece: string)
    requires rows != [] || opens
    ensures TotalLength(Extend(rows, opens, piece)) == TotalLength(rows) + |piece|
  {
    var r := Extend(rows, opens, piece);
    var n := |r| - 1;
    ExtendShape(rows, opens, piece);
    assert r == r[..n] + [r[n]];
    if opens {
      assert r[..n] == rows;
      assert r[n] == piece;
      TotalLengthAppend(rows, piece);
    } else {
      assert rows == rows[..n] + [rows[n]];
      assert r[..n] == rows[..n];
      TotalLengthAppend(rows[..n], rows[n]);
      TotalLengthAppend(rows[..n], rows[n] + piece);
    }
  }

  lemma {:induction false} FracRange(x: real)
    ensures 0.0 <= Frac(x) < 1.0
  {
  }

  /** Carrying `c = frac(x)` into `c + ratio`. */
  lemma {:induction false} FloorCarry(x: real, ratio: real)
    ensures (Frac(x) + ratio).Floor == (x + ratio).Floor - x.Floor
    ensures Frac(x) + ratio - (Frac(x) + ratio).Floor as real == Frac(x + ratio)
  {
    var n := (x + ratio).Floor - x.Floor;
    assert Frac(x) + ratio == (x + ratio) - x.Floor as real;
    assert n as real <= Frac(x) + ratio < n as real + 1.0;
  }

  /** `ratio` added `k` times, as the loop adds it to `c`. */
  function Scaled(k: nat, ratio: real): real {
    if k == 0 then 0.0 else Scaled(k - 1, ratio) + ratio
  }

  /** The accumulated sum is the product `k * ratio`, of the sign of `ratio`. */
  lemma {:induction false} ScaledIsProduct(k: nat, ratio: real)
    ensures Scaled(k, ratio) == k as real * ratio
    ensures ratio >= 0.0 ==> Scaled(k, ratio) >= 0.0
    ensures ratio <= 0.0 ==> Scaled(k, ratio) <= 0.0
  {
    if k > 0 {
      ScaledIsProduct(k - 1, ratio);
      assert k as real * ratio == (k - 1) as real * ratio + ratio;
    }
  }

  /** Whole parts add up when `x` and `ratio` have the same sign. */
  lemma {:induction false} WholeParts(x: real, ratio: real)
    requires (x >= 0.0 && ratio >= 0.0) || (x <= 0.0 && ratio <= 0.0)
    ensures Max(0, x.Floor) + Max(0, (x + ratio).Floor - x.Floor) == Max(0, (x + ratio).Floor)
  {
  }

  // ----- The accumulator -----

  /** The accumulator is never reset: after `k` pixels it holds the
      fractional part of `ratio` added `k` times. */
  lemma {:induction false} CarryClosed(k: nat, ratio: real)
    ensures Carry(k, ratio) == Frac(Scaled(k, ratio))
    ensures 0.0 <= Carry(k, ratio) < 1.0
  {
    FracRange(Scaled(k, ratio));
    if k > 0 {
      CarryClosed(k - 1, ratio);
      FloorCarry(Scaled(k - 1, ratio), ratio);
    }
  }

  /** Pixel `i` gets as many copies as the whole part of the accumulated
      ratio grows on it. */
  lemma {:induction false} CopiesClosed(i: nat, ratio: real)
    ensures Copies(i, ratio) == Scaled(i + 1, ratio).Floor - Scaled(i, ratio).Floor
  {
    CarryClosed(i, ratio);
    FloorCarry(Scaled(i, ratio), ratio);
  }

  // ----- The rows -----

  /** A text row is open for every image row begun: `ceil(k / width)` rows
      after `k` pixels. */
  lemma {:induction false} LayoutRowCount(width: nat, ratio: real, cs: seq<char>, k: nat)
    requires k <= |cs| && width > 0
    ensures |Layout(width, ratio, cs, k)| == RowCount(k, width)
  {
    if k > 0 {
      LayoutRowCount(width, ratio, cs, k - 1);
    }
  }

  /** After `k` pixels the rows hold the whole part of `ratio` added `k` times
      in characters, or none when that is negative. */
  lemma {:induction false} LayoutTotal(width: nat, ratio: real, cs: seq<char>, k: nat)
    requires k <= |cs| && (width > 0 || k == 0)
    ensures TotalLength(Layout(width, ratio, cs, k)) == Max(0, Scaled(k, ratio).Floor)
  {
    if k > 0 {
      LayoutTotal(width, ratio, cs, k - 1);
      TotalStep(width, ratio, cs, k);
    }
  }

  /** The characters of `k` pixels, stated with the product: the whole part of
      `k * ratio`, and none when that is negative. */
  lemma {:induction false} LayoutTotalProduct(width: nat, ratio: real, cs: seq<char>, k: nat)
    requires k <= |cs| && (width > 0 || k == 0)
    ensures TotalLength(Layout(width, ratio, cs, k)) == Max(0, (k as real * ratio).Floor)
  {
    LayoutTotal(width, ratio, cs, k);
    ScaledIsProduct(k, ratio);
  }

  /** The step of `LayoutTotal`: pixel `k - 1` adds its copies. */
  lemma {:induction false} TotalStep(width: nat, ratio: real, cs: seq<char>, k: nat)
    requires 0 < k <= |cs| && width > 0
    requires TotalLength(Layout(width, ratio, cs, k - 1)) == Max(0, Scaled(k - 1, ratio).Floor)
    ensures TotalLength(Layout(width, ratio, cs, k)) == Max(0, Scaled(k, ratio).Floor)
  {
    ExtendLength(Layout(width, ratio, cs, k - 1), Column(k - 1, width) == 0, Repeat(cs[k - 1], Copies(k - 1, ratio)));
    CopiesAdd(k, ratio);
  }

  /** The copies handed out so far, counted in whole parts of the sum. */
  lemma {:induction false} CopiesAdd(k: nat, ratio: real)
    requires k > 0
    ensures Max(0, Scaled(k - 1, ratio).Floor) + Max(0, Copies(k - 1, ratio)) == Max(0, Scaled(k, ratio).Floor)
  {
    CopiesClosed(k - 1, ratio);
    ScaledIsProduct(k - 1, ratio);
    WholeParts(Scaled(k - 1, ratio), ratio);
  }

  /** Two row lists of the same number of rows, row by row of the same length. */
  predicate SameShape(a: seq<string>, b: seq<string>) {
    |a| == |b| && forall j :: 0 <= j < |a| ==> |a[j]| == |b[j]|
  }

  lemma {:induction false} ExtendSameShape(rows1: seq<string>, rows2: seq<string>, opens: bool, piece1: string, piece2: string)
    requires rows1 != [] || opens
    requires SameShape(rows1, rows2) && |piece1| == |piece2|
    ensures SameShape(Extend(rows1, opens, piece1), Extend(rows2, opens, piece2))
  {
    ExtendShape(rows1, opens, piece1);
    ExtendShape(rows2, opens, piece2);
    var r1, r2 := Extend(rows1, opens, piece1), Extend(rows2, opens, piece2);
    forall j | 0 <= j < |r1|
      ensures |r1[j]| == |r2[j]|
    {
      if j < |r1| - 1 {
        assert r1[j] == rows1[j] && r2[j] == rows2[j];
      }
    }
  }

  /** The layout of the text (the number of rows and the length of each)
      depends on the width, the ratio and the number of pixels only, not on
      the characters shown. */
  lemma {:induction false} LayoutShape(width: nat, ratio: real, cs1: seq<char>, cs2: seq<char>, k: nat)
    requires k <= |cs1| && k <= |cs2| && (width > 0 || k == 0)
    ensures SameShape(Layout(width, ratio, cs1, k), Layout(width, ratio, cs2, k))
  {
    if k > 0 {
      LayoutShape(width, ratio, cs1, cs2, k - 1);
      ExtendSameShape(Layout(width, ratio, cs1, k - 1), Layout(width, ratio, cs2, k - 1), Column(k - 1, width) == 0,
                      Repeat(cs1[k - 1], Copies(k - 1, ratio)), Repeat(cs2[k - 1], Copies(k - 1, ratio)));
    }
  }

  /** Dithering changes which characters are written, never how many nor
      where the rows break. */
  lemma {:induction false} DitherKeepsLayout(width: nat, pixels: seq<int>, mapping: seq<Entry>, ratio: real)
    requires Scannable(width, pixels, mapping, |pixels|)
    ensures SameShape(Layout(width, ratio, Chosen(width, pixels, mapping, true, |pixels|), |pixels|),
                      Layout(width, ratio, Chosen(width, pixels, mapping, false, |pixels|), |pixels|))
  {
    LayoutShape(width, ratio, Chosen(width, pixels, mapping, true, |pixels|), Chosen(width, pixels, mapping, false, |pixels|), |pixels|);
  }

  /** The rows run together, without the line breaks. */
  function Flatten(rows: seq<string>): string {
    if rows == [] then [] else Flatten(rows[..|rows| - 1]) + rows[|rows| - 1]
  }

  lemma {:induction false} FlattenExtend(rows: seq<string>, opens: bool, piece: string)
    requires rows != [] || opens
    ensures Flatten(Extend(rows, opens, piece)) == Flatten(rows) + piece
  {
    var r := Extend(rows, opens, piece);
    var n := |r| - 1;
    ExtendShape(rows, opens, piece);
    assert r[..n] == if opens then rows else rows[..n];
    if !opens {
      assert Flatten(rows) == Flatten(rows[..n]) + rows[n];
    }
  }

  /** The characters of the first `k` pixels in order, pixel `i` written as
      many times as the whole part of the accumulated ratio grows on it. */
  function Written(cs: seq<char>, ratio: real, k: nat): string
    requires k <= |cs|
  {
    if k == 0 then [] else Written(cs, ratio, k - 1) + Repeat(cs[k - 1], Copies(k - 1, ratio))
  }

  /** Run together, the rows are each pixel's character written in turn. */
  lemma {:induction false} LayoutText(width: nat, ratio: real, cs: seq<char>, k: nat)
    requires k <= |cs| && (width > 0 || k == 0)
    ensures Flatten(Layout(width, ratio, cs, k)) == Written(cs, ratio, k)
  {
    if k > 0 {
      LayoutText(width, ratio, cs, k - 1);
      TextStep(width, ratio, cs, k);
    }
  }

  /** The step of `LayoutText`: pixel `k - 1` writes the same characters both ways. */
  lemma {:induction false} TextStep(width: nat, ratio: real, cs: seq<char>, k: nat)
    requires 0 < k <= |cs| && width > 0
    requires Flatten(Layout(width, ratio, cs, k - 1)) == Written(cs, ratio, k - 1)
    ensures Flatten(Layout(width, ratio, cs, k)) == Written(cs, ratio, k)
  {
    FlattenExtend(Layout(width, ratio, cs, k - 1), Column(k - 1, width) == 0, Repeat(cs[k - 1], Copies(k - 1, ratio)));
  }

  // ----- The characters -----

  /** Without dithering a pixel shows its own table character. */
  lemma {:induction false} NoDitherChosen(width: nat, pixels: seq<int>, mapping: seq<Entry>, i: nat)
    requires Scannable(width, pixels, mapping, |pixels|) && i < |pixels|
    ensures Chosen(width, pixels, mapping, false, |pixels|)[i] == mapping[pixels[i]].ch
  {
    ChosenAt(width, pixels, mapping, false, |pixels|, i);
  }

  /** Every character shown comes from the table. */
  lemma {:induction false} ChosenFromTable(width: nat, pixels: seq<int>, mapping: seq<Entry>, dither: bool)
    requires Scannable(width, pixels, mapping, |pixels|)
    ensures forall i :: 0 <= i < |pixels| ==> Chosen(width, pixels, mapping, dither, |pixels|)[i] in TableChars(mapping)
  {
    forall i | 0 <= i < |pixels|
      ensures Chosen(width, pixels, mapping, dither, |pixels|)[i] in TableChars(mapping)
    {
      ChosenAt(width, pixels, mapping, dither, |pixels|, i);
      var e := Pick(Offsets(width, pixels, mapping, dither, i), i, pixels[i], mapping, dither);
      assert e in mapping;
    }
  }

  /** Every character the rows hold is one of `cs[..k]`'s when those lie in `chars`. */
  lemma {:induction false} LayoutChars(width: nat, ratio: real, cs: seq<char>, k: nat, chars: set<char>)
    requires k <= |cs| && (width > 0 || k == 0)
    requires forall i :: 0 <= i < k ==> cs[i] in chars
    ensures CharsIn(Layout(width, ratio, cs, k), chars)
  {
    if k > 0 {
      LayoutChars(width, ratio, cs, k - 1, chars);
      ExtendChars(Layout(width, ratio, cs, k - 1), Column(k - 1, width) == 0, cs[k - 1], Copies(k - 1, ratio), chars);
    }
  }

  // ----- The pending errors -----

  /** The error pixel `j` reads when its turn comes is final: no later pixel
      writes to offset `j`. */
  lemma {:induction false} PendingFinal(width: nat, pixels: seq<int>, mapping: seq<Entry>, j: nat, m: nat)
    requires Scannable(width, pixels, mapping, m) && j <= m
    ensures Get(Pending(width, pixels, mapping, m), j) == Get(Pending(width, pixels, mapping, j), j)
    decreases m
  {
    if m > j {
      PendingFinal(width, pixels, mapping, j, m - 1);
      PendingKeeps(width, pixels, mapping, j, m);
    }
  }

  /** Pixel `m - 1` leaves the offsets up to its own untouched. */
  lemma {:induction false} PendingKeeps(width: nat, pixels: seq<int>, mapping: seq<Entry>, j: nat, m: nat)
    requires Scannable(width, pixels, mapping, m) && j < m
    ensures Get(Pending(width, pixels, mapping, m), j) == Get(Pending(width, pixels, mapping, m - 1), j)
  {
    var offsets := Pending(width, pixels, mapping, m - 1);
    DiffuseForward(offsets, width, m - 1, DitherError(offsets, m - 1, pixels[m - 1], mapping), j);
  }

  /** With dithering a pixel shows the entry of its value plus the error
      left at its offset once the whole image is scanned, clamped to the table. */
  lemma {:induction false} DitherChosen(width: nat, pixels: seq<int>, mapping: seq<Entry>, i: nat)
    requires Scannable(width, pixels, mapping, |pixels|) && i < |pixels|
    ensures Chosen(width, pixels, mapping, true, |pixels|)[i]
         == mapping[LookupIndex(pixels[i] as real + Get(Pending(width, pixels, mapping, |pixels|), i))].ch
  {
    ChosenAt(width, pixels, mapping, true, |pixels|, i);
    PendingFinal(width, pixels, mapping, i, |pixels|);
  }

  lemma {:induction false} JoinLength(rows: seq<string>)
    requires rows != []
    ensures |Join(rows)| == TotalLength(rows) + |rows| - 1
  {
    if |rows| > 1 {
      JoinLength(rows[1..]);
    } else {
      assert rows[1..] == [];
    }
  }

  /** Every character of every row lies in `cs`. */
  predicate CharsIn(rows: seq<string>, cs: set<char>) {
    forall j, x :: 0 <= j < |rows| && 0 <= x < |rows[j]| ==> rows[j][x] in cs
  }

  /** No row holds a line break. */
  predicate NoBreaks(rows: seq<string>) {
    forall j, x :: 0 <= j < |rows| && 0 <= x < |rows[j]| ==> rows[j][x] != '\n'
  }

  lemma {:induction false} ExtendChars(rows: seq<string>, opens: bool, ch: char, n: int, cs: set<char>)
    requires rows != [] || opens
    requires CharsIn(rows, cs) && ch in cs
    ensures CharsIn(Extend(rows, opens, Repeat(ch, n)), cs)
  {
    var r := Extend(rows, opens, Repeat(ch, n));
    ExtendShape(rows, opens, Repeat(ch, n));
    forall j, x | 0 <= j < |r| && 0 <= x < |r[j]|
      ensures r[j][x] in cs
    {
      if j == |r| - 1 {
        var last := if opens then [] else rows[|rows| - 1];
        if x >= |last| {
          assert r[j][x] == Repeat(ch, n)[x - |last|];
          RepeatAt(ch, n, x - |last|);
        }
      }
    }
  }

  /** Joining rows adds nothing but the separators. */
  lemma {:induction false} JoinChars(rows: seq<string>, cs: set<char>)
    requires CharsIn(rows, cs)
    ensures forall x :: 0 <= x < |Join(rows)| ==> Join(rows)[x] == '\n' || Join(rows)[x] in cs
  {
    if |rows| > 1 {
      assert CharsIn(rows[1..], cs) by {
        forall j, x | 0 <= j < |rows[1..]| && 0 <= x < |rows[1..][j]|
          ensures rows[1..][j][x] in cs
        {
          assert rows[1..][j] == rows[j + 1];
        }
      }
      JoinChars(rows[1..], cs);
      var t := Join(rows);
      forall x | 0 <= x < |t|
        ensures t[x] == '\n' || t[x] in cs
      {
        if x < |rows[0]| {
          assert t[x] == rows[0][x];
        } else if x > |rows[0]| {
          assert t[x] == Join(rows[1..])[x - |rows[0]| - 1];
        }
      }
    } else if |rows| == 1 {
      forall x | 0 <= x < |rows[0]|
        ensures rows[0][x] in cs
      {
      }
    }
  }

  lemma {:induction false} LinesPrefix(r: string, s: string)
    requires forall x :: 0 <= x < |r| ==> r[x] != '\n'
    ensures Lines(r + s) == [r + Lines(s)[0]] + Lines(s)[1..]
  {
    if r != [] {
      var l := Lines(s);
      assert (r + s)[0] == r[0];
      assert (r + s)[1..] == r[1..] + s;
      LinesPrefix(r[1..], s);
      var rest := Lines(r[1..] + s);
      assert rest == [r[1..] + l[0]] + l[1..];
      assert rest[0] == r[1..] + l[0];
      assert rest[1..] == l[1..];
      assert Lines(r + s) == [[r[0]] + rest[0]] + rest[1..];
      assert [r[0]] + (r[1..] + l[0]) == r + l[0];
    } else {
      var l := Lines(s);
      assert r + s == s;
      assert r + l[0] == l[0];
      assert l == [l[0]] + l[1..];
    }
  }

  /** Splitting the joined rows at the line breaks gives back the rows. */
  lemma {:induction false} LinesOfJoin(rows: seq<string>)
    requires rows != [] && NoBreaks(rows)
    ensures Lines(Join(rows)) == rows
  {
    if |rows| == 1 {
      LinesPrefix(rows[0], []);
      assert rows[0] + [] == rows[0];
    } else {
      assert NoBreaks(rows[1..]) by {
        forall j, x | 0 <= j < |rows[1..]| && 0 <= x < |rows[1..][j]|
          ensures rows[1..][j][x] != '\n'
        {
          assert rows[1..][j] == rows[j + 1];
        }
      }
      LinesOfJoin(rows[1..]);
      var tail := Join(rows[1..]);
      assert Join(rows) == rows[0] + ("\n" + tail);
      LinesPrefix(rows[0], "\n" + tail);
      assert ("\n" + tail)[0] == '\n';
      assert ("\n" + tail)[1..] == tail;
      var l := Lines("\n" + tail);
      assert l == [[]] + rows[1..];
      assert rows[0] + [] == rows[0];
      assert rows == [rows[0]] + rows[1..];
    }
  }
}
