# ASCIIpy conversion core in Dafny

This project models the two functions at the heart of ASCIIpy's `ascii.py`, which
turns a luminance image into text:

- `make_mapping` (module `Mapping`, `mapping.dfy`) calibrates a character set.
  - It measures each character's glyph and skips glyphs taller than 11 rows.
  - It collects the survivors in a dictionary from intensity to character.
  - It normalises the intensities between their minimum and maximum.
  - For every luminance level 0..255 it picks the character stored under the
    first-inserted intensity whose normalised value lies nearest to `n / 255`.
    That is the last character measured with that intensity, since a repeated
    intensity keeps its first position and takes the later character.
  - It returns that 256-entry table together with the cell size of the last
    glyph measured.
- `convert` (module `Convert`, `convert.dfy`) scans the pixels in row-major
  order.
  - It opens a text row at every multiple of the width.
  - It adds the aspect ratio to the accumulator `c` and writes the whole part
    as copies of the pixel's character.
  - With dithering, it reads the table at the pixel plus its pending error,
    truncated and clamped to 0..255. It then spreads the unclamped quantisation error to
    the neighbours: 7/16 right, 1/16 below right, 3/16 below left and 5/16
    below.
  - The rows are joined with newlines.

Both functions are modelled imperatively, as the code is written.

- **`make_mapping`** is `Mapping.MakeMapping` with two loops: `FillDictionary`
  and `FillTable`.
  - The Python dictionary is an ordered sequence of key/character pairs.
  - `Assign` models `d[k] = v`: an existing key keeps its place and takes the
    new character, and a new key is appended.
- **`convert`** is `Convert.Convert`. It calls `ScanRows`, whose loop body is
  `Advance`. `Advance` uses `Shade` for the character and `Spread` for the
  diffusion block.
- **Specification functions.** Each method is proved against a function on
  values:
  - `FloatMapping` and `EntryFor` for the calibration.
  - `Step`, and for the scan after `k` pixels `Prefix`, which is built from
    `Layout`, `Carry` and `Pending`, for the conversion.
- **Lemmas.** What the program promises is proved about those functions:
  - the table is monotone, runs from 0 to 1 and is drawn from surviving glyphs;
  - the dictionary holds the last character of each intensity, at the position
    where the intensity first appeared;
  - the text has one line per image row and its length is fixed by the ratio;
  - diffusion never changes an error that has already been read;
  - every column but the first passes on its whole error; the first column
    passes on 13/16 of it, and a one-pixel-wide image only 5/16 at pixel 0.

Floating point is modelled with `real`. The `defaultdict` of pending errors
is a `map<int, real>` read through `Get`, which returns 0 for an absent
offset.

Some behaviours of `ascii.py` are easy to misread; the model follows the code
as written:

- **The accumulator is never reset.** `c` is set to 0 once, at `ascii.py:43`,
  and carries across image rows: no row boundary resets it.
- **The right shares wrap onto the next row.** The guard at `ascii.py:54` is
  `i+1 % width != 0`, which binds as `i + (1 % width) != 0`.
  - For any width above 1 the guard always holds, so the last column pushes
    its right and below-right shares onto the next row
    (`Convert.DiffuseWrapsRight`).
  - The guard is reproduced literally in `ShareRight` and `Spread`.
- **The error comes from the unclamped value.** The table index is
  `min(max(int(new_px), 0), 255)`, truncating and then clamping. The error
  at `ascii.py:53` is taken from the unclamped `new_px`
  (`Convert.DitherErrorUnclamped`).
- **The cell size is the last glyph measured.** It is the size of the last
  glyph measured (`ascii.py:38`), even when that glyph was skipped for its
  height.
- **The degenerate charset is an error.** If every surviving glyph has one
  intensity, the code divides by zero at `n = 0`. The model returns
  `Failure(DegenerateCharset)`.
- **The empty charset is an error.** If no glyph survives, `min` of an empty
  dictionary raises. The model returns `Failure(NoUsableGlyphs)`.

## Model

| member | source | states |
|---|---|---|
| Mapping.KeyIndex | ascii.py:32 | the position of key `k` in the dictionary, or its length exactly when `k` is absent |
| Mapping.Assign | ascii.py:32 | `d[k] = c` keeps the keys distinct; an existing key keeps its position and only its character changes; an absent key is appended at the end |
| Mapping.FloatMapping | ascii.py:23-32 | the dictionary built from the surviving glyphs has distinct keys |
| Mapping.LastWith | ascii.py:24-32 | the character of the last surviving glyph of an intensity, absent exactly when no surviving glyph has it |
| Mapping.FirstWith | ascii.py:24-32 | the index of the first surviving glyph of an intensity; no earlier glyph carries it |
| Mapping.MinKey | ascii.py:33 | `min(float_mapping)` is one of the keys and no key is smaller |
| Mapping.MaxKey | ascii.py:33 | `max(float_mapping)` is one of the keys and no key is larger |
| Mapping.Nearest | ascii.py:36 | `min(items, key=...)` selects a position inside the dictionary |
| Mapping.NearestMinimal | ascii.py:36 | the selected pair's distance to `n / 255` is minimal, and every earlier pair is strictly farther (first minimiser, as `min` scans) |
| Mapping.Survives | ascii.py:26-27 | defines the glyphs kept: those at most 11 rows tall |
| Mapping.Normalise | ascii.py:36-37 | defines `(k - mn) / (mx - mn)`; NormaliseInRange and NormaliseTop state its range |
| Mapping.Distance | ascii.py:36 | defines the `key=` of `min`, `abs(n / 255 - (k - mn) / (mx - mn))`; NearestMinimal states that the selection minimises it |
| Mapping.EntryFor | ascii.py:36-37 | defines table entry `n` as the nearest pair's normalised key and its character; FillTable and MakeMapping are proved equal to it, EntryMonotone and CalibrationTable state its properties |
| Mapping.MakeMapping | ascii.py:22-38 | fails with NoUsableGlyphs exactly when no glyph is at most 11 rows tall; fails with DegenerateCharset exactly when survivors exist and share one intensity; otherwise returns 256 entries, entry `n` being the normalised intensity and character of the nearest pair, and the last glyph's size |
| Mapping.FillDictionary | ascii.py:23-32 | the loop builds exactly the dictionary of the surviving glyphs, in insertion order |
| Mapping.FillTable | ascii.py:34-37 | the loop appends 256 entries, entry `n` being the nearest pair's normalised intensity and character |
| Mapping.FloatMappingKeys | ascii.py:24-32 | an intensity is a key exactly when some surviving glyph has it |
| Mapping.FloatMappingValues | ascii.py:24-32 | each key maps to the character of the last surviving glyph with that intensity (a later duplicate overwrites) |
| Mapping.FloatMappingOrder | ascii.py:24-32 | keys stand in the order in which their intensities first appeared among the survivors |
| Mapping.OldKeysFirst | ascii.py:24-32 | measuring one more glyph does not move the first appearance of an intensity already present |
| Mapping.NewKeyLast | ascii.py:26-32 | a surviving glyph with a new intensity is appended at the end of the dictionary |
| Mapping.FloatMappingEmpty | ascii.py:26-33 | the dictionary is empty exactly when every glyph is taller than 11 rows |
| Mapping.FloatMappingDegenerate | ascii.py:33-37 | `mn == mx` exactly when all surviving glyphs share one intensity |
| Mapping.EntryFromSurvivor | ascii.py:33-37 | every table entry is the character and normalised intensity of a surviving glyph, the last with that intensity |
| Mapping.NormaliseInRange | ascii.py:37 | a key between `mn` and `mx` normalises into [0, 1] |
| Mapping.EntryInRange | ascii.py:37 | every entry's value lies in [0, 1] |
| Mapping.EntryFirst | ascii.py:35-37 | entry 0 has value 0 (the darkest glyph) |
| Mapping.EntryLast | ascii.py:35-37 | entry 255 has value 1 (the brightest glyph) |
| Mapping.NormaliseTop | ascii.py:36-37 | the maximum key normalises to 1 and lies at distance 0 from level 255 |
| Mapping.NearestOrder | ascii.py:36 | nearest points of two ordered targets are ordered the same way |
| Mapping.EntryMonotone | ascii.py:35-37 | entry values never decrease with the luminance level |
| Mapping.CalibrationTable | ascii.py:34-38 | the returned table runs from 0 to 1, stays in [0, 1] and is monotone |
| Convert.Get | ascii.py:51 | defines a `defaultdict` read: an absent offset holds 0 |
| Convert.Add | ascii.py:55-59 | defines `offsets[k] += v`; AddGet states that it changes offset `k` only |
| Convert.Trunc | ascii.py:52 | defines `int()` on a float, truncating toward zero; LookupIndex states the clamped result |
| Convert.Pick | ascii.py:51-61 | defines the entry a pixel reads: `mapping[px]` without dithering, the truncated and clamped `px + offsets[i]` with it |
| Convert.DitherError | ascii.py:51-53 | defines the error as the unclamped `new_px` less the entry's value times 255; DitherErrorUnclamped states it on each side of the table |
| Convert.Diffuse | ascii.py:54-59 | defines the four guarded updates, the first guard being `i + (1 % width) != 0` as written; Spread is proved equal to it and DiffuseForward, DiffuseConserves and DiffuseWrapsRight state its effect |
| Convert.ShareRight | ascii.py:54-56 | defines the right and below-right shares under the literal guard; WindowRight states what they add |
| Convert.ShareLeft | ascii.py:57-58 | defines the below-left share, pushed off the first column only; WindowLeft states what it adds |
| Convert.Step | ascii.py:46-62 | defines one loop pass: open a row at column 0, `c += ratio`, `divmod`, pick the character, diffuse when dithering, extend the last row; Advance is proved equal to it |
| Convert.Frac | ascii.py:49 | defines the remainder of `divmod(c, 1)`; FracRange states it lies in [0, 1) |
| Convert.Carry | ascii.py:43-49 | defines `c` after `k` pixels, from 0 and never reset; CarryClosed states it in closed form |
| Convert.Copies | ascii.py:48-49 | defines `chars`, the whole part of `c + ratio`; CopiesClosed states it in closed form |
| Convert.Scaled | ascii.py:48 | defines `ratio` added once per pixel; ScaledIsProduct states it equals `k * ratio` |
| Convert.Pending | ascii.py:51-59 | defines the pending errors after `k` pixels, each pixel's error diffused in turn; PendingFinal and DitherChosen state what a pixel reads |
| Convert.Join | ascii.py:63 | defines `"\n".join(...)` of the rows; JoinLength, JoinChars and LinesOfJoin state its length, characters and lines |
| Convert.Repeat | ascii.py:62 | `[char] * n` has `n` elements, none when `n` is not positive |
| Convert.RepeatAt | ascii.py:62 | every element of `[char] * n` is `char` |
| Convert.LookupIndex | ascii.py:52 | the dithered index lies in 0..255; it is the floor in range, 0 below 1 and 255 from 255 up |
| Convert.Column | ascii.py:46 | the column of a pixel lies below the width |
| Convert.ColumnOf | ascii.py:46 | pixel `q * width + r` lies in column `r` |
| Convert.ColumnIsMod | ascii.py:46 | the column is `i % width` |
| Convert.ColumnNext | ascii.py:46 | the next pixel's column is one more, or 0 after the last column |
| Convert.Extend | ascii.py:46-62 | one pixel adds a row exactly when it opens one |
| Convert.ExtendShape | ascii.py:46-62 | one pixel keeps the earlier rows and appends its copies to the last row, a fresh one when it opens a row |
| Convert.ExtendLength | ascii.py:62 | one pixel adds exactly its copies to the text |
| Convert.Layout | ascii.py:45-62 | the rows are empty exactly when no pixel was scanned |
| Convert.Chosen | ascii.py:45-61 | one character is chosen per scanned pixel |
| Convert.ChosenAt | ascii.py:45-61 | the character of pixel `i` does not depend on how many later pixels are scanned |
| Convert.Lines | ascii.py:63 | splitting a text at newlines gives at least one line |
| Convert.Convert | ascii.py:40-63 | the text is the joined rows of the scan; with a positive width and height its length is `max(0, floor(Scaled(len, ratio))) + height - 1`, `Scaled` being `ratio` added once per pixel (equal to `len * ratio` by ScaledIsProduct); it has `height` lines when no table character is a newline; every character is a newline or comes from the table |
| Convert.ScanRows | ascii.py:44-62 | the loop's rows are those of the scan of all pixels; its invariant is that the state after `i` pixels is the scan prefix of `i` |
| Convert.Advance | ascii.py:46-62 | one pass of the loop body is one `Step` of the scan (row, accumulator and pending errors) |
| Convert.Shade | ascii.py:50-61 | the character is the table entry at the pixel, plus its pending error when dithering; only dithering changes the pending errors, by diffusing the unclamped error |
| Convert.Spread | ascii.py:54-59 | the four guarded updates of `offsets` are the diffusion of the error |
| Convert.PrefixStep | ascii.py:45-62 | one loop pass takes the scan of `k` pixels to the scan of `k + 1` |
| Convert.StepRows | ascii.py:45-62 | one loop pass extends the rows by pixel `k`'s chosen character |
| Convert.StepOffsets | ascii.py:50-59 | one loop pass diffuses pixel `k`'s error into the pending errors of `k + 1` pixels |
| Convert.LayoutStep | ascii.py:46-62 | the rows after `k + 1` pixels are those after `k`, with a row opened at column 0 and pixel `k`'s copies appended |
| Convert.DitherErrorUnclamped | ascii.py:51-53 | the error is `new_px - 255` above the table and `new_px` below it, both unclamped; in range it is `new_px` less the entry's level |
| Convert.ScanText | ascii.py:62-63 | the joined text has length `max(0, floor(Scaled(len, ratio))) + height - 1` and `height` lines when no table character is a newline; every character is a newline or a table character |
| Convert.AspectRatio | ascii.py:86 | the ratio exists exactly when the cell width is non-zero, and times the width it is the cell height plus the spacing |
| Convert.AddGet | ascii.py:55-59 | `offsets[k] += v` changes the pending error of `k` only, by `v` |
| Convert.RightGuard | ascii.py:54 | the guard as written fails only for width 1 at pixel 0 |
| Convert.DiffuseForward | ascii.py:54-59 | diffusing pixel `i` leaves every offset up to `i` and beyond `i + width + 1` unchanged: no error ever reaches a pixel already read |
| Convert.WindowAdd | ascii.py:55-59 | one update adds its amount to the sum of the window that holds its offset |
| Convert.DiffuseConserves | ascii.py:54-59 | the four shares add to the neighbourhood exactly the error times the diffused weight |
| Convert.WeightShares | ascii.py:54-59 | the diffused weight times the error is the sum of the guarded shares |
| Convert.WindowRight | ascii.py:54-56 | the right and below-right shares add 8/16 of the error to the neighbourhood when the guard holds |
| Convert.WindowLeft | ascii.py:57-58 | the below-left share adds 3/16 of the error off the first column |
| Convert.WeightByColumn | ascii.py:54-59 | the whole error is passed on off the first column; 13/16 in the first column, and 5/16 only at pixel 0 of a one-pixel-wide image |
| Convert.DiffuseWrapsRight | ascii.py:54-58 | from the last column, the right share lands on the first pixel of the next row |
| Convert.RowCountOf | ascii.py:46-47 | after `q * width + r` pixels, `q` rows are open, one more when `r > 0` |
| Convert.RowCountDiv | ascii.py:46-47 | the rows opened are `ceil(k / width)` |
| Convert.RowCountEnd | ascii.py:46-47 | a `width * height` image opens `height` rows |
| Convert.LayoutRowCount | ascii.py:46-47 | the scan of `k` pixels has as many rows as it opened |
| Convert.FracRange | ascii.py:49 | `divmod(c, 1)` leaves a remainder in [0, 1) |
| Convert.FloorCarry | ascii.py:48-49 | taking the whole part off before adding `ratio` changes the floors by exactly that part and leaves the same remainder |
| Convert.ScaledIsProduct | ascii.py:48 | adding `ratio` `k` times gives `k * ratio` |
| Convert.WholeParts | ascii.py:48-49 | the non-negative floors of two successive sums of like sign add up |
| Convert.CarryClosed | ascii.py:48-49 | the accumulator after `k` pixels is the fractional part of `Scaled(k, ratio)` (`ratio` added `k` times), in [0, 1) |
| Convert.CopiesClosed | ascii.py:48-49 | pixel `i` gets `floor(Scaled(i + 1, ratio)) - floor(Scaled(i, ratio))` copies |
| Convert.CopiesAdd | ascii.py:48-49 | the copies of pixel `k - 1` take the total from `max(0, floor(Scaled(k - 1, ratio)))` to `max(0, floor(Scaled(k, ratio)))` |
| Convert.LayoutTotal | ascii.py:48-62 | the rows of `k` pixels hold `max(0, floor(Scaled(k, ratio)))` characters together |
| Convert.LayoutTotalProduct | ascii.py:48-62 | the rows of `k` pixels hold `max(0, floor(k * ratio))` characters together, stated with the product itself |
| Convert.TotalStep | ascii.py:48-62 | one more pixel keeps the total at `max(0, floor(Scaled(k, ratio)))` |
| Convert.ExtendSameShape | ascii.py:62 | pieces of equal length extend rows of equal shape to rows of equal shape |
| Convert.LayoutShape | ascii.py:46-62 | the row lengths do not depend on which characters were chosen |
| Convert.DitherKeepsLayout | ascii.py:50-62 | dithering changes characters only, never the shape of the rows |
| Convert.FlattenExtend | ascii.py:62 | run together, extended rows gain exactly the piece at the end |
| Convert.LayoutText | ascii.py:62 | run together, the rows are each pixel's character repeated its number of copies, in pixel order |
| Convert.TextStep | ascii.py:62 | one more pixel appends its copies at the end of the text |
| Convert.NoDitherChosen | ascii.py:61 | without dithering, pixel `i` shows `mapping[px][1]` |
| Convert.DitherChosen | ascii.py:51-52 | with dithering, pixel `i` shows the entry at the clamped pixel plus the error pending once the whole image is scanned |
| Convert.PendingFinal | ascii.py:51-59 | the pending error of pixel `j` is final when its turn comes: later pixels never change it |
| Convert.PendingKeeps | ascii.py:54-59 | one more pixel's diffusion leaves the error of an earlier pixel unchanged |
| Convert.ChosenFromTable | ascii.py:52-61 | every chosen character is a character of the table |
| Convert.LayoutChars | ascii.py:62 | the rows hold only chosen characters |
| Convert.ExtendChars | ascii.py:62 | appending copies of a table character keeps the rows within the table's characters |
| Convert.JoinLength | ascii.py:63 | the joined text is the rows' characters plus one newline between each two rows |
| Convert.JoinChars | ascii.py:63 | the joined text holds only newlines and the rows' characters |
| Convert.LinesPrefix | ascii.py:63 | a prefix without newlines joins the first line |
| Convert.LinesOfJoin | ascii.py:63 | splitting the joined rows at newlines gives back the rows when no row holds a newline |

## Left out

- `get_font` (`ascii.py:16-20`) runs `fc-match` and loads a TrueType font. This is external I/O, so it is not part of this model.
- Glyph rasterisation and the intensity formula (`ascii.py:25`, `ascii.py:28-31`) are left out, including the `invert` flag, which only affects rasterisation. Each glyph is an input `Glyph(ch, width, height, intensity)` carrying PIL's measured size and the root mean square of its pixels. This includes the division by zero a zero-area glyph would raise.
- PIL image decoding, mode conversion and resizing are left out. The image is its width, its height and its row-major luminance samples in 0..255.
- The command-line entry point (`ascii.py:65-97`) and the rendering of the text back into an image are left out: they are argument parsing, file I/O and PIL drawing. Only the ratio of `ascii.py:86` is modelled (`AspectRatio`).
- `bot.py` is not part of this model. It is the chat-bot front end.
- Floating-point rounding is not modelled; every float is an exact `real`.
  - `c += ratio` is therefore exact repeated addition (`Scaled`).
  - `n / 255` and the shares 7/16, 1/16, 3/16 and 5/16 are exact.
  - Python floats could make a different nearest character tie or win.
- Reading a `defaultdict` inserts the key with 0. The model reads absent offsets as 0 without inserting, which changes no value that is ever read.
- The pending-error map grows without bound. The model, like the code, never discards entries.
- The image reaches `convert` as parameters: its width, height and pixels. The precondition `|pixels| == width * height` and the 0..255 samples state what PIL's `getdata` of an `L`-mode image delivers. A table of 256 entries is what `make_mapping` returns.
