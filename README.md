# ASCII-art generator: the brightness-to-text pipeline

This project models the logic of `GUI/community-version.py`, which turns an
image into text: the image is scaled to a width of 100 with its height
halved for text cells, converted to grey, and every grey byte (0..255) is
replaced by an entry of a character set chosen by its brightness bucket; the
resulting string is cut into lines of the image width.

The model covers, as Dafny functions and lemmas:

- **Character-set resolution** (`CharSet`): the optional selector is either
  a bracketed list `[a,b,c]`, split on commas into a custom set with range
  width `ceil(256 / len)`, or an integer: `1` (also the default) gives the
  11-entry set with width 25, `2` the 8-entry set with width 32, any other
  integer is an error, and text that is neither is the `ValueError`.
  Python's `int()` is modelled in `Decimal`, `str.split`/`str.join` in `Text`.
- **Pixel mapping** (`Mapping`): each byte `p` becomes
  `ASCII_CHARS[int(p / range_width)]`, concatenated in order; an index past
  the end of the set is Python's `IndexError`, modelled as a failure.
- **Line wrapping** (`Wrapping`): the slices `s[i:i+width]` for `i` in
  `range(0, len(s), width)`, joined with newlines.
- **Scaling** (`Scaling`): the new size is the requested width and
  `floor(width * height / (2 * original width))`.
- **Save destination** (`Storing`): a destination is used only when its last
  four characters are `.txt`.
- **The request** (`Generator`): a `Session` class whose field is the
  module-level active character set; `HandleImage` resolves the selector
  step by step, replaces the active set, converts the grey pixels with it
  and decides the save action, leaving the active set untouched on error.

Two places where the code does less than its own text says, modelled as
the code behaves:

- The `--store` option is described as saving the ASCII art to the given
  path (GUI/community-version.py:196), but the `.txt` branch
  (GUI/community-version.py:265-271) only opens the file for writing, which
  truncates it, and never writes the art into it. `Save` therefore yields
  `OpenTxt(path)` and no content.
- `convert_image_to_ascii` takes a `new_width` parameter
  (GUI/community-version.py:60) but calls `scale_image(image)` without it
  (GUI/community-version.py:67), so the image is always scaled to the default
  width 100 and `new_width` only sets the wrap width. `ConvertToAscii`
  therefore takes the wrap width as its own parameter; every caller passes
  100 for both.

## Model

| member | source | states |
|---|---|---|
| Text.Split | GUI/community-version.py:219 | `str.split(",")` never yields an empty list |
| Text.SplitCount | GUI/community-version.py:219 | a split yields one more part than there are separators |
| Text.JoinSplit | GUI/community-version.py:219 | joining the split parts with the separator gives back the string exactly |
| Text.SplitPartsFree | GUI/community-version.py:219 | no part of a split contains the separator |
| Text.Join | GUI/community-version.py:78 | `sep.join(parts)`; splitting a join of separator-free parts at the separator gives back the parts |
| Text.Concat | GUI/community-version.py:54 | `"".join(parts)`; a character occurs in the result exactly when it occurs in some part |
| Decimal.ParseInt | GUI/community-version.py:222-230 | `int()` succeeds only on text ending in a digit and fails on text starting with anything but a sign or digit |
| Decimal.ParseNumeral | GUI/community-version.py:223 | `int(str(n)) == n` and `int("-" + str(n)) == -n` |
| Arith.CeilDiv | GUI/community-version.py:239 | `ceil(a / b)` is the least multiple count covering `a` |
| CharSet.ParseSelector | GUI/community-version.py:214-233 | a bracketed list is never empty; the only parse error is the ValueError |
| CharSet.Resolve | GUI/community-version.py:235-253 | every resolved set with its range width buckets all of 0..255 onto an entry (`width * len >= 256`) |
| CharSet.ResolveDefault | GUI/community-version.py:232-244 | no selector, an empty one and `"1"` all give set 1 with width 25 |
| CharSet.ResolveNumeral | GUI/community-version.py:241-251 | numeral 1 gives set 1/25, 2 gives set 2/32, any other integer (also negative) is "no CHAR_SET of the value" |
| CharSet.ResolveNeither | GUI/community-version.py:222-230 | non-bracketed text that is not an integer is the ValueError |
| CharSet.ResolveCustom | GUI/community-version.py:218-239 | `[body]` gives the comma split of body, which joins back to body, has commas+1 entries and width `ceil(256/len)` |
| CharSet.ResolveFourLetters | GUI/community-version.py:218-239 | `"[a,b,c,d]"` gives `["a","b","c","d"]` with width 64 |
| CharSet.ResolveEmptyList | GUI/community-version.py:218-239 | `"[]"` gives `[""]` with width 256 |
| CharSet.ResolveRejects | GUI/community-version.py:222-251 | `"abc"` is the ValueError and `"3"` names no set |
| Mapping.Bucket | GUI/community-version.py:51 | `int(p / width)` is the bucket whose range of `width` intensities holds `p` |
| Mapping.MapAll | GUI/community-version.py:49-54 | the comprehension and join over a given set; a failure reports a bucket past the end of the set that some pixel actually has |
| Mapping.MapPixels | GUI/community-version.py:40-54 | the mapper with its default set 1; it fails exactly when some pixel's bucket is past the end of the set in use |
| Mapping.MapSucceedsIff | GUI/community-version.py:50-52 | mapping fails exactly when some pixel's bucket is past the end of the set |
| Mapping.MapAppend | GUI/community-version.py:50-54 | the text for `a + b` is the text for `a` followed by the text for `b` |
| Mapping.MapSingleChars | GUI/community-version.py:49-54 | with one-character entries the text has one character per pixel, the entry of its bucket |
| Mapping.BucketInBounds | GUI/community-version.py:51 | when `width * len >= 256` every byte's bucket is below `len` |
| Mapping.BucketMonotone | GUI/community-version.py:51 | a brighter pixel never lands in an earlier bucket |
| Mapping.ResolvedNeverFails | GUI/community-version.py:236-248 | with any resolved set the mapper never raises IndexError |
| Mapping.BuiltInExamples | GUI/community-version.py:46-54 | set 1 maps 0 to `#` and 255 to `@`, set 2 maps 250 to `@`, no set means set 1 |
| Wrapping.LinesFrom | GUI/community-version.py:73-76 | the slices for `range(start, len, width)`; every line is non-empty and at most `width` long |
| Wrapping.Lines | GUI/community-version.py:73-76 | the slices of the whole text: `ceil(n / width)` of them, concatenating to the text |
| Wrapping.Wrap | GUI/community-version.py:78 | `"\n".join` of the slices; empty text gives the empty string, and newline-free text splits at its newlines back into its slices |
| Wrapping.ConvertToAscii | GUI/community-version.py:57-78 | mapping then wrapping; it fails exactly when the mapper does, and removing the newlines gives back the mapped text |
| Wrapping.LinesCount | GUI/community-version.py:73-76 | a string of length n gives `ceil(n / width)` lines |
| Wrapping.LinesShape | GUI/community-version.py:73-76 | every line but the last has length `width`; the last is non-empty and at most `width` |
| Wrapping.LinesConcat | GUI/community-version.py:73-76 | the lines concatenated give back the string |
| Wrapping.LinesCharsFrom | GUI/community-version.py:73-76 | every character of a line is a character of the text |
| Wrapping.WrapEmpty | GUI/community-version.py:73-78 | empty text wraps to the empty string |
| Wrapping.WrapRoundTrip | GUI/community-version.py:73-78 | splitting the wrapped text at newlines gives the lines back, with `ceil(n/width) - 1` newlines, and their concatenation is the text |
| Wrapping.WrapTwoHundredFifty | GUI/community-version.py:73-76 | 250 characters at width 100 give lines of 100, 100 and 50 |
| Wrapping.ConvertResolved | GUI/community-version.py:156 | converting with a resolved set always succeeds |
| Wrapping.ConvertBuiltIn | GUI/community-version.py:67-78 | with a built-in set the art has `ceil(pixels / width)` lines whose characters are, in order, the entries of the pixels' buckets |
| Scaling.ScaleSize | GUI/community-version.py:26-33 | the width is the requested one and the height is the floor of `width * h / (2 * w)` |
| Scaling.ScaleMonotone | GUI/community-version.py:28-30 | a taller original never gives a shorter result |
| Scaling.ScaleFlat | GUI/community-version.py:30 | a flat enough image is scaled to height 0 |
| Scaling.ScaleExamples | GUI/community-version.py:28-30 | 200 x 100 at width 100 gives 100 x 25; a square gives half the width |
| Storing.LastFour | GUI/community-version.py:265 | `s[-4:]` is the suffix of length `min(4, len(s))` |
| Storing.Save | GUI/community-version.py:263-275 | nothing is saved without a destination; a destination is opened iff its last four characters are `.txt`, otherwise it is an extension error |
| Storing.SaveExamples | GUI/community-version.py:265 | `result.txt` is opened; `result.png`, `.tx` and `txt` are rejected |
| Generator.Session.constructor | GUI/community-version.py:211 | the active character set starts unset |
| Generator.Session.HandleImage | GUI/community-version.py:210-276 | a bad selector fails with the resolution error and leaves the active set unchanged; otherwise the active set becomes the resolved list and the art is the conversion with it, which always succeeds |

## Left out

- The Tk window, its buttons, entry and message boxes, `root.destroy()` and `exit()`: user-interface side effects.
- `handle_image_print`: console status decoration with random words and sleeps; it returns its input unchanged, so `HandleImage` returns the art itself.
- File I/O: opening the image, `write_to_txtfile`, and the actual opening of the `.txt` destination; `Save` only decides what happens to the destination.
- PIL's `resize`, `convert("L")` and `ImageChops.invert` (and so the `--inverse` flag): the model takes the grey bytes of the already scaled image as input.
- `argparse`: the selector and destination arrive as optional strings.
- Decimal.ParseInt: accepts an optional sign followed by ASCII digits; Python's `int()` also strips surrounding whitespace and accepts underscores between digits and non-ASCII digits.
- Scaling.ScaleSize: uses exact integer floor division; the source computes the height in floating point, which can differ at rare rounding edges.
- Mapping.MapPixels: requires a range width of at least 1, which every caller passes (25, 32 or `ceil(256 / len)`); zero or negative widths (ZeroDivisionError, negative indexing) are not modelled.
- Wrapping.Wrap: requires a line width of at least 1, which every caller passes (100); a width of 0 raises in `range` and is not modelled.
- The last `else` of the selector decision ("neither an integer nor a list") cannot be reached, because a selector is always a list or an integer by then; the `Selection` datatype has no third case.
- The `--color` option: it is passed along but changes neither the text nor the save decision.
