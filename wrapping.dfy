/**
 * The line wrapper: the flat character string is cut into consecutive
 * slices of the line width (the last one possibly shorter) and the slices
 * are joined with newlines, and the conversion that runs the mapper and
 * then the wrapper.
 */
module Wrapping {
  import opened Wrappers
  import opened Text
  import opened CharSet
  import opened Mapping
  import opened Arith

  /** The slices `s[i : i + width]` for `i` in `range(start, len(s), width)`;
      Python clips a slice that runs past the end, so every line is non-empty
      and at most `width` long. */
  function LinesFrom(s: string, width: int, start: nat): (lines: seq<string>)
    requires width >= 1
    ensures forall k :: 0 <= k < |lines| ==> 1 <= |lines[k]| <= width
    decreases |s| - start
  {
    if start >= |s| then []
    else
      var line := s[start..if start + width <= |s| then start + width else |s|];
      var rest := LinesFrom(s, width, start + width);
      assert forall k :: 1 <= k < |rest| + 1 ==> ([line] + rest)[k] == rest[k - 1];
      [line] + rest
  }

  /** The list of lines the wrapper builds from the whole string: there are
      `ceil(n / width)` of them and together they are the string. */
  function Lines(s: string, width: int): (lines: seq<string>)
    requires width >= 1
    ensures |lines| == CeilDiv(|s|, width)
    ensures Concat(lines) == s
  {
    LinesCount(s, width, 0);
    LinesConcat(s, width, 0);
    LinesFrom(s, width, 0)
  }

  /** `"\n".join(lines)`: the wrapped text. Empty text wraps to the empty
      string; text without newlines splits at its newlines back into its lines. */
  function Wrap(s: string, width: int): (w: string)
    requires width >= 1
    ensures s == "" ==> w == ""
    ensures '\n' !in s && s != "" ==> Split(w, '\n') == Lines(s, width)
  {
    LinesCharsFrom(s, width, 0);
    Join(Lines(s, width), '\n')
  }

  /** The text conversion of an already scaled greyscale image: map each
      pixel, then wrap the text at `width`. It fails exactly when the mapper
      does, and removing the newlines gives back the mapped text. */
  function ConvertToAscii(pixels: seq<Byte>, rangeWidth: int, width: int, chars: Option<seq<string>>)
    : (r: Result<string, MapError>)
    requires rangeWidth >= 1 && width >= 1
    ensures r.Success? <==> MapPixels(pixels, rangeWidth, chars).Success?
    ensures r.Success? && '\n' !in MapPixels(pixels, rangeWidth, chars).value ==>
      Concat(Split(r.value, '\n')) == MapPixels(pixels, rangeWidth, chars).value
  {
    match MapPixels(pixels, rangeWidth, chars)
    case Failure(e) => Failure(e)
    case Success(text) =>
      assert Split("", '\n') == [""];
      assert Concat([""]) == "" + Concat([]);
      Success(Wrap(text, width))
  }

  /** A string of length n yields `ceil(n / width)` lines. */
  lemma {:induction false} LinesCount(s: string, width: int, start: nat)
    requires width >= 1 && start <= |s|
    ensures |LinesFrom(s, width, start)| == CeilDiv(|s| - start, width)
    decreases |s| - start
  {
    var m := |s| - start;
    if m == 0 {
      assert CeilDiv(0, width) == (width - 1) / width == 0;
    } else if m <= width {
      CeilDivOne(m, width);
    } else {
      LinesCount(s, width, start + width);
      CeilDivStep(m, width);
    }
  }

  /** Every line but the last is exactly `width` long; the last is non-empty
      and at most `width` long. */
  lemma {:induction false} LinesShape(s: string, width: int, start: nat)
    requires width >= 1
    ensures var lines := LinesFrom(s, width, start);
      && (forall k :: 0 <= k < |lines| - 1 ==> |lines[k]| == width)
      && (|lines| > 0 ==> 1 <= |lines[|lines| - 1]| <= width)
    decreases |s| - start
  {
    if start < |s| {
      LinesShape(s, width, start + width);
      var lines := LinesFrom(s, width, start);
      var rest := LinesFrom(s, width, start + width);
      assert lines == [lines[0]] + rest;
      if |rest| > 0 {
        assert start + width < |s|;
      }
    }
  }

  /** The lines, concatenated, give back the text they were cut from. */
  lemma {:induction false} LinesConcat(s: string, width: int, start: nat)
    requires width >= 1 && start <= |s|
    ensures Concat(LinesFrom(s, width, start)) == s[start..]
    decreases |s| - start
  {
    if start < |s| {
      var lines := LinesFrom(s, width, start);
      var stop := if start + width <= |s| then start + width else |s|;
      if start + width <= |s| {
        LinesConcat(s, width, start + width);
      } else {
        assert LinesFrom(s, width, start + width) == [];
      }
      assert lines[1..] == LinesFrom(s, width, start + width);
      assert s[start..] == s[start..stop] + s[stop..];
    }
  }

  /** Every character of a line is a character of the text. */
  lemma {:induction false} LinesCharsFrom(s: string, width: int, start: nat)
    requires width >= 1
    ensures forall k, c :: 0 <= k < |LinesFrom(s, width, start)| && c in LinesFrom(s, width, start)[k] ==> c in s
    decreases |s| - start
  {
    if start < |s| {
      LinesCharsFrom(s, width, start + width);
      var lines := LinesFrom(s, width, start);
      var stop := if start + width <= |s| then start + width else |s|;
      assert forall c :: c in s[start..stop] ==> c in s;
      assert forall k :: 1 <= k < |lines| ==> lines[k] == LinesFrom(s, width, start + width)[k - 1];
    }
  }

  /** The empty text wraps to the empty string. */
  lemma WrapEmpty(width: int)
    requires width >= 1
    ensures Wrap("", width) == ""
  {
  }

  /** For text without newlines, splitting the wrapped text at newlines gives
      back the lines, there are `ceil(n / width) - 1` newlines, and removing
      them gives back the text. */
  lemma WrapRoundTrip(s: string, width: int)
    requires width >= 1 && '\n' !in s
    ensures Concat(Split(Wrap(s, width), '\n')) == s
    ensures s != "" ==> Split(Wrap(s, width), '\n') == Lines(s, width)
    ensures s != "" ==> multiset(Wrap(s, width))['\n'] == CeilDiv(|s|, width) - 1
  {
    LinesConcat(s, width, 0);
    if s == "" {
      assert Split("", '\n') == [""];
      assert Concat([""]) == "" + Concat([]);
    } else {
      LinesCount(s, width, 0);
      SplitCount(Wrap(s, width), '\n');
    }
  }

  /** 250 characters at width 100 give lines of 100, 100 and 50 characters. */
  lemma WrapTwoHundredFifty(s: string)
    requires |s| == 250
    ensures var lines := Lines(s, 100);
      |lines| == 3 && |lines[0]| == 100 && |lines[1]| == 100 && |lines[2]| == 50
  {
    assert LinesFrom(s, 100, 300) == [];
    assert LinesFrom(s, 100, 200) == [s[200..250]];
    assert LinesFrom(s, 100, 100) == [s[100..200], s[200..250]];
  }

  /** A resolved character set always converts: the mapper cannot index past
      the end of the set. */
  lemma ConvertResolved(pixels: seq<Byte>, c: Config, width: int)
    requires ValidConfig(c) && width >= 1
    ensures ConvertToAscii(pixels, c.rangeWidth, width, Some(c.chars)).Success?
  {
    ResolvedNeverFails(pixels, c);
  }

  /** With a built-in set the art, once its newlines are removed, has one
      character per pixel, each the set's entry for that pixel's bucket, and
      it has one line per `width` pixels, rounded up. */
  lemma ConvertBuiltIn(pixels: seq<Byte>, c: Config, width: int)
    requires c == Config(CharSet1, 25) || c == Config(CharSet2, 32)
    requires width >= 1 && |pixels| >= 1
    ensures var art := ConvertToAscii(pixels, c.rangeWidth, width, Some(c.chars));
      && art.Success?
      && |Split(art.value, '\n')| == CeilDiv(|pixels|, width)
      && var text := Concat(Split(art.value, '\n'));
      && |text| == |pixels|
      && forall i :: 0 <= i < |pixels| ==> text[i] == c.chars[Bucket(pixels[i], c.rangeWidth)][0]
  {
    forall i | 0 <= i < |pixels|
      ensures Bucket(pixels[i], c.rangeWidth) < |c.chars|
    {
      BucketInBounds(pixels[i], c.rangeWidth, |c.chars|);
    }
    MapSingleChars(pixels, c.rangeWidth, c.chars);
    var text := MapAll(pixels, c.rangeWidth, c.chars).value;
    assert '\n' !in text by {
      forall i | 0 <= i < |text| ensures text[i] != '\n' {
        assert text[i] == c.chars[Bucket(pixels[i], c.rangeWidth)][0];
      }
    }
    WrapRoundTrip(text, width);
    LinesCount(text, width, 0);
  }
}
