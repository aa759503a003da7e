/**
 * The character mapper: every grey byte of the scaled image becomes the
 * character-set entry of the brightness bucket it falls in, and the entries
 * are concatenated in pixel order.
 */
module Mapping {
  import opened Wrappers
  import opened CharSet
  import opened Arith

  /** A luminance byte of a greyscale image. */
  type Byte = x: int | 0 <= x < 256

  /** Indexing past the end of the character set (Python's IndexError),
      with the bucket that was asked for. */
  datatype MapError = IndexOutOfRange(bucket: int)

  /** `int(p / rangeWidth)`: the bucket whose range of `rangeWidth`
      intensities holds `p`. */
  function Bucket(p: Byte, rangeWidth: int): (b: nat)
    requires rangeWidth >= 1
    ensures b * rangeWidth <= p < (b + 1) * rangeWidth
  {
    p / rangeWidth
  }

  /** The list comprehension and `"".join` over a given table: the entry of
      each pixel's bucket, in pixel order, or the first out-of-range bucket. */
  function MapAll(pixels: seq<Byte>, rangeWidth: int, table: seq<string>): (r: Result<string, MapError>)
    requires rangeWidth >= 1
    ensures r.Failure? ==> r.error.bucket >= |table|
    ensures r.Failure? ==> exists i :: 0 <= i < |pixels| && Bucket(pixels[i], rangeWidth) == r.error.bucket
  {
    if |pixels| == 0 then Success("")
    else
      var b := Bucket(pixels[0], rangeWidth);
      if b >= |table| then Failure(IndexOutOfRange(b))
      else
        match MapAll(pixels[1..], rangeWidth, table)
        case Failure(e) =>
          assert forall i :: 1 <= i < |pixels| ==> pixels[i] == pixels[1..][i - 1];
          Failure(e)
        case Success(rest) => Success(table[b] + rest)
  }

  /** The mapper with its default: no table means built-in set 1. It fails
      exactly when some pixel's bucket is past the end of that table. */
  function MapPixels(pixels: seq<Byte>, rangeWidth: int, chars: Option<seq<string>>): (r: Result<string, MapError>)
    requires rangeWidth >= 1
    ensures var table := if chars.None? then CharSet1 else chars.value;
      r.Success? <==> forall i :: 0 <= i < |pixels| ==> Bucket(pixels[i], rangeWidth) < |table|
  {
    var table := if chars.None? then CharSet1 else chars.value;
    MapSucceedsIff(pixels, rangeWidth, table);
    MapAll(pixels, rangeWidth, table)
  }

  /** Mapping fails exactly when some pixel's bucket is past the end of the table. */
  lemma {:induction false} MapSucceedsIff(pixels: seq<Byte>, rangeWidth: int, table: seq<string>)
    requires rangeWidth >= 1
    ensures MapAll(pixels, rangeWidth, table).Success? <==>
      forall i :: 0 <= i < |pixels| ==> Bucket(pixels[i], rangeWidth) < |table|
  {
    if |pixels| > 0 {
      MapSucceedsIff(pixels[1..], rangeWidth, table);
      assert forall i :: 1 <= i < |pixels| ==> pixels[i] == pixels[1..][i - 1];
    }
  }

  /** Mapping is in order: the text for `a + b` is the text for `a` followed
      by the text for `b`. */
  lemma {:induction false} MapAppend(a: seq<Byte>, b: seq<Byte>, rangeWidth: int, table: seq<string>)
    requires rangeWidth >= 1
    requires MapAll(a, rangeWidth, table).Success? && MapAll(b, rangeWidth, table).Success?
    ensures MapAll(a + b, rangeWidth, table) ==
      Success(MapAll(a, rangeWidth, table).value + MapAll(b, rangeWidth, table).value)
  {
    if |a| == 0 {
      assert a + b == b;
      assert "" + MapAll(b, rangeWidth, table).value == MapAll(b, rangeWidth, table).value;
    } else {
      assert (a + b)[1..] == a[1..] + b;
      MapAppend(a[1..], b, rangeWidth, table);
      var bucket := Bucket(a[0], rangeWidth);
      assert table[bucket] + (MapAll(a[1..], rangeWidth, table).value + MapAll(b, rangeWidth, table).value)
          == (table[bucket] + MapAll(a[1..], rangeWidth, table).value) + MapAll(b, rangeWidth, table).value;
    }
  }

  /** With one-character entries the text has one character per pixel: the
      entry of that pixel's bucket. */
  lemma {:induction false} MapSingleChars(pixels: seq<Byte>, rangeWidth: int, table: seq<string>)
    requires rangeWidth >= 1
    requires forall j :: 0 <= j < |table| ==> |table[j]| == 1
    requires forall i :: 0 <= i < |pixels| ==> Bucket(pixels[i], rangeWidth) < |table|
    ensures MapAll(pixels, rangeWidth, table).Success?
    ensures var text := MapAll(pixels, rangeWidth, table).value;
      && |text| == |pixels|
      && forall i :: 0 <= i < |pixels| ==> text[i] == table[Bucket(pixels[i], rangeWidth)][0]
  {
    MapSucceedsIff(pixels, rangeWidth, table);
    if |pixels| > 0 {
      MapSingleChars(pixels[1..], rangeWidth, table);
      var rest := MapAll(pixels[1..], rangeWidth, table).value;
      var text := MapAll(pixels, rangeWidth, table).value;
      assert text == table[Bucket(pixels[0], rangeWidth)] + rest;
      forall i | 1 <= i < |pixels|
        ensures text[i] == table[Bucket(pixels[i], rangeWidth)][0]
      {
        assert text[i] == rest[i - 1];
        assert pixels[1..][i - 1] == pixels[i];
      }
    }
  }

  /** A bucket width that covers all 256 intensities with `n` entries keeps
      every bucket inside the table. */
  lemma BucketInBounds(p: Byte, rangeWidth: int, n: int)
    requires rangeWidth >= 1 && rangeWidth * n >= 256
    ensures Bucket(p, rangeWidth) < n
  {
    var b := Bucket(p, rangeWidth);
    MulMonotone(if b >= n then n else b, b, rangeWidth);
  }

  /** Brighter pixels never land in an earlier bucket. */
  lemma BucketMonotone(p: Byte, q: Byte, rangeWidth: int)
    requires rangeWidth >= 1 && p <= q
    ensures Bucket(p, rangeWidth) <= Bucket(q, rangeWidth)
  {
    var bp, bq := Bucket(p, rangeWidth), Bucket(q, rangeWidth);
    MulMonotone(if bp > bq then bq + 1 else bp, bp, rangeWidth);
  }

  /** A resolved character set never makes the mapper fail: for a list of
      length L the range width is at least `ceil(256 / L)`, so the bucket of
      255 is at most L - 1. */
  lemma ResolvedNeverFails(pixels: seq<Byte>, c: Config)
    requires ValidConfig(c)
    ensures MapAll(pixels, c.rangeWidth, c.chars).Success?
  {
    forall i | 0 <= i < |pixels|
      ensures Bucket(pixels[i], c.rangeWidth) < |c.chars|
    {
      BucketInBounds(pixels[i], c.rangeWidth, |c.chars|);
    }
    MapSucceedsIff(pixels, c.rangeWidth, c.chars);
  }

  /** Set 1 maps intensity 0 to `#` and 255 to `@`; set 2 maps 250 to `@`;
      no table at all means set 1. */
  lemma BuiltInExamples()
    ensures MapPixels([0], 25, Some(CharSet1)) == Success("#")
    ensures MapPixels([255], 25, Some(CharSet1)) == Success("@")
    ensures MapPixels([250], 32, Some(CharSet2)) == Success("@")
    ensures MapPixels([0, 255], 25, None) == Success("#@")
  {
    assert MapAll([], 25, CharSet1) == Success("");
    assert MapAll([], 32, CharSet2) == Success("");
    assert MapAll([0], 25, CharSet1) == Success("#" + "");
    assert Bucket(255, 25) == 10;
    assert MapAll([255], 25, CharSet1) == Success("@" + "");
    assert Bucket(250, 32) == 7;
    assert MapAll([250], 32, CharSet2) == Success("@" + "");
    assert [0, 255][1..] == [255];
    assert "#" + "" == "#" && "@" + "" == "@";
    assert MapAll([0, 255], 25, CharSet1) == Success("#" + "@");
    assert "#" + "@" == "#@";
  }
}
