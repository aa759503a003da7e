/**
 * String helpers with Python's meaning: `str.split` and `str.join` for a
 * one-character separator, and `"".join` (plain concatenation).
 */
module Text {

  /** Python's `s.split(sep)` for a single-character separator. It never
      returns an empty list: `"".split(",") == [""]`. */
  function Split(s: string, sep: char): (parts: seq<string>)
    ensures |parts| >= 1
    decreases |s|
  {
    if |s| == 0 then [""]
    else
      var rest := Split(s[1..], sep);
      if s[0] == sep then [""] + rest
      else [[s[0]] + rest[0]] + rest[1..]
  }

  /** There is one more part than there are separators. */
  lemma {:induction false} SplitCount(s: string, sep: char)
    ensures |Split(s, sep)| == multiset(s)[sep] + 1
  {
    if |s| > 0 {
      SplitCount(s[1..], sep);
      assert s == [s[0]] + s[1..];
    }
  }

  /** Python's `sep.join(parts)` for a single-character separator. Splitting
      a join of separator-free parts at the separator gives back the parts. */
  function Join(parts: seq<string>, sep: char): (s: string)
    ensures |parts| >= 1 && (forall i :: 0 <= i < |parts| ==> sep !in parts[i]) ==>
      Split(s, sep) == parts
  {
    if |parts| == 0 then ""
    else if |parts| == 1 then
      if sep in parts[0] then parts[0]
      else
        SplitPrefix(parts[0], "", sep);
        assert parts[0] + "" == parts[0];
        assert Split("", sep) == [""];
        parts[0]
    else
      var tail := Join(parts[1..], sep);
      assert forall i :: 1 <= i < |parts| ==> parts[i] == parts[1..][i - 1];
      SplitJoinStep(parts, tail, sep);
      parts[0] + [sep] + tail
  }

  /** One step of splitting a join: the first part, then the split of the rest. */
  lemma SplitJoinStep(parts: seq<string>, tail: string, sep: char)
    requires |parts| >= 2
    ensures sep !in parts[0] && Split(tail, sep) == parts[1..] ==>
      Split(parts[0] + [sep] + tail, sep) == parts
  {
    if sep in parts[0] || Split(tail, sep) != parts[1..] {
      return;
    }
    assert ([sep] + tail)[1..] == tail;
    assert parts[0] + [sep] + tail == parts[0] + ([sep] + tail);
    SplitPrefix(parts[0], [sep] + tail, sep);
    assert Split([sep] + tail, sep) == [""] + parts[1..];
    assert parts[0] + "" == parts[0];
    assert parts == [parts[0]] + parts[1..];
  }

  /** Python's `"".join(parts)`: a character occurs in the result exactly when
      it occurs in one of the parts. */
  function Concat(parts: seq<string>): (s: string)
    ensures forall c :: c in s <==> exists i :: 0 <= i < |parts| && c in parts[i]
  {
    if |parts| == 0 then ""
    else
      var rest := Concat(parts[1..]);
      assert forall i :: 1 <= i < |parts| ==> parts[i] == parts[1..][i - 1];
      parts[0] + rest
  }

  /** Joining the parts of a split with the same separator gives back the string. */
  lemma {:induction false} JoinSplit(s: string, sep: char)
    ensures Join(Split(s, sep), sep) == s
  {
    if |s| > 0 {
      var rest := Split(s[1..], sep);
      JoinSplit(s[1..], sep);
      if s[0] == sep {
        assert Split(s, sep) == [""] + rest;
        assert ([""] + rest)[1..] == rest;
      } else if |rest| == 1 {
        assert Split(s, sep) == [[s[0]] + rest[0]];
      } else {
        assert Split(s, sep) == [[s[0]] + rest[0]] + rest[1..];
        assert ([[s[0]] + rest[0]] + rest[1..])[1..] == rest[1..];
      }
    }
  }

  /** No part produced by a split contains the separator. */
  lemma {:induction false} SplitPartsFree(s: string, sep: char)
    ensures forall i :: 0 <= i < |Split(s, sep)| ==> sep !in Split(s, sep)[i]
  {
    if |s| > 0 {
      SplitPartsFree(s[1..], sep);
    }
  }

  /** Splitting `a + b` where `a` holds no separator glues `a` onto the first
      part of the split of `b`. */
  lemma {:induction false} SplitPrefix(a: string, b: string, sep: char)
    requires sep !in a
    ensures Split(a + b, sep) == [a + Split(b, sep)[0]] + Split(b, sep)[1..]
  {
    var sb := Split(b, sep);
    if |a| == 0 {
      assert a + b == b;
      assert a + sb[0] == sb[0];
      assert sb == [sb[0]] + sb[1..];
    } else {
      SplitPrefix(a[1..], b, sep);
      var rest := Split(a[1..] + b, sep);
      assert rest[0] == a[1..] + sb[0] && rest[1..] == sb[1..];
      assert a + b == [a[0]] + (a[1..] + b);
      SplitCons(a[0], a[1..] + b, sep);
      assert Split(a + b, sep) == [[a[0]] + rest[0]] + rest[1..];
      assert [a[0]] + (a[1..] + sb[0]) == a + sb[0];
    }
  }

  /** One step of a split, for a first character that is not the separator. */
  lemma SplitCons(x: char, t: string, sep: char)
    requires x != sep
    ensures Split([x] + t, sep) == [[x] + Split(t, sep)[0]] + Split(t, sep)[1..]
  {
    assert ([x] + t)[1..] == t;
  }
}
