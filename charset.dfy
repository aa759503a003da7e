/**
 * Character-set resolution: turns the optional command-line selector into
 * the list of symbols and the brightness range width used to bucket each
 * grey byte, or into the error the program raises.
 */
module CharSet {
  import opened Wrappers
  import opened Text
  import opened Decimal
  import opened Arith

  /** Built-in set 1, the default: 11 entries, bucket width 25. */
  const CharSet1: seq<string> := ["#", "?", "%", ".", "S", "+", ".", "*", ":", ",", "@"]

  /** Built-in set 2: 8 entries, bucket width 32. */
  const CharSet2: seq<string> := [" ", ".", "°", "*", "o", "O", "#", "@"]

  /** A resolved character set together with the width of each brightness bucket. */
  datatype Config = Config(chars: seq<string>, rangeWidth: int)

  /** What the selector names before it is checked: a custom list or a set number. */
  datatype Selection = Custom(entries: seq<string>) | Numbered(id: int)

  datatype SelectorError =
    | NotIntNorList       // the ValueError for text that is neither a list nor an integer
    | NoSuchCharSet(id: int) // an integer other than 1 or 2

  /** Every intensity 0..255 divided by the range width lands on an entry. */
  predicate ValidConfig(c: Config)
  {
    |c.chars| >= 1 && c.rangeWidth >= 1 && c.rangeWidth * |c.chars| >= 256
  }

  /** The selector text is a bracketed list such as `[a,b,c]`. */
  predicate IsBracketed(s: string)
  {
    |s| >= 1 && s[0] == '[' && s[|s| - 1] == ']'
  }

  /** The first step: the selector as a list or a set number. No selector,
      or an empty one, stands for set 1; a bracketed list is split on commas
      and is never empty. */
  function ParseSelector(selector: Option<string>): (r: Result<Selection, SelectorError>)
    ensures r.Success? && r.value.Custom? ==> |r.value.entries| >= 1
    ensures r.Failure? ==> r.error == NotIntNorList
  {
    if selector.None? || selector.value == "" then Success(Numbered(1))
    else
      var s := selector.value;
      if IsBracketed(s) then Success(Custom(Split(s[1..|s| - 1], ',')))
      else
        match ParseInt(s)
        case None => Failure(NotIntNorList)
        case Some(n) => Success(Numbered(n))
  }

  /** The decision table: a custom list gets range width `ceil(256 / len)`,
      set 1 gets 25, set 2 gets 32, any other number is an error. Whatever
      it resolves to buckets every byte onto an entry. */
  function Resolve(selector: Option<string>): (r: Result<Config, SelectorError>)
    ensures r.Success? ==> ValidConfig(r.value)
  {
    match ParseSelector(selector)
    case Failure(e) => Failure(e)
    case Success(Custom(entries)) => Success(Config(entries, CeilDiv(256, |entries|)))
    case Success(Numbered(id)) =>
      if id == 1 then Success(Config(CharSet1, 25))
      else if id == 2 then Success(Config(CharSet2, 32))
      else Failure(NoSuchCharSet(id))
  }

  /** No selector, or an empty one, resolves like the numeral `1`. */
  lemma ResolveDefault()
    ensures Resolve(None) == Success(Config(CharSet1, 25))
    ensures Resolve(Some("")) == Success(Config(CharSet1, 25))
    ensures Resolve(Some("1")) == Success(Config(CharSet1, 25))
  {
    ParseNumeral(1);
  }

  /** Each numeral: `1` and `2` pick the built-in sets, any other number is
      rejected with that number. */
  lemma ResolveNumeral(n: nat)
    ensures Resolve(Some(Numeral(n))) ==
      if n == 1 then Success(Config(CharSet1, 25))
      else if n == 2 then Success(Config(CharSet2, 32))
      else Failure(NoSuchCharSet(n))
    ensures n != 0 ==> Resolve(Some("-" + Numeral(n))) == Failure(NoSuchCharSet(-(n as int)))
  {
    ParseNumeral(n);
    assert !IsBracketed(Numeral(n));
    assert !IsBracketed("-" + Numeral(n));
  }

  /** Text that is not a bracketed list and does not parse as an integer is
      the ValueError, whatever it contains. */
  lemma ResolveNeither(s: string)
    requires s != "" && !IsBracketed(s) && ParseInt(s).None?
    ensures Resolve(Some(s)) == Failure(NotIntNorList)
  {
  }

  /** A bracketed list: its entries are the interior split on commas, joining
      them with commas gives back the interior, there is one entry more than
      there are commas, and the range width is `ceil(256 / entries)`. */
  lemma ResolveCustom(body: string)
    ensures var r := Resolve(Some("[" + body + "]"));
      && r.Success?
      && r.value.chars == Split(body, ',')
      && Join(r.value.chars, ',') == body
      && |r.value.chars| == multiset(body)[','] + 1
      && r.value.rangeWidth * |r.value.chars| >= 256
      && r.value.rangeWidth == CeilDiv(256, |r.value.chars|)
  {
    var s := "[" + body + "]";
    assert s[1..|s| - 1] == body;
    JoinSplit(body, ',');
    SplitCount(body, ',');
  }

  /** `"[a,b,c,d]"` gives four one-letter entries and range width 64. The
      interior is passed as a parameter fixed by the precondition so that the
      verifier does not unfold `Split` on a string literal, which it does not
      finish within the resource limit. */
  lemma ResolveFourLetters(body: string)
    requires body == "a,b,c,d"
    ensures Resolve(Some("[" + body + "]")) == Success(Config(["a", "b", "c", "d"], 64))
  {
    ResolveCustom(body);
    SplitFourLetters();
    var r := Resolve(Some("[" + body + "]"));
    assert r.value.chars == ["a", "b", "c", "d"];
    assert r.value.rangeWidth == CeilDiv(256, 4);
    assert CeilDiv(256, 4) == 64;
  }

  lemma SplitFourLetters()
    ensures Split("a,b,c,d", ',') == ["a", "b", "c", "d"]
  {
    var parts := ["a", "b", "c", "d"];
    assert Join(parts[3..], ',') == "d";
    assert Join(parts[2..], ',') == "c,d";
    assert Join(parts[1..], ',') == "b,c,d";
    assert Join(parts, ',') == "a,b,c,d";
  }

  /** `"[]"` gives one empty entry, so every byte maps to the empty string. */
  lemma ResolveEmptyList()
    ensures Resolve(Some("[]")) == Success(Config([""], 256))
  {
    var s := "[]";
    assert s[1..|s| - 1] == "";
  }

  /** `"abc"` is the ValueError; `"3"` names no set. */
  lemma ResolveRejects()
    ensures Resolve(Some("abc")) == Failure(NotIntNorList)
    ensures Resolve(Some("3")) == Failure(NoSuchCharSet(3))
  {
    ParseNumeral(3);
  }
}
