/**
 * The conversion request as the program runs it: the selector is resolved
 * step by step, the process-wide active character set is replaced, the
 * scaled grey image is converted with that set, and the save destination
 * is checked.
 */
module Generator {
  import opened Wrappers
  import opened Text
  import opened Decimal
  import opened Arith
  import opened CharSet
  import opened Mapping
  import opened Wrapping
  import opened Storing

  /** The width the image is scaled to and the text is wrapped at. */
  const DefaultWidth := 100

  /** The art that is printed and returned, and what becomes of the destination. */
  datatype Outcome = Outcome(art: string, save: SaveAction)

  /** The program's module-level state. */
  class Session {
    /** The active character set, unset until a selector has been resolved. */
    var asciiChars: Option<seq<string>>

    constructor ()
      ensures asciiChars == None
    {
      asciiChars := None;
    }

    /** Resolves `selector`, makes the resolved list the active set, converts
        the scaled grey pixels with it and decides the save action. A bad
        selector aborts before anything changes. */
    method HandleImage(selector: Option<string>, grey: seq<Byte>, store: Option<string>)
      returns (r: Result<Outcome, SelectorError>)
      modifies this
      ensures Resolve(selector).Failure? ==>
        r == Failure(Resolve(selector).error) && asciiChars == old(asciiChars)
      ensures Resolve(selector).Success? ==>
        var c := Resolve(selector).value;
        && asciiChars == Some(c.chars)
        && ConvertToAscii(grey, c.rangeWidth, DefaultWidth, asciiChars).Success?
        && r == Success(Outcome(ConvertToAscii(grey, c.rangeWidth, DefaultWidth, asciiChars).value, Save(store)))
    {
      var charSet: Selection;
      if selector.Some? && selector.value != "" {
        var s := selector.value;
        if s[0] == '[' && s[|s| - 1] == ']' {
          charSet := Custom(Split(s[1..|s| - 1], ','));
        } else {
          var n := ParseInt(s);
          if n.None? {
            return Failure(NotIntNorList);
          }
          charSet := Numbered(n.value);
        }
      } else {
        charSet := Numbered(1);
      }

      var rangeWidth: int;
      match charSet {
        case Custom(entries) =>
          asciiChars := Some(entries);
          rangeWidth := CeilDiv(256, |entries|);
        case Numbered(id) =>
          if id == 1 {
            asciiChars := Some(CharSet1);
            rangeWidth := 25;
          } else if id == 2 {
            asciiChars := Some(CharSet2);
            rangeWidth := 32;
          } else {
            return Failure(NoSuchCharSet(id));
          }
      }

      ConvertResolved(grey, Config(asciiChars.value, rangeWidth), DefaultWidth);
      var art := ConvertToAscii(grey, rangeWidth, DefaultWidth, asciiChars);
      r := Success(Outcome(art.value, Save(store)));
    }
  }
}
