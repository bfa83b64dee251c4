/** A distance with units, parsed from text such as "12.5 mm". The number
    at the front is read by the locale's `NumberFormat`, which this model
    does not spell out: `Parse` is given the value it read and how many
    characters it consumed. */
module Dimensions {
  import opened Wrappers
  import opened Strings

  /** An immutable distance and its units. */
  datatype Dimension = Dimension(distance: real, units: string)

  /** The text could not be read as a dimension. */
  datatype InvalidDimensionString = InvalidDimensionString(s: string)

  /** `parse`: a number must have been read at the front (`consumed > 0`),
      and the rest of the text, trimmed, is the units, which must not be
      empty. */
  function Parse(s: string, number: real, consumed: nat): (r: Result<Dimension, InvalidDimensionString>)
    requires consumed <= |s|
    ensures r.Success? <==> consumed > 0 && Trim(s[consumed..]) != ""
    ensures r.Success? ==> r.value.distance == number && r.value.units == Trim(s[consumed..])
    ensures r.Failure? ==> r.error.s == s
  {
    if consumed > 0 then
      var units := Trim(s[consumed..]);
      if |units| > 0 then Success(Dimension(number, units)) else Failure(InvalidDimensionString(s))
    else Failure(InvalidDimensionString(s))
  }

  /** Parsed units never start or end with blanks, and they are a piece of
      the text after the number with only blanks around them. */
  lemma ParsedUnitsTrimmed(s: string, number: real, consumed: nat)
    requires consumed <= |s| && Parse(s, number, consumed).Success?
    ensures var u := Parse(s, number, consumed).value.units;
      && |u| > 0 && !IsTrimmed(u[0]) && !IsTrimmed(u[|u| - 1])
      && exists i :: CoreAt(s[consumed..], u, i)
  {
  }

  /** Trimming text that is blanks around a core which neither starts nor
      ends with a blank gives the core. */
  lemma {:induction false} TrimAround(pre: string, core: string, post: string)
    requires |core| > 0 && !IsTrimmed(core[0]) && !IsTrimmed(core[|core| - 1])
    requires forall k :: 0 <= k < |pre| ==> IsTrimmed(pre[k])
    requires forall k :: 0 <= k < |post| ==> IsTrimmed(post[k])
    ensures Trim(pre + core + post) == core
  {
    var rest := core + post;
    var s := pre + rest;
    assert pre + core + post == s;
    var a := TrimStart(s);
    assert !IsTrimmed(s[|pre|]);
    assert |a| == |rest|;
    assert a == rest;
    var r := TrimEnd(a);
    assert !IsTrimmed(a[|core| - 1]);
    assert |r| == |core|;
    assert r == core;
  }

  /** A number followed by blanks and units (not starting or ending with a
      blank) parses to that number and those units. */
  lemma ParseNumberThenUnits(numberText: string, blanks: string, units: string, number: real)
    requires |numberText| > 0 && |units| > 0
    requires forall k :: 0 <= k < |blanks| ==> IsTrimmed(blanks[k])
    requires !IsTrimmed(units[0]) && !IsTrimmed(units[|units| - 1])
    ensures Parse(numberText + blanks + units, number, |numberText|) == Success(Dimension(number, units))
  {
    var s := numberText + blanks + units;
    assert s[|numberText|..] == blanks + units + "";
    TrimAround(blanks, units, "");
  }
}
