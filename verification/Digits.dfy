/** The digits of a text, as the checksum validators read them.  Which characters a regular expression
    takes for decimal digits, and their values, is a table of Unicode's and a parameter here.  */
module Digits {
  import opened Wrappers

  type Digit = d: nat | d < 10 witness 0

  /** The decimal value of a character, if it has one. */
  type Decimals = char -> Option<Digit>

  predicate IsDigit(c: char)
  {
    '0' <= c <= '9'
  }

  function ValueOf(c: char): Digit
    requires IsDigit(c)
  {
    (c - '0') as nat
  }

  lemma ValueOfInjective(c: char, d: char)
    requires IsDigit(c) && IsDigit(d) && c != d
    ensures ValueOf(c) != ValueOf(d)
  {
  }

  predicate AllDigits(dec: Decimals, kept: string)
  {
    forall i :: 0 <= i < |kept| ==> dec(kept[i]).Some?
  }

  /** Everything but the digits dropped. */
  function Kept(dec: Decimals, text: string): (kept: string)
    ensures AllDigits(dec, kept)
  {
    if text == "" then ""
    else
      var front, c := Kept(dec, text[..|text| - 1]), text[|text| - 1];
      if dec(c).Some? then front + [c] else front
  }

  function Values(dec: Decimals, kept: string): (r: seq<Digit>)
    requires AllDigits(dec, kept)
    ensures |r| == |kept| && forall i :: 0 <= i < |kept| ==> r[i] == dec(kept[i]).value
  {
    seq(|kept|, i requires 0 <= i < |kept| => dec(kept[i]).value)
  }

  function DigitsOf(dec: Decimals, text: string): (r: seq<Digit>)
  {
    Values(dec, Kept(dec, text))
  }

  lemma {:induction false} KeptConcat(dec: Decimals, s: string, t: string)
    ensures Kept(dec, s + t) == Kept(dec, s) + Kept(dec, t)
  {
    if t == "" {
      assert s + t == s;
    } else {
      assert (s + t)[..|s + t| - 1] == s + t[..|t| - 1];
      KeptConcat(dec, s, t[..|t| - 1]);
    }
  }

  /** A text with one digit between two parts. */
  lemma DigitsAround(dec: Decimals, before: string, c: char, after: string)
    requires dec(c).Some?
    ensures DigitsOf(dec, before + [c] + after) == DigitsOf(dec, before) + [dec(c).value] + DigitsOf(dec, after)
  {
    KeptConcat(dec, before + [c], after);
    KeptConcat(dec, before, [c]);
    assert [c][..0] == "";
    assert Kept(dec, [c]) == [c];
  }

  /** Two digits with nothing but separators between them are neighbours. */
  lemma DigitsAroundPair(dec: Decimals, before: string, c: char, gap: string, d: char, after: string)
    requires dec(c).Some? && dec(d).Some? && DigitsOf(dec, gap) == []
    ensures DigitsOf(dec, before + [c] + gap + [d] + after)
            == DigitsOf(dec, before) + [dec(c).value, dec(d).value] + DigitsOf(dec, after)
  {
    DigitsAround(dec, before + [c] + gap, d, after);
    DigitsAround(dec, before, c, gap);
    var front := DigitsOf(dec, before);
    assert front + [dec(c).value] + [] + [dec(d).value] == front + [dec(c).value, dec(d).value];
  }

  /** `re.sub(r"\D", "", value)`. */
  method KeepDigits(dec: Decimals, text: string) returns (kept: string)
    ensures kept == Kept(dec, text)
  {
    kept := "";
    for i := 0 to |text|
      invariant kept == Kept(dec, text[..i])
    {
      assert text[..i + 1][..i] == text[..i];
      if dec(text[i]).Some? { kept := kept + [text[i]]; }
    }
    assert text[..|text|] == text;
  }

  /** The digits that are left, read one by one. */
  method CollectDigits(dec: Decimals, text: string) returns (digits: seq<Digit>)
    ensures digits == DigitsOf(dec, text)
  {
    var kept := KeepDigits(dec, text);
    digits := [];
    for i := 0 to |kept|
      invariant |digits| == i && forall j :: 0 <= j < i ==> digits[j] == dec(kept[j]).value
    {
      digits := digits + [dec(kept[i]).value];
    }
  }
}
