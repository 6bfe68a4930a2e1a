/** The IBAN check (ISO 13616-1, by the MOD 97-10 system of ISO/IEC 7064): the first four characters go
    to the end, letters become two digits each, and the resulting number must leave 1 modulo 97. */
module Iban {
  import opened Digits

  /** A character of a compact IBAN: 0..9 for a digit, 10..35 for a letter of either case. */
  type Symbol = s: nat | s < 36 witness 0

  predicate IsLetter(c: char)
  {
    'A' <= c <= 'Z' || 'a' <= c <= 'z'
  }

  function SymbolOf(c: char): Symbol
    requires IsDigit(c) || IsLetter(c)
  {
    if IsDigit(c) then ValueOf(c)
    else if c <= 'Z' then (c - 'A') as nat + 10
    else (c - 'a') as nat + 10
  }

  /** Only ASCII letters and digits, in upper case. */
  function Compact(text: string): seq<Symbol>
  {
    if text == "" then []
    else
      var front, c := Compact(text[..|text| - 1]), text[|text| - 1];
      if IsDigit(c) || IsLetter(c) then front + [SymbolOf(c)] else front
  }

  /** A letter is written as its two-digit value. */
  function Spelled(s: Symbol): seq<Digit>
  {
    if s < 10 then [s] else [s / 10, s % 10]
  }

  function Decimal(symbols: seq<Symbol>): seq<Digit>
  {
    if symbols == [] then [] else Decimal(symbols[..|symbols| - 1]) + Spelled(symbols[|symbols| - 1])
  }

  function Number(digits: seq<Digit>): int
  {
    if digits == [] then 0 else Number(digits[..|digits| - 1]) * 10 + digits[|digits| - 1]
  }

  /** The first four symbols go to the end. */
  function Rearranged(compact: seq<Symbol>): seq<Symbol>
    requires |compact| >= 4
  {
    compact[4..] + compact[..4]
  }

  predicate IsIban(compact: seq<Symbol>)
  {
    15 <= |compact| <= 34 && Number(Decimal(Rearranged(compact))) % 97 == 1
  }

  predicate IbanValid(value: string)
  {
    IsIban(Compact(value))
  }

  // ------------------------------------------------------------- place values

  function Pow10(n: nat): nat
  {
    if n == 0 then 1 else 10 * Pow10(n - 1)
  }

  /** x with w zeros written after it. */
  function Shift(x: int, w: nat): int
  {
    if w == 0 then x else 10 * Shift(x, w - 1)
  }

  lemma {:induction false} ShiftIsTimes(x: int, w: nat)
    ensures Shift(x, w) == x * Pow10(w)
  {
    if w > 0 {
      ShiftIsTimes(x, w - 1);
      assert x * (10 * Pow10(w - 1)) == 10 * (x * Pow10(w - 1));
    }
  }

  lemma {:induction false} ShiftAdds(x: int, y: int, w: nat)
    ensures Shift(x + y, w) == Shift(x, w) + Shift(y, w)
  {
    if w > 0 { ShiftAdds(x, y, w - 1); }
  }

  lemma {:induction false} ShiftDiffers(left: int, a: int, b: int, w: nat)
    ensures Shift(left + a, w) - Shift(left + b, w) == Shift(a - b, w)
  {
    if w > 0 { ShiftDiffers(left, a, b, w - 1); }
  }

  lemma {:induction false} NumberConcat(u: seq<Digit>, v: seq<Digit>)
    ensures Number(u + v) == Shift(Number(u), |v|) + Number(v)
  {
    if v == [] {
      assert u + v == u;
    } else {
      var front := v[..|v| - 1];
      assert (u + v)[..|u + v| - 1] == u + front;
      NumberConcat(u, front);
    }
  }

  lemma {:induction false} DecimalConcat(u: seq<Symbol>, v: seq<Symbol>)
    ensures Decimal(u + v) == Decimal(u) + Decimal(v)
  {
    if v == [] {
      assert u + v == u;
    } else {
      assert (u + v)[..|u + v| - 1] == u + v[..|v| - 1];
      DecimalConcat(u, v[..|v| - 1]);
    }
  }

  lemma {:induction false} CompactConcat(s: string, t: string)
    ensures Compact(s + t) == Compact(s) + Compact(t)
  {
    if t == "" {
      assert s + t == s;
    } else {
      assert (s + t)[..|s + t| - 1] == s + t[..|t| - 1];
      CompactConcat(s, t[..|t| - 1]);
    }
  }

  lemma {:induction false} NumberAround(x: seq<Digit>, y: seq<Digit>, z: seq<Digit>)
    ensures Number(x + y + z) == Shift(Shift(Number(x), |y|) + Number(y), |z|) + Number(z)
  {
    NumberConcat(x + y, z);
    NumberConcat(x, y);
  }

  /** Replacing the middle part by one of the same length. */
  lemma {:induction false} MiddleCounts(x: seq<Digit>, y: seq<Digit>, y': seq<Digit>, z: seq<Digit>)
    requires |y| == |y'|
    ensures Number(x + y + z) - Number(x + y' + z) == Shift(Number(y) - Number(y'), |z|)
  {
    NumberAround(x, y, z);
    NumberAround(x, y', z);
    ShiftDiffers(Shift(Number(x), |y|), Number(y), Number(y'), |z|);
  }

  // -------------------------------------------------------- modulo ninety-seven

  lemma TenCancels(x: int)
    requires (10 * x) % 97 == 0
    ensures x % 97 == 0
  {
  }

  lemma {:induction false} ShiftCancels(x: int, w: nat)
    requires Shift(x, w) % 97 == 0
    ensures x % 97 == 0
  {
    if w > 0 {
      TenCancels(Shift(x, w - 1));
      ShiftCancels(x, w - 1);
    }
  }

  lemma SameResidue(x: int, y: int)
    requires x % 97 == y % 97
    ensures (x - y) % 97 == 0
  {
  }

  /** Two middle parts of one length whose values differ by less than 97 give different residues. */
  lemma {:induction false} MiddleDetected(x: seq<Digit>, y: seq<Digit>, y': seq<Digit>, z: seq<Digit>)
    requires |y| == |y'| && Number(y) != Number(y') && -97 < Number(y) - Number(y') < 97
    ensures Number(x + y + z) % 97 != Number(x + y' + z) % 97
  {
    if Number(x + y + z) % 97 == Number(x + y' + z) % 97 {
      SameResidue(Number(x + y + z), Number(x + y' + z));
      MiddleCounts(x, y, y', z);
      ShiftCancels(Number(y) - Number(y'), |z|);
      assert false;
    }
  }

  /** Small steps: ten to the r modulo 97. */
  const SMALL: seq<nat> := [1, 10, 3, 30, 9, 90, 27, 76]

  /** Large steps: ten to the 8q modulo 97. */
  const LARGE: seq<nat> := [1, 81, 62, 75, 61, 91, 96, 16, 35]

  lemma MulResidue(x: int, y: int, r: int)
    requires x % 97 == r
    ensures (x * y) % 97 == (r * y) % 97
  {
    var k := x / 97;
    assert x * y == 97 * (k * y) + r * y;
  }

  lemma ProductResidue(x: int, y: int, r: int, t: int)
    requires x % 97 == r && y % 97 == t
    ensures (x * y) % 97 == (r * t) % 97
  {
    MulResidue(x, y, r);
    MulResidue(y, r, t);
  }

  lemma {:induction false} SmallPower(r: nat)
    requires r < 8
    ensures Pow10(r) % 97 == SMALL[r]
  {
    if r > 0 {
      SmallPower(r - 1);
      MulResidue(Pow10(r - 1), 10, SMALL[r - 1]);
      SmallStep(r);
      assert Pow10(r) == Pow10(r - 1) * 10;
    }
  }

  lemma SmallStep(r: nat)
    requires 0 < r < 8
    ensures (SMALL[r - 1] * 10) % 97 == SMALL[r]
  {
  }

  lemma {:induction false} PowerSum(m: nat, n: nat)
    ensures Pow10(m + n) == Pow10(m) * Pow10(n)
  {
    if n > 0 {
      PowerSum(m, n - 1);
      assert Pow10(m) * (10 * Pow10(n - 1)) == 10 * (Pow10(m) * Pow10(n - 1));
    }
  }

  lemma EightPlaces()
    ensures Pow10(8) % 97 == 81
  {
  }

  lemma LargeStep(q: nat)
    requires 0 < q < 9
    ensures (LARGE[q - 1] * 81) % 97 == LARGE[q]
  {
  }

  lemma {:induction false} LargePower(q: nat)
    requires q < 9
    ensures Pow10(8 * q) % 97 == LARGE[q]
  {
    if q > 0 {
      LargePower(q - 1);
      EightPlaces();
      PowerSum(8 * (q - 1), 8);
      ProductResidue(Pow10(8 * (q - 1)), Pow10(8), LARGE[q - 1], 81);
      LargeStep(q);
    }
  }

  lemma GridAvoidsOne(q: nat, r: nat)
    requires q < 9 && r < 8 && q + r > 0
    ensures (LARGE[q] * SMALL[r]) % 97 != 1
  {
  }

  /** Ten to the j is never 1 modulo 97 below the order of ten, which no IBAN reaches. */
  lemma PowerIsNotOne(j: nat)
    requires 1 <= j < 72
    ensures Pow10(j) % 97 != 1
  {
    var q, r := j / 8, j % 8;
    PowerSum(8 * q, r);
    LargePower(q);
    SmallPower(r);
    ProductResidue(Pow10(8 * q), Pow10(r), LARGE[q], SMALL[r]);
    GridAvoidsOne(q, r);
  }

  /** The inverse of a small number modulo 97. */
  lemma Inverse(e: int) returns (i: int, m: int)
    requires 1 <= e < 10
    ensures i * e == 97 * m + 1
  {
    i := [1, 49, 65, 73, 39, 81, 14, 85, 54][e - 1];
    m := [0, 1, 2, 3, 2, 5, 1, 7, 5][e - 1];
  }

  lemma Cancelled(i: int, e: int, m: int, t: int, k: int) returns (q: int)
    requires i * e == 97 * m + 1 && e * t == 97 * k
    ensures t == 97 * q
  {
    q := i * k - m * t;
    assert i * (e * t) == (i * e) * t;
    assert i * (97 * k) == 97 * (i * k);
    assert (97 * m + 1) * t == 97 * (m * t) + t;
  }

  /** Ninety-seven is prime; a factor below ten is all that is needed of it. */
  lemma SmallFactor(e: int, t: int, k: int)
    requires 1 <= e < 10 && e * t == 97 * k
    ensures t % 97 == 0
  {
    var i, m := Inverse(e);
    var q := Cancelled(i, e, m, t, k);
  }

  /** Exchanging the two ends of a digit sequence shorter than the order of ten. */
  lemma {:induction false} EndsDetected(p: Digit, m: seq<Digit>, q: Digit)
    requires p < q && |m| < 71
    ensures Number([p] + m + [q]) % 97 != Number([q] + m + [p]) % 97
  {
    EndsDiffer(p, m, q);
    PowerIsNotOne(|m| + 1);
    OneLess(Pow10(|m| + 1));
    FactorApart(Number([q] + m + [p]), Number([p] + m + [q]), q - p, Pow10(|m| + 1) - 1);
  }

  lemma OneLess(x: int)
    requires x % 97 != 1
    ensures (x - 1) % 97 != 0
  {
  }

  lemma FactorApart(x: int, y: int, e: int, t: int)
    requires x - y == e * t && 1 <= e < 10 && t % 97 != 0
    ensures x % 97 != y % 97
  {
    if x % 97 == y % 97 {
      SameResidue(x, y);
      SmallFactor(e, t, (x - y) / 97);
      assert false;
    }
  }

  lemma {:induction false} EndsDiffer(p: Digit, m: seq<Digit>, q: Digit)
    ensures Number([q] + m + [p]) - Number([p] + m + [q]) == (q - p) * (Pow10(|m| + 1) - 1)
  {
    var j := |m| + 1;
    var a, b := Shift(p, j), Shift(q, j);
    EndsValue(p, m, q);
    EndsValue(q, m, p);
    ShiftIsTimes(p, j);
    ShiftIsTimes(q, j);
    TimesOneLess(q, p, Pow10(j));
  }

  lemma TimesOneLess(q: int, p: int, t: int)
    ensures q * t + p - (p * t + q) == (q - p) * (t - 1)
  {
  }

  lemma {:induction false} EndsValue(p: Digit, m: seq<Digit>, q: Digit)
    ensures Number([p] + m + [q]) == Shift(p, |m| + 1) + 10 * Number(m) + q
  {
    NumberConcat([p] + m, [q]);
    NumberConcat([p], m);
    assert [p][..0] == [] && [q][..0] == [];
    var x := Shift(p, |m|) + Number(m);
    assert Number([p] + m) == x;
    assert Shift(x, 1) == 10 * x;
  }

  // --------------------------------------------------------- what is detected

  predicate SameKind(a: Symbol, b: Symbol)
  {
    a < 10 <==> b < 10
  }

  lemma SpelledValue(a: Symbol)
    ensures Decimal([a]) == Spelled(a) && Number(Spelled(a)) == a
  {
    assert [a][..0] == [] && Decimal([]) + Spelled(a) == Spelled(a);
    if a < 10 {
      OneDigitNumber(a);
    } else {
      OneDigitNumber(a / 10);
      NumberConcat([a / 10], [a % 10]);
      OneDigitNumber(a % 10);
    }
  }

  lemma OneDigitNumber(d: Digit)
    ensures Number([d]) == d
  {
  }

  lemma {:induction false} DecimalAround(x: seq<Symbol>, w: seq<Symbol>, z: seq<Symbol>)
    ensures Decimal(x + w + z) == Decimal(x) + Decimal(w) + Decimal(z)
  {
    DecimalConcat(x + w, z);
    DecimalConcat(x, w);
  }

  lemma {:induction false} DecimalLength(s: seq<Symbol>)
    ensures |Decimal(s)| <= 2 * |s|
  {
    if s != [] { DecimalLength(s[..|s| - 1]); }
  }

  /** Where a part that does not straddle the fourth place ends up. */
  lemma {:induction false} RearrangedAround(u: seq<Symbol>, w: seq<Symbol>, v: seq<Symbol>)
    returns (x: seq<Symbol>, z: seq<Symbol>)
    requires |u| >= 4 || |u| + |w| <= 4 <= |u| + |w| + |v|
    ensures forall y: seq<Symbol> :: |y| == |w| ==> Rearranged(u + y + v) == x + y + z
  {
    if |u| >= 4 {
      x, z := u[4..], v + u[..4];
    } else {
      var k := 4 - |u| - |w|;
      x, z := v[k..] + u, v[..k];
    }
    forall y: seq<Symbol> | |y| == |w| ensures Rearranged(u + y + v) == x + y + z {
      if |u| >= 4 {
        assert (u + y + v)[..4] == u[..4] && (u + y + v)[4..] == u[4..] + y + v;
      } else {
        var k := 4 - |u| - |w|;
        assert (u + y + v)[..4] == u + y + v[..k] && (u + y + v)[4..] == v[k..];
      }
    }
  }

  /** A part replaced by one whose spelling has the same length and a value less than 97 away. */
  lemma {:induction false} PartDetected(u: seq<Symbol>, w: seq<Symbol>, w': seq<Symbol>, v: seq<Symbol>)
    requires |w| == |w'| && (|u| >= 4 || |u| + |w| <= 4) && IsIban(u + w + v)
    requires |Decimal(w)| == |Decimal(w')| && Number(Decimal(w)) != Number(Decimal(w'))
    requires -97 < Number(Decimal(w)) - Number(Decimal(w')) < 97
    ensures !IsIban(u + w' + v)
  {
    var x, z := RearrangedAround(u, w, v);
    DecimalAround(x, w, z);
    DecimalAround(x, w', z);
    MiddleDetected(Decimal(x), Decimal(w), Decimal(w'), Decimal(z));
  }

  /** One digit for another, or one letter for another, anywhere. */
  lemma {:induction false} OneSymbolDetected(u: seq<Symbol>, a: Symbol, b: Symbol, v: seq<Symbol>)
    requires a != b && SameKind(a, b) && IsIban(u + [a] + v)
    ensures !IsIban(u + [b] + v)
  {
    SpelledValue(a);
    SpelledValue(b);
    PartDetected(u, [a], [b], v);
  }

  lemma PairValue(a: Symbol, b: Symbol)
    requires a < 10 && b < 10
    ensures Decimal([a, b]) == [a, b] && Number([a, b]) == 10 * a + b
  {
    assert [a, b] == [a] + [b];
    DecimalConcat([a], [b]);
    SpelledValue(a);
    SpelledValue(b);
    var pair: seq<Digit> := [a, b];
    assert pair[..1] == [a];
  }

  /** Two distinct neighbouring digits swapped, also where the first four characters end. */
  lemma {:induction false} SwapDetected(u: seq<Symbol>, a: Symbol, b: Symbol, v: seq<Symbol>)
    requires a < 10 && b < 10 && a != b && IsIban(u + [a, b] + v)
    ensures !IsIban(u + [b, a] + v)
  {
    if |u| == 3 {
      StraddlingSwap(u, a, b, v);
    } else {
      PairValue(a, b);
      PairValue(b, a);
      PartDetected(u, [a, b], [b, a], v);
    }
  }

  lemma {:induction false} StraddlingSwap(u: seq<Symbol>, a: Symbol, b: Symbol, v: seq<Symbol>)
    requires a < 10 && b < 10 && a != b && |u| == 3 && IsIban(u + [a, b] + v)
    ensures !IsIban(u + [b, a] + v)
  {
    var m := Decimal(v + u);
    StraddlingValue(u, a, b, v);
    StraddlingValue(u, b, a, v);
    DecimalLength(v + u);
    if a < b { EndsDetected(a, m, b); } else { EndsDetected(b, m, a); }
  }

  lemma {:induction false} StraddlingValue(u: seq<Symbol>, a: Symbol, b: Symbol, v: seq<Symbol>)
    requires a < 10 && b < 10 && |u| == 3
    ensures Decimal(Rearranged(u + [a, b] + v)) == [b] + Decimal(v + u) + [a]
  {
    var s := u + [a, b] + v;
    assert s[..4] == u + [a] && s[4..] == [b] + v;
    assert Rearranged(s) == [b] + (v + u) + [a];
    DecimalAround([b], v + u, [a]);
    SpelledValue(a);
    SpelledValue(b);
  }

  lemma CompactAround(before: string, c: char, after: string)
    requires IsDigit(c) || IsLetter(c)
    ensures Compact(before + [c] + after) == Compact(before) + [SymbolOf(c)] + Compact(after)
  {
    CompactConcat(before + [c], after);
    CompactConcat(before, [c]);
    assert [c][..0] == "";
  }

  /** A valid IBAN fails once a digit is replaced by another digit, or a letter by another letter. */
  lemma MistypedIbanFails(before: string, c: char, d: char, after: string)
    requires (IsDigit(c) && IsDigit(d)) || (IsLetter(c) && IsLetter(d))
    requires SymbolOf(c) != SymbolOf(d) && IbanValid(before + [c] + after)
    ensures !IbanValid(before + [d] + after)
  {
    CompactAround(before, c, after);
    CompactAround(before, d, after);
    OneSymbolDetected(Compact(before), SymbolOf(c), SymbolOf(d), Compact(after));
  }

  /** A valid IBAN fails once two distinct neighbouring digits are swapped, separators or not. */
  lemma SwappedIbanFails(before: string, c: char, gap: string, d: char, after: string)
    requires IsDigit(c) && IsDigit(d) && c != d && Compact(gap) == []
    requires IbanValid(before + [c] + gap + [d] + after)
    ensures !IbanValid(before + [d] + gap + [c] + after)
  {
    CompactPair(before, c, gap, d, after);
    CompactPair(before, d, gap, c, after);
    ValueOfInjective(c, d);
    SwapDetected(Compact(before), SymbolOf(c), SymbolOf(d), Compact(after));
  }

  lemma CompactPair(before: string, c: char, gap: string, d: char, after: string)
    requires IsDigit(c) && IsDigit(d) && Compact(gap) == []
    ensures Compact(before + [c] + gap + [d] + after) == Compact(before) + [SymbolOf(c), SymbolOf(d)] + Compact(after)
  {
    CompactAround(before + [c] + gap, d, after);
    CompactAround(before, c, gap);
    assert Compact(before) + [SymbolOf(c)] + [] + [SymbolOf(d)] == Compact(before) + [SymbolOf(c), SymbolOf(d)];
  }

  /** The same letter in the other case. */
  predicate SameLetter(c: char, d: char)
  {
    c == d || ('A' <= c <= 'Z' && 'a' <= d <= 'z' && c - 'A' == d - 'a')
  }

  /** Upper and lower case make no difference. */
  lemma {:induction false} CaseIsIgnored(upper: string, text: string)
    requires |upper| == |text| && forall i :: 0 <= i < |text| ==> SameLetter(upper[i], text[i])
    ensures Compact(upper) == Compact(text) && (IbanValid(upper) <==> IbanValid(text))
  {
    if text != "" { CaseIsIgnored(upper[..|upper| - 1], text[..|text| - 1]); }
  }

  // ---------------------------------------------------------- the check digits

  /** The number that the check digits are taken from: two zeros in their place. */
  function Unchecked(country: seq<Symbol>, account: seq<Symbol>): int
  {
    Number(Decimal(account + country) + [0, 0])
  }

  lemma CheckedNumber(country: seq<Symbol>, a: Digit, b: Digit, account: seq<Symbol>)
    requires |country| == 2
    ensures Number(Decimal(Rearranged(country + [a, b] + account))) == Unchecked(country, account) + 10 * a + b
  {
    var check: seq<Symbol>, whole := [a, b], country + [a, b] + account;
    assert whole[4..] == account && whole[..4] == country + check;
    assert Rearranged(whole) == account + country + check;
    DecimalConcat(account + country, check);
    TwoDigits(a, b);
    TwoMore(Decimal(account + country), a, b);
    TwoMore(Decimal(account + country), 0, 0);
  }

  /** Of the numbers from 2 to 98, exactly 98 less the remainder makes the IBAN valid. */
  lemma CheckDigitsDecide(country: seq<Symbol>, c: nat, account: seq<Symbol>)
    requires |country| == 2 && 11 <= |account| <= 30 && 2 <= c <= 98
    ensures IsIban(country + [c / 10, c % 10] + account) <==> c == 98 - Unchecked(country, account) % 97
  {
    CheckedNumber(country, c / 10, c % 10, account);
    RemainderOne(Unchecked(country, account), c);
  }

  lemma TwoDigits(a: Digit, b: Digit)
    ensures Decimal([a, b]) == [a, b]
  {
    assert [a, b] == [a] + [b];
    DecimalConcat([a], [b]);
    SpelledValue(a);
    SpelledValue(b);
  }

  lemma TwoMore(front: seq<Digit>, a: Digit, b: Digit)
    ensures Number(front + [a, b]) == 100 * Number(front) + 10 * a + b
  {
    assert (front + [a, b])[..|front| + 1] == front + [a] && (front + [a])[..|front|] == front;
  }

  lemma RemainderOne(n: int, c: nat)
    requires 2 <= c <= 98
    ensures (n + c) % 97 == 1 <==> c == 98 - n % 97
  {
  }

  /** The number spelled by some symbols. */
  function Spells(symbols: seq<Symbol>): int
  {
    Number(Decimal(symbols))
  }

  lemma SpellsMore(front: seq<Symbol>, s: Symbol)
    ensures Spells(front + [s]) == (if s < 10 then 10 else 100) * Spells(front) + s
  {
    assert (front + [s])[..|front|] == front;
    if s < 10 {
      assert (Decimal(front) + [s])[..|Decimal(front)|] == Decimal(front);
    } else {
      TwoMore(Decimal(front), s / 10, s % 10);
    }
  }

  lemma PairMore(front: seq<Symbol>, a: Symbol, b: Symbol)
    requires SameKind(a, b)
    ensures Spells(front + [a, b]) ==
        if a < 10 then 100 * Spells(front) + 10 * a + b else 10000 * Spells(front) + 100 * a + b
  {
    SpellsMore(front, a);
    SpellsMore(front + [a], b);
    assert front + [a] + [b] == front + [a, b];
  }

  lemma FourDigits(front: seq<Symbol>, a: Digit, b: Digit, c: Digit, d: Digit)
    ensures Spells(front + [a, b, c, d]) == 10000 * Spells(front) + 1000 * a + 100 * b + 10 * c + d
  {
    PairMore(front, a, b);
    PairMore(front + [a, b], c, d);
    assert front + [a, b] + [c, d] == front + [a, b, c, d];
  }

  /** WEST 1234 5698 7654 32. */
  function KnownAccount(): seq<Symbol>
  {
    [32, 14, 28, 29] + [1, 2, 3, 4] + [5, 6, 9, 8] + [7, 6, 5, 4] + [3, 2]
  }

  lemma KnownNumber()
    ensures Unchecked([16, 11], KnownAccount()) == 3214282912345698765432161100
  {
    var west: seq<Symbol> := [32, 14, 28, 29];
    var none: seq<Symbol> := [];
    PairMore(none, 32, 14);
    PairMore(none + [32, 14], 28, 29);
    assert none + [32, 14] + [28, 29] == west;
    FourDigits(west, 1, 2, 3, 4);
    FourDigits(west + [1, 2, 3, 4], 5, 6, 9, 8);
    FourDigits(west + [1, 2, 3, 4] + [5, 6, 9, 8], 7, 6, 5, 4);
    PairMore(west + [1, 2, 3, 4] + [5, 6, 9, 8] + [7, 6, 5, 4], 3, 2);
    PairMore(KnownAccount(), 16, 11);
    TwoMore(Decimal(KnownAccount() + [16, 11]), 0, 0);
  }

  /** Four letters or digits and a blank. */
  lemma CompactGroup(a: char, b: char, c: char, d: char)
    requires (IsDigit(a) || IsLetter(a)) && (IsDigit(b) || IsLetter(b))
    requires (IsDigit(c) || IsLetter(c)) && (IsDigit(d) || IsLetter(d))
    ensures Compact([a, b, c, d, ' ']) == [SymbolOf(a), SymbolOf(b), SymbolOf(c), SymbolOf(d)]
  {
    CompactConcat([a] + [b] + [c] + [d], [' ']);
    CompactConcat([a] + [b] + [c], [d]);
    CompactConcat([a] + [b], [c]);
    CompactConcat([a], [b]);
    CompactOne(a);
    CompactOne(b);
    CompactOne(c);
    CompactOne(d);
    assert [' '][..0] == [] && Compact([' ']) == [];
    assert [a] + [b] + [c] + [d] + [' '] == [a, b, c, d, ' '];
  }

  lemma CompactOne(c: char)
    requires IsDigit(c) || IsLetter(c)
    ensures Compact([c]) == [SymbolOf(c)]
  {
    assert [c][..0] == [];
  }

  lemma CompactSix(a: string, b: string, c: string, d: string, e: string, f: string)
    ensures Compact(a + b + c + d + e + f) ==
        Compact(a) + Compact(b) + Compact(c) + Compact(d) + Compact(e) + Compact(f)
  {
    CompactConcat(a + b + c + d + e, f);
    CompactConcat(a + b + c + d, e);
    CompactConcat(a + b + c, d);
    CompactConcat(a + b, c);
    CompactConcat(a, b);
  }

  lemma KnownGroups()
    ensures Compact("GB82 ") == [16, 11, 8, 2] && Compact("GB28 ") == [16, 11, 2, 8]
    ensures Compact("WEST ") == [32, 14, 28, 29] && Compact("1234 ") == [1, 2, 3, 4]
    ensures Compact("5698 ") == [5, 6, 9, 8] && Compact("7654 ") == [7, 6, 5, 4] && Compact("32") == [3, 2]
  {
    CompactGroup('G', 'B', '8', '2');
    CompactGroup('G', 'B', '2', '8');
    CompactGroup('W', 'E', 'S', 'T');
    CompactGroup('1', '2', '3', '4');
    CompactGroup('5', '6', '9', '8');
    CompactGroup('7', '6', '5', '4');
    CompactConcat("3", "2");
    CompactOne('3');
    CompactOne('2');
    assert "3" + "2" == "32";
  }

  lemma KnownText(start: string, a: Symbol, b: Symbol)
    requires Compact(start) == [16, 11, a, b]
    ensures Compact(KnownIbanText(start)) == [16, 11] + [a, b] + KnownAccount()
  {
    KnownGroups();
    CompactSix(start, "WEST ", "1234 ", "5698 ", "7654 ", "32");
    Regrouped([16, 11, a, b], [32, 14, 28, 29], [1, 2, 3, 4], [5, 6, 9, 8], [7, 6, 5, 4], [3, 2]);
    assert [16, 11, a, b] == [16, 11] + [a, b];
  }

  lemma Regrouped(a: seq<Symbol>, b: seq<Symbol>, c: seq<Symbol>, d: seq<Symbol>, e: seq<Symbol>, f: seq<Symbol>)
    ensures a + b + c + d + e + f == a + (b + c + d + e + f)
  {
  }

  lemma KnownDecided(text: string, c: nat)
    requires 2 <= c <= 98 && Compact(text) == [16, 11] + [c / 10, c % 10] + KnownAccount()
    ensures IbanValid(text) <==> c == 82
  {
    KnownNumber();
    CheckDigitsDecide([16, 11], c, KnownAccount());
  }

  function KnownIbanText(start: string): string
  {
    start + "WEST " + "1234 " + "5698 " + "7654 " + "32"
  }

  /** The IBAN of the tests is valid, and is not with its check digits exchanged. */
  lemma KnownIban()
    ensures IbanValid(KnownIbanText("GB82 ")) && !IbanValid(KnownIbanText("GB28 "))
  {
    KnownGroups();
    KnownText("GB82 ", 8, 2);
    KnownText("GB28 ", 2, 8);
    KnownDecided(KnownIbanText("GB82 "), 82);
    KnownDecided(KnownIbanText("GB28 "), 28);
  }
}
