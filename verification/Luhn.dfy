/** The Luhn check on card numbers (Annex B of ISO/IEC 7812-1): every second digit from the right is
    doubled, its digits are added up, and the sum must end in zero. */
module Luhn {
  import opened Digits

  /** A doubled digit counts as the sum of its own digits. */
  function Weight(d: Digit, doubled: bool): nat
  {
    if !doubled then d else if 2 * d > 9 then 2 * d - 9 else 2 * d
  }

  /** The sum over digits whose last one stands k places from the right end. */
  function SumFromRight(digits: seq<Digit>, k: nat): nat
  {
    if digits == [] then 0
    else SumFromRight(digits[..|digits| - 1], k + 1) + Weight(digits[|digits| - 1], k % 2 == 1)
  }

  predicate Passes(digits: seq<Digit>)
  {
    SumFromRight(digits, 0) % 10 == 0
  }

  predicate IsCardNumber(digits: seq<Digit>)
  {
    12 <= |digits| <= 19 && Passes(digits)
  }

  /** The parity from the left against the place from the right. */
  lemma SamePlace(length: nat, index: nat)
    requires index < length
    ensures index % 2 == length % 2 <==> (length - index - 1) % 2 == 1
  {
  }

  /** The loop goes from the left and doubles by the parity of the length. */
  method SumFromLeft(digits: seq<Digit>) returns (checksum: nat)
    ensures checksum == SumFromRight(digits, 0)
  {
    checksum := 0;
    var parity := |digits| % 2;
    for index := 0 to |digits|
      invariant checksum == SumFromRight(digits[..index], |digits| - index)
    {
      assert digits[..index + 1][..index] == digits[..index];
      SamePlace(|digits|, index);
      var digit: nat := digits[index];
      if index % 2 == parity {
        digit := digit * 2;
        if digit > 9 { digit := digit - 9; }
      }
      assert digit == Weight(digits[index], (|digits| - index - 1) % 2 == 1);
      checksum := checksum + digit;
    }
    assert digits[..|digits|] == digits;
  }

  method LuhnValid(dec: Decimals, value: string) returns (valid: bool)
    ensures valid <==> IsCardNumber(DigitsOf(dec, value))
  {
    var digits := CollectDigits(dec, value);
    if !(12 <= |digits| <= 19) { return false; }
    var checksum := SumFromLeft(digits);
    valid := checksum % 10 == 0;
  }

  lemma {:induction false} SumConcat(u: seq<Digit>, v: seq<Digit>, k: nat)
    ensures SumFromRight(u + v, k) == SumFromRight(u, k + |v|) + SumFromRight(v, k)
    decreases v
  {
    if v == [] {
      assert u + v == u;
    } else {
      assert (u + v)[..|u + v| - 1] == u + v[..|v| - 1];
      SumConcat(u, v[..|v| - 1], k + 1);
    }
  }

  lemma SumAround(u: seq<Digit>, w: seq<Digit>, v: seq<Digit>)
    ensures SumFromRight(u + w + v, 0) == SumFromRight(u, |v| + |w|) + SumFromRight(w, |v|) + SumFromRight(v, 0)
  {
    SumConcat(u + w, v, 0);
    SumConcat(u, w, |v|);
  }

  lemma SumOne(a: Digit, k: nat)
    ensures SumFromRight([a], k) == Weight(a, k % 2 == 1)
  {
  }

  lemma SumPair(a: Digit, b: Digit, k: nat)
    ensures SumFromRight([a, b], k) == Weight(a, k % 2 == 0) + Weight(b, k % 2 == 1)
  {
    assert [a, b] == [a] + [b];
    SumConcat([a], [b], k);
    SumOne(a, k + 1);
    SumOne(b, k);
  }

  /** Two numbers with the same last digit differ by a multiple of ten. */
  lemma SameEnding(rest: nat, x: nat, y: nat)
    ensures (rest + x) % 10 == (rest + y) % 10 <==> x % 10 == y % 10
  {
  }

  lemma WeightEnding(a: Digit, b: Digit, doubled: bool)
    requires a != b
    ensures Weight(a, doubled) % 10 != Weight(b, doubled) % 10
  {
  }

  /** Changing one digit, at any place of a number of any length, changes the last digit of the sum. */
  lemma OneDigitChangesSum(u: seq<Digit>, a: Digit, b: Digit, v: seq<Digit>)
    requires a != b
    ensures SumFromRight(u + [a] + v, 0) % 10 != SumFromRight(u + [b] + v, 0) % 10
  {
    SumAround(u, [a], v);
    SumAround(u, [b], v);
    SumOne(a, |v|);
    SumOne(b, |v|);
    var doubled := |v| % 2 == 1;
    WeightEnding(a, b, doubled);
    SameEnding(SumFromRight(u, |v| + 1) + SumFromRight(v, 0), Weight(a, doubled), Weight(b, doubled));
  }

  predicate ZeroAndNine(a: Digit, b: Digit)
  {
    (a == 0 && b == 9) || (a == 9 && b == 0)
  }

  /** How much doubling adds to a digit, modulo ten. */
  function Gain(d: Digit): Digit
  {
    if d < 5 then d else if d < 9 then d + 1 else 0
  }

  lemma GainOf(d: Digit)
    ensures Weight(d, true) == d + Gain(d) || Weight(d, true) == d + Gain(d) - 10
  {
  }

  lemma GainRepeats(a: Digit, b: Digit)
    ensures Gain(a) == Gain(b) <==> a == b || ZeroAndNine(a, b)
  {
  }

  lemma NearEnding(x: int, y: int, z: int)
    requires -10 < z < 10 && (x - y == z || x - y == z + 10 || x - y == z - 10)
    ensures x % 10 == y % 10 <==> z == 0
  {
  }

  lemma PairEnding(a: Digit, b: Digit, odd: bool)
    ensures (Weight(a, !odd) + Weight(b, odd)) % 10 == (Weight(b, !odd) + Weight(a, odd)) % 10 <==>
        a == b || ZeroAndNine(a, b)
  {
    GainOf(a);
    GainOf(b);
    GainRepeats(a, b);
    var z := if odd then Gain(b) - Gain(a) else Gain(a) - Gain(b);
    NearEnding(Weight(a, !odd) + Weight(b, odd), Weight(b, !odd) + Weight(a, odd), z);
  }

  /** Swapping two neighbours keeps the last digit of the sum exactly when they are equal or are 0 and 9. */
  lemma SwapMissedIffZeroNine(u: seq<Digit>, a: Digit, b: Digit, v: seq<Digit>)
    ensures SumFromRight(u + [a, b] + v, 0) % 10 == SumFromRight(u + [b, a] + v, 0) % 10 <==>
        a == b || ZeroAndNine(a, b)
  {
    SumAround(u, [a, b], v);
    SumAround(u, [b, a], v);
    SumPair(a, b, |v|);
    SumPair(b, a, |v|);
    var odd := |v| % 2 == 1;
    SameEnding(SumFromRight(u, |v| + 2) + SumFromRight(v, 0), Weight(a, !odd) + Weight(b, odd),
        Weight(b, !odd) + Weight(a, odd));
    PairEnding(a, b, odd);
  }

  /** A text that passes fails once one of its digits is mistyped. */
  lemma MistypedCardFails(dec: Decimals, before: string, c: char, d: char, after: string)
    requires dec(c).Some? && dec(d).Some? && dec(c) != dec(d)
    requires IsCardNumber(DigitsOf(dec, before + [c] + after))
    ensures !IsCardNumber(DigitsOf(dec, before + [d] + after))
  {
    DigitsAround(dec, before, c, after);
    DigitsAround(dec, before, d, after);
    OneDigitChangesSum(DigitsOf(dec, before), dec(c).value, dec(d).value, DigitsOf(dec, after));
  }

  /** Of the swaps of neighbouring digits, separators or not, exactly those of 0 with 9 go unnoticed. */
  lemma SwappedCardFailsUnlessZeroNine(dec: Decimals, before: string, c: char, gap: string, d: char, after: string)
    requires dec(c).Some? && dec(d).Some? && dec(c) != dec(d) && DigitsOf(dec, gap) == []
    requires IsCardNumber(DigitsOf(dec, before + [c] + gap + [d] + after))
    ensures IsCardNumber(DigitsOf(dec, before + [d] + gap + [c] + after)) <==> ZeroAndNine(dec(c).value, dec(d).value)
  {
    DigitsAroundPair(dec, before, c, gap, d, after);
    DigitsAroundPair(dec, before, d, gap, c, after);
    SwapMissedIffZeroNine(DigitsOf(dec, before), dec(c).value, dec(d).value, DigitsOf(dec, after));
  }

  // ------------------------------------------------------------ the check digit

  function DigitSum(n: nat): nat
    requires n < 100
  {
    n / 10 + n % 10
  }

  /** The sum over a number without its check digit: the last digit is doubled, and every second one before it;
      a product counts as the sum of its digits. */
  function PayloadSum(payload: seq<Digit>): nat
  {
    if payload == [] then 0
    else
      var n, last: nat := |payload|, payload[|payload| - 1];
      DigitSum(2 * last) + if n == 1 then 0 else payload[n - 2] + PayloadSum(payload[..n - 2])
  }

  lemma {:induction false} PayloadIsFromRight(payload: seq<Digit>, k: nat)
    requires k % 2 == 1
    ensures PayloadSum(payload) == SumFromRight(payload, k)
    decreases |payload|
  {
    if |payload| > 1 {
      var rest := payload[..|payload| - 2];
      assert payload[..|payload| - 1][..|payload| - 2] == rest;
      PayloadIsFromRight(rest, k + 2);
    }
  }

  /** A number passes if and only if its last digit is the one that brings the sum to the next multiple of ten. */
  lemma CheckDigitDecides(payload: seq<Digit>, d: Digit)
    ensures Passes(payload + [d]) <==> d == (10 - PayloadSum(payload) % 10) % 10
  {
    SumConcat(payload, [d], 0);
    SumOne(d, 0);
    PayloadIsFromRight(payload, 1);
    NextTen(PayloadSum(payload), d);
  }

  lemma NextTen(sum: nat, d: Digit)
    ensures (sum + d) % 10 == 0 <==> d == (10 - sum % 10) % 10
  {
  }

  lemma {:induction false} SumOfOnes(n: nat, k: nat)
    ensures SumFromRight(seq(n, _ => 1), k) == n + (n + k % 2) / 2
  {
    if n > 0 {
      assert seq(n, _ => 1 as Digit)[..n - 1] == seq(n - 1, _ => 1);
      SumOfOnes(n - 1, k + 1);
    }
  }

  /** The card number 4111 1111 1111 1111 of the tests. */
  lemma KnownCard()
    ensures IsCardNumber([4] + seq(15, _ => 1)) && !IsCardNumber([4] + seq(14, _ => 1) + [2])
  {
    var ones: seq<Digit> := seq(15, _ => 1);
    SumConcat([4], ones, 0);
    SumOne(4, 15);
    SumOfOnes(15, 0);
    assert ones == seq(14, _ => 1) + [1];
    OneDigitChangesSum([4] + seq(14, _ => 1), 1, 2, []);
    assert [4] + seq(14, _ => 1) + [1] + [] == [4] + ones;
    assert [4] + seq(14, _ => 1) + [2] + [] == [4] + seq(14, _ => 1) + [2];
  }
}
