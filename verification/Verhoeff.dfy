/** The Verhoeff checksum behind Aadhaar numbers: multiplication in the dihedral group of order ten,
    each digit first moved by a permutation that depends on its place. */
module Verhoeff {
  import opened Digits

  const D: seq<seq<Digit>> :=
    [[0, 1, 2, 3, 4, 5, 6, 7, 8, 9],
     [1, 2, 3, 4, 0, 6, 7, 8, 9, 5],
     [2, 3, 4, 0, 1, 7, 8, 9, 5, 6],
     [3, 4, 0, 1, 2, 8, 9, 5, 6, 7],
     [4, 0, 1, 2, 3, 9, 5, 6, 7, 8],
     [5, 9, 8, 7, 6, 0, 4, 3, 2, 1],
     [6, 5, 9, 8, 7, 1, 0, 4, 3, 2],
     [7, 6, 5, 9, 8, 2, 1, 0, 4, 3],
     [8, 7, 6, 5, 9, 3, 2, 1, 0, 4],
     [9, 8, 7, 6, 5, 4, 3, 2, 1, 0]]

  const P: seq<seq<Digit>> :=
    [[0, 1, 2, 3, 4, 5, 6, 7, 8, 9],
     [1, 5, 7, 6, 2, 8, 3, 0, 9, 4],
     [5, 8, 0, 3, 7, 9, 6, 1, 4, 2],
     [8, 9, 1, 6, 0, 4, 3, 5, 2, 7],
     [9, 4, 5, 3, 1, 2, 6, 8, 7, 0],
     [4, 2, 8, 6, 5, 7, 3, 9, 0, 1],
     [2, 7, 9, 3, 8, 0, 6, 4, 1, 5],
     [7, 0, 4, 6, 9, 1, 3, 2, 5, 8]]

  function Times(a: Digit, b: Digit): Digit { D[a][b] }

  function Permuted(i: nat, d: Digit): Digit { P[i % 8][d] }

  /** x modulo five, for a sum or difference of two residues. */
  function Fifth(x: int): nat
    requires -5 <= x < 10
  {
    if x < 0 then x + 5 else if x < 5 then x else x - 5
  }

  /** The dihedral group of order ten: 0..4 are rotations, 5..9 are reflections. */
  function Dihedral(a: Digit, b: Digit): Digit
  {
    if a < 5 then
      if b < 5 then Fifth(a + b) else 5 + Fifth(a + b - 5)
    else
      if b < 5 then 5 + Fifth(a - 5 - b) else Fifth(a - b)
  }

  lemma TableIsDihedral(a: Digit, b: Digit)
    ensures Times(a, b) == Dihedral(a, b)
  {
    if a < 5 { RotationRows(a, b); } else { ReflectionRows(a, b); }
  }

  lemma RotationRows(a: Digit, b: Digit)
    requires a < 5
    ensures Times(a, b) == Dihedral(a, b)
  {
  }

  lemma ReflectionRows(a: Digit, b: Digit)
    requires a >= 5
    ensures Times(a, b) == Dihedral(a, b)
  {
  }

  lemma DihedralAssociative(a: Digit, b: Digit, c: Digit)
    ensures Dihedral(Dihedral(a, b), c) == Dihedral(a, Dihedral(b, c))
  {
    if a < 5 { RotationAssociates(a, b, c); } else { ReflectionAssociates(a, b, c); }
  }

  lemma RotationAssociates(a: Digit, b: Digit, c: Digit)
    requires a < 5
    ensures Dihedral(Dihedral(a, b), c) == Dihedral(a, Dihedral(b, c))
  {
  }

  lemma ReflectionAssociates(a: Digit, b: Digit, c: Digit)
    requires a >= 5
    ensures Dihedral(Dihedral(a, b), c) == Dihedral(a, Dihedral(b, c))
  {
  }

  lemma DihedralCancels(a: Digit, x: Digit, y: Digit)
    requires x != y
    ensures Dihedral(a, x) != Dihedral(a, y) && Dihedral(x, a) != Dihedral(y, a)
  {
  }

  lemma Associative(a: Digit, b: Digit, c: Digit)
    ensures Times(Times(a, b), c) == Times(a, Times(b, c))
  {
    TableIsDihedral(a, b);
    TableIsDihedral(Dihedral(a, b), c);
    TableIsDihedral(b, c);
    TableIsDihedral(a, Dihedral(b, c));
    DihedralAssociative(a, b, c);
  }

  lemma Cancels(a: Digit, x: Digit, y: Digit)
    requires x != y
    ensures Times(a, x) != Times(a, y) && Times(x, a) != Times(y, a)
  {
    TableIsDihedral(a, x);
    TableIsDihedral(a, y);
    TableIsDihedral(x, a);
    TableIsDihedral(y, a);
    DihedralCancels(a, x, y);
  }

  lemma PermutedInjective(i: nat, x: Digit, y: Digit)
    requires x != y
    ensures Permuted(i, x) != Permuted(i, y)
  {
  }

  /** Each row of the permutation table is the first row's permutation applied to the row before; after
      the last row comes the identity again. */
  lemma PowerStep(i: nat, x: Digit)
    ensures Permuted(i + 1, x) == Permuted(1, Permuted(i, x))
  {
    var k := i % 8;
    assert (i + 1) % 8 == (k + 1) % 8;
    if k < 4 { EarlyRows(k, x); } else { LateRows(k, x); }
  }

  lemma EarlyRows(k: nat, x: Digit)
    requires k < 4
    ensures P[k + 1][x] == P[1][P[k][x]]
  {
  }

  lemma LateRows(k: nat, x: Digit)
    requires 4 <= k < 8
    ensures P[(k + 1) % 8][x] == P[1][P[k][x]]
  {
  }

  lemma RowCondition(x: Digit, y: Digit)
    requires x != y
    ensures Times(x, Permuted(1, y)) != Times(y, Permuted(1, x))
  {
  }

  /** A run over the digits from the last one backwards, starting at place i with value c. */
  function RunWith(step: (nat, Digit, Digit) -> Digit, digits: seq<Digit>, i: nat, c: Digit): Digit
  {
    if digits == [] then c
    else RunWith(step, digits[..|digits| - 1], i + 1, step(i, c, digits[|digits| - 1]))
  }

  lemma {:induction false} RunWithConcat(step: (nat, Digit, Digit) -> Digit, u: seq<Digit>, v: seq<Digit>, i: nat,
                                         c: Digit)
    ensures RunWith(step, u + v, i, c) == RunWith(step, u, i + |v|, RunWith(step, v, i, c))
    decreases v
  {
    if v == [] {
      assert u + v == u;
    } else {
      var front, last := v[..|v| - 1], v[|v| - 1];
      assert (u + v)[..|u + v| - 1] == u + front;
      RunWithConcat(step, u, front, i + 1, step(i, c, last));
    }
  }

  function Step(i: nat, c: Digit, d: Digit): Digit
  {
    Times(c, Permuted(i, d))
  }

  function Run(digits: seq<Digit>, i: nat, c: Digit): Digit
  {
    RunWith(Step, digits, i, c)
  }

  function Checksum(digits: seq<Digit>): Digit
  {
    Run(digits, 0, 0)
  }

  lemma {:induction false} RunConcat(u: seq<Digit>, v: seq<Digit>, i: nat, c: Digit)
    ensures Run(u + v, i, c) == Run(u, i + |v|, Run(v, i, c))
  {
    RunWithConcat(Step, u, v, i, c);
  }

  lemma {:induction false} RunInjective(u: seq<Digit>, i: nat, c: Digit, d: Digit)
    requires c != d
    ensures Run(u, i, c) != Run(u, i, d)
    decreases u
  {
    if u != [] {
      var p := Permuted(i, u[|u| - 1]);
      Cancels(p, c, d);
      RunInjective(u[..|u| - 1], i + 1, Times(c, p), Times(d, p));
    }
  }

  /** What stands in the middle sees the value left by what follows it, and hands its own on. */
  lemma RunAround(u: seq<Digit>, w: seq<Digit>, v: seq<Digit>)
    ensures Checksum(u + w + v) == Run(u, |v| + |w|, Run(w, |v|, Checksum(v)))
  {
    RunConcat(u + w, v, 0, 0);
    RunConcat(u, w, |v|, Checksum(v));
  }

  lemma OneDiffers(a: Digit, b: Digit, i: nat, c: Digit)
    requires a != b
    ensures Run([a], i, c) != Run([b], i, c)
  {
    RunOne(a, i, c);
    RunOne(b, i, c);
    PermutedInjective(i, a, b);
    Cancels(c, Permuted(i, a), Permuted(i, b));
  }

  lemma RunOne(a: Digit, i: nat, c: Digit)
    ensures Run([a], i, c) == Times(c, Permuted(i, a))
  {
    assert [a][..0] == [];
    assert RunWith(Step, [a], i, c) == RunWith(Step, [], i + 1, Step(i, c, a));
  }

  /** Changing one digit, in a sequence of any length, changes the checksum. */
  lemma OneDigitChangesChecksum(u: seq<Digit>, a: Digit, b: Digit, v: seq<Digit>)
    requires a != b
    ensures Checksum(u + [a] + v) != Checksum(u + [b] + v)
  {
    RunAround(u, [a], v);
    RunAround(u, [b], v);
    OneDiffers(a, b, |v|, Checksum(v));
    RunInjective(u, |v| + 1, Run([a], |v|, Checksum(v)), Run([b], |v|, Checksum(v)));
  }

  /** The pair [a, b] at places i + 1 and i. */
  lemma RunPair(a: Digit, b: Digit, i: nat, c: Digit)
    ensures Run([a, b], i, c) == Times(c, Times(Permuted(i, b), Permuted(1, Permuted(i, a))))
  {
    assert [a, b] == [a] + [b];
    RunConcat([a], [b], i, c);
    RunOne(b, i, c);
    RunOne(a, i + 1, Times(c, Permuted(i, b)));
    PowerStep(i, a);
    Associative(c, Permuted(i, b), Permuted(1, Permuted(i, a)));
  }

  lemma PairDiffers(a: Digit, b: Digit, i: nat, c: Digit)
    requires a != b
    ensures Run([a, b], i, c) != Run([b, a], i, c)
  {
    RunPair(a, b, i, c);
    RunPair(b, a, i, c);
    PermutedInjective(i, a, b);
    var x, y := Permuted(i, a), Permuted(i, b);
    RowCondition(y, x);
    Cancels(c, Times(y, Permuted(1, x)), Times(x, Permuted(1, y)));
  }

  /** Swapping two distinct neighbours, in a sequence of any length, changes the checksum; the table of
      permutations repeats after eight places and the step from the last row to the first is no exception. */
  lemma SwapChangesChecksum(u: seq<Digit>, a: Digit, b: Digit, v: seq<Digit>)
    requires a != b
    ensures Checksum(u + [a, b] + v) != Checksum(u + [b, a] + v)
  {
    RunAround(u, [a, b], v);
    RunAround(u, [b, a], v);
    PairDiffers(a, b, |v|, Checksum(v));
    RunInjective(u, |v| + 2, Run([a, b], |v|, Checksum(v)), Run([b, a], |v|, Checksum(v)));
  }

  /** The first digit is compared as a character. */
  predicate IsAadhaar(dec: Decimals, value: string)
  {
    var kept := Kept(dec, value);
    |kept| == 12 && kept[0] != '0' && kept[0] != '1' && Checksum(DigitsOf(dec, value)) == 0
  }

  /** `aadhaar_valid`: the loop goes over the reversed digits. */
  method AadhaarValid(dec: Decimals, value: string) returns (valid: bool)
    ensures valid <==> IsAadhaar(dec, value)
  {
    var kept := KeepDigits(dec, value);
    if |kept| != 12 || kept[0] == '0' || kept[0] == '1' { return false; }
    var checksum: Digit := 0;
    ghost var digits := DigitsOf(dec, value);
    assert digits[..|digits|] == digits;
    for index := 0 to |kept|
      invariant Run(digits, 0, 0) == Run(digits[..|digits| - index], index, checksum)
    {
      ghost var rest := digits[..|digits| - index];
      assert rest[..|rest| - 1] == digits[..|digits| - (index + 1)];
      checksum := Times(checksum, Permuted(index, dec(kept[|kept| - 1 - index]).value));
    }
    valid := checksum == 0;
  }

  /** A text that passes fails once one of its digits is mistyped. */
  lemma MistypedAadhaarFails(dec: Decimals, before: string, c: char, d: char, after: string)
    requires dec(c).Some? && dec(d).Some? && dec(c) != dec(d)
    requires IsAadhaar(dec, before + [c] + after)
    ensures !IsAadhaar(dec, before + [d] + after)
  {
    DigitsAround(dec, before, c, after);
    DigitsAround(dec, before, d, after);
    OneDigitChangesChecksum(DigitsOf(dec, before), dec(c).value, dec(d).value, DigitsOf(dec, after));
  }

  /** A text that passes fails once two distinct neighbouring digits are swapped, separators or not. */
  lemma SwappedAadhaarFails(dec: Decimals, before: string, c: char, gap: string, d: char, after: string)
    requires dec(c).Some? && dec(d).Some? && dec(c) != dec(d) && DigitsOf(dec, gap) == []
    requires IsAadhaar(dec, before + [c] + gap + [d] + after)
    ensures !IsAadhaar(dec, before + [d] + gap + [c] + after)
  {
    DigitsAroundPair(dec, before, c, gap, d, after);
    DigitsAroundPair(dec, before, d, gap, c, after);
    SwapChangesChecksum(DigitsOf(dec, before), dec(c).value, dec(d).value, DigitsOf(dec, after));
  }

  // ------------------------------------------------------------ the check digit

  lemma {:induction false} RunFromStart(u: seq<Digit>, i: nat, c: Digit)
    ensures Run(u, i, c) == Times(c, Run(u, i, 0))
    decreases u
  {
    if u == [] {
      TableIsDihedral(c, 0);
    } else {
      var front, p := u[..|u| - 1], Permuted(i, u[|u| - 1]);
      RunFromStart(front, i + 1, Times(c, p));
      RunFromStart(front, i + 1, Times(0, p));
      TableIsDihedral(0, p);
      Associative(c, p, Run(front, i + 1, 0));
    }
  }

  /** The inverse in the group: a rotation turns back, a reflection is its own. */
  function InverseOf(x: Digit): Digit
  {
    if 0 < x < 5 then 5 - x else x
  }

  lemma InverseDecides(d: Digit, x: Digit)
    ensures Times(d, x) == 0 <==> d == InverseOf(x)
  {
    TableIsDihedral(d, x);
  }

  /** A sequence passes if and only if its last digit is the inverse of the product of the others, each permuted by
      its place. */
  lemma CheckDigitDecides(payload: seq<Digit>, d: Digit)
    ensures Checksum(payload + [d]) == 0 <==> d == InverseOf(Run(payload, 1, 0))
  {
    RunConcat(payload, [d], 0, 0);
    RunOne(d, 0, 0);
    TableIsDihedral(0, d);
    RunFromStart(payload, 1, d);
    InverseDecides(d, Run(payload, 1, 0));
  }

  /** Eleven digits, the first one neither 0 nor 1, are completed to a number that passes by exactly one digit. */
  lemma CheckDigitCompletes(dec: Decimals, front: string, c: char)
    requires dec(c).Some? && |Kept(dec, front)| == 11
    ensures IsAadhaar(dec, front + [c]) <==>
              Kept(dec, front)[0] != '0' && Kept(dec, front)[0] != '1' &&
              dec(c).value == InverseOf(Run(DigitsOf(dec, front), 1, 0))
  {
    DigitsAround(dec, front, c, "");
    KeptConcat(dec, front, [c]);
    assert [c][..0] == "" && front + [c] + "" == front + [c];
    CheckDigitDecides(DigitsOf(dec, front), dec(c).value);
    assert DigitsOf(dec, front) + [dec(c).value] + [] == DigitsOf(dec, front) + [dec(c).value];
  }

  /** The textbook example: the check digit of 236 is 3. */
  lemma KnownChecksum()
    ensures Checksum([2, 3, 6, 3]) == 0
  {
    RunPair(6, 3, 0, 0);
    RunPair(2, 3, 2, Run([6, 3], 0, 0));
    assert [2, 3, 6, 3] == [2, 3] + [6, 3];
    RunConcat([2, 3], [6, 3], 0, 0);
  }
}
