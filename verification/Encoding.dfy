/** The djb2 hash, computed on JavaScript numbers. */
module Encoding {

  const TWO_31: int := 0x8000_0000
  const TWO_32: int := 0x1_0000_0000
  const TWO_53: int := 0x20_0000_0000_0000

  /** One element of a JavaScript string. */
  type CodeUnit = c: int | 0 <= c < 0x1_0000

  // ---- Numbers ----

  function Abs(x: int): nat {
    if x < 0 then -x else x
  }

  /** The distance between neighbouring doubles of the size of `x`, for integers. */
  function Spacing(x: nat, unit: int): (u: int)
    requires unit > 0
    ensures u >= unit
    decreases x - TWO_53 * unit
  {
    if x <= TWO_53 * unit then unit else Spacing(x, 2 * unit)
  }

  /** The nearest multiple, ties to even. */
  function RoundTo(x: int, unit: int): int
    requires unit > 0
  {
    var below, rest := x / unit, x % unit;
    if 2 * rest < unit || (2 * rest == unit && below % 2 == 0) then below * unit else (below + 1) * unit
  }

  /** The nearest double to an integer. */
  function RoundToDouble(x: int): int {
    RoundTo(x, Spacing(Abs(x), 1))
  }

  lemma SmallIntegersAreExact(x: int)
    requires Abs(x) <= TWO_53
    ensures RoundToDouble(x) == x
  {
  }

  function Power(base: int, n: nat): int {
    if n == 0 then 1 else base * Power(base, n - 1)
  }

  /** The least power of two with `x` no more than 2^53 times it: what doubles of that size are multiples of. */
  ghost predicate IsLeastSpacing(x: nat, unit: int) {
    exists k: nat :: unit == Power(2, k) && x <= 9007199254740992 * unit
                     && (k > 0 ==> x > 9007199254740992 * Power(2, k - 1))
  }

  predicate IsNearby(x: int, double: int, quotient: int, unit: int) {
    && double == quotient * unit
    && -unit <= 2 * (double - x) <= unit
    && (2 * (double - x) in {unit, -unit} ==> quotient % 2 == 0)
  }

  /** A nearest multiple, and an even one if two are. */
  ghost predicate IsNearest(x: int, double: int, unit: int) {
    exists quotient :: IsNearby(x, double, quotient, unit)
  }

  lemma {:induction false} SpacingIsLeast(x: nat, k: nat)
    requires k > 0 ==> x > 9007199254740992 * Power(2, k - 1)
    ensures Power(2, k) > 0 && IsLeastSpacing(x, Spacing(x, Power(2, k)))
    decreases x - TWO_53 * Power(2, k)
  {
    PowersArePositive(k);
    if x <= TWO_53 * Power(2, k) {
    } else {
      assert Power(2, k + 1) == 2 * Power(2, k);
      SpacingIsLeast(x, k + 1);
    }
  }

  lemma {:induction false} PowersArePositive(k: nat)
    ensures Power(2, k) > 0
  {
    if k == 0 {
    } else {
      PowersArePositive(k - 1);
    }
  }

  lemma RoundsToNearest(x: int)
    ensures IsLeastSpacing(Abs(x), Spacing(Abs(x), 1))
    ensures IsNearest(x, RoundToDouble(x), Spacing(Abs(x), 1))
  {
    SpacingIsLeast(Abs(x), 0);
    NearestMultiple(x, Spacing(Abs(x), 1));
  }

  lemma NearestMultiple(x: int, unit: int)
    requires unit > 0
    ensures IsNearest(x, RoundTo(x, unit), unit)
  {
    var below, rest := x / unit, x % unit;
    assert x == below * unit + rest;
    assert (below + 1) * unit == below * unit + unit;
    assert IsNearby(x, RoundTo(x, unit), if RoundTo(x, unit) == below * unit then below else below + 1, unit);
  }

  /** Section 7.1.6 of ECMA-262. */
  function ToInt32(x: int): int {
    var int32bit := x % TWO_32;
    if int32bit >= TWO_31 then int32bit - TWO_32 else int32bit
  }

  /** Section 7.1.7 of ECMA-262. */
  function ToUint32(x: int): int {
    x % TWO_32
  }

  function ShiftLeft(x: int, bits: nat): int
  {
    ToInt32(ToInt32(x) * Power(2, bits))
  }

  // ---- The hash ----

  const SEED: int := 5381
  const MAX_LENGTH: int := 4194000

  /** Every code unit by the power of 33 that counts the ones after it. */
  function Weighted(str: seq<CodeUnit>): int {
    if str == [] then 0 else str[0] * Power(33, |str| - 1) + Weighted(str[1..])
  }

  function Polynomial(str: seq<CodeUnit>): int {
    SEED * Power(33, |str|) + Weighted(str)
  }

  lemma {:induction false} WeightedOfOneMore(str: seq<CodeUnit>, c: CodeUnit)
    ensures Weighted(str + [c]) == 33 * Weighted(str) + c
  {
    if str == [] {
      assert ([] + [c])[1..] == [];
    } else {
      WeightedOfOneMore(str[1..], c);
      assert (str + [c])[1..] == str[1..] + [c];
      assert str[0] * Power(33, |str|) == 33 * (str[0] * Power(33, |str| - 1));
    }
  }

  lemma PolynomialOfOneMore(str: seq<CodeUnit>, c: CodeUnit)
    ensures Polynomial(str + [c]) == 33 * Polynomial(str) + c
  {
    WeightedOfOneMore(str, c);
  }

  lemma ToInt32IsCongruent(x: int)
    ensures ToInt32(x) % TWO_32 == x % TWO_32
    ensures -0x8000_0000 <= ToInt32(x) < 0x8000_0000
  {
  }

  lemma Multiples(x: int, k: int)
    ensures (x + TWO_32 * k) % TWO_32 == x % TWO_32
  {
  }

  lemma Congruent(a: int, b: int, factor: int, summand: int)
    requires a % TWO_32 == b % TWO_32
    ensures (factor * a + summand) % TWO_32 == (factor * b + summand) % TWO_32
  {
    var k := a / TWO_32 - b / TWO_32;
    assert a == b + TWO_32 * k;
    assert factor * a + summand == factor * b + summand + TWO_32 * (factor * k);
    Multiples(factor * b + summand, factor * k);
  }

  lemma SumsAreCongruent(a: int, b: int, x: int, y: int)
    requires a % TWO_32 == b % TWO_32 && x % TWO_32 == y % TWO_32
    ensures (a + x) % TWO_32 == (b + y) % TWO_32
  {
    Congruent(a, b, 1, x);
    Congruent(x, y, 1, b);
  }

  lemma CongruentStep(x: int, y: int, c: int)
    requires x % TWO_32 == y % TWO_32
    ensures (ShiftLeft(x, 5) + x + c) % TWO_32 == (33 * y + c) % TWO_32
  {
    assert Power(2, 5) == 32;
    ToInt32IsCongruent(x);
    ToInt32IsCongruent(ToInt32(x) * 32);
    Congruent(ToInt32(x), y, 32, 0);
    SumsAreCongruent(ShiftLeft(x, 5), 32 * y, x + c, y + c) by {
      Congruent(x, y, 1, c);
    }
  }

  /** The accumulator is never cut to 32 bits, yet up to the maximal length it stays an exact integer, and the
      result is that of the polynomial modulo 2^32. */
  method Djb2Hash(str: seq<CodeUnit>) returns (result: int)
    ensures |str| <= MAX_LENGTH ==> result == Polynomial(str) % TWO_32
  {
    var hash := SEED;
    for i := 0 to |str|
      invariant |str| <= MAX_LENGTH ==> Abs(hash) <= SEED + i * (TWO_31 + 0xFFFF)
      invariant |str| <= MAX_LENGTH ==> hash % TWO_32 == Polynomial(str[..i]) % TWO_32
    {
      var shifted := ShiftLeft(hash, 5);
      ghost var exact := shifted + hash + str[i];
      ToInt32IsCongruent(ToInt32(hash) * Power(2, 5));
      if |str| <= MAX_LENGTH {
        SmallIntegersAreExact(shifted + hash);
        SmallIntegersAreExact(exact);
        CongruentStep(hash, Polynomial(str[..i]), str[i]);
        PolynomialOfOneMore(str[..i], str[i]);
        assert str[..i + 1] == str[..i] + [str[i]];
      }
      hash := RoundToDouble(RoundToDouble(shifted + hash) + str[i]);
    }
    assert str[..|str|] == str;
    result := ToUint32(hash);
  }

  /** The hash as it is usually given, on a 32-bit accumulator. */
  function Djb2(str: seq<CodeUnit>): int {
    if str == [] then SEED else (33 * Djb2(str[..|str| - 1]) + str[|str| - 1]) % TWO_32
  }

  lemma {:induction false} PolynomialIsDjb2(str: seq<CodeUnit>)
    ensures Polynomial(str) % TWO_32 == Djb2(str)
  {
    if str == [] {
    } else {
      var front, c := str[..|str| - 1], str[|str| - 1];
      assert str == front + [c];
      PolynomialIsDjb2(front);
      PolynomialOfOneMore(front, c);
      Congruent(Polynomial(front), Djb2(front), 33, c);
    }
  }

  /** The hashes of no text, of "a" and of "ab". */
  lemma KnownHashes()
    ensures Djb2([]) == 5381 && Djb2([97]) == 177670 && Djb2([97, 98]) == 5863208
  {
    assert [97][..0] == [] && [97, 98][..1] == [97];
  }
}
