/** The compact target encoding ("nBits") of node/block.py and node/pow.py, and the retarget rule. */
module Compact {
  import opened Arith
  import opened Digits

  const MAX_TARGET: nat := 0xFFFF_FFFF_FFFF_FFFF_FFFF_FFFF_FFFF_FFFF_FFFF_FFFF_FFFF_FFFF_FFFF_FFFF_FFFF_FFFF
  const TWO_256: nat := MAX_TARGET + 1
  const SIGN_BIT: nat := 0x80_0000
  const EXPONENT: nat := 0x100_0000
  const SMALL: nat := 0x1_0000

  type u32 = x: int | 0 <= x < 0x1_0000_0000

  lemma TwoTo256()
    ensures Pow(256, 32) == TWO_256
    ensures Pow(256, 3) == EXPONENT
  {
    assert Pow(256, 3) == 256 * (256 * 256) == EXPONENT;
    assert Pow(256, 4) == 0x1_0000_0000;
    PowAdd(256, 4, 4);
    PowAdd(256, 8, 8);
    PowAdd(256, 16, 16);
  }

  // ----- decoding -----

  /** `bits_to_target`: the exponent is the top byte, the coefficient the low 23 bits. */
  function BitsToTarget(bits: nat): nat
  {
    var exponent := (bits / EXPONENT) % 256;
    var coefficient := bits % SIGN_BIT;
    if exponent <= 3 then
      PowPositive(256, 3 - exponent);
      coefficient / Pow(256, 3 - exponent)
    else
      coefficient * Pow(256, exponent - 3)
  }

  /** Every field value has its place: the target is the coefficient, moved by the exponent less three bytes. */
  lemma DecodeIs(bits: nat)
    ensures Pow(256, 3) > 0
    ensures BitsToTarget(bits) == (bits % 0x80_0000) * Pow(256, bits / 0x100_0000 % 256) / Pow(256, 3)
  {
    var e, c := (bits / EXPONENT) % 256, bits % SIGN_BIT;
    TwoTo256();
    PowPositive(256, e);
    if e <= 3 {
      PowAdd(256, e, 3 - e);
      PowPositive(256, 3 - e);
      DivUnique(c * Pow(256, e), Pow(256, e), c);
      DivDiv(c * Pow(256, e), Pow(256, e), Pow(256, 3 - e));
    } else {
      PowAdd(256, e - 3, 3);
      MulAssoc(c, Pow(256, e - 3), Pow(256, 3));
      DivUnique(c * Pow(256, e), Pow(256, 3), c * Pow(256, e - 3));
    }
  }

  // ----- encoding -----

  /** How many low bytes of a target its compact form forgets. */
  function Granularity(t: nat): nat
  {
    if t < SIGN_BIT then 0 else 1 + Granularity(t / 256)
  }

  /** The compact form of a target, by size; `TargetToBits` is the byte scan of the program. */
  function TargetBits(t: nat): nat
  {
    if t == 0 then 0
    else if t < 0x100 then EXPONENT + t
    else if t < SMALL then 2 * EXPONENT + t
    else
      var k := Granularity(t);
      PowPositive(256, k);
      (k + 3) * EXPONENT + t / Pow(256, k)
  }

  lemma {:induction false} GranularityBounds(t: nat)
    ensures t < SIGN_BIT * Pow(256, Granularity(t))
    ensures Granularity(t) > 0 ==> SIGN_BIT * Pow(256, Granularity(t)) <= 256 * t
  {
    if t >= SIGN_BIT {
      GranularityBounds(t / 256);
      var k := Granularity(t / 256);
      assert Pow(256, k + 1) == 256 * Pow(256, k);
    }
  }

  lemma {:induction false} GranularityUnique(t: nat, k: nat)
    requires t < SIGN_BIT * Pow(256, k)
    requires k > 0 ==> SIGN_BIT * Pow(256, k) <= 256 * t
    ensures Granularity(t) == k
  {
    if k > 0 {
      var p := Pow(256, k - 1);
      PowPositive(256, k - 1);
      assert Pow(256, k) == 256 * p;
      assert SIGN_BIT * p <= t;
      DivBelow(t, 256, SIGN_BIT * p);
      if k > 1 {
        assert p == 256 * Pow(256, k - 2);
        DivAtLeast(t, 256, SIGN_BIT * Pow(256, k - 2));
      }
      GranularityUnique(t / 256, k - 1);
    }
  }

  lemma {:induction false} PowMono(m: nat, n: nat)
    requires m <= n
    ensures Pow(256, m) <= Pow(256, n)
  {
    PowAdd(256, m, n - m);
    PowPositive(256, m);
    PowPositive(256, n - m);
    MulMono(1, Pow(256, n - m), Pow(256, m));
  }

  lemma GranularitySmall(t: nat)
    requires t <= MAX_TARGET
    ensures Granularity(t) <= 30
  {
    GranularityBounds(t);
    TwoTo256();
    var k := Granularity(t);
    assert Pow(256, 32) == 256 * Pow(256, 31);
    if k >= 31 { PowMono(31, k); }
  }

  /** Encodings of 256-bit targets fit the 32-bit header field. */
  lemma TargetBitsFit(t: nat)
    requires t <= MAX_TARGET
    ensures TargetBits(t) < 0x1_0000_0000
  {
    GranularitySmall(t);
    GranularityBounds(t);
    PowPositive(256, Granularity(t));
    DivBelow(t, Pow(256, Granularity(t)), SIGN_BIT);
  }

  /** What survives an encode/decode round trip. */
  function Rounded(t: nat): nat { BitsToTarget(TargetBits(t)) }

  lemma CoefficientRange(t: nat)
    requires t >= SMALL
    ensures Pow(256, Granularity(t)) > 0
    ensures t / Pow(256, Granularity(t)) < SIGN_BIT
    ensures Granularity(t) > 0 ==> 0x8000 <= t / Pow(256, Granularity(t))
    ensures Granularity(t) == 0 ==> t / Pow(256, Granularity(t)) == t
  {
    var k := Granularity(t);
    PowPositive(256, k);
    GranularityBounds(t);
    DivBelow(t, Pow(256, k), SIGN_BIT);
    if k > 0 { DivAtLeast(t, Pow(256, k), 0x8000); }
  }

  /** Decoding by fields: exponent e, coefficient c. */
  lemma DecodeFields(e: nat, c: nat)
    requires e < 256 && c < SIGN_BIT
    ensures e <= 3 ==> Pow(256, 3 - e) > 0 && BitsToTarget(e * EXPONENT + c) == c / Pow(256, 3 - e)
    ensures e > 3 ==> BitsToTarget(e * EXPONENT + c) == c * Pow(256, e - 3)
  {
    var bits := e * EXPONENT + c;
    DivModUnique(bits, EXPONENT, e, c);
    DivModUnique(bits, SIGN_BIT, 2 * e, c);
    if e <= 3 { PowPositive(256, 3 - e); }
  }

  lemma RoundedSmall(t: nat)
    requires t < SMALL
    ensures Rounded(t) == if t < 0x100 then 0 else t / 256
  {
    assert Pow(256, 1) == 256 && Pow(256, 2) == SMALL;
    TwoTo256();
    DecodeFields(0, 0);
    DecodeFields(1, t);
    DecodeFields(2, t);
  }

  lemma RoundedLarge(t: nat)
    requires SMALL <= t <= MAX_TARGET
    ensures Pow(256, Granularity(t)) > 0
    ensures Rounded(t) == t / Pow(256, Granularity(t)) * Pow(256, Granularity(t))
  {
    CoefficientRange(t);
    GranularitySmall(t);
    DecodeFields(Granularity(t) + 3, t / Pow(256, Granularity(t)));
  }

  lemma RoundedIs(t: nat)
    requires t <= MAX_TARGET
    ensures t < 0x100 ==> Rounded(t) == 0
    ensures 0x100 <= t < SMALL ==> Rounded(t) == t / 256
    ensures t >= SMALL ==> Pow(256, Granularity(t)) > 0
    ensures t >= SMALL ==> Rounded(t) == t / Pow(256, Granularity(t)) * Pow(256, Granularity(t))
  {
    if t < SMALL { RoundedSmall(t); } else { RoundedLarge(t); }
  }

  /** Decoding an encoding never exceeds the target, and from 2^16 on loses less than 1/2^15 of it. */
  lemma CompactLoss(t: nat)
    requires t <= MAX_TARGET
    ensures Rounded(t) <= t
    ensures t >= SMALL ==> (t - Rounded(t)) * 0x8000 < t
  {
    RoundedIs(t);
    if t >= SMALL {
      var p := Pow(256, Granularity(t));
      DivBounds(t, p);
      CoefficientRange(t);
      if Granularity(t) > 0 { MulMono(0x8000, t / p, p); }
    }
  }

  lemma GranularityOrder(t: nat, u: nat)
    requires t <= u && Granularity(t) != Granularity(u)
    ensures 256 * t < SIGN_BIT * Pow(256, Granularity(u))
    ensures Granularity(u) > 0
  {
    GranularityBounds(t);
    GranularityBounds(u);
    var k, l := Granularity(t), Granularity(u);
    assert Pow(256, l + 1) == 256 * Pow(256, l);
    assert Pow(256, k + 1) == 256 * Pow(256, k);
    if l < k { PowMono(l + 1, k); } else { PowMono(k + 1, l); }
  }

  /** Encode-then-decode is monotone on all 256-bit targets. */
  lemma CompactMonotone(t: nat, u: nat)
    requires t <= u <= MAX_TARGET
    ensures Rounded(t) <= Rounded(u)
  {
    RoundedIs(t);
    RoundedIs(u);
    if t < SMALL <= u {
      CoefficientRange(u);
      var p := Pow(256, Granularity(u));
      if Granularity(u) > 0 {
        PowMono(1, Granularity(u));
        MulMono(0x8000, u / p, p);
      }
    } else if SMALL <= t {
      var p, q := Pow(256, Granularity(t)), Pow(256, Granularity(u));
      if p == q {
        DivMono(t, u, p);
        MulMono(t / p, u / p, p);
      } else {
        GranularityOrder(t, u);
        CompactLoss(t);
        CoefficientRange(u);
        MulMono(0x8000, u / q, q);
      }
    } else if 0x100 <= t {
      DivMono(t, u, 256);
    }
  }

  lemma ScaledRange(c: nat, k: nat)
    requires 0x8000 <= c < SIGN_BIT && k > 0
    ensures SMALL <= c * Pow(256, k) < SIGN_BIT * Pow(256, k) <= 256 * (c * Pow(256, k))
  {
    var p := Pow(256, k);
    PowMono(1, k);
    PowPositive(256, k);
    assert Pow(256, 1) == 256;
    MulMono(0x8000, c, p);
    MulMono(c + 1, SIGN_BIT, p);
    assert (c + 1) * p == c * p + p;
  }

  lemma EncodeExact(c: nat, k: nat)
    requires 0x8000 <= c < SIGN_BIT && k > 0
    ensures TargetBits(c * Pow(256, k)) == (k + 3) * EXPONENT + c
  {
    ScaledRange(c, k);
    PowPositive(256, k);
    hide Pow;
    var p := Pow(256, k);
    var t := c * p;
    GranularityUnique(t, k);
    DivUnique(t, p, c);
  }

  lemma CanonicalAbove(t: nat)
    requires SMALL <= t <= MAX_TARGET
    ensures TargetBits(Rounded(t)) == TargetBits(t)
  {
    RoundedLarge(t);
    CoefficientRange(t);
    var k := Granularity(t);
    if k > 0 {
      EncodeExact(t / Pow(256, k), k);
    } else {
      assert Rounded(t) == t;
    }
  }

  /** Encoding a decoded encoding changes nothing exactly when the target is zero or at least 2^16. */
  lemma CompactCanonical(t: nat)
    requires t <= MAX_TARGET
    ensures TargetBits(Rounded(t)) == TargetBits(t) <==> t == 0 || t >= SMALL
  {
    RoundedIs(t);
    if t >= SMALL { CanonicalAbove(t); }
  }

  // ----- the byte scan of the program -----

  lemma ThreeDigits(h: seq<nat>)
    requires |h| == 3 && InBase(256, h)
    ensures FromDigits(256, h) == h[0] * SMALL + h[1] * 256 + h[2] < EXPONENT
  {
    assert h == ([] + [h[0]] + [h[1]]) + [h[2]];
    FromDigitsSnoc(256, [], h[0]);
    FromDigitsSnoc(256, [] + [h[0]], h[1]);
    FromDigitsSnoc(256, [] + [h[0]] + [h[1]], h[2]);
  }

  lemma Bracket(c: nat, p: nat, rest: nat)
    requires rest < p
    ensures c * p <= c * p + rest < (c + 1) * p
  {
    assert (c + 1) * p == c * p + p;
  }

  lemma HeadAndRest(bytes: seq<nat>, i: nat)
    requires |bytes| == 32 && InBase(256, bytes) && i <= 29 && bytes[i] != 0
    ensures var c := FromDigits(256, bytes[i..i + 3]);
            && c * Pow(256, 29 - i) <= FromDigits(256, bytes[i..]) < (c + 1) * Pow(256, 29 - i)
            && SMALL <= c < EXPONENT
  {
    hide FromDigits, Pow;
    var head, rest := bytes[i..i + 3], bytes[i + 3..];
    assert bytes[i..] == head + rest;
    FromDigitsConcat(256, head, rest);
    FromDigitsBound(256, rest);
    Bracket(FromDigits(256, head), Pow(256, 29 - i), FromDigits(256, rest));
    ThreeDigits(head);
  }

  lemma ScanSplit(target: nat, bytes: seq<nat>, i: nat)
    requires target <= MAX_TARGET && bytes == ToDigits(256, 32, target)
    requires i < 32 && bytes[i] != 0 && forall j :: 0 <= j < i ==> bytes[j] == 0
    ensures target == FromDigits(256, bytes[i..])
    ensures i <= 29 ==> var c := FromDigits(256, bytes[i..i + 3]);
                        && c * Pow(256, 29 - i) <= target < (c + 1) * Pow(256, 29 - i)
                        && SMALL <= c < EXPONENT
  {
    hide ToDigits, FromDigits, Pow;
    TwoTo256();
    DigitsRoundTrip(256, 32, target);
    LeadingZeros(256, bytes, i);
    if i <= 29 { HeadAndRest(bytes, i); }
  }

  lemma ScanCoefficient(target: nat, c: nat, k: nat)
    requires c * Pow(256, k) <= target < (c + 1) * Pow(256, k)
    requires SMALL <= c < EXPONENT
    ensures SMALL <= target
    ensures TargetBits(target) == if c >= SIGN_BIT then (k + 4) * EXPONENT + c / 256 else (k + 3) * EXPONENT + c
  {
    PowPositive(256, k);
    var p := Pow(256, k);
    MulMono(SMALL, c, p);
    DivUnique(target, p, c);
    if c >= SIGN_BIT {
      MulMono(SIGN_BIT, c, p);
      MulMono(c + 1, EXPONENT, p);
      assert Pow(256, k + 1) == 256 * p;
      GranularityUnique(target, k + 1);
      DivDiv(target, p, 256);
    } else {
      MulMono(c + 1, SIGN_BIT, p);
      GranularityUnique(target, k);
    }
  }

  lemma ScanShort(target: nat, bytes: seq<nat>, i: nat)
    requires target <= MAX_TARGET && bytes == ToDigits(256, 32, target)
    requires 30 <= i < 32 && bytes[i] != 0 && forall j :: 0 <= j < i ==> bytes[j] == 0
    ensures 0 < target < SMALL
    ensures FromDigits(256, bytes[i..]) == target
    ensures TargetBits(target) == (32 - i) * EXPONENT + target
  {
    ScanSplit(target, bytes, i);
    FromDigitsBound(256, bytes[i..]);
    assert Pow(256, 2) == SMALL && Pow(256, 1) == 256;
    if i == 30 {
      assert bytes[i..][..1] == [bytes[i]];
      assert FromDigits(256, [bytes[i]]) == bytes[i];
    }
  }

  /** The coefficient read at the first non-zero byte yields the normal form of the target. */
  lemma ScanFound(target: nat, bytes: seq<nat>, i: nat, c: nat)
    requires target <= MAX_TARGET && bytes == ToDigits(256, 32, target)
    requires i < 32 && bytes[i] != 0 && forall j :: 0 <= j < i ==> bytes[j] == 0
    requires c == FromDigits(256, bytes[i..Min(i + 3, 32)])
    ensures c < EXPONENT
    ensures TargetBits(target) == if c >= SIGN_BIT then (33 - i) * EXPONENT + c / 256 else (32 - i) * EXPONENT + c
  {
    hide TargetBits, ToDigits, FromDigits, Pow;
    if i <= 29 {
      ScanSplit(target, bytes, i);
      ScanCoefficient(target, c, 29 - i);
    } else {
      ScanShort(target, bytes, i);
      assert bytes[i..32] == bytes[i..];
    }
  }

  lemma NothingFound(target: nat, bytes: seq<nat>)
    requires target <= MAX_TARGET && bytes == ToDigits(256, 32, target)
    requires forall j :: 0 <= j < 32 ==> bytes[j] == 0
    ensures target == 0
  {
    TwoTo256();
    DigitsRoundTrip(256, 32, target);
    ZeroDigits(256, bytes);
  }

  /** Clear the sign bit by moving up one byte if it is set, then join exponent and coefficient. */
  method PackFields(exponent: nat, coefficient: nat) returns (bits: nat)
    requires coefficient < EXPONENT
    ensures bits == if coefficient >= SIGN_BIT then (exponent + 1) * EXPONENT + coefficient / 256
                    else exponent * EXPONENT + coefficient
  {
    var e, c := exponent, coefficient;
    if (c / SIGN_BIT) % 2 == 1 { e, c := e + 1, c / 256; }
    bits := e * EXPONENT + c % SIGN_BIT;
  }

  /** `_target_to_bits`: find the first non-zero byte, take three bytes from there, make room for the sign bit. */
  method TargetToBits(target: nat) returns (bits: nat)
    requires target <= MAX_TARGET
    ensures bits == TargetBits(target)
  {
    bits := 0;
    if target == 0 { return; }
    hide TargetBits, ToDigits, FromDigits;
    var bytes := ToDigits(256, 32, target);
    for i := 0 to 32
      invariant forall j :: 0 <= j < i ==> bytes[j] == 0
    {
      if bytes[i] != 0 {
        var exponent := 32 - i;
        var coefficient := FromDigits(256, bytes[i..Min(i + 3, 32)]);
        ScanFound(target, bytes, i, coefficient);
        bits := PackFields(exponent, coefficient);
        return;
      }
    }
    NothingFound(target, bytes);
  }

  /** `difficulty_to_bits`: N leading zero nibbles. */
  function DifficultyToBits(difficulty: nat): (bits: u32)
  {
    if difficulty == 0 then 0x200F_FFFF
    else
      PowPositive(16, difficulty);
      DivMono1(MAX_TARGET, Pow(16, difficulty));
      TargetBitsFit(MAX_TARGET / Pow(16, difficulty));
      TargetBits(MAX_TARGET / Pow(16, difficulty))
  }

  lemma SixtyFourNibbles()
    ensures Pow(16, 64) == TWO_256
  {
    assert Pow(16, 4) == SMALL;
    hide Pow;
    PowAdd(16, 4, 4);
    PowAdd(16, 8, 8);
    PowAdd(16, 16, 16);
    PowAdd(16, 32, 32);
  }

  lemma NibblePowers(n: nat)
    requires n <= 64
    ensures Pow(16, n) > 0 && Pow(16, 64 - n) > 0
    ensures MAX_TARGET / Pow(16, n) == Pow(16, 64 - n) - 1
  {
    SixtyFourNibbles();
    hide Pow;
    PowPositive(16, n);
    PowPositive(16, 64 - n);
    PowAdd(16, 64 - n, n);
    var a, b := Pow(16, 64 - n), Pow(16, n);
    assert (a - 1) * b == a * b - b;
    DivUnique(MAX_TARGET, b, a - 1);
  }

  /** A hash at or below the target of difficulty n starts with n zero nibbles, and up to encoding precision all
      such hashes are; difficulty 0 has its own target, and from 62 nibbles on only the zero hash is left. */
  lemma DifficultyMeans(n: nat)
    ensures n == 0 ==> BitsToTarget(DifficultyToBits(n)) == 0xF_FFFF * Pow(256, 29)
    ensures 1 <= n <= 64 ==> BitsToTarget(DifficultyToBits(n)) < Pow(16, 64 - n)
    ensures 1 <= n <= 59 ==>
              BitsToTarget(DifficultyToBits(n)) * 0x8000 > (Pow(16, 64 - n) - 1) * 0x7FFF
    ensures n == 60 ==> BitsToTarget(DifficultyToBits(n)) == 255
    ensures n == 61 ==> BitsToTarget(DifficultyToBits(n)) == 15
    ensures n >= 62 ==> BitsToTarget(DifficultyToBits(n)) == 0
  {
    if n == 0 {
      assert BitsToTarget(0x200F_FFFF) == 0xF_FFFF * Pow(256, 29);
    } else if n <= 64 {
      NibblePowers(n);
      var t := Pow(16, 64 - n) - 1;
      PowPositive(16, n);
      DivMono1(MAX_TARGET, Pow(16, n));
      CompactLoss(t);
      if n <= 59 { NibbleSize(n); } else { NibbleTail(n); RoundedSmall(t); }
    } else {
      ManyNibbles(n);
    }
  }

  /** Difficulties 0 and 1 have the same bits. */
  lemma EasiestBits()
    ensures DifficultyToBits(0) == DifficultyToBits(1) == 0x200F_FFFF
  {
    assert Pow(16, 1) == 16;
    NibblePowers(1);
    TwoTo256();
    SixtyFourNibbles();
    PowAdd(256, 29, 3);
    PowAdd(16, 1, 63);
    PowPositive(256, 29);
    hide Pow, TargetBits;
    var p := Pow(256, 29);
    assert Pow(16, 63) == 0x10_0000 * p;
    ScanCoefficient(Pow(16, 63) - 1, 0xF_FFFF, 29);
  }

  lemma NibbleSize(n: nat)
    requires n <= 59
    ensures Pow(16, 64 - n) > SMALL
  {
    PowAdd(16, 5, 59 - n);
    PowPositive(16, 59 - n);
    assert Pow(16, 5) == 0x10_0000;
    MulMono(1, Pow(16, 59 - n), 0x10_0000);
  }

  lemma NibbleTail(n: nat)
    requires 60 <= n <= 64
    ensures Pow(16, 64 - n) == [0x1_0000, 0x1000, 0x100, 0x10, 1][n - 60]
  {
    assert Pow(16, 4) == 0x1_0000 && Pow(16, 3) == 0x1000 && Pow(16, 2) == 0x100 && Pow(16, 1) == 0x10;
  }

  lemma ManyNibbles(n: nat)
    requires n > 64
    ensures BitsToTarget(DifficultyToBits(n)) == 0
  {
    NibblePowers(64);
    PowAdd(16, 64, n - 64);
    PowPositive(16, n - 64);
    PowPositive(16, n);
    MulMono(1, Pow(16, n - 64), Pow(16, 64));
    NibblePowers(0);
    assert MAX_TARGET < Pow(16, n);
    DivBelow(MAX_TARGET, Pow(16, n), 1);
    RoundedSmall(0);
  }

  lemma DivMono1(x: nat, d: nat)
    requires d > 0
    ensures x / d <= x
  {
    DivBounds(x, d);
    MulMono(1, d, x / d);
  }

  // ----- retargeting -----

  const TARGET_BLOCK_TIME: nat := 120
  const RETARGET_INTERVAL: nat := 2016
  const RETARGET_TIMESPAN: nat := TARGET_BLOCK_TIME * RETARGET_INTERVAL
  const MIN_RETARGET_TIMESPAN: nat := RETARGET_TIMESPAN / 4
  const MAX_RETARGET_TIMESPAN: nat := RETARGET_TIMESPAN * 4

  /** The time a period took, clamped to between a quarter and four times the schedule. */
  function ActualTimespan(first: int, last: int): (actual: nat)
    ensures MIN_RETARGET_TIMESPAN <= actual <= MAX_RETARGET_TIMESPAN
  {
    Min(Max(last - first, MIN_RETARGET_TIMESPAN), MAX_RETARGET_TIMESPAN)
  }

  function Scaled(current: nat, actual: nat): nat { current * actual / RETARGET_TIMESPAN }

  function NextTarget(currentBits: nat, first: int, last: int): (t: nat)
    ensures t <= MAX_TARGET
  {
    Min(Scaled(BitsToTarget(currentBits), ActualTimespan(first, last)), MAX_TARGET)
  }

  /** `calculate_next_bits`. */
  function CalculateNextBits(currentBits: nat, first: int, last: int): (bits: u32)
  {
    TargetBitsFit(NextTarget(currentBits, first, last));
    TargetBits(NextTarget(currentBits, first, last))
  }

  lemma StepDown(current: nat, actual: nat)
    requires MIN_RETARGET_TIMESPAN <= actual
    ensures current / 4 <= Scaled(current, actual)
  {
    MulMono(MIN_RETARGET_TIMESPAN, actual, current);
    DivBounds(current, 4);
    assert current / 4 * RETARGET_TIMESPAN <= current * MIN_RETARGET_TIMESPAN;
    DivAtLeast(current * actual, RETARGET_TIMESPAN, current / 4);
  }

  lemma StepUp(current: nat, actual: nat)
    requires actual <= MAX_RETARGET_TIMESPAN
    ensures Scaled(current, actual) <= 4 * current
  {
    MulMono(actual, MAX_RETARGET_TIMESPAN, current);
    DivBelow(current * actual, RETARGET_TIMESPAN, 4 * current + 1);
  }

  lemma ClampedStep(current: nat, actual: nat)
    requires MIN_RETARGET_TIMESPAN <= actual <= MAX_RETARGET_TIMESPAN
    ensures current / 4 <= Scaled(current, actual) <= 4 * current
  {
    hide Scaled;
    StepDown(current, actual);
    StepUp(current, actual);
  }

  /** One retarget moves the target by at most a factor four either way, up to the encoding's precision. */
  lemma RetargetBounds(bits: nat, first: int, last: int)
    ensures BitsToTarget(CalculateNextBits(bits, first, last)) <= 4 * BitsToTarget(bits)
    ensures BitsToTarget(CalculateNextBits(bits, first, last)) <= MAX_TARGET
    ensures BitsToTarget(bits) <= MAX_TARGET && BitsToTarget(bits) / 4 >= SMALL ==>
              BitsToTarget(CalculateNextBits(bits, first, last)) * 0x8000 > (BitsToTarget(bits) / 4) * 0x7FFF
  {
    var current := BitsToTarget(bits);
    var t := NextTarget(bits, first, last);
    ClampedStep(current, ActualTimespan(first, last));
    CompactLoss(t);
    if current <= MAX_TARGET && current / 4 >= SMALL {
      CompactMonotone(current / 4, t);
      CompactLoss(current / 4);
    }
  }

  lemma NextBitsFit(bits: nat, first: int, last: int)
    ensures BitsToTarget(CalculateNextBits(bits, first, last)) <= MAX_TARGET
  {
    CompactLoss(NextTarget(bits, first, last));
  }

  /** Between a quarter and four times the schedule, the new target is the current one in proportion to the time the
      period took, rounded down, capped at 256 bits and encoded. */
  lemma RetargetProportional(bits: nat, first: int, last: int, n: nat)
    requires 60_480 <= last - first <= 967_680
    requires n * 241_920 <= BitsToTarget(bits) * (last - first) < (n + 1) * 241_920
    ensures CalculateNextBits(bits, first, last) == TargetBits(Min(n, MAX_TARGET))
    ensures BitsToTarget(CalculateNextBits(bits, first, last)) == Rounded(Min(n, MAX_TARGET))
  {
    hide BitsToTarget, TargetBits;
    DivUnique(BitsToTarget(bits) * (last - first), RETARGET_TIMESPAN, n);
  }

  /** A faster or slower period counts as one at the limit. */
  lemma RetargetClamped(bits: nat, first: int, last: int)
    ensures last - first <= 60_480 ==>
              CalculateNextBits(bits, first, last) == CalculateNextBits(bits, first, first + 60_480)
    ensures last - first >= 967_680 ==>
              CalculateNextBits(bits, first, last) == CalculateNextBits(bits, first, first + 967_680)
  {
  }

  /** A slower interval never yields a harder target. */
  lemma RetargetMonotone(bits: nat, first: int, last: int, later: int)
    requires last <= later
    ensures BitsToTarget(CalculateNextBits(bits, first, last)) <= BitsToTarget(CalculateNextBits(bits, first, later))
  {
    var current, a, b := BitsToTarget(bits), ActualTimespan(first, last), ActualTimespan(first, later);
    MulMono(a, b, current);
    DivMono(current * a, current * b, RETARGET_TIMESPAN);
    CompactMonotone(NextTarget(bits, first, last), NextTarget(bits, first, later));
  }

  /** On schedule, canonical bits are kept exactly when their target is zero or at least 2^16. */
  lemma RetargetFixedPoint(t: nat, first: int)
    requires t <= MAX_TARGET
    ensures CalculateNextBits(TargetBits(t), first, first + 241_920) == TargetBits(t)
            <==> t == 0 || t >= SMALL
  {
    var r := Rounded(t);
    CompactLoss(t);
    DivUnique(r * RETARGET_TIMESPAN, RETARGET_TIMESPAN, r);
    assert NextTarget(TargetBits(t), first, first + RETARGET_TIMESPAN) == r;
    CompactCanonical(t);
  }
}
