/** Big-endian positional notation: `int.to_bytes`, `int.from_bytes` and the 11-bit groups of BIP-39. */
module Digits {
  import opened Arith

  predicate InBase(base: nat, ds: seq<nat>)
  {
    forall i :: 0 <= i < |ds| ==> ds[i] < base
  }

  /** The number a digit string denotes, most significant digit first. */
  function FromDigits(base: nat, ds: seq<nat>): nat
  {
    if ds == [] then 0 else FromDigits(base, ds[..|ds| - 1]) * base + ds[|ds| - 1]
  }

  /** The last n digits of x. */
  function ToDigits(base: nat, n: nat, x: nat): (ds: seq<nat>)
    requires base > 0
    ensures |ds| == n && InBase(base, ds)
  {
    if n == 0 then [] else ToDigits(base, n - 1, x / base) + [x % base]
  }

  lemma AppendBound(f: nat, d: nat, base: nat, p: nat)
    requires f < p && d < base
    ensures f * base + d < base * p
  {
    MulMono(f + 1, p, base);
  }

  lemma {:induction false} FromDigitsBound(base: nat, ds: seq<nat>)
    requires base > 0 && InBase(base, ds)
    ensures FromDigits(base, ds) < Pow(base, |ds|)
  {
    if ds != [] {
      var p := ds[..|ds| - 1];
      FromDigitsBound(base, p);
      AppendBound(FromDigits(base, p), ds[|p|], base, Pow(base, |p|));
    }
  }

  lemma FromDigitsSnoc(base: nat, ds: seq<nat>, d: nat)
    ensures FromDigits(base, ds + [d]) == FromDigits(base, ds) * base + d
  {
    assert (ds + [d])[..|ds|] == ds;
  }

  /** Reading back written digits gives the number, provided it fits. */
  lemma {:induction false} DigitsRoundTrip(base: nat, n: nat, x: nat)
    requires base > 0 && x < Pow(base, n)
    ensures FromDigits(base, ToDigits(base, n, x)) == x
  {
    if n > 0 {
      DivBelow(x, base, Pow(base, n - 1));
      DivMod(x, base);
      DigitsRoundTrip(base, n - 1, x / base);
      FromDigitsSnoc(base, ToDigits(base, n - 1, x / base), x % base);
    }
  }

  /** Writing a number read from n digits gives those digits back. */
  lemma {:induction false} NumberRoundTrip(base: nat, ds: seq<nat>)
    requires base > 0 && InBase(base, ds)
    ensures ToDigits(base, |ds|, FromDigits(base, ds)) == ds
  {
    if ds != [] {
      var p := ds[..|ds| - 1];
      NumberRoundTrip(base, p);
      DivModUnique(FromDigits(base, ds), base, FromDigits(base, p), ds[|p|]);
      assert ds == p + [ds[|p|]];
    }
  }

  lemma Regroup(x: int, p: int, c: int, base: int, d: int)
    ensures (x * p + c) * base + d == x * (base * p) + (c * base + d)
  {
    MulAssoc(x, p, base);
  }

  lemma {:induction false} FromDigitsConcat(base: nat, a: seq<nat>, b: seq<nat>)
    ensures FromDigits(base, a + b) == FromDigits(base, a) * Pow(base, |b|) + FromDigits(base, b)
  {
    if b == [] {
      assert a + b == a;
    } else {
      var n := |b| - 1;
      FromDigitsConcat(base, a, b[..n]);
      assert a + b == (a + b[..n]) + [b[n]];
      FromDigitsSnoc(base, a + b[..n], b[n]);
      Regroup(FromDigits(base, a), Pow(base, n), FromDigits(base, b[..n]), base, b[n]);
    }
  }

  /** Digit j of n is what a right shift by the digits after it leaves in the last place. */
  lemma {:induction false} DigitAt(base: nat, n: nat, x: nat, j: nat)
    requires base > 0 && j < n
    ensures Pow(base, n - 1 - j) > 0
    ensures ToDigits(base, n, x)[j] == (x / Pow(base, n - 1 - j)) % base
  {
    PowPositive(base, n - 1 - j);
    if j < n - 1 {
      DigitAt(base, n - 1, x / base, j);
      DivDiv(x, base, Pow(base, n - 2 - j));
    }
  }

  lemma {:induction false} LeadingZeros(base: nat, ds: seq<nat>, k: nat)
    requires k <= |ds|
    requires forall i :: 0 <= i < k ==> ds[i] == 0
    ensures FromDigits(base, ds) == FromDigits(base, ds[k..])
  {
    ZeroDigits(base, ds[..k]);
    FromDigitsConcat(base, ds[..k], ds[k..]);
    assert ds == ds[..k] + ds[k..];
  }

  lemma {:induction false} ZeroDigits(base: nat, ds: seq<nat>)
    requires forall i :: 0 <= i < |ds| ==> ds[i] == 0
    ensures FromDigits(base, ds) == 0
  {
    if ds != [] { ZeroDigits(base, ds[..|ds| - 1]); }
  }
}
