/** Powers of two, and numbers written as bits, highest bit first. */
module Bits {

  type Byte = b: int | 0 <= b < 256

  function Pow2(n: nat): (r: nat)
    ensures r > 0
  {
    if n == 0 then 1 else 2 * Pow2(n - 1)
  }

  lemma Pow2Seven(m: nat)
    ensures Pow2(m + 7) == 128 * Pow2(m)
  {
    assert Pow2(m + 2) == 4 * Pow2(m);
    assert Pow2(m + 4) == 4 * Pow2(m + 2);
    assert Pow2(m + 6) == 4 * Pow2(m + 4);
  }

  lemma {:induction false} Pow2Grows(m: nat, n: nat)
    requires m <= n
    ensures Pow2(m) <= Pow2(n)
  {
    if m < n { Pow2Grows(m, n - 1); }
  }

  lemma {:induction false} Pow2Add(m: nat, n: nat)
    ensures Pow2(m + n) == Pow2(m) * Pow2(n)
  {
    if n > 0 {
      Pow2Add(m, n - 1);
      Swap2(Pow2(m), Pow2(n - 1));
    }
  }

  lemma Swap2(a: nat, b: nat)
    ensures 2 * (a * b) == a * (2 * b)
  {
  }

  /** The `n` low bits of `v`. */
  function BitsOf(v: nat, n: nat): (r: seq<bool>)
    ensures |r| == n
  {
    if n == 0 then [] else BitsOf(v / 2, n - 1) + [v % 2 == 1]
  }

  lemma DivHalf(v: nat, p: nat)
    requires p > 0
    ensures v / (2 * p) == v / 2 / p
  {
    var q, r := v / 2 / p, v / 2 % p;
    assert v / 2 == q * p + r;
    var w := 2 * r + v % 2;
    assert v == q * (2 * p) + w by { assert q * (2 * p) == 2 * (q * p); }
    DivUnique(v, 2 * p, q, w);
  }

  lemma MulGap(a: nat, b: nat, d: nat)
    requires a < b
    ensures a * d + d <= b * d
  {
    assert (a + 1) * d <= b * d;
  }

  lemma DivUnique(v: nat, d: nat, q: nat, r: nat)
    requires r < d && v == q * d + r
    ensures v / d == q && v % d == r
  {
    var q', r' := v / d, v % d;
    assert v == q' * d + r';
    if q' < q { MulGap(q', q, d); }
    if q < q' { MulGap(q, q', d); }
  }

  /** The leading bits are those of the quotient. */
  lemma {:induction false} BitsHigh(v: nat, n: nat, k: nat)
    requires k <= n
    ensures BitsOf(v, n)[..k] == BitsOf(v / Pow2(n - k), k)
  {
    if k < n {
      BitsHigh(v / 2, n - 1, k);
      DivHalf(v, Pow2(n - 1 - k));
      assert BitsOf(v, n)[..k] == BitsOf(v / 2, n - 1)[..k];
    }
  }

  /** The trailing bits are the low ones. */
  lemma {:induction false} BitsLow(v: nat, n: nat, k: nat)
    requires k <= n
    ensures BitsOf(v, n)[k..] == BitsOf(v, n - k)
  {
    if k < n {
      BitsLow(v / 2, n - 1, k);
      assert BitsOf(v, n)[k..] == BitsOf(v / 2, n - 1)[k..] + [v % 2 == 1];
    }
  }

  /** Higher bits do not matter. */
  lemma {:induction false} BitsWrap(v: nat, c: nat, n: nat)
    ensures BitsOf(v + c * Pow2(n), n) == BitsOf(v, n)
  {
    if n > 0 {
      var h := c * Pow2(n - 1);
      assert c * Pow2(n) == 2 * h by { Swap2(c, Pow2(n - 1)); }
      assert (v + 2 * h) / 2 == v / 2 + h && (v + 2 * h) % 2 == v % 2;
      BitsWrap(v / 2, c, n - 1);
    }
  }

  lemma {:induction false} BitsMod(v: nat, n: nat, k: nat)
    requires n <= k
    ensures BitsOf(v % Pow2(k), n) == BitsOf(v, n)
  {
    hide Pow2, BitsOf;
    var c, r, p := v / Pow2(k), v % Pow2(k), Pow2(k - n);
    assert v == r + c * Pow2(k);
    Pow2Add(k - n, n);
    Assoc(c, p, Pow2(n));
    BitsWrap(r, c * p, n);
  }

  lemma Assoc(a: nat, b: nat, c: nat)
    ensures a * (b * c) == (a * b) * c
  {
  }

  /** Shifting left and adding below appends bits. */
  lemma {:induction false} BitsJoin(a: nat, n: nat, b: nat, m: nat)
    requires b < Pow2(m)
    ensures BitsOf(a * Pow2(m) + b, n + m) == BitsOf(a, n) + BitsOf(b, m)
  {
    if m > 0 {
      var h := a * Pow2(m - 1);
      assert a * Pow2(m) == 2 * h by { Swap2(a, Pow2(m - 1)); }
      assert (2 * h + b) / 2 == h + b / 2 && (2 * h + b) % 2 == b % 2;
      BitsJoin(a, n, b / 2, m - 1);
      assert BitsOf(a, n) + (BitsOf(b / 2, m - 1) + [b % 2 == 1]) == (BitsOf(a, n) + BitsOf(b / 2, m - 1)) + [b % 2 == 1];
    }
  }

  lemma {:induction false} BitsInjective(x: nat, y: nat, n: nat)
    requires x < Pow2(n) && y < Pow2(n) && BitsOf(x, n) == BitsOf(y, n)
    ensures x == y
  {
    if n > 0 {
      var a, b := BitsOf(x, n), BitsOf(y, n);
      assert a[..n - 1] == BitsOf(x / 2, n - 1) && b[..n - 1] == BitsOf(y / 2, n - 1);
      assert a[n - 1] == (x % 2 == 1) && b[n - 1] == (y % 2 == 1);
      BitsInjective(x / 2, y / 2, n - 1);
    }
  }

  function Ones(n: nat): (r: seq<bool>)
    ensures |r| == n
  {
    seq(n, _ => true)
  }

  lemma {:induction false} BitsOnes(n: nat)
    ensures BitsOf(Pow2(n) - 1, n) == Ones(n)
  {
    if n > 0 {
      BitsOnes(n - 1);
      assert (Pow2(n) - 1) / 2 == Pow2(n - 1) - 1;
    }
  }

  /** The bits of a byte string. */
  function Stream(s: seq<Byte>): (r: seq<bool>)
    ensures |r| == 8 * |s|
  {
    if s == [] then [] else BitsOf(s[0], 8) + Stream(s[1..])
  }

  lemma {:induction false} StreamConcat(a: seq<Byte>, b: seq<Byte>)
    ensures Stream(a + b) == Stream(a) + Stream(b)
    decreases a
  {
    if a == [] {
      assert a + b == b;
    } else {
      assert (a + b)[1..] == a[1..] + b;
      StreamConcat(a[1..], b);
      assert BitsOf(a[0], 8) + (Stream(a[1..]) + Stream(b)) == (BitsOf(a[0], 8) + Stream(a[1..])) + Stream(b);
    }
  }
}
