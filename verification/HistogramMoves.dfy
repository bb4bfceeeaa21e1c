/** What becomes of the hits when ranges of the histogram move.

    A bucket stands for the times up to its own one, so what matters is the number of hits up to a time.
    Narrowing a range keeps it wherever both forms have a bucket.  Putting neighbours together does not: the
    hits of all but the first of them are counted for a time they exceed. */
module HistogramMoves {
  import opened Bits
  import opened Histogram

  /** The time bucket `b` stands for. */
  function BucketTime(c: Ctl, b: nat): nat {
    c.begin + b * Pow2(c.order)
  }

  /** The hits up to bucket `b`. */
  function UpTo(row: seq<nat>, b: nat): nat
    requires b < |row|
  {
    Sum(row[..b + 1])
  }

  // ---------------------------------------------------------------- narrowing

  /** Buckets of a narrowed range: every second one stands for the time of one of the right half before. */
  lemma NarrowedTime(c: Ctl, j: nat)
    requires CtlOk(c) && c.order > 0 && j < 8
    ensures c.end >= Span(c.order - 1) && BucketTime(Shrunk(c), 2 * j + 1) == BucketTime(c, 8 + j)
  {
    hide Pow2;
    SpanHalf(c.order);
    Halved(c.order);
    Odd(c.begin, Pow2(c.order - 1), j);
  }

  lemma Odd(b: nat, p: nat, j: nat)
    ensures b + 15 * (2 * p) - 15 * p + (2 * j + 1) * p == b + (8 + j) * (2 * p)
  {
    assert (2 * j + 1) * p == 2 * (j * p) + p && (8 + j) * (2 * p) == 16 * p + 2 * (j * p);
  }

  lemma Halved(n: nat)
    requires n > 0
    ensures Pow2(n) == 2 * Pow2(n - 1)
  {
  }

  /** Up to these times there are as many hits as before. */
  lemma {:induction false} NarrowedUpTo(row: seq<nat>, j: nat)
    requires |row| == BUCKETS && j < 8
    ensures UpTo(Spread(row), 2 * j + 1) == UpTo(row, 8 + j)
    decreases j
  {
    hide Sum, Spread;
    var x := Spread(row);
    SpreadAt(row, j);
    SumPrefix(x, 2 * j);
    SumPrefix(x, 2 * j + 1);
    SumPrefix(row, 8 + j);
    if j == 0 {
      SumNone();
      assert x[..0] == [];
    } else {
      NarrowedUpTo(row, j - 1);
      assert 2 * (j - 1) + 1 + 1 == 2 * j && 8 + (j - 1) + 1 == 8 + j;
    }
  }

  /** Narrowing a range keeps the number of hits up to a time wherever both forms have a bucket for it. */
  lemma NarrowedExact(c: Ctl, row: seq<nat>, j: nat)
    requires CtlOk(c) && c.order > 0 && |row| == BUCKETS && j < 8
    ensures c.end >= Span(c.order - 1) && Shrunk(c).end == c.end
    ensures BucketTime(Shrunk(c), 2 * j + 1) == BucketTime(c, 8 + j) && UpTo(Spread(row), 2 * j + 1) == UpTo(row, 8 + j)
  {
    NarrowedTime(c, j);
    NarrowedUpTo(row, j);
  }

  // ---------------------------------------------------------------- widening

  /** When `units` neighbours are put together, the hits up to a new bucket are those up to the last of them. */
  lemma {:induction false} GroupedUpTo(row: seq<nat>, units: nat, k: nat)
    requires units > 0 && 0 < k && k * units <= |row| && GroupsFit(row, units, k)
    ensures k <= k * units && Sum(Groups(row, units, k)) == UpTo(row, k * units - 1)
  {
    hide Sum, Groups, GroupsFit;
    Multiple(k, units);
    GroupsSum(row, units, k);
  }

  lemma Multiple(k: nat, units: nat)
    requires units > 0
    ensures k <= k * units
  {
  }

  lemma {:induction false} GroupsPrefix(row: seq<nat>, units: nat, k: nat, i: nat)
    requires k * units <= |row| && i <= k
    ensures i * units <= k * units && Groups(row, units, k)[..i] == Groups(row, units, i)
    ensures GroupsFit(row, units, k) ==> GroupsFit(row, units, i)
    decreases k
  {
    hide Group;
    MulGrows(i, k, units);
    if i < k {
      assert (k - 1) * units + units == k * units;
      GroupsPrefix(row, units, k - 1, i);
      assert Groups(row, units, k)[..k - 1] == Groups(row, units, k - 1);
      assert Groups(row, units, k)[..i] == Groups(row, units, k)[..k - 1][..i];
    } else {
      assert Groups(row, units, k)[..k] == Groups(row, units, k);
    }
  }

  /** The extended last row: as long as no sum wraps, the hits up to bucket `i` are those up to the last bucket of
      its group, and nothing is in the buckets behind. */
  lemma {:induction false} CoalescedUpTo(row: seq<nat>, units: nat, i: nat)
    requires |row| == BUCKETS && units in {2, 4, 8, 16} && GroupsFit(row, units, BUCKETS / units) && i < BUCKETS
    ensures i < BUCKETS / units ==> 0 < (i + 1) * units <= BUCKETS && UpTo(Coalesced(row, units), i) == UpTo(row, (i + 1) * units - 1)
    ensures i >= BUCKETS / units ==> Coalesced(row, units)[i] == 0
  {
    hide Sum, Groups, GroupsFit;
    var parts := BUCKETS / units;
    if i < parts {
      GroupsPrefix(row, units, parts, i + 1);
      GroupedUpTo(row, units, i + 1);
      assert Coalesced(row, units)[..i + 1] == Groups(row, units, parts)[..i + 1];
    }
  }

  /** The same for a range that grows by one order. */
  lemma {:induction false} PairedUpTo(row: seq<nat>, k: nat)
    requires |row| == BUCKETS && k < 8
    ensures UpTo(Paired(row), k) == UpTo(row, 2 * k + 1)
    decreases k
  {
    hide Sum;
    SumPrefix(Paired(row), k);
    SumPrefix(row, 2 * k);
    SumPrefix(row, 2 * k + 1);
    if k == 0 {
      SumNone();
      assert Paired(row)[..0] == [] && row[..0] == [];
    } else {
      PairedUpTo(row, k - 1);
      assert 2 * (k - 1) + 1 + 1 == 2 * k;
    }
  }

  lemma WidenedTime(c: Ctl, k: nat)
    ensures BucketTime(Grown(c), k) == BucketTime(c, 2 * k)
  {
    hide Pow2;
    Halved(c.order + 1);
    assert Grown(c).order == c.order + 1;
    assert k * (2 * Pow2(c.order)) == (2 * k) * Pow2(c.order) by { Assoc(k, 2, Pow2(c.order)); }
  }

  /** Widening keeps the number of hits up to the time of a new bucket exactly if the second of the two buckets put
      together is empty: its hits are counted for a time they exceed. */
  lemma WidenedExact(c: Ctl, row: seq<nat>, k: nat)
    requires |row| == BUCKETS && k < 8
    ensures BucketTime(Grown(c), k) == BucketTime(c, 2 * k)
    ensures UpTo(Paired(row), k) == UpTo(row, 2 * k) <==> row[2 * k + 1] == 0
  {
    hide Sum, Paired;
    WidenedTime(c, k);
    PairedUpTo(row, k);
    SumPrefix(row, 2 * k + 1);
  }

  lemma ExtendedTime(c: Ctl, units: nat, rise: nat, i: nat, end: nat)
    requires 1 <= rise <= 4 && units == Units(rise)
    ensures BucketTime(Ctl(c.order + rise, c.begin, end), i) == BucketTime(c, i * units)
  {
    assert Pow2(1) == 2 && Pow2(2) == 4 && Pow2(3) == 8 && Pow2(4) == 16;
    hide Pow2;
    Pow2Add(rise, c.order);
    Assoc(i, units, Pow2(c.order));
  }

  /** Extending the last range by up to four orders does so exactly if all but the first bucket of the group are
      empty. */
  lemma {:induction false} ExtendedExact(c: Ctl, row: seq<nat>, rise: nat, i: nat, end: nat)
    requires |row| == BUCKETS && 1 <= rise <= 4 && i < BUCKETS / Units(rise) && GroupsFit(row, Units(rise), BUCKETS / Units(rise))
    ensures var u := Units(rise);
      && 0 <= i * u && (i + 1) * u <= BUCKETS
      && BucketTime(Ctl(c.order + rise, c.begin, end), i) == BucketTime(c, i * u)
      && (UpTo(Coalesced(row, u), i) == UpTo(row, i * u) <==> Sum(row[i * u + 1..(i + 1) * u]) == 0)
  {
    hide Sum, Groups, GroupsFit, Coalesced, BucketTime;
    var u := Units(rise);
    ExtendedTime(c, u, rise, i, end);
    CoalescedUpTo(row, u, i);
    assert (i + 1) * u == i * u + u;
    SumConcat(row[..i * u + 1], row[i * u + 1..(i + 1) * u]);
    assert row[..(i + 1) * u] == row[..i * u + 1] + row[i * u + 1..(i + 1) * u];
  }

  /** A response of 340 ms is in the last bucket of a new histogram.  One of 400 ms puts that bucket together with
      the one for 333 ms. */
  lemma {:induction false} CountedLower()
    ensures var row := Zeros(BUCKETS)[15 := 1];
      && Bucket(INITIAL[RLAST], 340) == 15 && IsOrder(INITIAL[RLAST], 400, 5) && BucketTime(Ctl(5, 109, 589), 7) == 333
      && UpTo(row, 14) == 0 && UpTo(Coalesced(row, 2), 7) == 1
  {
    hide Sum;
    var row := Zeros(BUCKETS)[15 := 1];
    assert Pow2(4) == 16 && Pow2(5) == 32;
    ZerosSum(15);
    assert row[..15] == Zeros(15);
    ZerosSum(16);
    SumAt(Zeros(BUCKETS), 15, 1);
    assert row[..16] == row;
    FewFit(row, 2, 8);
    CoalescedUpTo(row, 2, 7);
  }
}
