/** Response time statistics: four ranges of sixteen buckets that follow the load.

    A range covers `begin` to `end` in steps of `2^order`; bucket `b` counts the times up to
    `begin + b * 2^order`.  Ranges widen and narrow as outliers appear. */
module Histogram {
  import opened Bits

  const RANGES := 4
  const BUCKETS := 16
  const RLAST := 3
  const UINT_MAX := 0xFFFF_FFFF
  const MAX_TIME := 0x8000_0000

  datatype Ctl = Ctl(order: nat, begin: nat, end: nat)

  /** (BUCKETS - 1) << order */
  function Span(order: nat): nat {
    (BUCKETS - 1) * Pow2(order)
  }

  predicate CtlOk(c: Ctl) {
    c.begin >= 1 && c.end == c.begin + Span(c.order) && c.end <= UINT_MAX
  }

  /** Ranges in ascending order, without overlap, the first one fixed at 1 ms. */
  predicate Ordered(s: seq<Ctl>) {
    && |s| == RANGES && s[0].begin == 1
    && (forall r :: 0 <= r < RANGES ==> CtlOk(s[r]))
    && s[0].end < s[1].begin && s[1].end < s[2].begin && s[2].end < s[3].begin
  }

  // ---------------------------------------------------------------- sums of counters

  function Sum(s: seq<nat>): nat {
    if s == [] then 0 else s[0] + Sum(s[1..])
  }

  lemma {:induction false} SumConcat(a: seq<nat>, b: seq<nat>)
    ensures Sum(a + b) == Sum(a) + Sum(b)
    decreases a
  {
    if a == [] {
      assert a + b == b;
    } else {
      assert (a + b)[1..] == a[1..] + b;
      SumConcat(a[1..], b);
    }
  }

  lemma {:induction false} SumTwo(s: seq<nat>)
    requires |s| == 2
    ensures Sum(s) == s[0] + s[1]
  {
    assert s[1..][1..] == [];
    assert Sum(s[1..]) == s[1] + Sum(s[1..][1..]);
  }

  lemma {:induction false} SumFour(s: seq<nat>)
    requires |s| == 4
    ensures Sum(s) == s[0] + s[1] + s[2] + s[3]
  {
    SumTwo(s[..2]);
    SumTwo(s[2..]);
    SumConcat(s[..2], s[2..]);
    assert s == s[..2] + s[2..];
  }

  lemma {:induction false} SumEight(s: seq<nat>)
    requires |s| == 8
    ensures Sum(s) == s[0] + s[1] + s[2] + s[3] + s[4] + s[5] + s[6] + s[7]
  {
    SumFour(s[..4]);
    SumFour(s[4..]);
    SumConcat(s[..4], s[4..]);
    assert s == s[..4] + s[4..];
  }

  lemma {:induction false} SumRow(s: seq<nat>)
    requires |s| == BUCKETS
    ensures Sum(s) == Sum(s[..8]) + Sum(s[8..])
  {
    SumConcat(s[..8], s[8..]);
    assert s == s[..8] + s[8..];
  }

  function WithRow(s: seq<nat>, r: nat, row: seq<nat>): seq<nat>
    requires |s| == RANGES * BUCKETS && r < RANGES && |row| == BUCKETS
  {
    s[..BUCKETS * r] + row + s[BUCKETS * r + BUCKETS..]
  }

  function Row(s: seq<nat>, r: nat): (row: seq<nat>)
    requires |s| == RANGES * BUCKETS && r < RANGES
    ensures |row| == BUCKETS
  {
    s[BUCKETS * r..BUCKETS * r + BUCKETS]
  }

  lemma {:induction false} SumWithRow(s: seq<nat>, r: nat, row: seq<nat>)
    requires |s| == RANGES * BUCKETS && r < RANGES && |row| == BUCKETS
    ensures Sum(WithRow(s, r, row)) == Sum(s) - Sum(Row(s, r)) + Sum(row)
  {
    hide Sum;
    var a, b, c := s[..BUCKETS * r], Row(s, r), s[BUCKETS * r + BUCKETS..];
    assert s == (a + b) + c;
    SumConcat(a + b, c);
    SumConcat(a, b);
    SumConcat(a + row, c);
    SumConcat(a, row);
  }

  // ---------------------------------------------------------------- what happens to a row

  /** Neighbours put together in the left half. */
  function Paired(row: seq<nat>): (x: seq<nat>)
    requires |row| == BUCKETS
    ensures |x| == BUCKETS
  {
    seq(BUCKETS, i requires 0 <= i < BUCKETS => if i < 8 then row[2 * i] + row[2 * i + 1] else row[i])
  }

  /** The left half put into the first bucket, each counter of the right half split in two. */
  function Spread(row: seq<nat>): (x: seq<nat>)
    requires |row| == BUCKETS
    ensures |x| == BUCKETS
  {
    seq(BUCKETS, i requires 0 <= i < BUCKETS =>
      (if i == 0 then Sum(row[..8]) else 0) + (if i % 2 == 0 then row[8 + i / 2] / 2 else row[8 + i / 2] - row[8 + i / 2] / 2))
  }

  /** One group put together; more than four counters are added up in 32 bits. */
  function Group(g: seq<nat>): nat {
    if |g| > 4 then Sum(g) % (UINT_MAX + 1) else Sum(g)
  }

  /** The first `k` groups of `units` neighbours put together. */
  function Groups(row: seq<nat>, units: nat, k: nat): (g: seq<nat>)
    requires k * units <= |row|
    ensures |g| == k
  {
    if k == 0 then []
    else
      assert (k - 1) * units + units == k * units;
      Groups(row, units, k - 1) + [Group(row[(k - 1) * units..k * units])]
  }

  /** None of the first `k` groups is too much for 32 bits. */
  predicate GroupsFit(row: seq<nat>, units: nat, k: nat)
    requires k * units <= |row|
  {
    k == 0 || (
      assert (k - 1) * units + units == k * units;
      GroupsFit(row, units, k - 1) && (units <= 4 || Sum(row[(k - 1) * units..k * units]) <= UINT_MAX))
  }

  function Zeros(n: nat): seq<nat> {
    seq(n, _ => 0)
  }

  lemma {:induction false} PairedSum(row: seq<nat>)
    requires |row| == BUCKETS
    ensures Sum(Paired(row)[..8]) == Sum(row)
  {
    hide Sum;
    SumEight(Paired(row)[..8]);
    SumRow(row);
    SumEight(row[..8]);
    SumEight(row[8..]);
  }

  lemma {:induction false} SpreadSum(row: seq<nat>)
    requires |row| == BUCKETS
    ensures Sum(Spread(row)) == Sum(row)
  {
    hide Sum, Spread;
    SumRow(row);
    SumEight(row[8..]);
    SumRow(Spread(row));
    SpreadLeft(row);
    SpreadRight(row);
  }

  lemma SpreadAt(row: seq<nat>, i: nat)
    requires |row| == BUCKETS && i < 8
    ensures Spread(row)[2 * i] == (if i == 0 then Sum(row[..8]) else 0) + row[8 + i] / 2
    ensures Spread(row)[2 * i + 1] == row[8 + i] - row[8 + i] / 2
  {
  }

  lemma SpreadLeft(row: seq<nat>)
    requires |row| == BUCKETS
    ensures Sum(Spread(row)[..8]) == Sum(row[..8]) + row[8] + row[9] + row[10] + row[11]
  {
    hide Sum;
    SumEight(Spread(row)[..8]);
  }

  lemma SpreadRight(row: seq<nat>)
    requires |row| == BUCKETS
    ensures Sum(Spread(row)[8..]) == row[12] + row[13] + row[14] + row[15]
  {
    hide Sum;
    SumEight(Spread(row)[8..]);
  }

  lemma {:induction false} GroupsSum(row: seq<nat>, units: nat, k: nat)
    requires k * units <= |row|
    ensures Sum(Groups(row, units, k)) <= Sum(row[..k * units])
    ensures Sum(Groups(row, units, k)) == Sum(row[..k * units]) <==> GroupsFit(row, units, k)
  {
    hide Sum;
    if k == 0 {
      SumNone();
      assert row[..0] == [];
    } else {
      var m, n := (k - 1) * units, k * units;
      assert m + units == n;
      GroupsSum(row, units, k - 1);
      SumConcat(Groups(row, units, k - 1), [Group(row[m..n])]);
      SumOne(Group(row[m..n]));
      SumConcat(row[..m], row[m..n]);
      assert row[..n] == row[..m] + row[m..n];
    }
  }

  lemma SumOne(x: nat)
    ensures Sum([x]) == x
  {
    assert [x][1..] == [];
  }

  lemma {:induction false} ZerosSum(n: nat)
    ensures Sum(Zeros(n)) == 0
  {
    if n > 0 {
      assert Zeros(n)[1..] == Zeros(n - 1);
      ZerosSum(n - 1);
    }
  }

  lemma ZeroMore(g: seq<nat>, x: seq<nat>, i: nat, n: nat)
    requires i < |x| && x[..i] == g + Zeros(n)
    ensures x[i := 0][..i + 1] == g + Zeros(n + 1)
  {
    assert Zeros(n + 1) == Zeros(n) + [0];
    assert x[i := 0][..i + 1] == x[..i] + [0];
  }

  lemma {:induction false} CoalescedSum(row: seq<nat>, units: nat, parts: nat)
    requires |row| == BUCKETS == parts * units && parts <= BUCKETS
    ensures Sum(Groups(row, units, parts) + Zeros(BUCKETS - parts)) == Sum(row) <==> GroupsFit(row, units, parts)
  {
    hide Sum, Groups, GroupsFit;
    GroupsSum(row, units, parts);
    ZerosSum(BUCKETS - parts);
    SumConcat(Groups(row, units, parts), Zeros(BUCKETS - parts));
    assert row[..BUCKETS] == row;
  }

  // ---------------------------------------------------------------- the histogram

  /** Which bucket of a range counts `t`; what lies in the gap before the range goes to the first. */
  function Bucket(c: Ctl, t: nat): nat {
    if t <= c.begin then 0 else (t - c.begin + (Pow2(c.order) - 1)) / Pow2(c.order)
  }

  lemma BucketCovers(c: Ctl, t: nat)
    requires CtlOk(c) && t <= c.end
    ensures Bucket(c, t) < BUCKETS
    ensures Bucket(c, t) == 0 <==> t <= c.begin
    ensures t > c.begin ==> c.begin + (Bucket(c, t) - 1) * Pow2(c.order) < t <= c.begin + Bucket(c, t) * Pow2(c.order)
  {
    if t > c.begin {
      var p, x := Pow2(c.order), t - c.begin;
      CeilDiv(x, p);
      var q := (x + (p - 1)) / p;
      if q >= BUCKETS { MulGrows(BUCKETS - 1, q - 1, p); }
    }
  }

  lemma MulGrows(a: nat, b: nat, p: nat)
    requires a <= b
    ensures a * p <= b * p
  {
  }

  lemma CeilDiv(x: nat, p: nat)
    requires x > 0 && p > 0
    ensures (x + (p - 1)) / p >= 1 && ((x + (p - 1)) / p - 1) * p < x <= (x + (p - 1)) / p * p
  {
    var y := x + (p - 1);
    var q, m := y / p, y % p;
    assert y == q * p + m;
    assert q == 0 ==> q * p == 0;
    assert (q - 1) * p == q * p - p;
  }

  /** The range that counts a time; what lies beyond all of them goes to the last. */
  function RangeOf(ctl: seq<Ctl>, t: nat): nat
    requires |ctl| == RANGES
  {
    if t <= ctl[0].end then 0 else if t <= ctl[1].end then 1 else if t <= ctl[2].end then 2 else RLAST
  }

  /** The counters with one more hit in the bucket that covers a time. */
  function OneHit(ctl: seq<Ctl>, cnt: seq<nat>, t: nat): (r: seq<nat>)
    requires |ctl| == RANGES && |cnt| == RANGES * BUCKETS
    ensures |r| == |cnt|
  {
    var b := BUCKETS * RangeOf(ctl, t) + Bucket(ctl[RangeOf(ctl, t)], t);
    if b < |cnt| then cnt[b := cnt[b] + 1] else cnt
  }

  /** A time within the ranges that makes no outlier of its bucket; in the first range nobody looks for one. */
  ghost predicate Quiet(ctl: seq<Ctl>, cnt: seq<nat>, t: nat) {
    && |ctl| == RANGES && |cnt| == RANGES * BUCKETS && t <= ctl[RLAST].end
    && (RangeOf(ctl, t) > 0 ==> !Outlier(Row(OneHit(ctl, cnt, t), RangeOf(ctl, t))))
  }

  /** Too many hits lie before range `r`, and the range before it can take in more of the gap. */
  predicate Leaks(c: seq<Ctl>, n: seq<nat>, r: nat)
    requires |c| == RANGES && |n| == RANGES * BUCKETS && 1 <= r < RANGES
  {
    (forall b :: 0 <= b < BUCKETS ==> Row(n, r)[b] <= Row(n, r)[0]) && Grown(c[r - 1]).end < c[r].begin
  }

  /** What each bucket of the right half gets of the hits in the gap. */
  function Share(row: seq<nat>): nat
    requires |row| == BUCKETS
  {
    row[0] / (BUCKETS / 2 + 1)
  }

  /** The row of the range that has grown into the gap. */
  function Shared(left: seq<nat>, share: nat): (x: seq<nat>)
    requires |left| == BUCKETS
    ensures |x| == BUCKETS
  {
    Paired(left)[..BUCKETS / 2] + seq(BUCKETS / 2, _ => share)
  }

  /** The row that has given these hits away. */
  function Lightened(row: seq<nat>): (x: seq<nat>)
    requires |row| == BUCKETS
    ensures |x| == BUCKETS
  {
    row[0 := row[0] - Share(row) * (BUCKETS / 2)]
  }

  /** The answer to an outlier in range `r`: it is narrowed from the left if it can be, and before that the range
      before it grows if the hits leak into the gap. */
  ghost predicate Wormed(c: seq<Ctl>, n: seq<nat>, c': seq<Ctl>, n': seq<nat>, r: nat) {
    && |c| == |c'| == RANGES && |n| == |n'| == RANGES * BUCKETS && 1 <= r < RANGES
    && var left, row := Row(n, r - 1), Row(n, r);
       var given := if Leaks(c, n, r) then Lightened(row) else row;
       && c'[r - 1] == (if Leaks(c, n, r) then Grown(c[r - 1]) else c[r - 1])
       && Row(n', r - 1) == (if Leaks(c, n, r) then Shared(left, Share(row)) else left)
       && if c[r].order == 0 then c'[r] == c[r] && Row(n', r) == given
          else c[r].end >= Span(c[r].order - 1) && c'[r] == Shrunk(c[r]) && Row(n', r) == Spread(given)
  }

  /** The last range with the least order that takes in `t`, neighbours put together. */
  ghost predicate Extended(c: seq<Ctl>, n: seq<nat>, c': seq<Ctl>, n': seq<nat>, t: nat) {
    && |c| == RANGES && |n| == RANGES * BUCKETS
    && if t <= c[RLAST].end then c' == c && n' == n
       else exists o: nat :: IsOrder(c[RLAST], t, o) && ExtendedTo(c, n, c', n', o)
  }

  ghost predicate ExtendedTo(c: seq<Ctl>, n: seq<nat>, c': seq<Ctl>, n': seq<nat>, o: nat)
    requires |c| == RANGES && |n| == RANGES * BUCKETS
  {
    && o > c[RLAST].order && c' == c[RLAST := Ctl(o, c[RLAST].begin, c[RLAST].begin + Span(o))]
    && n' == WithRow(n, RLAST, Coalesced(Row(n, RLAST), Units(o - c[RLAST].order)))
  }

  /** Groups of neighbours put together on the left, nothing on the right. */
  function Coalesced(row: seq<nat>, units: nat): (x: seq<nat>)
    requires |row| == BUCKETS && units in {2, 4, 8, 16}
    ensures |x| == BUCKETS
  {
    Groups(row, units, BUCKETS / units) + Zeros(BUCKETS - BUCKETS / units)
  }

  /** A time within the ranges is counted in its bucket, and an outlier is answered. */
  ghost predicate Settled(c: seq<Ctl>, n: seq<nat>, c': seq<Ctl>, n': seq<nat>, t: nat) {
    && |c| == RANGES && |n| == RANGES * BUCKETS
    && if Quiet(c, n, t) then c' == c && n' == OneHit(c, n, t) else Wormed(c, OneHit(c, n, t), c', n', RangeOf(c, t))
  }

  /** What counting a time makes of ranges and counters. */
  ghost predicate Placed(c: seq<Ctl>, n: seq<nat>, c': seq<Ctl>, n': seq<nat>, t: nat) {
    exists d, m :: Extended(c, n, d, m, t) && Settled(d, m, c', n', t)
  }

  /** Nothing has changed but range `r` and the one before it. */
  ghost predicate Around(c: seq<Ctl>, n: seq<nat>, c': seq<Ctl>, n': seq<nat>, r: nat) {
    && |c| == |c'| == RANGES && |n| == |n'| == RANGES * BUCKETS
    && forall q :: 0 <= q < RANGES && q != r && q + 1 != r ==> c'[q] == c[q] && Row(n', q) == Row(n, q)
  }

  lemma AroundTrans(c: seq<Ctl>, n: seq<nat>, c1: seq<Ctl>, n1: seq<nat>, c2: seq<Ctl>, n2: seq<nat>, r: nat)
    requires Around(c, n, c1, n1, r) && Around(c1, n1, c2, n2, r)
    ensures Around(c, n, c2, n2, r)
  {
    hide Row;
  }

  lemma AroundRow(c: seq<Ctl>, n: seq<nat>, r: nat, q: nat, pc: Ctl, row: seq<nat>)
    requires |c| == RANGES && |n| == RANGES * BUCKETS && r < RANGES && (q == r || q + 1 == r) && |row| == BUCKETS
    ensures Around(c, n, c[q := pc], WithRow(n, q, row), r)
  {
    hide WithRow, Row;
    RowBack(n, q, row);
    forall p | 0 <= p < RANGES && p != q ensures |WithRow(n, q, row)| == |n| && Row(WithRow(n, q, row), p) == Row(n, p) { RowOther(n, q, row, p); }
  }

  lemma SameAround(c: seq<Ctl>, n: seq<nat>)
    requires |c| == RANGES && |n| == RANGES * BUCKETS
    ensures forall r :: Around(c, n, c, n, r)
  {
  }

  /** The three rows written when the left neighbour grows. */
  lemma AroundShare(c: seq<Ctl>, n: seq<nat>, r: nat, pc: Ctl, paired: seq<nat>, right: seq<nat>, x: seq<nat>)
    requires |c| == RANGES && |n| == RANGES * BUCKETS && 1 <= r < RANGES && |paired| == |right| == |x| == BUCKETS
    ensures |WithRow(n, r - 1, paired)| == |n| && |WithRow(WithRow(n, r - 1, paired), r, right)| == |n|
    ensures Around(c, n, c[r - 1 := pc], WithRow(WithRow(WithRow(n, r - 1, paired), r, right), r - 1, x), r)
  {
    var n1 := WithRow(n, r - 1, paired);
    RowBack(n, r - 1, paired);
    var n2 := WithRow(n1, r, right);
    RowBack(n1, r, right);
    hide WithRow, Around, Row;
    var c1 := c[r - 1 := pc];
    AroundRow(c, n, r, r - 1, pc, paired);
    AroundRow(c1, n1, r, r, c1[r], right);
    assert c1[r := c1[r]] == c1;
    AroundRow(c1, n2, r, r - 1, pc, x);
    assert c1[r - 1 := pc] == c1;
    AroundTrans(c, n, c1, n1, c1, n2, r);
    AroundTrans(c, n, c1, n2, c1, WithRow(n2, r - 1, x), r);
  }

  lemma AroundHit(c: seq<Ctl>, n: seq<nat>, r: nat, b: nat, v: nat)
    requires |c| == RANGES && |n| == RANGES * BUCKETS && r < RANGES && b < BUCKETS
    ensures Around(c, n, c, n[BUCKETS * r + b := v], r)
  {
    var row := Row(n, r);
    RowSelf(n, r);
    RowSet(n, r, row, b, v);
    AroundRow(c, n, r, r, c[r], row[b := v]);
    hide WithRow, Row, Around;
    assert c[r := c[r]] == c;
  }

  lemma AroundLast(c: seq<Ctl>, n: seq<nat>, c': seq<Ctl>, n': seq<nat>)
    requires |c| == |c'| == RANGES && |n| == |n'| == RANGES * BUCKETS
    requires c'[..RLAST] == c[..RLAST] && n'[..BUCKETS * RLAST] == n[..BUCKETS * RLAST]
    ensures Around(c, n, c', n', RLAST)
  {
    forall q | 0 <= q < RLAST ensures c'[q] == c[q] && Row(n', q) == Row(n, q) {
      assert c'[..RLAST][q] == c[..RLAST][q];
      RowOfPart(n, q);
      RowOfPart(n', q);
    }
  }

  lemma RowOfPart(n: seq<nat>, q: nat)
    requires |n| == RANGES * BUCKETS && q < RLAST
    ensures BUCKETS * q + BUCKETS <= BUCKETS * RLAST && Row(n, q) == n[..BUCKETS * RLAST][BUCKETS * q..BUCKETS * q + BUCKETS]
  {
    var lo, hi := BUCKETS * q, BUCKETS * q + BUCKETS;
    var part := n[..BUCKETS * RLAST][lo..hi];
    assert |part| == |Row(n, q)|;
    forall i | 0 <= i < BUCKETS ensures part[i] == Row(n, q)[i] { assert part[i] == n[lo + i]; }
  }

  class PcntRanges {
    const ctl: array<Ctl>
    const cnt: array<nat>   // RANGES rows of BUCKETS counters
    var totCnt: nat
    var totVal: nat
    var minVal: nat
    var maxVal: nat

    ghost var samples: seq<nat>   // the times counted since the last reset

    ghost predicate Shaped()
      reads this, ctl
    {
      ctl.Length == RANGES && cnt.Length == RANGES * BUCKETS && Ordered(ctl[..])
    }

    /** Ranges in order, exact totals and bounds. */
    ghost predicate Totalled()
      reads this, ctl
    {
      && Shaped() && totCnt == |samples| && totVal == Sum(samples)
      && minVal == Least(samples) && maxVal == Greatest(samples)
      && forall i :: 0 <= i < |samples| ==> samples[i] <= UINT_MAX
    }

    /** The invariant of every run: also no hit lost or invented. */
    ghost predicate Valid()
      reads this, ctl, cnt
    {
      Totalled() && Sum(cnt[..]) == totCnt
    }

    /** Counting `rTime` makes 32-bit sums wrap. */
    ghost predicate Wraps(rTime: nat)
      requires Shaped()
      reads this, ctl, cnt
    {
      WrapsRow(ctl[RLAST], Row(cnt[..], RLAST), rTime)
    }

    constructor ()
      ensures Valid() && samples == [] && ctl[..] == INITIAL && cnt[..] == Zeros(RANGES * BUCKETS) && fresh(ctl) && fresh(cnt)
    {
      ctl := new Ctl[RANGES][Ctl(0, 1, 16), Ctl(1, 17, 47), Ctl(2, 48, 108), Ctl(4, 109, 349)];
      cnt := new nat[RANGES * BUCKETS](_ => 0);
      totCnt, totVal, minVal, maxVal, samples := 0, 0, UINT_MAX, 0, [];
      new;
      ZerosSum(RANGES * BUCKETS);
      assert cnt[..] == Zeros(RANGES * BUCKETS);
      assert ctl[..] == INITIAL;
      InitialOk();
    }

    /** Start counting anew; the ranges stay where they are. */
    method Reset()
      requires Totalled()
      modifies this, cnt
      ensures Valid() && samples == [] && ctl[..] == old(ctl[..])
    {
      hide Ordered;
      for i := 0 to cnt.Length
        invariant forall k :: 0 <= k < i ==> cnt[k] == 0
        invariant ctl[..] == old(ctl[..])
      {
        cnt[i] := 0;
      }
      totCnt, totVal, minVal, maxVal, samples := 0, 0, UINT_MAX, 0, [];
      ZerosSum(RANGES * BUCKETS);
      assert cnt[..] == Zeros(RANGES * BUCKETS);
    }

    /** Count one response time.  It is refused, where the code gives up, exactly if no order fits it; no
        hit is lost exactly if no 32-bit sum wraps. */
    method Update(rTime: nat) returns (ok: bool)
      requires Totalled() && rTime <= UINT_MAX
      modifies this, ctl, cnt
      ensures ok <==> old(Fits(ctl[RLAST], rTime))
      ensures ok ==> Totalled() && samples == old(samples) + [rTime]
      ensures ok && old(Valid()) ==> (Valid() <==> !old(Wraps(rTime)))
      ensures !ok ==> unchanged(this, ctl, cnt)
      ensures old(Quiet(ctl[..], cnt[..], rTime)) ==> ctl[..] == old(ctl[..]) && cnt[..] == OneHit(old(ctl[..]), old(cnt[..]), rTime)
      ensures ok ==> Placed(old(ctl[..]), old(cnt[..]), ctl[..], cnt[..], rTime)
      ensures ok ==> Around(old(ctl[..]), old(cnt[..]), ctl[..], cnt[..], RangeOf(old(ctl[..]), rTime))
    {
      hide Ordered, Sum, Least, Greatest, Outlier, Fits, WrapsRow, Quiet, OneHit, Around, RangeOf, Placed;
      ok := Place(rTime);
      if !ok {
        return;
      }
      SamplesNext(samples, rTime);
      samples := samples + [rTime];
      if rTime < minVal {
        var first := minVal == UINT_MAX;
        minVal := rTime;
        if first && rTime > maxVal {
          maxVal := rTime;
        }
      } else if rTime > maxVal {
        maxVal := rTime;
      }
      totVal := totVal + rTime;
      totCnt := totCnt + 1;
    }

    /** Find the range, extend the last one if need be, count the hit and adjust. */
    method Place(rTime: nat) returns (ok: bool)
      requires Shaped() && rTime <= UINT_MAX
      modifies ctl, cnt
      ensures ok <==> old(Fits(ctl[RLAST], rTime))
      ensures ok ==> Shaped() && (Sum(cnt[..]) == old(Sum(cnt[..])) + 1 <==> !old(Wraps(rTime)))
      ensures !ok ==> unchanged(ctl, cnt)
      ensures old(Quiet(ctl[..], cnt[..], rTime)) ==> ctl[..] == old(ctl[..]) && cnt[..] == OneHit(old(ctl[..]), old(cnt[..]), rTime)
      ensures ok ==> Placed(old(ctl[..]), old(cnt[..]), ctl[..], cnt[..], rTime)
      ensures ok ==> Around(old(ctl[..]), old(cnt[..]), ctl[..], cnt[..], RangeOf(old(ctl[..]), rTime))
    {
      hide Sum, Outlier, Span, Fits, WrapsRow, Around, Row, Bucket, Extended, Settled, Wormed, Quiet, OneHit;
      ok := true;
      NoExtension(ctl[RLAST], Row(cnt[..], RLAST), rTime);
      SameAround(ctl[..], cnt[..]);
      NotExtended(ctl[..], cnt[..], rTime);
      QuietWithin(ctl[..], cnt[..], rTime);
      var r := RLAST;
      if rTime <= ctl[2].end {
        if rTime > ctl[1].end {
          r := 2;
        } else {
          // the left bound is never moved
          assert ctl[0].begin == 1;
          r := if rTime > ctl[0].end then 1 else 0;
        }
      } else if rTime > ctl[RLAST].end {
        ok := Extend(rTime);
        if !ok {
          return;
        }
        AroundLast(old(ctl[..]), old(cnt[..]), ctl[..], cnt[..]);
      }
      ghost var d, m := ctl[..], cnt[..];
      assert d[..RLAST] == old(ctl[..RLAST]);
      assert r == RangeOf(d, rTime) == RangeOf(old(ctl[..]), rTime) by { assert forall q :: 0 <= q < RLAST ==> d[q] == d[..RLAST][q] == old(ctl[..RLAST])[q]; }
      Count(r, rTime);
      AroundTrans(old(ctl[..]), old(cnt[..]), d, m, ctl[..], cnt[..], r);
      CountSettled(d, m, ctl[..], cnt[..], rTime);
      QuietKept(old(ctl[..]), old(cnt[..]), d, m, ctl[..], cnt[..], rTime);
    }

    /** Count a hit in range `r` and adjust it; the first one is never adjusted. */
    method Count(r: nat, rTime: nat)
      requires Shaped() && r < RANGES && rTime <= ctl[r].end
      modifies ctl, cnt
      ensures Bucket(old(ctl[r]), rTime) < BUCKETS
      ensures Shaped() && Sum(cnt[..]) == old(Sum(cnt[..])) + 1
      ensures Around(old(ctl[..]), old(cnt[..]), ctl[..], cnt[..], r)
      ensures var b := BUCKETS * r + Bucket(old(ctl[r]), rTime); var hit := old(cnt[..])[b := old(cnt[b]) + 1];
        if r == 0 || !Outlier(Row(hit, r)) then ctl[..] == old(ctl[..]) && cnt[..] == hit
        else Wormed(old(ctl[..]), hit, ctl[..], cnt[..], r)
    {
      hide Sum, Outlier, Ordered, Around, Row, Bucket, Wormed;
      Hit(r, rTime);
      ghost var m := cnt[..];
      if r > 0 {
        Adjust(r);
        AroundTrans(old(ctl[..]), old(cnt[..]), old(ctl[..]), m, ctl[..], cnt[..], r);
      }
    }

    /** Count a hit in the bucket of range `r` that covers `rTime`. */
    method Hit(r: nat, rTime: nat)
      requires Shaped() && r < RANGES && rTime <= ctl[r].end
      modifies cnt
      ensures Bucket(ctl[r], rTime) < BUCKETS
      ensures var b := BUCKETS * r + Bucket(ctl[r], rTime); cnt[..] == old(cnt[..])[b := old(cnt[b]) + 1]
      ensures Sum(cnt[..]) == old(Sum(cnt[..])) + 1 && Sum(Row(cnt[..], r)) > 0
      ensures ctl[..] == old(ctl[..]) && Around(old(ctl[..]), old(cnt[..]), ctl[..], cnt[..], r)
    {
      hide Sum, WithRow, Around;
      BucketCovers(ctl[r], rTime);
      var b := Bucket(ctl[r], rTime);
      ghost var all, row := cnt[..], Row(cnt[..], r);
      RowSelf(all, r);
      RowSet(all, r, row, b, row[b] + 1);
      SumAt(row, b, row[b] + 1);
      SumWithRow(all, r, row[b := row[b] + 1]);
      RowBack(all, r, row[b := row[b] + 1]);
      cnt[BUCKETS * r + b] := cnt[BUCKETS * r + b] + 1;
      assert cnt[..] == all[BUCKETS * r + b := row[b] + 1];
      AroundHit(ctl[..], all, r, b, row[b] + 1);
    }

    /** Write one counter of a row. */
    method Set(r: nat, b: nat, v: nat, ghost all: seq<nat>, ghost row: seq<nat>)
      requires r < RANGES && b < BUCKETS && |all| == RANGES * BUCKETS && |row| == BUCKETS && cnt[..] == WithRow(all, r, row)
      modifies cnt
      ensures cnt[..] == WithRow(all, r, row[b := v])
    {
      RowSet(all, r, row, b, v);
      ghost var was := cnt[..];
      cnt[BUCKETS * r + b] := v;
      assert cnt[..] == was[BUCKETS * r + b := v];
    }

    method Get(r: nat, b: nat, ghost all: seq<nat>, ghost row: seq<nat>) returns (v: nat)
      requires r < RANGES && b < BUCKETS && |all| == RANGES * BUCKETS && |row| == BUCKETS && cnt[..] == WithRow(all, r, row)
      ensures v == row[b]
    {
      RowAt(all, r, row, b);
      assert cnt[..][BUCKETS * r + b] == row[b];
      v := cnt[BUCKETS * r + b];
    }

    /** Widen a range to the right by one order and put neighbours together. */
    method GrowRight(r: nat)
      requires Shaped() && r < RANGES
      modifies ctl, cnt
      ensures ctl[..] == old(ctl[..])[r := Grown(old(ctl[r]))]
      ensures cnt[..] == WithRow(old(cnt[..]), r, Paired(Row(old(cnt[..]), r)))
    {
      hide Ordered, WithRow, Span;
      var pc := ctl[r];
      ctl[r] := Ctl(pc.order + 1, pc.begin, pc.begin + Span(pc.order + 1));
      ghost var all, row := cnt[..], Row(cnt[..], r);
      ghost var x: seq<nat> := row;
      RowSelf(all, r);
      for i := 0 to BUCKETS / 2
        invariant |x| == BUCKETS && cnt[..] == WithRow(all, r, x)
        invariant forall k :: 0 <= k < i ==> x[k] == Paired(row)[k]
        invariant forall k :: i <= k < BUCKETS ==> x[k] == row[k]
        invariant ctl[..] == old(ctl[..])[r := Grown(pc)]
      {
        var a := Get(r, 2 * i, all, x);
        var b := Get(r, 2 * i + 1, all, x);
        Set(r, i, a + b, all, x);
        x := x[i := a + b];
      }
      assert x == Paired(row);
    }

    /** Narrow a range from the left by one order and split the counters of its right half. */
    method ShrinkLeft(r: nat)
      requires Shaped() && r < RANGES && ctl[r].order > 0
      modifies ctl, cnt
      ensures old(ctl[r].end) >= Span(old(ctl[r].order) - 1) && ctl[..] == old(ctl[..])[r := Shrunk(old(ctl[r]))]
      ensures cnt[..] == WithRow(old(cnt[..]), r, Spread(Row(old(cnt[..]), r)))
    {
      hide Ordered, CtlOk, Span, WithRow, Spread;
      var pc := ctl[r];
      RoomLeft(ctl[..], r);
      ctl[r] := Ctl(pc.order - 1, pc.end - Span(pc.order - 1), pc.end);
      SplitRow(r);
    }

    method SplitRow(r: nat)
      requires r < RANGES && cnt.Length == RANGES * BUCKETS
      modifies cnt
      ensures cnt[..] == WithRow(old(cnt[..]), r, Spread(Row(old(cnt[..]), r)))
    {
      hide WithRow, Sum, Spread;
      ghost var all, row := cnt[..], Row(cnt[..], r);
      ghost var x: seq<nat> := row;
      RowSelf(all, r);
      SumOne(row[0]);
      assert row[..1] == [row[0]] && x == row[0 := Sum(row[..1])];
      for i := 1 to BUCKETS / 2
        invariant |x| == BUCKETS && cnt[..] == WithRow(all, r, x) && x == row[0 := Sum(row[..i])]
      {
        SumPrefix(row, i);
        var a := Get(r, 0, all, x);
        var b := Get(r, i, all, x);
        Set(r, 0, a + b, all, x);
        x := x[0 := a + b];
      }
      SplitRight(r, all, row);
    }

    method SplitRight(r: nat, ghost all: seq<nat>, ghost row: seq<nat>)
      requires r < RANGES && |all| == RANGES * BUCKETS && |row| == BUCKETS
      requires cnt[..] == WithRow(all, r, row[0 := Sum(row[..8])])
      modifies cnt
      ensures cnt[..] == WithRow(all, r, Spread(row))
    {
      hide WithRow, Sum, Spread;
      ghost var x: seq<nat> := row[0 := Sum(row[..8])];
      SpreadAt(row, 0);
      var full := Get(r, 8, all, x);
      var half := full / 2;
      var a := Get(r, 0, all, x);
      Set(r, 0, a + half, all, x);
      x := x[0 := a + half];
      Set(r, 1, full - half, all, x);
      x := x[1 := full - half];
      for i := 1 to BUCKETS / 2
        invariant |x| == BUCKETS && cnt[..] == WithRow(all, r, x)
        invariant forall k :: 0 <= k < 2 * i ==> x[k] == Spread(row)[k]
        invariant forall k :: 8 + i <= k < BUCKETS ==> x[k] == row[k]
      {
        SpreadAt(row, i);
        full := Get(r, 8 + i, all, x);
        half := full / 2;
        Set(r, 2 * i, half, all, x);
        x := x[2 * i := half];
        Set(r, 2 * i + 1, full - half, all, x);
        x := x[2 * i + 1 := full - half];
      }
      assert x == Spread(row);
    }

    /** Widen the last range until it takes in `rTime`. */
    method Extend(rTime: nat) returns (ok: bool)
      requires Shaped() && ctl[RLAST].end < rTime <= UINT_MAX
      modifies ctl, cnt
      ensures ok <==> old(Fits(ctl[RLAST], rTime))
      ensures ok ==> Shaped() && rTime <= ctl[RLAST].end && (Sum(cnt[..]) == old(Sum(cnt[..])) <==> !old(Wraps(rTime)))
      ensures ok ==> ctl[..RLAST] == old(ctl[..RLAST]) && ctl[RLAST].begin == old(ctl[RLAST].begin)
      ensures ok ==> cnt[..BUCKETS * RLAST] == old(cnt[..BUCKETS * RLAST])
      ensures ok ==> Extended(old(ctl[..]), old(cnt[..]), ctl[..], cnt[..], rTime)
      ensures !ok ==> unchanged(ctl, cnt)
    {
      hide Ordered, Span, Pow2, WithRow, Sum, Fits, WrapsRow, IsOrder, Coalesced;
      var pc := ctl[RLAST];
      LastOk(ctl[..]);
      var order, end := FindOrder(pc, rTime);
      ok := end <= UINT_MAX;
      if !ok {
        return;
      }
      OrderIs(pc, rTime, order);
      var units := Units(order - pc.order);
      var parts := BUCKETS / units;
      WrapsAt(pc, Row(cnt[..], RLAST), rTime, order);
      ctl[RLAST] := Ctl(order, pc.begin, end);
      ghost var c := old(ctl[..])[RLAST := Ctl(order, pc.begin, end)];
      assert ctl[..] == c && cnt[..] == old(cnt[..]);
      Coalesce(units, parts);
      LastMoved(old(ctl[..]), Ctl(order, pc.begin, end));
      assert ctl[..] == c && c[..RLAST] == old(ctl[..])[..RLAST];
      assert ExtendedTo(old(ctl[..]), old(cnt[..]), ctl[..], cnt[..], order);
    }

    /** Put groups of `units` neighbours of the last row together and clear the rest. */
    method Coalesce(units: nat, parts: nat)
      requires cnt.Length == RANGES * BUCKETS
      requires (units, parts) in {(2, 8), (4, 4), (8, 2), (16, 1)}
      modifies cnt
      ensures Sum(cnt[..]) == old(Sum(cnt[..])) <==> GroupsFit(old(Row(cnt[..], RLAST)), units, parts)
      ensures cnt[..BUCKETS * RLAST] == old(cnt[..BUCKETS * RLAST])
      ensures cnt[..] == WithRow(old(cnt[..]), RLAST, Coalesced(old(Row(cnt[..], RLAST)), units))
    {
      hide WithRow, Sum, Groups, GroupsFit;
      ghost var all, row := cnt[..], Row(cnt[..], RLAST);
      ghost var x: seq<nat> := row;
      RowSelf(all, RLAST);
      GroupsStart(row, units);
      for i := 0 to parts
        invariant |x| == BUCKETS && cnt[..] == WithRow(all, RLAST, x)
        invariant i * units <= BUCKETS && x[..i] == Groups(row, units, i)
        invariant forall k :: i <= k < BUCKETS ==> x[k] == row[k]
      {
        assert i * units + units == (i + 1) * units && i <= i * units;
        var sum := GroupSum(i, units, all, row, x);
        Set(RLAST, i, sum, all, x);
        GroupsNext(row, units, i);
        x := x[i := sum];
      }
      for i := parts to BUCKETS
        invariant |x| == BUCKETS && cnt[..] == WithRow(all, RLAST, x)
        invariant x[..i] == Groups(row, units, parts) + Zeros(i - parts)
      {
        Set(RLAST, i, 0, all, x);
        ZeroMore(Groups(row, units, parts), x, i, i - parts);
        x := x[i := 0];
      }
      assert x[..BUCKETS] == x;
      CoalescedSum(row, units, parts);
      SumWithRow(all, RLAST, x);
      RowPrefix(all, RLAST, x);
    }

    /** Sum one group; more than four counters are added up in 32 bits. */
    method GroupSum(i: nat, units: nat, ghost all: seq<nat>, ghost row: seq<nat>, ghost x: seq<nat>) returns (sum: nat)
      requires |all| == RANGES * BUCKETS && |row| == |x| == BUCKETS && cnt[..] == WithRow(all, RLAST, x)
      requires units in {2, 4, 8, 16} && i * units + units <= BUCKETS && i <= i * units
      requires forall k :: i <= k < BUCKETS ==> x[k] == row[k]
      ensures sum == Group(row[i * units..i * units + units])
    {
      hide WithRow, Sum;
      var lo := i * units;
      ghost var group := row[lo..lo + units];
      if units == 2 {
        SumTwo(group);
        var a := Get(RLAST, lo, all, x);
        var b := Get(RLAST, lo + 1, all, x);
        sum := a + b;
      } else if units == 4 {
        SumFour(group);
        var a := Get(RLAST, lo, all, x);
        var b := Get(RLAST, lo + 1, all, x);
        var c := Get(RLAST, lo + 2, all, x);
        var d := Get(RLAST, lo + 3, all, x);
        sum := a + b + c + d;
      } else {
        SumNone();
        assert row[lo..lo] == [];
        sum := 0;
        for b := lo to lo + units
          invariant sum == Sum(row[lo..b]) % (UINT_MAX + 1)
        {
          SumSlice(row, lo, b);
          var c := Get(RLAST, b, all, x);
          AddWrapped(Sum(row[lo..b]), c);
          sum := (sum + c) % (UINT_MAX + 1);
        }
      }
    }

    /** Sum, number of used buckets and first largest bucket of a row. */
    method Scan(r: nat) returns (sum: nat, used: nat, max: nat, iMax: nat)
      requires r < RANGES && cnt.Length == RANGES * BUCKETS
      ensures var row := Row(cnt[..], r);
        && sum == Sum(row) && used == Used(row) && iMax < BUCKETS && row[iMax] == max
        && (forall b :: 0 <= b < BUCKETS ==> row[b] <= max) && (forall b :: 0 <= b < iMax ==> row[b] < max)
    {
      hide WithRow, Sum, Used;
      ghost var all, row := cnt[..], Row(cnt[..], r);
      RowSelf(all, r);
      SumNone();
      UsedNone();
      assert row[..0] == [];
      sum, used, max, iMax := 0, 0, 0, 0;
      for i := 0 to BUCKETS
        invariant sum == Sum(row[..i]) && used == Used(row[..i]) && iMax < BUCKETS
        invariant forall b :: 0 <= b < i ==> row[b] <= max
        invariant if max == 0 then iMax == 0 else iMax < i && row[iMax] == max && forall b :: 0 <= b < iMax ==> row[b] < max
      {
        SumPrefix(row, i);
        UsedPrefix(row, i);
        var c := Get(r, i, all, row);
        if c > 0 {
          sum := sum + c;
          used := used + 1;
        }
        if max < c {
          max, iMax := c, i;
        }
      }
      assert row[..BUCKETS] == row;
    }

    /** Widen the range before `r` into the gap and move a share of the hits of bucket 0 there. */
    method GrowIntoGap(r: nat, max: nat)
      requires Shaped() && 1 <= r < RANGES && max == Row(cnt[..], r)[0]
      modifies ctl, cnt
      ensures ctl[..] == old(ctl[..])[r - 1 := Grown(old(ctl[r - 1]))]
      ensures Sum(cnt[..]) == old(Sum(cnt[..])) && Around(old(ctl[..]), old(cnt[..]), ctl[..], cnt[..], r)
      ensures Row(cnt[..], r) == Lightened(old(Row(cnt[..], r)))
      ensures Row(cnt[..], r - 1) == Shared(old(Row(cnt[..], r - 1)), Share(old(Row(cnt[..], r))))
    {
      hide WithRow, Sum, Paired, Ordered, Grown, Around;
      ghost var all0, left := cnt[..], Row(cnt[..], r - 1);
      GrowRight(r - 1);
      ghost var c1, all1, right := ctl[..], cnt[..], Row(cnt[..], r);
      RowOther(all0, r - 1, Paired(left), r);
      RowSelf(all1, r);
      var share := max / (BUCKETS / 2 + 1);
      var first := Get(r, 0, all1, right);
      Set(r, 0, first - share * (BUCKETS / 2), all1, right);
      ghost var right' := right[0 := first - share * (BUCKETS / 2)];
      ghost var all2 := cnt[..];
      RowOther(all1, r, right', r - 1);
      RowBack(all0, r - 1, Paired(left));
      RowSelf(all2, r - 1);
      ghost var x: seq<nat> := Paired(left);
      for i := BUCKETS / 2 to BUCKETS
        invariant |x| == BUCKETS && cnt[..] == WithRow(all2, r - 1, x)
        invariant x[..8] == Paired(left)[..8] && forall k :: 8 <= k < i ==> x[k] == share
        invariant ctl[..] == c1
      {
        Set(r - 1, i, share, all2, x);
        x := x[i := share];
      }
      ShareSums(all0, all1, all2, r, left, right, right', x, share);
      AroundShare(old(ctl[..]), all0, r, c1[r - 1], Paired(left), right', x);
      RowBack(all1, r, right');
      RowBack(all2, r - 1, x);
      RowOther(all2, r - 1, x, r);
      assert x == Shared(left, share) by { assert x == x[..8] + x[8..]; }
    }

    /** Look for an outlier in range `r`; if there is one, worm the ranges to the right. */
    method Adjust(r: nat)
      requires Shaped() && 1 <= r < RANGES && Sum(Row(cnt[..], r)) > 0
      modifies ctl, cnt
      ensures Shaped() && Sum(cnt[..]) == old(Sum(cnt[..]))
      ensures if !Outlier(Row(old(cnt[..]), r)) then ctl[..] == old(ctl[..]) && cnt[..] == old(cnt[..])
              else Wormed(old(ctl[..]), old(cnt[..]), ctl[..], cnt[..], r)
      ensures Around(old(ctl[..]), old(cnt[..]), ctl[..], cnt[..], r)
    {
      hide WithRow, Sum, Used, Ordered, Span, Paired, Spread, Around;
      SameAround(ctl[..], cnt[..]);
      var sum, used, max, iMax := Scan(r);
      UsedSum(Row(cnt[..], r));
      // some bucket is in use
      assert used > 0;
      if max <= sum * 2 / used {
        return;
      }
      ghost var all := cnt[..];
      var pc, prepc := ctl[r], ctl[r - 1];
      var prend := prepc.begin + Span(prepc.order + 1);
      assert Leaks(ctl[..], all, r) <==> iMax == 0 && prend < pc.begin;
      if iMax == 0 && prend < pc.begin {
        GrowKeeps(ctl[..], r);
        GrowIntoGap(r, max);
      }
      if ctl[r].order > 0 {
        ShrinkKeeps(ctl[..], r);
        SpreadSum(Row(cnt[..], r));
        SumWithRow(cnt[..], r, Spread(Row(cnt[..], r)));
        ghost var c1, n1 := ctl[..], cnt[..];
        ShrinkLeft(r);
        RowBack(n1, r, Spread(Row(n1, r)));
        RowOther(n1, r, Spread(Row(n1, r)), r - 1);
        AroundRow(c1, n1, r, r, ctl[r], Spread(Row(n1, r)));
        AroundTrans(old(ctl[..]), old(cnt[..]), c1, n1, ctl[..], cnt[..], r);
      }
    }
  }

  const INITIAL := [Ctl(0, 1, 16), Ctl(1, 17, 47), Ctl(2, 48, 108), Ctl(4, 109, 349)]

  lemma InitialOk()
    ensures Ordered(INITIAL)
  {
    assert Pow2(0) == 1 && Pow2(1) == 2 && Pow2(2) == 4 && Pow2(4) == 16;
  }

  function Least(s: seq<nat>): nat {
    if s == [] then UINT_MAX else if s[|s| - 1] < Least(s[..|s| - 1]) then s[|s| - 1] else Least(s[..|s| - 1])
  }

  function Greatest(s: seq<nat>): nat {
    if s == [] then 0 else if s[|s| - 1] > Greatest(s[..|s| - 1]) then s[|s| - 1] else Greatest(s[..|s| - 1])
  }

  lemma {:induction false} SamplesNext(s: seq<nat>, t: nat)
    requires t <= UINT_MAX && forall i :: 0 <= i < |s| ==> s[i] <= UINT_MAX
    ensures Sum(s + [t]) == Sum(s) + t
    ensures Least(s + [t]) == if t < Least(s) then t else Least(s)
    ensures Greatest(s + [t]) == if t > Greatest(s) then t else Greatest(s)
    ensures s != [] ==> Least(s) <= Greatest(s)
    ensures s == [] ==> Least(s) == UINT_MAX && Greatest(s) == 0
  {
    SumConcat(s, [t]);
    SumOne(t);
    assert (s + [t])[..|s|] == s;
    Bounds(s);
  }

  lemma {:induction false} Bounds(s: seq<nat>)
    requires forall i :: 0 <= i < |s| ==> s[i] <= UINT_MAX
    ensures s != [] ==> Least(s) <= Greatest(s)
  {
    if |s| > 1 { Bounds(s[..|s| - 1]); }
  }

  lemma {:induction false} SumAt(s: seq<nat>, i: nat, v: nat)
    requires i < |s|
    ensures Sum(s[i := v]) == Sum(s) - s[i] + v && Sum(s[i := v]) >= v
  {
    var a, c := s[..i], s[i + 1..];
    assert s == (a + [s[i]]) + c && s[i := v] == (a + [v]) + c;
    SumConcat(a + [s[i]], c);
    SumConcat(a, [s[i]]);
    SumConcat(a + [v], c);
    SumConcat(a, [v]);
    SumOne(s[i]);
    SumOne(v);
  }

  function Used(row: seq<nat>): nat {
    if row == [] then 0 else Used(row[..|row| - 1]) + if row[|row| - 1] > 0 then 1 else 0
  }

  /** Some bucket has more than twice the average of the used ones. */
  predicate Outlier(row: seq<nat>) {
    Used(row) > 0 && exists b :: 0 <= b < |row| && row[b] > Sum(row) * 2 / Used(row)
  }

  lemma UsedNone()
    ensures Used([]) == 0
  {
  }

  lemma UsedPrefix(row: seq<nat>, i: nat)
    requires i < |row|
    ensures Used(row[..i + 1]) == Used(row[..i]) + if row[i] > 0 then 1 else 0
  {
    assert row[..i + 1][..i] == row[..i];
  }

  lemma {:induction false} UsedSum(row: seq<nat>)
    ensures Sum(row) > 0 ==> Used(row) > 0
    decreases row
  {
    if row != [] {
      var n := |row| - 1;
      SumPrefix(row, n);
      assert row[..n + 1] == row;
      UsedSum(row[..n]);
    }
  }

  lemma RowOther(all: seq<nat>, r: nat, row: seq<nat>, q: nat)
    requires |all| == RANGES * BUCKETS && r < RANGES && |row| == BUCKETS && q < RANGES && q != r
    ensures |WithRow(all, r, row)| == |all| && Row(WithRow(all, r, row), q) == Row(all, q)
  {
  }

  lemma RowBack(all: seq<nat>, r: nat, row: seq<nat>)
    requires |all| == RANGES * BUCKETS && r < RANGES && |row| == BUCKETS
    ensures |WithRow(all, r, row)| == |all| && Row(WithRow(all, r, row), r) == row
  {
  }

  lemma {:induction false} ShareSums(all0: seq<nat>, all1: seq<nat>, all2: seq<nat>, r: nat, left: seq<nat>, right: seq<nat>, right': seq<nat>,
                  x: seq<nat>, share: nat)
    requires |all0| == |all1| == |all2| == RANGES * BUCKETS && 1 <= r < RANGES && |left| == |right| == |x| == BUCKETS
    requires left == Row(all0, r - 1) && all1 == WithRow(all0, r - 1, Paired(left)) && right == Row(all0, r)
    requires right[0] >= 8 * share && right' == right[0 := right[0] - 8 * share] && all2 == WithRow(all1, r, right')
    requires x[..8] == Paired(left)[..8] && forall k :: 8 <= k < BUCKETS ==> x[k] == share
    ensures Sum(WithRow(all2, r - 1, x)) == Sum(all0)
  {
    hide WithRow, Sum, Paired;
    RowOther(all0, r - 1, Paired(left), r);
    RowBack(all0, r - 1, Paired(left));
    RowOther(all1, r, right', r - 1);
    SumWithRow(all0, r - 1, Paired(left));
    SumWithRow(all1, r, right');
    SumWithRow(all2, r - 1, x);
    SumFirst(right, right[0] - 8 * share);
    PairedSum(left);
    SumRow(x);
    SumEight(x[8..]);
  }

  lemma SumFirst(s: seq<nat>, v: nat)
    requires s != []
    ensures Sum(s[0 := v]) == Sum(s) - s[0] + v
  {
    assert s[0 := v][1..] == s[1..];
  }

  lemma GrowKeeps(s: seq<Ctl>, r: nat)
    requires Ordered(s) && 1 <= r < RANGES && Grown(s[r - 1]).end < s[r].begin
    ensures Ordered(s[r - 1 := Grown(s[r - 1])])
  {
  }

  lemma ShrinkKeeps(s: seq<Ctl>, r: nat)
    requires Ordered(s) && 1 <= r < RANGES && s[r].order > 0
    ensures s[r].end >= Span(s[r].order - 1) && Ordered(s[r := Shrunk(s[r])])
  {
    SpanHalf(s[r].order);
  }

  // ---------------------------------------------------------------- extending the last range

  /** `t` is in the range, or some higher order takes it in without overflow. */
  ghost predicate Fits(c: Ctl, t: nat) {
    t <= c.end || exists o: nat :: o > c.order && t <= c.begin + Span(o) <= UINT_MAX
  }

  /** `o` is the least higher order that takes in `t`. */
  ghost predicate IsOrder(c: Ctl, t: nat, o: nat) {
    o > c.order && t <= c.begin + Span(o) && forall q :: c.order < q < o ==> c.begin + Span(q) < t
  }

  /** How many neighbours are put together when the order rises. */
  function Units(rise: nat): (u: nat)
    requires rise > 0
    ensures u in {2, 4, 8, 16}
  {
    if rise == 1 then 2 else if rise == 2 then 4 else if rise == 3 then 8 else 16
  }

  ghost predicate WrapsRow(c: Ctl, row: seq<nat>, t: nat)
    requires |row| == BUCKETS
  {
    t > c.end && exists o: nat :: IsOrder(c, t, o) && var u := Units(o - c.order); !GroupsFit(row, u, BUCKETS / u)
  }

  lemma NotExtended(c: seq<Ctl>, n: seq<nat>, t: nat)
    requires |c| == RANGES && |n| == RANGES * BUCKETS
    ensures t <= c[RLAST].end ==> Extended(c, n, c, n, t)
  {
  }

  lemma QuietWithin(c: seq<Ctl>, n: seq<nat>, t: nat)
    ensures Quiet(c, n, t) ==> |c| == RANGES && t <= c[RLAST].end
  {
  }

  lemma CountSettled(c: seq<Ctl>, n: seq<nat>, c': seq<Ctl>, n': seq<nat>, t: nat)
    requires |c| == RANGES && |n| == RANGES * BUCKETS && t <= c[RLAST].end && Bucket(c[RangeOf(c, t)], t) < BUCKETS
    requires var r := RangeOf(c, t); var b := BUCKETS * r + Bucket(c[r], t); var hit := n[b := n[b] + 1];
      if r == 0 || !Outlier(Row(hit, r)) then c' == c && n' == hit else Wormed(c, hit, c', n', r)
    ensures Settled(c, n, c', n', t)
  {
    hide Outlier, Wormed, Bucket;
  }

  /** Without an extension and an outlier there is one hit more and nothing else. */
  lemma QuietKept(c: seq<Ctl>, n: seq<nat>, d: seq<Ctl>, m: seq<nat>, c': seq<Ctl>, n': seq<nat>, t: nat)
    requires Extended(c, n, d, m, t) && Settled(d, m, c', n', t)
    ensures Placed(c, n, c', n', t) && (Quiet(c, n, t) ==> c' == c && n' == OneHit(c, n, t))
  {
    hide Outlier, Wormed, Bucket, ExtendedTo, IsOrder, OneHit;
  }

  lemma NoExtension(c: Ctl, row: seq<nat>, t: nat)
    requires |row| == BUCKETS
    ensures t <= c.end ==> Fits(c, t) && !WrapsRow(c, row, t)
  {
  }

  lemma {:induction false} WrapsAt(c: Ctl, row: seq<nat>, t: nat, o: nat)
    requires |row| == BUCKETS && IsOrder(c, t, o) && t > c.end
    ensures WrapsRow(c, row, t) <==> var u := Units(o - c.order); !GroupsFit(row, u, BUCKETS / u)
  {
    hide Span, GroupsFit;
    forall q: nat | IsOrder(c, t, q) ensures q == o { assert !(q < o) && !(o < q); }
  }

  lemma OrderIs(c: Ctl, t: nat, o: nat)
    requires IsOrder(c, t, o)
    ensures o > c.order
  {
  }

  /** The least order above that of `pc` with which the range takes in `rTime`. */
  method FindOrder(pc: Ctl, rTime: nat) returns (order: nat, end: nat)
    requires CtlOk(pc) && pc.end < rTime <= UINT_MAX
    ensures IsOrder(pc, rTime, order) && rTime <= end == pc.begin + Span(order) && (end <= UINT_MAX <==> Fits(pc, rTime))
  {
    hide Span;
    order := pc.order + 1;
    end := pc.begin + Span(order);
    Doubled(pc, order, pc.end);
    while end < rTime
      invariant order > pc.order && end == pc.begin + Span(order)
      invariant forall o :: pc.order < o < order ==> pc.begin + Span(o) < rTime
      decreases rTime - end
    {
      Doubled(pc, order + 1, end);
      order := order + 1;
      end := pc.begin + Span(order);
    }
    forall o: nat | o > pc.order && rTime <= pc.begin + Span(o) ensures end <= pc.begin + Span(o) { SpanGrows(order, o); }
  }

  lemma SpanGrows(o: nat, q: nat)
    requires o <= q
    ensures Span(o) <= Span(q)
  {
    Pow2Grows(o, q);
  }

  /** Times up to 2^31 always fit. */
  lemma ShortFits(c: Ctl, t: nat)
    requires CtlOk(c) && t <= MAX_TIME
    ensures Fits(c, t)
  {
    hide Span;
    if t > c.end {
      var order, end := c.order + 1, c.begin + Span(c.order + 1);
      Doubled(c, order, c.end);
      while end < t
        invariant order > c.order && end == c.begin + Span(order) && end + c.begin <= 2 * MAX_TIME
        decreases t - end
      {
        Doubled(c, order + 1, end);
        order := order + 1;
        end := c.begin + Span(order);
      }
    }
  }

  /** Fewer than 2^32 hits never wrap. */
  lemma {:induction false} FewFit(row: seq<nat>, units: nat, k: nat)
    requires k * units <= |row| && Sum(row) <= UINT_MAX
    ensures GroupsFit(row, units, k)
  {
    hide Sum;
    if k > 0 {
      var m, n := (k - 1) * units, k * units;
      assert m + units == n;
      FewFit(row, units, k - 1);
      assert row == row[..m] + row[m..n] + row[n..];
      SumConcat(row[..m] + row[m..n], row[n..]);
      SumConcat(row[..m], row[m..n]);
    }
  }

  lemma {:induction false} FewKept(c: Ctl, row: seq<nat>, t: nat)
    requires |row| == BUCKETS && Sum(row) <= UINT_MAX
    ensures !WrapsRow(c, row, t)
  {
    hide Span, Sum, GroupsFit;
    forall o: nat | IsOrder(c, t, o) ensures var u := Units(o - c.order); GroupsFit(row, u, BUCKETS / u) {
      var u := Units(o - c.order);
      FewFit(row, u, BUCKETS / u);
    }
  }

  /** A response of 0xF000006E ms, some 46 days, is more than a new histogram can be extended to. */
  method TooLong() returns (h: PcntRanges, ok: bool)
    ensures h.Valid() && h.samples == [] && !ok
  {
    h := new PcntRanges();
    assert h.ctl[RLAST] == h.ctl[..][RLAST] == Ctl(4, 109, 349);
    NoOrder();
    ok := h.Update(0xF000_006E);
  }

  lemma NoOrder()
    ensures !Fits(Ctl(4, 109, 349), 0xF000_006E)
  {
    hide Span;
    Orders28();
    forall o: nat | o > 4 ensures !(0xF000_006E <= 109 + Span(o) <= UINT_MAX) {
      if o <= 28 { SpanGrows(o, 28); } else { SpanGrows(29, o); }
    }
  }

  lemma Orders28()
    ensures Span(28) == 0xF000_0000 && Span(29) == 0x1_E000_0000
  {
    assert Pow2(4) == 16;
    hide Pow2;
    Pow2Add(4, 4);
    Pow2Add(8, 8);
    Pow2Add(16, 8);
    Pow2Add(24, 4);
    SpanHalf(29);
  }

  const TIME := 349
  const LATER := 2029

  /** All hits in the last bucket. */
  function Piled(k: nat): seq<nat> {
    Zeros(RANGES * BUCKETS)[RANGES * BUCKETS - 1 := k]
  }

  lemma PiledRow(k: nat)
    ensures Row(Piled(k), RLAST) == Zeros(BUCKETS)[BUCKETS - 1 := k] && Sum(Row(Piled(k), RLAST)) == k
  {
    hide Sum;
    var row := Row(Piled(k), RLAST);
    assert row == Zeros(BUCKETS)[BUCKETS - 1 := k];
    ZerosSum(BUCKETS);
    SumAt(Zeros(BUCKETS), BUCKETS - 1, k);
  }

  /** One bucket alone is no outlier. */
  lemma {:induction false} PiledQuiet(k: nat)
    ensures Quiet(INITIAL, Piled(k), TIME) && OneHit(INITIAL, Piled(k), TIME) == Piled(k + 1)
  {
    hide Sum, Used;
    assert Pow2(4) == 16;
    assert Bucket(INITIAL[RLAST], TIME) == 15;
    assert OneHit(INITIAL, Piled(k), TIME) == Piled(k + 1);
    PiledRow(k + 1);
    var row := Row(Piled(k + 1), RLAST);
    UsedLast(row);
  }

  lemma {:induction false} UsedLast(row: seq<nat>)
    requires |row| == BUCKETS && row[BUCKETS - 1] > 0 && forall i :: 0 <= i < BUCKETS - 1 ==> row[i] == 0
    ensures Used(row) == 1
  {
    NoneUsed(row[..BUCKETS - 1]);
  }

  lemma {:induction false} NoneUsed(row: seq<nat>)
    requires forall i :: 0 <= i < |row| ==> row[i] == 0
    ensures Used(row) == 0
    decreases row
  {
    if row != [] { NoneUsed(row[..|row| - 1]); }
  }

  /** With 2^32 hits in the last bucket, a time for which the order rises by three loses them. */
  lemma {:induction false} PiledWraps()
    ensures WrapsRow(INITIAL[RLAST], Row(Piled(UINT_MAX + 1), RLAST), LATER) && Fits(INITIAL[RLAST], LATER)
  {
    hide Sum, GroupsFit;
    var c, row := INITIAL[RLAST], Row(Piled(UINT_MAX + 1), RLAST);
    RiseOfThree();
    WrapsAt(c, row, LATER, 7);
    PiledRow(UINT_MAX + 1);
    SumRow(row);
    ZerosSum(8);
    assert row[..8] == Zeros(8);
    assert row[8..16] == row[8..];
    LastGroupFits(row);
  }

  lemma {:induction false} LastGroupFits(row: seq<nat>)
    requires |row| == BUCKETS && Sum(row[8..16]) > UINT_MAX
    ensures !GroupsFit(row, 8, 2)
  {
    hide Sum;
  }

  lemma RiseOfThree()
    ensures IsOrder(INITIAL[RLAST], LATER, 7) && Fits(INITIAL[RLAST], LATER)
  {
    assert Pow2(5) == 32 && Pow2(6) == 64;
    assert Pow2(7) == 2 * Pow2(6);
    assert Span(5) == 480 && Span(6) == 960 && Span(7) == 1920;
  }

  /** Reached by counting: 2^32 responses of 349 ms and one of 2029 ms, and the buckets no longer hold them. */
  method WrappedLost() returns (h: PcntRanges)
    ensures h.Totalled() && h.totCnt == UINT_MAX + 2 && !h.Valid()
  {
    hide Ordered, Sum, Outlier, Quiet, OneHit, Fits, WrapsRow, Least, Greatest, Piled;
    h := new PcntRanges();
    NothingPiled();
    for k := 0 to UINT_MAX + 1
      invariant fresh(h) && fresh(h.ctl) && fresh(h.cnt)
      invariant h.Valid() && h.totCnt == k && h.ctl[..] == INITIAL && h.cnt[..] == Piled(k)
    {
      PiledQuiet(k);
      Uneventful(h, TIME);
      var ok := h.Update(TIME);
    }
    PiledWraps();
    assert h.ctl[RLAST] == h.ctl[..][RLAST];
    var ok := h.Update(LATER);
  }

  lemma NothingPiled()
    ensures Piled(0) == Zeros(RANGES * BUCKETS)
  {
  }

  lemma Uneventful(h: PcntRanges, t: nat)
    requires h.Totalled() && Quiet(h.ctl[..], h.cnt[..], t)
    ensures Fits(h.ctl[RLAST], t) && !h.Wraps(t)
  {
    hide Sum, Outlier;
    assert h.ctl[RLAST] == h.ctl[..][RLAST];
    NoExtension(h.ctl[RLAST], Row(h.cnt[..], RLAST), t);
  }

  lemma AddWrapped(x: nat, c: nat)
    ensures (x % (UINT_MAX + 1) + c) % (UINT_MAX + 1) == (x + c) % (UINT_MAX + 1)
  {
    var m := UINT_MAX + 1;
    var y := x % m + c;
    assert x + c == (x / m + y / m) * m + y % m;
    DivUnique(x + c, m, x / m + y / m, y % m);
  }

  lemma SumNone()
    ensures Sum([]) == 0
  {
  }

  lemma {:induction false} SumSlice(row: seq<nat>, lo: nat, b: nat)
    requires lo <= b < |row|
    ensures Sum(row[lo..b + 1]) == Sum(row[lo..b]) + row[b] <= Sum(row)
  {
    assert row[lo..b + 1] == row[lo..b] + [row[b]];
    SumConcat(row[lo..b], [row[b]]);
    SumOne(row[b]);
    assert row == row[..lo] + row[lo..b + 1] + row[b + 1..];
    SumConcat(row[..lo] + row[lo..b + 1], row[b + 1..]);
    SumConcat(row[..lo], row[lo..b + 1]);
  }

  lemma LastOk(s: seq<Ctl>)
    requires Ordered(s)
    ensures CtlOk(s[RLAST])
  {
  }

  lemma LastMoved(s: seq<Ctl>, c: Ctl)
    requires Ordered(s) && CtlOk(c) && c.begin == s[RLAST].begin
    ensures Ordered(s[RLAST := c])
  {
  }

  lemma Doubled(c: Ctl, order: nat, end: nat)
    requires order > 0 && end == c.begin + Span(order - 1)
    ensures c.begin + Span(order) == 2 * end - c.begin > end
  {
    SpanHalf(order);
  }

  lemma {:induction false} GroupsStart(row: seq<nat>, units: nat)
    ensures Groups(row, units, 0) == []
  {
  }

  lemma GroupsNext(row: seq<nat>, units: nat, i: nat)
    requires (i + 1) * units <= |row|
    ensures i * units <= (i + 1) * units && Groups(row, units, i + 1) == Groups(row, units, i) + [Group(row[i * units..(i + 1) * units])]
  {
  }

  lemma RowPrefix(all: seq<nat>, r: nat, row: seq<nat>)
    requires |all| == RANGES * BUCKETS && r < RANGES && |row| == BUCKETS
    ensures |WithRow(all, r, row)| == |all| && WithRow(all, r, row)[..BUCKETS * r] == all[..BUCKETS * r]
  {
  }

  lemma RowSelf(all: seq<nat>, r: nat)
    requires |all| == RANGES * BUCKETS && r < RANGES
    ensures WithRow(all, r, Row(all, r)) == all
  {
  }

  lemma RowAt(all: seq<nat>, r: nat, row: seq<nat>, b: nat)
    requires |all| == RANGES * BUCKETS && r < RANGES && |row| == BUCKETS && b < BUCKETS
    ensures |WithRow(all, r, row)| == RANGES * BUCKETS && WithRow(all, r, row)[BUCKETS * r + b] == row[b]
  {
  }

  lemma RowSet(all: seq<nat>, r: nat, row: seq<nat>, b: nat, v: nat)
    requires |all| == RANGES * BUCKETS && r < RANGES && |row| == BUCKETS && b < BUCKETS
    ensures |WithRow(all, r, row)| == RANGES * BUCKETS
    ensures WithRow(all, r, row)[BUCKETS * r + b := v] == WithRow(all, r, row[b := v])
  {
  }

  lemma SumPrefix(row: seq<nat>, i: nat)
    requires i < |row|
    ensures Sum(row[..i + 1]) == Sum(row[..i]) + row[i]
  {
    assert row[..i + 1] == row[..i] + [row[i]];
    SumConcat(row[..i], [row[i]]);
    SumOne(row[i]);
  }

  function Grown(c: Ctl): Ctl {
    Ctl(c.order + 1, c.begin, c.begin + Span(c.order + 1))
  }

  function Shrunk(c: Ctl): Ctl
    requires c.order > 0 && c.end >= Span(c.order - 1)
  {
    Ctl(c.order - 1, c.end - Span(c.order - 1), c.end)
  }

  lemma RoomLeft(s: seq<Ctl>, r: nat)
    requires Ordered(s) && r < RANGES && s[r].order > 0
    ensures s[r].end >= Span(s[r].order - 1)
  {
    SpanHalf(s[r].order);
  }

  lemma SpanHalf(order: nat)
    requires order > 0
    ensures Span(order) == 2 * Span(order - 1) && Span(order - 1) > 0
  {
  }
}
