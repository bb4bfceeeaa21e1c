/** Percentiles over a ring of histograms, by merging their buckets in the order of their values. */
module Percentiles {
  import opened Bits
  import opened Histogram

  const USHRT_MAX := 0xFFFF
  const SLOTS := RANGES * BUCKETS
  const IDX_MIN := 0
  const IDX_MAX := 1
  const IDX_AVG := 2
  const IDX_ITH := 3
  const T_PSZ := 8

  /** One ring buffer entry as the calculation reads it. */
  datatype Entry = Entry(ctl: seq<Ctl>, cnt: seq<nat>, totCnt: nat, totVal: nat, minVal: nat, maxVal: nat)

  predicate EntryOk(e: Entry) {
    |e.ctl| == RANGES && Ordered(e.ctl) && |e.cnt| == SLOTS
  }

  /** The response time bucket `k` stands for. */
  function Value(e: Entry, k: nat): nat
    requires EntryOk(e) && k < SLOTS
  {
    e.ctl[k / BUCKETS].begin + k % BUCKETS * Pow2(e.ctl[k / BUCKETS].order)
  }

  lemma InRange(e: Entry, k: nat)
    requires EntryOk(e) && k < SLOTS
    ensures e.ctl[k / BUCKETS].begin <= Value(e, k) <= e.ctl[k / BUCKETS].end
  {
    var c, b := e.ctl[k / BUCKETS], k % BUCKETS;
    assert CtlOk(c);
    hide Pow2, Ordered;
    StepsIn(b, Pow2(c.order));
  }

  lemma StepsIn(b: nat, p: nat)
    requires b < BUCKETS
    ensures 0 <= b * p <= (BUCKETS - 1) * p
  {
    MulGrows(b, BUCKETS - 1, p);
  }

  lemma RangesApart(s: seq<Ctl>, q: nat, r: nat)
    requires Ordered(s) && q < r < RANGES
    ensures s[q].end < s[r].begin
  {
    assert CtlOk(s[1]) && CtlOk(s[2]);
  }

  /** Buckets are in strictly ascending order across all ranges. */
  lemma Ascending(e: Entry, a: nat, b: nat)
    requires EntryOk(e) && a < b < SLOTS
    ensures Value(e, a) < Value(e, b)
  {
    hide Ordered;
    var q, r := a / BUCKETS, b / BUCKETS;
    InRange(e, a);
    InRange(e, b);
    if q < r {
      RangesApart(e.ctl, q, r);
    } else {
      var p := Pow2(e.ctl[q].order);
      assert a % BUCKETS + 1 <= b % BUCKETS;
      MulGrows(a % BUCKETS + 1, b % BUCKETS, p);
      assert (a % BUCKETS + 1) * p == a % BUCKETS * p + p;
    }
  }

  // ---------------------------------------------------------------- the reference

  /** Hits among the first `k` buckets with values up to `x`. */
  function HitsBelow(e: Entry, k: nat, x: nat): nat
    requires EntryOk(e) && k <= SLOTS
  {
    if k == 0 then 0 else HitsBelow(e, k - 1, x) + if Value(e, k - 1) <= x then e.cnt[k - 1] else 0
  }

  /** Hits with values up to `x` over all entries. */
  function Hits(es: seq<Entry>, x: nat): nat
    requires forall i :: 0 <= i < |es| ==> EntryOk(es[i])
  {
    if es == [] then 0 else Hits(es[..|es| - 1], x) + HitsBelow(es[|es| - 1], SLOTS, x)
  }

  function AllHits(es: seq<Entry>): nat {
    if es == [] then 0 else AllHits(es[..|es| - 1]) + Sum(es[|es| - 1].cnt)
  }

  /** `v` is the least value up to which `target` hits are found, but not more than the largest time seen. */
  ghost predicate IsPercentile(es: seq<Entry>, target: nat, maxVal: nat, v: nat)
    requires forall i :: 0 <= i < |es| ==> EntryOk(es[i])
  {
    if target == 0 then v == 0
    else exists x: nat :: Hits(es, x) >= target && (forall y :: 0 <= y < x ==> Hits(es, y) < target)
           && v == if x > maxVal then maxVal else x
  }

  lemma {:induction false} HitsBelowGrows(e: Entry, k: nat, x: nat, y: nat)
    requires EntryOk(e) && k <= SLOTS && x <= y
    ensures HitsBelow(e, k, x) <= HitsBelow(e, k, y)
  {
    if k > 0 { HitsBelowGrows(e, k - 1, x, y); }
  }

  lemma {:induction false} HitsGrow(es: seq<Entry>, x: nat, y: nat)
    requires (forall i :: 0 <= i < |es| ==> EntryOk(es[i])) && x <= y
    ensures Hits(es, x) <= Hits(es, y)
    decreases es
  {
    hide EntryOk;
    if es != [] {
      HitsGrow(es[..|es| - 1], x, y);
      HitsBelowGrows(es[|es| - 1], SLOTS, x, y);
    }
  }

  /** Percentiles of ascending targets never fall. */
  lemma PercentilesAscend(es: seq<Entry>, t: nat, u: nat, maxVal: nat, v: nat, w: nat)
    requires (forall i :: 0 <= i < |es| ==> EntryOk(es[i])) && t <= u
    requires IsPercentile(es, t, maxVal, v) && IsPercentile(es, u, maxVal, w)
    ensures v <= w
  {
    hide EntryOk;
    if t > 0 {
      var x: nat :| Hits(es, x) >= t && (forall y :: 0 <= y < x ==> Hits(es, y) < t) && v == if x > maxVal then maxVal else x;
      var z: nat :| Hits(es, z) >= u && (forall y :: 0 <= y < z ==> Hits(es, y) < u) && w == if z > maxVal then maxVal else z;
      assert x <= z;
    }
  }

  // ---------------------------------------------------------------- cursors

  /** Position in an entry: value, bucket number overall, range and bucket.  The value has 16 bits. */
  datatype State = State(v: nat, i: nat, r: nat, b: nat)

  /** All used buckets before `i` have values up to `x`, all from `i` on larger ones. */
  ghost predicate SplitAt(e: Entry, i: nat, x: nat)
    requires EntryOk(e)
  {
    && i <= SLOTS
    && (forall k :: 0 <= k < i && e.cnt[k] > 0 ==> Value(e, k) <= x)
    && (forall k :: i <= k < SLOTS && e.cnt[k] > 0 ==> Value(e, k) > x)
  }

  lemma {:induction false} SplitHits(e: Entry, i: nat, x: nat, k: nat)
    requires EntryOk(e) && SplitAt(e, i, x) && k <= SLOTS
    ensures HitsBelow(e, k, x) == Sum(e.cnt[..if k <= i then k else i])
  {
    hide Ordered, Value, Sum;
    if k == 0 {
      SumNone();
    } else {
      SplitHits(e, i, x, k - 1);
      if k <= i { SumPrefix(e.cnt, k - 1); }
    }
  }

  /** Where a cursor stands: at the first used bucket from some place on, or past the end. */
  ghost predicate Points(e: Entry, st: State)
    requires EntryOk(e)
  {
    && st.i <= SLOTS && (st.i == SLOTS ==> st.v == USHRT_MAX)
    && (st.i < SLOTS ==> e.cnt[st.i] > 0 && st.v == Value(e, st.i) % (USHRT_MAX + 1) && st.r == st.i / BUCKETS && st.b == st.i % BUCKETS)
  }

  method StateNext(e: Entry, i0: nat) returns (st: State)
    requires EntryOk(e) && i0 <= SLOTS
    ensures Points(e, st) && i0 <= st.i && forall k :: i0 <= k < st.i ==> e.cnt[k] == 0
  {
    hide Ordered;
    var i := i0;
    var r := i / BUCKETS;
    while r < RANGES
      invariant i0 <= i <= SLOTS && r <= RANGES && r == i / BUCKETS && (i > i0 ==> i % BUCKETS == 0)
      invariant forall k :: i0 <= k < i ==> e.cnt[k] == 0
      decreases RANGES - r
    {
      var b := i % BUCKETS;
      while b < BUCKETS
        invariant b <= BUCKETS && i == r * BUCKETS + b && i0 <= i
        invariant forall k :: i0 <= k < i ==> e.cnt[k] == 0
      {
        if e.cnt[i] != 0 {
          var rtt := e.ctl[r].begin + b * Pow2(e.ctl[r].order);
          return State(rtt % (USHRT_MAX + 1), i, r, b);
        }
        b := b + 1;
        i := i + 1;
      }
      r := r + 1;
    }
    st := State(USHRT_MAX, SLOTS, RANGES, BUCKETS % BUCKETS);
  }

  // ---------------------------------------------------------------- the merge

  ghost predicate EntriesOk(es: seq<Entry>) {
    forall i :: 0 <= i < |es| ==> EntryOk(es[i])
  }

  /** No used bucket has a value that 16 bits cannot tell from the end marker. */
  ghost predicate Narrow(e: Entry)
    requires EntryOk(e)
  {
    forall k :: 0 <= k < SLOTS && e.cnt[k] > 0 ==> Value(e, k) < USHRT_MAX
  }

  ghost predicate Cursor(e: Entry, st: State, x: nat)
    requires EntryOk(e)
  {
    Points(e, st) && SplitAt(e, st.i, x)
  }

  ghost predicate Cursors(es: seq<Entry>, sts: seq<State>, x: nat)
    requires EntriesOk(es)
  {
    |es| == |sts| && forall i :: 0 <= i < |es| ==> Cursor(es[i], sts[i], x)
  }

  /** Hits passed by the cursors. */
  ghost function Passed(es: seq<Entry>, sts: seq<State>): nat
    requires |es| == |sts| && forall i :: 0 <= i < |es| ==> sts[i].i <= |es[i].cnt|
  {
    if es == [] then 0
    else var n := |es| - 1; Passed(es[..n], sts[..n]) + Sum(es[n].cnt[..sts[n].i])
  }

  lemma CursorBound(es: seq<Entry>, sts: seq<State>, x: nat)
    requires EntriesOk(es) && Cursors(es, sts, x)
    ensures forall i :: 0 <= i < |es| ==> sts[i].i <= |es[i].cnt|
  {
    forall i | 0 <= i < |es| ensures sts[i].i <= |es[i].cnt| { assert Cursor(es[i], sts[i], x); }
  }

  lemma {:induction false} PassedHits(es: seq<Entry>, sts: seq<State>, x: nat)
    requires EntriesOk(es) && Cursors(es, sts, x)
    ensures forall i :: 0 <= i < |es| ==> sts[i].i <= |es[i].cnt|
    ensures Passed(es, sts) == Hits(es, x)
    decreases es
  {
    hide EntryOk, Value;
    CursorBound(es, sts, x);
    if es != [] {
      var n := |es| - 1;
      PassedHits(es[..n], sts[..n], x);
      assert Cursor(es[n], sts[n], x);
      SplitHits(es[n], sts[n].i, x, SLOTS);
    }
  }

  /** A cursor that stands behind `v` does not move. */
  lemma Stays(e: Entry, st: State, x: nat, v: nat)
    requires EntryOk(e) && Narrow(e) && Cursor(e, st, x) && x < v < st.v
    ensures Cursor(e, st, v)
  {
    hide Ordered, Value;
    forall k | st.i <= k < SLOTS && e.cnt[k] > 0 ensures Value(e, k) > v {
      if k > st.i { Ascending(e, st.i, k); }
    }
  }

  /** A cursor on a bucket of value `v` moves past it. */
  lemma Moves(e: Entry, st: State, x: nat, v: nat, st': State)
    requires EntryOk(e) && Narrow(e) && Cursor(e, st, x) && x < v == st.v < USHRT_MAX
    requires Points(e, st') && st.i + 1 <= st'.i && forall k :: st.i + 1 <= k < st'.i ==> e.cnt[k] == 0
    ensures Cursor(e, st', v)
  {
    hide Ordered, Value;
    assert st.i < SLOTS && Value(e, st.i) == v;
    forall k | st'.i <= k < SLOTS && e.cnt[k] > 0 ensures Value(e, k) > v { Ascending(e, st.i, k); }
  }

  lemma Skips(e: Entry, i: nat, j: nat)
    requires EntryOk(e) && i < j <= SLOTS && forall k :: i + 1 <= k < j ==> e.cnt[k] == 0
    ensures Sum(e.cnt[..j]) == Sum(e.cnt[..i]) + e.cnt[i]
  {
    hide Sum;
    SumPrefix(e.cnt, i);
    IdleSum(e.cnt, i + 1, j);
  }

  lemma {:induction false} IdleSum(s: seq<nat>, a: nat, b: nat)
    requires a <= b <= |s| && forall k :: a <= k < b ==> s[k] == 0
    ensures Sum(s[..b]) == Sum(s[..a])
  {
    if a < b {
      IdleSum(s, a, b - 1);
      SumPrefix(s, b - 1);
    }
  }

  method LeastValue(st: array<State>) returns (vMin: nat)
    ensures vMin <= USHRT_MAX && forall i :: 0 <= i < st.Length ==> vMin <= st[i].v
    ensures vMin < USHRT_MAX ==> exists i :: 0 <= i < st.Length && st[i].v == vMin
  {
    vMin := USHRT_MAX;
    for i := 0 to st.Length
      invariant vMin <= USHRT_MAX && forall j :: 0 <= j < i ==> vMin <= st[j].v
      invariant vMin < USHRT_MAX ==> exists j :: 0 <= j < i && st[j].v == vMin
    {
      if st[i].v < vMin {
        vMin := st[i].v;
      }
    }
  }

  /** One entry: count its bucket if the cursor stands on one of value `vMin`, and move on. */
  method TakeOne(e: Entry, st: State, vMin: nat, ghost x: nat) returns (c: nat, next: State)
    requires EntryOk(e) && Points(e, st) && vMin < USHRT_MAX
    ensures Points(e, next) && Sum(e.cnt[..next.i]) == Sum(e.cnt[..st.i]) + c && (st.v == vMin ==> c > 0)
    ensures Narrow(e) && Cursor(e, st, x) && x < vMin <= st.v ==> Cursor(e, next, vMin)
  {
    hide Ordered, Value, Sum, Narrow, SplitAt;
    c, next := 0, st;
    if st.v == vMin {
      // a cursor with a value is not past the end
      assert st.i < SLOTS;
      c := e.cnt[BUCKETS * st.r + st.b];
      next := StateNext(e, st.i + 1);
      Skips(e, st.i, next.i);
      if Narrow(e) && Cursor(e, st, x) && x < vMin { Moves(e, st, x, vMin, next); }
    } else if Narrow(e) && Cursor(e, st, x) && x < vMin < st.v {
      Stays(e, st, x, vMin);
    }
  }

  lemma PassedStep(es: seq<Entry>, sts: seq<State>, i: nat)
    requires i < |es| == |sts| && forall j :: 0 <= j < |es| ==> sts[j].i <= |es[j].cnt|
    ensures Passed(es[..i + 1], sts[..i + 1]) == Passed(es[..i], sts[..i]) + Sum(es[i].cnt[..sts[i].i])
  {
    assert es[..i + 1][..i] == es[..i] && sts[..i + 1][..i] == sts[..i];
  }

  /** Every cursor stands on a used bucket or past the end. */
  ghost predicate Pointing(es: seq<Entry>, sts: seq<State>)
    requires EntriesOk(es)
  {
    |es| == |sts| && forall i :: 0 <= i < |es| ==> sts[i].i <= |es[i].cnt| && Points(es[i], sts[i])
  }

  /** What the merge relies on to be exact: narrow entries, and cursors split at `x`. */
  ghost predicate Merging(es: seq<Entry>, sts: seq<State>, x: nat)
    requires EntriesOk(es)
  {
    Cursors(es, sts, x) && x < USHRT_MAX && forall i :: 0 <= i < |es| ==> Narrow(es[i])
  }

  /** Count the buckets of value `vMin` in all entries and move their cursors on. */
  method Take(es: seq<Entry>, st: array<State>, vMin: nat, cnt0: nat, ghost x: nat) returns (cnt: nat)
    requires EntriesOk(es) && Pointing(es, st[..]) && cnt0 == Passed(es, st[..]) && vMin < USHRT_MAX
    requires forall i :: 0 <= i < st.Length ==> vMin <= st[i].v
    modifies st
    ensures Pointing(es, st[..]) && cnt == Passed(es, st[..])
    ensures cnt >= cnt0 && ((exists i :: 0 <= i < st.Length && old(st[i]).v == vMin) ==> cnt > cnt0)
    ensures old(Merging(es, st[..], x)) && x < vMin ==> Merging(es, st[..], vMin)
  {
    hide Ordered, Value, Narrow, Cursor, Sum, Passed, Points;
    cnt := cnt0;
    ghost var was := st[..];
    ghost var exact := Merging(es, was, x) && x < vMin;
    PassedNone();
    for i := 0 to |es|
      invariant st.Length == |es| == |was| && Pointing(es, st[..])
      invariant forall j :: i <= j < |es| ==> st[j] == was[j]
      invariant cnt == cnt0 + Passed(es[..i], st[..i]) - Passed(es[..i], was[..i])
      invariant cnt >= cnt0 && forall j :: 0 <= j < i && was[j].v == vMin ==> cnt > cnt0
      invariant exact ==> forall j :: 0 <= j < i ==> Cursor(es[j], st[j], vMin)
    {
      assert exact ==> Cursor(es[i], was[i], x);
      ghost var now := st[..];
      var c, next := TakeOne(es[i], st[i], vMin, x);
      PassedStep(es, was, i);
      AtMost(es[i], next);
      st[i] := next;
      cnt := cnt + c;
      PassedStep(es, st[..], i);
      assert st[..][..i] == now[..i];
    }
    assert es[..|es|] == es && st[..|es|] == st[..] && was[..|es|] == was;
  }

  lemma AtMost(e: Entry, st: State)
    requires EntryOk(e) && Points(e, st)
    ensures st.i <= |e.cnt|
  {
  }

  lemma PassedNone()
    ensures Passed([], []) == 0
  {
  }

  // ---------------------------------------------------------------- the calculation

  /** Hits to collect for slot `i`. */
  function Target(total: nat, ith: seq<nat>, i: nat): nat
    requires i < |ith|
  {
    total * ith[i] / 100
  }

  predicate AscendingIth(ith: seq<nat>) {
    |ith| == T_PSZ && forall i, j :: IDX_ITH <= i <= j < T_PSZ ==> ith[i] <= ith[j]
  }

  lemma TargetsAscend(total: nat, ith: seq<nat>, i: nat, j: nat)
    requires AscendingIth(ith) && IDX_ITH <= i <= j < T_PSZ
    ensures Target(total, ith, i) <= Target(total, ith, j)
  {
    assert total * ith[i] <= total * ith[j];
  }

  function MaxOf(es: seq<Entry>): nat {
    if es == [] then 0
    else var m, x := MaxOf(es[..|es| - 1]), es[|es| - 1].maxVal; if m < x then x else m
  }

  /** Slots `IDX_ITH` to `p` hold percentiles. */
  ghost predicate Filled(es: seq<Entry>, total: nat, ith: seq<nat>, maxVal: nat, val: seq<nat>, p: nat)
    requires EntriesOk(es) && |ith| == |val| == T_PSZ
  {
    IDX_ITH <= p <= T_PSZ && forall j :: IDX_ITH <= j < p ==> IsPercentile(es, Target(total, ith, j), maxVal, val[j])
  }

  /** `v` is the value of a used bucket in 16 bits, but not more than the largest time seen. */
  ghost predicate Seen(es: seq<Entry>, maxVal: nat, v: nat)
    requires EntriesOk(es)
  {
    exists i, k :: 0 <= i < |es| && 0 <= k < SLOTS && es[i].cnt[k] > 0 &&
      v == var w := Value(es[i], k) % (USHRT_MAX + 1); if w > maxVal then maxVal else w
  }

  /** Slots `IDX_ITH` to `p` hold zero for an empty target and a value that was seen for others. */
  ghost predicate Reported(es: seq<Entry>, total: nat, ith: seq<nat>, maxVal: nat, val: seq<nat>, p: nat)
    requires EntriesOk(es) && |ith| == |val| == T_PSZ
  {
    && IDX_ITH <= p <= T_PSZ
    && forall j :: IDX_ITH <= j < p ==> if Target(total, ith, j) == 0 then val[j] == 0 else val[j] < USHRT_MAX && Seen(es, maxVal, val[j])
  }

  /** Nothing but the slots `IDX_ITH` to `p` has changed. */
  ghost predicate Kept(was: seq<nat>, val: seq<nat>, p: nat) {
    |was| == |val| == T_PSZ && forall j :: 0 <= j < IDX_ITH || p <= j < T_PSZ ==> val[j] == was[j]
  }

  method Cursors0(es: seq<Entry>) returns (st: array<State>)
    requires EntriesOk(es)
    ensures fresh(st) && Cursors(es, st[..], 0) && Pointing(es, st[..]) && Passed(es, st[..]) == 0
  {
    hide Ordered, Value, Hits, Passed;
    st := new State[|es|];
    for i := 0 to |es|
      invariant forall j :: 0 <= j < i ==> Cursor(es[j], st[j], 0)
    {
      st[i] := StateNext(es[i], 0);
      NoneBelow(es[i]);
    }
    PassedHits(es, st[..], 0);
    NoHits(es);
  }

  lemma NoneBelow(e: Entry)
    requires EntryOk(e)
    ensures forall k :: 0 <= k < SLOTS ==> Value(e, k) > 0
  {
    forall k | 0 <= k < SLOTS ensures Value(e, k) > 0 {
      InRange(e, k);
      assert CtlOk(e.ctl[k / BUCKETS]);
    }
  }

  lemma {:induction false} NoHits(es: seq<Entry>)
    requires EntriesOk(es)
    ensures Hits(es, 0) == 0
    decreases es
  {
    hide Ordered, Value;
    if es != [] {
      var e := es[|es| - 1];
      NoHits(es[..|es| - 1]);
      NoneBelow(e);
      NoHitsBelow(e, SLOTS);
    }
  }

  lemma {:induction false} NoHitsBelow(e: Entry, k: nat)
    requires EntryOk(e) && k <= SLOTS && forall i :: 0 <= i < SLOTS ==> Value(e, i) > 0
    ensures HitsBelow(e, k, 0) == 0
  {
    if k > 0 { NoHitsBelow(e, k - 1); }
  }

  /** No used bucket is taken for the end of its entry. */
  ghost predicate Telling(e: Entry)
    requires EntryOk(e)
  {
    forall k :: 0 <= k < SLOTS && e.cnt[k] > 0 ==> Value(e, k) % (USHRT_MAX + 1) != USHRT_MAX
  }

  /** Hits are passed at most once, and all of them by cursors past the end. */
  lemma {:induction false} AllPassed(es: seq<Entry>, sts: seq<State>)
    requires EntriesOk(es) && Pointing(es, sts)
    ensures Passed(es, sts) <= AllHits(es)
    ensures (forall i :: 0 <= i < |es| ==> sts[i].v == USHRT_MAX && Telling(es[i])) ==> Passed(es, sts) == AllHits(es)
    decreases es
  {
    hide Ordered, Value, Sum;
    if es != [] {
      var n := |es| - 1;
      AllPassed(es[..n], sts[..n]);
      SumPart(es[n].cnt, sts[n].i);
      assert es[n].cnt[..SLOTS] == es[n].cnt;
    }
  }

  lemma {:induction false} SumPart(s: seq<nat>, k: nat)
    requires k <= |s|
    ensures Sum(s[..k]) <= Sum(s)
    decreases |s| - k
  {
    hide Sum;
    if k < |s| {
      SumPart(s, k + 1);
      SumPrefix(s, k);
    } else {
      assert s[..k] == s;
    }
  }

  /** Before the least value ahead nothing is added. */
  lemma {:induction false} Gap(es: seq<Entry>, sts: seq<State>, x: nat, v: nat, y: nat)
    requires EntriesOk(es) && Cursors(es, sts, x) && x < v <= USHRT_MAX && y < v
    requires forall i :: 0 <= i < |es| ==> v <= sts[i].v && Narrow(es[i])
    ensures Hits(es, y) <= Hits(es, x)
  {
    hide Ordered, Value, Hits, Narrow, Cursor;
    if y <= x {
      HitsGrow(es, y, x);
    } else {
      forall i | 0 <= i < |es| ensures Cursor(es[i], sts[i], y) {
        assert Cursor(es[i], sts[i], x);
        Stays(es[i], sts[i], x, y);
      }
      PassedHits(es, sts, x);
      PassedHits(es, sts, y);
    }
  }

  lemma {:induction false} Reached(es: seq<Entry>, sts: seq<State>, x: nat, v: nat, target: nat, maxVal: nat)
    requires EntriesOk(es) && Merging(es, sts, x) && x < v < USHRT_MAX
    requires forall i :: 0 <= i < |es| ==> v <= sts[i].v
    requires Hits(es, x) < target <= Hits(es, v)
    ensures IsPercentile(es, target, maxVal, if v > maxVal then maxVal else v)
  {
    hide Ordered, Value, Hits, Narrow, Cursors;
    forall y | 0 <= y < v ensures Hits(es, y) < target { Gap(es, sts, x, v, y); }
  }

  /** Fill the slots whose target is already met with zero, before any bucket is looked at. */
  method Targets(es: seq<Entry>, total: nat, ith: seq<nat>, ghost maxVal: nat, val: array<nat>) returns (pval: array<nat>, p: nat)
    requires EntriesOk(es) && AscendingIth(ith) && val.Length == T_PSZ
    modifies val
    ensures fresh(pval) && pval.Length == T_PSZ && forall j :: IDX_ITH <= j < T_PSZ ==> pval[j] == Target(total, ith, j)
    ensures Filled(es, total, ith, maxVal, val[..], p) && Reported(es, total, ith, maxVal, val[..], p)
    ensures Kept(old(val[..]), val[..], p) && (p < T_PSZ ==> pval[p] > 0)
  {
    hide Target, EntriesOk, Hits;
    pval := new nat[T_PSZ];
    p := IDX_ITH;
    for i := IDX_ITH to T_PSZ
      invariant IDX_ITH <= p <= i && forall j :: IDX_ITH <= j < i ==> pval[j] == Target(total, ith, j)
      invariant forall j :: IDX_ITH <= j < p ==> pval[j] == 0 && val[j] == 0
      invariant p < i ==> pval[p] > 0
      invariant Kept(old(val[..]), val[..], p)
    {
      pval[i] := total * ith[i] / 100;
      assert pval[i] == Target(total, ith, i) by { TargetIs(total, ith, i); }
      if p < i { TargetsAscend(total, ith, p, i); }
      if pval[i] == 0 {
        val[p] := 0;
        p := p + 1;
      }
    }
  }

  lemma TargetIs(total: nat, ith: seq<nat>, i: nat)
    requires i < |ith|
    ensures Target(total, ith, i) == total * ith[i] / 100
  {
  }

  /** Fill the slots from `p` on whose targets are met by `cnt` hits. */
  method Fill(es: seq<Entry>, total: nat, ith: seq<nat>, maxVal: nat, pval: array<nat>, val: array<nat>, p0: nat, cnt: nat, v: nat,
              ghost sts: seq<State>, ghost x: nat, ghost exact: bool) returns (p: nat)
    requires EntriesOk(es) && AscendingIth(ith) && val.Length == pval.Length == T_PSZ && val != pval
    requires forall j :: IDX_ITH <= j < T_PSZ ==> pval[j] == Target(total, ith, j)
    requires Reported(es, total, ith, maxVal, val[..], p0) && p0 < T_PSZ && pval[p0] > 0
    requires v < USHRT_MAX && Seen(es, maxVal, if v > maxVal then maxVal else v)
    requires exact ==> Filled(es, total, ith, maxVal, val[..], p0) && Hits(es, x) < pval[p0] && cnt == Hits(es, v)
    requires exact ==> Merging(es, sts, x) && x < v && forall i :: 0 <= i < |es| ==> v <= sts[i].v
    modifies val
    ensures Reported(es, total, ith, maxVal, val[..], p) && p0 <= p <= T_PSZ && (p < T_PSZ ==> cnt < pval[p])
    ensures exact ==> Filled(es, total, ith, maxVal, val[..], p)
    ensures Kept(old(val[..]), val[..], p)
  {
    hide Target, Hits, Merging, EntryOk, IsPercentile, Seen;
    var w := if v > maxVal then maxVal else v;
    p := p0;
    while p < T_PSZ && pval[p] <= cnt
      invariant p0 <= p <= T_PSZ && Reported(es, total, ith, maxVal, val[..], p)
      invariant exact ==> Filled(es, total, ith, maxVal, val[..], p)
      invariant forall j :: IDX_ITH <= j < T_PSZ ==> pval[j] == Target(total, ith, j)
      invariant Kept(old(val[..]), val[..], p)
    {
      TargetsAscend(total, ith, p0, p);
      if exact { Reached(es, sts, x, v, pval[p], maxVal); }
      ghost var was := val[..];
      val[p] := w;
      p := p + 1;
      assert forall j :: IDX_ITH <= j < p - 1 ==> val[..][j] == was[j];
    }
  }

  /** A cursor that holds the least value stands on a bucket that has it. */
  lemma SeenLeast(es: seq<Entry>, sts: seq<State>, v: nat, maxVal: nat, i: nat)
    requires EntriesOk(es) && Pointing(es, sts) && i < |sts| && sts[i].v == v < USHRT_MAX
    ensures Seen(es, maxVal, if v > maxVal then maxVal else v)
  {
    hide Ordered, Value;
    assert es[i].cnt[sts[i].i] > 0;
  }

  /** The percentiles.  Below `p` every slot has a time that was seen, the exact percentile if all times fit
      in 16 bits; `p` stops short only where the hits on record do not reach the target. */
  method Calc(es: seq<Entry>, total: nat, ith: seq<nat>, val: array<nat>) returns (p: nat)
    requires EntriesOk(es) && AscendingIth(ith) && val.Length == T_PSZ
    modifies val
    ensures Reported(es, total, ith, MaxOf(es), val[..], p) && Kept(old(val[..]), val[..], p)
    ensures (forall i :: 0 <= i < |es| ==> Narrow(es[i])) ==> Filled(es, total, ith, MaxOf(es), val[..], p)
    ensures (forall i :: 0 <= i < |es| ==> Telling(es[i])) && p < T_PSZ ==> Target(total, ith, p) > AllHits(es)
    ensures (forall i :: 0 <= i < |es| ==> Telling(es[i])) && total <= AllHits(es) && ith[T_PSZ - 1] <= 100 ==> p == T_PSZ
  {
    hide Target, Hits, Narrow, Telling, Cursors, EntryOk, IsPercentile, MaxOf, Filled, Reported, Seen, AllHits, Kept, Passed, Points;
    var st := Cursors0(es);
    var pval;
    pval, p := Targets(es, total, ith, MaxOf(es), val);
    FilledBounds(es, total, ith, MaxOf(es), val[..], p);
    var maxVal := LargestTime(es);
    var cnt := 0;
    ghost var x := 0;
    ghost var exact := forall i :: 0 <= i < |es| ==> Narrow(es[i]);
    while p < T_PSZ
      invariant Pointing(es, st[..]) && cnt == Passed(es, st[..])
      invariant Reported(es, total, ith, maxVal, val[..], p) && IDX_ITH <= p <= T_PSZ && (p < T_PSZ ==> cnt < pval[p])
      invariant exact ==> Merging(es, st[..], x) && Filled(es, total, ith, maxVal, val[..], p)
      invariant forall j :: IDX_ITH <= j < T_PSZ ==> pval[j] == Target(total, ith, j)
      invariant Kept(old(val[..]), val[..], p)
      invariant fresh(st) && fresh(pval) && pval != val
      decreases AllHits(es) - cnt
    {
      var vMin := LeastValue(st);
      AllPassed(es, st[..]);
      if vMin == USHRT_MAX {
        AtEnd(es, st[..]);
        break;
      }
      ghost var i :| 0 <= i < st.Length && st[i].v == vMin;
      SeenLeast(es, st[..], vMin, maxVal, i);
      if exact {
        Ahead(es, st[..], x, vMin);
        PassedHits(es, st[..], x);
      }
      ghost var sts, before, q := st[..], val[..], p;
      cnt := Take(es, st, vMin, cnt, x);
      if exact { PassedHits(es, st[..], vMin); }
      AllPassed(es, st[..]);
      p := Fill(es, total, ith, maxVal, pval, val, p, cnt, vMin, sts, x, exact);
      KeptOn(old(val[..]), before, q, val[..], p);
      x := vMin;
    }
    if p < T_PSZ && total <= AllHits(es) && ith[T_PSZ - 1] <= 100 { AllFilled(total, ith, AllHits(es), p); }
  }

  method LargestTime(es: seq<Entry>) returns (maxVal: nat)
    ensures maxVal == MaxOf(es)
  {
    maxVal := 0;
    for i := 0 to |es|
      invariant maxVal == MaxOf(es[..i])
    {
      assert es[..i + 1][..i] == es[..i];
      if maxVal < es[i].maxVal {
        maxVal := es[i].maxVal;
      }
    }
    assert es[..|es|] == es;
  }

  lemma FilledBounds(es: seq<Entry>, total: nat, ith: seq<nat>, maxVal: nat, val: seq<nat>, p: nat)
    requires EntriesOk(es) && |ith| == |val| == T_PSZ && Filled(es, total, ith, maxVal, val, p)
    ensures IDX_ITH <= p <= T_PSZ
  {
  }

  lemma AtEnd(es: seq<Entry>, sts: seq<State>)
    requires EntriesOk(es) && Pointing(es, sts) && forall i :: 0 <= i < |sts| ==> USHRT_MAX <= sts[i].v
    ensures |sts| == |es| && forall i :: 0 <= i < |sts| ==> sts[i].v == USHRT_MAX
  {
    hide Ordered, Value;
  }

  lemma KeptOn(was: seq<nat>, mid: seq<nat>, q: nat, val: seq<nat>, p: nat)
    requires q <= p && Kept(was, mid, q) && Kept(mid, val, p)
    ensures Kept(was, val, p)
  {
  }

  lemma Ahead(es: seq<Entry>, sts: seq<State>, x: nat, v: nat)
    requires EntriesOk(es) && Merging(es, sts, x) && v < USHRT_MAX
    requires exists i :: 0 <= i < |sts| && sts[i].v == v
    ensures x < v
  {
    hide Ordered, Value;
    var i :| 0 <= i < |sts| && sts[i].v == v;
    assert Cursor(es[i], sts[i], x);
  }

  /** Whenever the hits on record reach the total, every slot is filled. */
  lemma AllFilled(total: nat, ith: seq<nat>, all: nat, p: nat)
    requires AscendingIth(ith) && IDX_ITH <= p < T_PSZ && ith[p] <= 100 && total <= all
    ensures Target(total, ith, p) <= all
  {
    assert total * ith[p] <= total * 100;
  }

  /** A cursor tells its bucket's value, and tells it from the end, exactly below 65535. */
  lemma CursorExact(e: Entry, st: State)
    requires EntryOk(e) && Points(e, st) && st.i < SLOTS
    ensures st.v == Value(e, st.i) && st.v != USHRT_MAX <==> Value(e, st.i) < USHRT_MAX
  {
    hide Ordered, Value;
  }

  /** A hundred times of 65537 ms, and every percentile is 1 ms. */
  method WideLost() returns (val: array<nat>, p: nat)
    ensures EntryOk(WIDE) && val.Length == T_PSZ && p == T_PSZ
    ensures forall j :: IDX_ITH <= j < T_PSZ ==> val[j] == 1
    ensures forall j :: IDX_ITH <= j < T_PSZ ==> IsPercentile([WIDE], Target(100, ITH, j), MaxOf([WIDE]), 65537)
  {
    hide Ordered, Hits, Sum, AllHits, IsPercentile, MaxOf;
    WideOk();
    WideHits();
    val := new nat[T_PSZ];
    p := Calc([WIDE], 100, ITH, val);
    forall j | IDX_ITH <= j < T_PSZ
      ensures val[j] == 1 && IsPercentile([WIDE], Target(100, ITH, j), MaxOf([WIDE]), 65537)
    {
      assert 0 < Target(100, ITH, j) <= 100;
      WideTrue(Target(100, ITH, j));
    }
  }

  lemma WideOk()
    ensures EntryOk(WIDE) && Telling(WIDE) && MaxOf([WIDE]) == 65537
    ensures forall k :: 0 <= k < SLOTS && WIDE.cnt[k] > 0 ==> k == 63 && Value(WIDE, k) == 65537
  {
    assert Pow2(0) == 1 && Pow2(1) == 2 && Pow2(2) == 4 && Pow2(6) == 64 && Pow2(12) == 4096 by { Pow2Add(6, 6); }
  }

  lemma WideHits()
    ensures EntryOk(WIDE) && AllHits([WIDE]) == 100 && Hits([WIDE], 65536) == 0 && Hits([WIDE], 65537) == 100
  {
    hide Ordered, Value, Sum;
    WideOk();
    assert [WIDE][..0] == [];
    SplitHits(WIDE, 63, 65536, SLOTS);
    SplitHits(WIDE, 64, 65537, SLOTS);
    IdleSum(WIDE.cnt, 0, 63);
    SumNone();
    SumPrefix(WIDE.cnt, 63);
    assert WIDE.cnt[..64] == WIDE.cnt && WIDE.cnt[..0] == [];
  }

  lemma WideTrue(target: nat)
    requires 0 < target <= 100
    ensures EntryOk(WIDE) && IsPercentile([WIDE], target, MaxOf([WIDE]), 65537)
  {
    hide EntryOk, Hits;
    WideOk();
    WideHits();
    forall y | 0 <= y < 65537 ensures Hits([WIDE], y) < target { HitsGrow([WIDE], y, 65536); }
  }

  const ITH := [0, 0, 0, 50, 75, 90, 95, 99]

  const WIDE := Entry([Ctl(0, 1, 16), Ctl(1, 17, 47), Ctl(2, 48, 108), Ctl(12, 4097, 65537)], Zeros(63) + [100], 100, 6553700, 65537, 65537)

  function MinOf(es: seq<Entry>): nat {
    if es == [] then UINT_MAX
    else var m, x := MinOf(es[..|es| - 1]), es[|es| - 1].minVal; if m > x then x else m
  }

  function TotalCnt(es: seq<Entry>): nat {
    if es == [] then 0 else TotalCnt(es[..|es| - 1]) + es[|es| - 1].totCnt
  }

  function TotalVal(es: seq<Entry>): nat {
    if es == [] then 0 else TotalVal(es[..|es| - 1]) + es[|es| - 1].totVal
  }

  /** Minimum, maximum and average over all entries. */
  method Extremes(es: seq<Entry>, val: array<nat>)
    requires val.Length == T_PSZ
    modifies val
    ensures val[IDX_MIN] == if MinOf(es) == UINT_MAX then 0 else MinOf(es)
    ensures val[IDX_MAX] == MaxOf(es)
    ensures val[IDX_AVG] == if TotalCnt(es) > 0 then TotalVal(es) / TotalCnt(es) else old(val[IDX_AVG])
    ensures forall j :: IDX_ITH <= j < T_PSZ ==> val[j] == old(val[j])
  {
    var cnt, sum := 0, 0;
    val[IDX_MAX] := 0;
    val[IDX_MIN] := UINT_MAX;
    for i := 0 to |es|
      invariant val[IDX_MIN] == MinOf(es[..i]) && val[IDX_MAX] == MaxOf(es[..i])
      invariant cnt == TotalCnt(es[..i]) && sum == TotalVal(es[..i])
      invariant forall j :: IDX_AVG <= j < T_PSZ ==> val[j] == old(val[j])
    {
      assert es[..i + 1][..i] == es[..i];
      if val[IDX_MIN] > es[i].minVal {
        val[IDX_MIN] := es[i].minVal;
      }
      if val[IDX_MAX] < es[i].maxVal {
        val[IDX_MAX] := es[i].maxVal;
      }
      cnt := cnt + es[i].totCnt;
      sum := sum + es[i].totVal;
    }
    assert es[..|es|] == es;
    if val[IDX_MIN] == UINT_MAX {
      val[IDX_MIN] := 0;
    }
    if cnt > 0 {
      val[IDX_AVG] := sum / cnt;
    }
  }
}
