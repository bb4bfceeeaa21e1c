/** Counters over a sliding window: a ring of time quanta, summed up at every event.  The ring has
    eight slots for client limits and ten for server health.  Several counters may share the slots of
    one ring; each has its own time frame, and so its own quanta. */
module SlidingWindow {
  import opened Bits

  // ---------------------------------------------------------------- the reference

  /** Events in quanta after `lo`. */
  function Recent(events: seq<nat>, lo: int): nat {
    if events == [] then 0
    else Recent(events[..|events| - 1], lo) + if events[|events| - 1] > lo then 1 else 0
  }

  /** Events in one quantum. */
  function InQuantum(events: seq<nat>, q: nat): nat {
    if events == [] then 0
    else InQuantum(events[..|events| - 1], q) + if events[|events| - 1] == q then 1 else 0
  }

  /** Events after `lo` that fall to one slot of a ring of `n`. */
  function RecentIn(events: seq<nat>, lo: int, i: nat, n: nat): nat
    requires n > 0
  {
    if events == [] then 0
    else RecentIn(events[..|events| - 1], lo, i, n) + if events[|events| - 1] > lo && events[|events| - 1] % n == i then 1 else 0
  }

  /** The same over the first `k` slots. */
  function RecentUpTo(events: seq<nat>, lo: int, k: nat, n: nat): nat
    requires n > 0
  {
    if k == 0 then 0 else RecentUpTo(events, lo, k - 1, n) + RecentIn(events, lo, k - 1, n)
  }

  lemma {:induction false} OneMore(events: seq<nat>, lo: int, k: nat, n: nat)
    requires n > 0 && events != []
    ensures RecentUpTo(events, lo, k, n) ==
      RecentUpTo(events[..|events| - 1], lo, k, n) + if events[|events| - 1] > lo && events[|events| - 1] % n < k then 1 else 0
    decreases k
  {
    if k > 0 { OneMore(events, lo, k - 1, n); }
  }

  /** Every event falls to exactly one slot. */
  lemma {:induction false} SlotsPartition(events: seq<nat>, lo: int, n: nat)
    requires n > 0
    ensures RecentUpTo(events, lo, n, n) == Recent(events, lo)
    decreases events
  {
    if events == [] {
      NoneUpTo(lo, n, n);
    } else {
      SlotsPartition(events[..|events| - 1], lo, n);
      OneMore(events, lo, n, n);
    }
  }

  lemma {:induction false} NoneUpTo(lo: int, k: nat, n: nat)
    requires n > 0
    ensures RecentUpTo([], lo, k, n) == 0
  {
    if k > 0 { NoneUpTo(lo, k - 1, n); }
  }

  // ---------------------------------------------------------------- one slot

  /** A slot holds the latest quantum that fell to it and the number of events in it, or was never used. */
  ghost predicate SlotOk(events: seq<nat>, i: nat, n: nat, ts: nat, cnt: nat)
    requires n > 0
  {
    if ts % n == i then
      cnt == InQuantum(events, ts) && forall k :: 0 <= k < |events| && events[k] % n == i ==> events[k] <= ts
    else
      cnt == 0 && forall k :: 0 <= k < |events| ==> events[k] % n != i
  }

  lemma SameResidue(a: nat, b: nat, n: nat)
    requires n > 0 && a % n == b % n && a <= b < a + n
    ensures a == b
  {
    var q, m, d := a / n, a % n, b - a;
    assert a == q * n + m;
    if m + d < n {
      DivUnique(b, n, q, m + d);
    } else {
      assert (q + 1) * n == q * n + n;
      DivUnique(b, n, q + 1, m + d - n);
    }
  }

  /** In the window a slot stands for one quantum only. */
  lemma {:induction false} SlotCounts(events: seq<nat>, now: nat, i: nat, n: nat, ts: nat)
    requires n > 0 && ts <= now && ts % n == i
    requires forall k :: 0 <= k < |events| && events[k] % n == i ==> events[k] <= ts
    ensures RecentIn(events, now - n, i, n) == if ts + n > now then InQuantum(events, ts) else 0
    decreases events
  {
    if events != [] {
      var m := |events| - 1;
      var e := events[m];
      SlotCounts(events[..m], now, i, n, ts);
      if e > now - n && e % n == i && ts + n > now { SameResidue(e, ts, n); }
    }
  }

  lemma {:induction false} SlotIdle(events: seq<nat>, lo: int, i: nat, n: nat)
    requires n > 0 && forall k :: 0 <= k < |events| ==> events[k] % n != i
    ensures RecentIn(events, lo, i, n) == 0
    decreases events
  {
    if events != [] { SlotIdle(events[..|events| - 1], lo, i, n); }
  }

  /** What a slot adds to the sum is what fell to it within the window. */
  lemma SlotAdds(events: seq<nat>, now: nat, i: nat, n: nat, ts: nat, cnt: nat)
    requires n > 0 && ts <= now && SlotOk(events, i, n, ts, cnt)
    ensures RecentIn(events, now - n, i, n) == if now < ts + n then cnt else 0
  {
    if ts % n == i { SlotCounts(events, now, i, n, ts); } else { SlotIdle(events, now - n, i, n); }
  }

  lemma {:induction false} NotInQuantum(events: seq<nat>, q: nat)
    requires forall k :: 0 <= k < |events| ==> events[k] != q
    ensures InQuantum(events, q) == 0
  {
    if events != [] { NotInQuantum(events[..|events| - 1], q); }
  }

  lemma {:induction false} Latest(events: seq<nat>, now: nat, n: nat, ts: nat, cnt: nat)
    requires n > 0 && ts <= now && SlotOk(events, now % n, n, ts, cnt)
    ensures ts == now ==> cnt == InQuantum(events, now)
    ensures ts != now ==> InQuantum(events, now) == 0
  {
    if ts != now { NotInQuantum(events, now); }
  }

  /** An event in the current quantum, or a slot merely taken over by another counter. */
  lemma {:induction false} SlotNext(events: seq<nat>, now: nat, k: nat, n: nat, ts: nat, cnt: nat, hit: bool)
    requires n > 0 && k < n && ts <= now && SlotOk(events, k, n, ts, cnt) && forall j :: 0 <= j < |events| ==> events[j] <= now
    ensures var next := if hit then events + [now] else events;
      if k == now % n then SlotOk(next, k, n, now, (if ts == now then cnt else 0) + if hit then 1 else 0)
      else SlotOk(next, k, n, ts, cnt)
  {
    assert (events + [now])[..|events|] == events;
    if k == now % n { Latest(events, now, n, ts, cnt); }
    hide InQuantum;
    if hit { QuantumNext(events, now); OtherQuantum(events, now, ts); }
  }

  lemma {:induction false} QuantumNext(events: seq<nat>, now: nat)
    ensures InQuantum(events + [now], now) == InQuantum(events, now) + 1
  {
    assert (events + [now])[..|events|] == events;
  }

  lemma {:induction false} OtherQuantum(events: seq<nat>, now: nat, q: nat)
    ensures q != now ==> InQuantum(events + [now], q) == InQuantum(events, q)
  {
    assert (events + [now])[..|events|] == events;
  }

  // ---------------------------------------------------------------- the ring

  predicate Slots(ts: seq<nat>, cnt: seq<seq<nat>>, kind: nat) {
    |ts| == |cnt| > 0 && forall i :: 0 <= i < |cnt| ==> kind < |cnt[i]|
  }

  function Cleared(n: nat): seq<nat> {
    seq(n, _ => 0)
  }

  function ClearedAll(n: nat, kinds: nat): seq<seq<nat>> {
    seq(n, _ => Cleared(kinds))
  }

  function Stamped(ts: seq<nat>, now: nat): (r: seq<nat>)
    requires |ts| > 0
    ensures |r| == |ts|
  {
    ts[now % |ts| := now]
  }

  /** The counters after an event of one kind: those of another quantum in its slot are cleared first. */
  function Counted(ts: seq<nat>, cnt: seq<seq<nat>>, kind: nat, now: nat): (r: seq<seq<nat>>)
    requires Slots(ts, cnt, kind)
    ensures |r| == |cnt| && forall i :: 0 <= i < |cnt| ==> |r[i]| == |cnt[i]|
  {
    var i := now % |ts|;
    var c := if ts[i] == now then cnt[i] else Cleared(|cnt[i]|);
    cnt[i := c[kind := c[kind] + 1]]
  }

  /** Sum of one counter over the first `k` slots that are still in the window. */
  function InFrame(ts: seq<nat>, cnt: seq<seq<nat>>, kind: nat, now: nat, k: nat): nat
    requires k <= |ts| && Slots(ts, cnt, kind)
  {
    if k == 0 then 0 else InFrame(ts, cnt, kind, now, k - 1) + if now < ts[k - 1] + |ts| then cnt[k - 1][kind] else 0
  }

  class Ring {
    const n: nat
    const kinds: nat
    const ts: array<nat>
    const cnt: array<seq<nat>>

    ghost var events: seq<seq<nat>>   // the quanta of all events so far, for each counter

    constructor (size: nat, kinds: nat)
      requires size > 0
      ensures Valid() && n == size && this.kinds == kinds && fresh(ts) && fresh(cnt)
      ensures events == seq(kinds, _ => []) && ts[..] == Cleared(n) && cnt[..] == ClearedAll(n, kinds)
    {
      n, this.kinds := size, kinds;
      ts := new nat[size](_ => 0);
      cnt := new seq<nat>[size](_ => Cleared(kinds));
      events := seq(kinds, _ => []);
    }

    ghost predicate Shape()
      reads this, ts, cnt
    {
      && n > 0 && ts.Length == cnt.Length == n && |events| == kinds
      && forall i :: 0 <= i < n ==> |cnt[i]| == kinds
    }

    /** Every counter of every slot is exact. */
    ghost predicate Valid()
      reads this, ts, cnt
    {
      && Shape()
      && forall i, k :: 0 <= i < n && 0 <= k < kinds ==> SlotOk(events[k], i, n, ts[i], cnt[i][k])
    }

    /** The quanta of all counters never go back: they share a time frame and a clock. */
    ghost predicate Before(now: nat)
      reads this, ts
    {
      && (forall k, j :: 0 <= k < |events| && 0 <= j < |events[k]| ==> events[k][j] <= now)
      && (ts.Length == n ==> forall i :: 0 <= i < n ==> ts[i] <= now)
    }

    /** Count an event in the current quantum of its counter; a slot of another one is taken over. */
    method Count(kind: nat, now: nat)
      requires Shape() && kind < kinds
      modifies this, ts, cnt
      ensures Shape() && events == old(events)[kind := old(events)[kind] + [now]]
      ensures ts[..] == Stamped(old(ts[..]), now)
      ensures cnt[..] == Counted(old(ts[..]), old(cnt[..]), kind, now)
      ensures old(Valid()) && old(Before(now)) ==> Valid() && Before(now) && cnt[now % n][kind] == InQuantum(events[kind], now)
    {
      hide SlotOk, InQuantum;
      var i := now % n;
      if ts[i] != now {
        ts[i] := now;
        cnt[i] := Cleared(kinds);
      }
      cnt[i] := cnt[i][kind := cnt[i][kind] + 1];
      events := events[kind := events[kind] + [now]];
      if old(Valid()) && old(Before(now)) {
        forall j, k | 0 <= j < n && 0 <= k < kinds ensures SlotOk(events[k], j, n, ts[j], cnt[j][k]) {
          assert old(SlotOk(events[k], j, n, ts[j], cnt[j][k]));
          SlotNext(old(events)[k], now, j, n, old(ts[j]), old(cnt[j][k]), k == kind);
        }
        SlotHolds(events[kind], i, n, now, cnt[i][kind]);
      }
    }

    /** Sum the slots that are still in the window. */
    method Total(kind: nat, now: nat) returns (sum: nat)
      requires Shape() && kind < kinds
      ensures sum == InFrame(ts[..], cnt[..], kind, now, n)
      ensures Valid() && Before(now) ==> sum == Recent(events[kind], now - n)
    {
      sum := 0;
      ghost var exact := Valid() && Before(now);
      for i := 0 to n
        invariant sum == InFrame(ts[..], cnt[..], kind, now, i)
        invariant exact ==> sum == RecentUpTo(events[kind], now - n, i, n)
      {
        if exact {
          assert SlotOk(events[kind], i, n, ts[i], cnt[i][kind]);
          SlotAdds(events[kind], now, i, n, ts[i], cnt[i][kind]);
        }
        if now < ts[i] + n {
          sum := sum + cnt[i][kind];
        }
      }
      if exact { SlotsPartition(events[kind], now - n, n); }
    }

    /** Response code limit: with one time frame, blocked exactly if the last `n` quanta hold more events
        than allowed. */
    method CodeLimit(now: nat, limit: nat) returns (block: bool)
      requires Shape() && kinds == 1
      modifies this, ts, cnt
      ensures Shape() && events == [old(events)[0] + [now]]
      ensures old(Valid()) && old(Before(now)) ==> Valid() && Before(now) && (block <==> Recent(events[0], now - n) > limit)
    {
      hide SlotOk, Recent, InQuantum;
      Count(0, now);
      var sum := Total(0, now);
      block := sum > limit;
    }

    /** Health of a server: bad once the window holds more bad responses than allowed; a limit of zero means
        none, and without a time frame nothing is counted. */
    method HealthLimit(tframe: nat, now: nat, limit: nat) returns (exceeded: bool)
      requires Shape() && kinds == 1
      modifies this, ts, cnt
      ensures Shape() && events == if tframe == 0 then old(events) else [old(events)[0] + [now]]
      ensures tframe == 0 ==> !exceeded && ts[..] == old(ts[..]) && cnt[..] == old(cnt[..])
      ensures tframe > 0 && old(Valid()) && old(Before(now)) ==>
        Valid() && Before(now) && (exceeded <==> limit > 0 && Recent(events[0], now - n) > limit)
    {
      hide SlotOk, Recent, InQuantum;
      var sum := 0;
      if tframe > 0 {
        Count(0, now);
        sum := Total(0, now);
      }
      exceeded := limit > 0 && sum > limit;
    }

    /** Request limits: a burst within one quantum or a rate over the window; a zero limit is off. */
    method RequestLimit(now: nat, burst: nat, rate: nat) returns (block: bool)
      requires Shape() && kinds == KINDS
      modifies this, ts, cnt
      ensures Shape() && events == if burst == 0 && rate == 0 then old(events) else old(events)[REQ := old(events)[REQ] + [now]]
      ensures old(Valid()) && old(Before(now)) ==> Valid() && Before(now) && (block <==> Exceeds(events[REQ], now, n, burst, rate))
      ensures burst > 0 || rate > 0 ==>
        && ts[..] == Stamped(old(ts[..]), now)
        && cnt[..] == Counted(old(ts[..]), old(cnt[..]), REQ, now)
      ensures burst == 0 && rate > 0 ==> (block <==> InFrame(ts[..], cnt[..], REQ, now, n) > rate)
    {
      hide SlotOk, Recent, InQuantum;
      if burst == 0 && rate == 0 {
        return false;
      }
      Count(REQ, now);
      if burst > 0 && cnt[now % n][REQ] > burst {
        return true;
      }
      if rate > 0 {
        var sum := Total(REQ, now);
        return sum > rate;
      }
      block := false;
    }

    /** Connection limits, with `curr` connections open: every connection is counted, even without a limit. */
    method ConnLimit(now: nat, curr: nat, max: nat, burst: nat, rate: nat) returns (block: bool)
      requires Shape() && kinds == KINDS
      modifies this, ts, cnt
      ensures Shape() && events == old(events)[CONN := old(events)[CONN] + [now]]
      ensures ts[..] == Stamped(old(ts[..]), now)
      ensures cnt[..] == Counted(old(ts[..]), old(cnt[..]), CONN, now)
      ensures old(Valid()) && old(Before(now)) ==> Valid() && Before(now) && (block <==> (max > 0 && curr > max) || Exceeds(events[CONN], now, n, burst, rate))
    {
      hide SlotOk, Recent, InQuantum;
      Count(CONN, now);
      if max > 0 && curr > max {
        return true;
      }
      if burst > 0 && cnt[now % n][CONN] > burst {
        return true;
      }
      if rate > 0 {
        var sum := Total(CONN, now);
        return sum > rate;
      }
      block := false;
    }
  }

  const CONN := 0
  const REQ := 1
  const KINDS := 2
  const FRANG_FREQ := 8

  ghost predicate Exceeds(events: seq<nat>, now: nat, n: nat, burst: nat, rate: nat) {
    (burst > 0 && InQuantum(events, now) > burst) || (rate > 0 && Recent(events, now - n) > rate)
  }

  lemma {:induction false} SlotHolds(events: seq<nat>, i: nat, n: nat, ts: nat, cnt: nat)
    requires n > 0 && SlotOk(events, i, n, ts, cnt) && ts % n == i
    ensures cnt == InQuantum(events, ts)
  {
  }

  // ---------------------------------------------------------------- one time frame or two

  /** The number of the quantum at a time, in a time frame. */
  function Quantum(jiffies: nat, tframe: nat): nat
    requires tframe > 0
  {
    jiffies / tframe
  }

  /** In one time frame quanta never go back. */
  lemma QuantaAscend(j: nat, k: nat, tframe: nat)
    requires j <= k && tframe > 0
    ensures Quantum(j, tframe) <= Quantum(k, tframe)
  {
    var a, b := j / tframe, k / tframe;
    if b < a {
      assert (b + 1) * tframe <= a * tframe by { Bits.MulGap(b + 1, a, tframe); }
    }
  }

  /** With two time frames, of 125 and 250 jiffies, a connection wipes out a request: two requests within the
      window, a limit of one, and no block. */
  method LostRequest() returns (r: Ring, block: bool)
    ensures r.Shape() && r.n == FRANG_FREQ && r.events == [[Quantum(2000, 250)], [Quantum(2000, 125), Quantum(2125, 125)]]
    ensures Recent(r.events[REQ], Quantum(2125, 125) - r.n) == 2 && !block
  {
    hide SlotOk, Recent, InQuantum, InFrame, Stamped, Counted;
    r := new Ring(FRANG_FREQ, KINDS);
    var b := r.RequestLimit(Quantum(2000, 125), 0, 1);
    b := r.ConnLimit(Quantum(2000, 250), 1, 0, 0, 0);
    block := r.RequestLimit(Quantum(2125, 125), 0, 1);
    OneInFrame();
    assert r.events[CONN] == [8] && r.events[REQ] == [16, 17];
    TwoRecent();
  }

  lemma OneInFrame()
    ensures var zero := Cleared(FRANG_FREQ); var none := ClearedAll(FRANG_FREQ, KINDS);
      var cnt := Counted(zero, none, REQ, 16); var ts := Stamped(zero, 16);
      var cnt' := Counted(ts, cnt, CONN, 8); var ts' := Stamped(ts, 8);
      InFrame(Stamped(ts', 17), Counted(ts', cnt', REQ, 17), REQ, 17, FRANG_FREQ) == 1
  {
    var zero := Cleared(FRANG_FREQ);
    var none := ClearedAll(FRANG_FREQ, KINDS);
    var cnt := Counted(zero, none, REQ, 16);
    var ts := Stamped(zero, 16);
    var cnt' := Counted(ts, cnt, CONN, 8);
    var ts' := Stamped(ts, 8);
    var end, last := Counted(ts', cnt', REQ, 17), Stamped(ts', 17);
    assert last == [8, 17, 0, 0, 0, 0, 0, 0];
    assert end[1][REQ] == 1;
    OnlySecond(last, end);
  }

  lemma {:induction false} OnlySecond(ts: seq<nat>, cnt: seq<seq<nat>>)
    requires Slots(ts, cnt, REQ) && ts == [8, 17, 0, 0, 0, 0, 0, 0] && cnt[1][REQ] == 1
    ensures InFrame(ts, cnt, REQ, 17, 8) == 1
  {
    assert InFrame(ts, cnt, REQ, 17, 0) == 0;
    assert InFrame(ts, cnt, REQ, 17, 1) == 0;
    assert InFrame(ts, cnt, REQ, 17, 2) == 1;
    assert InFrame(ts, cnt, REQ, 17, 4) == 1;
    assert InFrame(ts, cnt, REQ, 17, 6) == 1;
  }

  lemma TwoRecent()
    ensures Recent([16, 17], 9) == 2
  {
    assert [16, 17][..1] == [16];
  }
}
