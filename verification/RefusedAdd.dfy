/** A header field the encoder table has room for and still refuses, although its ring buffer has not
    wrapped. */
module RefusedAdd {
  import opened Common
  import opened RbTree
  import opened HeaderOrder
  import opened EncoderTable
  import opened Ring
  import D = DynTable

  function Text(n: nat): Bytes {
    seq(n, _ => 0x61)
  }

  function Sample(n: nat, v: nat): Field {
    Field(Text(n), Text(v))
  }

  lemma SampleBytes(n: nat, v: nat)
    ensures BytesField(Sample(n, v)) && InBytes([Text(n)], [Text(v)]) && Field(Flatten([Text(n)]), Flatten([Text(v)])) == Sample(n, v)
    ensures D.EntrySize(Sample(n, v)) == 32 + n + v
  {
    assert Flatten([Text(n)]) == Text(n) by { assert [Text(n)][1..] == [] && Text(n) + [] == Text(n); }
    assert Flatten([Text(v)]) == Text(v) by { assert [Text(v)][1..] == [] && Text(v) + [] == Text(v); }
  }

  /** Names of different lengths are told apart by these. */
  lemma FairSample(n: nat, v: nat, t: D.Table)
    requires forall i :: 0 <= i < |t| ==> BytesField(t[i]) && |t[i].name| != n
    ensures InBytes([Text(n)], [Text(v)]) && FairTable([Text(n)], [Text(v)], t)
  {
    SampleBytes(n, v);
  }

  lemma NotThere(t: D.Table, n: nat, v: nat, res: Result, index: int)
    requires LookedUp(t, Sample(n, v), res, index) && forall i :: 0 <= i < |t| ==> |t[i].name| != n
    ensures res != Found
  {
    hide Rank;
    forall i | 0 <= i < |t| ensures Rank(t[i]) != Rank(Sample(n, v)) { RankByLength(t[i], Sample(n, v)); }
  }

  lemma {:induction false} SizeOne(f: Field)
    ensures D.Size([f]) == D.EntrySize(f)
  {
    assert [f][1..] == [];
  }

  const FIRST := Slot(0, 1576)
  const SECOND := Slot(1600, 976)

  lemma {:induction false} FirstAdded(f: Field)
    requires |f.name| + |f.value| == 1576
    ensures CanAdd([], [], [], BUF_SIZE, f) && Put([], [], [], BUF_SIZE, f) == ([FIRST], [])
  {
    NoneEvicted([], BUF_SIZE, f);
    hide D.Evict, D.Insert, D.Size, Evictions;
    assert [] + [FIRST] == [FIRST];
  }

  lemma {:induction false} SecondAdded(f: Field, g: Field)
    requires |f.name| + |f.value| == 1576 && |g.name| + |g.value| == 976
    ensures CanAdd([FIRST], [], [f], BUF_SIZE, g) && Put([FIRST], [], [f], BUF_SIZE, g) == ([FIRST, SECOND], [])
  {
    SizeOne(f);
    NoneEvicted([f], BUF_SIZE, g);
    hide D.Evict, D.Insert, D.Size, Evictions;
    IterOne(FIRST);
    hide IterOf;
    assert [FIRST][0..] == [FIRST] && [FIRST] + [SECOND] == [FIRST, SECOND];
  }

  lemma {:induction false} IterOne(s: Slot)
    ensures IterOf([s], []) == Iter(s.off, s.off, NodeLen(s.hdrLen), BUF_SIZE, 32 + s.hdrLen)
  {
    assert [s] + [] == [s] && [s][1..] == [];
    assert Pseudo([s]) == 32 + s.hdrLen;
  }

  lemma {:induction false} ThirdRefused(g: Field, h: Field)
    requires |g.name| + |g.value| == 976 && |h.name| + |h.value| == 1900
    ensures !CanAdd([SECOND], [], [g], BUF_SIZE, h)
  {
    SizeOne(g);
    NoneEvicted([g], BUF_SIZE, h);
    hide D.Evict, D.Insert, D.Size, Evictions;
    IterOne(SECOND);
    hide IterOf;
    assert [SECOND][0..] == [SECOND];
  }

  lemma {:induction false} FirstEvicted(f: Field, g: Field)
    requires D.EntrySize(f) == 1608 && D.EntrySize(g) == 1008
    ensures D.Evict([f, g], 1500) == [g] && D.Evict([g], BUF_SIZE) == [g] && [f] + [g] == [f, g]
  {
    assert [f, g][1..] == [g];
    SizeOne(g);
  }

  /** Index a sample whose name has a length of its own. */
  method AddSample(e: EncTable, n: nat, v: nat, junk: Links) returns (added: bool)
    requires e.Valid() && e.InOrder() && |junk| == BUF_SIZE && forall i :: 0 <= i < |e.contents| ==> BytesField(e.contents[i]) && |e.contents[i].name| != n
    modifies e, e.index
    ensures e.Valid() && e.InOrder() && e.window == old(e.window) && e.wndChanged == old(e.wndChanged)
    ensures |old(e.hi) + old(e.lo)| == |old(e.contents)| && 0 <= e.window
    ensures added <==> CanAdd(old(e.hi), old(e.lo), old(e.contents), e.window, Sample(n, v))
    ensures e.contents == if added then D.Insert(old(e.contents), e.window, Sample(n, v)) else old(e.contents)
    ensures (e.hi, e.lo) == if added then Put(old(e.hi), old(e.lo), old(e.contents), e.window, Sample(n, v)) else (old(e.hi), old(e.lo))
  {
    hide Sample, Text, CanAdd, Put, LookedUp, SoundLookup, Ranked, FairTable, InBytes, BytesField, Flatten, TableOk, D.Insert, D.Evict, D.Size, D.EntrySize, SplitHi, SplitLo;
    SampleBytes(n, v);
    FairSample(n, v, e.contents);
    e.ValidWindow();
    var res, at, warned;
    res, at, added, warned := e.EncoderIndex([Text(n)], [Text(v)], junk);
    NotThere(old(e.contents), n, v, res, at);
  }

  lemma Sizes(n: nat, v: nat)
    ensures var f := Sample(n, v); |f.name| == n && |f.name| + |f.value| == n + v && BytesField(f) && D.EntrySize(f) == 32 + n + v
  {
  }

  /** The two fields of the beginning. */
  method Fill(junk: Links) returns (e: EncTable)
    requires |junk| == BUF_SIZE
    ensures e.Valid() && e.InOrder() && fresh(e) && fresh(e.index) && e.window == BUF_SIZE && !e.wndChanged
    ensures e.hi == [FIRST, SECOND] && e.lo == [] && e.contents == [Sample(1, 1575), Sample(2, 974)]
  {
    hide Sample, Text, CanAdd, Put, Ranked, BytesField, TableOk, D.Insert, D.Evict, D.Size, D.EntrySize, SplitHi, SplitLo;
    Sizes(1, 1575);
    Sizes(2, 974);
    ghost var f, g := Sample(1, 1575), Sample(2, 974);
    e := new EncTable(BUF_SIZE);
    e.ValidSplit();
    FirstAdded(f);
    EmptySize();
    NoneEvicted([], BUF_SIZE, f);
    var added := AddSample(e, 1, 1575, junk);
    assert e.contents == [f];
    SecondAdded(f, g);
    SizeOne(f);
    NoneEvicted([f], BUF_SIZE, g);
    added := AddSample(e, 2, 974, junk);
    assert [f] + [g] == [f, g];
  }

  lemma EmptySize()
    ensures D.Size([]) == 0
  {
  }

  /** Two fields added, the older one evicted by a smaller window, and the window restored: the buffer
      has not wrapped, and a field of less than half its size is refused. */
  method RefusedUnwrapped(junk: Links) returns (e: EncTable, added: bool)
    requires |junk| == BUF_SIZE
    ensures e.Valid() && e.lo == [] && e.window == BUF_SIZE && e.contents == [Sample(2, 974)]
    ensures D.Size(e.contents) + D.EntrySize(Sample(3, 1897)) <= e.window && !added
  {
    hide Sample, Text, CanAdd, Put, Ranked, BytesField, TableOk, D.Insert, D.Evict, D.Size, D.EntrySize;
    Sizes(1, 1575);
    Sizes(2, 974);
    Sizes(3, 1897);
    ghost var f, g, h := Sample(1, 1575), Sample(2, 974), Sample(3, 1897);
    FirstEvicted(f, g);
    SizeOne(g);
    e := Fill(junk);
    e.SetRbufSize(1500);
    assert e.hi == [FIRST, SECOND][1..] == [SECOND];
    var sz := e.WriteSize();
    e.SetRbufSize(BUF_SIZE);
    assert e.hi == [SECOND][0..] == [SECOND];
    ThirdRefused(g, h);
    added := AddSample(e, 3, 1897, junk);
  }
}
