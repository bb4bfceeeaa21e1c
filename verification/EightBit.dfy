/** Three header fields with a byte above 0x7F that lead a search astray. */
module EightBit {
  import opened Common
  import opened RbTree
  import opened HeaderOrder
  import opened SearchOrder
  import opened EncoderTable
  import RbIndex

  const NAME: Bytes := [0x78]
  const LOW: Bytes := [0x20, 0x20, 0x20, 0x20]
  const MID: Bytes := [0x70, 0x20, 0x20, 0x20]
  const HIGH: Bytes := [0xC0, 0x20, 0x20, 0x20]

  const STORE := Store(map[0 := Head(1, 1, 5), 32 := Head(2, 1, 5), 64 := Head(3, 1, 5)],
                       map[0 := NAME + LOW, 32 := NAME + MID, 64 := NAME + HIGH])

  function Sample(v: Bytes): Field {
    Field(NAME, v)
  }

  predicate Samples(v: Bytes) {
    v == LOW || v == MID || v == HIGH
  }

  lemma OneChunk(v: Bytes)
    ensures Flatten([v]) == v
  {
    assert [v][1..] == [];
    assert v + [] == v;
  }

  lemma SampleBytes(v: Bytes)
    requires Samples(v)
    ensures BytesField(Sample(v)) && InBytes([NAME], [v]) && Field(Flatten([NAME]), Flatten([v])) == Sample(v)
  {
    OneChunk(NAME);
    OneChunk(v);
  }

  /** Samples are compared by their values, in one block. */
  lemma {:induction false} SampleCompared(v: Bytes, w: Bytes)
    requires Samples(v) && Samples(w) && v != w
    ensures InBytes([NAME], [v]) && BytesField(Sample(w)) && Rank(Sample(v)) != Rank(Sample(w))
    ensures Compared([NAME], [v], Sample(w)) == if FairBlock(v, w) then Lex(v, w) else -Lex(v, w)
  {
    SampleBytes(v);
    SampleBytes(w);
    assert FairChunks(false, [v], w) == FairBlock(v, w) by {
      ChunkBytes([v]);
      assert w[..4] == w;
      assert Block(false, v, 0) == v && Block(false, w, 0) == w;
      hide Flatten, IsBytes, Block, FairBlock;
    }
    LexZero(v, w);
    hide FairBlock, FairChunks, IsBytes, Flatten;
    RankByValue(Sample(v), Sample(w), Lex(v, w), true);
  }

  /** The middle value is above the low one, the high one above the middle one and, as the
      difference overflows, below the low one. */
  lemma SampleOrder()
    ensures InBytes([NAME], [MID]) && InBytes([NAME], [HIGH]) && BytesField(Sample(LOW)) && BytesField(Sample(MID)) && BytesField(Sample(HIGH))
    ensures Compared([NAME], [MID], Sample(LOW)) > 0 && Compared([NAME], [HIGH], Sample(LOW)) < 0
    ensures Compared([NAME], [HIGH], Sample(MID)) > 0 && Compared([NAME], [MID], Sample(HIGH)) < 0
  {
    SampleCompared(MID, LOW);
    SampleCompared(HIGH, LOW);
    SampleCompared(HIGH, MID);
    SampleCompared(MID, HIGH);
    hide Compared, InBytes, BytesField;
    assert Lex(MID, LOW) == 1 && Lex(HIGH, LOW) == 1 && Lex(HIGH, MID) == 1 && Lex(MID, HIGH) == -1;
  }

  /** The samples with the given offsets are in memory. */
  lemma SampleStored()
    ensures Holds(STORE, 0, Sample(LOW)) && Holds(STORE, 32, Sample(MID)) && Holds(STORE, 64, Sample(HIGH))
  {
  }

  /** A search that passes the root goes on in the subtree the comparison points to. */
  lemma {:induction false} RootSide(c: Ctx, u: Tree, t: Tree, hName: seq<Bytes>, hVal: seq<Bytes>, at: Keys) returns (d: Ctx)
    requires InBytes(hName, hVal) && Plug(c, u) == t && t.Node? && !c.Top? && Guided(c, hName, hVal, at)
    ensures t.off in at && BytesField(at[t.off])
    ensures || (Compared(hName, hVal, at[t.off]) < 0 && c == Append(d, InLeft(t.off, t.black, Top, t.right)) && Plug(d, u) == t.left)
            || (Compared(hName, hVal, at[t.off]) > 0 && c == Append(d, InRight(t.off, t.black, Top, t.left)) && Plug(d, u) == t.right)
    decreases c
  {
    hide Compared, InBytes, BytesField;
    if c.up.Top? {
      d := Top;
    } else {
      var e := RootSide(c.up, Above(c, u), t, hName, hVal, at);
      d := c.(up := e);
    }
  }

  lemma {:induction false} FreeLeaf(d: Ctx)
    requires Plug(d, Leaf) == Leaf
    ensures d == Top
  {
    if !d.Top? { PlugNode(d.up, Above(d, Leaf)); }
  }

  /** A field with value `v` is in the tree, and no search for it ends at it. */
  ghost predicate Missed(t: Tree, at: Keys, v: Bytes)
    requires InBytes([NAME], [v])
  {
    && (exists o :: o in at && at[o] == Sample(v))
    && forall c, u: Tree :: Guided(c, [NAME], [v], at) && Plug(c, u) == t && u.Node? ==> u.off in at && at[u.off] != Sample(v)
  }

  /** In whichever way two fields lie that are in the wrong order, the lower one is missed. */
  lemma {:induction false} WrongOrder(t: Tree, at: Keys, top: Bytes, low: Bytes)
    requires t.Node? && at.Keys == Offs(t) && Samples(top) && Samples(low) && top != low
    requires InBytes([NAME], [low]) && BytesField(Sample(top))
    requires t.off in at && at[t.off] == Sample(top) && exists o :: o in at && at[o] == Sample(low)
    requires if t.left == Leaf then Compared([NAME], [low], Sample(top)) < 0 else t.right == Leaf && Compared([NAME], [low], Sample(top)) > 0
    ensures Missed(t, at, low)
  {
    hide Compared, InBytes, BytesField;
    forall c, u: Tree | Guided(c, [NAME], [low], at) && Plug(c, u) == t && u.Node? ensures u.off in at && at[u.off] != Sample(low) {
      if !c.Top? {
        var d := RootSide(c, u, t, [NAME], [low], at);
        PlugNode(d, u);
      }
    }
  }

  /** Look a sample up and link it; below a black node or in an empty tree nothing is rotated. */
  method Link(index: RbIndex.Index, node: int, v: Bytes, ghost t: Tree, ghost at: Keys) returns (ghost c: Ctx, ghost t': Tree)
    requires Samples(v) && Readable(index.links, index.root, STORE, t, at) && Balanced(Top, t) && |index.links| == 4096
    requires node in {0, 32, 64} && node !in at && Holds(STORE, node, Sample(v)) && forall o :: o in at ==> Rank(at[o]) != Rank(Sample(v))
    modifies index
    ensures Readable(index.links, index.root, STORE, t', at[node := Sample(v)]) && Balanced(Top, t') && |index.links| == 4096
    ensures InBytes([NAME], [v]) && Guided(c, [NAME], [v], at) && Plug(c, Leaf) == t
    ensures c.Top? || c.black ==> t' == Grown(c, node)
  {
    hide Rep, Balanced, Guided, Rank, Samples, InBytes, BytesField, Holds;
    SampleBytes(v);
    ghost var u;
    var res, found, parent, toLeft;
    res, found, parent, toLeft, c, u := RbtreeFind(index, STORE, [NAME], [v], t, at);
    RepPlug(index.links, index.root, c, Leaf);
    BalancedPlug(c, Leaf);
    PlugOffs(c, Leaf);
    t' := index.Add(node, parent, toLeft, c);
    GrownOffs(c, node, t');
  }

  function Grown(c: Ctx, node: int): Tree {
    var t := Plug(c, Node(node, false, Leaf, Leaf));
    if t.Node? then t.(black := true) else t
  }

  lemma {:induction false} GrownOffs(c: Ctx, node: int, t: Tree)
    requires Inorder(t) == Before(c) + [node] + After(c)
    ensures Offs(t) == CtxOffs(c) + {node}
  {
    InorderOffs(t);
    CtxInorderOffs(c);
    forall o ensures o in Offs(t) <==> o in CtxOffs(c) + {node} {
      assert o in Inorder(t) <==> o in Before(c) || o == node || o in After(c);
    }
  }

  lemma {:induction false} SecondPlace(c: Ctx, at: Keys)
    requires InBytes([NAME], [MID]) && Guided(c, [NAME], [MID], at) && 0 in at && at[0] == Sample(LOW)
    requires Plug(c, Leaf) == Node(0, true, Leaf, Leaf)
    ensures c == InRight(0, true, Top, Leaf) && Grown(c, 32) == Node(0, true, Leaf, Node(32, false, Leaf, Leaf))
  {
    SampleOrder();
    hide Compared, InBytes, BytesField;
    var d := RootSide(c, Leaf, Node(0, true, Leaf, Leaf), [NAME], [MID], at);
    FreeLeaf(d);
  }

  lemma {:induction false} ThirdPlace(c: Ctx, at: Keys, r: Tree)
    requires InBytes([NAME], [HIGH]) && Guided(c, [NAME], [HIGH], at) && 0 in at && at[0] == Sample(LOW)
    requires Plug(c, Leaf) == Node(0, true, Leaf, r)
    ensures c == InLeft(0, true, Top, r) && Grown(c, 64) == Node(0, true, Node(64, false, Leaf, Leaf), r)
  {
    SampleOrder();
    hide Compared, InBytes, BytesField;
    var d := RootSide(c, Leaf, Node(0, true, Leaf, r), [NAME], [HIGH], at);
    FreeLeaf(d);
    assert Plug(c, Node(64, false, Leaf, Leaf)) == Plug(Top, Node(0, true, Node(64, false, Leaf, Leaf), r));
  }

  /** A tree the program builds in three additions and an eviction. */
  method Build() returns (index: RbIndex.Index, ghost t: Tree, ghost at: Keys)
    ensures fresh(index) && Readable(index.links, index.root, STORE, t, at) && Balanced(Top, t)
    ensures InBytes([NAME], [HIGH]) && Missed(t, at, HIGH) && at == map[32 := Sample(MID), 64 := Sample(HIGH)]
    ensures t == Node(32, true, Node(64, false, Leaf, Leaf), Leaf)
  {
    hide Rep, Balanced, Rank, InBytes, BytesField, Holds, Compared, Guided, Missed, Inorder, Plug, Grown;
    SampleStored();
    SampleOrder();
    RanksDiffer();
    SampleBytes(LOW);
    index := new RbIndex.Index(4096);
    EmptyTree(index.links);
    ghost var c;
    t, at := Leaf, map[];
    c, t := Link(index, 0, LOW, t, at);
    FirstPlace(c, t);
    at := at[0 := Sample(LOW)];
    c, t := Link(index, 32, MID, t, at);
    SecondPlace(c, at);
    at := at[32 := Sample(MID)];
    c, t := Link(index, 64, HIGH, t, at);
    ThirdPlace(c, at, Node(32, false, Leaf, Leaf));
    at := at[64 := Sample(HIGH)];
    t, at := EvictFirst(index, t, at);
  }

  /** A field in that tree the program does not find again. */
  method LostField() returns (index: RbIndex.Index, res: Result, ghost t: Tree, ghost at: Keys)
    ensures fresh(index) && Readable(index.links, index.root, STORE, t, at) && Balanced(Top, t)
    ensures InBytes([NAME], [HIGH]) && Missed(t, at, HIGH) && res != Found
    ensures at == map[32 := Sample(MID), 64 := Sample(HIGH)] && t == Node(32, true, Node(64, false, Leaf, Leaf), Leaf)
  {
    hide Rep, Balanced, Rank, InBytes, BytesField, Holds, Compared, Guided, Missed;
    index, t, at := Build();
    var node, parent, toLeft;
    ghost var c, u;
    res, node, parent, toLeft, c, u := RbtreeFind(index, STORE, [NAME], [HIGH], t, at);
    SampleBytes(HIGH);
    MissedAgain(t, at, HIGH, res, node, c, u, parent, toLeft);
  }

  /** It turns up when the node above it is evicted: what a commit runs into that evicts this node to add
      the field anew. */
  method TurnsUp() returns (index: RbIndex.Index, first: Result, second: Result)
    ensures first != Found && second == Found
  {
    hide Rep, Balanced, Rank, InBytes, BytesField, Holds, Compared, Missed, Inorder, Without;
    ghost var t, at;
    index, first, t, at := LostField();
    LastOut(t);
    t := index.Erase(32, t);
    at := at - {32};
    OneLeft(t);
    assert at == map[64 := Sample(HIGH)];
    var node, parent, toLeft;
    ghost var c, u;
    second, node, parent, toLeft, c, u := RbtreeFind(index, STORE, [NAME], [HIGH], t, at);
    SampleBytes(HIGH);
    if second != Found { EqualStops(c, at); }
  }

  lemma {:induction false} LastOut(t: Tree)
    requires t == Node(32, true, Node(64, false, Leaf, Leaf), Leaf)
    ensures Without(Inorder(t), 32) == [64] && 32 in Offs(t)
  {
    assert [32] + Walk(Leaf, []) == [32];
    assert Walk(Node(64, false, Leaf, Leaf), [32]) == [64] + [32];
    assert Inorder(t) == [64, 32];
    WithoutMiddle([64], 32, []);
    assert [64] + [32] + [] == [64, 32] && [64] + [] == [64];
  }

  lemma {:induction false} OneLeft(t: Tree)
    requires Inorder(t) == [64]
    ensures t.Node? && Offs(t) == {64}
  {
    hide Inorder, Offs;
    InorderOffs(t);
    forall o ensures o in Offs(t) <==> o == 64 { assert o in [64] <==> o == 64; }
    NodeOffs(t);
  }

  lemma {:induction false} NodeOffs(t: Tree)
    ensures 64 in Offs(t) ==> t.Node?
  {
  }

  /** No search for a field goes past an equal one. */
  lemma {:induction false} EqualStops(c: Ctx, at: Keys)
    requires InBytes([NAME], [HIGH]) && Guided(c, [NAME], [HIGH], at) && at == map[64 := Sample(HIGH)]
    ensures c.Top?
  {
    SampleBytes(HIGH);
    hide InBytes, BytesField;
    assert Compared([NAME], [HIGH], Sample(HIGH)) == 0 by { LexZero(Rank(Sample(HIGH)), Rank(Sample(HIGH))); }
    hide Compared;
  }

  lemma RanksDiffer()
    ensures Rank(Sample(LOW)) != Rank(Sample(MID)) && Rank(Sample(LOW)) != Rank(Sample(HIGH)) && Rank(Sample(MID)) != Rank(Sample(HIGH))
  {
    SampleCompared(LOW, MID);
    SampleCompared(LOW, HIGH);
    SampleCompared(MID, HIGH);
  }

  lemma EmptyTree(m: Links)
    ensures Readable(m, -1, STORE, Leaf, map[]) && Balanced(Top, Leaf)
  {
  }

  lemma {:induction false} FirstPlace(c: Ctx, t: Tree)
    requires Plug(c, Leaf) == Leaf && (c.Top? || c.black ==> t == Grown(c, 0))
    ensures t == Node(0, true, Leaf, Leaf)
  {
    FreeLeaf(c);
  }

  method EvictFirst(index: RbIndex.Index, ghost t: Tree, ghost at: Keys) returns (ghost t': Tree, ghost at': Keys)
    requires Readable(index.links, index.root, STORE, t, at) && Balanced(Top, t)
    requires at == map[0 := Sample(LOW), 32 := Sample(MID), 64 := Sample(HIGH)]
    requires t == Node(0, true, Node(64, false, Leaf, Leaf), Node(32, false, Leaf, Leaf))
    modifies index
    ensures Readable(index.links, index.root, STORE, t', at') && Balanced(Top, t')
    ensures InBytes([NAME], [HIGH]) && Missed(t', at', HIGH) && at' == map[32 := Sample(MID), 64 := Sample(HIGH)]
    ensures t' == Node(32, true, Node(64, false, Leaf, Leaf), Leaf)
  {
    FirstOut(t);
    hide Rep, Balanced, InBytes, BytesField, Holds, Missed, Inorder, Without, Offs;
    t' := index.Erase(0, t);
    at' := at - {0};
    assert at' == map[32 := Sample(MID), 64 := Sample(HIGH)];
    MidOnTop(t', at');
  }

  lemma {:induction false} MidOnTop(t: Tree, at: Keys)
    requires t == Node(32, true, Node(64, false, Leaf, Leaf), Leaf) && at == map[32 := Sample(MID), 64 := Sample(HIGH)]
    ensures Offs(t) == at.Keys && InBytes([NAME], [HIGH]) && Missed(t, at, HIGH)
  {
    SampleOrder();
    hide InBytes, BytesField, Compared, Missed;
    assert Offs(t) == {32, 64} && at[64] == Sample(HIGH);
    WrongOrder(t, at, MID, HIGH);
  }

  lemma {:induction false} FirstOut(t: Tree)
    requires t == Node(0, true, Node(64, false, Leaf, Leaf), Node(32, false, Leaf, Leaf))
    ensures Without(Inorder(t), 0) == [64, 32] && 0 in Offs(t)
  {
    assert Walk(Leaf, [32] + Walk(Leaf, [])) == [32];
    assert Walk(Leaf, [64] + Walk(Leaf, [0] + [32])) == [64, 0, 32];
    assert Inorder(t) == [64, 0, 32];
    WithoutMiddle([64], 0, [32]);
    assert [64] + [0] + [32] == [64, 0, 32];
  }

  lemma {:induction false} MissedAgain(t: Tree, at: Keys, v: Bytes, res: Result, node: int, c: Ctx, u: Tree, parent: int, toLeft: bool)
    requires Samples(v) && InBytes([NAME], [v]) && Missed(t, at, v) && Guided(c, [NAME], [v], at)
    requires SoundIn(at, Sample(v), res, node) && EndsAt(t, c, u, res, node, parent, toLeft)
    requires at == map[32 := Sample(MID), 64 := Sample(HIGH)]
    ensures res != Found
  {
    if res == Found {
      assert Plug(c, u) == t && u.off == node;
      var w := if node == 32 then MID else HIGH;
      if w != v { SampleCompared(v, w); }
    }
  }
}
