/** The HPACK encoder table: ring buffer of nodes, indexed by a red-black tree. */
module EncoderTable {
  import opened Common
  import opened RbTree
  import opened HeaderOrder
  import opened SearchOrder
  import opened Ring
  import RbIndex
  import D = DynTable

  const MAX_ENC_EVICTION := 5

  datatype Result = NotFound | NameFound | Found

  datatype Head = Head(rindex: int, nameLen: nat, hdrLen: nat)

  /** Head fields and header texts of the nodes whose bytes are intact, by offset. */
  datatype Store = Store(heads: map<int, Head>, texts: map<int, Bytes>)

  /** Node `o` holds the field `f`. */
  predicate Holds(st: Store, o: int, f: Field) {
    && o in st.heads && o in st.texts
    && st.heads[o].nameLen == |f.name| && st.heads[o].hdrLen == |f.name| + |f.value|
    && st.texts[o] == f.name + f.value
  }

  function FieldIn(st: Store, o: int): Field
    requires o in st.heads && o in st.texts && st.heads[o].nameLen <= |st.texts[o]|
  {
    Field(st.texts[o][..st.heads[o].nameLen], st.texts[o][st.heads[o].nameLen..])
  }

  lemma HoldsField(st: Store, o: int, f: Field)
    requires Holds(st, o, f)
    ensures FieldIn(st, o) == f
  {
  }

  /** The tree in memory holds the stored fields. */
  ghost predicate Readable(m: Links, root: int, st: Store, t: Tree, at: Keys) {
    && Rep(m, root, Top, t) && at.Keys == Offs(t)
    && (forall o :: o in at ==> Holds(st, o, at[o]) && BytesField(at[o]))
  }

  /** It is, moreover, balanced. */
  ghost predicate Searchable(m: Links, root: int, st: Store, t: Tree, at: Keys) {
    Readable(m, root, st, t, at) && Balanced(Top, t)
  }

  predicate InBytes(hName: seq<Bytes>, hVal: seq<Bytes>) {
    IsBytes(Flatten(hName)) && IsBytes(Flatten(hVal))
  }

  /** No comparison with a stored field overflows where it is decided. */
  ghost predicate FairAll(hName: seq<Bytes>, hVal: seq<Bytes>, at: Keys)
    requires InBytes(hName, hVal)
  {
    forall o :: o in at ==> BytesField(at[o]) && Fair(hName, hVal, at[o])
  }

  predicate FairTable(hName: seq<Bytes>, hVal: seq<Bytes>, fields: D.Table)
    requires InBytes(hName, hVal)
  {
    forall i :: 0 <= i < |fields| ==> BytesField(fields[i]) && Fair(hName, hVal, fields[i])
  }

  /** A free leaf position. */
  ghost predicate FreePlace(t: Tree, c: Ctx, parent: int, toLeft: bool) {
    Plug(c, Leaf) == t && parent == ParentOff(c) && (toLeft <==> c.InLeft?)
  }

  /** A free leaf position, at the right place for `f`. */
  ghost predicate GoodPlace(t: Tree, at: Keys, f: Field, c: Ctx, parent: int, toLeft: bool) {
    FreePlace(t, c, parent, toLeft) && Between(c, f, at)
  }

  /** What a search finds: a node with the same field, or else one with the same name, or
      else neither exists. */
  ghost predicate FoundIn(at: Keys, f: Field, res: Result, node: int) {
    match res
    case Found => node in at && Rank(at[node]) == Rank(f)
    case NameFound => node in at && SameName(at[node], f) && forall o :: o in at ==> Rank(at[o]) != Rank(f)
    case NotFound => node == -1 && forall o :: o in at ==> Rank(at[o]) != Rank(f) && !SameName(at[o], f)
  }

  /** What is found is what was looked for. */
  ghost predicate SoundIn(at: Keys, f: Field, res: Result, node: int) {
    match res
    case Found => node in at && Rank(at[node]) == Rank(f)
    case NameFound => node in at && SameName(at[node], f)
    case NotFound => node == -1
  }

  /** The path a search takes: at each node to the side the comparison points to. */
  ghost predicate Guided(c: Ctx, hName: seq<Bytes>, hVal: seq<Bytes>, at: Keys)
    requires InBytes(hName, hVal)
  {
    match c
    case Top => true
    case InLeft(o, _, up, _) => o in at && BytesField(at[o]) && Compared(hName, hVal, at[o]) < 0 && Guided(up, hName, hVal, at)
    case InRight(o, _, up, _) => o in at && BytesField(at[o]) && Compared(hName, hVal, at[o]) > 0 && Guided(up, hName, hVal, at)
  }

  /** Where a search ends: at the node found, or at a free leaf. */
  ghost predicate EndsAt(t0: Tree, c: Ctx, u: Tree, res: Result, node: int, parent: int, toLeft: bool) {
    && Plug(c, u) == t0 && (if res == Found then u.Node? && u.off == node else u == Leaf)
    && (res != Found ==> parent == ParentOff(c) && (toLeft <==> c.InLeft?))
  }

  /** All that the path says when the fields are in order and no comparison overflows. */
  ghost predicate Narrowed(c: Ctx, f: Field, at: Keys, nm: int) {
    Between(c, f, at) && (nm < 0 ==> NameOnlyBelow(c, f, at))
  }

  /** Search for a field.  `parent` and `toLeft` give the place for it if it is absent.  The search is
      complete if the tree is in order and no comparison overflows. */
  method RbtreeFind(index: RbIndex.Index, st: Store, hName: seq<Bytes>, hVal: seq<Bytes>, ghost t0: Tree, ghost at: Keys)
    returns (res: Result, node: int, parent: int, toLeft: bool, ghost c: Ctx, ghost u: Tree)
    requires Readable(index.links, index.root, st, t0, at) && InBytes(hName, hVal)
    ensures var f := Field(Flatten(hName), Flatten(hVal));
      && SoundIn(at, f, res, node) && Guided(c, hName, hVal, at) && EndsAt(t0, c, u, res, node, parent, toLeft)
      && (Sorted(Inorder(t0), at) && FairAll(hName, hVal, at) ==>
            FoundIn(at, f, res, node) && (res != Found ==> GoodPlace(t0, at, f, c, parent, toLeft)))
  {
    hide Rep, Rank, NameRank, Walk, Less, Sorted, Between, NameOnlyBelow, SameName, Compared, Fair, FairAll, Narrowed, Flatten, IsBytes, BytesField;
    ghost var f := Field(Flatten(hName), Flatten(hVal));
    ghost var fair := Sorted(Inorder(t0), at) && FairAll(hName, hVal, at);
    parent, toLeft, c, u := -1, false, Top, t0;
    var nd, nm := index.root, -1;
    RepNode(index.links, index.root, Top, t0);
    NarrowedTop(f, at);
    while nd >= 0
      invariant Rep(index.links, index.root, c, u) && Plug(c, u) == t0 && nd == RootOff(u)
      invariant parent == ParentOff(c) && (toLeft <==> c.InLeft?) && Guided(c, hName, hVal, at)
      invariant -1 <= nm && (nm >= 0 ==> nm in at && SameName(at[nm], f))
      invariant fair ==> Narrowed(c, f, at, nm)
      decreases u
    {
      RepNode(index.links, index.root, c, u);
      FocusStored(c, u, t0, at);
      parent := nd;
      HoldsField(st, nd, at[nd]);
      var r, nameMatch := NodeCompare(hName, hVal, FieldIn(st, nd));
      MatchIsName(f, at[nd]);
      if fair { Narrower(c, u, f, at, hName, hVal, nm, r, nameMatch); }
      if nameMatch {
        nm := nd;
      }
      if r < 0 {
        nd := index.links[nd].left;
        c, u := InLeft(u.off, u.black, c, u.right), u.left;
        toLeft := true;
      } else if r > 0 {
        nd := index.links[nd].right;
        c, u := InRight(u.off, u.black, c, u.left), u.right;
        toLeft := false;
      } else {
        res, node := Found, nd;
        return;
      }
      RepUp(index.links, index.root, c, u);
    }
    RepNode(index.links, index.root, c, u);
    res, node := if nm >= 0 then NameFound else NotFound, nm;
    if fair { SearchDone(c, f, at, t0, nm); }
  }

  lemma NarrowedTop(f: Field, at: Keys)
    ensures Narrowed(Top, f, at, -1)
  {
    BetweenTop(f, at);
  }

  lemma MatchIsName(f: Field, g: Field)
    ensures NameRank(f) == NameRank(g) <==> SameName(f, g)
    ensures NameRank(f) == NameRank(g) <==> SameName(g, f)
    ensures Rank(f) == Rank(g) ==> SameName(f, g)
  {
    if Rank(f) == Rank(g) { EqualRank(f, g); }
  }

  /** One node further down a tree that is in order. */
  lemma {:induction false} Narrower(c: Ctx, u: Tree, f: Field, at: Keys, hName: seq<Bytes>, hVal: seq<Bytes>, nm: int, r: int, nameMatch: bool)
    requires InBytes(hName, hVal) && f == Field(Flatten(hName), Flatten(hVal)) && FairAll(hName, hVal, at)
    requires u.Node? && Sorted(Inorder(Plug(c, u)), at) && u.off in at && u.off >= 0 && Narrowed(c, f, at, nm)
    requires BytesField(at[u.off]) && Sign(r) == Compared(hName, hVal, at[u.off]) && (nameMatch <==> NameRank(f) == NameRank(at[u.off]))
    ensures r < 0 ==> Narrowed(InLeft(u.off, u.black, c, u.right), f, at, if nameMatch then u.off else nm)
    ensures r > 0 ==> Narrowed(InRight(u.off, u.black, c, u.left), f, at, if nameMatch then u.off else nm)
  {
    hide Rank, NameRank, Lex, Walk, Less, Sorted, Between, NameOnlyBelow, SameName, Fair, Flatten, IsBytes, BytesField;
    LessBySign(f, at[u.off], r);
    MatchIsName(f, at[u.off]);
    if r < 0 { GoLeft(c, u, f, at); }
    if r > 0 { GoRight(c, u, f, at); }
  }

  lemma {:induction false} SearchDone(c: Ctx, f: Field, at: Keys, t0: Tree, nm: int)
    requires Plug(c, Leaf) == t0 && at.Keys == Offs(t0) && Narrowed(c, f, at, nm) && nm >= -1 && (nm >= 0 ==> nm in at && SameName(at[nm], f))
    ensures FoundIn(at, f, if nm >= 0 then NameFound else NotFound, nm) && Between(c, f, at)
  {
    hide Rank, Walk, Less, SameName;
    PlaceAbsent(c, f, at, t0);
  }

  lemma {:induction false} FocusStored(c: Ctx, t: Tree, t0: Tree, at: Keys)
    requires t.Node? && Plug(c, t) == t0 && at.Keys == Offs(t0)
    ensures t.off in at
  {
    PlugOffs(c, t);
    assert t.off in Offs(t);
  }

  lemma LessBySign(f: Field, g: Field, r: int)
    requires Sign(r) == Lex(Rank(f), Rank(g))
    ensures r < 0 ==> Less(f, g)
    ensures r > 0 ==> Less(g, f)
    ensures r == 0 ==> SameName(f, g)
  {
    LexFlip(Rank(f), Rank(g));
    LexZero(Rank(f), Rank(g));
    if r == 0 { EqualRank(f, g); }
  }

  lemma EqualRank(f: Field, g: Field)
    requires Rank(f) == Rank(g)
    ensures SameName(f, g) && f.value == g.value
  {
    assert Rank(f)[0] == |f.name| && Rank(g)[0] == |g.name|;
    var n := 1 + |f.name|;
    assert Rank(f)[..n] == NameRank(f) && Rank(g)[..n] == NameRank(g);
    assert Rank(f)[n + 1..] == f.value && Rank(g)[n + 1..] == g.value;
  }

  /** At the end of an unsuccessful search the field is nowhere in the tree. */
  lemma {:induction false} PlaceAbsent(c: Ctx, f: Field, at: Keys, t0: Tree)
    requires Plug(c, Leaf) == t0 && at.Keys == Offs(t0) && Between(c, f, at)
    ensures forall o :: o in at ==> Rank(at[o]) != Rank(f)
    ensures NameOnlyBelow(c, f, at) ==> forall o :: o in at ==> !SameName(at[o], f)
  {
    PlugOffs(c, Leaf);
    CtxInorderOffs(c);
    forall o | o in at ensures Rank(at[o]) != Rank(f) {
      assert o in Before(c) || o in After(c);
      LexZero(Rank(at[o]), Rank(f));
      LexZero(Rank(f), Rank(at[o]));
    }
  }

  lemma BetweenTop(f: Field, at: Keys)
    ensures Between(Top, f, at) && NameOnlyBelow(Top, f, at)
  {
  }

  // ---------------------------------------------------------------- slots and fields

  /** Slot `i` holds field `i`; `rindex` counts additions, so the newest node has `acc`. */
  ghost predicate Stored(st: Store, slots: seq<Slot>, fields: D.Table, acc: int) {
    && |slots| == |fields|
    && forall i :: 0 <= i < |slots| ==>
         && Holds(st, slots[i].off, fields[i]) && slots[i].hdrLen == |fields[i].name| + |fields[i].value|
         && st.heads[slots[i].off].rindex == acc - (|slots| - 1 - i)
  }

  ghost predicate Distinct(slots: seq<Slot>) {
    forall i, j :: 0 <= i < j < |slots| ==> slots[i].off != slots[j].off
  }

  /** The field of every occupied offset. */
  ghost function KeysOf(slots: seq<Slot>, fields: D.Table): Keys
    requires |slots| == |fields|
  {
    if slots == [] then map[] else KeysOf(slots[1..], fields[1..])[slots[0].off := fields[0]]
  }

  lemma {:induction false} KeysAt(slots: seq<Slot>, fields: D.Table)
    requires |slots| == |fields| && Distinct(slots)
    ensures forall i :: 0 <= i < |slots| ==> slots[i].off in KeysOf(slots, fields) && KeysOf(slots, fields)[slots[i].off] == fields[i]
    ensures forall o :: o in KeysOf(slots, fields) ==> exists i :: 0 <= i < |slots| && slots[i].off == o
    decreases slots
  {
    if slots != [] {
      var s, f := slots[1..], fields[1..];
      assert Distinct(s);
      KeysAt(s, f);
      forall i | 0 <= i < |slots|
        ensures slots[i].off in KeysOf(slots, fields) && KeysOf(slots, fields)[slots[i].off] == fields[i]
      {
        if i > 0 { assert slots[i] == s[i - 1] && fields[i] == f[i - 1]; }
      }
      forall o | o in KeysOf(slots, fields) ensures exists i :: 0 <= i < |slots| && slots[i].off == o {
        if o != slots[0].off {
          var j :| 0 <= j < |s| && s[j].off == o;
          assert slots[j + 1].off == o;
        }
      }
    }
  }

  lemma {:induction false} KeysTail(slots: seq<Slot>, fields: D.Table)
    requires |slots| == |fields| && Distinct(slots) && slots != []
    ensures Distinct(slots[1..]) && KeysOf(slots[1..], fields[1..]) == KeysOf(slots, fields) - {slots[0].off}
  {
    KeysAt(slots[1..], fields[1..]);
  }

  lemma {:induction false} KeysAppend(slots: seq<Slot>, fields: D.Table, x: Slot, f: Field)
    requires |slots| == |fields|
    requires forall i :: 0 <= i < |slots| ==> slots[i].off != x.off
    ensures KeysOf(slots + [x], fields + [f]) == KeysOf(slots, fields)[x.off := f]
    decreases slots
  {
    if slots == [] {
      assert slots + [x] == [x] && fields + [f] == [f];
      assert KeysOf([x][1..], [f][1..]) == map[];
    } else {
      assert (slots + [x])[1..] == slots[1..] + [x] && (fields + [f])[1..] == fields[1..] + [f];
      KeysAppend(slots[1..], fields[1..], x, f);
    }
  }

  lemma RingDistinct(hi: seq<Slot>, lo: seq<Slot>, it: Iter)
    requires RingOk(hi, lo, it)
    ensures Distinct(hi + lo)
  {
    forall i, j | 0 <= i < j < |hi + lo| ensures (hi + lo)[i].off != (hi + lo)[j].off {
      RingApart(hi, lo, it, i, j);
    }
  }

  /** Accounted sizes of slots and of the fields in them agree. */
  lemma {:induction false} PseudoIsSize(slots: seq<Slot>, fields: D.Table)
    requires |slots| == |fields|
    requires forall i :: 0 <= i < |slots| ==> slots[i].hdrLen == |fields[i].name| + |fields[i].value|
    ensures Pseudo(slots) == D.Size(fields)
    decreases slots
  {
    if slots != [] { PseudoIsSize(slots[1..], fields[1..]); }
  }

  lemma LastStored(hi: seq<Slot>, lo: seq<Slot>, st: Store, fields: D.Table, acc: int)
    requires hi != [] && Stored(st, hi + lo, fields, acc)
    ensures var x := LastSlot(hi, lo); x.off in st.heads && st.heads[x.off].hdrLen == x.hdrLen
  {
    assert LastSlot(hi, lo) == (hi + lo)[|hi + lo| - 1];
  }

  // ---------------------------------------------------------------- the table object

  /** Ring, sizes, stored fields and search tree agree with each other. */
  ghost predicate TableOk(hi: seq<Slot>, lo: seq<Slot>, it: Iter, window: int, st: Store, fields: D.Table, acc: int,
                          m: Links, root: int, t: Tree)
  {
    && RingOk(hi, lo, it) && 0 <= it.size <= window <= BUF_SIZE
    && Stored(st, hi + lo, fields, acc)
    && |m| == BUF_SIZE && Searchable(m, root, st, t, KeysOf(hi + lo, fields))
  }

  class EncTable {
    var first: int
    var last: int
    var rbLen: int
    var rbSize: int
    var size: int
    var window: int
    var wndChanged: bool
    var idxAcc: int
    var store: Store
    const index: RbIndex.Index

    ghost var tree: Tree
    ghost var hi: seq<Slot>
    ghost var lo: seq<Slot>
    ghost var contents: D.Table

    function It(): Iter
      reads this
    {
      Iter(first, last, rbLen, rbSize, size)
    }

    ghost predicate Valid()
      reads this, index
    {
      TableOk(hi, lo, It(), window, store, contents, idxAcc, index.links, index.root, tree)
    }

    /** The tree is in the order of the fields. */
    ghost predicate InOrder()
      reads this
    {
      Ranked(tree, hi + lo, contents)
    }

    constructor (wnd: int)
      requires 0 <= wnd <= BUF_SIZE
      ensures Valid() && InOrder() && contents == [] && window == wnd && !wndChanged && fresh(index)
    {
      first, last, rbLen, rbSize, size := -1, -1, 0, BUF_SIZE, 0;
      window, wndChanged, idxAcc := wnd, false, 0;
      store := Store(map[], map[]);
      index := new RbIndex.Index(BUF_SIZE);
      tree, hi, lo, contents := Leaf, [], [], [];
    }

    /** What the table accounts for is what it holds. */
    lemma ValidSize()
      requires Valid()
      ensures size == D.Size(contents) <= window && rbLen <= size
    {
      PseudoIsSize(hi + lo, contents);
      LenBelowSize(hi, lo, It());
      if hi == [] { assert hi + lo == []; }
    }

    lemma ValidWindow()
      requires Valid()
      ensures 0 <= window <= BUF_SIZE && |hi + lo| == |contents|
    {
    }

    /** Plan the evictions that bring the size down to `newSize`, without touching the table. */
    method RbufCalc(newSize: int) returns (ok: bool, delList: seq<int>, it: Iter, ghost h: seq<Slot>, ghost l: seq<Slot>)
      requires Valid() && 0 <= newSize < size
      ensures ok ==> |delList| <= MAX_ENC_EVICTION && Planned(hi, lo, newSize, delList, h, l, it)
      ensures hi != [] && (ok && h != [] ==> LastSlot(h, l) == LastSlot(hi, lo))
      ensures ok ==> |delList| <= |hi + lo| && forall i :: 0 <= i < |delList| ==> delList[i] == (hi + lo)[i].off
      ensures !ok ==> |contents| > MAX_ENC_EVICTION && D.Size(contents[MAX_ENC_EVICTION..]) > newSize
    {
      hide Searchable, RingOk, Planning, Planned, Pseudo;
      ghost var slots := hi + lo;
      delList, it, h, l := [], It(), hi, lo;
      PlanStart(hi, lo, it, newSize);
      LastStored(hi, lo, store, contents, idxAcc);
      var lastLen := NodeLen(store.heads[last].hdrLen);
      while it.size > newSize
        invariant Planning(hi, lo, newSize, delList, h, l, it)
        invariant |delList| <= MAX_ENC_EVICTION
        decreases |slots| - |delList|
      {
        PlanStep(hi, lo, newSize, delList, h, l, it);
        if |delList| >= MAX_ENC_EVICTION {
          PseudoIsSize(slots[|delList|..], contents[|delList|..]);
          return false, delList, it, h, l;
        }
        var head := store.heads[it.first];
        assert head.hdrLen == slots[|delList|].hdrLen;
        delList := delList + [it.first];
        it := DropOldest(it, NodeLen(head.hdrLen), head.hdrLen, lastLen);
        h, l := DropHi(h, l), DropLo(h, l);
      }
      PlanDone(hi, lo, newSize, delList, h, l, it);
      if it.size == 0 {
        it := Iter(-1, -1, 0, it.rbSize, 0);
      }
      ok := true;
    }

    /** Unlink the oldest node. */
    method EraseOldest(off: int, ghost slots: seq<Slot>, ghost fields: D.Table)
      requires |index.links| == BUF_SIZE && Rep(index.links, index.root, Top, tree) && Balanced(Top, tree)
      requires Matches(tree, slots, fields) && |slots| == |fields| > 0 && off == slots[0].off
      modifies `tree, index
      ensures |index.links| == BUF_SIZE && Rep(index.links, index.root, Top, tree) && Balanced(Top, tree)
      ensures Matches(tree, slots[1..], fields[1..]) && (Ranked(old(tree), slots, fields) ==> Ranked(tree, slots[1..], fields[1..]))
    {
      hide Rep, Balanced, Matches, Ranked;
      ghost var before := tree;
      OldestInTree(tree, slots, fields);
      tree := index.Erase(off, tree);
      MatchesErase(before, tree, slots, fields);
      if Ranked(before, slots, fields) { RankedErase(before, tree, slots, fields); }
    }

    /** Unlink the evicted nodes, find the place again if there were any, link the new node
        and take over the planned values.  Should the field turn up in the second search, the program warns;
        what follows is not modelled.  Then something was evicted and an equal field stays in the table; it never
        happens if the tree is in order and the comparisons are `fair`. */
    method RbufCommit(hName: seq<Bytes>, hVal: seq<Bytes>, delList: seq<int>, parent0: int, toLeft0: bool, it: Iter,
                      ghost c0: Ctx, ghost slots: seq<Slot>, ghost fields: D.Table, ghost x: Slot, ghost fair: bool) returns (warned: bool)
      requires |index.links| == BUF_SIZE && Rep(index.links, index.root, Top, tree) && Balanced(Top, tree)
      requires Matches(tree, slots, fields) && |delList| <= |slots| == |fields|
      requires forall i :: 0 <= i < |delList| ==> delList[i] == slots[i].off
      requires HoldsAll(store, slots[|delList|..], fields[|delList|..])
      requires InBytes(hName, hVal) && FreePlace(tree, c0, parent0, toLeft0)
      requires var f := Field(Flatten(hName), Flatten(hVal)); fair ==> Fitting(tree, slots, fields, hName, hVal, f) && Between(c0, f, KeysOf(slots, fields))
      requires it.last == x.off && 0 <= x.off < BUF_SIZE
      requires forall i :: |delList| <= i < |slots| ==> slots[i].off != x.off
      modifies `first, `last, `rbLen, `rbSize, `size, `tree, index
      ensures !warned ==> It() == it && |index.links| == BUF_SIZE
      ensures !warned ==> Rep(index.links, index.root, Top, tree) && Balanced(Top, tree)
      ensures var s, g := slots[|delList|..] + [x], fields[|delList|..] + [Field(Flatten(hName), Flatten(hVal))];
        && (!warned ==> Matches(tree, s, g))
        && (fair ==> !warned && Ranked(tree, s, g))
      ensures warned ==> |delList| > 0 && Overlooked(fields, |delList|, Field(Flatten(hName), Flatten(hVal)))
    {
      hide Rep, Balanced, Matches, Ranked, Rank, Lex, Sorted, Less, HoldsAll, Distinct, Between, Fitting, FreePlace, FairTable, InBytes, Flatten, Overlooked;
      ghost var k := |delList|;
      assert slots[0..] == slots && fields[0..] == fields;
      ghost var f, s, g := Field(Flatten(hName), Flatten(hVal)), slots[k..], fields[k..];
      if fair { FittingRanked(tree, slots, fields, hName, hVal, f); }
      ghost var before := tree;
      UnlinkAll(delList, slots, fields);
      if fair { FittingDrop(before, tree, slots, fields, k, hName, hVal, f); }
      var parent, toLeft := parent0, toLeft0;
      ghost var c := c0;
      warned := false;
      if |delList| > 0 {
        warned, parent, toLeft, c := FindAgain(hName, hVal, s, g);
        if warned {
          StillThere(fields, k, f);
          return;
        }
      }
      PlaceReady(index.links, index.root, tree, s, g, c, parent, toLeft, x);
      if fair { FittingRanked(tree, s, g, hName, hVal, f); }
      ghost var t := index.Add(it.last, parent, toLeft, c);
      MatchesAdd(t, c, s, g, x, f);
      if fair { RankedAdd(t, c, s, g, x, f); }
      tree := t;
      first, last, rbLen, rbSize, size := it.first, it.last, it.rbLen, it.rbSize, it.size;
    }

    /** Unlink the evicted nodes, oldest first. */
    method UnlinkAll(delList: seq<int>, ghost slots: seq<Slot>, ghost fields: D.Table)
      requires |index.links| == BUF_SIZE && Rep(index.links, index.root, Top, tree) && Balanced(Top, tree)
      requires Matches(tree, slots, fields) && |delList| <= |slots| == |fields|
      requires forall i :: 0 <= i < |delList| ==> delList[i] == slots[i].off
      modifies `tree, index
      ensures |index.links| == BUF_SIZE && Rep(index.links, index.root, Top, tree) && Balanced(Top, tree)
      ensures Matches(tree, slots[|delList|..], fields[|delList|..])
      ensures Ranked(old(tree), slots, fields) ==> Ranked(tree, slots[|delList|..], fields[|delList|..])
      ensures delList == [] ==> tree == old(tree)
    {
      hide Rep, Balanced, Matches, Ranked;
      assert slots[0..] == slots && fields[0..] == fields;
      for i := 0 to |delList|
        invariant |index.links| == BUF_SIZE && Rep(index.links, index.root, Top, tree) && Balanced(Top, tree)
        invariant Matches(tree, slots[i..], fields[i..]) && (Ranked(old(tree), slots, fields) ==> Ranked(tree, slots[i..], fields[i..]))
        invariant i == 0 ==> tree == old(tree)
      {
        EraseOldest(delList[i], slots[i..], fields[i..]);
        assert slots[i..][1..] == slots[i + 1..] && fields[i..][1..] == fields[i + 1..];
      }
    }

    /** After evictions the place is looked up anew. */
    method FindAgain(hName: seq<Bytes>, hVal: seq<Bytes>, ghost s: seq<Slot>, ghost g: D.Table)
      returns (found: bool, parent: int, toLeft: bool, ghost c: Ctx)
      requires |index.links| == BUF_SIZE && Rep(index.links, index.root, Top, tree) && Balanced(Top, tree)
      requires |s| == |g| && Matches(tree, s, g) && HoldsAll(store, s, g) && InBytes(hName, hVal)
      ensures !found ==> FreePlace(tree, c, parent, toLeft)
      ensures var f := Field(Flatten(hName), Flatten(hVal)); Fitting(tree, s, g, hName, hVal, f) ==> !found && Between(c, f, KeysOf(s, g))
      ensures found ==> Overlooked(g, 0, Field(Flatten(hName), Flatten(hVal)))
    {
      hide Rep, Balanced, Matches, Rank, Lex, Sorted, Less, HoldsAll, Distinct, Between, Flatten, Compared, IsBytes;
      MatchesSearchable(index.links, index.root, store, tree, s, g);
      ghost var f := Field(Flatten(hName), Flatten(hVal));
      if Fitting(tree, s, g, hName, hVal, f) {
        FairKeys(s, g, hName, hVal);
        RankAbsent(s, g, f);
      }
      var res, node;
      ghost var u;
      res, node, parent, toLeft, c, u := RbtreeFind(index, store, hName, hVal, tree, KeysOf(s, g));
      found := res == Found;
      if found { FoundAmong(tree, s, g, f, node); }
    }

    method WriteHead(off: int, head: Head, junk: Links)
      requires |junk| == |index.links|
      modifies `store, index`links
      ensures store == WithHead(old(store), off, head)
      ensures index.links == ClobberLinks(old(index.links), HeadBits(off), junk)
    {
      var st := ClobberStore(store, HeadBits(off));
      store := st.(heads := st.heads[off := head]);
      index.links := ClobberLinks(index.links, HeadBits(off), junk);
    }

    method WriteText(off: int, text: Bytes, junk: Links)
      requires |junk| == |index.links|
      modifies `store, index`links
      ensures store == WithText(old(store), off, text)
      ensures index.links == ClobberLinks(old(index.links), TextBits(off, |text|), junk)
    {
      var st := ClobberStore(store, TextBits(off, |text|));
      store := st.(texts := st.texts[off := text]);
      index.links := ClobberLinks(index.links, TextBits(off, |text|), junk);
    }

    /** Decide which nodes have to go for a field and where its node would be put. */
    method PlanNode(f: Field) returns (ok: bool, delList: seq<int>, it: Iter, at: Placement, ghost h: seq<Slot>, ghost l: seq<Slot>)
      requires Valid()
      ensures ok <==> CanAdd(hi, lo, contents, window, f)
      ensures ok ==> D.EntrySize(f) <= window && |delList| <= |contents| == |hi + lo|
      ensures ok ==> Kept(hi, lo, contents, window - D.EntrySize(f), |delList|, h, l, it)
      ensures ok ==> forall i :: 0 <= i < |delList| ==> delList[i] == (hi + lo)[i].off
      ensures ok ==> at.At? && Fits(h, l, it, at, |f.name| + |f.value|)
    {
      hide Searchable, RingOk, Stored, Planned, Pseudo, Place, IterOf, SizesMatch, CanAdd, Kept;
      var hdrLen := |f.name| + |f.value|;
      var nodeSize := hdrLen + ENTRY_OVERHEAD;
      delList, it, at, h, l := [], It(), Refused, hi, lo;
      StoredSuffix(store, hi + lo, contents, idxAcc, 0);
      if nodeSize > window {
        TooLarge(hi, lo, contents, window, f);
        return false, delList, it, at, h, l;
      }
      if size + nodeSize > window {
        ok, delList, it, h, l := RbufCalc(window - nodeSize);
        if !ok {
          TooManyEvictions(hi, lo, contents, window, f);
          return;
        }
        KeptSome(hi, lo, contents, window - nodeSize, delList, h, l, it);
      } else {
        KeptAll(hi, lo, contents, window - nodeSize, it);
      }
      NewestEnd(hi, lo, window - nodeSize, |delList|, h, l, it, store, contents, idxAcc);
      var lastEnd := if it.last < 0 then 0 else it.last + NodeLen(store.heads[it.last].hdrLen);
      at := Place(it, lastEnd, NodeLen(hdrLen));
      ok := at.At?;
      KeptDecides(hi, lo, contents, window, f, |delList|, h, l, it);
    }

    /** Add a field, evicting old ones as needed; refuse it when it cannot be stored.
        `junk` is what overwritten links of evicted nodes read as. */
    method AddNode(hName: seq<Bytes>, hVal: seq<Bytes>, parent: int, toLeft: bool, junk: Links, ghost c: Ctx, ghost fair: bool)
      returns (ok: bool, warned: bool)
      requires Valid() && InBytes(hName, hVal) && |junk| == BUF_SIZE && FreePlace(tree, c, parent, toLeft) && |hi + lo| == |contents|
      requires var f := Field(Flatten(hName), Flatten(hVal));
        fair ==> Fitting(tree, hi + lo, contents, hName, hVal, f) && Between(c, f, KeysOf(hi + lo, contents))
      modifies this, index
      ensures window == old(window) && wndChanged == old(wndChanged) && (warned ==> ok) && (fair ==> !warned)
      ensures warned ==> Warns(old(contents), window, Field(Flatten(hName), Flatten(hVal)))
      ensures ok <==> CanAdd(old(hi), old(lo), old(contents), window, Field(Flatten(hName), Flatten(hVal)))
      ensures !warned ==> Valid() && (fair ==> InOrder()) && idxAcc == old(idxAcc) + if ok then 1 else 0
      ensures contents == if ok then D.Insert(old(contents), window, Field(Flatten(hName), Flatten(hVal))) else old(contents)
      ensures (hi, lo) == if ok then Put(old(hi), old(lo), old(contents), window, Field(Flatten(hName), Flatten(hVal))) else (old(hi), old(lo))
    {
      hide TableOk, Rank, Between, Fits, CanAdd, Kept, Put, AddHi, AddLo, FairTable, InBytes, FreePlace, KeysOf, D.Insert, D.EntrySize, Ranked, Fitting, Overlooked, Warns;
      var f := Field(Flatten(hName), Flatten(hVal));
      var delList, it, at;
      ghost var h, l;
      warned := false;
      if fair { FittingRanked(tree, hi + lo, contents, hName, hVal, f); }
      ok, delList, it, at, h, l := PlanNode(f);
      if ok {
        KeptPut(hi, lo, contents, window, f, |delList|, h, l, it, at);
        KeptWarns(hi, lo, contents, window, f, |delList|, h, l, it);
        warned := StoreNode(hName, hVal, parent, toLeft, junk, delList, it, at, c, h, l, fair);
      }
    }

    /** The commit half of adding a node. */
    method StoreNode(hName: seq<Bytes>, hVal: seq<Bytes>, parent: int, toLeft: bool, junk: Links, delList: seq<int>, it: Iter, at: Placement,
                     ghost c: Ctx, ghost h: seq<Slot>, ghost l: seq<Slot>, ghost fair: bool) returns (warned: bool)
      requires Valid() && InBytes(hName, hVal) && |junk| == BUF_SIZE && FreePlace(tree, c, parent, toLeft) && |hi + lo| == |contents|
      requires var f := Field(Flatten(hName), Flatten(hVal));
        && (fair ==> Fitting(tree, hi + lo, contents, hName, hVal, f) && Between(c, f, KeysOf(hi + lo, contents)))
        && D.EntrySize(f) <= window && Kept(hi, lo, contents, window - D.EntrySize(f), |delList|, h, l, it)
        && at.At? && Fits(h, l, it, at, |f.name| + |f.value|)
      requires |delList| <= |hi + lo| && forall i :: 0 <= i < |delList| ==> delList[i] == (hi + lo)[i].off
      modifies `first, `last, `rbLen, `rbSize, `size, `idxAcc, `store, `tree, `hi, `lo, `contents, index
      ensures !warned ==> Valid() && idxAcc == old(idxAcc) + 1
      ensures fair ==> !warned && InOrder()
      ensures warned ==> |delList| > 0 && Overlooked(old(contents), |delList|, Field(Flatten(hName), Flatten(hVal)))
      ensures contents == D.Insert(old(contents), window, Field(Flatten(hName), Flatten(hVal)))
      ensures var x := Slot(at.off, |Flatten(hName)| + |Flatten(hVal)|); hi == AddHi(h, l, x) && lo == AddLo(h, l, x)
    {
      hide TableOk, Rep, Balanced, Matches, Rank, Between, HoldsAll, WithHead, WithText, ClobberLinks, Fits, Kept, Placed, AddHi, AddLo, Stored,
           FreePlace, KeysOf, Flatten, FairTable, D.Insert, D.Evict, D.Size, D.EntrySize, Ranked, Fitting, Overlooked;
      var f := Field(Flatten(hName), Flatten(hVal));
      ghost var slots, fields, k := hi + lo, contents, |delList|;
      var x := Slot(at.off, |f.name| + |f.value|);
      var head := Head(idxAcc + 1, |f.name|, x.hdrLen);
      ReadyToCommit(hi, lo, It(), window, store, contents, idxAcc, index.links, index.root, tree, f, k, h, l, it, at, head, junk);
      AddedSlots(hi, lo, contents, window, f, k, h, l, it, at);
      idxAcc := idxAcc + 1;
      WriteHead(at.off, head, junk);
      ghost var st := store;
      warned := RbufCommit(hName, hVal, delList, parent, toLeft, Placed(it, at, x.hdrLen), c, slots, fields, x, fair);
      if !warned {
        Committed(index.links, index.root, st, tree, h, l, it, at, fields[k..], f, idxAcc - 1, junk, window);
        WriteText(at.off, f.name + f.value, junk);
      }
      hi, lo, contents := AddHi(h, l, x), AddLo(h, l, x), fields[k..] + [f];
    }

    /** Look a field up; unless it is there already, try to add it.  On every tree, what is reported is there;
        on one in order, with comparisons that are not turned round, it is reported if it is there. */
    method EncoderIndex(hName: seq<Bytes>, hVal: seq<Bytes>, junk: Links) returns (res: Result, outIndex: int, added: bool, warned: bool)
      requires Valid() && InBytes(hName, hVal) && |junk| == BUF_SIZE
      modifies this, index
      ensures window == old(window) && wndChanged == old(wndChanged)
      ensures !warned ==> Valid()
      ensures warned ==> added && Warns(old(contents), window, Field(Flatten(hName), Flatten(hVal)))
      ensures old(InOrder()) && FairTable(hName, hVal, old(contents)) ==> !warned && InOrder()
      ensures var f := Field(Flatten(hName), Flatten(hVal));
        && SoundLookup(old(contents), f, res, outIndex)
        && (old(InOrder()) && FairTable(hName, hVal, old(contents)) ==> LookedUp(old(contents), f, res, outIndex))
      ensures var f := Field(Flatten(hName), Flatten(hVal));
        && (added <==> res != Found && CanAdd(old(hi), old(lo), old(contents), window, f))
        && contents == (if added then D.Insert(old(contents), window, f) else old(contents))
        && (hi, lo) == if added then Put(old(hi), old(lo), old(contents), window, f) else (old(hi), old(lo))
    {
      hide TableOk, Rank, Between, CanAdd, LookedUp, SoundLookup, FoundIn, Put, FairTable, FairAll, InBytes, KeysOf, Guided, SoundIn, D.Insert,
           FreePlace, Fitting, Ranked, Warns;
      var node, parent, toLeft;
      ValidSearchable();
      ghost var f, fair := Field(Flatten(hName), Flatten(hVal)), InOrder() && FairTable(hName, hVal, contents);
      ghost var c, u, at := Top, Leaf, KeysOf(hi + lo, contents);
      if fair { RankedFair(tree, hi + lo, contents, hName, hVal); }
      res, node, parent, toLeft, c, u := RbtreeFind(index, store, hName, hVal, tree, at);
      outIndex := 0;
      SoundStored(hi, lo, It(), window, store, contents, idxAcc, index.links, index.root, tree, f, res, node);
      if fair { FoundStored(hi, lo, It(), window, store, contents, idxAcc, index.links, index.root, tree, f, res, node); }
      if res != NotFound {
        outIndex := idxAcc - store.heads[node].rindex + D.STATIC_ENTRIES + 1;
      }
      added, warned := false, false;
      if res != Found {
        EndsFree(tree, c, u, res, node, parent, toLeft);
        if fair { IsFitting(tree, hi + lo, contents, hName, hVal, f); }
        added, warned := AddNode(hName, hVal, parent, toLeft, junk, c, fair);
      }
    }

    /** Unlink the oldest nodes until the size is down to `newSize`. */
    method UnlinkOldest(newSize: int, lastLen: nat) returns (it: Iter, ghost done: seq<int>, ghost h: seq<Slot>, ghost l: seq<Slot>)
      requires 0 <= newSize && Planning(hi, lo, newSize, [], hi, lo, It()) && Stored(store, hi + lo, contents, idxAcc)
      requires hi != [] && lastLen == NodeLen(LastSlot(hi, lo).hdrLen) && |hi + lo| == |contents|
      requires |index.links| == BUF_SIZE && Rep(index.links, index.root, Top, tree) && Balanced(Top, tree)
      requires Matches(tree, (hi + lo)[0..], contents[0..])
      modifies `tree, index
      ensures Planning(hi, lo, newSize, done, h, l, it) && it.size <= newSize && |done| <= |hi + lo|
      ensures |index.links| == BUF_SIZE && Rep(index.links, index.root, Top, tree) && Balanced(Top, tree)
      ensures Matches(tree, (hi + lo)[|done|..], contents[|done|..])
      ensures Ranked(old(tree), (hi + lo)[0..], contents[0..]) ==> Ranked(tree, (hi + lo)[|done|..], contents[|done|..])
    {
      hide Stored, Planning, Pseudo, Rep, Balanced, Matches, Ranked, DropOldest, DropHi, DropLo, LastSlot, NodeLen;
      ghost var slots := hi + lo;
      it, done, h, l := It(), [], hi, lo;
      while it.size > newSize
        invariant Planning(hi, lo, newSize, done, h, l, it) && |done| <= |slots|
        invariant |index.links| == BUF_SIZE && Rep(index.links, index.root, Top, tree) && Balanced(Top, tree)
        invariant Matches(tree, slots[|done|..], contents[|done|..])
        invariant Ranked(old(tree), slots[0..], contents[0..]) ==> Ranked(tree, slots[|done|..], contents[|done|..])
        decreases |slots| - |done|
      {
        PlanStep(hi, lo, newSize, done, h, l, it);
        SlotHead(store, slots, contents, idxAcc, |done|);
        var head := store.heads[it.first];
        ghost var k := |done|;
        EraseOldest(it.first, slots[k..], contents[k..]);
        assert slots[k..][1..] == slots[k + 1..] && contents[k..][1..] == contents[k + 1..];
        done := done + [it.first];
        it := DropOldest(it, NodeLen(head.hdrLen), head.hdrLen, lastLen);
        h, l := DropHi(h, l), DropLo(h, l);
      }
    }

    /** Evict at once until the size is down to `newSize`. */
    method RbufShrink(newSize: int)
      requires Valid() && 0 <= newSize < size
      modifies `first, `last, `rbLen, `rbSize, `size, `tree, `hi, `lo, `contents, index
      ensures TableOk(hi, lo, It(), newSize, store, contents, idxAcc, index.links, index.root, tree)
      ensures contents == D.Evict(old(contents), newSize) && |contents| <= |old(contents)| == |old(hi)| + |old(lo)|
      ensures var k := |old(contents)| - |contents|; hi == SplitHi(old(hi), old(lo), k) && lo == SplitLo(old(hi), old(lo), k)
      ensures old(InOrder()) ==> InOrder()
    {
      hide TableOk, Stored, RingOk, Planning, Planned, Pseudo, Rep, Balanced, Matches, Ranked, Kept, SizesMatch, BytesField,
           LastSlot, NodeLen, D.Evict, SplitHi, SplitLo;
      ghost var a, b, fields := hi, lo, contents;
      ShrinkStart(a, b, It(), window, newSize, store, fields, idxAcc, index.links, index.root, tree);
      var it;
      ghost var done, h, l;
      it, done, h, l := UnlinkOldest(newSize, NodeLen(store.heads[last].hdrLen));
      ShrinkDone(a, b, newSize, done, h, l, it, store, fields, idxAcc, index.links, index.root, tree);
      assert (a + b)[0..] == a + b && fields[0..] == fields;
      SplitWhole(a, b, |done|);
      if it.size == 0 {
        it := Iter(-1, -1, 0, it.rbSize, 0);
      }
      first, last, rbLen, rbSize, size := it.first, it.last, it.rbLen, it.rbSize, it.size;
      hi, lo, contents := h, l, fields[|done|..];
    }

    method SetRbufSize(newSize0: int)
      requires Valid() && 0 <= newSize0 < 0x1_0000
      modifies this, index
      ensures Valid()
      ensures var w := if newSize0 > BUF_SIZE then BUF_SIZE else newSize0;
        if old(window) != w && (!old(wndChanged) || old(window) == 0 || w < old(window))
        then window == w && wndChanged && contents == D.Evict(old(contents), w)
        else window == old(window) && wndChanged == old(wndChanged) && contents == old(contents)
      ensures |contents| <= |old(contents)| == |old(hi)| + |old(lo)|
      ensures var k := |old(contents)| - |contents|; hi == SplitHi(old(hi), old(lo), k) && lo == SplitLo(old(hi), old(lo), k)
      ensures old(InOrder()) ==> InOrder()
    {
      hide TableOk, SplitHi, SplitLo, D.Evict, Ranked;
      ValidSplit();
      var newSize := if newSize0 > BUF_SIZE then BUF_SIZE else newSize0;
      if window != newSize && (!wndChanged || window == 0 || newSize < window) {
        if size > newSize {
          RbufShrink(newSize);
        } else {
          Widened(hi, lo, It(), window, newSize, store, contents, idxAcc, index.links, index.root, tree);
        }
        window := newSize;
        wndChanged := true;
      }
    }

    /** The size update put on the wire. */
    method WriteSize() returns (sz: int)
      requires Valid()
      modifies `wndChanged
      ensures Valid() && !wndChanged && sz == window
    {
      hide TableOk;
      sz := window;
      wndChanged := false;
    }

    lemma ValidSplit()
      requires Valid()
      ensures 0 <= window <= BUF_SIZE && |contents| == |hi| + |lo| && SplitHi(hi, lo, 0) == hi && SplitLo(hi, lo, 0) == lo
    {
      hide RingOk, Searchable;
      SplitNone(hi, lo, It());
    }

    lemma ValidSearchable()
      requires Valid()
      ensures |contents| == |hi + lo| && Searchable(index.links, index.root, store, tree, KeysOf(hi + lo, contents))
    {
    }
  }

  lemma {:induction false} Widened(hi: seq<Slot>, lo: seq<Slot>, it: Iter, window: int, newSize: int, st: Store, fields: D.Table, acc: int, m: Links, root: int, t: Tree)
    requires TableOk(hi, lo, it, window, st, fields, acc, m, root, t) && it.size <= newSize <= BUF_SIZE
    ensures TableOk(hi, lo, it, newSize, st, fields, acc, m, root, t) && D.Evict(fields, newSize) == fields
  {
    PseudoIsSize(hi + lo, fields);
    if hi == [] { assert hi + lo == []; }
  }

  lemma SlotHead(st: Store, slots: seq<Slot>, fields: D.Table, acc: int, i: nat)
    requires Stored(st, slots, fields, acc) && i < |slots|
    ensures slots[i].off in st.heads && st.heads[slots[i].off].hdrLen == slots[i].hdrLen
  {
  }

  lemma ShrinkStart(hi: seq<Slot>, lo: seq<Slot>, it: Iter, window: int, newSize: nat, st: Store, fields: D.Table, acc: int, m: Links, root: int, t: Tree)
    requires TableOk(hi, lo, it, window, st, fields, acc, m, root, t) && newSize < it.size
    ensures newSize <= BUF_SIZE == |m| && |hi + lo| == |fields| && SizesMatch(hi + lo, fields) && Stored(st, hi + lo, fields, acc)
    ensures hi != [] && it.last == LastSlot(hi, lo).off && Planning(hi, lo, newSize, [], hi, lo, it)
    ensures it.last in st.heads && st.heads[it.last].hdrLen == LastSlot(hi, lo).hdrLen
    ensures Rep(m, root, Top, t) && Balanced(Top, t) && Matches(t, (hi + lo)[0..], fields[0..])
    ensures forall i :: 0 <= i < |fields| ==> BytesField(fields[i])
  {
    PlanStart(hi, lo, it, newSize);
    StoredSuffix(st, hi + lo, fields, acc, 0);
    LastStored(hi, lo, st, fields, acc);
    SearchableMatches(hi, lo, it, m, root, st, t, fields);
    AllBytes(hi, lo, it, fields, t, m, root, st);
    hide RingOk, Searchable, Rep, Balanced, Matches, Planning, BytesField;
    assert (hi + lo)[0..] == hi + lo && fields[0..] == fields;
  }

  lemma {:induction false} ShrinkDone(hi: seq<Slot>, lo: seq<Slot>, newSize: nat, del: seq<int>, h: seq<Slot>, l: seq<Slot>, it: Iter,
                   st: Store, fields: D.Table, acc: int, m: Links, root: int, t: Tree)
    requires newSize <= BUF_SIZE && Planning(hi, lo, newSize, del, h, l, it) && it.size <= newSize && hi != []
    requires |hi + lo| == |fields| && SizesMatch(hi + lo, fields) && Stored(st, hi + lo, fields, acc) && |del| <= |hi + lo|
    requires |m| == BUF_SIZE && Rep(m, root, Top, t) && Balanced(Top, t) && Matches(t, (hi + lo)[|del|..], fields[|del|..])
    requires forall i :: 0 <= i < |fields| ==> BytesField(fields[i])
    ensures TableOk(h, l, if it.size == 0 then Iter(-1, -1, 0, it.rbSize, 0) else it, newSize, st, fields[|del|..], acc, m, root, t)
    ensures fields[|del|..] == D.Evict(fields, newSize) && h == SplitHi(hi, lo, |del|) && l == SplitLo(hi, lo, |del|)
  {
    hide TableOk, Stored, Planning, Planned, Rep, Balanced, Matches, Kept, SizesMatch, BytesField, LastSlot, D.Evict;
    PlanDone(hi, lo, newSize, del, h, l, it);
    var it' := if it.size == 0 then Iter(-1, -1, 0, it.rbSize, 0) else it;
    KeptSome(hi, lo, fields, newSize, del, h, l, it');
    KeptSplit(hi, lo, fields, newSize, |del|, h, l, it');
    Shrunk(hi, lo, newSize, |del|, h, l, it', st, fields, acc, m, root, t);
  }

  lemma {:induction false} Shrunk(hi: seq<Slot>, lo: seq<Slot>, newSize: nat, k: nat, h: seq<Slot>, l: seq<Slot>, it: Iter,
               st: Store, fields: D.Table, acc: int, m: Links, root: int, t: Tree)
    requires newSize <= BUF_SIZE && Kept(hi, lo, fields, newSize, k, h, l, it) && Stored(st, hi + lo, fields, acc)
    requires |m| == BUF_SIZE && Rep(m, root, Top, t) && Balanced(Top, t) && Matches(t, (hi + lo)[k..], fields[k..])
    requires forall i :: 0 <= i < |fields| ==> BytesField(fields[i])
    ensures TableOk(h, l, it, newSize, st, fields[k..], acc, m, root, t) && fields[k..] == D.Evict(fields, newSize)
  {
    StoredSuffix(st, hi + lo, fields, acc, k);
    PseudoIsSize(h + l, fields[k..]);
    if h == [] { assert h + l == []; }
    assert HoldsAll(st, h + l, fields[k..]);
    MatchesSearchable(m, root, st, t, h + l, fields[k..]);
  }

  lemma {:induction false} SearchableMatches(hi: seq<Slot>, lo: seq<Slot>, it: Iter, m: Links, root: int, st: Store, t: Tree, fields: D.Table)
    requires RingOk(hi, lo, it) && |hi + lo| == |fields| && Searchable(m, root, st, t, KeysOf(hi + lo, fields))
    ensures Rep(m, root, Top, t) && Balanced(Top, t) && Matches(t, hi + lo, fields)
  {
    RingDistinct(hi, lo, it);
  }

  /** What a lookup reports is there: entry `index` is the field, or has its name. */
  ghost predicate SoundLookup(t: D.Table, f: Field, res: Result, index: int) {
    && (res != NotFound ==> D.STATIC_ENTRIES < index <= D.STATIC_ENTRIES + |t|)
    && match res
       case Found => Rank(D.Lookup(t, index)) == Rank(f)
       case NameFound => SameName(D.Lookup(t, index), f)
       case NotFound => index == 0
  }

  /** And what is there is reported: the field, or else its name. */
  ghost predicate LookedUp(t: D.Table, f: Field, res: Result, index: int) {
    && SoundLookup(t, f, res, index)
    && (res != Found ==> forall i :: 0 <= i < |t| ==> Rank(t[i]) != Rank(f))
    && (res == NotFound ==> forall i :: 0 <= i < |t| ==> !SameName(t[i], f))
  }

  /** The index computed from `rindex` refers to the node that was found. */
  lemma {:induction false} SoundStored(hi: seq<Slot>, lo: seq<Slot>, it: Iter, window: int, st: Store, fields: D.Table, acc: int, m: Links, root: int, t: Tree,
                    f: Field, res: Result, node: int)
    requires TableOk(hi, lo, it, window, st, fields, acc, m, root, t)
    requires SoundIn(KeysOf(hi + lo, fields), f, res, node)
    ensures res != NotFound ==> node in st.heads
    ensures SoundLookup(fields, f, res, if res == NotFound then 0 else acc - st.heads[node].rindex + D.STATIC_ENTRIES + 1)
  {
    RingDistinct(hi, lo, it);
    SoundSlot(hi + lo, st, fields, acc, f, res, node);
    hide SoundIn, SoundLookup, RingOk, Searchable;
  }

  lemma {:induction false} SoundSlot(slots: seq<Slot>, st: Store, fields: D.Table, acc: int, f: Field, res: Result, node: int)
    requires Stored(st, slots, fields, acc) && Distinct(slots) && SoundIn(KeysOf(slots, fields), f, res, node)
    ensures res != NotFound ==> node in st.heads
    ensures SoundLookup(fields, f, res, if res == NotFound then 0 else acc - st.heads[node].rindex + D.STATIC_ENTRIES + 1)
  {
    hide KeysOf, Rank, SameName, Holds, Distinct;
    KeysAt(slots, fields);
    if res != NotFound { SlotOf(slots, st, fields, acc, node); }
  }

  /** In a tree in order nothing is overlooked. */
  lemma {:induction false} FoundStored(hi: seq<Slot>, lo: seq<Slot>, it: Iter, window: int, st: Store, fields: D.Table, acc: int, m: Links, root: int, t: Tree,
                    f: Field, res: Result, node: int)
    requires TableOk(hi, lo, it, window, st, fields, acc, m, root, t)
    requires FoundIn(KeysOf(hi + lo, fields), f, res, node)
    ensures res != NotFound ==> node in st.heads
    ensures LookedUp(fields, f, res, if res == NotFound then 0 else acc - st.heads[node].rindex + D.STATIC_ENTRIES + 1)
    ensures res != Found ==> forall i :: 0 <= i < |fields| ==> Rank(fields[i]) != Rank(f)
  {
    SoundStored(hi, lo, it, window, st, fields, acc, m, root, t, f, res, node);
    RingDistinct(hi, lo, it);
    hide RingOk, Searchable, KeysOf, Rank, SameName, Holds, Distinct, SoundLookup, Stored;
    StoredSuffix(st, hi + lo, fields, acc, 0);
    KeysAt(hi + lo, fields);
    forall i | 0 <= i < |fields| ensures (hi + lo)[i].off in KeysOf(hi + lo, fields) && KeysOf(hi + lo, fields)[(hi + lo)[i].off] == fields[i] {
    }
  }

  /** The index of a node, counted from `rindex`, is the place of its entry. */
  lemma {:induction false} SlotOf(slots: seq<Slot>, st: Store, fields: D.Table, acc: int, node: int)
    requires Stored(st, slots, fields, acc) && Distinct(slots) && node in KeysOf(slots, fields)
    ensures node in st.heads
    ensures var index := acc - st.heads[node].rindex + D.STATIC_ENTRIES + 1;
      D.STATIC_ENTRIES < index <= D.STATIC_ENTRIES + |fields| && D.Lookup(fields, index) == KeysOf(slots, fields)[node]
  {
    KeysAt(slots, fields);
    hide KeysOf, Distinct, Stored;
    var i :| 0 <= i < |slots| && slots[i].off == node;
    StoredAt(st, slots, fields, acc, i);
  }

  lemma StoredAt(st: Store, slots: seq<Slot>, fields: D.Table, acc: int, i: nat)
    requires Stored(st, slots, fields, acc) && i < |slots|
    ensures |slots| == |fields| && slots[i].off in st.heads && st.heads[slots[i].off].rindex == acc - (|slots| - 1 - i)
  {
    assert Holds(st, slots[i].off, fields[i]);
  }

  /** All that the commit relies on, with the new node's head written already. */
  lemma ReadyToCommit(hi: seq<Slot>, lo: seq<Slot>, it0: Iter, window: int, st: Store, fields: D.Table, acc: int, m: Links, root: int, t: Tree,
                      f: Field, k: nat, h: seq<Slot>, l: seq<Slot>, it: Iter, at: Placement, head: Head, junk: Links)
    requires TableOk(hi, lo, it0, window, st, fields, acc, m, root, t) && |junk| == BUF_SIZE
    requires D.EntrySize(f) <= window && Kept(hi, lo, fields, window - D.EntrySize(f), k, h, l, it)
    requires at.At? && Fits(h, l, it, at, |f.name| + |f.value|) && head.hdrLen == |f.name| + |f.value|
    ensures |m| == BUF_SIZE >= window && k <= |fields| == |hi + lo| && h + l == (hi + lo)[k..]
    ensures D.Insert(fields, window, f) == fields[k..] + [f] && D.Size(fields[k..]) <= window - D.EntrySize(f)
    ensures 0 <= at.off < BUF_SIZE && Placed(it, at, head.hdrLen).last == at.off
    ensures forall i :: k <= i < |hi + lo| ==> (hi + lo)[i].off != at.off
    ensures Rep(ClobberLinks(m, HeadBits(at.off), junk), root, Top, t) && Balanced(Top, t) && Matches(t, hi + lo, fields)
    ensures var st' := WithHead(st, at.off, head);
      && Stored(st', h + l, fields[k..], acc) && HoldsAll(st', h + l, fields[k..]) && at.off in st'.heads && st'.heads[at.off] == head
  {
    hide Fits, Kept, Rep, Balanced, Matches, Stored, HoldsAll, WithHead, Searchable, RingOk, HeadBits, ClobberLinks, Placed, D.Size, D.Evict;
    var limit := window - D.EntrySize(f);
    KeptRing(hi, lo, fields, limit, k, h, l, it);
    KeptClear(h, l, it, at, head.hdrLen);
    KeptSafe(hi, lo, it0, fields, limit, k, h, l, it, at, head.hdrLen, t, m, root, st, junk);
    AllBytes(hi, lo, it0, fields, t, m, root, st);
    KeptStored(st, hi, lo, fields, acc, limit, k, h, l, it, at, head);
    forall i | k <= i < |hi + lo| ensures (hi + lo)[i].off != at.off {
      assert (hi + lo)[i] == (h + l)[i - k];
    }
  }

  /** The store after the head of the new node is written. */
  function WithHead(st: Store, off: int, head: Head): Store {
    var s := ClobberStore(st, HeadBits(off));
    s.(heads := s.heads[off := head])
  }

  function WithText(st: Store, off: int, text: Bytes): Store {
    var s := ClobberStore(st, TextBits(off, |text|));
    s.(texts := s.texts[off := text])
  }

  /** `at` is the place for a node of `hdrLen` header bytes in the ring that is kept. */
  ghost predicate Fits(h: seq<Slot>, l: seq<Slot>, it: Iter, at: Placement, hdrLen: nat) {
    RingOk(h, l, it) && at == Place(it, LastEnd(h, l), NodeLen(hdrLen)) && at.At?
  }

  lemma {:induction false} KeptRing(hi: seq<Slot>, lo: seq<Slot>, fields: D.Table, limit: nat, k: nat, h: seq<Slot>, l: seq<Slot>, it: Iter)
    requires Kept(hi, lo, fields, limit, k, h, l, it)
    ensures k <= |fields| == |hi + lo| && h + l == (hi + lo)[k..] && D.Evict(fields, limit) == fields[k..]
  {
  }

  lemma KeptSplit(hi: seq<Slot>, lo: seq<Slot>, fields: D.Table, limit: nat, k: nat, h: seq<Slot>, l: seq<Slot>, it: Iter)
    requires Kept(hi, lo, fields, limit, k, h, l, it)
    ensures k <= |hi| + |lo| && h == SplitHi(hi, lo, k) && l == SplitLo(hi, lo, k)
  {
  }

  lemma SplitNone(hi: seq<Slot>, lo: seq<Slot>, it: Iter)
    requires RingOk(hi, lo, it)
    ensures SplitHi(hi, lo, 0) == hi && SplitLo(hi, lo, 0) == lo && |hi + lo| == |hi| + |lo|
  {
    hide Run, Pseudo;
  }

  /** The planned place is inside the buffer and clear of the nodes that stay. */
  lemma KeptClear(h: seq<Slot>, l: seq<Slot>, it: Iter, at: Placement, hdrLen: nat)
    requires Fits(h, l, it, at, hdrLen)
    ensures at.At? && 0 <= at.off < BUF_SIZE && Placed(it, at, hdrLen).last == at.off
    ensures forall i :: 0 <= i < |h + l| ==> Apart(Slot(at.off, hdrLen), (h + l)[i]) && (h + l)[i].off != at.off
  {
    PlacedOk(h, l, it, hdrLen);
    forall i | 0 <= i < |h + l| ensures Apart(Slot(at.off, hdrLen), (h + l)[i]) {
      PlacedApart(h, l, it, hdrLen, (h + l)[i]);
    }
  }

  /** Writing the new node's head before the evicted nodes are unlinked spoils no link of
      any node of the tree, whether it is about to go or to stay. */
  lemma {:induction false} KeptSafe(hi: seq<Slot>, lo: seq<Slot>, it0: Iter, fields: D.Table, limit: nat, k: nat, h: seq<Slot>, l: seq<Slot>, it: Iter,
                 at: Placement, hdrLen: nat, t: Tree, m: Links, root: int, st: Store, junk: Links)
    requires RingOk(hi, lo, it0) && Kept(hi, lo, fields, limit, k, h, l, it) && Fits(h, l, it, at, hdrLen)
    requires Searchable(m, root, st, t, KeysOf(hi + lo, fields)) && |m| == |junk|
    ensures forall o :: o in Offs(t) ==> Disjoint(HeadBits(at.off), LinkBits(o))
    ensures Rep(ClobberLinks(m, HeadBits(at.off), junk), root, Top, t) && Balanced(Top, t) && Matches(t, hi + lo, fields)
  {
    RingDistinct(hi, lo, it0);
    assert at.off == 0 || at.off == LastEnd(hi, lo);
    HeadIsSafe(hi, lo, fields, it0, t, at.off);
    ClobberRep(m, root, t, HeadBits(at.off), junk);
  }

  lemma {:induction false} AllBytes(hi: seq<Slot>, lo: seq<Slot>, it: Iter, fields: D.Table, t: Tree, m: Links, root: int, st: Store)
    requires RingOk(hi, lo, it) && |hi + lo| == |fields| && Searchable(m, root, st, t, KeysOf(hi + lo, fields))
    ensures forall i :: 0 <= i < |fields| ==> BytesField(fields[i])
  {
    RingDistinct(hi, lo, it);
    KeysAt(hi + lo, fields);
    forall i | 0 <= i < |fields| ensures BytesField(fields[i]) {
      assert (hi + lo)[i].off in KeysOf(hi + lo, fields);
    }
  }

  /** Nor does it spoil what is stored in the nodes that stay. */
  lemma KeptStored(st: Store, hi: seq<Slot>, lo: seq<Slot>, fields: D.Table, acc: int, limit: nat, k: nat,
                   h: seq<Slot>, l: seq<Slot>, it: Iter, at: Placement, head: Head)
    requires Stored(st, hi + lo, fields, acc) && (forall i :: 0 <= i < |fields| ==> BytesField(fields[i]))
    requires Kept(hi, lo, fields, limit, k, h, l, it) && Fits(h, l, it, at, head.hdrLen)
    ensures var st' := WithHead(st, at.off, head);
      && Stored(st', h + l, fields[k..], acc) && HoldsAll(st', h + l, fields[k..]) && at.off in st'.heads && st'.heads[at.off] == head
  {
    hide RingOk, Kept, ClobberStore, Fits, Stored, HoldsAll, BytesField, HeadBits;
    KeptRing(hi, lo, fields, limit, k, h, l, it);
    StoredSuffix(st, hi + lo, fields, acc, k);
    KeptClear(h, l, it, at, head.hdrLen);
    StoredClobbered(h, l, it, at, head.hdrLen, st, fields[k..], acc, HeadBits(at.off));
    HeadAdded(ClobberStore(st, HeadBits(at.off)), h + l, fields[k..], acc, at.off, head);
  }

  lemma HeadAdded(st: Store, slots: seq<Slot>, fields: D.Table, acc: int, off: int, head: Head)
    requires Stored(st, slots, fields, acc) && forall i :: 0 <= i < |slots| ==> slots[i].off != off
    requires forall i :: 0 <= i < |fields| ==> BytesField(fields[i])
    ensures var st' := st.(heads := st.heads[off := head]); Stored(st', slots, fields, acc) && HoldsAll(st', slots, fields)
  {
    hide BytesField;
  }

  /** A write inside the new node's room leaves what is stored in the nodes that stay. */
  lemma StoredClobbered(h: seq<Slot>, l: seq<Slot>, it: Iter, at: Placement, hdrLen: nat, st: Store, fields: D.Table, acc: int, w: Bits)
    requires Fits(h, l, it, at, hdrLen) && Stored(st, h + l, fields, acc)
    requires w == HeadBits(at.off) || w == TextBits(at.off, hdrLen)
    ensures Stored(ClobberStore(st, w), h + l, fields, acc)
    ensures forall i :: 0 <= i < |h + l| ==> Disjoint(w, LinkBits((h + l)[i].off))
  {
    KeptClear(h, l, it, at, hdrLen);
    var x := Slot(at.off, hdrLen);
    forall i | 0 <= i < |fields|
      ensures var o := (h + l)[i].off; Holds(ClobberStore(st, w), o, fields[i]) && ClobberStore(st, w).heads[o] == st.heads[o] && Disjoint(w, LinkBits(o))
    {
      ApartFields(x, (h + l)[i]);
      ClobberHolds(st, w, (h + l)[i], fields[i]);
    }
  }

  /** With the links and the text of the new node written, the table is consistent again. */
  lemma {:induction false} Committed(m: Links, root: int, st: Store, t: Tree, h: seq<Slot>, l: seq<Slot>, it: Iter, at: Placement,
                  fields: D.Table, f: Field, acc: int, junk: Links, window: int)
    requires |m| == |junk| == BUF_SIZE && at.At? && Fits(h, l, it, at, |f.name| + |f.value|)
    requires Stored(st, h + l, fields, acc) && HoldsAll(st, h + l, fields) && BytesField(f)
    requires Rep(m, root, Top, t) && Balanced(Top, t) && Matches(t, h + l + [Slot(at.off, |f.name| + |f.value|)], fields + [f])
    requires at.off in st.heads && st.heads[at.off] == Head(acc + 1, |f.name|, |f.name| + |f.value|)
    requires D.Size(fields) + D.EntrySize(f) <= window <= BUF_SIZE
    ensures var x := Slot(at.off, |f.name| + |f.value|);
      TableOk(AddHi(h, l, x), AddLo(h, l, x), Placed(it, at, x.hdrLen), window, WithText(st, at.off, f.name + f.value), fields + [f],
              acc + 1, ClobberLinks(m, TextBits(at.off, |f.name + f.value|), junk), root, t)
  {
    hide Fits, Stored, RingOk, Searchable, Rep, Balanced, Matches, HoldsAll, SizesMatch, WithText, ClobberLinks, AddHi, AddLo, Placed, D.Size;
    StoredSuffix(st, h + l, fields, acc, 0);
    CommittedRing(h, l, it, at, fields, f);
    CommittedStore(st, h, l, it, at, fields, f, acc);
    CommittedTree(m, root, st, t, h, l, it, at, fields, f, acc, junk);
  }

  lemma {:induction false} CommittedRing(h: seq<Slot>, l: seq<Slot>, it: Iter, at: Placement, fields: D.Table, f: Field)
    requires Fits(h, l, it, at, |f.name| + |f.value|) && |h + l| == |fields| && SizesMatch(h + l, fields)
    ensures var x := Slot(at.off, |f.name| + |f.value|);
      && RingOk(AddHi(h, l, x), AddLo(h, l, x), Placed(it, at, x.hdrLen)) && Placed(it, at, x.hdrLen).size == D.Size(fields + [f]) == D.Size(fields) + D.EntrySize(f)
      && AddHi(h, l, x) + AddLo(h, l, x) == h + l + [x]
  {
    var x := Slot(at.off, |f.name| + |f.value|);
    PlacedOk(h, l, it, x.hdrLen);
    AddedOrder(h, l, x);
    assert it.size == Pseudo(h + l) by { if h == [] { assert h + l == []; } }
    PseudoIsSize(h + l, fields);
    D.SizeConcat(fields, [f]);
    assert [f][1..] == [];
  }

  lemma CommittedStore(st: Store, h: seq<Slot>, l: seq<Slot>, it: Iter, at: Placement, fields: D.Table, f: Field, acc: int)
    requires Fits(h, l, it, at, |f.name| + |f.value|) && Stored(st, h + l, fields, acc)
    requires at.off in st.heads && st.heads[at.off] == Head(acc + 1, |f.name|, |f.name| + |f.value|)
    ensures Stored(WithText(st, at.off, f.name + f.value), h + l + [Slot(at.off, |f.name| + |f.value|)], fields + [f], acc + 1)
  {
    var n := |f.name| + |f.value|;
    assert Disjoint(TextBits(at.off, n), HeadBits(at.off));
    hide Fits, Stored, TextBits;
    StoredClobbered(h, l, it, at, n, st, fields, acc, TextBits(at.off, n));
    KeptClear(h, l, it, at, n);
    TextAdded(ClobberStore(st, TextBits(at.off, n)), h + l, fields, acc, Slot(at.off, n), f);
  }

  lemma TextAdded(st: Store, slots: seq<Slot>, fields: D.Table, acc: int, x: Slot, f: Field)
    requires Stored(st, slots, fields, acc) && forall i :: 0 <= i < |slots| ==> slots[i].off != x.off
    requires x.hdrLen == |f.name| + |f.value| && x.off in st.heads && st.heads[x.off] == Head(acc + 1, |f.name|, x.hdrLen)
    ensures Stored(st.(texts := st.texts[x.off := f.name + f.value]), slots + [x], fields + [f], acc + 1)
  {
  }

  lemma {:induction false} CommittedTree(m: Links, root: int, st: Store, t: Tree, h: seq<Slot>, l: seq<Slot>, it: Iter, at: Placement,
                      fields: D.Table, f: Field, acc: int, junk: Links)
    requires |m| == |junk| && Fits(h, l, it, at, |f.name| + |f.value|)
    requires Stored(st, h + l, fields, acc) && HoldsAll(st, h + l, fields) && BytesField(f)
    requires Rep(m, root, Top, t) && Balanced(Top, t) && Matches(t, h + l + [Slot(at.off, |f.name| + |f.value|)], fields + [f])
    requires at.off in st.heads && st.heads[at.off] == Head(acc + 1, |f.name|, |f.name| + |f.value|)
    ensures var x, st' := Slot(at.off, |f.name| + |f.value|), WithText(st, at.off, f.name + f.value);
      Searchable(ClobberLinks(m, TextBits(at.off, x.hdrLen), junk), root, st', t, KeysOf(h + l + [x], fields + [f]))
  {
    hide Fits, Rep, Balanced, Stored, HoldsAll, Searchable, Matches, RingOk, WithText, ClobberLinks, TextBits, LinkBits, KeysOf, BytesField, Disjoint;
    KeptClear(h, l, it, at, |f.name| + |f.value|);
    var x, w := Slot(at.off, |f.name| + |f.value|), TextBits(at.off, |f.name| + |f.value|);
    var slots, fields' := h + l + [x], fields + [f];
    OwnLinks(at.off, x.hdrLen);
    StoredClobbered(h, l, it, at, x.hdrLen, st, fields, acc, w);
    CommittedStore(st, h, l, it, at, fields, f, acc);
    MatchesOffs(t, slots, fields');
    forall o | o in Offs(t) ensures Disjoint(w, LinkBits(o)) {
      var i :| 0 <= i < |slots| && slots[i].off == o;
      if i < |h + l| { assert slots[i] == (h + l)[i]; }
    }
    ClobberRep(m, root, t, w, junk);
    AllHold(st, WithText(st, at.off, f.name + f.value), h + l, fields, x, f, acc + 1);
    MatchesSearchable(ClobberLinks(m, w, junk), root, WithText(st, at.off, f.name + f.value), t, slots, fields');
  }

  lemma OwnLinks(off: int, n: nat)
    ensures Disjoint(TextBits(off, n), LinkBits(off))
  {
  }

  lemma {:induction false} MatchesOffs(t: Tree, slots: seq<Slot>, fields: D.Table)
    requires Matches(t, slots, fields)
    ensures forall o :: o in Offs(t) ==> exists i :: 0 <= i < |slots| && slots[i].off == o
  {
    KeysAt(slots, fields);
  }

  lemma AllHold(st: Store, st': Store, slots: seq<Slot>, fields: D.Table, x: Slot, f: Field, acc: int)
    requires HoldsAll(st, slots, fields) && BytesField(f) && Stored(st', slots + [x], fields + [f], acc)
    ensures HoldsAll(st', slots + [x], fields + [f])
  {
    hide BytesField, Holds;
  }

  /** The ring and the entries that stay when the `k` oldest are given up for `limit`. */
  ghost predicate Kept(hi: seq<Slot>, lo: seq<Slot>, fields: D.Table, limit: nat, k: nat, h: seq<Slot>, l: seq<Slot>, it: Iter) {
    && k <= |fields| == |hi + lo| && RingOk(h, l, it)
    && h == SplitHi(hi, lo, k) && l == SplitLo(hi, lo, k) && h + l == (hi + lo)[k..]
    && D.Evict(fields, limit) == fields[k..]
    && (h != [] ==> hi != [] && LastSlot(h, l) == LastSlot(hi, lo))
  }

  lemma KeptAll(hi: seq<Slot>, lo: seq<Slot>, fields: D.Table, limit: nat, it: Iter)
    requires RingOk(hi, lo, it) && it.size <= limit && |hi + lo| == |fields| && SizesMatch(hi + lo, fields)
    ensures Kept(hi, lo, fields, limit, 0, hi, lo, it)
  {
    assert hi[0..] == hi && (hi + lo)[0..] == hi + lo && fields[0..] == fields;
    if hi == [] { assert hi + lo == []; }
    PseudoIsSize(hi + lo, fields);
  }

  lemma KeptSome(hi: seq<Slot>, lo: seq<Slot>, fields: D.Table, limit: nat, del: seq<int>, h: seq<Slot>, l: seq<Slot>, it: Iter)
    requires Planned(hi, lo, limit, del, h, l, it) && |hi + lo| == |fields| && SizesMatch(hi + lo, fields)
    requires h != [] ==> hi != [] && LastSlot(h, l) == LastSlot(hi, lo)
    ensures Kept(hi, lo, fields, limit, |del|, h, l, it)
  {
    SplitWhole(hi, lo, |del|);
    if h == [] { assert h + l == []; }
    SlotSizes(hi + lo, fields, limit, |del|);
  }

  ghost predicate SizesMatch(slots: seq<Slot>, fields: D.Table)
    requires |slots| == |fields|
  {
    forall i :: 0 <= i < |slots| ==> slots[i].hdrLen == |fields[i].name| + |fields[i].value|
  }

  lemma StoredSuffix(st: Store, slots: seq<Slot>, fields: D.Table, acc: int, k: nat)
    requires Stored(st, slots, fields, acc) && k <= |slots|
    ensures |slots| == |fields| && Stored(st, slots[k..], fields[k..], acc) && SizesMatch(slots, fields)
  {
  }

  /** The end of the newest node, read from memory. */
  lemma NewestEnd(hi: seq<Slot>, lo: seq<Slot>, limit: nat, k: nat, h: seq<Slot>, l: seq<Slot>, it: Iter, st: Store, fields: D.Table, acc: int)
    requires Kept(hi, lo, fields, limit, k, h, l, it) && Stored(st, hi + lo, fields, acc)
    ensures if it.last < 0 then LastEnd(h, l) == 0
            else it.last in st.heads && it.last + NodeLen(st.heads[it.last].hdrLen) == LastEnd(h, l)
  {
    if h != [] { LastStored(hi, lo, st, fields, acc); }
    if h != [] && l == [] { RunBounds(h, it.first, End(LastOf(h))); }
    if h != [] && l != [] { RunBounds(l, 0, End(LastOf(l))); }
  }

  lemma {:induction false} SlotSizes(slots: seq<Slot>, fields: D.Table, limit: nat, k: nat)
    requires |slots| == |fields| && k <= |slots| && SizesMatch(slots, fields)
    requires Pseudo(slots[k..]) <= limit && forall i :: 0 <= i < k ==> Pseudo(slots[i..]) > limit
    ensures D.Evict(fields, limit) == fields[k..]
  {
    forall i | 0 <= i <= k ensures Pseudo(slots[i..]) == D.Size(fields[i..]) {
      PseudoIsSize(slots[i..], fields[i..]);
    }
    D.EvictAt(fields, limit, k);
  }

  /** Writing the head of the new node leaves the links of all old nodes intact. */
  lemma {:induction false} HeadIsSafe(hi: seq<Slot>, lo: seq<Slot>, fields: D.Table, it: Iter, t: Tree, off: int)
    requires RingOk(hi, lo, it) && |hi + lo| == |fields| && KeysOf(hi + lo, fields).Keys == Offs(t)
    requires off == 0 || off == LastEnd(hi, lo)
    ensures forall o :: o in Offs(t) ==> Disjoint(HeadBits(off), LinkBits(o))
  {
    RingDistinct(hi, lo, it);
    KeysAt(hi + lo, fields);
    forall o | o in Offs(t) ensures Disjoint(HeadBits(off), LinkBits(o)) {
      var i :| 0 <= i < |hi + lo| && (hi + lo)[i].off == o;
      HeadMissesLinks(hi, lo, it, off, (hi + lo)[i]);
    }
  }

  /** How many entries must go to make room for `f`. */
  function Evictions(contents: D.Table, window: nat, f: Field): nat
    requires D.EntrySize(f) <= window
  {
    D.EvictMinimal(contents, window - D.EntrySize(f));
    |contents| - |D.Evict(contents, window - D.EntrySize(f))|
  }

  lemma {:induction false} NoneEvicted(t: D.Table, window: nat, f: Field)
    requires D.EntrySize(f) <= window && D.Size(t) <= window - D.EntrySize(f)
    ensures Evictions(t, window, f) == 0 && D.Insert(t, window, f) == t + [f]
  {
  }

  /** A field is added exactly if it is not too large for the table, at most five entries
      have to go, and the node fits into the buffer in one piece after that. */
  ghost predicate CanAdd(hi: seq<Slot>, lo: seq<Slot>, contents: D.Table, window: nat, f: Field)
    requires |hi + lo| == |contents|
  {
    && D.EntrySize(f) <= window
    && Evictions(contents, window, f) <= MAX_ENC_EVICTION
    && var k := Evictions(contents, window, f); var h, l := SplitHi(hi, lo, k), SplitLo(hi, lo, k);
       Place(IterOf(h, l), LastEnd(h, l), NodeLen(|f.name| + |f.value|)).At?
  }

  /** The two runs once a field was added. */
  ghost function Put(hi: seq<Slot>, lo: seq<Slot>, contents: D.Table, window: nat, f: Field): (seq<Slot>, seq<Slot>)
    requires |hi + lo| == |contents| && CanAdd(hi, lo, contents, window, f)
  {
    var k := Evictions(contents, window, f);
    var h, l := SplitHi(hi, lo, k), SplitLo(hi, lo, k);
    var n := |f.name| + |f.value|;
    var x := Slot(Place(IterOf(h, l), LastEnd(h, l), NodeLen(n)).off, n);
    (AddHi(h, l, x), AddLo(h, l, x))
  }

  /** Among the entries from `k` on there is one equal to `f`. */
  ghost predicate Overlooked(t: D.Table, k: nat, f: Field) {
    exists i :: k <= i < |t| && Rank(t[i]) == Rank(f)
  }

  /** What the program warns of when it adds a field: some entries have to go, and one that stays is equal to it. */
  ghost predicate Warns(t: D.Table, window: int, f: Field) {
    D.EntrySize(f) <= window && Evictions(t, window, f) > 0 && Overlooked(t, Evictions(t, window, f), f)
  }

  lemma KeptWarns(hi: seq<Slot>, lo: seq<Slot>, contents: D.Table, window: nat, f: Field, k: nat, h: seq<Slot>, l: seq<Slot>, it: Iter)
    requires D.EntrySize(f) <= window && Kept(hi, lo, contents, window - D.EntrySize(f), k, h, l, it)
    ensures k > 0 && Overlooked(contents, k, f) ==> Warns(contents, window, f)
  {
    hide Overlooked;
    assert Evictions(contents, window, f) == k;
  }

  lemma StillThere(t: D.Table, k: nat, f: Field)
    requires k <= |t| && Overlooked(t[k..], 0, f)
    ensures Overlooked(t, k, f)
  {
    hide Rank;
    var i :| 0 <= i < |t[k..]| && Rank(t[k..][i]) == Rank(f);
    assert t[k + i] == t[k..][i];
  }

  lemma {:induction false} FoundAmong(t: Tree, slots: seq<Slot>, fields: D.Table, f: Field, node: int)
    requires Matches(t, slots, fields) && SoundIn(KeysOf(slots, fields), f, Found, node)
    ensures Overlooked(fields, 0, f)
  {
    hide Rank;
    KeysAt(slots, fields);
  }

  lemma KeptPut(hi: seq<Slot>, lo: seq<Slot>, contents: D.Table, window: nat, f: Field,
                k: nat, h: seq<Slot>, l: seq<Slot>, it: Iter, at: Placement)
    requires D.EntrySize(f) <= window && Kept(hi, lo, contents, window - D.EntrySize(f), k, h, l, it)
    requires Fits(h, l, it, at, |f.name| + |f.value|) && |hi + lo| == |contents| && CanAdd(hi, lo, contents, window, f)
    ensures var x := Slot(at.off, |f.name| + |f.value|); Put(hi, lo, contents, window, f) == (AddHi(h, l, x), AddLo(h, l, x))
  {
    hide Place, RingOk, AddHi, AddLo, LastEnd, NodeLen, IterOf;
    KeptSplit(hi, lo, contents, window - D.EntrySize(f), k, h, l, it);
    RingIter(h, l, it);
    assert Evictions(contents, window, f) == k;
  }

  lemma SuffixSmaller(t: D.Table, i: nat, j: nat)
    requires i <= j <= |t|
    ensures D.Size(t[j..]) <= D.Size(t[i..])
  {
    D.SizeConcat(t[i..j], t[j..]);
    assert t[i..] == t[i..j] + t[j..];
  }

  lemma TooLarge(hi: seq<Slot>, lo: seq<Slot>, contents: D.Table, window: nat, f: Field)
    requires |hi + lo| == |contents| && D.EntrySize(f) > window
    ensures !CanAdd(hi, lo, contents, window, f)
  {
  }

  lemma TooManyEvictions(hi: seq<Slot>, lo: seq<Slot>, contents: D.Table, window: nat, f: Field)
    requires |hi + lo| == |contents| && D.EntrySize(f) <= window
    requires |contents| > MAX_ENC_EVICTION && D.Size(contents[MAX_ENC_EVICTION..]) > window - D.EntrySize(f)
    ensures !CanAdd(hi, lo, contents, window, f)
  {
    hide D.Size, D.Evict, D.EntrySize;
    var limit := window - D.EntrySize(f);
    D.EvictMinimal(contents, limit);
    var k := |contents| - |D.Evict(contents, limit)|;
    assert D.Evict(contents, limit) == contents[k..];
    if k <= MAX_ENC_EVICTION { SuffixSmaller(contents, k, MAX_ENC_EVICTION); }
  }

  /** Once the plan stands, only the place in the buffer decides. */
  lemma KeptDecides(hi: seq<Slot>, lo: seq<Slot>, contents: D.Table, window: nat, f: Field,
                    k: nat, h: seq<Slot>, l: seq<Slot>, it: Iter)
    requires D.EntrySize(f) <= window && Kept(hi, lo, contents, window - D.EntrySize(f), k, h, l, it)
    requires k <= MAX_ENC_EVICTION
    ensures CanAdd(hi, lo, contents, window, f) <==> Place(it, LastEnd(h, l), NodeLen(|f.name| + |f.value|)).At?
  {
    RingIter(h, l, it);
    assert Evictions(contents, window, f) == k;
  }

  ghost predicate HoldsAll(st: Store, slots: seq<Slot>, fields: D.Table) {
    && |slots| == |fields|
    && forall i :: 0 <= i < |slots| ==> Holds(st, slots[i].off, fields[i]) && BytesField(fields[i])
  }

  lemma {:induction false} OldestInTree(t: Tree, slots: seq<Slot>, fields: D.Table)
    requires Matches(t, slots, fields) && slots != []
    ensures slots[0].off in Offs(t)
  {
    KeysAt(slots, fields);
  }

  lemma {:induction false} MatchesSearchable(m: Links, root: int, st: Store, t: Tree, slots: seq<Slot>, fields: D.Table)
    requires Rep(m, root, Top, t) && Balanced(Top, t) && Matches(t, slots, fields) && HoldsAll(st, slots, fields)
    ensures Searchable(m, root, st, t, KeysOf(slots, fields))
  {
    KeysAt(slots, fields);
  }

  lemma {:induction false} FairKeys(slots: seq<Slot>, fields: D.Table, hName: seq<Bytes>, hVal: seq<Bytes>)
    requires |slots| == |fields| && InBytes(hName, hVal) && FairTable(hName, hVal, fields)
    ensures FairAll(hName, hVal, KeysOf(slots, fields))
    decreases slots
  {
    hide Fair, BytesField, InBytes;
    if slots != [] { FairKeys(slots[1..], fields[1..], hName, hVal); }
  }

  lemma {:induction false} RankAbsent(slots: seq<Slot>, fields: D.Table, f: Field)
    requires |slots| == |fields| && forall i :: 0 <= i < |fields| ==> Rank(fields[i]) != Rank(f)
    ensures forall o :: o in KeysOf(slots, fields) ==> Rank(KeysOf(slots, fields)[o]) != Rank(f)
    decreases slots
  {
    if slots != [] { RankAbsent(slots[1..], fields[1..], f); }
  }

  /** A good place is ready for a new node. */
  lemma {:induction false} PlaceReady(m: Links, root: int, t: Tree, slots: seq<Slot>, fields: D.Table, c: Ctx, parent: int, toLeft: bool, x: Slot)
    requires Rep(m, root, Top, t) && Balanced(Top, t) && Matches(t, slots, fields)
    requires FreePlace(t, c, parent, toLeft) && forall i :: 0 <= i < |slots| ==> slots[i].off != x.off
    ensures Rep(m, root, c, Leaf) && Balanced(c, Leaf) && parent == ParentOff(c) && (toLeft <==> c.InLeft?)
    ensures x.off !in CtxOffs(c) && Plug(c, Leaf) == t
  {
    hide Rep, Balanced, Matches, Between;
    RepPlug(m, root, c, Leaf);
    BalancedPlug(c, Leaf);
    PlaceFree(t, slots, fields, c, x);
  }

  lemma {:induction false} PlaceFree(t: Tree, slots: seq<Slot>, fields: D.Table, c: Ctx, x: Slot)
    requires Matches(t, slots, fields) && Plug(c, Leaf) == t
    requires forall i :: 0 <= i < |slots| ==> slots[i].off != x.off
    ensures x.off !in CtxOffs(c)
  {
    KeysAt(slots, fields);
    PlugOffs(c, Leaf);
  }

  /** The first `|del|` slots go, and no fewer would do; `it` describes the ring that is left. */
  ghost predicate Planned(hi: seq<Slot>, lo: seq<Slot>, newSize: int, del: seq<int>, h: seq<Slot>, l: seq<Slot>, it: Iter) {
    var slots, k := hi + lo, |del|;
    && 0 < k <= |slots| && (forall i :: 0 <= i < k ==> del[i] == slots[i].off)
    && h == SplitHi(hi, lo, k) && l == SplitLo(hi, lo, k) && RingOk(h, l, it)
    && it.size <= newSize && (forall i :: 0 <= i < k ==> Pseudo(slots[i..]) > newSize)
  }

  /** The state of the planning loop after `|del|` rounds. */
  ghost predicate Planning(hi: seq<Slot>, lo: seq<Slot>, newSize: int, del: seq<int>, h: seq<Slot>, l: seq<Slot>, it: Iter) {
    var slots, k := hi + lo, |del|;
    && hi != [] && k <= |slots| && (forall i :: 0 <= i < k ==> del[i] == slots[i].off)
    && (forall i :: 0 <= i < k ==> Pseudo(slots[i..]) > newSize)
    && (it.size > newSize || k > 0)
    && it.size == Pseudo(slots[k..]) && h == SplitHi(hi, lo, k) && l == SplitLo(hi, lo, k)
    && (if it.size == 0 then h == [] && l == [] && it.rbSize == BUF_SIZE
        else RingOk(h, l, it) && h != [] && LastSlot(h, l) == LastSlot(hi, lo))
  }

  lemma SplitWhole(hi: seq<Slot>, lo: seq<Slot>, k: nat)
    requires k <= |hi| + |lo|
    ensures SplitHi(hi, lo, k) + SplitLo(hi, lo, k) == (hi + lo)[k..]
  {
  }

  lemma PlanStart(hi: seq<Slot>, lo: seq<Slot>, it: Iter, newSize: int)
    requires RingOk(hi, lo, it) && 0 <= newSize < it.size
    ensures hi != [] && it.last == LastSlot(hi, lo).off && Planning(hi, lo, newSize, [], hi, lo, it)
  {
    assert (hi + lo)[0..] == hi + lo && hi[0..] == hi;
  }

  lemma PlanStep(hi: seq<Slot>, lo: seq<Slot>, newSize: int, del: seq<int>, h: seq<Slot>, l: seq<Slot>, it: Iter)
    requires Planning(hi, lo, newSize, del, h, l, it) && 0 <= newSize < it.size
    ensures var slots, k := hi + lo, |del|;
      && k < |slots| && h != [] && it.first == slots[k].off && Pseudo(slots[k..]) == it.size
      && var f := slots[k].hdrLen; var n := DropOldest(it, NodeLen(f), f, NodeLen(LastSlot(hi, lo).hdrLen));
         Planning(hi, lo, newSize, del + [it.first], DropHi(h, l), DropLo(h, l), n)
  {
    hide RingOk, Pseudo, SplitHi, SplitLo, DropHi, DropLo, LastSlot, NodeLen;
    var slots, k := hi + lo, |del|;
    SplitStep(hi, lo, k);
    RingFirst(h, l, it);
    DropOldestOk(h, l, it);
  }

  lemma RingFirst(hi: seq<Slot>, lo: seq<Slot>, it: Iter)
    requires RingOk(hi, lo, it) && hi != []
    ensures it.first == hi[0].off
  {
  }

  lemma SplitStep(hi: seq<Slot>, lo: seq<Slot>, k: nat)
    requires k <= |hi| + |lo| && SplitHi(hi, lo, k) != []
    ensures k < |hi| + |lo| && SplitHi(hi, lo, k)[0] == (hi + lo)[k]
    ensures var h, l := SplitHi(hi, lo, k), SplitLo(hi, lo, k);
      DropHi(h, l) == SplitHi(hi, lo, k + 1) && DropLo(h, l) == SplitLo(hi, lo, k + 1)
    ensures var slots := hi + lo; Pseudo(slots[k..]) == ENTRY_OVERHEAD + slots[k].hdrLen + Pseudo(slots[k + 1..])
    ensures SplitHi(hi, lo, k + 1) == [] ==> SplitLo(hi, lo, k + 1) == []
  {
    assert (hi + lo)[k..][1..] == (hi + lo)[k + 1..];
  }

  lemma PlanDone(hi: seq<Slot>, lo: seq<Slot>, newSize: int, del: seq<int>, h: seq<Slot>, l: seq<Slot>, it: Iter)
    requires Planning(hi, lo, newSize, del, h, l, it) && it.size <= newSize
    ensures Planned(hi, lo, newSize, del, h, l, if it.size == 0 then Iter(-1, -1, 0, it.rbSize, 0) else it)
    ensures h != [] ==> LastSlot(h, l) == LastSlot(hi, lo)
    ensures |del| <= |hi + lo| && forall i :: 0 <= i < |del| ==> del[i] == (hi + lo)[i].off
  {
  }

  // ---------------------------------------------------------------- overlapping writes

  /** A write to the bits `w` spoils every field it overlaps. */
  function ClobberStore(st: Store, w: Bits): Store {
    Store(map o | o in st.heads && Disjoint(w, HeadBits(o)) :: st.heads[o],
          map o | o in st.texts && Disjoint(w, TextBits(o, |st.texts[o]|)) :: st.texts[o])
  }

  /** Overlapped links read as `junk` from then on. */
  function ClobberLinks(m: Links, w: Bits, junk: Links): (r: Links)
    requires |junk| == |m|
    ensures |r| == |m|
  {
    seq(|m|, o requires 0 <= o < |m| => if Disjoint(w, LinkBits(o)) then m[o] else junk[o])
  }

  lemma {:induction false} ClobberRep(m: Links, root: int, t: Tree, w: Bits, junk: Links)
    requires Rep(m, root, Top, t) && |junk| == |m|
    requires forall o :: o in Offs(t) ==> Disjoint(w, LinkBits(o))
    ensures Rep(ClobberLinks(m, w, junk), root, Top, t)
  {
    LinkedFrame(m, ClobberLinks(m, w, junk), t, -1);
  }

  /** Fields of slots that lie apart do not overlap. */
  lemma ApartFields(x: Slot, y: Slot)
    requires Apart(x, y)
    ensures forall a, b | a in {HeadBits(x.off), TextBits(x.off, x.hdrLen)}
      && b in {HeadBits(y.off), LinkBits(y.off), TextBits(y.off, y.hdrLen)} :: Disjoint(a, b)
  {
  }

  lemma ClobberHolds(st: Store, w: Bits, y: Slot, f: Field)
    requires Holds(st, y.off, f) && y.hdrLen == |f.name| + |f.value|
    requires Disjoint(w, HeadBits(y.off)) && Disjoint(w, TextBits(y.off, y.hdrLen))
    ensures Holds(ClobberStore(st, w), y.off, f)
    ensures ClobberStore(st, w).heads[y.off] == st.heads[y.off]
  {
  }

  // ---------------------------------------------------------------- tree and slots in step

  /** The tree holds exactly the given slots. */
  ghost predicate Matches(t: Tree, slots: seq<Slot>, fields: D.Table) {
    |slots| == |fields| && Distinct(slots) && KeysOf(slots, fields).Keys == Offs(t)
  }

  /** The tree sorts the slots by the fields in them. */
  ghost predicate Ranked(t: Tree, slots: seq<Slot>, fields: D.Table) {
    |slots| == |fields| && Sorted(Inorder(t), KeysOf(slots, fields))
  }

  /** The tree is in order, the field is not in it, and it is compared with no field the wrong way round. */
  ghost predicate Fitting(t: Tree, slots: seq<Slot>, fields: D.Table, hName: seq<Bytes>, hVal: seq<Bytes>, f: Field) {
    && Ranked(t, slots, fields) && InBytes(hName, hVal) && FairTable(hName, hVal, fields)
    && forall i :: 0 <= i < |fields| ==> Rank(fields[i]) != Rank(f)
  }

  lemma FittingRanked(t: Tree, slots: seq<Slot>, fields: D.Table, hName: seq<Bytes>, hVal: seq<Bytes>, f: Field)
    requires Fitting(t, slots, fields, hName, hVal, f)
    ensures Ranked(t, slots, fields)
  {
  }

  lemma IsFitting(t: Tree, slots: seq<Slot>, fields: D.Table, hName: seq<Bytes>, hVal: seq<Bytes>, f: Field)
    requires Ranked(t, slots, fields) && InBytes(hName, hVal) && FairTable(hName, hVal, fields)
    requires forall i :: 0 <= i < |fields| ==> Rank(fields[i]) != Rank(f)
    ensures Fitting(t, slots, fields, hName, hVal, f)
  {
  }

  lemma FittingDrop(t: Tree, t': Tree, slots: seq<Slot>, fields: D.Table, k: nat, hName: seq<Bytes>, hVal: seq<Bytes>, f: Field)
    requires Fitting(t, slots, fields, hName, hVal, f) && k <= |fields| == |slots| && Ranked(t', slots[k..], fields[k..])
    ensures Fitting(t', slots[k..], fields[k..], hName, hVal, f)
  {
    hide Ranked, Rank, Fair, BytesField, InBytes;
  }

  lemma {:induction false} RankedFair(t: Tree, slots: seq<Slot>, fields: D.Table, hName: seq<Bytes>, hVal: seq<Bytes>)
    requires Ranked(t, slots, fields) && InBytes(hName, hVal) && FairTable(hName, hVal, fields)
    ensures |slots| == |fields| && Sorted(Inorder(t), KeysOf(slots, fields)) && FairAll(hName, hVal, KeysOf(slots, fields))
  {
    hide Sorted, InBytes, FairTable, FairAll;
    FairKeys(slots, fields, hName, hVal);
  }

  lemma EndsFree(t: Tree, c: Ctx, u: Tree, res: Result, node: int, parent: int, toLeft: bool)
    requires EndsAt(t, c, u, res, node, parent, toLeft) && res != Found
    ensures FreePlace(t, c, parent, toLeft)
  {
  }

  lemma AddedSlots(hi: seq<Slot>, lo: seq<Slot>, fields: D.Table, window: nat, f: Field, k: nat, h: seq<Slot>, l: seq<Slot>, it: Iter, at: Placement)
    requires D.EntrySize(f) <= window && Kept(hi, lo, fields, window - D.EntrySize(f), k, h, l, it) && at.At? && Fits(h, l, it, at, |f.name| + |f.value|)
    ensures k <= |fields| == |hi + lo| && D.Insert(fields, window, f) == fields[k..] + [f]
    ensures var x := Slot(at.off, |f.name| + |f.value|); AddHi(h, l, x) + AddLo(h, l, x) == (hi + lo)[k..] + [x]
  {
    AddedOrder(h, l, Slot(at.off, |f.name| + |f.value|));
  }

  lemma MatchesErase(t: Tree, t': Tree, slots: seq<Slot>, fields: D.Table)
    requires Matches(t, slots, fields) && slots != []
    requires Inorder(t') == Without(Inorder(t), slots[0].off)
    ensures Matches(t', slots[1..], fields[1..])
  {
    var x := slots[0].off;
    KeysTail(slots, fields);
    InorderOffs(t);
    InorderOffs(t');
    forall o ensures o in Offs(t') <==> o in Offs(t) && o != x {
      WithoutMember(Inorder(t), x, o);
    }
    assert KeysOf(slots[1..], fields[1..]).Keys == Offs(t');
  }

  lemma {:induction false} RankedErase(t: Tree, t': Tree, slots: seq<Slot>, fields: D.Table)
    requires Matches(t, slots, fields) && slots != [] && Ranked(t, slots, fields)
    requires Inorder(t') == Without(Inorder(t), slots[0].off)
    ensures Ranked(t', slots[1..], fields[1..])
  {
    hide Walk, Inorder, Sorted, KeysOf;
    KeysTail(slots, fields);
    WithoutSorted(Inorder(t), slots[0].off, KeysOf(slots, fields));
  }

  lemma {:induction false} MatchesAdd(t: Tree, c: Ctx, slots: seq<Slot>, fields: D.Table, x: Slot, f: Field)
    requires Matches(Plug(c, Leaf), slots, fields)
    requires forall i :: 0 <= i < |slots| ==> slots[i].off != x.off
    requires Inorder(t) == Before(c) + [x.off] + After(c)
    ensures Matches(t, slots + [x], fields + [f])
  {
    hide Walk, Inorder;
    KeysAt(slots, fields);
    KeysAppend(slots, fields, x, f);
    AddedOffs(t, c, x.off);
    PlugOffs(c, Leaf);
  }

  lemma {:induction false} RankedAdd(t: Tree, c: Ctx, slots: seq<Slot>, fields: D.Table, x: Slot, f: Field)
    requires Matches(Plug(c, Leaf), slots, fields) && Ranked(Plug(c, Leaf), slots, fields) && Between(c, f, KeysOf(slots, fields))
    requires forall i :: 0 <= i < |slots| ==> slots[i].off != x.off
    requires Inorder(t) == Before(c) + [x.off] + After(c)
    ensures Ranked(t, slots + [x], fields + [f])
  {
    hide Less, Walk, Inorder;
    var at := KeysOf(slots, fields);
    KeysAt(slots, fields);
    KeysAppend(slots, fields, x, f);
    LeafInorder(c);
    InsertSorted(Before(c), After(c), x.off, f, at);
  }

  lemma {:induction false} LeafInorder(c: Ctx)
    ensures Inorder(Plug(c, Leaf)) == Before(c) + After(c)
  {
    PlugInorder(c, Leaf);
    assert Inorder(Leaf) == [];
  }

  lemma {:induction false} AddedOffs(t: Tree, c: Ctx, x: int)
    requires Inorder(t) == Before(c) + [x] + After(c)
    ensures Offs(t) == CtxOffs(c) + {x}
  {
    hide Walk, Inorder, Offs, CtxOffs, Before, After;
    InorderOffs(t);
    CtxInorderOffs(c);
    forall o ensures o in Offs(t) <==> o in CtxOffs(c) || o == x {
      assert o in Inorder(t) <==> o in Before(c) || o == x || o in After(c);
    }
  }
}
