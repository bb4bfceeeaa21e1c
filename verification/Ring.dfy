/** Where the nodes of the HPACK encoder table lie in its 4096-byte ring buffer.

    A node starts with the 8-byte `rindex`, then `name_len` (2 bytes), `hdr_len` (15
    bits) and `color` (1 bit), the three 2-byte links, and the header text from byte 18
    on.  Nodes are rounded up to multiples of 8 bytes. */
module Ring {

  const BUF_SIZE := 4096
  const NODE_SIZE := 24
  const ENTRY_OVERHEAD := 32

  function Align8(n: nat): nat {
    (n + 7) / 8 * 8
  }

  function NodeLen(hdrLen: nat): (r: nat)
    ensures r % 8 == 0 && NODE_SIZE + hdrLen <= r < NODE_SIZE + 8 + hdrLen
  {
    Align8(NODE_SIZE + hdrLen)
  }

  datatype Slot = Slot(off: int, hdrLen: nat)

  function End(s: Slot): int {
    s.off + NodeLen(s.hdrLen)
  }

  /** The table-wide fields that are planned before they are committed. */
  datatype Iter = Iter(first: int, last: int, rbLen: int, rbSize: int, size: int)

  const EmptyIter := Iter(-1, -1, 0, BUF_SIZE, 0)

  /** Slots lying back to back from `from` to `to`. */
  predicate Run(s: seq<Slot>, from: int, to: int) {
    if s == [] then from == to
    else s[0].off == from && from % 8 == 0 && Run(s[1..], End(s[0]), to)
  }

  function Pseudo(s: seq<Slot>): nat {
    if s == [] then 0 else ENTRY_OVERHEAD + s[0].hdrLen + Pseudo(s[1..])
  }

  function LastOf(s: seq<Slot>): Slot
    requires s != []
  {
    s[|s| - 1]
  }

  /** `hi` is the older run of nodes.  Once the buffer has wrapped, `lo` is the newer run
      from the start of the buffer, and `rbSize` is where the older run ends. */
  predicate RingOk(hi: seq<Slot>, lo: seq<Slot>, it: Iter) {
    if hi == [] then lo == [] && it == EmptyIter
    else
      && it.first == hi[0].off >= 0
      && it.size == Pseudo(hi + lo)
      && if lo == [] then
           && it.last == LastOf(hi).off && it.rbSize == BUF_SIZE
           && Run(hi, it.first, End(LastOf(hi))) && End(LastOf(hi)) <= BUF_SIZE
           && it.rbLen == End(LastOf(hi)) - it.first
         else
           && it.last == LastOf(lo).off
           && Run(hi, it.first, it.rbSize) && it.rbSize <= BUF_SIZE
           && Run(lo, 0, End(LastOf(lo))) && End(LastOf(lo)) <= it.first
           && it.rbLen == it.rbSize - it.first + End(LastOf(lo))
  }

  lemma {:induction false} RunBounds(s: seq<Slot>, from: int, to: int)
    requires Run(s, from, to)
    ensures from <= to && forall i :: 0 <= i < |s| ==> from <= s[i].off && End(s[i]) <= to
    ensures s != [] ==> from < to && s[0].off == from && End(LastOf(s)) == to && to % 8 == 0
    ensures to - from <= Pseudo(s)
    decreases s
  {
    if s != [] {
      RunBounds(s[1..], End(s[0]), to);
      assert forall i :: 1 <= i < |s| ==> s[i] == s[1..][i - 1];
      if |s| > 1 { assert LastOf(s[1..]) == LastOf(s); }
    }
  }

  lemma {:induction false} PseudoConcat(a: seq<Slot>, b: seq<Slot>)
    ensures Pseudo(a + b) == Pseudo(a) + Pseudo(b)
    decreases a
  {
    if a == [] {
      assert a + b == b;
    } else {
      assert (a + b)[1..] == a[1..] + b;
      PseudoConcat(a[1..], b);
    }
  }

  lemma {:induction false} RunAppend(s: seq<Slot>, from: int, to: int, x: Slot)
    requires Run(s, from, to) && x.off == to && to % 8 == 0
    ensures Run(s + [x], from, End(x))
    decreases s
  {
    if s == [] {
      assert s + [x] == [x];
      assert Run([x][1..], End(x), End(x));
    } else {
      assert (s + [x])[1..] == s[1..] + [x];
      RunAppend(s[1..], End(s[0]), to, x);
    }
  }

  // ---------------------------------------------------------------- eviction

  /** The two runs after the oldest node is gone. */
  function DropHi(hi: seq<Slot>, lo: seq<Slot>): seq<Slot>
    requires hi != []
  {
    if |hi| == 1 then lo else hi[1..]
  }

  function DropLo(hi: seq<Slot>, lo: seq<Slot>): seq<Slot>
    requires hi != []
  {
    if |hi| == 1 then [] else lo
  }

  /** The occupied bytes never exceed the accounted size. */
  lemma LenBelowSize(hi: seq<Slot>, lo: seq<Slot>, it: Iter)
    requires RingOk(hi, lo, it)
    ensures it.rbLen <= it.size && (it.size == 0 <==> hi == [])
  {
    PseudoConcat(hi, lo);
    if hi != [] {
      if lo == [] { RunBounds(hi, it.first, End(LastOf(hi))); }
      else { RunBounds(hi, it.first, it.rbSize); RunBounds(lo, 0, End(LastOf(lo))); }
    }
  }

  /** One round of the eviction loop, as the program computes it. */
  function DropOldest(it: Iter, fLen: int, fHdrLen: int, lastLen: int): Iter {
    var wraps := it.last < it.first && it.rbLen - fLen == it.last + lastLen;
    it.(rbSize := if wraps then BUF_SIZE else it.rbSize,
        first := if wraps then 0 else it.first + fLen,
        size := it.size - (ENTRY_OVERHEAD + fHdrLen),
        rbLen := it.rbLen - fLen)
  }

  function LastSlot(hi: seq<Slot>, lo: seq<Slot>): Slot
    requires hi != []
  {
    if lo == [] then LastOf(hi) else LastOf(lo)
  }

  /** The ring without its oldest node is described by `n`. */
  ghost predicate Dropped(hi: seq<Slot>, lo: seq<Slot>, n: Iter)
    requires hi != []
  {
    && n.size >= 0
    && if n.size == 0 then DropHi(hi, lo) == [] == DropLo(hi, lo) && n.rbSize == BUF_SIZE
       else RingOk(DropHi(hi, lo), DropLo(hi, lo), n) && DropHi(hi, lo) != []
            && LastSlot(DropHi(hi, lo), DropLo(hi, lo)) == LastSlot(hi, lo)
  }

  lemma DropOldestOk(hi: seq<Slot>, lo: seq<Slot>, it: Iter)
    requires RingOk(hi, lo, it) && hi != []
    ensures Dropped(hi, lo, DropOldest(it, NodeLen(hi[0].hdrLen), hi[0].hdrLen, NodeLen(LastSlot(hi, lo).hdrLen)))
    ensures DropHi(hi, lo) + DropLo(hi, lo) == (hi + lo)[1..]
  {
    if lo == [] {
      DropFromOne(hi, it);
    } else {
      DropFromTwo(hi, lo, it);
    }
    hide RingOk, Dropped, DropOldest;
  }

  lemma {:induction false} DropFromOne(hi: seq<Slot>, it: Iter)
    requires RingOk(hi, [], it) && hi != []
    ensures Dropped(hi, [], DropOldest(it, NodeLen(hi[0].hdrLen), hi[0].hdrLen, NodeLen(LastOf(hi).hdrLen)))
  {
    assert hi + [] == hi && hi[1..] + [] == hi[1..];
    RunBounds(hi, it.first, End(LastOf(hi)));
    if |hi| > 1 { RunBounds(hi[1..], End(hi[0]), End(LastOf(hi))); }
  }

  lemma {:induction false} DropFromTwo(hi: seq<Slot>, lo: seq<Slot>, it: Iter)
    requires RingOk(hi, lo, it) && hi != [] && lo != []
    ensures Dropped(hi, lo, DropOldest(it, NodeLen(hi[0].hdrLen), hi[0].hdrLen, NodeLen(LastOf(lo).hdrLen)))
  {
    PseudoConcat(hi, lo);
    PseudoConcat(DropHi(hi, lo), DropLo(hi, lo));
    RunBounds(hi, it.first, it.rbSize);
    RunBounds(lo, 0, End(LastOf(lo)));
    RunBounds(hi[1..], End(hi[0]), it.rbSize);
  }

  /** The two runs after the `k` oldest nodes are gone. */
  function SplitHi(hi: seq<Slot>, lo: seq<Slot>, k: nat): seq<Slot>
    requires k <= |hi| + |lo|
  {
    if k < |hi| then hi[k..] else lo[k - |hi|..]
  }

  function SplitLo(hi: seq<Slot>, lo: seq<Slot>, k: nat): seq<Slot>
    requires k <= |hi| + |lo|
  {
    if k < |hi| then lo else []
  }

  /** The table-wide fields are determined by the two runs. */
  function IterOf(hi: seq<Slot>, lo: seq<Slot>): Iter {
    if hi == [] then EmptyIter
    else if lo == [] then Iter(hi[0].off, LastOf(hi).off, End(LastOf(hi)) - hi[0].off, BUF_SIZE, Pseudo(hi + lo))
    else Iter(hi[0].off, LastOf(lo).off, End(LastOf(hi)) - hi[0].off + End(LastOf(lo)), End(LastOf(hi)), Pseudo(hi + lo))
  }

  lemma RingIter(hi: seq<Slot>, lo: seq<Slot>, it: Iter)
    requires RingOk(hi, lo, it)
    ensures it == IterOf(hi, lo)
  {
    if hi != [] && lo != [] { RunBounds(hi, it.first, it.rbSize); }
  }

  // ---------------------------------------------------------------- placing a new node

  datatype Placement = Refused | At(off: int, rbSize: int)

  /** Where the program puts a node of `nodeLen` bytes; `lastEnd` is the end of the newest node. */
  function Place(it: Iter, lastEnd: int, nodeLen: int): Placement {
    if it.rbSize < it.rbLen + nodeLen then Refused
    else if it.first < 0 then At(0, it.rbSize)
    else if it.first <= it.last then
      var endSpace := BUF_SIZE - lastEnd;
      if endSpace < nodeLen then
        if it.rbSize - endSpace < it.rbLen + nodeLen then Refused else At(0, it.rbSize - endSpace)
      else At(lastEnd, it.rbSize)
    else At(lastEnd, it.rbSize)
  }

  function Placed(it: Iter, at: Placement, hdrLen: nat): Iter
    requires at.At?
  {
    Iter(if it.first < 0 then at.off else it.first, at.off, it.rbLen + NodeLen(hdrLen), at.rbSize,
         it.size + ENTRY_OVERHEAD + hdrLen)
  }

  /** The new node starts the second run exactly when it is put at offset 0 behind others. */
  function AddHi(hi: seq<Slot>, lo: seq<Slot>, x: Slot): seq<Slot> {
    if hi == [] || (lo == [] && x.off != 0) then hi + [x] else hi
  }

  function AddLo(hi: seq<Slot>, lo: seq<Slot>, x: Slot): seq<Slot> {
    if hi == [] || (lo == [] && x.off != 0) then lo else lo + [x]
  }

  function LastEnd(hi: seq<Slot>, lo: seq<Slot>): int {
    if hi == [] then 0 else End(LastSlot(hi, lo))
  }

  predicate Apart(x: Slot, y: Slot) {
    End(x) <= y.off || End(y) <= x.off
  }

  lemma {:induction false} AddedOrder(hi: seq<Slot>, lo: seq<Slot>, x: Slot)
    requires hi == [] ==> lo == []
    ensures AddHi(hi, lo, x) + AddLo(hi, lo, x) == hi + lo + [x]
    ensures Pseudo(AddHi(hi, lo, x) + AddLo(hi, lo, x)) == Pseudo(hi + lo) + ENTRY_OVERHEAD + x.hdrLen
  {
    PseudoConcat(hi + lo, [x]);
    assert [x][1..] == [];
  }

  lemma PlacedOk(hi: seq<Slot>, lo: seq<Slot>, it: Iter, hdrLen: nat)
    requires RingOk(hi, lo, it)
    requires Place(it, LastEnd(hi, lo), NodeLen(hdrLen)).At?
    ensures var at := Place(it, LastEnd(hi, lo), NodeLen(hdrLen)); var x := Slot(at.off, hdrLen);
      && RingOk(AddHi(hi, lo, x), AddLo(hi, lo, x), Placed(it, at, hdrLen))
      && 0 <= at.off && at.off % 8 == 0 && End(x) <= BUF_SIZE
  {
    var at := Place(it, LastEnd(hi, lo), NodeLen(hdrLen));
    var x := Slot(at.off, hdrLen);
    AddedOrder(hi, lo, x);
    hide Pseudo;
    if hi == [] {
      RunAppend([], 0, 0, x);
    } else if lo == [] {
      RunBounds(hi, it.first, End(LastOf(hi)));
      if at.off == 0 { RunAppend([], 0, 0, x); } else { RunAppend(hi, it.first, at.off, x); }
    } else {
      RunBounds(hi, it.first, it.rbSize);
      RunBounds(lo, 0, End(LastOf(lo)));
      RunAppend(lo, 0, at.off, x);
    }
  }

  /** A new node lies apart from every node that stays. */
  lemma PlacedApart(hi: seq<Slot>, lo: seq<Slot>, it: Iter, hdrLen: nat, y: Slot)
    requires RingOk(hi, lo, it) && y in hi + lo
    requires Place(it, LastEnd(hi, lo), NodeLen(hdrLen)).At?
    ensures Apart(Slot(Place(it, LastEnd(hi, lo), NodeLen(hdrLen)).off, hdrLen), y)
  {
    hide Pseudo;
    if lo == [] {
      RunBounds(hi, it.first, End(LastOf(hi)));
    } else {
      RunBounds(hi, it.first, it.rbSize);
      RunBounds(lo, 0, End(LastOf(lo)));
    }
  }

  /** A node at offset `o` would lie in the buffer, apart from all others. */
  ghost predicate FreeAt(slots: seq<Slot>, o: int, hdrLen: nat) {
    0 <= o && End(Slot(o, hdrLen)) <= BUF_SIZE && forall i :: 0 <= i < |slots| ==> Apart(Slot(o, hdrLen), slots[i])
  }

  /** A buffer that has not wrapped refuses a node exactly if there is no room for it anywhere; one that
      has wrapped, exactly if there is no room behind the newest node. */
  lemma {:induction false} RefusedExact(hi: seq<Slot>, lo: seq<Slot>, it: Iter, hdrLen: nat)
    requires RingOk(hi, lo, it)
    ensures lo == [] ==> (Place(it, LastEnd(hi, lo), NodeLen(hdrLen)) == Refused <==> forall o :: !FreeAt(hi, o, hdrLen))
    ensures lo != [] ==> (Place(it, LastEnd(hi, lo), NodeLen(hdrLen)) == Refused <==> !FreeAt(hi + lo, LastEnd(hi, lo), hdrLen))
  {
    hide Pseudo;
    var at := Place(it, LastEnd(hi, lo), NodeLen(hdrLen));
    if at.At? {
      PlacedFree(hi, lo, it, hdrLen);
      assert lo == [] ==> FreeAt(hi, at.off, hdrLen) by { assert lo == [] ==> hi + lo == hi; }
    } else if lo == [] {
      forall o ensures !FreeAt(hi, o, hdrLen) { RefusedOne(hi, it, hdrLen, o); }
    } else {
      RunBounds(hi, it.first, it.rbSize);
      assert (hi + lo)[0] == hi[0];
    }
  }

  lemma {:induction false} PlacedFree(hi: seq<Slot>, lo: seq<Slot>, it: Iter, hdrLen: nat)
    requires RingOk(hi, lo, it) && Place(it, LastEnd(hi, lo), NodeLen(hdrLen)).At?
    ensures FreeAt(hi + lo, Place(it, LastEnd(hi, lo), NodeLen(hdrLen)).off, hdrLen)
    ensures lo != [] ==> Place(it, LastEnd(hi, lo), NodeLen(hdrLen)).off == LastEnd(hi, lo)
  {
    hide Pseudo;
    PlacedOk(hi, lo, it, hdrLen);
    forall i | 0 <= i < |hi + lo| ensures Apart(Slot(Place(it, LastEnd(hi, lo), NodeLen(hdrLen)).off, hdrLen), (hi + lo)[i]) {
      PlacedApart(hi, lo, it, hdrLen, (hi + lo)[i]);
    }
    if lo != [] { RunBounds(hi, it.first, it.rbSize); RunBounds(lo, 0, End(LastOf(lo))); }
  }

  lemma {:induction false} RefusedOne(hi: seq<Slot>, it: Iter, hdrLen: nat, o: int)
    requires RingOk(hi, [], it) && Place(it, LastEnd(hi, []), NodeLen(hdrLen)) == Refused
    ensures !FreeAt(hi, o, hdrLen)
  {
    hide Pseudo;
    if hi != [] {
      RunBounds(hi, it.first, End(LastOf(hi)));
      if FreeAt(hi, o, hdrLen) { Squeezed(hi, it.first, End(LastOf(hi)), Slot(o, hdrLen)); }
    }
  }

  /** What lies apart from a gapless run is before it or behind it. */
  lemma {:induction false} Squeezed(s: seq<Slot>, from: int, to: int, x: Slot)
    requires Run(s, from, to) && s != [] && forall i :: 0 <= i < |s| ==> Apart(x, s[i])
    ensures End(x) <= from || to <= x.off
    decreases s
  {
    if |s| > 1 {
      forall i | 0 <= i < |s| - 1 ensures Apart(x, s[1..][i]) { assert s[1..][i] == s[i + 1]; }
      Squeezed(s[1..], End(s[0]), to, x);
    }
    assert Apart(x, s[0]);
  }

  /** While the accounted size leaves room, too few bytes are left only in a buffer that has wrapped; and
      what is not wrapped reaches to the end of the buffer. */
  lemma {:induction false} ShortOnlyWrapped(hi: seq<Slot>, lo: seq<Slot>, it: Iter, hdrLen: nat)
    requires RingOk(hi, lo, it)
    ensures it.size + ENTRY_OVERHEAD + hdrLen <= BUF_SIZE && it.rbSize < it.rbLen + NodeLen(hdrLen) ==> it.rbSize < BUF_SIZE && lo != []
    ensures 0 <= it.first <= it.last ==> it.rbSize == BUF_SIZE && lo == []
  {
    LenBelowSize(hi, lo, it);
    if lo != [] {
      RunBounds(hi, it.first, it.rbSize);
      RunBounds(lo, 0, End(LastOf(lo)));
    }
  }

  // ---------------------------------------------------------------- overlap of fields

  /** Bits `[from, to)` of the buffer. */
  datatype Bits = Bits(from: int, to: int)

  predicate Disjoint(a: Bits, b: Bits) {
    a.to <= b.from || b.to <= a.from
  }

  /** `rindex`, `name_len` and the 15 bits of `hdr_len`. */
  function HeadBits(off: int): Bits {
    Bits(8 * off, 8 * off + 95)
  }

  /** `color`, `parent`, `left` and `right`. */
  function LinkBits(off: int): Bits {
    Bits(8 * off + 95, 8 * off + 144)
  }

  function TextBits(off: int, hdrLen: nat): Bits {
    Bits(8 * off + 144, 8 * off + 144 + 8 * hdrLen)
  }

  /** The new node's head never shares a bit with the links of a node that was in the
      buffer before the plan, evicted or not. */
  lemma HeadMissesLinks(hi: seq<Slot>, lo: seq<Slot>, it: Iter, at: int, y: Slot)
    requires RingOk(hi, lo, it) && y in hi + lo
    requires at == 0 || at == LastEnd(hi, lo)
    ensures Disjoint(HeadBits(at), LinkBits(y.off)) && y.off >= 0
  {
    if lo == [] {
      RunBounds(hi, it.first, End(LastOf(hi)));
      RunAligned(hi, it.first, End(LastOf(hi)));
    } else {
      RunBounds(hi, it.first, it.rbSize);
      RunBounds(lo, 0, End(LastOf(lo)));
      RunAligned(hi, it.first, it.rbSize);
      RunAligned(lo, 0, End(LastOf(lo)));
    }
  }

  lemma {:induction false} RunAligned(s: seq<Slot>, from: int, to: int)
    requires Run(s, from, to)
    ensures forall i :: 0 <= i < |s| ==> s[i].off % 8 == 0
    decreases s
  {
    if s != [] { RunAligned(s[1..], End(s[0]), to); }
  }

  /** Nodes of one buffer lie apart, so no field of one overlaps a field of another. */
  lemma {:induction false} RunApart(s: seq<Slot>, from: int, to: int, i: nat, j: nat)
    requires Run(s, from, to) && i < j < |s|
    ensures End(s[i]) <= s[j].off
    decreases s
  {
    RunBounds(s[1..], End(s[0]), to);
    if i == 0 { assert s[j] == s[1..][j - 1]; }
    else { RunApart(s[1..], End(s[0]), to, i - 1, j - 1); }
  }

  lemma RingApart(hi: seq<Slot>, lo: seq<Slot>, it: Iter, i: nat, j: nat)
    requires RingOk(hi, lo, it) && i < j < |hi + lo|
    ensures Apart((hi + lo)[i], (hi + lo)[j])
  {
    if lo == [] {
      RunApart(hi, it.first, End(LastOf(hi)), i, j);
    } else {
      RunBounds(hi, it.first, it.rbSize);
      RunBounds(lo, 0, End(LastOf(lo)));
      if j < |hi| { RunApart(hi, it.first, it.rbSize, i, j); }
      else if i >= |hi| { RunApart(lo, 0, End(LastOf(lo)), i - |hi|, j - |hi|); }
    }
  }
}
