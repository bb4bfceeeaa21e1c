/** Header blocks of any peer: bytes in fragments, items, and what the decoder's table makes of them one
    after the other. */
module PeerBlock {
  import opened Bits
  import opened Common
  import opened HeaderOrder
  import opened DecoderTable
  import opened EncoderTable
  import opened Lockstep
  import opened RbTree
  import opened WireSession
  import P = PrefixInt
  import W = Wire
  import D = DynTable

  /** The decoder's end: its table and the size of it in force. */
  datatype Side = Side(table: D.Table, window: nat)

  /** One item, as section 6 of RFC 7541 has it; none if it refers to nothing or is too large to be counted. */
  function Told(st: seq<Field>, s: Side, it: W.Item): Option<(Side, seq<Field>)>
    requires |st| == D.STATIC_ENTRIES
  {
    if it.Resize? then Some((Side(D.Evict(s.table, it.window), it.window), []))
    else
      var rep := RepOf(it);
      match Meaning(st, s.table, rep)
      case None => None
      case Some(f) => if Tabled(rep, Some(f)) then Some((Side(Grown(s.table, s.window, rep, f), s.window), [f])) else None
  }

  /** A run of items; none from the first error on. */
  function ToldAll(st: seq<Field>, s: Side, items: seq<W.Item>): Option<(Side, seq<Field>)>
    requires |st| == D.STATIC_ENTRIES
  {
    if items == [] then Some((s, []))
    else
      match ToldAll(st, s, items[..|items| - 1])
      case None => None
      case Some((t, fields)) =>
        match Told(st, t, items[|items| - 1])
        case None => None
        case Some((u, more)) => Some((u, fields + more))
  }

  lemma {:induction false} ToldNext(st: seq<Field>, s: Side, items: seq<W.Item>, i: nat)
    requires |st| == D.STATIC_ENTRIES && i < |items| && ToldAll(st, s, items[..i]).Some?
    ensures ToldAll(st, s, items[..i + 1]) ==
      var (t, fields) := ToldAll(st, s, items[..i]).value;
      match Told(st, t, items[i])
      case None => None
      case Some((u, more)) => Some((u, fields + more))
  {
    hide Told;
    assert items[..i + 1][..i] == items[..i];
  }

  /** An error stays one. */
  lemma {:induction false} ToldNone(st: seq<Field>, s: Side, items: seq<W.Item>, i: nat)
    requires |st| == D.STATIC_ENTRIES && i <= |items| && ToldAll(st, s, items[..i]).None?
    ensures ToldAll(st, s, items).None?
    decreases |items|
  {
    hide Told;
    if i < |items| {
      var n := |items| - 1;
      assert items[..n][..i] == items[..i];
      ToldNone(st, s, items[..n], i);
    } else {
      assert items[..i] == items;
    }
  }

  /** What the automaton lets through can be applied to the table. */
  predicate Applicable(it: W.Item, limit: int) {
    if it.Resize? then it.window <= P.INT_LIMIT && it.window <= limit else Reference(RepOf(it)) <= P.INT_LIMIT
  }

  /** Apply items to the table in turn, up to the first error. */
  method Apply(dec: DecTable, st: seq<Field>, items: seq<W.Item>, inPlace: bool) returns (fields: seq<Field>, ok: bool)
    requires dec.Valid() && 0 <= dec.window && |st| == D.STATIC_ENTRIES
    requires forall i :: 0 <= i < |items| ==> Applicable(items[i], dec.maxWindow)
    modifies dec, dec.entries
    ensures dec.maxWindow == old(dec.maxWindow) && (dec.entries == old(dec.entries) || fresh(dec.entries))
    ensures var r := ToldAll(st, Side(old(dec.contents), old(dec.window)), items);
      if ok then dec.Valid() && 0 <= dec.window && r == Some((Side(dec.contents, dec.window), fields)) else r.None?
  {
    hide Circle, D.Size, D.Evict, D.Insert, Meaning, Tabled, ToldAll, Told, Applicable;
    ghost var start := Side(dec.contents, dec.window);
    fields, ok := [], true;
    assert items[..0] == [];
    assert ToldAll(st, start, []) == Some((start, [])) by { ToldNothing(st, start); }
    for i := 0 to |items|
      invariant dec.Valid() && 0 <= dec.window && dec.maxWindow == old(dec.maxWindow)
      invariant dec.entries == old(dec.entries) || fresh(dec.entries)
      invariant ToldAll(st, start, items[..i]) == Some((Side(dec.contents, dec.window), fields))
    {
      ToldNext(st, start, items, i);
      var f;
      f, ok := ApplyOne(dec, st, items[i], inPlace);
      if !ok {
        ToldNone(st, start, items, i + 1);
        return;
      }
      fields := fields + f;
    }
    assert items[..|items|] == items;
  }

  lemma {:induction false} ToldNothing(st: seq<Field>, s: Side)
    requires |st| == D.STATIC_ENTRIES
    ensures ToldAll(st, s, []) == Some((s, []))
  {
  }

  method ApplyOne(dec: DecTable, st: seq<Field>, it: W.Item, inPlace: bool) returns (f: seq<Field>, ok: bool)
    requires dec.Valid() && 0 <= dec.window && |st| == D.STATIC_ENTRIES && Applicable(it, dec.maxWindow)
    modifies dec, dec.entries
    ensures dec.Valid() && 0 <= dec.window && dec.maxWindow == old(dec.maxWindow) && (dec.entries == old(dec.entries) || fresh(dec.entries))
    ensures Told(st, Side(old(dec.contents), old(dec.window)), it) == if ok then Some((Side(dec.contents, dec.window), f)) else None
  {
    hide Circle, D.Size, D.Evict, D.Insert, Meaning;
    if it.Resize? {
      var status := dec.SetLength(it.window);
      f, ok := [], true;
    } else {
      var r := Decode(dec, st, RepOf(it), inPlace);
      f, ok := if r.Some? then [r.value] else [], r.Some?;
    }
  }

  lemma {:induction false} TakenApplicable(s: W.State, items: seq<W.Item>, i: nat)
    requires (forall j :: 0 <= j < |items| ==> W.Proper(items[j])) && i < W.Refused(s, items)
    ensures Applicable(W.Heard(items[i]), s.limit)
    decreases items
  {
    hide W.Said;
    if i > 0 { TakenApplicable(W.Taken(s, items[0]), items[1..], i - 1); }
  }

  /** A header block of any peer, in any fragments: the items up to the first one the automaton refuses have their
      effect on the table in turn, up to the first one that refers to nothing. */
  method Understand(dec: DecTable, fsm: W.Decoder, st: seq<Field>, items: seq<W.Item>, cuts: seq<nat>, inPlace: bool)
    returns (fields: seq<Field>, ok: bool)
    requires dec.Valid() && 0 <= dec.window && |st| == D.STATIC_ENTRIES
    requires fsm.Valid() && fsm.state.phase == W.Ready && fsm.state.limit == dec.maxWindow
    requires items != [] && forall i :: 0 <= i < |items| ==> W.Proper(items[i])
    modifies dec, dec.entries, fsm, fsm.huff
    ensures dec.maxWindow == old(dec.maxWindow) && (dec.entries == old(dec.entries) || fresh(dec.entries))
    ensures var k := W.Refused(old(fsm.state), items);
      var r := ToldAll(st, Side(old(dec.contents), old(dec.window)), W.HeardAll(items[..k]));
      && (ok <==> k == |items| && r.Some?)
      && (ok ==> dec.Valid() && r == Some((Side(dec.contents, dec.window), fields)) && fsm.Valid() && fsm.state.phase == W.Ready)
  {
    hide W.Run, W.Codes, W.Proper, W.Refused, W.Heard, Applicable, ToldAll, W.Decoder.Valid, Circle;
    CodesLong(items);
    var frags := Cut(W.Codes(items), cuts);
    var before := |fsm.state.out|;
    ghost var s := fsm.state;
    W.BlockBack(s, items);
    var fed := fsm.FeedAll(frags);
    var got := fsm.state.out[before..];
    ghost var k := W.Refused(s, items);
    forall i | 0 <= i < |got| ensures Applicable(got[i], dec.maxWindow) { TakenApplicable(s, items, i); }
    fields, ok := Apply(dec, st, got, inPlace);
    ok := ok && fed;
  }
}
