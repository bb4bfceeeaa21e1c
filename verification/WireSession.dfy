/** A connection with its header blocks as bytes: encoder table, writer, fragments, automaton and
    decoder table put together. */
module WireSession {
  import opened Bits
  import opened Common
  import opened HeaderOrder
  import opened EncoderTable
  import opened DecoderTable
  import opened RbTree
  import opened Ring
  import opened Lockstep
  import P = PrefixInt
  import W = Wire
  import D = DynTable

  // ---------------------------------------------------------------- representations and items

  predicate RepBytes(rep: Representation) {
    rep.Literal? ==> IsBytes(rep.name) && IsBytes(rep.value)
  }

  /** The encoder never uses the Huffman code, nor the representation that is never indexed. */
  function ItemOf(rep: Representation): W.Item
    requires RepBytes(rep)
  {
    match rep
    case Indexed(index) => W.Indexed(index)
    case Literal(add, nameIndex, name, value) => W.Literal(add, false, nameIndex, W.Text(false, name), W.Text(false, value))
  }

  function RepOf(it: W.Item): Representation
    requires !it.Resize?
  {
    match it
    case Indexed(index) => Indexed(index)
    case Literal(add, _, index, name, value) => Literal(add, index, name.bytes, value.bytes)
  }

  /** Strings whose lengths fit into the writer's buffer. */
  predicate Short(f: Field) {
    |f.name| < 0x7F + 0x4000 && |f.value| < 0x7F + 0x4000
  }

  lemma SpelledItem(rep: Representation, h: Header)
    requires Spelled(rep, h) && BytesField(FieldOf(h)) && Short(FieldOf(h)) && Reference(rep) <= MAX_INDEX
    ensures RepBytes(rep) && W.Proper(ItemOf(rep)) && RepOf(ItemOf(rep)) == rep && Writable(ItemOf(rep)) && Plain(ItemOf(rep))
    ensures forall s :: W.Takes(s, ItemOf(rep)) <==> !(rep.Literal? && Flatten(h.value) == [])
  {
    hide Flatten;
  }

  /** Strings are not Huffman codes. */
  predicate Plain(it: W.Item) {
    it.Literal? ==> !it.name.coded && !it.value.coded
  }

  lemma {:induction false} HeardPlain(items: seq<W.Item>)
    requires forall i :: 0 <= i < |items| ==> Plain(items[i])
    ensures W.HeardAll(items) == items
  {
    assert forall i :: 0 <= i < |items| ==> W.Heard(items[i]) == items[i];
  }

  // ---------------------------------------------------------------- writing

  /** All integers fit into the writer's buffer. */
  predicate Writable(it: W.Item) {
    match it
    case Indexed(index) => index < 0x7F + 0x4000
    case Literal(add, _, index, name, value) =>
      index < W.NameMax(add) + 0x4000 && |name.bytes| < 0x7F + 0x4000 && |value.bytes| < 0x7F + 0x4000
    case Resize(window) => window < 0x1F + 0x4000
  }

  method Put(index: nat, max: nat, mask: nat) returns (dst: seq<Byte>)
    requires P.IsPrefix(max, mask) && index < max + 0x4000
    ensures dst == P.Encode(index, max, mask)
  {
    var buf := new Byte[P.MAX_INT];
    var sz := P.WriteInt(index, max, mask, buf);
    dst := buf[..sz];
  }

  method Write(it: W.Item) returns (dst: seq<Byte>)
    requires Writable(it) && W.Proper(it)
    ensures dst == W.Code(it)
  {
    hide P.Encode;
    match it
    case Indexed(index) =>
      dst := Put(index, 0x7F, 0x80);
    case Resize(window) =>
      dst := Put(window, 0x1F, 0x20);
    case Literal(add, never, index, name, value) =>
      dst := Put(index, W.NameMax(add), W.NameMask(add, never));
      var mid: seq<Byte> := [];
      if index == 0 {
        var len := Put(|name.bytes|, 0x7F, if name.coded then 0x80 else 0);
        mid := len + name.bytes;
      }
      var vlen := Put(|value.bytes|, 0x7F, if value.coded then 0x80 else 0);
      dst := dst + (mid + (vlen + value.bytes));
  }

  // ---------------------------------------------------------------- one header block

  /** The decoder's automaton waits for a block; a size change on its way is allowed. */
  ghost predicate Linked(enc: EncTable, dec: DecTable, fsm: W.Decoder, raised: bool)
    reads enc, enc.index, dec, dec.entries, fsm, fsm.huff
  {
    && InStep(enc, dec, raised) && fsm.Valid() && fsm.state.phase == W.Ready && fsm.state.limit == dec.maxWindow
    && (enc.wndChanged ==> fsm.state.upd)
  }

  method WriteAll(items: seq<W.Item>) returns (bytes: seq<Byte>)
    requires forall i :: 0 <= i < |items| ==> W.Proper(items[i]) && Writable(items[i])
    ensures bytes == W.Codes(items)
  {
    hide W.Code, W.Proper, Writable;
    bytes := [];
    for i := 0 to |items|
      invariant bytes == W.Codes(items[..i])
    {
      CodesUpTo(items, i);
      var code := Write(items[i]);
      bytes := bytes + code;
    }
    assert items[..|items|] == items;
  }

  /** Send items as bytes, in fragments; what the automaton makes of them. */
  method Transport(fsm: W.Decoder, items: seq<W.Item>, cuts: seq<nat>) returns (got: seq<W.Item>)
    requires fsm.Valid() && items != [] && fsm.state.phase == W.Ready
    requires forall i :: 0 <= i < |items| ==> W.Proper(items[i]) && Writable(items[i])
    modifies fsm, fsm.huff
    ensures fsm.Valid() && (fsm.huff == old(fsm.huff) || fresh(fsm.huff))
    ensures got == W.HeardAll(items[..W.Refused(old(fsm.state), items)]) && fsm.state.out == old(fsm.state.out) + got
    ensures |got| == |items| ==> fsm.state.phase == W.Ready && fsm.state.limit == old(fsm.state.limit)
  {
    hide W.Run, W.Codes, W.Proper, Writable, W.Refused, W.Heard;
    CodesLong(items);
    var bytes := WriteAll(items);
    var frags := Cut(bytes, cuts);
    var before := |fsm.state.out|;
    W.BlockBack(fsm.state, items);
    W.LimitKept(fsm.state, bytes);
    var fed := fsm.FeedAll(frags);
    got := fsm.state.out[before..];
  }

  /** Plain items arrive as they are. */
  method Carry(fsm: W.Decoder, items: seq<W.Item>, cuts: seq<nat>) returns (got: seq<W.Item>)
    requires fsm.Valid() && items != [] && fsm.state.phase == W.Ready
    requires forall i :: 0 <= i < |items| ==> W.Proper(items[i]) && Writable(items[i]) && Plain(items[i])
    modifies fsm, fsm.huff
    ensures fsm.Valid() && (fsm.huff == old(fsm.huff) || fresh(fsm.huff))
    ensures got == items[..W.Refused(old(fsm.state), items)] && fsm.state.out == old(fsm.state.out) + got
    ensures |got| == |items| ==> got == items && fsm.state.phase == W.Ready && fsm.state.limit == old(fsm.state.limit)
  {
    hide W.Proper, Writable, W.Refused, Plain, W.HeardAll;
    HeardPlain(items[..W.Refused(fsm.state, items)]);
    got := Transport(fsm, items, cuts);
  }

  /** The peer writes its strings in either way, as they are or as Huffman codes; in any fragments the decoder
      hears the strings themselves. */
  method Listen(fsm: W.Decoder, raws: seq<W.Item>, ghost items: seq<W.Item>, cuts: seq<nat>)
    requires fsm.Valid() && fsm.state.phase == W.Ready && raws != [] && |raws| == |items|
    requires forall i :: 0 <= i < |raws| ==> W.Proper(raws[i]) && W.SpellsItem(raws[i], items[i])
    modifies fsm, fsm.huff
    ensures fsm.Valid() && (fsm.huff == old(fsm.huff) || fresh(fsm.huff))
    ensures fsm.state.phase == W.Ready && fsm.state.out == old(fsm.state.out) + items
  {
    hide W.Run, W.Proper, W.SpellsItem;
    CodesLong(raws);
    var frags := Cut(W.Codes(raws), cuts);
    W.CodedBack(fsm.state, raws, items);
    var fed := fsm.FeedAll(frags);
  }

  lemma {:induction false} CodesUpTo(items: seq<W.Item>, i: nat)
    requires i < |items|
    ensures W.Codes(items[..i + 1]) == W.Codes(items[..i]) + W.Code(items[i])
    decreases i
  {
    hide W.Code;
    if i == 0 {
      assert items[..1][1..] == [];
    } else {
      CodesUpTo(items[1..], i - 1);
      assert items[..i + 1][1..] == items[1..][..i] && items[..i][1..] == items[1..][..i - 1];
    }
  }

  lemma {:induction false} CodesLong(items: seq<W.Item>)
    requires items != []
    ensures W.Codes(items) != []
  {
  }

  // ---------------------------------------------------------------- whole connections

  /** What is put on the wire for one header: a size update if there is one to tell, and the field. */
  function Block(changed: bool, window: nat, rep: Representation): seq<W.Item>
    requires RepBytes(rep)
  {
    (if changed then [W.Resize(window)] else []) + [ItemOf(rep)]
  }

  lemma {:induction false} BlockTaken(s: W.State, changed: bool, window: nat, rep: Representation, h: Header)
    requires Spelled(rep, h) && BytesField(FieldOf(h)) && Short(FieldOf(h)) && Reference(rep) <= MAX_INDEX
    requires window <= BUF_SIZE && window <= s.limit && (changed ==> s.upd)
    ensures RepBytes(rep) && forall i :: 0 <= i < |Block(changed, window, rep)| ==>
      var it := Block(changed, window, rep)[i]; W.Proper(it) && Writable(it) && Plain(it)
    ensures var items := Block(changed, window, rep);
      W.Refused(s, items) == if rep.Literal? && Flatten(h.value) == [] then |items| - 1 else |items|
  {
    hide Spelled, W.Proper, W.Takes, Flatten;
    SpelledItem(rep, h);
    var it := ItemOf(rep);
    ResizeOk(window);
    assert [it][1..] == [];
    if changed {
      var items := Block(changed, window, rep);
      assert items[0] == W.Resize(window) && items[1..] == [it];
      assert W.Takes(s, items[0]) by { ResizeTaken(s, window); }
    }
  }

  lemma ResizeOk(window: nat)
    requires window <= BUF_SIZE
    ensures W.Proper(W.Resize(window)) && Writable(W.Resize(window))
  {
  }

  lemma ResizeTaken(s: W.State, window: nat)
    ensures W.Takes(s, W.Resize(window)) <==> s.upd && window <= s.limit
  {
  }

  /** What the decoder's table makes of the items of one block. */
  method Receive(dec: DecTable, st: seq<Field>, items: seq<W.Item>, inPlace: bool) returns (got: Option<Field>)
    requires dec.Valid() && |st| == D.STATIC_ENTRIES && |items| > 0 && !items[|items| - 1].Resize?
    requires |items| == 1 || (|items| == 2 && items[0].Resize? && items[0].window < WORD && items[0].window <= dec.maxWindow)
    requires Reference(RepOf(items[|items| - 1])) < WORD
    modifies dec, dec.entries
    ensures dec.Valid() && dec.maxWindow == old(dec.maxWindow) && (dec.entries == old(dec.entries) || fresh(dec.entries))
    ensures dec.window == if |items| == 2 then items[0].window else old(dec.window)
    ensures var rep := RepOf(items[|items| - 1]);
      var d := if |items| == 2 then D.Evict(old(dec.contents), items[0].window) else old(dec.contents);
      && (Tabled(rep, Meaning(st, d, rep)) ==> got == Meaning(st, d, rep))
      && (got.Some? && Tabled(rep, Meaning(st, d, rep)) ==> dec.contents == Grown(d, dec.window, rep, got.value))
  {
    hide Circle, D.Size, D.Evict, D.Insert, Meaning, Tabled;
    dec.ValidSize();
    if |items| == 2 {
      var status := dec.SetLength(items[0].window);
    }
    got := Decode(dec, st, RepOf(items[|items| - 1]), inPlace);
  }

  /** The encoder's part: the size update that may be due, and the field. */
  method Compose(enc: EncTable, st: seq<Field>, h: Header, junk: Links)
    returns (rep: Option<Representation>, changed: bool, window: nat, warned: bool)
    requires enc.Valid() && |junk| == BUF_SIZE && |st| == D.STATIC_ENTRIES && HintOk(st, h) && BytesField(FieldOf(h))
    modifies enc, enc.index
    ensures enc.window == old(enc.window) == window <= BUF_SIZE && changed == old(enc.wndChanged) && !enc.wndChanged
    ensures (!warned ==> enc.Valid()) && (old(enc.InOrder()) && FairHeader(h, old(enc.contents)) ==> !warned && enc.InOrder())
    ensures rep.None? ==> Flatten(h.name) == [] && !warned
    ensures rep.Some? ==> ConveysAhead(st, old(enc.contents), rep.value, FieldOf(h)) && Spelled(rep.value, h) && Preferred(h, rep.value)
    ensures rep.Some? && h.dyn && old(enc.InOrder()) && FairHeader(h, old(enc.contents)) ==> Thrifty(h, old(enc.contents), rep.value)
    ensures rep.Some? ==> Reference(rep.value) <= MAX_INDEX && enc.contents == Grown(old(enc.contents), window, rep.value, FieldOf(h))
    ensures rep.Some? && rep.value.Literal? && rep.value.add ==> D.EntrySize(FieldOf(h)) <= window
    ensures forall raised :: Followed(Send(h), old(Now(enc, raised)), Now(enc, raised))
    ensures warned ==> Warns(old(enc.contents), enc.window, FieldOf(h))
  {
    hide D.Size, D.Evict, D.Insert, TableOk, Flatten, ConveysAhead, HintOk, BytesField, FairHeader, D.EntrySize, Spelled, Ranked, CanAdd, EncoderTable.Put,
         Overlooked, Warns, Followed, Preferred, Thrifty;
    enc.ValidWindow();
    changed, window := enc.wndChanged, enc.window;
    if changed {
      window := enc.WriteSize();
    }
    rep, warned := Encode(enc, st, h, junk);
    forall raised ensures Followed(Send(h), old(Now(enc, raised)), Now(enc, raised)) {
      SentStep(h, old(Now(enc, raised)), Now(enc, raised), rep);
    }
  }

  /** The way of a representation, with the size update that may be due: bytes, fragments, automaton, table. */
  method Travel(dec: DecTable, fsm: W.Decoder, st: seq<Field>, rep: Representation, changed: bool, window: nat, cuts: seq<nat>, inPlace: bool,
                ghost h: Header) returns (got: Option<Field>)
    requires dec.Valid() && fsm.Valid() && fsm.state.phase == W.Ready && fsm.state.limit == dec.maxWindow && |st| == D.STATIC_ENTRIES
    requires Spelled(rep, h) && BytesField(FieldOf(h)) && Short(FieldOf(h)) && Reference(rep) <= MAX_INDEX
    requires window <= BUF_SIZE && window <= dec.maxWindow && (changed ==> fsm.state.upd)
    modifies dec, dec.entries, fsm, fsm.huff
    ensures (dec.entries == old(dec.entries) || fresh(dec.entries)) && (fsm.huff == old(fsm.huff) || fresh(fsm.huff))
    ensures dec.maxWindow == old(dec.maxWindow)
    ensures rep.Literal? && Flatten(h.value) == [] ==> got == None
    ensures !(rep.Literal? && Flatten(h.value) == []) ==>
      && dec.Valid() && fsm.Valid() && fsm.state.phase == W.Ready && fsm.state.limit == old(fsm.state.limit)
      && dec.window == (if changed then window else old(dec.window))
      && var d := if changed then D.Evict(old(dec.contents), window) else old(dec.contents);
         (Tabled(rep, Meaning(st, d, rep)) ==> got == Meaning(st, d, rep))
         && (got.Some? && Tabled(rep, Meaning(st, d, rep)) ==> dec.contents == Grown(d, dec.window, rep, got.value))
  {
    hide D.Size, D.Evict, D.Insert, Circle, Grown, BytesField, Meaning, Tabled, Spelled, W.Refused, W.Proper, Writable, Short, RepBytes, Plain,
         W.Decoder.Valid, Flatten;
    BlockTaken(fsm.state, changed, window, rep, h);
    var items := Block(changed, window, rep);
    var taken := Carry(fsm, items, cuts);
    if |taken| < |items| {
      return None;
    }
    SpelledItem(rep, h);
    got := Receive(dec, st, items, inPlace);
  }

  /** One header from end to end, with the size update that may be due, in any fragments. */
  method Deliver(enc: EncTable, dec: DecTable, fsm: W.Decoder, st: seq<Field>, h: Header, junk: Links, cuts: seq<nat>, inPlace: bool,
                 ghost raised: bool) returns (got: Option<Field>, warned: bool)
    requires Linked(enc, dec, fsm, raised) && |junk| == BUF_SIZE && |st| == D.STATIC_ENTRIES
    requires HintOk(st, h) && BytesField(FieldOf(h)) && Short(FieldOf(h))
    modifies enc, enc.index, dec, dec.entries, fsm, fsm.huff
    ensures got.Some? ==> Same(FieldOf(h), got.value) && (!warned ==> Linked(enc, dec, fsm, raised) && !enc.wndChanged)
    ensures old(enc.InOrder()) && FairHeader(h, old(enc.contents)) ==> !warned && enc.InOrder()
    ensures (dec.entries == old(dec.entries) || fresh(dec.entries)) && (fsm.huff == old(fsm.huff) || fresh(fsm.huff))
    ensures dec.maxWindow == old(dec.maxWindow)
    ensures Flatten(h.name) != [] && Flatten(h.value) != [] ==> got.Some?
    ensures Followed(Send(h), old(Now(enc, raised)), Now(enc, raised))
    ensures warned ==> Warns(old(enc.contents), enc.window, FieldOf(h))
    ensures got.Some? ==> Heard(Send(h), [got.value], Names(st) + old(Names(dec.contents)))
    ensures got.Some? ==> Names(dec.contents) <= old(Names(dec.contents)) + {got.value.name}
  {
    hide D.Size, D.Evict, D.Insert, TableOk, Same, Circle, Flatten, Conveys, ConveysAhead, Level, Behind, HintOk, Followed, Warns, Grown, Ranked,
         BytesField, FairHeader, Meaning, Tabled, D.EntrySize, Spelled, W.Refused, W.Proper, Writable, Short, RepBytes, Plain, W.Decoder.Valid,
         Names, Heard, Preferred, Thrifty;
    enc.ValidSize();
    dec.ValidSize();
    var f := FieldOf(h);
    ghost var e, d := enc.contents, dec.contents;
    FlushStep(e, d, enc.window);
    EvictFits(d, dec.window);
    var rep, changed, window;
    rep, changed, window, warned := Compose(enc, st, h, junk);
    if rep == None {
      return None, warned;
    }
    ExchangeStep(st, e, D.Evict(d, window), window, rep.value, f);
    got := Travel(dec, fsm, st, rep.value, changed, window, cuts, inPlace, h);
    if got.Some? {
      ghost var now := if changed then D.Evict(d, window) else d;
      EvictNames(d, window);
      MeaningHeard(st, now, rep.value, h, Names(st) + Names(d));
      GrownNames(now, window, rep.value, got.value);
      dec.ValidSize();
      EvictFits(dec.contents, dec.window);
    }
  }

  lemma WindowAllowed(enc: EncTable, dec: DecTable, raised: bool)
    requires InStep(enc, dec, raised)
    ensures 0 <= dec.maxWindow
  {
  }

  predicate ShortEvent(ev: Event) {
    ev.Send? ==> Short(FieldOf(ev.header))
  }

  method Happen(enc: EncTable, dec: DecTable, fsm: W.Decoder, st: seq<Field>, ev: Event, junk: Links, cuts: seq<nat>, raised: bool)
    returns (g: seq<Field>, ok: bool, raised': bool, warned: bool)
    requires Linked(enc, dec, fsm, raised) && |junk| == BUF_SIZE && |st| == D.STATIC_ENTRIES
    requires EventOk(st, dec.maxWindow, ev) && ShortEvent(ev)
    modifies enc, enc.index, dec, dec.entries, fsm, fsm.huff
    ensures Followed(ev, old(Now(enc, raised)), Now(enc, raised'))
    ensures dec.maxWindow == old(dec.maxWindow) && (dec.entries == old(dec.entries) || fresh(dec.entries))
    ensures fsm.huff == old(fsm.huff) || fresh(fsm.huff)
    ensures ok ==> SameFields(if ev.Send? then [FieldOf(ev.header)] else [], g) && (!warned ==> Linked(enc, dec, fsm, raised'))
    ensures old(enc.InOrder()) && FairEvent(ev, old(enc.contents)) ==> !warned && enc.InOrder()
    ensures !ok ==> Blank(ev) && g == []
    ensures warned ==> ev.Send? && Warns(old(enc.contents), enc.window, FieldOf(ev.header))
    ensures ok ==> Heard(ev, g, Names(st) + old(Names(dec.contents))) && Names(dec.contents) <= old(Names(dec.contents)) + Names(g)
  {
    hide InStep, Same, Flatten, SpeltName, HintOk, BytesField, FairHeader, Followed, Warns, Short, Ranked, W.Decoder.Valid;
    g, ok, raised', warned := [], true, raised, false;
    match ev
    case Settings(size) =>
      raised' := Announce(enc, dec, size, raised);
      WindowAllowed(enc, dec, raised');
      fsm.Acknowledged(dec.maxWindow);
    case Send(h) =>
      var inPlace: bool := *;
      var one;
      one, warned := Deliver(enc, dec, fsm, st, h, junk, cuts, inPlace, raised);
      if one == None {
        ok := false;
      } else {
        g := [one.value];
        assert one.value in g;
      }
  }

  lemma LinkedEqual(enc: EncTable, dec: DecTable, fsm: W.Decoder)
    requires Linked(enc, dec, fsm, false)
    ensures TablesEqual(enc, dec)
  {
    hide InStep, TablesEqual;
    StepEqual(enc, dec);
  }

  /** Any run of a connection, as bytes and with any bytes in its headers: however the header blocks are cut
      into fragments, every header arrives as it was sent, up to the case of its name, until the first one
      that has no name or an empty value, or at which the program warns of a field it overlooked.  If the
      window has not risen from a zero that was never told, the tables are equal. */
  method Session(enc: EncTable, dec: DecTable, fsm: W.Decoder, st: seq<Field>, events: seq<Event>, junk: Links, cuts: seq<seq<nat>>)
    returns (got: seq<Field>, ok: bool, raised: bool, warned: bool, ghost hist: seq<Moment>)
    requires Linked(enc, dec, fsm, false) && |junk| == BUF_SIZE && |st| == D.STATIC_ENTRIES && |cuts| == |events|
    requires forall i :: 0 <= i < |events| ==> EventOk(st, dec.maxWindow, events[i]) && ShortEvent(events[i])
    modifies enc, enc.index, dec, dec.entries, fsm, fsm.huff
    ensures Ended(events, hist, got, ok, warned) && hist[0] == old(Now(enc, false)) && Last(hist) == Now(enc, raised)
    ensures (enc.window, enc.wndChanged, raised) == Windows(old(enc.window), old(enc.wndChanged), false, events, |hist| - 1)
    ensures ok && !warned ==> Linked(enc, dec, fsm, raised) && (!raised ==> TablesEqual(enc, dec))
    ensures old(enc.InOrder()) && FairEvents(events, old(enc.contents)) ==> !warned && enc.InOrder()
    ensures AllKnown(Names(got), Names(st) + old(Names(dec.contents)), events, |hist| - 1)
  {
    hide Linked, Same, EventOk, Blank, FairEvent, From, ShortEvent, Ranked, Followed, Warns, Windows, TablesEqual, Heard, AllKnown, Names;
    ghost var names := Names(st) + Names(dec.contents);
    KnownFirst(events, st, dec.contents);
    got, ok, raised, warned := [], true, false, false;
    hist := [Now(enc, false)];
    ghost var fair := enc.InOrder() && FairEvents(events, enc.contents);
    var i := 0;
    while i < |events| && ok && !warned
      invariant 0 <= i <= |events| && |hist| == i + 1 && (ok && !warned ==> Linked(enc, dec, fsm, raised))
      invariant History(events, hist) && hist[0] == old(Now(enc, false)) && Last(hist) == Now(enc, raised)
      invariant if ok then SameFields(Sent(events, i), got) else i > 0 && Blank(events[i - 1]) && SameFields(Sent(events, i - 1), got)
      invariant warned ==> i > 0 && events[i - 1].Send? && Warns(hist[i - 1].table, hist[i].window, FieldOf(events[i - 1].header))
      invariant dec.maxWindow == old(dec.maxWindow) && (dec.entries == old(dec.entries) || fresh(dec.entries))
      invariant fsm.huff == old(fsm.huff) || fresh(fsm.huff)
      invariant fair ==> !warned && enc.InOrder() && forall j :: i <= j < |events| ==> FairEvent(events[j], enc.contents)
      invariant AllKnown(Names(got), names, events, i) && (ok ==> AllKnown(Names(st) + Names(dec.contents) + Names(got), names, events, i))
      decreases |events| - i
    {
      var g;
      ghost var before := Now(enc, raised);
      ghost var was := dec.contents;
      g, ok, raised, warned := Happen(enc, dec, fsm, st, events[i], junk, cuts[i], raised);
      FollowedFrom(events[i], before, Now(enc, raised));
      if fair { FairRest(events, i, before.table, enc.contents); }
      HistoryMore(events, hist, Now(enc, raised));
      hist := hist + [Now(enc, raised)];
      KnownStep(events, i, names, st, was, dec.contents, g, got, ok);
      got := got + g;
      i := i + 1;
    }
    HistoryWindows(events, hist, i);
    if ok && !warned && !raised { LinkedEqual(enc, dec, fsm); }
  }
}
