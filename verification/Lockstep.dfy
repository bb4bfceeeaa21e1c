/** Encoder and decoder tables on the two ends of a connection.

    The encoder turns header fields into representations (section 6 of RFC 7541) and the
    decoder turns them back.  Both keep a dynamic table; the encoder's indices have to mean
    the same entries at the other end. */
module Lockstep {
  import opened Common
  import opened HeaderOrder
  import opened SearchOrder
  import opened EncoderTable
  import opened DecoderTable
  import opened RbTree
  import opened Ring
  import D = DynTable

  /** Fields that differ at most in how the comparator folds the name. */
  predicate Same(f: Field, g: Field) {
    NameRank(f) == NameRank(g) && f.value == g.value
  }

  /** The entries of `e` are the newest entries of `d`. */
  predicate Behind(e: D.Table, d: D.Table) {
    |e| <= |d| && forall i :: 0 <= i < |e| ==> Same(e[i], d[|d| - |e| + i])
  }

  predicate Level(e: D.Table, d: D.Table) {
    Behind(e, d) && |e| == |d|
  }

  // ---------------------------------------------------------------- tables side by side

  lemma SameSize(f: Field, g: Field)
    requires Same(f, g)
    ensures D.EntrySize(f) == D.EntrySize(g)
  {
    assert NameRank(f)[0] == NameRank(g)[0];
  }

  lemma RankSame(f: Field, g: Field)
    requires Rank(f) == Rank(g)
    ensures Same(f, g)
  {
    assert Rank(f)[0] == Rank(g)[0];
    var n := |NameRank(f)|;
    assert NameRank(f) == Rank(f)[..n] && NameRank(g) == Rank(g)[..n];
    assert f.value == Rank(f)[n + 1..] && g.value == Rank(g)[n + 1..];
  }

  lemma {:induction false} LevelSize(e: D.Table, d: D.Table)
    requires Level(e, d)
    ensures D.Size(e) == D.Size(d)
    decreases e
  {
    if e != [] {
      SameSize(e[0], d[0]);
      LevelSize(e[1..], d[1..]);
    }
  }

  lemma BehindSuffix(e: D.Table, d: D.Table, i: nat)
    requires Behind(e, d) && i <= |e|
    ensures Level(e[i..], d[|d| - |e| + i..])
    ensures D.Size(e[i..]) == D.Size(d[|d| - |e| + i..])
  {
    LevelSize(e[i..], d[|d| - |e| + i..]);
  }

  /** Cutting both tables to the same size keeps them in step: the shorter one loses no more. */
  lemma {:induction false} EvictBehind(e: D.Table, d: D.Table, limit: nat)
    requires Behind(e, d)
    ensures Behind(D.Evict(e, limit), D.Evict(d, limit))
    ensures |D.Evict(e, limit)| == if |e| <= |D.Evict(d, limit)| then |e| else |D.Evict(d, limit)|
  {
    hide D.Size, D.Evict, Same;
    D.EvictMinimal(d, limit);
    var n := |D.Evict(d, limit)|;
    var k := if |e| <= n then 0 else |e| - n;
    EvictedAt(e, d, limit, n);
    assert forall i :: 0 <= i < |e| - k ==> Same(e[k..][i], d[|d| - n..][n - (|e| - k) + i]);
  }

  lemma {:induction false} EvictedAt(e: D.Table, d: D.Table, limit: nat, n: nat)
    requires Behind(e, d) && n <= |d| && D.Size(d[|d| - n..]) <= limit
    requires forall i :: 0 <= i < |d| - n ==> D.Size(d[i..]) > limit
    ensures D.Evict(e, limit) == e[if |e| <= n then 0 else |e| - n..]
  {
    hide D.Size, D.Evict, Same;
    var k := if |e| <= n then 0 else |e| - n;
    BehindSuffix(e, d, k);
    if |e| <= n {
      SuffixSmaller(d, |d| - n, |d| - |e|);
    }
    forall i | 0 <= i < k ensures D.Size(e[i..]) > limit {
      BehindSuffix(e, d, i);
    }
    D.EvictAt(e, limit, k);
  }

  lemma {:induction false} EvictLevel(e: D.Table, d: D.Table, limit: nat)
    requires Level(e, d)
    ensures Level(D.Evict(e, limit), D.Evict(d, limit))
  {
    EvictBehind(e, d, limit);
    D.EvictMinimal(d, limit);
  }

  lemma InsertBehind(e: D.Table, d: D.Table, window: nat, f: Field, g: Field)
    requires Behind(e, d) && Same(f, g)
    ensures Behind(D.Insert(e, window, f), D.Insert(d, window, g))
    ensures Level(e, d) ==> Level(D.Insert(e, window, f), D.Insert(d, window, g))
  {
    hide D.Size, D.Evict;
    SameSize(f, g);
    if D.EntrySize(f) <= window {
      EvictBehind(e, d, window - D.EntrySize(f));
      if Level(e, d) { EvictLevel(e, d, window - D.EntrySize(f)); }
    }
  }

  /** The encoder alone may forget old entries. */
  lemma {:induction false} ForgetBehind(e: D.Table, d: D.Table, limit: nat)
    requires Behind(e, d)
    ensures Behind(D.Evict(e, limit), d)
  {
    hide D.Size, D.Evict;
    D.EvictMinimal(e, limit);
  }

  lemma {:induction false} EvictTwice(t: D.Table, a: nat, b: nat)
    requires b <= a
    ensures D.Evict(D.Evict(t, a), b) == D.Evict(t, b)
    decreases t
  {
    if D.Size(t) > a { EvictTwice(t[1..], a, b); }
  }

  // ---------------------------------------------------------------- representations

  /** Sections 6.1 and 6.2: an index, or a literal whose name is an index or a string. */
  datatype Representation = Indexed(index: nat) | Literal(add: bool, nameIndex: nat, name: Bytes, value: Bytes)

  /** A header as it reaches the encoder: chunks, and what is known of its static index. */
  datatype Header = Header(name: seq<Bytes>, value: seq<Bytes>, stIndex: nat, stFull: bool, dyn: bool, trans: bool)

  function FieldOf(h: Header): Field {
    Field(Flatten(h.name), Flatten(h.value))
  }

  predicate HintOk(st: seq<Field>, h: Header)
    requires |st| == D.STATIC_ENTRIES
  {
    && h.stIndex <= D.STATIC_ENTRIES
    && (h.stIndex != 0 ==> SameName(st[h.stIndex - 1], FieldOf(h)))
    && (h.stFull ==> h.stIndex != 0 && Same(FieldOf(h), st[h.stIndex - 1]))
  }

  /** The combined index space: static entries, then the dynamic ones, newest first. */
  function Entry(st: seq<Field>, t: D.Table, index: nat): Option<Field>
    requires |st| == D.STATIC_ENTRIES
  {
    if index == 0 then None
    else if index <= D.STATIC_ENTRIES then Some(st[index - 1])
    else if index <= D.STATIC_ENTRIES + |t| then Some(D.Lookup(t, index))
    else None
  }

  /** The field a representation stands for at a decoder with table `t`; none if it is an error there. */
  function Meaning(st: seq<Field>, t: D.Table, rep: Representation): Option<Field>
    requires |st| == D.STATIC_ENTRIES
  {
    match rep
    case Indexed(index) => Entry(st, t, index)
    case Literal(add, nameIndex, name, value) =>
      if value == [] then None
      else if nameIndex == 0 then if name == [] then None else Some(Field(name, value))
      else match Entry(st, t, nameIndex)
           case Some(g) => Some(Field(g.name, value))
           case None => None
  }

  /** The representation tells `f` to every decoder whose table is at least ours; the one thing
      this decoder never takes is a literal with an empty value. */
  predicate Conveys(st: seq<Field>, t: D.Table, rep: Representation, f: Field)
    requires |st| == D.STATIC_ENTRIES
  {
    && (Meaning(st, t, rep).None? <==> rep.Literal? && f.value == [])
    && (Meaning(st, t, rep).Some? ==> Same(f, Meaning(st, t, rep).value))
  }

  function Reference(rep: Representation): nat {
    match rep case Indexed(index) => index case Literal(_, nameIndex, _, _) => nameIndex
  }

  const MAX_INDEX := D.STATIC_ENTRIES + BUF_SIZE / ENTRY_OVERHEAD

  function Lower(s: Bytes): Bytes {
    seq(|s|, i requires 0 <= i < |s| => LowerByte(s[i]))
  }

  /** The name of a header byte for byte, except that the capitals of a header that is transformed from HTTP/1
      are in lower case (section 8.2.1 of RFC 9113). */
  predicate SpeltName(name: Bytes, h: Header) {
    var was := Flatten(h.name);
    |name| == |was| && forall i :: 0 <= i < |was| ==>
      name[i] == if h.trans && 0x41 <= was[i] <= 0x5A then was[i] + 0x20 else was[i]
  }

  predicate NoCapitals(s: Bytes) {
    forall i :: 0 <= i < |s| ==> !(0x41 <= s[i] <= 0x5A)
  }

  lemma SpeltLower(name: Bytes, h: Header)
    requires SpeltName(name, h) && (h.trans || NoCapitals(Flatten(h.name)))
    ensures NoCapitals(name)
  {
    hide Flatten;
  }

  lemma SpeltSame(name: Bytes, h: Header)
    requires SpeltName(name, h)
    ensures Same(FieldOf(h), Field(name, Flatten(h.value)))
  {
    hide Flatten;
    assert Fold(Flatten(h.name)) == Fold(name);
  }

  /** The strings of a representation are those of the header. */
  predicate Spelled(rep: Representation, h: Header) {
    match rep
    case Indexed(index) => index != 0
    case Literal(_, nameIndex, name, value) =>
      && value == Flatten(h.value)
      && if nameIndex != 0 then name == [] else Flatten(h.name) != [] && SpeltName(name, h)
  }

  /** Which representation is taken: a full index before a name index, a static name index before a dynamic one,
      and a spelt name only without any. */
  predicate Preferred(h: Header, rep: Representation) {
    && (h.stFull ==> rep == Indexed(h.stIndex))
    && (!h.stFull && rep.Indexed? ==> h.dyn && rep.index > D.STATIC_ENTRIES)
    && (rep.Literal? ==> if h.stIndex != 0 then rep.nameIndex == h.stIndex
                         else rep.nameIndex == 0 || (h.dyn && rep.nameIndex > D.STATIC_ENTRIES))
  }

  /** And nothing that is in the table is missed. */
  ghost predicate Thrifty(h: Header, t: D.Table, rep: Representation) {
    && (rep.Literal? ==> !Overlooked(t, 0, FieldOf(h)))
    && (rep.Literal? && rep.nameIndex == 0 ==> Nameless(t, FieldOf(h)))
  }

  predicate Nameless(t: D.Table, f: Field) {
    forall i :: 0 <= i < |t| ==> !SameName(t[i], f)
  }

  lemma EntryBehind(st: seq<Field>, e: D.Table, d: D.Table, index: nat)
    requires |st| == D.STATIC_ENTRIES && Behind(e, d) && Entry(st, e, index).Some?
    ensures Entry(st, d, index).Some? && Same(Entry(st, e, index).value, Entry(st, d, index).value)
  {
    if index > D.STATIC_ENTRIES { assert D.Lookup(e, index) == e[|e| - (index - D.STATIC_ENTRIES)]; }
  }

  lemma LookupEntry(st: seq<Field>, e: D.Table, f: Field, r: Result, index: int)
    requires |st| == D.STATIC_ENTRIES && SoundLookup(e, f, r, index)
    ensures r != NotFound ==> 0 < index <= D.STATIC_ENTRIES + |e| && Entry(st, e, index).Some?
    ensures r == Found ==> Same(f, Entry(st, e, index).value)
    ensures r == NameFound ==> SameName(Entry(st, e, index).value, f)
    ensures r == NotFound ==> index == 0
    ensures r == Found ==> Overlooked(e, 0, f)
    ensures r != NotFound ==> index > D.STATIC_ENTRIES
    ensures LookedUp(e, f, r, index) ==> (r != Found ==> !Overlooked(e, 0, f)) && (r == NotFound ==> Nameless(e, f))
  {
    hide Rank;
    if r == Found {
      RankSame(D.Lookup(e, index), f);
      assert D.Lookup(e, index) == e[|e| - (index - D.STATIC_ENTRIES)];
    }
  }

  ghost predicate ConveysAhead(st: seq<Field>, e: D.Table, rep: Representation, f: Field)
    requires |st| == D.STATIC_ENTRIES
  {
    forall d :: Behind(e, d) ==> Conveys(st, d, rep, f)
  }

  lemma IndexedConveys(st: seq<Field>, e: D.Table, index: nat, f: Field)
    requires |st| == D.STATIC_ENTRIES
    requires Entry(st, e, index).Some? && Same(f, Entry(st, e, index).value)
    ensures ConveysAhead(st, e, Indexed(index), f)
  {
    forall d | Behind(e, d) ensures Conveys(st, d, Indexed(index), f) { EntryBehind(st, e, d, index); }
  }

  lemma NamedConveys(st: seq<Field>, e: D.Table, add: bool, index: nat, f: Field)
    requires |st| == D.STATIC_ENTRIES && index != 0
    requires Entry(st, e, index).Some? && SameName(Entry(st, e, index).value, f)
    ensures ConveysAhead(st, e, Literal(add, index, [], f.value), f)
  {
    forall d | Behind(e, d) ensures Conveys(st, d, Literal(add, index, [], f.value), f) {
      EntryBehind(st, e, d, index);
    }
  }

  lemma SpelledConveys(st: seq<Field>, e: D.Table, add: bool, name: Bytes, h: Header)
    requires |st| == D.STATIC_ENTRIES && Flatten(h.name) != [] && SpeltName(name, h)
    ensures ConveysAhead(st, e, Literal(add, 0, name, Flatten(h.value)), FieldOf(h))
  {
    SpeltSame(name, h);
  }

  lemma StaticEntry(st: seq<Field>, e: D.Table, h: Header)
    requires |st| == D.STATIC_ENTRIES && HintOk(st, h)
    ensures h.stIndex != 0 ==> Entry(st, e, h.stIndex).Some? && SameName(Entry(st, e, h.stIndex).value, FieldOf(h))
    ensures h.stFull ==> h.stIndex != 0 && Same(FieldOf(h), Entry(st, e, h.stIndex).value)
  {
  }

  lemma CanAddFits(hi: seq<Slot>, lo: seq<Slot>, e: D.Table, window: nat, f: Field)
    requires |hi + lo| == |e| && CanAdd(hi, lo, e, window, f)
    ensures D.EntrySize(f) <= window
  {
  }

  /** If the header is looked up, no comparison with an entry overflows where it is decided. */
  predicate FairHeader(h: Header, t: D.Table)
    requires BytesField(FieldOf(h))
  {
    !h.stFull && h.dyn ==> FairTable(h.name, h.value, t)
  }

  /** Encode one header field; refused only if it has no name.  The representation is right for any bytes and
      any tree; the encoder goes on unless the program has `warned` that a field was overlooked before. */
  method Encode(enc: EncTable, st: seq<Field>, h: Header, junk: Links) returns (rep: Option<Representation>, warned: bool)
    requires enc.Valid() && |st| == D.STATIC_ENTRIES && HintOk(st, h) && |junk| == BUF_SIZE && BytesField(FieldOf(h))
    modifies enc, enc.index
    ensures enc.window == old(enc.window) && enc.wndChanged == old(enc.wndChanged) && (!warned ==> enc.Valid())
    ensures old(enc.InOrder()) && FairHeader(h, old(enc.contents)) ==> !warned && enc.InOrder()
    ensures rep.None? <==> !h.stFull && Flatten(h.name) == []
    ensures warned ==> rep.Some? && rep.value.Literal? && rep.value.add && Warns(old(enc.contents), enc.window, FieldOf(h))
    ensures rep.Some? ==> Reference(rep.value) <= MAX_INDEX
    ensures rep.Some? ==> ConveysAhead(st, old(enc.contents), rep.value, FieldOf(h)) && Spelled(rep.value, h) && Preferred(h, rep.value)
    ensures rep.Some? && h.dyn && old(enc.InOrder()) && FairHeader(h, old(enc.contents)) ==> Thrifty(h, old(enc.contents), rep.value)
    ensures 0 <= enc.window <= BUF_SIZE && enc.contents == if rep.Some? && rep.value.Literal? && rep.value.add
                            then D.Insert(old(enc.contents), enc.window, FieldOf(h)) else old(enc.contents)
    ensures rep.Some? && rep.value.Literal? && rep.value.add ==> D.EntrySize(FieldOf(h)) <= enc.window
    ensures |old(enc.hi) + old(enc.lo)| == |old(enc.contents)|
    ensures rep.Some? && rep.value.Literal? ==>
      !h.stFull && (rep.value.add <==> h.dyn && CanAdd(old(enc.hi), old(enc.lo), old(enc.contents), enc.window, FieldOf(h)))
    ensures rep.Some? && rep.value.Indexed? && !h.stFull ==> h.dyn && Overlooked(old(enc.contents), 0, FieldOf(h))
    ensures (enc.hi, enc.lo) == if rep.Some? && rep.value.Literal? && rep.value.add
                                then Put(old(enc.hi), old(enc.lo), old(enc.contents), enc.window, FieldOf(h)) else (old(enc.hi), old(enc.lo))
  {
    hide D.Insert, LookedUp, SoundLookup, Same, SameName, Entry, ConveysAhead, CanAdd, Flatten, TableOk, Put, FairTable, IsBytes, Ranked, Warns, Overlooked, Nameless;
    var f := FieldOf(h);
    ghost var e, hi, lo := enc.contents, enc.hi, enc.lo;
    enc.ValidWindow();
    enc.ValidSize();
    SizeBound(e);
    var index, r, added := 0, NotFound, false;
    warned := false;
    if !h.stFull && f.name == [] {
      return None, false;
    }
    if !h.stFull && h.dyn {
      r, index, added, warned := enc.EncoderIndex(h.name, h.value, junk);
      LookupEntry(st, e, f, r, index);
      if added { CanAddFits(hi, lo, e, enc.window, f); }
    }
    if h.stFull || r == Found {
      if index == 0 {
        index := h.stIndex;
      }
      StaticEntry(st, e, h);
      IndexedConveys(st, e, index, f);
      rep := Some(Indexed(index));
    } else if h.stIndex != 0 || r == NameFound {
      if h.stIndex != 0 {
        index := h.stIndex;
      }
      StaticEntry(st, e, h);
      NamedConveys(st, e, added, index, f);
      rep := Some(Literal(added, index, [], f.value));
    } else {
      var name := if h.trans then Lower(f.name) else f.name;
      assert SpeltName(name, h);
      SpelledConveys(st, e, added, name, h);
      rep := Some(Literal(added, 0, name, f.value));
    }
  }

  /** Decode one representation. */
  method Decode(dec: DecTable, st: seq<Field>, rep: Representation, inPlace: bool) returns (r: Option<Field>)
    requires dec.Valid() && |st| == D.STATIC_ENTRIES
    requires Reference(rep) < WORD
    modifies dec, dec.entries
    ensures dec.Valid() && dec.window == old(dec.window) && dec.maxWindow == old(dec.maxWindow)
    ensures dec.entries == old(dec.entries) || fresh(dec.entries)
    ensures Tabled(rep, Meaning(st, old(dec.contents), rep)) ==> r == Meaning(st, old(dec.contents), rep)
    ensures !Tabled(rep, Meaning(st, old(dec.contents), rep)) ==> r == None
    ensures dec.contents == if r.Some? && rep.Literal? && rep.add
                            then D.Insert(old(dec.contents), dec.window, r.value) else old(dec.contents)
  {
    hide Circle, D.Size, D.Evict, D.Insert;
    match rep
    case Indexed(index) =>
      if index == 0 {
        return None;
      }
      r := dec.FindIndex(index, st);
    case Literal(add, nameIndex, name, value) =>
      var nm := name;
      if nameIndex != 0 {
        var entry := dec.FindIndex(nameIndex, st);
        if entry == None {
          return None;
        }
        nm := entry.value.name;
      } else if name == [] {
        return None;
      }
      if value == [] {
        return None;
      }
      r := Some(Field(nm, value));
      if add {
        var status := dec.AddIndex(r.value, inPlace);
        if status != Ok {
          r := None;
        }
      }
  }

  /** A field to be added has a size the decoder can represent. */
  predicate Tabled(rep: Representation, m: Option<Field>) {
    rep.Literal? && rep.add && m.Some? ==> D.EntrySize(m.value) < WORD
  }

  // ---------------------------------------------------------------- whole connections

  /** What happens to a connection: the peer announces a table size, or a header is sent. */
  datatype Event = Settings(size: nat) | Send(header: Header)

  predicate EventOk(st: seq<Field>, maxWindow: int, ev: Event)
    requires |st| == D.STATIC_ENTRIES
  {
    match ev
    case Settings(size) => size < 0x1_0000 && (size <= maxWindow || BUF_SIZE <= maxWindow)
    case Send(h) => HintOk(st, h) && BytesField(FieldOf(h))
  }

  /** The fields sent by the first `n` events. */
  function Sent(events: seq<Event>, n: nat): seq<Field>
    requires n <= |events|
  {
    if n == 0 then []
    else match events[n - 1]
         case Settings(_) => Sent(events, n - 1)
         case Send(h) => Sent(events, n - 1) + [FieldOf(h)]
  }

  predicate SameFields(a: seq<Field>, b: seq<Field>) {
    |a| == |b| && forall i :: 0 <= i < |a| ==> Same(a[i], b[i])
  }

  /** The two ends between events.  While a size change is not yet on the wire only the encoder
      has cut its table; without a rise from zero the decoder will make the same cut. */
  ghost predicate InStep(enc: EncTable, dec: DecTable, raised: bool)
    reads enc, enc.index, dec, dec.entries
  {
    && enc.Valid() && dec.Valid() && 0 <= enc.window <= dec.maxWindow
    && (!enc.wndChanged ==> enc.window == dec.window)
    && Behind(enc.contents, dec.contents)
    && (!raised ==> Level(enc.contents, D.Evict(dec.contents, enc.window)))
  }

  lemma {:induction false} FlushStep(e: D.Table, d: D.Table, window: nat)
    requires Behind(e, d) && D.Size(e) <= window
    ensures Behind(e, D.Evict(d, window)) && D.Evict(D.Evict(d, window), window) == D.Evict(d, window)
  {
    EvictBehind(e, d, window);
  }

  /** The names of fields. */
  function Names(t: seq<Field>): set<Bytes> {
    set f | f in t :: f.name
  }

  lemma {:induction false} EvictNames(t: D.Table, limit: nat)
    ensures Names(D.Evict(t, limit)) <= Names(t)
  {
    hide D.Evict;
    FromEvict(t, limit);
  }

  lemma {:induction false} GrownNames(t: D.Table, window: nat, rep: Representation, g: Field)
    ensures Names(Grown(t, window, rep, g)) <= Names(t) + {g.name}
  {
    hide D.Insert;
    FromInsert(t, window, g);
    forall x | x in Names(Grown(t, window, rep, g)) ensures x in Names(t) + {g.name} {
      var f :| f in Grown(t, window, rep, g) && f.name == x;
      assert f in t + [g];
    }
  }

  /** The names of fields received are known to the decoder or spelt out in the header. */
  predicate Heard(ev: Event, g: seq<Field>, names: set<Bytes>) {
    forall i :: 0 <= i < |g| ==> g[i].name in names || (ev.Send? && SpeltName(g[i].name, ev.header))
  }

  lemma MeaningHeard(st: seq<Field>, t: D.Table, rep: Representation, h: Header, names: set<Bytes>)
    requires |st| == D.STATIC_ENTRIES && Spelled(rep, h) && Meaning(st, t, rep).Some? && Names(st) + Names(t) <= names
    ensures Heard(Send(h), [Meaning(st, t, rep).value], names)
  {
    hide SpeltName, Flatten;
    var index := Reference(rep);
    if index != 0 {
      var e := Entry(st, t, index).value;
      assert e in st || e in t;
      assert e.name in Names(st) + Names(t);
    }
  }

  /** The size update goes out in front of the next header block. */
  method Flush(enc: EncTable, dec: DecTable, ghost raised: bool) returns (told: bool)
    requires InStep(enc, dec, raised)
    modifies enc`wndChanged, dec
    ensures InStep(enc, dec, raised) && !enc.wndChanged && told == old(enc.wndChanged)
    ensures dec.entries == old(dec.entries) && dec.maxWindow == old(dec.maxWindow)
    ensures !raised ==> Level(enc.contents, dec.contents)
    ensures old(enc.InOrder()) ==> enc.InOrder()
    ensures Names(dec.contents) <= old(Names(dec.contents))
  {
    hide D.Size, D.Evict, TableOk, Same, Circle, Ranked, Names;
    enc.ValidSize();
    dec.ValidSize();
    enc.ValidWindow();
    EvictFits(dec.contents, dec.window);
    told := enc.wndChanged;
    if told {
      FlushStep(enc.contents, dec.contents, enc.window);
      var sz := enc.WriteSize();
      EvictNames(dec.contents, sz);
      var status := dec.SetLength(sz);
    }
  }

  lemma {:induction false} EvictFits(t: D.Table, limit: nat)
    ensures D.Size(t) <= limit ==> D.Evict(t, limit) == t
  {
  }

  function Grown(t: D.Table, window: nat, rep: Representation, f: Field): D.Table {
    if rep.Literal? && rep.add then D.Insert(t, window, f) else t
  }

  lemma ExchangeStep(st: seq<Field>, e: D.Table, d: D.Table, window: nat, rep: Representation, f: Field)
    requires |st| == D.STATIC_ENTRIES && Behind(e, d) && ConveysAhead(st, e, rep, f) && window < WORD
    requires rep.Literal? && rep.add ==> D.EntrySize(f) <= window
    ensures Tabled(rep, Meaning(st, d, rep)) && (Meaning(st, d, rep).None? <==> rep.Literal? && f.value == [])
    ensures Meaning(st, d, rep).Some? ==>
      var g := Meaning(st, d, rep).value;
      && Same(f, g) && Behind(Grown(e, window, rep, f), Grown(d, window, rep, g))
      && (Level(e, d) ==> Level(Grown(e, window, rep, f), Grown(d, window, rep, g)))
  {
    hide D.Insert, Meaning, Level, Behind, Same;
    assert Conveys(st, d, rep, f);
    if Meaning(st, d, rep).Some? {
      SameSize(f, Meaning(st, d, rep).value);
      InsertBehind(e, d, window, f, Meaning(st, d, rep).value);
    }
  }

  // ---------------------------------------------------------------- what events do to the encoder

  /** The encoder between events: its window, whether that is still to be told, whether it has ever risen from a
      zero that was never told, its table and where the nodes of it lie. */
  datatype Moment = Moment(window: int, changed: bool, raised: bool, table: D.Table, hi: seq<Slot>, lo: seq<Slot>)

  ghost function Now(enc: EncTable, raised: bool): Moment
    reads enc
  {
    Moment(enc.window, enc.wndChanged, raised, enc.contents, enc.hi, enc.lo)
  }

  /** The encoder's window rises from zero while the zero itself was never put on the wire. */
  predicate RaisesFromZero(window: int, wndChanged: bool, size: nat) {
    wndChanged && window == 0 && size != 0
  }

  /** A new table size is taken over unless it is the old one, or lies above one that is still to be told and
      is not zero. */
  predicate TakenOver(window: int, changed: bool, size: nat) {
    var w := if size > BUF_SIZE then BUF_SIZE else size;
    window != w && (!changed || window == 0 || w < window)
  }

  /** The table cut to a size. */
  ghost function Trimmed(a: Moment, w: nat): Moment
    requires |a.hi| + |a.lo| == |a.table|
  {
    D.EvictMinimal(a.table, w);
    var k := |a.table| - |D.Evict(a.table, w)|;
    a.(table := D.Evict(a.table, w), hi := SplitHi(a.hi, a.lo, k), lo := SplitLo(a.hi, a.lo, k))
  }

  /** A field inserted. */
  ghost function Added(a: Moment, f: Field): Moment
    requires 0 <= a.window && |a.hi + a.lo| == |a.table| && CanAdd(a.hi, a.lo, a.table, a.window, f)
  {
    var (h, l) := Put(a.hi, a.lo, a.table, a.window, f);
    a.(table := D.Insert(a.table, a.window, f), hi := h, lo := l)
  }

  /** What an event makes of the encoder.  A header field that is to be indexed and can be is inserted, unless an
      equal one was found in the table. */
  ghost predicate Followed(ev: Event, a: Moment, b: Moment) {
    && 0 <= a.window && |a.hi| + |a.lo| == |a.table|
    && match ev
       case Settings(size) =>
         var w := if size > BUF_SIZE then BUF_SIZE else size;
         var c := a.(raised := a.raised || RaisesFromZero(a.window, a.changed, size));
         b == if TakenOver(a.window, a.changed, size) then Trimmed(c, w).(window := w, changed := true) else c
       case Send(h) =>
         var c, f := a.(changed := false), FieldOf(h);
         if !h.stFull && h.dyn && f.name != [] && CanAdd(a.hi, a.lo, a.table, a.window, f)
         then b == Added(c, f) || (b == c && Overlooked(a.table, 0, f)) else b == c
  }

  /** The history of the events done so far. */
  ghost predicate History(events: seq<Event>, hist: seq<Moment>) {
    0 < |hist| <= |events| + 1 && forall k :: 0 <= k < |hist| - 1 ==> Followed(events[k], hist[k], hist[k + 1])
  }

  function Last(hist: seq<Moment>): Moment
    requires hist != []
  {
    hist[|hist| - 1]
  }

  lemma HistoryMore(events: seq<Event>, hist: seq<Moment>, m: Moment)
    requires History(events, hist) && |hist| <= |events| && Followed(events[|hist| - 1], Last(hist), m)
    ensures History(events, hist + [m]) && Last(hist + [m]) == m
  {
    hide Followed;
    var now := hist + [m];
    forall k | 0 <= k < |now| - 1 ensures Followed(events[k], now[k], now[k + 1]) {
      assert now[k] == hist[k];
    }
  }

  lemma FollowedFrom(ev: Event, a: Moment, b: Moment)
    requires Followed(ev, a, b)
    ensures From(b.table, if ev.Send? then a.table + [FieldOf(ev.header)] else a.table)
  {
    hide D.Evict, D.Insert, From, Flatten, CanAdd, Put, SplitHi, SplitLo;
    match ev
    case Settings(size) =>
      FromSelf(a.table, []);
      FromEvict(a.table, if size > BUF_SIZE then BUF_SIZE else size);
    case Send(h) =>
      FromSelf(a.table, [FieldOf(h)]);
      FromInsert(a.table, a.window, FieldOf(h));
  }

  /** The step of a header, from what the encoder did with it. */
  lemma SentStep(h: Header, a: Moment, b: Moment, rep: Option<Representation>)
    requires 0 <= a.window && |a.hi + a.lo| == |a.table| && b.window == a.window && !b.changed && b.raised == a.raised
    requires rep.None? <==> !h.stFull && Flatten(h.name) == []
    requires rep.Some? && rep.value.Indexed? && !h.stFull ==> h.dyn && Overlooked(a.table, 0, FieldOf(h))
    requires rep.Some? && rep.value.Literal? ==>
      !h.stFull && (rep.value.add <==> h.dyn && CanAdd(a.hi, a.lo, a.table, a.window, FieldOf(h)))
    requires if rep.Some? && rep.value.Literal? && rep.value.add
             then b.table == D.Insert(a.table, a.window, FieldOf(h)) && (b.hi, b.lo) == Put(a.hi, a.lo, a.table, a.window, FieldOf(h))
             else b.table == a.table && b.hi == a.hi && b.lo == a.lo
    ensures Followed(Send(h), a, b)
  {
    hide CanAdd, Put, D.Insert, Flatten, Overlooked;
  }

  /** The window, whether it is still to be told, and whether it has risen from an untold zero, from the events
      alone. */
  function Windows(w: int, changed: bool, raised: bool, events: seq<Event>, n: nat): (int, bool, bool)
    requires n <= |events|
  {
    if n == 0 then (w, changed, raised)
    else
      var (v, c, r) := Windows(w, changed, raised, events, n - 1);
      match events[n - 1]
      case Settings(size) =>
        var x := if size > BUF_SIZE then BUF_SIZE else size;
        (if TakenOver(v, c, size) then x else v, c || TakenOver(v, c, size), r || RaisesFromZero(v, c, size))
      case Send(_) => (v, false, r)
  }

  lemma {:induction false} HistoryWindows(events: seq<Event>, hist: seq<Moment>, n: nat)
    requires History(events, hist) && n < |hist|
    ensures (hist[n].window, hist[n].changed, hist[n].raised) == Windows(hist[0].window, hist[0].changed, hist[0].raised, events, n)
    decreases n
  {
    if n > 0 {
      HistoryWindows(events, hist, n - 1);
      assert Followed(events[n - 1], hist[n - 1], hist[n]);
    }
  }

  /** A peer that never announces a size of zero is never overtaken. */
  lemma {:induction false} NoZero(w: int, changed: bool, events: seq<Event>, n: nat)
    requires n <= |events| && !(changed && w == 0) && forall k :: 0 <= k < n ==> events[k] != Settings(0)
    ensures var (v, c, r) := Windows(w, changed, false, events, n); !r && !(c && v == 0)
    decreases n
  {
    if n > 0 { NoZero(w, changed, events, n - 1); }
  }

  /** A header the program warns of has been in the table from the beginning or was sent before. */
  lemma {:induction false} WarnedTwice(events: seq<Event>, hist: seq<Moment>, n: nat, f: Field)
    requires History(events, hist) && n < |hist| && Warns(hist[n].table, hist[n].window, f)
    ensures exists g :: g in hist[0].table + Sent(events, n) && Rank(g) == Rank(f)
  {
    hide D.Evict, D.EntrySize, Rank, Evictions, Followed, Sent;
    var k := Evictions(hist[n].table, hist[n].window, f);
    var i :| k <= i < |hist[n].table| && Rank(hist[n].table[i]) == Rank(f);
    TableSent(events, hist, n);
    assert hist[n].table[i] in hist[0].table + Sent(events, n);
  }

  lemma {:induction false} TableSent(events: seq<Event>, hist: seq<Moment>, n: nat)
    requires History(events, hist) && n < |hist|
    ensures From(hist[n].table, hist[0].table + Sent(events, n))
    decreases n
  {
    hide Followed;
    if n > 0 {
      TableSent(events, hist, n - 1);
      FollowedFrom(events[n - 1], hist[n - 1], hist[n]);
    }
  }

  /** The tables are equal, as soon as the decoder is told the size that is still to be told. */
  ghost predicate TablesEqual(enc: EncTable, dec: DecTable)
    reads enc, dec
  {
    if enc.wndChanged then 0 <= enc.window && Level(enc.contents, D.Evict(dec.contents, enc.window)) else Level(enc.contents, dec.contents)
  }

  lemma StepEqual(enc: EncTable, dec: DecTable)
    requires InStep(enc, dec, false)
    ensures TablesEqual(enc, dec)
  {
    hide D.Evict, D.Size, Level, Behind, TableOk, Circle;
    dec.ValidSize();
    if !enc.wndChanged { EvictFits(dec.contents, enc.window); }
  }

  /** One header from end to end. */
  method Exchange(enc: EncTable, dec: DecTable, st: seq<Field>, h: Header, junk: Links, inPlace: bool, ghost raised: bool)
    returns (got: Option<Field>, warned: bool)
    requires InStep(enc, dec, raised) && !enc.wndChanged && |junk| == BUF_SIZE
    requires |st| == D.STATIC_ENTRIES && HintOk(st, h) && BytesField(FieldOf(h))
    modifies enc, enc.index, dec, dec.entries
    ensures got.Some? ==> Same(FieldOf(h), got.value) && (!warned ==> InStep(enc, dec, raised) && !enc.wndChanged)
    ensures old(enc.InOrder()) && FairHeader(h, old(enc.contents)) ==> !warned && enc.InOrder()
    ensures dec.entries == old(dec.entries) || fresh(dec.entries)
    ensures dec.maxWindow == old(dec.maxWindow)
    ensures Flatten(h.name) != [] && Flatten(h.value) != [] ==> got.Some?
    ensures Followed(Send(h), old(Now(enc, raised)), Now(enc, raised))
    ensures warned ==> Warns(old(enc.contents), enc.window, FieldOf(h))
    ensures got.Some? ==> Heard(Send(h), [got.value], Names(st) + old(Names(dec.contents)))
    ensures got.Some? ==> Names(dec.contents) <= old(Names(dec.contents)) + {got.value.name}
  {
    hide D.Size, D.Evict, D.Insert, TableOk, Same, Circle, Flatten, Conveys, ConveysAhead, Level, Behind, HintOk,
         BytesField, FairHeader, Meaning, Tabled, D.EntrySize, Ranked, Spelled, CanAdd, Put, Overlooked, Warns, Followed,
         Names, Heard, Preferred, Thrifty;
    enc.ValidWindow();
    dec.ValidSize();
    EvictFits(dec.contents, dec.window);
    ghost var e, d := enc.contents, dec.contents;
    var rep;
    rep, warned := Encode(enc, st, h, junk);
    SentStep(h, old(Now(enc, raised)), Now(enc, raised), rep);
    if rep == None {
      return None, warned;
    }
    ExchangeStep(st, e, d, enc.window, rep.value, FieldOf(h));
    got := Decode(dec, st, rep.value, inPlace);
    if got.Some? {
      MeaningHeard(st, d, rep.value, h, Names(st) + Names(d));
      GrownNames(d, dec.window, rep.value, got.value);
    }
    dec.ValidSize();
    EvictFits(dec.contents, dec.window);
  }

  /** All entries of `t` are among `s`. */
  predicate From(t: D.Table, s: D.Table) {
    forall i :: 0 <= i < |t| ==> t[i] in s
  }

  lemma FromSelf(t: D.Table, s: D.Table)
    ensures From(t, t) && From(t, t + s)
  {
  }

  lemma {:induction false} FromEvict(t: D.Table, limit: nat)
    ensures From(D.Evict(t, limit), t)
  {
    D.EvictMinimal(t, limit);
    hide D.Evict;
    var k := |t| - |D.Evict(t, limit)|;
    forall i | 0 <= i < |D.Evict(t, limit)| ensures D.Evict(t, limit)[i] in t { assert D.Evict(t, limit)[i] == t[k..][i] == t[k + i]; }
  }

  lemma {:induction false} FromInsert(t: D.Table, window: nat, f: Field)
    ensures From(D.Insert(t, window, f), t + [f])
  {
    hide D.Evict, D.EntrySize;
    if D.EntrySize(f) <= window { FromEvict(t, window - D.EntrySize(f)); }
  }

  lemma {:induction false} AnnounceStep(e: D.Table, d: D.Table, window: nat, size: nat, level: bool)
    requires Behind(e, d) && (level ==> Level(e, D.Evict(d, window)))
    requires level ==> size <= window || D.Size(d) <= window
    ensures Behind(D.Evict(e, size), d)
    ensures level ==> Level(D.Evict(e, size), D.Evict(d, size))
  {
    hide D.Size, D.Evict, Same;
    ForgetBehind(e, d, size);
    if level {
      EvictLevel(e, D.Evict(d, window), size);
      EvictFits(d, window);
      if size <= window { EvictTwice(d, window, size); }
    }
  }

  /** The peer announces a new table size. */
  method Announce(enc: EncTable, dec: DecTable, size: nat, raised: bool) returns (raised': bool)
    requires InStep(enc, dec, raised) && size < 0x1_0000 && (size <= dec.maxWindow || BUF_SIZE <= dec.maxWindow)
    modifies enc, enc.index
    ensures InStep(enc, dec, raised')
    ensures raised' == (raised || RaisesFromZero(old(enc.window), old(enc.wndChanged), size))
    ensures Followed(Settings(size), old(Now(enc, raised)), Now(enc, raised'))
    ensures old(enc.InOrder()) ==> enc.InOrder()
  {
    hide D.Size, D.Evict, TableOk, Same, Circle, Level, Behind, SplitHi, SplitLo, Ranked;
    enc.ValidSplit();
    raised' := raised || RaisesFromZero(enc.window, enc.wndChanged, size);
    var w := if size > BUF_SIZE then BUF_SIZE else size;
    enc.ValidWindow();
    dec.ValidSize();
    if raised' {
      AnnounceStep(enc.contents, dec.contents, enc.window, w, false);
    } else if enc.window != w && (!enc.wndChanged || w < enc.window) {
      AnnounceStep(enc.contents, dec.contents, enc.window, w, true);
    }
    enc.SetRbufSize(size);
    enc.ValidWindow();
  }

  /** The header of the event cannot be conveyed: no name, or an empty value. */
  predicate Blank(ev: Event) {
    ev.Send? && (Flatten(ev.header.name) == [] || Flatten(ev.header.value) == [])
  }

  predicate FairEvent(ev: Event, t: D.Table) {
    ev.Send? ==> BytesField(FieldOf(ev.header)) && FairHeader(ev.header, t)
  }

  /** No comparison of a header sent with an entry of the table or with a header sent before overflows
      where it is decided. */
  predicate FairEvents(events: seq<Event>, t: D.Table) {
    && (forall i :: 0 <= i < |events| ==> FairEvent(events[i], t))
    && (forall i, j :: 0 <= i < j < |events| && events[i].Send? ==> FairEvent(events[j], [FieldOf(events[i].header)]))
  }

  /** Headers below 0x80 are never a problem. */
  lemma SevenBitEvents(events: seq<Event>, t: D.Table)
    requires forall i :: 0 <= i < |t| ==> SevenBitField(t[i])
    requires forall i :: 0 <= i < |events| && events[i].Send? ==> SevenBitField(FieldOf(events[i].header))
    ensures FairEvents(events, t)
  {
    hide Flatten, Fair, SevenBit, IsBytes;
    forall i | 0 <= i < |events| ensures FairEvent(events[i], t) { SevenBitEvent(events[i], t); }
    forall i, j | 0 <= i < j < |events| && events[i].Send? ensures FairEvent(events[j], [FieldOf(events[i].header)]) {
      SevenBitEvent(events[j], [FieldOf(events[i].header)]);
    }
  }

  lemma SevenBitEvent(ev: Event, t: D.Table)
    requires forall i :: 0 <= i < |t| ==> SevenBitField(t[i])
    requires ev.Send? ==> SevenBitField(FieldOf(ev.header))
    ensures FairEvent(ev, t)
  {
    hide Flatten, Fair;
    if ev.Send? {
      forall i | 0 <= i < |t| ensures BytesField(t[i]) && InBytes(ev.header.name, ev.header.value) && Fair(ev.header.name, ev.header.value, t[i]) {
        SevenBitFair(ev.header.name, ev.header.value, t[i]);
      }
    }
  }

  lemma FairFrom(ev: Event, t: D.Table, s: D.Table)
    requires FairEvent(ev, s) && From(t, s)
    ensures FairEvent(ev, t)
  {
    hide Flatten, Fair, BytesField, IsBytes;
  }

  lemma FairMore(ev: Event, t: D.Table, f: Field)
    requires FairEvent(ev, t) && FairEvent(ev, [f])
    ensures FairEvent(ev, t + [f])
  {
    hide Flatten, Fair, BytesField, IsBytes;
    assert forall i :: 0 <= i < |t + [f]| ==> (t + [f])[i] == if i < |t| then t[i] else [f][0];
  }

  /** The rest of the events stays fair after one of them. */
  lemma FairRest(events: seq<Event>, k: nat, t: D.Table, now: D.Table)
    requires k < |events| && (forall i :: k <= i < |events| ==> FairEvent(events[i], t))
    requires forall i, j :: 0 <= i < j < |events| && events[i].Send? ==> FairEvent(events[j], [FieldOf(events[i].header)])
    requires From(now, if events[k].Send? then t + [FieldOf(events[k].header)] else t)
    ensures forall i :: k < i < |events| ==> FairEvent(events[i], now)
  {
    hide FairEvent, From;
    forall i | k < i < |events| ensures FairEvent(events[i], now) {
      if events[k].Send? {
        FairMore(events[i], t, FieldOf(events[k].header));
        FairFrom(events[i], now, t + [FieldOf(events[k].header)]);
      } else {
        FairFrom(events[i], now, t);
      }
    }
  }

  method Happen(enc: EncTable, dec: DecTable, st: seq<Field>, ev: Event, junk: Links, raised: bool)
    returns (g: seq<Field>, ok: bool, raised': bool, warned: bool)
    requires InStep(enc, dec, raised) && |junk| == BUF_SIZE && |st| == D.STATIC_ENTRIES && EventOk(st, dec.maxWindow, ev)
    modifies enc, enc.index, dec, dec.entries
    ensures Followed(ev, old(Now(enc, raised)), Now(enc, raised'))
    ensures dec.maxWindow == old(dec.maxWindow) && (dec.entries == old(dec.entries) || fresh(dec.entries))
    ensures ok ==> SameFields(if ev.Send? then [FieldOf(ev.header)] else [], g) && (!warned ==> InStep(enc, dec, raised'))
    ensures old(enc.InOrder()) && FairEvent(ev, old(enc.contents)) ==> !warned && enc.InOrder()
    ensures !ok ==> Blank(ev) && g == []
    ensures warned ==> ev.Send? && Warns(old(enc.contents), enc.window, FieldOf(ev.header))
    ensures ok ==> Heard(ev, g, Names(st) + old(Names(dec.contents))) && Names(dec.contents) <= old(Names(dec.contents)) + Names(g)
  {
    hide InStep, Same, Flatten, HintOk, BytesField, FairHeader, Ranked, SpeltName, Warns, D.Evict, D.Insert, CanAdd, Put, SplitHi, SplitLo;
    g, ok, raised', warned := [], true, raised, false;
    match ev
    case Settings(size) =>
      raised' := Announce(enc, dec, size, raised);
    case Send(h) =>
      var told := Flush(enc, dec, raised);
      var inPlace: bool := *;
      var one;
      one, warned := Exchange(enc, dec, st, h, junk, inPlace, raised);
      if one == None {
        ok := false;
      } else {
        g := [one.value];
        assert one.value in g;
      }
  }

  /** A name that was among the first ones, or is spelt as in one of the first `n` events. */
  predicate Known(name: Bytes, names: set<Bytes>, events: seq<Event>, n: nat)
    requires n <= |events|
  {
    name in names || exists k :: 0 <= k < n && events[k].Send? && SpeltName(name, events[k].header)
  }

  predicate AllKnown(s: set<Bytes>, names: set<Bytes>, events: seq<Event>, n: nat)
    requires n <= |events|
  {
    forall x :: x in s ==> Known(x, names, events, n)
  }

  lemma KnownMore(events: seq<Event>, n: nat, names: set<Bytes>, now: set<Bytes>, g: seq<Field>, got: seq<Field>)
    requires n < |events| && AllKnown(now + Names(got), names, events, n) && Heard(events[n], g, now)
    ensures AllKnown(now + Names(g) + Names(got + g), names, events, n + 1)
  {
    hide SpeltName;
    forall x | x in now + Names(g) + Names(got + g) ensures Known(x, names, events, n + 1) {
      if x in now + Names(got) {
        assert Known(x, names, events, n);
      } else {
        var f :| f in g && f.name == x;
        var i :| 0 <= i < |g| && g[i] == f;
      }
    }
  }

  /** The step of a run: what is received and what the decoder has is known. */
  lemma KnownStep(events: seq<Event>, n: nat, names: set<Bytes>, st: seq<Field>, was: D.Table, t: D.Table, g: seq<Field>, got: seq<Field>, ok: bool)
    requires n < |events| && AllKnown(Names(st) + Names(was) + Names(got), names, events, n)
    requires if ok then Heard(events[n], g, Names(st) + Names(was)) && Names(t) <= Names(was) + Names(g) else g == []
    ensures AllKnown(Names(got + g), names, events, n + 1)
    ensures ok ==> AllKnown(Names(st) + Names(t) + Names(got + g), names, events, n + 1)
  {
    hide Known, SpeltName, Names;
    KnownMore(events, n, names, Names(st) + Names(was), g, got);
  }

  lemma KnownFirst(events: seq<Event>, st: seq<Field>, t: D.Table)
    ensures AllKnown(Names(st) + Names(t) + Names([]), Names(st) + Names(t), events, 0)
    ensures AllKnown(Names([]), Names(st) + Names(t), events, 0)
  {
  }

  /** If no name is in capitals to begin with and every header that has any is transformed, no name that is ever
      received has one. */
  lemma NamesLower(s: set<Bytes>, names: set<Bytes>, events: seq<Event>, n: nat)
    requires n <= |events| && AllKnown(s, names, events, n) && forall x :: x in names ==> NoCapitals(x)
    requires forall k :: 0 <= k < n && events[k].Send? ==> events[k].header.trans || NoCapitals(Flatten(events[k].header.name))
    ensures forall x :: x in s ==> NoCapitals(x)
  {
    hide NoCapitals, SpeltName, Flatten;
    forall x | x in s ensures NoCapitals(x) {
      assert Known(x, names, events, n);
      if x !in names {
        var k :| 0 <= k < n && events[k].Send? && SpeltName(x, events[k].header);
        SpeltLower(x, events[k].header);
      }
    }
  }

  /** How a run ends: all events done and the tables in step, or at a header that has no name or an empty value,
      or at one the program warns of.  In any case the fields of the events done have arrived. */
  ghost predicate Ended(events: seq<Event>, hist: seq<Moment>, got: seq<Field>, ok: bool, warned: bool) {
    && History(events, hist)
    && var n := |hist| - 1;
       && (if ok then SameFields(Sent(events, n), got) else n > 0 && Blank(events[n - 1]) && SameFields(Sent(events, n - 1), got))
       && (ok && !warned ==> n == |events|)
       && (warned ==> n > 0 && events[n - 1].Send? && Warns(hist[n - 1].table, hist[n].window, FieldOf(events[n - 1].header)))
  }

  /** Any run of a connection, with any bytes in its headers: every header arrives as it was sent, up to the
      case of its name, until the first one that has no name or an empty value, or at which the program warns
      of a field it overlooked.  It never warns if the comparisons are fair.  If the window has not risen from a
      zero that was never told, the tables are equal. */
  method Session(enc: EncTable, dec: DecTable, st: seq<Field>, events: seq<Event>, junk: Links)
    returns (got: seq<Field>, ok: bool, raised: bool, warned: bool, ghost hist: seq<Moment>)
    requires InStep(enc, dec, false) && |junk| == BUF_SIZE && |st| == D.STATIC_ENTRIES
    requires forall i :: 0 <= i < |events| ==> EventOk(st, dec.maxWindow, events[i])
    modifies enc, enc.index, dec, dec.entries
    ensures Ended(events, hist, got, ok, warned) && hist[0] == old(Now(enc, false)) && Last(hist) == Now(enc, raised)
    ensures (enc.window, enc.wndChanged, raised) == Windows(old(enc.window), old(enc.wndChanged), false, events, |hist| - 1)
    ensures ok && !warned ==> InStep(enc, dec, raised) && (!raised ==> TablesEqual(enc, dec))
    ensures old(enc.InOrder()) && FairEvents(events, old(enc.contents)) ==> !warned && enc.InOrder()
    ensures AllKnown(Names(got), Names(st) + old(Names(dec.contents)), events, |hist| - 1)
  {
    hide InStep, Same, EventOk, Blank, FairEvent, From, Ranked, Followed, Warns, Windows, TablesEqual, Heard, AllKnown, Names;
    ghost var names := Names(st) + Names(dec.contents);
    KnownFirst(events, st, dec.contents);
    got, ok, raised, warned := [], true, false, false;
    hist := [Now(enc, false)];
    ghost var fair := enc.InOrder() && FairEvents(events, enc.contents);
    var i := 0;
    while i < |events| && ok && !warned
      invariant 0 <= i <= |events| && |hist| == i + 1 && (ok && !warned ==> InStep(enc, dec, raised))
      invariant History(events, hist) && hist[0] == old(Now(enc, false)) && Last(hist) == Now(enc, raised)
      invariant if ok then SameFields(Sent(events, i), got) else i > 0 && Blank(events[i - 1]) && SameFields(Sent(events, i - 1), got)
      invariant warned ==> i > 0 && events[i - 1].Send? && Warns(hist[i - 1].table, hist[i].window, FieldOf(events[i - 1].header))
      invariant dec.maxWindow == old(dec.maxWindow) && (dec.entries == old(dec.entries) || fresh(dec.entries))
      invariant fair ==> !warned && enc.InOrder() && forall j :: i <= j < |events| ==> FairEvent(events[j], enc.contents)
      invariant AllKnown(Names(got), names, events, i) && (ok ==> AllKnown(Names(st) + Names(dec.contents) + Names(got), names, events, i))
      decreases |events| - i
    {
      var g;
      ghost var before := Now(enc, raised);
      ghost var was := dec.contents;
      g, ok, raised, warned := Happen(enc, dec, st, events[i], junk, raised);
      FollowedFrom(events[i], before, Now(enc, raised));
      if fair { FairRest(events, i, before.table, enc.contents); }
      HistoryMore(events, hist, Now(enc, raised));
      hist := hist + [Now(enc, raised)];
      KnownStep(events, i, names, st, was, dec.contents, g, got, ok);
      got := got + g;
      i := i + 1;
    }
    HistoryWindows(events, hist, i);
    if ok && !warned && !raised { StepEqual(enc, dec); }
  }

  /** The exact difference a rise from zero makes: the encoder has forgotten everything, the
      decoder is told only the final size and keeps what fits into it. */
  method ZeroAndBack(enc: EncTable, dec: DecTable, size: nat)
    requires InStep(enc, dec, false) && !enc.wndChanged && 0 < size <= BUF_SIZE && size <= dec.maxWindow && enc.window != 0
    modifies enc, enc.index, dec, dec.entries
    ensures enc.contents == [] && enc.window == dec.window == size
    ensures Level(enc.contents, dec.contents) <==>
      old(dec.contents) == [] || D.EntrySize(old(dec.contents)[|old(dec.contents)| - 1]) > size
  {
    hide D.Size, D.Evict, TableOk, Same, Circle, SplitHi, SplitLo;
    enc.ValidWindow();
    EvictsAll(enc.contents, 0);
    EvictsAll([], size);
    EvictsAll(dec.contents, size);
    enc.SetRbufSize(0);
    enc.SetRbufSize(size);
    var sz := enc.WriteSize();
    var status := dec.SetLength(sz);
  }

  const SAMPLE := Header([[0x78]], [[0x79]], 0, false, true, false)

  lemma SampleOk()
    ensures FieldOf(SAMPLE) == Field([0x78], [0x79]) && BytesField(FieldOf(SAMPLE)) && FairHeader(SAMPLE, [])
    ensures Flatten(SAMPLE.name) == [0x78] && Flatten(SAMPLE.value) == [0x79] && D.EntrySize(FieldOf(SAMPLE)) == 34
  {
    assert [[0x78]][1..] == [] && [[0x79]][1..] == [];
    assert Flatten([[0x78]]) == [0x78] && Flatten([[0x79]]) == [0x79];
  }

  lemma {:induction false} FirstFits(f: Field)
    requires D.EntrySize(f) == 34
    ensures CanAdd([], [], [], BUF_SIZE, f) && D.Insert([], BUF_SIZE, f) == [f]
  {
    NoneEvicted([], BUF_SIZE, f);
    hide D.Evict, D.Insert, D.Size, Evictions;
    assert [] + [f] == [f];
  }

  lemma InStepAtFirst(enc: EncTable, dec: DecTable)
    requires enc.Valid() && dec.Valid() && enc.window == dec.window == dec.maxWindow && !enc.wndChanged
    requires |enc.contents| == |dec.contents| && forall i :: 0 <= i < |enc.contents| ==> Same(enc.contents[i], dec.contents[i])
    ensures InStep(enc, dec, false)
  {
    hide TableOk, Circle, Same;
    enc.ValidWindow();
    EvictFits(dec.contents, dec.window);
  }

  /** The tables can be driven apart from the very beginning: after one header, a table size of zero and
      back, the decoder holds an entry the encoder has forgotten. */
  method DrivenApart(st: seq<Field>, junk: Links) returns (enc: EncTable, dec: DecTable)
    requires |st| == D.STATIC_ENTRIES && |junk| == BUF_SIZE
    ensures enc.window == dec.window == BUF_SIZE && !Level(enc.contents, dec.contents)
  {
    hide TableOk, Circle, Same, CanAdd, Put, Meaning, Tabled, ConveysAhead, Ranked, Spelled, FairHeader, BytesField, D.Insert, D.Evict, D.Size, D.EntrySize, Flatten;
    SampleOk();
    FirstFits(FieldOf(SAMPLE));
    enc := new EncTable(BUF_SIZE);
    dec := new DecTable(BUF_SIZE);
    enc.ValidSplit();
    var rep, warned := Encode(enc, st, SAMPLE, junk);
    assert rep.Some? && rep.value.Literal? && rep.value.add;
    FirstMeaning(st, rep.value, FieldOf(SAMPLE));
    var got := Decode(dec, st, rep.value, true);
    FirstFits(got.value);
    InStepAtFirst(enc, dec);
    ZeroAndBack(enc, dec, BUF_SIZE);
  }

  lemma FirstMeaning(st: seq<Field>, rep: Representation, f: Field)
    requires |st| == D.STATIC_ENTRIES && ConveysAhead(st, [], rep, f) && f.value != [] && D.EntrySize(f) == 34
    ensures var m := Meaning(st, [], rep); m.Some? && Tabled(rep, m) && Same(f, m.value) && D.EntrySize(m.value) == 34
  {
    assert Behind([], []);
    assert Conveys(st, [], rep, f);
    SameSize(f, Meaning(st, [], rep).value);
  }

  lemma {:induction false} EvictsAll(t: D.Table, limit: nat)
    ensures D.Evict(t, limit) == [] <==> t == [] || D.EntrySize(t[|t| - 1]) > limit
    decreases t
  {
    if t != [] {
      assert t[1..] != [] ==> t[1..][|t| - 2] == t[|t| - 1];
      EvictsAll(t[1..], limit);
      var n := |t| - 1;
      D.SizeConcat(t[..n], t[n..]);
      assert t == t[..n] + t[n..] && t[n..][1..] == [];
    }
  }
}
