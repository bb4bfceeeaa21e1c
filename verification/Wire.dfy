/** Header blocks as bytes (section 6 of RFC 7541): what the encoder writes and the decoder's automaton,
    which takes the bytes in fragments of any size. */
module Wire {
  import opened Bits
  import opened Common
  import P = PrefixInt
  import X = HuffmanText
  import HuffmanCodec

  /** A string literal; `coded` says that its bytes are a Huffman code. */
  datatype Text = Text(coded: bool, bytes: seq<Byte>)

  const NO_TEXT := Text(false, [])

  /** A Huffman code that can be decoded, or any plain text. */
  predicate Readable(t: Text) {
    t.coded ==> X.Plain(t.bytes).Text?
  }

  /** What a string literal says. */
  function Said(t: Text): Text {
    if t.coded && X.Plain(t.bytes).Text? then Text(true, X.Plain(t.bytes).out) else t
  }

  datatype Item =
    | Indexed(index: nat)
    | Literal(add: bool, never: bool, index: nat, name: Text, value: Text)
    | Resize(window: nat)

  // ---------------------------------------------------------------- writing

  function TextCode(t: Text): seq<Byte> {
    P.Encode(|t.bytes|, 0x7F, if t.coded then 0x80 else 0) + t.bytes
  }

  function NameMax(add: bool): nat {
    if add then 0x3F else 0x0F
  }

  function NameMask(add: bool, never: bool): nat {
    if add then 0x40 else if never then 0x10 else 0
  }

  function Code(it: Item): seq<Byte> {
    match it
    case Indexed(index) => P.Encode(index, 0x7F, 0x80)
    case Literal(add, never, index, name, value) =>
      P.Encode(index, NameMax(add), NameMask(add, never)) + ((if index == 0 then TextCode(name) else []) + TextCode(value))
    case Resize(window) => P.Encode(window, 0x1F, 0x20)
  }

  function Codes(items: seq<Item>): seq<Byte> {
    if items == [] then [] else Code(items[0]) + Codes(items[1..])
  }

  /** Items with one way to be read: a name goes with index zero only, and what is added may be indexed. */
  predicate Proper(it: Item) {
    match it
    case Indexed(index) => index <= P.INT_LIMIT
    case Literal(add, never, index, name, value) =>
      && index <= P.INT_LIMIT && |name.bytes| <= P.INT_LIMIT && |value.bytes| <= P.INT_LIMIT
      && (index != 0 ==> name == NO_TEXT) && !(add && never)
    case Resize(window) => window <= P.INT_LIMIT
  }

  // ---------------------------------------------------------------- the automaton, byte by byte

  /** What is known of a literal field before its value. */
  datatype Lit = Lit(add: bool, never: bool, index: nat, name: Text)

  /** What an integer is for. */
  datatype Kind = Whole | Name(add: bool, never: bool) | Size | NameLen(lit: Lit, coded: bool) | ValueLen(lit: Lit, coded: bool)

  type Positive = n: nat | n > 0 witness 1

  datatype Phase =
    | Ready
    | Number(kind: Kind, x: nat, m: nat)
    | NameNext(lit: Lit)
    | NameText(lit: Lit, coded: bool, left: Positive, got: seq<Byte>)
    | ValueNext(lit: Lit)
    | ValueText(lit: Lit, coded: bool, left: Positive, got: seq<Byte>)
    | Failed

  /** `upd` allows a change of the table size, up to `limit`; `out` is what was decoded. */
  datatype State = State(phase: Phase, upd: bool, limit: nat, out: seq<Item>)

  function Fail(s: State): State {
    s.(phase := Failed)
  }

  /** A field ends the place for changes of the table size. */
  function Emit(s: State, it: Item): State {
    s.(phase := Ready, upd := false, out := s.out + [it])
  }

  function After(s: State, kind: Kind, v: nat): State {
    match kind
    case Whole => if v == 0 then Fail(s) else Emit(s, Indexed(v))
    case Name(add, never) =>
      s.(phase := if v == 0 then NameNext(Lit(add, never, 0, NO_TEXT)) else ValueNext(Lit(add, never, v, NO_TEXT)))
    case Size => if !s.upd || v > s.limit then Fail(s) else s.(phase := Ready, out := s.out + [Resize(v)])
    case NameLen(lit, coded) => if v == 0 then Fail(s) else s.(phase := NameText(lit, coded, v, []))
    case ValueLen(lit, coded) => if v == 0 then Fail(s) else s.(phase := ValueText(lit, coded, v, []))
  }

  /** An integer has begun with the bits `v` of its prefix. */
  function Begun(s: State, kind: Kind, v: nat, max: nat): State {
    if v == max then s.(phase := Number(kind, max, 0)) else After(s, kind, v)
  }

  function Counted(s: State, kind: Kind, r: P.State): State {
    match r
    case More(x, m) => s.(phase := Number(kind, x, m))
    case Done(x) => After(s, kind, x)
    case Rejected => Fail(s)
  }

  /** The first byte of a field or a size update. */
  function First(s: State, c: Byte): State {
    if c >= 0x80 then Begun(s, Whole, c % 0x80, 0x7F)
    else if c >= 0x40 then Begun(s, Name(true, false), c % 0x40, 0x3F)
    else if c >= 0x20 then Begun(s, Size, c % 0x20, 0x1F)
    else Begun(s, Name(false, c >= 0x10), c % 0x10, 0x0F)
  }

  predicate InText(s: State) {
    s.phase.NameText? || s.phase.ValueText?
  }

  /** A string that is whole, and says `text`. */
  function Ended(s: State, text: Text): State
    requires InText(s)
  {
    var lit := s.phase.lit;
    if s.phase.NameText? then s.(phase := ValueNext(lit.(name := text)))
    else Emit(s, Literal(lit.add, lit.never, lit.index, lit.name, text))
  }

  function Going(s: State, part: seq<Byte>): State
    requires InText(s) && |part| < s.phase.left
  {
    match s.phase
    case NameText(lit, coded, left, got) => s.(phase := NameText(lit, coded, left - |part|, got + part))
    case ValueText(lit, coded, left, got) => s.(phase := ValueText(lit, coded, left - |part|, got + part))
  }

  /** More of a string: the last byte ends it.  A Huffman code fails as soon as no string begins like it. */
  function Texted(s: State, part: seq<Byte>): State
    requires InText(s)
  {
    var t := Text(s.phase.coded, s.phase.got + part);
    if t.coded && X.Stuck(t.bytes) then Fail(s)
    else if |part| < s.phase.left then Going(s, part)
    else if Readable(t) then Ended(s, Said(t))
    else Fail(s)
  }

  function Step(s: State, c: Byte): State {
    match s.phase
    case Ready => First(s, c)
    case Number(kind, x, m) => Counted(s, kind, P.Step(P.More(x, m), c))
    case NameNext(lit) => Begun(s, NameLen(lit, c >= 0x80), c % 0x80, 0x7F)
    case ValueNext(lit) => Begun(s, ValueLen(lit, c >= 0x80), c % 0x80, 0x7F)
    case NameText(_, _, _, _) => Texted(s, [c])
    case ValueText(_, _, _, _) => Texted(s, [c])
    case Failed => s
  }

  function Run(s: State, src: seq<Byte>): State
    decreases src
  {
    if src == [] then s else Run(Step(s, src[0]), src[1..])
  }

  lemma {:induction false} RunConcat(s: State, a: seq<Byte>, b: seq<Byte>)
    ensures Run(s, a + b) == Run(Run(s, a), b)
    decreases a
  {
    if a == [] {
      assert a + b == b;
    } else {
      assert (a + b)[1..] == a[1..] + b;
      RunConcat(Step(s, a[0]), a[1..], b);
    }
  }

  lemma {:induction false} RunOne(s: State, c: Byte)
    ensures Run(s, [c]) == Step(s, c)
  {
    assert [c][1..] == [];
  }

  lemma {:induction false} RunFailed(s: State, src: seq<Byte>)
    requires s.phase == Failed
    ensures Run(s, src) == s
    decreases src
  {
    if src != [] { RunFailed(s, src[1..]); }
  }

  lemma {:induction false} LimitKept(s: State, src: seq<Byte>)
    ensures Run(s, src).limit == s.limit
    decreases src
  {
    hide P.Step;
    if src != [] { LimitKept(Step(s, src[0]), src[1..]); }
  }

  // ---------------------------------------------------------------- stretches of input

  /** The bytes of one integer, as far as they are there. */
  lemma {:induction false} NumberRun(s: State, src: seq<Byte>)
    requires s.phase.Number?
    requires src != [] ==> P.Read(P.More(s.phase.x, s.phase.m), src[..|src| - 1]).More?
    ensures Run(s, src) == Counted(s, s.phase.kind, P.Read(P.More(s.phase.x, s.phase.m), src))
    decreases src
  {
    if src != [] {
      var n, q := |src| - 1, P.More(s.phase.x, s.phase.m);
      var r := P.Read(q, src[..n]);
      if n > 0 && !P.Read(q, src[..n][..n - 1]).More? { P.ReadSplit(q, src[..n], n - 1); }
      NumberRun(s, src[..n]);
      assert src == src[..n] + [src[n]];
      RunConcat(s, src[..n], [src[n]]);
      RunOne(Run(s, src[..n]), src[n]);
      P.ReadOneMore(q, src, n);
      assert src[..n + 1] == src;
    }
  }

  /** The bytes of one string, as far as they are there. */
  lemma {:induction false} TextRun(s: State, src: seq<Byte>)
    requires InText(s) && 0 < |src| <= s.phase.left
    ensures Run(s, src) == Texted(s, src)
    decreases src
  {
    hide X.Stuck, X.Plain;
    RunOne(s, src[0]);
    var got := s.phase.got;
    if |src| == 1 {
      assert src == [src[0]];
    } else {
      var t := Step(s, src[0]);
      assert got + [src[0]] + src[1..] == got + src;
      if t.phase == Failed {
        X.StuckOn(got + [src[0]], src[1..]);
        RunFailed(t, src[1..]);
      } else {
        TextRun(t, src[1..]);
      }
    }
  }

  class Decoder {
    var state: State
    var huff: HuffmanCodec.Decoder   // the Huffman context of the string being read

    constructor (limit: nat)
      ensures Valid() && state == State(Ready, false, limit, []) && fresh(huff)
    {
      state := State(Ready, false, limit, []);
      huff := new HuffmanCodec.Decoder(0);
    }

    /** Within a Huffman code its context is where the bytes so far lead. */
    ghost predicate Valid()
      reads this, huff
    {
      InText(state) && state.phase.coded ==> X.At(huff, state.phase.got, state.phase.left)
    }

    /** The peer has acknowledged a table size: it may be changed in front of the next field. */
    method Acknowledged(limit: nat)
      requires Valid()
      modifies `state
      ensures Valid() && state == old(state).(upd := true, limit := limit)
    {
      hide X.At;
      state := state.(upd := true, limit := limit);
    }

    /** A Huffman code that begins gets a fresh context. */
    method Settle()
      requires InText(state) && state.phase.coded ==> state.phase.got == []
      modifies `huff
      ensures Valid() && (huff == old(huff) || fresh(huff))
    {
      if InText(state) && state.phase.coded {
        huff := X.Begin(state.phase.left);
      }
    }

    /** As much of a Huffman code as is there. */
    method Coded(src: seq<Byte>)
      requires Valid() && InText(state) && state.phase.coded && 0 < |src| <= state.phase.left
      modifies `state, huff
      ensures Valid() && state == Texted(old(state), src)
    {
      hide X.Stuck, X.Plain, X.At;
      ghost var s := state;
      AtLeft(huff, state.phase.got, state.phase.left);
      var ok := X.Go(huff, src, state.phase.got);
      StuckLast(s.phase.got + src);
      state := if !ok then Fail(state) else if |src| < state.phase.left then Going(state, src) else Ended(state, Text(true, huff.out));
      EndedOut(s, state);
    }

    /** One stretch of the input: a first byte, the rest of an integer, or as much of a string as is there. */
    method Stretch(src: seq<Byte>) returns (used: nat)
      requires Valid() && src != [] && state.phase != Failed
      modifies this, huff
      ensures Valid() && (huff == old(huff) || fresh(huff))
      ensures 0 < used <= |src| && state == Run(old(state), src[..used])
    {
      hide First, Begun, After, Texted, P.Step, Run, P.Read, X.At, X.Stuck, X.Plain;
      ghost var s := state;
      used := 1;
      if state.phase.Number? {
        var r;
        r, used := P.GetContinue(P.More(state.phase.x, state.phase.m), src);
        assert src[..used][..used - 1] == src[..used - 1];
        NumberRun(s, src[..used]);
        state := Counted(state, state.phase.kind, r);
        TextBegins(s, r);
        Settle();
      } else if InText(state) {
        used := if state.phase.left < |src| then state.phase.left else |src|;
        TextRun(s, src[..used]);
        if state.phase.coded {
          Coded(src[..used]);
        } else {
          state := Texted(state, src[..used]);
          StaysPlain(s, src[..used]);
        }
      } else {
        RunOne(s, src[0]);
        assert src[..1] == [src[0]];
        state := Step(state, src[0]);
        TextFirst(s, src[0]);
        Settle();
      }
    }

    /** Take a fragment; it may end anywhere.  All that the caller tells apart is whether it failed. */
    method Feed(src: seq<Byte>) returns (ok: bool)
      requires Valid()
      modifies this, huff
      ensures Valid() && (huff == old(huff) || fresh(huff)) && state == Run(old(state), src)
      ensures ok <==> state.phase != Failed
    {
      hide Run, Valid;
      var pos := 0;
      assert src[0..] == src;
      while pos < |src| && state.phase != Failed
        invariant pos <= |src| && Run(state, src[pos..]) == Run(old(state), src)
        invariant Valid() && (huff == old(huff) || fresh(huff))
        decreases |src| - pos
      {
        ghost var s := state;
        var used := Stretch(src[pos..]);
        assert src[pos..] == src[pos..][..used] + src[pos + used..];
        RunConcat(s, src[pos..][..used], src[pos + used..]);
        pos := pos + used;
      }
      if state.phase == Failed {
        RunFailed(state, src[pos..]);
      } else {
        RunNone(state, src[pos..]);
      }
      ok := state.phase != Failed;
    }

    /** However a header block is cut into fragments, it is decoded as a whole; nothing is taken after a failure. */
    method FeedAll(frags: seq<seq<Byte>>) returns (ok: bool)
      requires Valid()
      modifies this, huff
      ensures Valid() && (huff == old(huff) || fresh(huff)) && state == Run(old(state), Flatten(frags))
      ensures ok <==> state.phase != Failed
    {
      hide Run, Valid;
      RunNone(state, []);
      assert frags[..0] == [];
      for i := 0 to |frags|
        invariant state == Run(old(state), Flatten(frags[..i]))
        invariant Valid() && (huff == old(huff) || fresh(huff))
      {
        FlattenUpTo(frags, i);
        RunConcat(old(state), Flatten(frags[..i]), frags[i]);
        ok := Feed(frags[i]);
      }
      assert frags[..|frags|] == frags;
      ok := state.phase != Failed;
    }
  }

  lemma AtLeft(d: HuffmanCodec.Decoder, src: seq<Byte>, left: nat)
    requires X.At(d, src, left)
    ensures d.length == left
  {
    hide X.After;
  }

  lemma StuckLast(src: seq<Byte>)
    ensures X.Stuck(src) ==> X.Plain(src).Malformed?
  {
    hide X.Stuck, X.Plain;
    if X.Stuck(src) { X.StuckOn(src, []); }
  }

  /** No string is open right after one has ended, and one that has begun is still empty. */
  lemma EndedOut(s: State, t: State)
    requires InText(s)
    ensures t == Fail(s) || (exists text :: t == Ended(s, text)) ==> !InText(t)
  {
  }

  lemma TextBegins(s: State, r: P.State)
    requires s.phase.Number?
    ensures var t := Counted(s, s.phase.kind, r); InText(t) ==> t.phase.got == []
  {
  }

  lemma TextFirst(s: State, c: Byte)
    requires !InText(s) && !s.phase.Number?
    ensures var t := Step(s, c); InText(t) && t.phase.coded ==> s.phase != Failed && t.phase.got == []
  {
    hide X.Stuck, X.Plain;
  }

  lemma StaysPlain(s: State, part: seq<Byte>)
    requires InText(s) && !s.phase.coded
    ensures InText(Texted(s, part)) ==> !Texted(s, part).phase.coded
  {
    hide X.Stuck, X.Plain;
  }

  lemma {:induction false} RunNone(s: State, src: seq<Byte>)
    requires src == []
    ensures Run(s, src) == s
  {
  }

  // ---------------------------------------------------------------- round trip

  /** The decoder takes everything that is written but index zero, an empty name, an empty value, a string
      that is no Huffman code, and a change of the table size out of place or beyond the limit. */
  predicate Takes(s: State, it: Item) {
    match it
    case Indexed(index) => index != 0
    case Literal(_, _, index, name, value) =>
      (index != 0 || (name.bytes != [] && Readable(name))) && value.bytes != [] && Readable(value)
    case Resize(window) => s.upd && window <= s.limit
  }

  /** The item with its strings decoded. */
  function Heard(it: Item): Item {
    match it
    case Literal(add, never, index, name, value) => Literal(add, never, index, if index == 0 then Said(name) else name, Said(value))
    case _ => it
  }

  function HeardAll(items: seq<Item>): (r: seq<Item>)
    ensures |r| == |items| && forall i :: 0 <= i < |items| ==> r[i] == Heard(items[i])
  {
    if items == [] then [] else [Heard(items[0])] + HeardAll(items[1..])
  }

  function Taken(s: State, it: Item): State {
    if it.Resize? then s.(phase := Ready, out := s.out + [it]) else Emit(s, Heard(it))
  }

  /** An integer is read back, whatever it is for. */
  lemma {:induction false} IntegerBack(s: State, kind: Kind, index: nat, max: nat, mask: nat)
    requires P.IsPrefix(max, mask) && index <= P.INT_LIMIT
    requires Step(s, P.Encode(index, max, mask)[0]) == Begun(s, kind, if index < max then index else max, max)
    ensures Run(s, P.Encode(index, max, mask)) == After(s, kind, index)
  {
    hide Step, Run, P.Read;
    var code := P.Encode(index, max, mask);
    P.RoundTrip(index, max, mask, []);
    RunOne(s, code[0]);
    if index < max {
      assert code == [code[0]];
    } else {
      var t := s.(phase := Number(kind, max, 0));
      var n := |code| - 1;
      assert code == [code[0]] + code[1..] && code[1..] + [] == code[1..];
      RunConcat(s, [code[0]], code[1..]);
      if n > 0 { assert code[1..][..n - 1] == code[1..n]; }
      NumberRun(t, code[1..]);
    }
  }

  /** The first byte tells what follows. */
  lemma FirstBack(s: State, kind: Kind, v: nat, max: nat, mask: nat)
    requires s.phase == Ready && v <= max
    requires
      || (kind == Whole && max == 0x7F && mask == 0x80)
      || (kind == Size && max == 0x1F && mask == 0x20)
      || (kind.Name? && !(kind.add && kind.never) && max == NameMax(kind.add) && mask == NameMask(kind.add, kind.never))
    ensures max + mask < 256 && P.IsPrefix(max, mask) && Step(s, v + mask) == Begun(s, kind, v, max)
  {
    hide Begun;
  }

  lemma LengthBack(s: State, t: Text, v: nat)
    requires (s.phase.NameNext? || s.phase.ValueNext?) && v <= 0x7F
    ensures var mask := if t.coded then 0x80 else 0;
      P.IsPrefix(0x7F, mask) &&
      Step(s, v + mask) == Begun(s, if s.phase.NameNext? then NameLen(s.phase.lit, t.coded) else ValueLen(s.phase.lit, t.coded), v, 0x7F)
  {
    hide Begun;
  }

  lemma {:induction false} TextBack(s: State, t: Text)
    requires (s.phase.NameNext? || s.phase.ValueNext?) && |t.bytes| <= P.INT_LIMIT
    ensures Run(s, TextCode(t)) ==
      if t.bytes == [] || !Readable(t) then Fail(s)
      else if s.phase.NameNext? then s.(phase := ValueNext(s.phase.lit.(name := Said(t))))
      else var l := s.phase.lit; Emit(s, Literal(l.add, l.never, l.index, l.name, Said(t)))
  {
    hide Run, P.Encode, X.Stuck, X.Plain;
    StuckLast(t.bytes);
    var n, mask := |t.bytes|, if t.coded then 0x80 else 0;
    var kind := if s.phase.NameNext? then NameLen(s.phase.lit, t.coded) else ValueLen(s.phase.lit, t.coded);
    EncodeHead(n, 0x7F, mask);
    LengthBack(s, t, if n < 0x7F then n else 0x7F);
    IntegerBack(s, kind, n, 0x7F, mask);
    RunConcat(s, P.Encode(n, 0x7F, mask), t.bytes);
    if n == 0 {
      RunNone(After(s, kind, n), t.bytes);
    } else {
      TextRun(After(s, kind, n), t.bytes);
      assert [] + t.bytes == t.bytes;
    }
  }

  lemma EncodeHead(index: nat, max: nat, mask: nat)
    requires max + mask < 256
    ensures P.Encode(index, max, mask)[0] == (if index < max then index else max) + mask
  {
  }

  lemma {:induction false} NamedBack(s: State, it: Item)
    requires s.phase == Ready && Proper(it) && it.Literal?
    ensures Run(s, P.Encode(it.index, NameMax(it.add), NameMask(it.add, it.never))) == After(s, Name(it.add, it.never), it.index)
  {
    hide After, Step, P.Encode;
    var max, mask := NameMax(it.add), NameMask(it.add, it.never);
    FirstBack(s, Name(it.add, it.never), if it.index < max then it.index else max, max, mask);
    EncodeHead(it.index, max, mask);
    IntegerBack(s, Name(it.add, it.never), it.index, max, mask);
  }

  lemma {:induction false} LiteralBack(s: State, it: Item)
    requires s.phase == Ready && Proper(it) && it.Literal?
    ensures Takes(s, it) ==> Run(s, Code(it)) == Taken(s, it)
    ensures !Takes(s, it) ==> Run(s, Code(it)).phase == Failed && Run(s, Code(it)).out == s.out
  {
    hide Run, P.Encode, TextCode, Step, X.Plain;
    var max, mask := NameMax(it.add), NameMask(it.add, it.never);
    var head, mid, tail := P.Encode(it.index, max, mask), if it.index == 0 then TextCode(it.name) else [], TextCode(it.value);
    NamedBack(s, it);
    RunConcat(s, head, mid + tail);
    var s1 := After(s, Name(it.add, it.never), it.index);
    RunConcat(s1, mid, tail);
    if it.index == 0 {
      TextBack(s1, it.name);
    } else {
      RunNone(s1, []);
    }
    var s2 := Run(s1, mid);
    if s2.phase == Failed {
      RunFailed(s2, tail);
    } else {
      TextBack(s2, it.value);
    }
  }

  /** One item: taken as it was written, or refused. */
  lemma {:induction false} ItemBack(s: State, it: Item)
    requires s.phase == Ready && Proper(it)
    ensures Takes(s, it) ==> Run(s, Code(it)) == Taken(s, it)
    ensures !Takes(s, it) ==> Run(s, Code(it)).phase == Failed && Run(s, Code(it)).out == s.out
  {
    hide Run, P.Encode;
    match it
    case Indexed(index) =>
      FirstBack(s, Whole, if index < 0x7F then index else 0x7F, 0x7F, 0x80);
      EncodeHead(index, 0x7F, 0x80);
      IntegerBack(s, Whole, index, 0x7F, 0x80);
    case Resize(window) =>
      FirstBack(s, Size, if window < 0x1F then window else 0x1F, 0x1F, 0x20);
      EncodeHead(window, 0x1F, 0x20);
      IntegerBack(s, Size, window, 0x1F, 0x20);
    case Literal(_, _, _, _, _) =>
      LiteralBack(s, it);
  }

  const BLANK := Literal(false, false, 0, Text(false, [0x78]), NO_TEXT)

  /** A field with an empty value is four bytes, and the decoder fails on the last one. */
  lemma {:induction false} BlankRefused(upd: bool, limit: nat)
    ensures Code(BLANK) == [0, 1, 0x78, 0] && Run(State(Ready, upd, limit, []), Code(BLANK)).phase == Failed
  {
    ItemBack(State(Ready, upd, limit, []), BLANK);
    hide Run;
    assert TextCode(Text(false, [0x78])) == [1, 0x78] && TextCode(NO_TEXT) == [0];
  }

  /** The first item the decoder refuses, or the number of items. */
  function Refused(s: State, items: seq<Item>): (k: nat)
    ensures k <= |items|
    decreases items
  {
    if items == [] || !Takes(s, items[0]) then 0 else 1 + Refused(Taken(s, items[0]), items[1..])
  }

  /** A whole header block: the decoder gets exactly the items in front of the first one it refuses, and is
      ready for more exactly if it refuses none. */
  lemma {:induction false} BlockBack(s: State, items: seq<Item>)
    requires s.phase == Ready && forall i :: 0 <= i < |items| ==> Proper(items[i])
    ensures var r := Run(s, Codes(items)); var k := Refused(s, items);
      r.out == s.out + HeardAll(items[..k]) && (r.phase == Ready <==> k == |items|) && (k < |items| ==> r.phase == Failed)
    decreases items
  {
    hide Run, Code, Proper, Takes, Heard, Taken;
    if items == [] {
      RunNone(s, []);
    } else {
      var it, rest := items[0], items[1..];
      ItemBack(s, it);
      RunConcat(s, Code(it), Codes(rest));
      if Takes(s, it) {
        TakenOut(s, it);
        BlockBack(Taken(s, it), rest);
        var k := Refused(Taken(s, it), rest);
        assert items[..k + 1] == [it] + rest[..k];
        HeardFirst(it, rest[..k]);
      } else {
        RunFailed(Run(s, Code(it)), Codes(rest));
      }
    }
  }

  lemma TakenOut(s: State, it: Item)
    ensures Taken(s, it).out == s.out + [Heard(it)] && Taken(s, it).phase == Ready
  {
    hide X.Plain;
  }

  lemma {:induction false} HeardFirst(it: Item, rest: seq<Item>)
    ensures HeardAll([it] + rest) == [Heard(it)] + HeardAll(rest)
  {
    hide Heard;
    assert ([it] + rest)[1..] == rest;
  }

  // ---------------------------------------------------------------- coded strings

  /** `raw` is a way to write the text: as it is, or as its Huffman code and up to seven one-bits. */
  ghost predicate Spells(raw: Text, text: seq<Byte>) {
    if raw.coded then X.Encodes(raw.bytes, text) else raw.bytes == text
  }

  /** A literal field with its strings written in either way. */
  ghost predicate SpellsItem(raw: Item, it: Item) {
    match raw
    case Literal(add, never, index, name, value) =>
      && it.Literal? && it.add == add && it.never == never && it.index == index
      && it.name.coded == name.coded && it.value.coded == value.coded
      && (if index == 0 then Spells(name, it.name.bytes) && it.name.bytes != [] else it.name == name)
      && Spells(value, it.value.bytes) && it.value.bytes != []
    case Indexed(index) => it == raw && index != 0
    case Resize(_) => false
  }

  lemma SpelledText(raw: Text, text: seq<Byte>)
    requires Spells(raw, text)
    ensures Readable(raw) && Said(raw) == Text(raw.coded, text) && (raw.bytes == [] ==> text == [])
  {
    hide X.Plain, X.Encodes;
    X.PlainExact(raw.bytes, text);
    X.PlainNone();
  }

  lemma SpelledItem(s: State, raw: Item, it: Item)
    requires SpellsItem(raw, it)
    ensures Takes(s, raw) && Heard(raw) == it
  {
    hide X.Plain, X.Encodes;
    if raw.Literal? {
      if raw.index == 0 { SpelledText(raw.name, it.name.bytes); }
      SpelledText(raw.value, it.value.bytes);
    }
  }

  /** However the strings of a header block are written, the decoder hears the strings themselves. */
  lemma {:induction false} CodedBack(s: State, raws: seq<Item>, items: seq<Item>)
    requires s.phase == Ready && |raws| == |items| && forall i :: 0 <= i < |raws| ==> Proper(raws[i]) && SpellsItem(raws[i], items[i])
    ensures Run(s, Codes(raws)).out == s.out + items && Run(s, Codes(raws)).phase == Ready
  {
    hide Run, Proper, SpellsItem, Takes, Heard;
    BlockBack(s, raws);
    NoneRefused(s, raws, items);
    forall i | 0 <= i < |raws| ensures HeardAll(raws)[i] == items[i] { SpelledItem(s, raws[i], items[i]); }
    assert HeardAll(raws) == items && raws[..|raws|] == raws;
  }

  lemma {:induction false} NoneRefused(s: State, raws: seq<Item>, items: seq<Item>)
    requires |raws| == |items| && forall i :: 0 <= i < |raws| ==> SpellsItem(raws[i], items[i])
    ensures Refused(s, raws) == |raws|
    decreases raws
  {
    hide SpellsItem, Takes, Heard;
    if raws != [] {
      SpelledItem(s, raws[0], items[0]);
      NoneRefused(Taken(s, raws[0]), raws[1..], items[1..]);
    }
  }
}
