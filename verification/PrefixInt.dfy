/** HPACK prefix integers (section 5.1 of RFC 7541): writer, size and resumable reader. */
module PrefixInt {
  import opened Common
  import opened Bits

  const INT_LIMIT := 0x10_0000  // HPACK_INT_LIMIT
  const MAX_INT := 3            // HPACK_MAX_INT: bytes in the writer's buffer

  // ---------------------------------------------------------------- writing

  /** Seven bits per byte, lowest first, the top bit set on all but the last. */
  function Tail(x: nat): (r: seq<Byte>)
    ensures |r| > 0
  {
    if x <= 0x7F then [x] else [x % 128 + 128] + Tail(x / 128)
  }

  /** The code of `index` with a prefix of maximal value `max` below the flag bits `mask`. */
  function Encode(index: nat, max: nat, mask: nat): (r: seq<Byte>)
    requires max + mask < 256
    ensures |r| > 0
  {
    if index < max then [index + mask] else [max + mask] + Tail(index - max)
  }

  predicate IsPrefix(max: nat, mask: nat) {
    && max + mask < 256
    && ( || (max == 0x0F && mask % 16 == 0) || (max == 0x1F && mask % 32 == 0)
         || (max == 0x3F && mask % 64 == 0) || (max == 0x7F && mask % 128 == 0))
  }

  /** `c & max` for the four prefix sizes. */
  function PrefixOf(c: Byte, max: nat): nat {
    if max == 0x0F then c % 16 else if max == 0x1F then c % 32 else if max == 0x3F then c % 64 else c % 128
  }

  lemma {:induction false} TailSize(x: nat)
    ensures |Tail(x)| <= 2 <==> x < 0x4000
  {
    if x > 0x7F { assert |Tail(x)| == 1 + |Tail(x / 128)|; }
  }

  /** The code fits into the writer's buffer exactly below `max + 2^14`. */
  lemma EncodeFits(index: nat, max: nat, mask: nat)
    requires max + mask < 256
    ensures |Encode(index, max, mask)| <= MAX_INT <==> index < max + 0x4000
  {
    if index >= max { TailSize(index - max); }
  }

  /** The first length that does not fit: four bytes. */
  lemma {:induction false} FourBytes()
    ensures Encode(0x7F + 0x4000, 0x7F, 0) == [0x7F, 0x80, 0x80, 1] && |Encode(0x7F + 0x4000, 0x7F, 0)| > MAX_INT
  {
    assert Tail(1) == [1];
    assert Tail(0x80) == [0x80] + Tail(1);
    assert Tail(0x4000) == [0x80] + Tail(0x80);
  }

  /** Write an integer to `buf`; `sz` bytes of it are used. */
  method WriteInt(index0: nat, max: nat, mask: nat, buf: array<Byte>) returns (sz: nat)
    requires IsPrefix(max, mask) && buf.Length == MAX_INT && index0 < max + 0x4000
    modifies buf
    ensures sz <= MAX_INT && buf[..sz] == Encode(index0, max, mask)
  {
    EncodeFits(index0, max, mask);
    var index, dst := index0, 0;
    sz := 1;
    if index < max {
      index := index + mask;
    } else {
      sz := sz + 1;
      buf[dst] := max + mask;
      dst := dst + 1;
      index := index - max;
      while index > 0x7F
        invariant dst + 1 == sz <= MAX_INT && 0 <= index
        invariant buf[..dst] + Tail(index) == Encode(index0, max, mask)
        decreases index
      {
        assert |Tail(index)| == 1 + |Tail(index / 128)|;
        sz := sz + 1;
        buf[dst] := index % 128 + 128;
        dst := dst + 1;
        index := index / 128;
      }
    }
    buf[dst] := index;
  }

  /** Number of bytes `WriteInt` would use. */
  method IntSize(index0: nat, max: nat) returns (size: nat)
    requires max < 256
    ensures size == |Encode(index0, max, 0)|
  {
    var index := index0;
    size := 1;
    if index < max {
      return;
    }
    size := size + 1;
    index := index - max;
    while index > 0x7F
      invariant 0 <= index && size - 1 + |Tail(index)| == |Encode(index0, max, 0)|
      decreases index
    {
      assert |Tail(index)| == 1 + |Tail(index / 128)|;
      size := size + 1;
      index := index / 128;
    }
  }

  // ---------------------------------------------------------------- reading

  /** `v << m` on an unsigned int: the shift count is taken modulo 32. */
  function Shl(v: nat, m: nat): nat {
    v * Pow2(m % 32) % 0x1_0000_0000
  }

  /** Reader state between two bytes: value so far and shift of the next byte. */
  datatype State = More(x: nat, m: nat) | Done(x: nat) | Rejected

  function Step(s: State, c: Byte): State {
    match s
    case More(x, m) =>
      var y := x + Shl(c % 128, m);
      if y > INT_LIMIT then Rejected else if c > 127 then More(y, m + 7) else Done(y)
    case _ => s
  }

  /** The plain meaning of the reader: all bytes in one go, stopping at the last byte of the integer. */
  function Read(s: State, src: seq<Byte>): State
    decreases src
  {
    if src == [] then s else Read(Step(s, src[0]), src[1..])
  }

  lemma {:induction false} ReadConcat(s: State, a: seq<Byte>, b: seq<Byte>)
    ensures Read(s, a + b) == Read(Read(s, a), b)
    decreases a
  {
    if a == [] {
      assert a + b == b;
    } else {
      assert (a + b)[1..] == a[1..] + b;
      ReadConcat(Step(s, a[0]), a[1..], b);
    }
  }

  lemma {:induction false} ReadSettled(s: State, src: seq<Byte>)
    requires !s.More?
    ensures Read(s, src) == s
    decreases src
  {
    if src != [] { ReadSettled(s, src[1..]); }
  }

  /** Begin an integer after its prefix was read as `x0`; stop early if the input ends. */
  method GetFlexible(x0: nat, src: seq<Byte>) returns (s: State, used: nat)
    requires x0 <= INT_LIMIT
    ensures s == Read(More(x0, 0), src) && used <= |src|
    ensures s == Read(More(x0, 0), src[..used]) && (s.More? ==> used == |src|)
  {
    var x: nat, m: nat, c: Byte := x0, 0, 255;
    used := 0;
    assert src[..0] == [];
    while c > 127
      invariant used <= |src| && Read(More(x0, 0), src[..used]) == if c > 127 then More(x, m) else Done(x)
      decreases |src| - used
    {
      if used >= |src| {
        assert src[..used] == src;
        return More(x, m), used;
      }
      c := src[used];
      ReadOneMore(More(x0, 0), src, used);
      used := used + 1;
      x := x + Shl(c % 128, m);
      m := m + 7;
      if x > INT_LIMIT {
        s := Rejected;
        ReadSplit(More(x0, 0), src, used);
        return;
      }
    }
    s := Done(x);
    ReadSplit(More(x0, 0), src, used);
  }

  lemma {:induction false} ReadSplit(s: State, src: seq<Byte>, used: nat)
    requires used <= |src| && !Read(s, src[..used]).More?
    ensures Read(s, src) == Read(s, src[..used])
  {
    assert src == src[..used] + src[used..];
    ReadConcat(s, src[..used], src[used..]);
    ReadSettled(Read(s, src[..used]), src[used..]);
  }

  /** Go on with an interrupted integer when the next fragment has arrived. */
  method GetContinue(s0: State, src: seq<Byte>) returns (s: State, used: nat)
    requires s0.More? && src != []
    ensures s == Read(s0, src) && used <= |src|
    ensures s == Read(s0, src[..used]) && (s.More? ==> used == |src|)
    ensures used > 0 && Read(s0, src[..used - 1]).More?
  {
    var x: nat, m: nat, c: Byte := s0.x, s0.m, src[0];
    used := 1;
    assert src[..1] == [c];
    assert Read(s0, [c]) == Step(s0, c) by { assert [c][1..] == []; }
    assert src[..0] == [];
    x := x + Shl(c % 128, m);
    m := m + 7;
    if x > INT_LIMIT {
      ReadSplit(s0, src, used);
      return Rejected, used;
    }
    while c > 127
      invariant 0 < used <= |src| && Read(s0, src[..used]) == if c > 127 then More(x, m) else Done(x)
      invariant Read(s0, src[..used - 1]).More?
      decreases |src| - used
    {
      if used >= |src| {
        assert src[..used] == src;
        return More(x, m), used;
      }
      c := src[used];
      ReadOneMore(s0, src, used);
      used := used + 1;
      x := x + Shl(c % 128, m);
      m := m + 7;
      if x > INT_LIMIT {
        ReadSplit(s0, src, used);
        return Rejected, used;
      }
    }
    ReadSplit(s0, src, used);
    s := Done(x);
  }

  lemma {:induction false} ReadOneMore(s: State, src: seq<Byte>, i: nat)
    requires i < |src|
    ensures Read(s, src[..i + 1]) == Step(Read(s, src[..i]), src[i])
  {
    assert src[..i + 1] == src[..i] + [src[i]];
    ReadConcat(s, src[..i], [src[i]]);
    assert [src[i]][1..] == [];
  }

  /** However the bytes after the prefix are cut into fragments, the value, the rejection and
      the saved context are those of one uninterrupted read. */
  method ReadFragments(x0: nat, head: seq<Byte>, frags: seq<seq<Byte>>) returns (s: State)
    requires x0 <= INT_LIMIT && forall i :: 0 <= i < |frags| ==> frags[i] != []
    ensures s == Read(More(x0, 0), head + Flatten(frags))
  {
    var used;
    s, used := GetFlexible(x0, head);
    ReadConcat(More(x0, 0), head, Flatten(frags));
    assert frags[0..] == frags;
    for i := 0 to |frags|
      invariant Read(More(x0, 0), head + Flatten(frags)) == Read(s, Flatten(frags[i..]))
    {
      FlattenFrom(frags, i);
      ReadConcat(s, frags[i], Flatten(frags[i + 1..]));
      if s.More? {
        s, used := GetContinue(s, frags[i]);
      } else {
        ReadSettled(s, frags[i]);
      }
    }
  }

  // ---------------------------------------------------------------- exactness and round trip

  /** Continuation bytes of one whole integer: the top bit is clear on the last byte only. */
  predicate Complete(src: seq<Byte>) {
    && src != [] && src[|src| - 1] < 128
    && forall i :: 0 <= i < |src| - 1 ==> src[i] >= 128
  }

  /** The number section 5.1 of RFC 7541 gives to continuation bytes, without any bound. */
  function Value(src: seq<Byte>): nat {
    if src == [] then 0 else src[0] % 128 + 128 * Value(src[1..])
  }

  lemma Pow2Values()
    ensures Pow2(7) == 128 && Pow2(14) == 0x4000 && Pow2(21) == 0x20_0000 && Pow2(25) == 0x200_0000
  {
    Pow2Seven(0);
    Pow2Seven(7);
    Pow2Seven(14);
    assert Pow2(23) == 4 * Pow2(21);
  }

  lemma Product(a: nat, b: nat, c: nat, d: nat)
    requires a <= b && c <= d
    ensures a * c <= b * d
  {
    assert a * c <= b * c <= b * d;
  }

  lemma Regroup(p: nat, v: nat, w: nat)
    ensures (p + 128 * v) * w == p * w + v * (128 * w)
  {
  }

  /** A seven-bit payload is shifted without loss up to shift 25. */
  lemma {:induction false} ShlExact(v: nat, m: nat)
    requires v < 128 && m <= 25
    ensures Shl(v, m) == v * Pow2(m)
  {
    hide Pow2;
    Pow2Values();
    Pow2Grows(m, 25);
    Product(v, 127, Pow2(m), Pow2(25));
    assert m % 32 == m;
    InWord(v * Pow2(m));
  }

  lemma InWord(x: nat)
    ensures x < 0x1_0000_0000 ==> x % 0x1_0000_0000 == x
  {
  }

  lemma ShlZero(m: nat)
    ensures Shl(0, m) == 0
  {
    hide Pow2;
    assert 0 * Pow2(m % 32) == 0;
  }

  lemma {:induction false} SmallShift(p: nat, m: nat)
    requires p < 128 && p * Pow2(m) <= INT_LIMIT
    ensures Shl(p, m) == p * Pow2(m)
  {
    hide Pow2, Shl;
    if p == 0 {
      ShlZero(m);
    } else {
      Product(1, p, Pow2(m), Pow2(m));
      if m > 21 { Pow2Grows(21, m); Pow2Values(); }
      ShlExact(p, m);
    }
  }

  /** Every integer within the limit is accepted with its own value, however many bytes spell it. */
  lemma {:induction false} ReadsExactly(y: nat, m: nat, src: seq<Byte>)
    requires Complete(src) && y + Value(src) * Pow2(m) <= INT_LIMIT
    ensures Read(More(y, m), src) == Done(y + Value(src) * Pow2(m))
    decreases src
  {
    var p, v := src[0] % 128, Value(src[1..]);
    hide Pow2, Shl;
    Regroup(p, v, Pow2(m));
    SmallShift(p, m);
    if |src| == 1 {
      assert src[1..] == [] && v == 0;
    } else {
      Pow2Seven(m);
      ReadsExactly(y + p * Pow2(m), m + 7, src[1..]);
    }
  }

  lemma {:induction false} NoPayload(src: seq<Byte>)
    ensures Value(src) == 0 <==> forall i :: 0 <= i < |src| ==> src[i] % 128 == 0
    decreases src
  {
    if src != [] {
      NoPayload(src[1..]);
      assert forall i :: 1 <= i < |src| ==> src[i] == src[1..][i - 1];
    }
  }

  /** Bytes at which the reader still shifts without loss. */
  const EXACT_BYTES := 4

  /** What is accepted has the number's value if and only if the bytes after the fourth are idle. */
  lemma {:induction false} AcceptedFrom(y: nat, i: nat, at: nat, src: seq<Byte>)
    requires Complete(src) && i <= EXACT_BYTES && at == 7 * i
    requires y <= INT_LIMIT && Read(More(y, at), src).Done?
    ensures Read(More(y, at), src) == Done(y + Value(src) * Pow2(at))
      <==> forall k :: EXACT_BYTES - i <= k < |src| ==> src[k] % 128 == 0
    decreases src
  {
    hide Pow2, Shl;
    var p, v := src[0] % 128, Value(src[1..]);
    if i == EXACT_BYTES {
      NoPayload(src);
      if Value(src) == 0 {
        ReadsExactly(y, 28, src);
      } else {
        Pow2Values();
        Pow2Grows(21, 28);
        Product(1, Value(src), Pow2(28), Pow2(28));
        AcceptedBelow(More(y, 28), src);
      }
    } else {
      ShlExact(p, at);
      Pow2Seven(at);
      Regroup(p, v, Pow2(at));
      var y1 := y + p * Pow2(at);
      if y1 > INT_LIMIT {
        ReadSettled(Rejected, src[1..]);
      } else if |src| > 1 {
        AcceptedFrom(y1, i + 1, at + 7, src[1..]);
        assert forall k :: 1 <= k < |src| ==> src[k] == src[1..][k - 1];
      } else {
        assert src[1..] == [];
      }
    }
  }

  lemma {:induction false} AcceptedBelow(s: State, src: seq<Byte>)
    requires s.More? && Read(s, src).Done?
    ensures Read(s, src).x <= INT_LIMIT
    decreases src
  {
    var t := Step(s, src[0]);
    if t.More? { AcceptedBelow(t, src[1..]); } else { ReadSettled(t, src[1..]); }
  }

  lemma {:induction false} AcceptedExact(x0: nat, src: seq<Byte>)
    requires Complete(src) && x0 <= INT_LIMIT && Read(More(x0, 0), src).Done?
    ensures Read(More(x0, 0), src) == Done(x0 + Value(src))
      <==> forall k :: EXACT_BYTES <= k < |src| ==> src[k] % 128 == 0
  {
    AcceptedFrom(x0, 0, 0, src);
  }

  /** A fifth byte can be lost whole: a number of thirty-three bits is accepted as 127. */
  lemma FifthByteLost()
    ensures Complete([0x80, 0x80, 0x80, 0x80, 0x10]) && Value([0x80, 0x80, 0x80, 0x80, 0x10]) == 0x1_0000_0000
    ensures Read(More(0x7F, 0), [0x80, 0x80, 0x80, 0x80, 0x10]) == Done(0x7F)
  {
    hide Read, Value;
    TopShift();
    var a: seq<Byte> := [0x10];
    var b, c, d := [0x80] + a, [0x80] + ([0x80] + a), [0x80] + ([0x80] + ([0x80] + a));
    LastByte(0x7F, 28, 0x10);
    Idle(0x7F, 0, d);
    Idle(0x7F, 7, c);
    Idle(0x7F, 14, b);
    Idle(0x7F, 21, a);
    assert [0x80] + d == [0x80, 0x80, 0x80, 0x80, 0x10];
  }

  lemma {:induction false} LastByte(x: nat, m: nat, c: Byte)
    requires c < 128 && Shl(c, m) == 0 && x <= INT_LIMIT
    ensures Read(More(x, m), [c]) == Done(x) && Value([c]) == c
  {
    hide Shl;
    assert [c][1..] == [];
    assert c % 128 == c;
    assert Step(More(x, m), c) == Done(x);
  }

  lemma TopShift()
    ensures Shl(0x10, 28) == 0
  {
    hide Pow2;
    Pow2Values();
    Pow2Seven(21);
    assert 28 % 32 == 28 && Pow2(28) == 0x1000_0000;
  }

  lemma {:induction false} Idle(x: nat, m: nat, src: seq<Byte>)
    requires x <= INT_LIMIT
    ensures Read(More(x, m), [0x80] + src) == Read(More(x, m + 7), src)
    ensures Value([0x80] + src) == 128 * Value(src)
  {
    hide Pow2, Shl;
    assert ([0x80] + src)[1..] == src;
    ShlZero(m);
  }

  lemma {:induction false} TailComplete(x: nat)
    ensures Complete(Tail(x)) && Value(Tail(x)) == x
  {
    if x > 0x7F {
      TailComplete(x / 128);
      assert Tail(x)[1..] == Tail(x / 128);
    } else {
      assert Tail(x)[1..] == [];
    }
  }

  lemma {:induction false} StillOpen(s: State, src: seq<Byte>, k: nat)
    requires s.More? && Complete(src) && Read(s, src).Done? && k < |src|
    ensures Read(s, src[..k]).More?
    decreases src
  {
    if k > 0 {
      var t := Step(s, src[0]);
      assert src[..k][1..] == src[1..][..k - 1];
      if t.Rejected? { ReadSettled(t, src[1..]); }
      StillOpen(t, src[1..], k - 1);
    }
  }

  /** Reading gives back what was written, for every prefix size, and stops exactly at its end. */
  lemma {:induction false} RoundTrip(index: nat, max: nat, mask: nat, rest: seq<Byte>)
    requires IsPrefix(max, mask) && index <= INT_LIMIT
    ensures PrefixOf(Encode(index, max, mask)[0], max) == if index < max then index else max
    ensures index < max ==> |Encode(index, max, mask)| == 1
    ensures index >= max ==> Read(More(max, 0), Encode(index, max, mask)[1..] + rest) == Done(index)
    ensures forall k :: 1 <= k < |Encode(index, max, mask)| ==>
      Read(More(max, 0), Encode(index, max, mask)[1..k]).More?
  {
    FirstByte(index, max, mask);
    if index >= max {
      var t := Tail(index - max);
      assert Encode(index, max, mask)[1..] == t;
      hide Tail, Read;
      TailBack(index - max, max);
      ReadConcat(More(max, 0), t, rest);
      ReadSettled(Done(index), rest);
      forall k | 1 <= k < |Encode(index, max, mask)|
        ensures Read(More(max, 0), Encode(index, max, mask)[1..k]).More?
      {
        assert Encode(index, max, mask)[1..k] == t[..k - 1];
      }
    }
  }

  lemma {:induction false} TailBack(x: nat, max: nat)
    requires x + max <= INT_LIMIT
    ensures Read(More(max, 0), Tail(x)) == Done(max + x)
    ensures forall k :: 0 <= k < |Tail(x)| ==> Read(More(max, 0), Tail(x)[..k]).More?
  {
    hide Pow2, Shl, Tail, Read, Value;
    TailComplete(x);
    Pow2Zero();
    ReadsExactly(max, 0, Tail(x));
    forall k | 0 <= k < |Tail(x)| ensures Read(More(max, 0), Tail(x)[..k]).More? { StillOpen(More(max, 0), Tail(x), k); }
  }

  lemma Pow2Zero()
    ensures Pow2(0) == 1
  {
  }

  lemma FirstByte(index: nat, max: nat, mask: nat)
    requires IsPrefix(max, mask)
    ensures PrefixOf(Encode(index, max, mask)[0], max) == if index < max then index else max
  {
    hide Tail;
    MaskedOff(if index < max then index else max, max, mask);
  }

  lemma MaskedOff(v: nat, max: nat, mask: nat)
    requires IsPrefix(max, mask) && v <= max
    ensures PrefixOf(v + mask, max) == v
  {
    if max == 0x0F {
      Low16(v, mask);
    } else if max == 0x1F {
      Low32(v, mask);
    } else if max == 0x3F {
      Low64(v, mask);
    } else {
      Low128(v, mask);
    }
  }

  lemma Low16(v: nat, m: nat)
    requires v < 16 && m % 16 == 0
    ensures (v + m) % 16 == v
  {
  }

  lemma Low32(v: nat, m: nat)
    requires v < 32 && m % 32 == 0
    ensures (v + m) % 32 == v
  {
  }

  lemma Low64(v: nat, m: nat)
    requires v < 64 && m % 64 == 0
    ensures (v + m) % 64 == v
  {
  }

  lemma Low128(v: nat, m: nat)
    requires v < 128 && m % 128 == 0
    ensures (v + m) % 128 == v
  {
  }
}
