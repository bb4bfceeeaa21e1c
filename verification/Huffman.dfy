/** The table-driven Huffman decoder and what makes its tables right.

    A table holds 128 states reached by seven bits, or 8 states reached by three bits.  A
    state is a symbol with the number of bits it really took, or the number of the next
    table.  In tables of eight, four is added to the bit count beforehand. */
module Huffman {
  import opened Bits

  const NBITS := 7
  const MBITS := 3
  const SMALL := 640

  datatype Tables = Tables(encode: seq<nat>, length: seq<nat>, shift: seq<int>, offset: seq<int>)

  function Width(off: nat): nat {
    if off < SMALL then NBITS else MBITS
  }

  predicate IsTable(t: Tables, off: nat) {
    if off < SMALL then off % 128 == 0 else off % 8 == 0 && off + 8 <= |t.shift|
  }

  /** The forms the states of a table can take. */
  predicate StateOk(t: Tables, k: nat)
    requires |t.shift| == |t.offset| && k < |t.shift|
  {
    if k < SMALL then
      1 <= t.shift[k] <= NBITS || (t.shift[k] == -NBITS && t.offset[k] >= 0 && IsTable(t, t.offset[k]))
    else
      1 <= t.shift[k] - (NBITS - MBITS) <= MBITS || t.shift[k] < 0
  }

  predicate Shape(t: Tables) {
    && |t.encode| == |t.length| == 256 && |t.shift| == |t.offset| && |t.shift| >= SMALL
    && (forall s :: 0 <= s < 256 ==> 1 <= t.length[s] <= 32 && t.encode[s] < Pow2(t.length[s]))
    && (forall k :: 0 <= k < |t.shift| ==> StateOk(t, k))
  }

  function Code(t: Tables, s: Byte): seq<bool>
    requires Shape(t)
  {
    BitsOf(t.encode[s], t.length[s])
  }

  function Codes(t: Tables, str: seq<Byte>): seq<bool>
    requires Shape(t)
  {
    if str == [] then [] else Code(t, str[0]) + Codes(t, str[1..])
  }

  // ---------------------------------------------------------------- the automaton

  /** Decoding context: `curr` is the number of bits at hand less the width of the table. */
  datatype Context = Context(curr: int, hctx: nat, offset: nat, out: seq<Byte>)

  datatype Outcome = Next(c: Context) | Bad

  function Avail(c: Context): int {
    c.curr + Width(c.offset)
  }

  predicate ContextOk(t: Tables, c: Context) {
    0 <= Avail(c) < 16 && c.hctx < 0x1_0000 && IsTable(t, c.offset)
  }

  /** The bits read but not used yet. */
  function Pending(c: Context): seq<bool>
    requires Avail(c) >= 0
  {
    BitsOf(c.hctx, Avail(c))
  }

  const START := Context(-NBITS, 0, 0, [])

  /** Take in the next byte. */
  function Load(c: Context, b: Byte): Context {
    c.(curr := c.curr + 8, hctx := (c.hctx * 256 + b) % 0x1_0000)
  }

  /** More input is wanted before the next state is looked up. */
  predicate Hungry(c: Context) {
    if c.offset < SMALL then c.curr <= 0 else c.curr < 0
  }

  function Symbol(offset: int): Byte {
    offset % 256
  }

  /** The state reached with index `i`. */
  function Step(t: Tables, c: Context, i: nat): Outcome
    requires Shape(t) && IsTable(t, c.offset) && i < Pow2(Width(c.offset)) && c.offset + i < |t.shift|
  {
    var sh, o := t.shift[c.offset + i], t.offset[c.offset + i];
    assert StateOk(t, c.offset + i);
    Widths();
    if sh > 0 then Next(Context(c.curr - sh, c.hctx, 0, c.out + [Symbol(o)]))
    else if c.offset >= SMALL || o == 0 then Bad
    else if o >= SMALL then Next(Context(c.curr + sh + (NBITS - MBITS), c.hctx, o, c.out))
    else Next(Context(c.curr + sh, c.hctx, o, c.out))
  }

  function Peek(c: Context): nat
    requires c.curr >= 0
  {
    c.hctx / Pow2(c.curr) % Pow2(Width(c.offset))
  }

  lemma PeekIndex(t: Tables, c: Context)
    requires Shape(t) && ContextOk(t, c) && c.curr >= 0
    ensures Peek(c) < Pow2(Width(c.offset)) && c.offset + Peek(c) < |t.shift|
  {
    Widths();
  }

  lemma Widths()
    ensures Pow2(NBITS) == 128 && Pow2(MBITS) == 8
  {
    Pow2Seven(0);
  }

  lemma StepOk(t: Tables, c: Context, i: nat)
    requires Shape(t) && IsTable(t, c.offset) && i < Pow2(Width(c.offset)) && c.offset + i < |t.shift|
    requires ContextOk(t, c) && c.curr >= 0 && Step(t, c, i).Next?
    ensures ContextOk(t, Step(t, c, i).c) && Avail(Step(t, c, i).c) < Avail(c)
  {
    assert StateOk(t, c.offset + i);
    Widths();
  }

  /** Go on as far as the bits at hand allow. */
  function Settle(t: Tables, c: Context): (r: Outcome)
    requires Shape(t) && ContextOk(t, c)
    ensures r.Next? ==> ContextOk(t, r.c) && Hungry(r.c)
    decreases Avail(c)
  {
    if Hungry(c) then Next(c)
    else
      PeekIndex(t, c);
      match Step(t, c, Peek(c))
      case Bad => Bad
      case Next(d) => StepOk(t, c, Peek(c)); Settle(t, d)
  }

  lemma LoadOk(t: Tables, c: Context, b: Byte)
    requires ContextOk(t, c) && Hungry(c)
    ensures ContextOk(t, Load(c, b))
  {
  }

  /** The whole automaton: every byte is taken in and used up in turn. */
  function Feed(t: Tables, o: Outcome, src: seq<Byte>): (r: Outcome)
    requires Shape(t) && (o.Next? ==> ContextOk(t, o.c) && Hungry(o.c))
    ensures r.Next? ==> ContextOk(t, r.c) && Hungry(r.c)
    decreases src
  {
    if src == [] || o.Bad? then o
    else
      LoadOk(t, o.c, src[0]);
      Feed(t, Settle(t, Load(o.c, src[0])), src[1..])
  }

  lemma {:induction false} FeedConcat(t: Tables, o: Outcome, a: seq<Byte>, b: seq<Byte>)
    requires Shape(t) && (o.Next? ==> ContextOk(t, o.c) && Hungry(o.c))
    ensures Feed(t, o, a + b) == Feed(t, Feed(t, o, a), b)
    decreases a
  {
    if a == [] || o.Bad? {
      assert a == [] ==> a + b == b;
    } else {
      LoadOk(t, o.c, a[0]);
      assert (a + b)[1..] == a[1..] + b;
      FeedConcat(t, Settle(t, Load(o.c, a[0])), a[1..], b);
    }
  }

  datatype Decoded = Text(out: seq<Byte>) | Malformed

  /** Index made of the last bits, filled up with zeros. */
  function PeekTail(c: Context): nat
    requires c.curr <= 0
  {
    c.hctx * Pow2(-c.curr) % Pow2(Width(c.offset))
  }

  /** At the end of the string: finish symbols, then accept one-bits of padding. */
  function Finish(t: Tables, c: Context): Decoded
    requires Shape(t) && ContextOk(t, c) && c.offset < SMALL && c.curr <= 0
    decreases Avail(c)
  {
    if c.curr == -NBITS then if c.offset == 0 then Text(c.out) else Malformed
    else
      Widths();
      var i := PeekTail(c);
      var sh := t.shift[c.offset + i];
      assert StateOk(t, c.offset + i);
      if 0 < sh <= c.curr + NBITS then Finish(t, Context(c.curr - sh, c.hctx, 0, c.out + [Symbol(t.offset[c.offset + i])]))
      else if c.offset == 0 && 127 - i < Pow2(-c.curr) then Text(c.out)
      else Malformed
  }

  function FinishSmall(t: Tables, c: Context): Decoded
    requires Shape(t) && ContextOk(t, c) && c.offset >= SMALL && c.curr <= 0
  {
    if c.curr == -MBITS then Malformed
    else
      Widths();
      var i := PeekTail(c);
      var sh := t.shift[c.offset + i];
      assert StateOk(t, c.offset + i);
      if 0 < sh <= c.curr + NBITS then Finish(t, Context(c.curr - sh, c.hctx, 0, c.out + [Symbol(t.offset[c.offset + i])]))
      else Malformed
  }

  function Ending(t: Tables, o: Outcome): Decoded
    requires Shape(t) && (o.Next? ==> ContextOk(t, o.c) && Hungry(o.c))
  {
    match o
    case Bad => Malformed
    case Next(c) => if c.offset < SMALL then Finish(t, c) else FinishSmall(t, c)
  }

  // ---------------------------------------------------------------- bits at hand

  lemma {:induction false} LoadBits(t: Tables, c: Context, b: Byte)
    requires ContextOk(t, c) && Hungry(c)
    ensures Avail(Load(c, b)) == Avail(c) + 8 && Pending(Load(c, b)) == Pending(c) + BitsOf(b, 8)
  {
    hide BitsOf, IsTable;
    assert Pow2(8) == 256 && Pow2(16) == 0x1_0000 by { Pow2Add(8, 8); EightBits(); }
    BitsJoin(c.hctx, Avail(c), b, 8);
    BitsMod(c.hctx * 256 + b, Avail(c) + 8, 16);
  }

  lemma EightBits()
    ensures Pow2(8) == 256
  {
    Pow2Seven(1);
  }

  /** The index is made of the first bits at hand. */
  lemma PeekBits(t: Tables, c: Context)
    requires ContextOk(t, c) && c.curr >= 0
    ensures BitsOf(Peek(c), Width(c.offset)) == Pending(c)[..Width(c.offset)]
  {
    hide BitsOf, Pow2, IsTable;
    var w := Width(c.offset);
    BitsHigh(c.hctx, Avail(c), w);
    BitsMod(c.hctx / Pow2(c.curr), w, w);
  }

  /** The last bits, filled up with zeros. */
  lemma TailBits(t: Tables, c: Context, k: nat)
    requires ContextOk(t, c) && c.curr <= 0 && k <= Avail(c)
    ensures BitsOf(PeekTail(c), Width(c.offset))[..k] == Pending(c)[..k]
  {
    hide BitsOf, Pow2, IsTable;
    var w, z := Width(c.offset), -c.curr;
    BitsMod(c.hctx * Pow2(z), w, w);
    BitsJoin(c.hctx, Avail(c), 0, z);
  }

  lemma DropBits(c: Context, d: Context, k: nat)
    requires 0 <= Avail(d) == Avail(c) - k && d.hctx == c.hctx
    ensures Pending(d) == Pending(c)[k..]
  {
    BitsLow(c.hctx, Avail(c), k);
  }

  /** Two numbers whose codes begin alike agree in those bits. */
  lemma {:induction false} SameHigh(i: nat, n: nat, e: nat, k: nat)
    requires k <= n && i < Pow2(n) && BitsOf(i, n)[..k] == BitsOf(e, k)
    ensures i / Pow2(n - k) == e % Pow2(k)
  {
    hide BitsOf, Pow2;
    BitsHigh(i, n, k);
    BitsMod(e, k, k);
    QuotientBound(i, n, k);
    BitsInjective(i / Pow2(n - k), e % Pow2(k), k);
  }

  lemma QuotientBound(i: nat, n: nat, k: nat)
    requires k <= n && i < Pow2(n)
    ensures i / Pow2(n - k) < Pow2(k)
  {
    hide Pow2;
    Pow2Add(k, n - k);
    var p, q := Pow2(n - k), i / Pow2(n - k);
    assert i == q * p + i % p;
    if q >= Pow2(k) { Grows(Pow2(k), q, p); }
  }

  lemma Grows(a: nat, b: nat, p: nat)
    requires a <= b
    ensures a * p <= b * p
  {
  }

  // ---------------------------------------------------------------- tables that follow the codes

  /** From table `off` the last `rem` bits of the code of `s` lead to `s`. */
  ghost predicate Trace(t: Tables, s: Byte, off: nat, rem: nat)
    requires Shape(t)
    decreases rem
  {
    && IsTable(t, off) && 1 <= rem
    && var w, r := Width(off), t.encode[s] % Pow2(rem);
       if rem <= w then TraceEnd(t, s, off, rem)
       else
         && off < SMALL && Jumps(t, off, r / Pow2(rem - NBITS))
         && Trace(t, s, t.offset[off + r / Pow2(rem - NBITS)], rem - NBITS)
  }

  ghost predicate TraceEnd(t: Tables, s: Byte, off: nat, rem: nat)
    requires Shape(t) && rem <= Width(off)
  {
    var w, r := Width(off), t.encode[s] % Pow2(rem);
    forall i :: 0 <= i < Pow2(w) && i / Pow2(w - rem) == r ==> Yields(t, off, i, s, rem)
  }

  predicate Yields(t: Tables, off: nat, i: nat, s: Byte, rem: nat)
    requires Shape(t)
  {
    && off + i < |t.shift| && Symbol(t.offset[off + i]) == s
    && t.shift[off + i] == rem + (NBITS - Width(off))
  }

  predicate Jumps(t: Tables, off: nat, i: nat)
    requires Shape(t)
  {
    off + i < |t.shift| && i < 128 && t.shift[off + i] == -NBITS && t.offset[off + i] > 0
  }

  /** Up to seven one-bits are never a whole symbol. */
  predicate PaddingFree(t: Tables)
    requires Shape(t)
  {
    forall n :: 1 <= n <= NBITS ==> PadState(t, n)
  }

  predicate PadState(t: Tables, n: nat)
    requires Shape(t) && 1 <= n <= NBITS
  {
    Widths();
    Pow2Grows(NBITS - n, NBITS);
    t.shift[128 - Pow2(NBITS - n)] < 0 || t.shift[128 - Pow2(NBITS - n)] > n
  }

  ghost predicate Complete(t: Tables) {
    && Shape(t) && PaddingFree(t)
    && forall s: Byte :: Trace(t, s, 0, t.length[s])
  }

  // ---------------------------------------------------------------- decoding what was encoded

  /** What is left of the string: the rest of the current code, later codes, padding. */
  function Rest(t: Tables, str: seq<Byte>, j: nat, rem: nat, pad: nat): seq<bool>
    requires Shape(t) && j <= |str|
  {
    if j == |str| then Ones(pad)
    else BitsOf(t.encode[str[j]], rem) + (Codes(t, str[j + 1..]) + Ones(pad))
  }

  /** The context is on its way: `str[..j]` is out, `rem` bits of the next code are ahead. */
  ghost predicate OnTrack(t: Tables, c: Context, ahead: seq<bool>, str: seq<Byte>, j: nat, rem: nat, pad: nat)
    requires Shape(t) && ContextOk(t, c)
  {
    && j <= |str| && pad <= NBITS && c.out == str[..j]
    && Pending(c) + ahead == Rest(t, str, j, rem, pad)
    && (if j == |str| then c.offset == 0 else Trace(t, str[j], c.offset, rem))
  }

  lemma {:induction false} RestNext(t: Tables, str: seq<Byte>, j: nat, pad: nat)
    requires Shape(t) && j <= |str|
    ensures Codes(t, str[j..]) + Ones(pad) == Rest(t, str, j, if j < |str| then t.length[str[j]] else 0, pad)
  {
    if j < |str| {
      assert str[j..][1..] == str[j + 1..];
      assert Code(t, str[j]) + Codes(t, str[j + 1..]) + Ones(pad) == Code(t, str[j]) + (Codes(t, str[j + 1..]) + Ones(pad));
    }
  }

  /** A complete symbol. */
  lemma TrackSymbol(t: Tables, c: Context, ahead: seq<bool>, str: seq<Byte>, j: nat, rem: nat, pad: nat, d: Context)
    requires Complete(t) && ContextOk(t, c) && OnTrack(t, c, ahead, str, j, rem, pad) && j < |str|
    requires rem <= Avail(c) && ContextOk(t, d)
    requires d == Context(Avail(c) - rem - NBITS, c.hctx, 0, c.out + [str[j]])
    ensures OnTrack(t, d, ahead, str, j + 1, if j + 1 < |str| then t.length[str[j + 1]] else 0, pad)
  {
    hide BitsOf, Pow2, Codes, StateOk, Trace, IsTable;
    DropBits(c, d, rem);
    RestNext(t, str, j + 1, pad);
    var code, tail := BitsOf(t.encode[str[j]], rem), Codes(t, str[j + 1..]) + Ones(pad);
    Advance(Pending(c), ahead, code, tail, rem);
    assert code[rem..] + tail == tail;
    assert str[..j + 1] == str[..j] + [str[j]];
    if j + 1 < |str| { assert Trace(t, str[j + 1], 0, t.length[str[j + 1]]); }
  }

  /** The first bits at hand are those of the current code. */
  lemma {:induction false} WindowCode(t: Tables, c: Context, ahead: seq<bool>, str: seq<Byte>, j: nat, rem: nat, pad: nat, n: nat)
    requires Shape(t) && ContextOk(t, c) && OnTrack(t, c, ahead, str, j, rem, pad) && j < |str|
    requires n <= rem && n <= Avail(c)
    ensures Pending(c)[..n] == BitsOf(t.encode[str[j]], rem)[..n]
  {
    hide BitsOf, Pow2, Codes, StateOk, Trace, IsTable;
    assert Pending(c)[..n] == (Pending(c) + ahead)[..n];
  }

  lemma {:induction false} JumpIndex(i: nat, e: nat, rem: nat)
    requires rem > NBITS && i < Pow2(NBITS) && BitsOf(i, NBITS) == BitsOf(e, rem)[..NBITS]
    ensures i == e % Pow2(rem) / Pow2(rem - NBITS)
  {
    hide BitsOf, Pow2;
    var r := e % Pow2(rem);
    BitsMod(e, rem, rem);
    BitsHigh(r, rem, NBITS);
    QuotientBound(r, rem, NBITS);
    BitsInjective(i, r / Pow2(rem - NBITS), NBITS);
  }

  lemma {:induction false} TrackJump(t: Tables, c: Context, ahead: seq<bool>, str: seq<Byte>, j: nat, rem: nat, pad: nat, d: Context)
    requires Complete(t) && ContextOk(t, c) && OnTrack(t, c, ahead, str, j, rem, pad) && j < |str|
    requires NBITS < rem && NBITS <= Avail(c) && ContextOk(t, d) && d.hctx == c.hctx && d.out == c.out
    requires Avail(d) == Avail(c) - NBITS && Trace(t, str[j], d.offset, rem - NBITS)
    ensures OnTrack(t, d, ahead, str, j, rem - NBITS, pad)
  {
    hide BitsOf, Pow2, Codes, StateOk, Trace, IsTable;
    DropBits(c, d, NBITS);
    BitsLow(t.encode[str[j]], rem, NBITS);
    Advance(Pending(c), ahead, BitsOf(t.encode[str[j]], rem), Codes(t, str[j + 1..]) + Ones(pad), NBITS);
  }

  lemma Advance(p: seq<bool>, ahead: seq<bool>, b: seq<bool>, tail: seq<bool>, n: nat)
    requires p + ahead == b + tail && n <= |p| && n <= |b|
    ensures p[n..] + ahead == b[n..] + tail
  {
    assert p[n..] + ahead == (p + ahead)[n..] && b[n..] + tail == (b + tail)[n..];
  }

  lemma TrackStep(t: Tables, c: Context, ahead: seq<bool>, str: seq<Byte>, j: nat, rem: nat, pad: nat) returns (j': nat, rem': nat)
    requires Complete(t) && ContextOk(t, c) && OnTrack(t, c, ahead, str, j, rem, pad) && !Hungry(c)
    ensures Peek(c) < Pow2(Width(c.offset)) && c.offset + Peek(c) < |t.shift| && Step(t, c, Peek(c)).Next?
    ensures ContextOk(t, Step(t, c, Peek(c)).c) && OnTrack(t, Step(t, c, Peek(c)).c, ahead, str, j', rem', pad)
  {
    hide BitsOf, Pow2, Codes, StateOk, OnTrack, IsTable;
    TrackOpen(t, c, ahead, str, j, rem, pad);
    PeekIndex(t, c);
    PeekBits(t, c);
    var w, i, e := Width(c.offset), Peek(c), t.encode[str[j]];
    if rem <= w {
      WindowCode(t, c, ahead, str, j, rem, pad, rem);
      assert BitsOf(i, w)[..rem] == Pending(c)[..rem] == BitsOf(e, rem)[..rem] == BitsOf(e, rem);
      SameHigh(i, w, e, rem);
      assert Yields(t, c.offset, i, str[j], rem);
      StepOk(t, c, i);
      TrackSymbol(t, c, ahead, str, j, rem, pad, Step(t, c, i).c);
      j', rem' := j + 1, if j + 1 < |str| then t.length[str[j + 1]] else 0;
    } else {
      WindowCode(t, c, ahead, str, j, rem, pad, w);
      JumpIndex(i, e, rem);
      StepOk(t, c, i);
      TrackJump(t, c, ahead, str, j, rem, pad, Step(t, c, i).c);
      j', rem' := j, rem - NBITS;
    }
  }

  lemma {:induction false} TrackOpen(t: Tables, c: Context, ahead: seq<bool>, str: seq<Byte>, j: nat, rem: nat, pad: nat)
    requires Shape(t) && ContextOk(t, c) && OnTrack(t, c, ahead, str, j, rem, pad) && !Hungry(c)
    ensures j < |str| && c.out == str[..j] && Trace(t, str[j], c.offset, rem)
  {
    assert |Pending(c) + ahead| >= Avail(c) && |Ones(pad)| <= NBITS;
  }

  lemma {:induction false} TrackSettle(t: Tables, c: Context, ahead: seq<bool>, str: seq<Byte>, j: nat, rem: nat, pad: nat) returns (j': nat, rem': nat)
    requires Complete(t) && ContextOk(t, c) && OnTrack(t, c, ahead, str, j, rem, pad)
    ensures Settle(t, c).Next? && OnTrack(t, Settle(t, c).c, ahead, str, j', rem', pad)
    decreases Avail(c)
  {
    hide BitsOf, Pow2, Codes, StateOk, OnTrack, Trace, PaddingFree;
    if Hungry(c) {
      j', rem' := j, rem;
    } else {
      j', rem' := TrackStep(t, c, ahead, str, j, rem, pad);
      StepOk(t, c, Peek(c));
      j', rem' := TrackSettle(t, Step(t, c, Peek(c)).c, ahead, str, j', rem', pad);
    }
  }

  lemma {:induction false} TrackFeed(t: Tables, c: Context, src: seq<Byte>, str: seq<Byte>, j: nat, rem: nat, pad: nat) returns (j': nat, rem': nat)
    requires Complete(t) && ContextOk(t, c) && Hungry(c) && OnTrack(t, c, Stream(src), str, j, rem, pad)
    ensures Feed(t, Next(c), src).Next? && OnTrack(t, Feed(t, Next(c), src).c, [], str, j', rem', pad)
    decreases src
  {
    hide BitsOf, Pow2, Codes, StateOk, Trace, PaddingFree;
    if src == [] {
      j', rem' := j, rem;
    } else {
      var d, ahead := Load(c, src[0]), Stream(src[1..]);
      LoadOk(t, c, src[0]);
      LoadBits(t, c, src[0]);
      assert Pending(d) + ahead == Pending(c) + Stream(src);
      assert OnTrack(t, d, ahead, str, j, rem, pad);
      j', rem' := TrackSettle(t, d, ahead, str, j, rem, pad);
      j', rem' := TrackFeed(t, Settle(t, d).c, src[1..], str, j', rem', pad);
    }
  }

  lemma {:induction false} PadIndex(t: Tables, c: Context, n: nat)
    requires ContextOk(t, c) && c.offset < SMALL && 1 <= n == Avail(c) <= NBITS && Pending(c) == Ones(n)
    ensures PeekTail(c) == 128 - Pow2(NBITS - n)
  {
    hide BitsOf, Pow2, IsTable;
    var z, i := NBITS - n, PeekTail(c);
    Widths();
    Pow2Add(n, z);
    var v := (Pow2(n) - 1) * Pow2(z);
    assert v == 128 - Pow2(z) by { MinusOne(Pow2(n), Pow2(z)); }
    BitsMod(c.hctx * Pow2(z), NBITS, NBITS);
    BitsJoin(c.hctx, n, 0, z);
    BitsOnes(n);
    BitsJoin(Pow2(n) - 1, n, 0, z);
    BitsInjective(i, v, NBITS);
  }

  lemma MinusOne(a: nat, b: nat)
    requires a > 0
    ensures (a - 1) * b == a * b - b
  {
  }

  lemma {:induction false} TrackPadding(t: Tables, c: Context, str: seq<Byte>, rem: nat, pad: nat)
    requires Complete(t) && ContextOk(t, c) && c.curr <= 0 && OnTrack(t, c, [], str, |str|, rem, pad)
    ensures c.offset < SMALL && Finish(t, c) == Text(str)
  {
    hide BitsOf, Pow2, Codes, StateOk, Trace;
    assert Pending(c) + [] == Pending(c) && str[..|str|] == str;
    if pad > 0 {
      PadIndex(t, c, pad);
      assert PadState(t, pad);
    }
  }

  /** The next code is whole among the last bits. */
  lemma LastCode(t: Tables, c: Context, str: seq<Byte>, j: nat, rem: nat, pad: nat)
    requires Complete(t) && ContextOk(t, c) && c.curr <= 0 && OnTrack(t, c, [], str, j, rem, pad) && j < |str|
    ensures 1 <= rem <= Avail(c) && PeekTail(c) < Pow2(Width(c.offset)) && Yields(t, c.offset, PeekTail(c), str[j], rem)
  {
    hide BitsOf, Pow2, Codes, StateOk, PaddingFree, IsTable;
    var w, i, e := Width(c.offset), PeekTail(c), t.encode[str[j]];
    assert Pending(c) + [] == Pending(c);
    WindowCode(t, c, [], str, j, rem, pad, rem);
    TailBits(t, c, rem);
    SameHigh(i, w, e, rem);
  }

  lemma {:induction false} TrackFinish(t: Tables, c: Context, str: seq<Byte>, j: nat, rem: nat, pad: nat)
    requires Complete(t) && ContextOk(t, c) && c.curr <= 0 && j <= |str| && OnTrack(t, c, [], str, j, rem, pad)
    ensures Hungry(c) ==> Ending(t, Next(c)) == Text(str)
    ensures c.offset < SMALL ==> Finish(t, c) == Text(str)
    decreases Avail(c)
  {
    hide BitsOf, Pow2, Codes, StateOk, PaddingFree, OnTrack, Trace;
    if j == |str| {
      TrackPadding(t, c, str, rem, pad);
    } else {
      LastCode(t, c, str, j, rem, pad);
      var d := Context(Avail(c) - rem - NBITS, c.hctx, 0, c.out + [str[j]]);
      TrackSymbol(t, c, [], str, j, rem, pad, d);
      TrackFinish(t, d, str, j + 1, if j + 1 < |str| then t.length[str[j + 1]] else 0, pad);
    }
  }

  /** Every string is decoded from its codes with up to seven one-bits of padding. */
  lemma {:induction false} DecodesCodes(t: Tables, src: seq<Byte>, str: seq<Byte>, pad: nat)
    requires Complete(t) && pad <= NBITS && Stream(src) == Codes(t, str) + Ones(pad)
    ensures Ending(t, Feed(t, Next(START), src)) == Text(str)
  {
    hide BitsOf, Pow2, StateOk, PaddingFree, Trace;
    var rem := if str != [] then t.length[str[0]] else 0;
    RestNext(t, str, 0, pad);
    assert str[0..] == str && Pending(START) == [];
    assert Pending(START) + Stream(src) == Stream(src);
    assert str != [] ==> Trace(t, str[0], 0, rem);
    assert OnTrack(t, START, Stream(src), str, 0, rem, pad);
    var j', rem' := TrackFeed(t, START, src, str, 0, rem, pad);
    var d := Feed(t, Next(START), src).c;
    assert Hungry(d);
    TrackFinish(t, d, str, j', rem', pad);
  }

  // ---------------------------------------------------------------- nothing else is accepted

  /** Each table is reached by the bits `paths` gives, and its states keep to the codes. */
  ghost predicate Sound(t: Tables, paths: map<nat, seq<bool>>) {
    && Shape(t) && 0 in paths && paths[0] == []
    && forall off, i :: off in paths && 0 <= i < Pow2(Width(off)) ==> SoundState(t, paths, off, i)
  }

  ghost predicate SoundState(t: Tables, paths: map<nat, seq<bool>>, off: nat, i: nat)
    requires Shape(t) && off in paths
  {
    && IsTable(t, off) && off + i < |t.shift|
    && var sh, o, w := t.shift[off + i], t.offset[off + i], Width(off);
       && (0 < sh <= NBITS && NBITS - w <= sh ==> Code(t, Symbol(o)) == paths[off] + BitsOf(i, w)[..sh - (NBITS - w)])
       && (sh < 0 && off < SMALL && o > 0 ==> o in paths && paths[o] == paths[off] + BitsOf(i, w))
       && (sh < 0 && (off >= SMALL || o == 0) ==>
           0 <= -sh - (NBITS - w) <= w && EOS == paths[off] + BitsOf(i, w)[..-sh - (NBITS - w)])
  }

  /** The code of the end of a string, which never occurs in one. */
  const EOS := Ones(30)

  /** All bits taken in so far: codes of what is out, the way to the current table, unused bits. */
  ghost predicate Explained(t: Tables, paths: map<nat, seq<bool>>, c: Context, all: seq<bool>)
    requires Shape(t)
  {
    && ContextOk(t, c) && c.offset in paths
    && all == Codes(t, c.out) + (paths[c.offset] + Pending(c))
  }

  lemma {:induction false} CodesAppend(t: Tables, a: seq<Byte>, s: Byte)
    requires Shape(t)
    ensures Codes(t, a + [s]) == Codes(t, a) + Code(t, s)
    decreases a
  {
    if a == [] {
      assert [s][1..] == [] && a + [s] == [s];
    } else {
      assert (a + [s])[1..] == a[1..] + [s];
      CodesAppend(t, a[1..], s);
      assert Code(t, a[0]) + (Codes(t, a[1..]) + Code(t, s)) == (Code(t, a[0]) + Codes(t, a[1..])) + Code(t, s);
    }
  }

  lemma ExplainedSymbol(t: Tables, paths: map<nat, seq<bool>>, c: Context, all: seq<bool>, k: nat, s: Byte, d: Context)
    requires Sound(t, paths) && Explained(t, paths, c, all) && k <= Avail(c)
    requires Code(t, s) == paths[c.offset] + Pending(c)[..k] && ContextOk(t, d)
    requires d == Context(Avail(c) - k - NBITS, c.hctx, 0, c.out + [s])
    ensures Explained(t, paths, d, all)
  {
    hide BitsOf, Pow2, StateOk, IsTable, SoundState, Code;
    CodesAppend(t, c.out, s);
    DropBits(c, d, k);
    var a, p, q := Codes(t, c.out), paths[c.offset], Pending(c);
    assert a + (p + q) == (a + (p + q[..k])) + ([] + q[k..]);
  }

  lemma LargeIndex(t: Tables, off: nat, i: nat)
    requires IsTable(t, off) && i < Pow2(Width(off))
    ensures off + i < SMALL <==> off < SMALL
  {
    Widths();
  }

  lemma ExplainedStep(t: Tables, paths: map<nat, seq<bool>>, c: Context, all: seq<bool>)
    requires Sound(t, paths) && Explained(t, paths, c, all) && c.curr >= 0
    requires Peek(c) < Pow2(Width(c.offset)) && c.offset + Peek(c) < |t.shift| && Step(t, c, Peek(c)).Next?
    ensures Explained(t, paths, Step(t, c, Peek(c)).c, all)
  {
    hide BitsOf, Pow2, IsTable, Code, Codes;
    var w, i, d := Width(c.offset), Peek(c), Step(t, c, Peek(c)).c;
    var sh := t.shift[c.offset + i];
    assert SoundState(t, paths, c.offset, i);
    assert StateOk(t, c.offset + i);
    LargeIndex(t, c.offset, i);
    StepOk(t, c, i);
    PeekBits(t, c);
    if sh > 0 {
      var k := sh - (NBITS - w);
      assert BitsOf(i, w)[..k] == Pending(c)[..k];
      ExplainedSymbol(t, paths, c, all, k, Symbol(t.offset[c.offset + i]), d);
    } else {
      DropBits(c, d, NBITS);
      var a, p, q := Codes(t, c.out), paths[c.offset], Pending(c);
      assert a + (p + q) == a + ((p + q[..NBITS]) + q[NBITS..]);
    }
  }

  lemma {:induction false} ExplainedSettle(t: Tables, paths: map<nat, seq<bool>>, c: Context, all: seq<bool>)
    requires Sound(t, paths) && Explained(t, paths, c, all) && Settle(t, c).Next?
    ensures Explained(t, paths, Settle(t, c).c, all)
    decreases Avail(c)
  {
    hide BitsOf, Pow2, StateOk, SoundState, Codes;
    if !Hungry(c) {
      PeekIndex(t, c);
      StepOk(t, c, Peek(c));
      ExplainedStep(t, paths, c, all);
      ExplainedSettle(t, paths, Step(t, c, Peek(c)).c, all);
    }
  }

  lemma {:induction false} ExplainedFeed(t: Tables, paths: map<nat, seq<bool>>, c: Context, all: seq<bool>, src: seq<Byte>)
    requires Sound(t, paths) && Explained(t, paths, c, all) && Hungry(c) && Feed(t, Next(c), src).Next?
    ensures Explained(t, paths, Feed(t, Next(c), src).c, all + Stream(src))
    decreases src
  {
    hide BitsOf, Pow2, StateOk, SoundState, Codes;
    if src == [] {
      assert all + [] == all;
    } else {
      var d, b := Load(c, src[0]), BitsOf(src[0], 8);
      LoadOk(t, c, src[0]);
      LoadBits(t, c, src[0]);
      var a, p, q := Codes(t, c.out), paths[c.offset], Pending(c);
      assert (a + (p + q)) + b == a + (p + (q + b));
      assert Explained(t, paths, d, all + b);
      ExplainedSettle(t, paths, d, all + b);
      ExplainedFeed(t, paths, Settle(t, d).c, all + b, src[1..]);
      assert (all + b) + Stream(src[1..]) == all + (b + Stream(src[1..]));
    }
  }

  ghost predicate Padded(t: Tables, all: seq<bool>, out: seq<Byte>)
    requires Shape(t)
  {
    exists pad :: 0 <= pad <= NBITS && all == Codes(t, out) + Ones(pad)
  }

  /** The padding test holds exactly if the last bits are ones. */
  lemma PadTest(t: Tables, c: Context)
    requires ContextOk(t, c) && c.offset < SMALL && 1 <= Avail(c) <= NBITS
    ensures 127 - PeekTail(c) < Pow2(-c.curr) ==> Pending(c) == Ones(Avail(c))
  {
    hide BitsOf, Pow2, IsTable;
    var n, z, i := Avail(c), -c.curr, PeekTail(c);
    Widths();
    TailBits(t, c, n);
    BitsHigh(i, NBITS, n);
    assert Pending(c)[..n] == Pending(c);
    if 127 - i < Pow2(z) {
      Pow2Add(n, z);
      MinusOne(Pow2(n), Pow2(z));
      DivUnique(i, Pow2(z), Pow2(n) - 1, i - (128 - Pow2(z)));
      BitsOnes(n);
    }
  }

  lemma TailSymbol(t: Tables, paths: map<nat, seq<bool>>, c: Context, all: seq<bool>)
    requires Sound(t, paths) && Explained(t, paths, c, all) && c.curr <= 0 && Avail(c) != 0
    requires PeekTail(c) < Pow2(Width(c.offset)) && c.offset + PeekTail(c) < |t.shift|
    requires 0 < t.shift[c.offset + PeekTail(c)] <= c.curr + NBITS
    ensures var i := c.offset + PeekTail(c);
      Explained(t, paths, Context(c.curr - t.shift[i], c.hctx, 0, c.out + [Symbol(t.offset[i])]), all)
  {
    hide BitsOf, Pow2, IsTable, Code, Codes;
    var w, i := Width(c.offset), PeekTail(c);
    var sh := t.shift[c.offset + i];
    assert SoundState(t, paths, c.offset, i);
    assert StateOk(t, c.offset + i);
    LargeIndex(t, c.offset, i);
    var k := sh - (NBITS - w);
    TailBits(t, c, k);
    var d := Context(c.curr - sh, c.hctx, 0, c.out + [Symbol(t.offset[c.offset + i])]);
    assert ContextOk(t, d) by { assert IsTable(t, 0) by { RootTable(t); } }
    ExplainedSymbol(t, paths, c, all, k, Symbol(t.offset[c.offset + i]), d);
  }

  lemma RootTable(t: Tables)
    ensures IsTable(t, 0)
  {
  }

  lemma {:induction false} ExplainedFinish(t: Tables, paths: map<nat, seq<bool>>, c: Context, all: seq<bool>)
    requires Sound(t, paths) && Explained(t, paths, c, all) && c.offset < SMALL && c.curr <= 0 && Finish(t, c).Text?
    ensures Padded(t, all, Finish(t, c).out)
    decreases Avail(c)
  {
    hide BitsOf, Pow2, Codes, SoundState;
    var a, q := Codes(t, c.out), Pending(c);
    if c.curr == -NBITS {
      assert a + ([] + q) == a + Ones(0);
    } else {
      Widths();
      var i := PeekTail(c);
      var sh := t.shift[c.offset + i];
      assert StateOk(t, c.offset + i);
      if 0 < sh <= c.curr + NBITS {
        TailSymbol(t, paths, c, all);
        ExplainedFinish(t, paths, Context(c.curr - sh, c.hctx, 0, c.out + [Symbol(t.offset[c.offset + i])]), all);
      } else {
        PadTest(t, c);
        assert a + ([] + q) == a + Ones(Avail(c));
      }
    }
  }

  /** What is accepted is the codes of the result and up to seven one-bits. */
  lemma {:induction false} DecodesOnlyCodes(t: Tables, paths: map<nat, seq<bool>>, src: seq<Byte>)
    requires Sound(t, paths) && Ending(t, Feed(t, Next(START), src)).Text?
    ensures Padded(t, Stream(src), Ending(t, Feed(t, Next(START), src)).out)
  {
    hide BitsOf, Pow2, SoundState, StateOk;
    assert Pending(START) == [] && Codes(t, []) == [];
    var none: seq<bool> := [];
    assert none + (none + none) == none && none + Stream(src) == Stream(src);
    assert Explained(t, paths, START, none);
    ExplainedFeed(t, paths, START, none, src);
    var c := Feed(t, Next(START), src).c;
    if c.offset < SMALL {
      ExplainedFinish(t, paths, c, Stream(src));
    } else {
      Widths();
      TailSymbol(t, paths, c, Stream(src));
      var i := c.offset + PeekTail(c);
      ExplainedFinish(t, paths, Context(c.curr - t.shift[i], c.hctx, 0, c.out + [Symbol(t.offset[i])]), Stream(src));
    }
  }

  // ---------------------------------------------------------------- sound tables for a prefix code are complete

  ghost predicate PrefixFree(t: Tables)
    requires Shape(t)
  {
    && (forall s: Byte, u: Byte :: Code(t, s) <= Code(t, u) ==> s == u)
    && (forall s: Byte :: !(Code(t, s) <= EOS) && !(EOS <= Code(t, s)))
  }

  /** Every table begins with a symbol. */
  ghost predicate Inhabited(t: Tables, paths: map<nat, seq<bool>>)
    requires Shape(t)
  {
    forall off :: off in paths ==> IsTable(t, off) && t.shift[off] > 0
  }

  ghost predicate Right(t: Tables, paths: map<nat, seq<bool>>) {
    Sound(t, paths) && PrefixFree(t) && Inhabited(t, paths)
  }

  lemma PrefixEqual(a: seq<bool>, b: seq<bool>, c: seq<bool>)
    requires a <= c && b <= c
    ensures a <= b || b <= a
  {
    if |a| <= |b| { assert a == c[..|a|] == b[..|a|]; } else { assert b == c[..|b|] == a[..|b|]; }
  }

  /** A table is never reached by a whole code. */
  lemma PathOpen(t: Tables, paths: map<nat, seq<bool>>, off: nat, s: Byte)
    requires Right(t, paths) && off in paths
    ensures !(Code(t, s) <= paths[off])
  {
    hide BitsOf, Pow2, Code;
    Widths();
    assert SoundState(t, paths, off, 0);
    assert StateOk(t, off);
    LargeIndex(t, off, 0);
    var u := Symbol(t.offset[off]);
    assert paths[off] <= Code(t, u) && |paths[off]| < |Code(t, u)|;
    if Code(t, s) <= paths[off] { PrefixTransitive(Code(t, s), paths[off], Code(t, u)); }
  }

  lemma PrefixTransitive(a: seq<bool>, b: seq<bool>, c: seq<bool>)
    requires a <= b && b <= c
    ensures a <= c
  {
  }

  ghost predicate Comparable(a: seq<bool>, b: seq<bool>) {
    a <= b || b <= a
  }

  lemma NotEos(t: Tables, paths: map<nat, seq<bool>>, s: Byte, e: seq<bool>)
    requires Right(t, paths) && Comparable(Code(t, s), e)
    ensures !(EOS <= e)
  {
    hide Code, SoundState, StateOk;
    if EOS <= e && Code(t, s) <= e { PrefixEqual(Code(t, s), EOS, e); }
    if EOS <= e && e <= Code(t, s) { PrefixTransitive(EOS, e, Code(t, s)); }
  }

  lemma OnlySymbol(t: Tables, paths: map<nat, seq<bool>>, s: Byte, u: Byte, e: seq<bool>)
    requires Right(t, paths) && Comparable(Code(t, s), e) && Code(t, u) <= e
    ensures u == s
  {
    hide Code, SoundState, StateOk;
    if Code(t, s) <= e {
      PrefixEqual(Code(t, s), Code(t, u), e);
    } else {
      PrefixTransitive(Code(t, u), e, Code(t, s));
    }
  }

  /** Under an index that agrees with the code of `s` lies `s` itself or the next table towards it. */
  lemma {:induction false} StateFor(t: Tables, paths: map<nat, seq<bool>>, s: Byte, off: nat, i: nat)
    requires Right(t, paths) && off in paths && i < Pow2(Width(off))
    requires Comparable(Code(t, s), paths[off] + BitsOf(i, Width(off)))
    ensures IsTable(t, off) && off + i < |t.shift|
    ensures var sh, o, w := t.shift[off + i], t.offset[off + i], Width(off);
      || (sh > 0 && Symbol(o) == s && |Code(t, s)| == |paths[off]| + sh - (NBITS - w))
      || (off < SMALL && sh == -NBITS && o > 0 && o in paths && paths[o] == paths[off] + BitsOf(i, w) && paths[o] < Code(t, s))
  {
    hide BitsOf, Pow2, Code;
    var sh, o, w := t.shift[off + i], t.offset[off + i], Width(off);
    var e := paths[off] + BitsOf(i, w);
    assert SoundState(t, paths, off, i);
    assert StateOk(t, off + i);
    LargeIndex(t, off, i);
    NotEos(t, paths, s, e);
    if sh > 0 {
      OnlySymbol(t, paths, s, Symbol(o), e);
    } else if off < SMALL && o > 0 {
      PathOpen(t, paths, o, s);
    }
  }

  /** The rest of a code after the way to a table. */
  lemma {:induction false} CodeRest(t: Tables, p: seq<bool>, s: Byte)
    requires Shape(t) && p <= Code(t, s)
    ensures Code(t, s) == p + BitsOf(t.encode[s], |Code(t, s)| - |p|)
  {
    hide BitsOf, Pow2, StateOk;
    BitsLow(t.encode[s], t.length[s], |p|);
    assert Code(t, s) == Code(t, s)[..|p|] + Code(t, s)[|p|..];
  }

  lemma LeafTrace(t: Tables, paths: map<nat, seq<bool>>, s: Byte, off: nat, rem: nat, i: nat)
    requires Right(t, paths) && off in paths && paths[off] < Code(t, s) && rem == |Code(t, s)| - |paths[off]| <= Width(off)
    requires i < Pow2(Width(off)) && i / Pow2(Width(off) - rem) == t.encode[s] % Pow2(rem)
    ensures Yields(t, off, i, s, rem)
  {
    hide BitsOf, Pow2, StateOk, Code, SoundState;
    var w, p := Width(off), paths[off];
    CodeRest(t, p, s);
    BitsHigh(i, w, rem);
    BitsMod(t.encode[s], rem, rem);
    assert p + BitsOf(i, w)[..rem] <= p + BitsOf(i, w);
    StateFor(t, paths, s, off, i);
  }

  /** The index a longer code leads to holds the jump to the table further along it. */
  lemma {:induction false} JumpTrace(t: Tables, paths: map<nat, seq<bool>>, s: Byte, off: nat, rem: nat) returns (i: nat)
    requires Right(t, paths) && off in paths && paths[off] < Code(t, s) && rem == |Code(t, s)| - |paths[off]| > Width(off)
    ensures off < SMALL && i == t.encode[s] % Pow2(rem) / Pow2(rem - NBITS) && Jumps(t, off, i) && off + i < |t.shift|
    ensures var o := t.offset[off + i]; o > 0 && o in paths && paths[o] < Code(t, s) && |paths[o]| == |paths[off]| + NBITS
  {
    hide BitsOf, Pow2, StateOk, Code, SoundState, PrefixFree;
    var w, p, e := Width(off), paths[off], t.encode[s];
    var r := e % Pow2(rem);
    i := r / Pow2(rem - w);
    QuotientBound(r, rem, w);
    CodeRest(t, p, s);
    BitsMod(e, rem, rem);
    BitsHigh(r, rem, w);
    assert p + BitsOf(i, w) <= Code(t, s);
    StateFor(t, paths, s, off, i);
    StateShift(t, off, i);
    Widths();
  }

  lemma {:induction false} TraceHolds(t: Tables, paths: map<nat, seq<bool>>, s: Byte, off: nat)
    requires Right(t, paths) && off in paths && paths[off] < Code(t, s)
    ensures Trace(t, s, off, |Code(t, s)| - |paths[off]|)
    decreases |Code(t, s)| - |paths[off]|
  {
    hide BitsOf, Pow2, StateOk, Code, SoundState, PrefixFree, Yields, Jumps;
    var w, rem := Width(off), |Code(t, s)| - |paths[off]|;
    if rem <= w {
      forall i | 0 <= i < Pow2(w) && i / Pow2(w - rem) == t.encode[s] % Pow2(rem) ensures Yields(t, off, i, s, rem) {
        LeafTrace(t, paths, s, off, rem, i);
      }
    } else {
      var i := JumpTrace(t, paths, s, off, rem);
      TraceHolds(t, paths, s, t.offset[off + i]);
    }
  }

  lemma StateShift(t: Tables, off: nat, i: nat)
    requires Shape(t) && IsTable(t, off) && i < Pow2(Width(off)) && off + i < |t.shift|
    ensures t.shift[off + i] - (NBITS - Width(off)) <= Width(off)
  {
    assert StateOk(t, off + i);
    LargeIndex(t, off, i);
  }

  lemma {:induction false} PadBits(n: nat)
    requires 1 <= n <= NBITS
    ensures 0 <= 128 - Pow2(NBITS - n) < 128 && BitsOf(128 - Pow2(NBITS - n), NBITS)[..n] == Ones(n)
  {
    hide BitsOf, Pow2;
    var i, z := 128 - Pow2(NBITS - n), NBITS - n;
    Widths();
    Pow2Grows(z, NBITS);
    Pow2Add(n, z);
    MinusOne(Pow2(n), Pow2(z));
    BitsJoin(Pow2(n) - 1, n, 0, z);
    BitsOnes(n);
  }

  lemma NoOnes(t: Tables, u: Byte, k: nat)
    requires Shape(t) && PrefixFree(t) && k <= 30
    ensures Code(t, u) != Ones(k)
  {
    hide Code, StateOk;
    assert Ones(k) <= EOS;
  }

  lemma NoZero(t: Tables, k: nat)
    requires Shape(t) && k < SMALL
    ensures t.shift[k] != 0
  {
    assert StateOk(t, k);
  }

  lemma {:induction false} OnesSymbol(t: Tables, paths: map<nat, seq<bool>>, n: nat, i: nat)
    requires Sound(t, paths) && n <= NBITS && i < 128 && BitsOf(i, NBITS)[..n] == Ones(n)
    ensures 0 < t.shift[i] <= n ==> Code(t, Symbol(t.offset[i])) == Ones(t.shift[i])
  {
    hide BitsOf, Pow2, Code, StateOk;
    Widths();
    assert SoundState(t, paths, 0, i);
    var sh, b := t.shift[i], BitsOf(i, NBITS);
    if 0 < sh <= n {
      assert b[..sh] == b[..n][..sh] == Ones(sh);
      assert paths[0] + b[..sh] == b[..sh];
    }
  }

  lemma PadHolds(t: Tables, paths: map<nat, seq<bool>>, n: nat)
    requires Right(t, paths) && 1 <= n <= NBITS
    ensures PadState(t, n)
  {
    hide BitsOf, Pow2, Code, StateOk;
    Widths();
    PadBits(n);
    var i := 128 - Pow2(NBITS - n);
    NoZero(t, i);
    OnesSymbol(t, paths, n, i);
    if 0 < t.shift[i] <= n { NoOnes(t, Symbol(t.offset[i]), t.shift[i]); }
  }

  /** Tables that are sound for a prefix code decode every symbol from its own code. */
  lemma RightComplete(t: Tables, paths: map<nat, seq<bool>>)
    requires Right(t, paths)
    ensures Complete(t)
  {
    hide BitsOf, Pow2, StateOk, SoundState, Trace, PadState;
    forall n | 1 <= n <= NBITS ensures PadState(t, n) { PadHolds(t, paths, n); }
    forall s: Byte ensures Trace(t, s, 0, t.length[s]) {
      assert |Code(t, s)| == t.length[s] && paths[0] < Code(t, s);
      TraceHolds(t, paths, s, 0);
    }
  }

  /** The decoder accepts exactly the padded encodings, and yields exactly what was encoded. */
  lemma {:induction false} DecodingExact(t: Tables, paths: map<nat, seq<bool>>, src: seq<Byte>, str: seq<Byte>)
    requires Right(t, paths)
    ensures Ending(t, Feed(t, Next(START), src)) == Text(str) <==> Padded(t, Stream(src), str)
  {
    hide Feed, Ending, Stream, Codes, Trace, SoundState, StateOk, PrefixFree, Inhabited;
    RightComplete(t, paths);
    if Padded(t, Stream(src), str) {
      var pad :| 0 <= pad <= NBITS && Stream(src) == Codes(t, str) + Ones(pad);
      DecodesCodes(t, src, str, pad);
    } else if Ending(t, Feed(t, Next(START), src)) == Text(str) {
      DecodesOnlyCodes(t, paths, src);
    }
  }
}
