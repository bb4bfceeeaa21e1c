/** Huffman coding of header strings: the resumable decoder and the word-wise encoder. */
module HuffmanCodec {
  import opened Common
  import opened Bits
  import opened Huffman
  import opened HuffmanTables
  import opened HuffmanProof

  datatype Status = Ok | Postpone | Compression

  /** The part of the HPACK context that outlives a fragment. */
  class Decoder {
    var curr: int
    var hctx: nat
    var offset: nat
    var length: nat      // bytes of the string still to come
    var out: seq<Byte>   // what was written to the header buffer

    constructor (len: nat)
      ensures length == len && Now() == START
    {
      curr, hctx, offset, length, out := -NBITS, 0, 0, len, [];
    }

    function Now(): Context
      reads this
    {
      Context(curr, hctx, offset, out)
    }

    method SetNext(b: Byte)
      requires length > 0
      modifies this
      ensures Now() == Load(old(Now()), b) && length == old(length) - 1
    {
      curr := curr + 8;
      hctx := (hctx * 256 + b) % 0x1_0000;
      length := length - 1;
    }

    /** Look up the next state and follow it. */
    method Follow(t: Tables) returns (ok: bool)
      requires Shape(t) && ContextOk(t, Now()) && !Hungry(Now())
      requires Peek(Now()) < Pow2(Width(offset)) && offset + Peek(Now()) < |t.shift|
      modifies this
      ensures length == old(length)
      ensures match Step(t, old(Now()), Peek(old(Now()))) case Bad => !ok case Next(c) => ok && Now() == c
    {
      hide Pow2;
      var i := hctx / Pow2(curr) % Pow2(Width(offset));
      var shift, o := t.shift[offset + i], t.offset[offset + i];
      assert StateOk(t, offset + i);
      LargeIndex(t, offset, i);
      ok := true;
      if shift > 0 {
        out := out + [Symbol(o)];
        curr := curr - shift;
        offset := 0;
      } else if offset >= SMALL || o == 0 {
        ok := false;
      } else {
        curr := curr + shift;
        offset := o;
        if offset >= SMALL {
          curr := curr + (NBITS - MBITS);
        }
      }
    }

    /** Decode one fragment.  It ends in the same state as the automaton that is fed the bytes one
        by one; after the last byte of the string the tail is decided too. */
    method Decode(t: Tables, src: seq<Byte>) returns (r: Status)
      requires Shape(t) && ContextOk(t, Now()) && Hungry(Now()) && |src| <= length
      modifies this
      ensures src == [] ==> r == Ok && Now() == old(Now()) && length == old(length)
      ensures src != [] ==> Answers(t, Feed(t, Next(old(Now())), src), old(length) - |src|, r, length, Now())
    {
      if src == [] {
        return Ok;
      }
      hide Settle, Pow2, StateOk, Finish, FinishSmall, Feed, IsTable, Step, Load, Peek;
      var pos := 1;
      ghost var whole := Feed(t, Next(Now()), src);
      FeedUnfold(t, Now(), src);
      SetNext(src[0]);
      while true
        invariant 1 <= pos <= |src| && length == old(length) - pos
        invariant ContextOk(t, Now()) && Feed(t, Settle(t, Now()), src[pos..]) == whole
        decreases |src| - pos, Avail(Now())
      {
        SettleUnfold(t, Now());
        if (if offset < SMALL then curr <= 0 else curr < 0) {
          FeedUnfold(t, Now(), src[pos..]);
          if pos < |src| {
            assert src[pos..][1..] == src[pos + 1..];
            SetNext(src[pos]);
            pos := pos + 1;
          } else if length > 0 {
            return Postpone;
          } else if offset < SMALL {
            r := DecodeTail(t);
            return;
          } else {
            r := DecodeTailSmall(t);
            return;
          }
        } else {
          FeedBad(t, src[pos..]);
          var ok := Follow(t);
          if !ok {
            return Compression;
          }
        }
      }
    }

    /** Finish the symbols in the last bits, then look at the padding. */
    method DecodeTail(t: Tables) returns (r: Status)
      requires Shape(t) && ContextOk(t, Now()) && offset < SMALL && curr <= 0
      modifies this
      ensures length == old(length)
      ensures match Finish(t, old(Now())) case Text(s) => r == Ok && out == s case Malformed => r == Compression
    {
      hide StateOk;
      while true
        invariant ContextOk(t, Now()) && offset < SMALL && curr <= 0 && length == old(length)
        invariant Finish(t, Now()) == Finish(t, old(Now()))
        decreases Avail(Now())
      {
        if curr == -NBITS {
          return if offset == 0 then Ok else Compression;
        }
        Widths();
        var i := hctx * Pow2(-curr) % Pow2(NBITS);
        var shift := t.shift[offset + i];
        assert StateOk(t, offset + i);
        if 0 < shift <= curr + NBITS {
          out := out + [Symbol(t.offset[offset + i])];
          curr := curr - shift;
          offset := 0;
        } else if offset == 0 && 127 - i < Pow2(-curr) {
          return Ok;
        } else {
          return Compression;
        }
      }
    }

    method DecodeTailSmall(t: Tables) returns (r: Status)
      requires Shape(t) && ContextOk(t, Now()) && offset >= SMALL && curr <= 0
      modifies this
      ensures length == old(length)
      ensures match FinishSmall(t, old(Now())) case Text(s) => r == Ok && out == s case Malformed => r == Compression
    {
      hide Finish;
      if curr == -MBITS {
        return Compression;
      }
      Widths();
      var i := hctx * Pow2(-curr) % Pow2(MBITS);
      var shift := t.shift[offset + i];
      assert StateOk(t, offset + i);
      if 0 < shift <= curr + NBITS {
        out := out + [Symbol(t.offset[offset + i])];
        curr := curr - shift;
        offset := 0;
        r := DecodeTail(t);
      } else {
        r := Compression;
      }
    }
  }

  /** How the decoder reports the outcome of the automaton, with `left` bytes still to come. */
  predicate Answers(t: Tables, o: Outcome, left: int, r: Status, length: nat, now: Context)
    requires Shape(t) && (o.Next? ==> ContextOk(t, o.c) && Hungry(o.c))
  {
    match o
    case Bad => r == Compression
    case Next(c) =>
      && length == left
      && if left > 0 then r == Postpone && now == c
         else match Ending(t, o)
              case Text(s) => r == Ok && now.out == s
              case Malformed => r == Compression
  }

  lemma {:induction false} FeedUnfold(t: Tables, c: Context, src: seq<Byte>)
    requires Shape(t) && ContextOk(t, c) && Hungry(c)
    ensures src == [] ==> Feed(t, Next(c), src) == Next(c)
    ensures src != [] ==> ContextOk(t, Load(c, src[0]))
    ensures src != [] ==> Feed(t, Next(c), src) == Feed(t, Settle(t, Load(c, src[0])), src[1..])
  {
    if src != [] { LoadOk(t, c, src[0]); }
  }

  lemma {:induction false} FeedBad(t: Tables, src: seq<Byte>)
    requires Shape(t)
    ensures Feed(t, Bad, src) == Bad
  {
  }

  lemma {:induction false} SettleUnfold(t: Tables, c: Context)
    requires Shape(t) && ContextOk(t, c)
    ensures Hungry(c) ==> Settle(t, c) == Next(c)
    ensures !Hungry(c) ==> Peek(c) < Pow2(Width(c.offset)) && c.offset + Peek(c) < |t.shift|
    ensures !Hungry(c) ==>
      match Step(t, c, Peek(c))
      case Bad => Settle(t, c) == Bad
      case Next(d) => ContextOk(t, d) && Avail(d) < Avail(c) && Settle(t, c) == Settle(t, d)
  {
    if !Hungry(c) {
      PeekIndex(t, c);
      if Step(t, c, Peek(c)).Next? { StepOk(t, c, Peek(c)); }
    }
  }

  /** A string cut into fragments in any way is decoded as if it came in one piece. */
  method DecodeFragments(t: Tables, frags: seq<seq<Byte>>) returns (r: Status, out: seq<Byte>)
    requires Shape(t) && frags != [] && forall i :: 0 <= i < |frags| ==> frags[i] != []
    ensures match Ending(t, Feed(t, Next(START), Flatten(frags)))
            case Text(s) => r == Ok && out == s
            case Malformed => r == Compression
  {
    hide Feed, Finish, FinishSmall, IsTable, StateOk;
    var dec := new Decoder(|Flatten(frags)|);
    StartOk(t);
    ghost var whole := Feed(t, Next(START), Flatten(frags));
    var i := 0;
    while true
      invariant i < |frags| && dec.length == |Flatten(frags[i..])| && fresh(dec)
      invariant ContextOk(t, dec.Now()) && Hungry(dec.Now()) && Feed(t, Next(dec.Now()), Flatten(frags[i..])) == whole
      decreases |frags| - i
    {
      var rest := frags[i + 1..];
      assert frags[i..][1..] == rest;
      FeedConcat(t, Next(dec.Now()), frags[i], Flatten(rest));
      FeedBad(t, Flatten(rest));
      ghost var o := Feed(t, Next(dec.Now()), frags[i]);
      r := dec.Decode(t, frags[i]);
      if r != Postpone {
        FlattenNone(rest);
        if o.Next? { FeedUnfold(t, o.c, []); }
        return r, dec.out;
      }
      FlattenNone(rest);
      i := i + 1;
    }
  }

  lemma StartOk(t: Tables)
    ensures ContextOk(t, START) && Hungry(START)
  {
  }

  lemma {:induction false} FlattenNone(frags: seq<seq<Byte>>)
    requires forall i :: 0 <= i < |frags| ==> frags[i] != []
    ensures Flatten(frags) == [] <==> frags == []
  {
  }

  // ---------------------------------------------------------------- encoding

  function BigEndian(v: nat, n: nat): (r: seq<Byte>)
    ensures |r| == n
  {
    if n == 0 then [] else BigEndian(v / 256, n - 1) + [v % 256]
  }

  lemma {:induction false} BigEndianBits(v: nat, n: nat)
    ensures Stream(BigEndian(v, n)) == BitsOf(v, 8 * n)
  {
    if n > 0 {
      var b: Byte := v % 256;
      BigEndianBits(v / 256, n - 1);
      StreamConcat(BigEndian(v / 256, n - 1), [b]);
      assert Stream([b]) == BitsOf(b, 8) by { assert [b][1..] == []; assert BitsOf(b, 8) + [] == BitsOf(b, 8); }
      hide BitsOf, Pow2;
      EightBits();
      BitsJoin(v / 256, 8 * (n - 1), b, 8);
    }
  }

  /** A number whose bytes lie in memory as `b`, lowest first. */
  function LittleEndian(b: seq<Byte>): nat {
    if b == [] then 0 else b[0] + 256 * LittleEndian(b[1..])
  }

  /** cpu_to_be64 */
  function Swap64(v: nat): nat {
    LittleEndian(BigEndian(v, 8))
  }

  /** `a << len | b` in 64 bits, for `b` of at most `len` bits. */
  function Join(a: nat, len: nat, b: nat): nat {
    (a * Pow2(len) + b) % Pow2(64)
  }

  lemma JoinBits(a: nat, n: nat, b: nat, m: nat)
    requires b < Pow2(m) && n + m <= 64
    ensures BitsOf(Join(a, m, b), n + m) == BitsOf(a, n) + BitsOf(b, m)
  {
    hide BitsOf, Pow2;
    BitsMod(a * Pow2(m) + b, n + m, 64);
    BitsJoin(a, n, b, m);
  }

  class Encoder {
    const dst: array<Byte>
    var pos: nat        // bytes written
    var lastWord: nat   // its low `off` bits wait to be written
    var off: nat

    constructor (buf: array<Byte>)
      ensures dst == buf && pos == 0 && lastWord == 0 && off == 0
    {
      dst, pos, lastWord, off := buf, 0, 0, 0;
    }

    ghost predicate Valid()
      reads this
    {
      pos <= dst.Length && off <= 64
    }

    /** All bits handed over so far. */
    ghost function Written(): seq<bool>
      requires Valid()
      reads this, dst
    {
      Stream(dst[..pos]) + BitsOf(lastWord, off)
    }

    /** Store the low `n` bytes of `w`; what is left of it is returned. */
    method Store(w: nat, n: nat, ghost b: seq<Byte>) returns (w': nat)
      requires pos + n <= dst.Length && n <= |b| && w == LittleEndian(b)
      modifies this`pos, dst
      ensures pos == old(pos) + n && dst[..pos] == old(dst[..pos]) + b[..n] && w' == LittleEndian(b[n..])
    {
      w' := w;
      for k := 0 to n
        invariant pos == old(pos) + k && dst[..pos] == old(dst[..pos]) + b[..k] && w' == LittleEndian(b[k..])
      {
        assert b[k..][1..] == b[k + 1..];
        dst[pos] := w' % 256;
        w' := w' / 256;
        pos := pos + 1;
        assert b[..k + 1] == b[..k] + [b[k]];
      }
    }

    /** Append the code of one symbol. */
    method Put(t: Tables, s: Byte)
      requires Shape(t) && Valid() && 8 * pos + off + t.length[s] <= 8 * dst.Length
      modifies this, dst
      ensures Valid() && Written() == old(Written()) + Code(t, s)
    {
      hide BitsOf, Pow2, StateOk, Stream;
      ghost var done, bits := Stream(dst[..pos]), BitsOf(lastWord, off);
      var d, e, l := 64 - off, t.encode[s], t.length[s];
      off := off + l;
      if l <= d {
        JoinBits(lastWord, 64 - d, e, l);
        lastWord := Join(lastWord, l, e);
        assert (done + bits) + Code(t, s) == done + (bits + Code(t, s));
      } else {
        off := off - 64;
        SplitCode(lastWord, 64 - d, e, l, d, off, e / Pow2(off));
        lastWord := Join(lastWord, d, e / Pow2(off));
        ghost var w := BitsOf(lastWord, 64);
        // the buffer has room for a whole word, so the byte-wise way out is never taken
        assert dst.Length - pos >= 8;
        StoreWord();
        lastWord := e;
        assert (done + bits) + Code(t, s) == (done + w) + BitsOf(e, off) by {
          assert (done + bits) + Code(t, s) == done + (bits + Code(t, s));
          assert (done + w) + BitsOf(e, off) == done + (w + BitsOf(e, off));
        }
      }
    }

    /** Append the codes of a chunk. */
    method PutAll(t: Tables, c: seq<Byte>)
      requires Shape(t) && Valid() && |Written()| + |Codes(t, c)| <= 8 * dst.Length
      modifies this, dst
      ensures Valid() && Written() == old(Written()) + Codes(t, c)
    {
      hide BitsOf, Pow2, Shape, Stream, Codes, Code;
      ghost var front := Written();
      assert c[..0] == [] && front + Codes(t, c[..0]) == front by { NoCodes(t); }
      for i := 0 to |c|
        invariant Valid() && Written() == front + Codes(t, c[..i])
      {
        ChunkRoom(t, c, i);
        assert front + (Codes(t, c[..i]) + Code(t, c[i])) == (front + Codes(t, c[..i])) + Code(t, c[i]);
        Put(t, c[i]);
      }
      assert c[..|c|] == c;
    }

    /** Fill the last byte up with ones. */
    method PadByte()
      requires Valid() && off > 0
      modifies `lastWord, `off
      ensures off % 8 == 0 && old(off) <= off < old(off) + 8 && off <= 64
      ensures BitsOf(lastWord, off) == BitsOf(old(lastWord), old(off)) + Ones(off - old(off))
    {
      hide BitsOf, Pow2, Join;
      var tail := off % 8;
      if tail > 0 {
        PadJoin(lastWord, off, tail);
        lastWord := Join(lastWord, 8 - tail, 0xFF / Pow2(tail));
        off := off + (8 - tail);
      } else {
        assert BitsOf(lastWord, off) + Ones(0) == BitsOf(lastWord, off);
      }
    }

    /** Pad the last byte with ones and write out what is left. */
    method Flush()
      requires Valid() && (8 * pos + off + 7) / 8 == dst.Length
      modifies this, dst
      ensures Stream(dst[..]) == old(Written()) + Ones(8 * dst.Length - old(8 * pos + off))
    {
      hide BitsOf, Pow2, Stream, BigEndian, LittleEndian;
      ghost var done, bits := Stream(dst[..pos]), BitsOf(lastWord, off);
      ghost var pad := Ones(8 * dst.Length - (8 * pos + off));
      if off > 0 {
        PadByte();
        ghost var v, n := lastWord * Pow2(64 - off) % Pow2(64), off / 8;
        ShiftedUp(lastWord, off, n);
        StreamConcat(dst[..pos], BigEndian(v, 8)[..n]);
        lastWord := lastWord * Pow2(64 - off) % Pow2(64);
        lastWord := Swap64(lastWord);
        StoreRest(BigEndian(v, 8));
        assert Stream(dst[..pos]) == done + (bits + pad);
      } else {
        assert bits == [] && pad == [] && done + [] == done;
      }
      assert dst[..] == dst[..pos];
      assert (done + bits) + pad == done + (bits + pad);
    }

    /** The last word goes out in pieces of four, two and one bytes. */
    method StoreRest(ghost word: seq<Byte>)
      requires |word| == 8 && lastWord == LittleEndian(word) && 0 < off <= 64 && off % 8 == 0
      requires pos + off / 8 == dst.Length
      modifies this, dst
      ensures pos == dst.Length && dst[..pos] == old(dst[..pos]) + word[..old(off) / 8]
    {
      hide LittleEndian;
      ghost var start, k := dst[..pos], 0;
      assert word[0..] == word && start + word[..0] == start;
      if off == 64 {
        StorePart(8, word, k, start);
        return;
      }
      if off > 31 {
        StorePart(4, word, k, start);
        off, k := off - 32, 4;
      }
      if off > 15 {
        StorePart(2, word, k, start);
        off, k := off - 16, k + 2;
      }
      if off > 0 {
        StorePart(1, word, k, start);
      }
    }

    method StorePart(n: nat, ghost word: seq<Byte>, ghost k: nat, ghost start: seq<Byte>)
      requires k + n <= |word| && pos + n <= dst.Length && lastWord == LittleEndian(word[k..]) && dst[..pos] == start + word[..k]
      modifies `pos, `lastWord, dst
      ensures pos == old(pos) + n && lastWord == LittleEndian(word[k + n..]) && dst[..pos] == start + word[..k + n]
    {
      hide LittleEndian;
      lastWord := Store(lastWord, n, word[k..]);
      assert word[k..][n..] == word[k + n..] && word[..k] + word[k..][..n] == word[..k + n];
    }

    /** Write out a full word, highest byte first. */
    method StoreWord()
      requires pos + 8 <= dst.Length
      modifies this, dst
      ensures pos == old(pos) + 8 && off == old(off)
      ensures Stream(dst[..pos]) == old(Stream(dst[..pos])) + BitsOf(old(lastWord), 64)
    {
      hide BitsOf, Stream, BigEndian;
      ghost var word := BigEndian(lastWord, 8);
      BigEndianBits(lastWord, 8);
      StreamConcat(dst[..pos], word);
      lastWord := Swap64(lastWord);
      assert word[..8] == word;
      var rest := Store(lastWord, 8, word);
    }
  }

  /** A code cut at the end of a word. */
  lemma {:induction false} SplitCode(a: nat, n: nat, e: nat, l: nat, d: nat, o: nat, q: nat)
    requires n + d == 64 && d + o == l && e < Pow2(l) && q == e / Pow2(o)
    ensures BitsOf(Join(a, d, q), 64) + BitsOf(e, o) == BitsOf(a, n) + BitsOf(e, l)
  {
    hide BitsOf, Pow2, Join;
    QuotientBound(e, l, d);
    JoinBits(a, n, q, d);
    BitsHigh(e, l, d);
    BitsLow(e, l, d);
    var c := BitsOf(e, l);
    assert c == c[..d] + c[d..];
    assert (BitsOf(a, n) + c[..d]) + c[d..] == BitsOf(a, n) + (c[..d] + c[d..]);
  }

  lemma PadJoin(a: nat, off: nat, tail: nat)
    requires 0 < tail == off % 8 && off <= 64
    ensures BitsOf(Join(a, 8 - tail, 0xFF / Pow2(tail)), off + (8 - tail)) == BitsOf(a, off) + Ones(8 - tail)
  {
    hide BitsOf, Pow2, Join;
    var d := 8 - tail;
    EightBits();
    Pow2Add(d, tail);
    MinusOne(Pow2(d), Pow2(tail));
    DivUnique(0xFF, Pow2(tail), Pow2(d) - 1, Pow2(tail) - 1);
    BitsOnes(d);
    JoinBits(a, off, 0xFF / Pow2(tail), d);
  }

  /** The bits moved to the top of the word are its first bytes. */
  lemma {:induction false} ShiftedUp(a: nat, off: nat, n: nat)
    requires off <= 64 && off == 8 * n
    ensures Stream(BigEndian(a * Pow2(64 - off) % Pow2(64), 8)[..n]) == BitsOf(a, off)
  {
    hide BitsOf, Pow2;
    var v := a * Pow2(64 - off) % Pow2(64);
    BigEndianBits(v, 8);
    StreamPrefix(BigEndian(v, 8), n);
    BitsMod(a * Pow2(64 - off), 64, 64);
    BitsJoin(a, off, 0, 64 - off);
  }

  lemma {:induction false} StreamPrefix(s: seq<Byte>, n: nat)
    requires n <= |s|
    ensures Stream(s[..n]) == Stream(s)[..8 * n]
  {
    StreamConcat(s[..n], s[n..]);
    assert s == s[..n] + s[n..];
  }

  // ---------------------------------------------------------------- whole strings

  /** Bytes needed for the encoded form. */
  method EncodedLength(t: Tables, str: seq<seq<Byte>>) returns (len: nat)
    requires Shape(t)
    ensures len == (|Codes(t, Flatten(str))| + 7) / 8
  {
    hide StateOk;
    var n := 0;
    for k := 0 to |str|
      invariant n == |Codes(t, Flatten(str[..k]))|
    {
      FlattenUpTo(str, k);
      var c := str[k];
      assert Flatten(str[..k]) + c[..0] == Flatten(str[..k]);
      for i := 0 to |c|
        invariant n == |Codes(t, Flatten(str[..k]) + c[..i])|
      {
        assert c[..i + 1] == c[..i] + [c[i]];
        assert Flatten(str[..k]) + c[..i + 1] == (Flatten(str[..k]) + c[..i]) + [c[i]];
        CodesAppend(t, Flatten(str[..k]) + c[..i], c[i]);
        n := n + t.length[c[i]];
      }
      assert c[..|c|] == c;
    }
    assert str[..|str|] == str;
    len := (n + 7) / 8;
  }

  /** Encode a string into a buffer of exactly the length computed for it: its codes, then less
      than eight one-bits. */
  method EncodeCopy(t: Tables, str: seq<seq<Byte>>, dst: array<Byte>)
    requires Shape(t) && dst.Length == (|Codes(t, Flatten(str))| + 7) / 8
    modifies dst
    ensures Stream(dst[..]) == Codes(t, Flatten(str)) + Ones(8 * dst.Length - |Codes(t, Flatten(str))|)
  {
    hide Stream, BitsOf, Pow2, Codes, Shape;
    var enc := new Encoder(dst);
    assert enc.Written() == Codes(t, Flatten(str[..0])) by { EmptyBits(dst); NoCodes(t); }
    for k := 0 to |str|
      invariant fresh(enc) && enc.dst == dst && enc.Valid() && enc.Written() == Codes(t, Flatten(str[..k]))
    {
      FlattenUpTo(str, k);
      CodesConcat(t, Flatten(str[..k]), str[k]);
      Room(t, str, k);
      enc.PutAll(t, str[k]);
    }
    assert str[..|str|] == str;
    enc.Flush();
  }

  lemma {:induction false} NoCodes(t: Tables)
    requires Shape(t)
    ensures Codes(t, []) == []
  {
  }

  lemma EmptyBits(dst: array<Byte>)
    ensures Stream(dst[..0]) + BitsOf(0, 0) == []
  {
  }

  lemma {:induction false} CodesConcat(t: Tables, a: seq<Byte>, b: seq<Byte>)
    requires Shape(t)
    ensures Codes(t, a + b) == Codes(t, a) + Codes(t, b)
    decreases a
  {
    if a == [] {
      assert a + b == b;
    } else {
      assert (a + b)[1..] == a[1..] + b;
      CodesConcat(t, a[1..], b);
      assert Code(t, a[0]) + (Codes(t, a[1..]) + Codes(t, b)) == (Code(t, a[0]) + Codes(t, a[1..])) + Codes(t, b);
    }
  }

  /** The codes up to and with a chunk are no longer than all codes. */
  lemma {:induction false} Room(t: Tables, str: seq<seq<Byte>>, k: nat)
    requires Shape(t) && k < |str|
    ensures |Codes(t, Flatten(str[..k]))| + |Codes(t, str[k])| <= |Codes(t, Flatten(str))|
  {
    hide Shape, Codes;
    FlattenConcat(str[..k + 1], str[k + 1..]);
    assert str == str[..k + 1] + str[k + 1..];
    FlattenUpTo(str, k);
    CodesConcat(t, Flatten(str[..k]), str[k]);
    CodesConcat(t, Flatten(str[..k + 1]), Flatten(str[k + 1..]));
  }

  lemma {:induction false} ChunkRoom(t: Tables, c: seq<Byte>, i: nat)
    requires Shape(t) && i < |c|
    ensures |Codes(t, c[..i])| + t.length[c[i]] == |Codes(t, c[..i + 1])| <= |Codes(t, c)|
    ensures Codes(t, c[..i + 1]) == Codes(t, c[..i]) + Code(t, c[i])
  {
    hide Codes;
    assert c[..i + 1] == c[..i] + [c[i]] && c == c[..i + 1] + c[i + 1..];
    CodesAppend(t, c[..i], c[i]);
    CodesConcat(t, c[..i + 1], c[i + 1..]);
  }

  /** What the encoder writes is decoded to the original, however the bytes are cut up on the way. */
  method RoundTrip(str: seq<seq<Byte>>, cuts: seq<nat>) returns (r: Status, got: seq<Byte>)
    requires Flatten(str) != []
    ensures r == Ok && got == Flatten(str)
  {
    hide Complete, Right;
    TablesRight();
    RightComplete(HT, Paths());
    r, got := EncodeThenDecode(HT, str, cuts);
  }

  method EncodeThenDecode(t: Tables, str: seq<seq<Byte>>, cuts: seq<nat>) returns (r: Status, got: seq<Byte>)
    requires Complete(t) && Flatten(str) != []
    ensures r == Ok && got == Flatten(str)
  {
    hide Feed, Ending, StateOk, Trace, PaddingFree, BitsOf, Pow2, Stream, Flatten;
    var len := EncodedLength(t, str);
    var dst := new Byte[len];
    EncodeCopy(t, str, dst);
    var frags := Cut(dst[..], cuts);
    r, got := DecodeFragments(t, frags);
    DecodesCodes(t, dst[..], Flatten(str), 8 * dst.Length - |Codes(t, Flatten(str))|);
  }
}
