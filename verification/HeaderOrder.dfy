/** The order in which the HPACK encoder index keeps header fields.

    A field is a name and a value, both byte sequences.  The program compares a field
    that is still split into chunks with a stored one, four bytes at a time, as 32-bit
    integers.  `Rank` is the plain meaning of that comparison: name length, name with
    bit 0x20 set in every byte, value length, value. */
module HeaderOrder {
  import opened Common

  type Bytes = seq<int>

  datatype Field = Field(name: Bytes, value: Bytes)

  predicate IsBytes(s: Bytes) {
    forall i :: 0 <= i < |s| ==> 0 <= s[i] < 256
  }

  predicate SevenBit(s: Bytes) {
    forall i :: 0 <= i < |s| ==> 0 <= s[i] < 128
  }

  predicate SevenBitField(f: Field) {
    SevenBit(f.name) && SevenBit(f.value)
  }

  /** `b | 0x20` */
  function FoldByte(b: int): int {
    if b / 32 % 2 == 1 then b else b + 32
  }

  function Fold(s: Bytes): Bytes {
    seq(|s|, i requires 0 <= i < |s| => FoldByte(s[i]))
  }

  function NameRank(f: Field): seq<int> {
    [|f.name|] + Fold(f.name)
  }

  function Rank(f: Field): seq<int> {
    NameRank(f) + [|f.value|] + f.value
  }

  // ---------------------------------------------------------------- lexicographic order

  function Lex(a: seq<int>, b: seq<int>): int {
    if a == [] then if b == [] then 0 else -1
    else if b == [] then 1
    else if a[0] < b[0] then -1
    else if a[0] > b[0] then 1
    else Lex(a[1..], b[1..])
  }

  function Sign(x: int): int {
    if x < 0 then -1 else if x > 0 then 1 else 0
  }

  lemma {:induction false} LexZero(a: seq<int>, b: seq<int>)
    ensures Lex(a, b) == 0 <==> a == b
    decreases a
  {
    if a != [] && b != [] && a[0] == b[0] {
      LexZero(a[1..], b[1..]);
      assert a == [a[0]] + a[1..] && b == [b[0]] + b[1..];
    }
  }

  lemma {:induction false} LexFlip(a: seq<int>, b: seq<int>)
    ensures Lex(a, b) == -Lex(b, a)
    decreases a
  {
    if a != [] && b != [] { LexFlip(a[1..], b[1..]); }
  }

  lemma {:induction false} LexTransitive(a: seq<int>, b: seq<int>, c: seq<int>)
    requires Lex(a, b) < 0 && Lex(b, c) < 0
    ensures Lex(a, c) < 0
    decreases a
  {
    if a != [] && b != [] && c != [] && a[0] == b[0] == c[0] {
      LexTransitive(a[1..], b[1..], c[1..]);
    }
  }

  /** Equal prefixes do not matter. */
  lemma {:induction false} LexPrefix(p: seq<int>, a: seq<int>, b: seq<int>)
    ensures Lex(p + a, p + b) == Lex(a, b)
    decreases p
  {
    if p == [] {
      assert p + a == a && p + b == b;
    } else {
      assert (p + a)[1..] == p[1..] + a && (p + b)[1..] == p[1..] + b;
      LexPrefix(p[1..], a, b);
    }
  }

  /** Prefixes of equal length that differ decide the comparison. */
  lemma {:induction false} LexDecided(p: seq<int>, q: seq<int>, a: seq<int>, b: seq<int>)
    requires |p| == |q| && p != q
    ensures Lex(p + a, q + b) == Lex(p, q) != 0
    decreases p
  {
    LexZero(p, q);
    assert (p + a)[0] == p[0] && (q + b)[0] == q[0];
    if p[0] == q[0] {
      assert p == [p[0]] + p[1..] && q == [q[0]] + q[1..];
      assert (p + a)[1..] == p[1..] + a && (q + b)[1..] == q[1..] + b;
      LexDecided(p[1..], q[1..], a, b);
    }
  }

  /** Fields with different folded names are ordered by their names alone. */
  lemma NameDecides(f: Field, g: Field)
    requires NameRank(f) != NameRank(g)
    ensures Lex(Rank(f), Rank(g)) == Lex(NameRank(f), NameRank(g)) != 0
  {
    var a, b := [|f.value|] + f.value, [|g.value|] + g.value;
    assert Rank(f) == NameRank(f) + a && Rank(g) == NameRank(g) + b;
    if |f.name| == |g.name| {
      LexDecided(NameRank(f), NameRank(g), a, b);
    }
  }

  // ---------------------------------------------------------------- the chunked comparison

  function FlatLen(chunks: seq<Bytes>): nat {
    |Flatten(chunks)|
  }

  /** A value as it is kept in a 32-bit `int`. */
  function Wrap32(x: int): int {
    (x + 0x8000_0000) % 0x1_0000_0000 - 0x8000_0000
  }

  function Big(p: Bytes): int
    requires |p| == 4
  {
    p[0] * 0x100_0000 + p[1] * 0x1_0000 + p[2] * 0x100 + p[3]
  }

  /** Four bytes read as one `int`, the first byte on top; a plain `char` is unsigned, as in current kernel builds. */
  function IntLe(p: Bytes): int
    requires |p| == 4
  {
    Wrap32(Big(p))
  }

  lemma WrapDifference(x: int, y: int)
    requires 0 <= x < 0x1_0000_0000 && 0 <= y < 0x1_0000_0000
    ensures Wrap32(Wrap32(x) - Wrap32(y)) == Wrap32(x - y)
    ensures Wrap32(Wrap32(x) - Wrap32(y)) == 0 <==> x == y
    ensures Wrap32(x) == Wrap32(y) <==> x == y
  {
  }

  lemma SignExact(x: int, y: int)
    requires 0 <= x < 0x1_0000_0000 && 0 <= y < 0x1_0000_0000 && x != y
    ensures Sign(Wrap32(x - y)) == if -0x8000_0000 <= x - y < 0x8000_0000 then Sign(x - y) else -Sign(x - y)
  {
  }

  lemma {:induction false} BigOrder(p: Bytes, q: Bytes)
    requires |p| == |q| == 4 && IsBytes(p) && IsBytes(q)
    ensures 0 <= Big(p) < 0x1_0000_0000 && (SevenBit(p) ==> Big(p) < 0x8000_0000)
    ensures Sign(Big(p) - Big(q)) == Lex(p, q)
  {
    assert Lex(p[3..], q[3..]) == Sign(p[3] - q[3]) by { assert p[3..][1..] == [] == q[3..][1..]; }
    assert p[1..][1..] == p[2..] && q[1..][1..] == q[2..] && p[2..][1..] == p[3..] && q[2..][1..] == q[3..];
    assert Lex(p[2..], q[2..]) == if p[2] != q[2] then Sign(p[2] - q[2]) else Lex(p[3..], q[3..]);
    assert Lex(p[1..], q[1..]) == if p[1] != q[1] then Sign(p[1] - q[1]) else Lex(p[2..], q[2..]);
  }

  lemma {:induction false} LexAt(a: seq<int>, b: seq<int>, at: nat, n: nat)
    requires |a| == |b| && at + n <= |a| && a[..at] == b[..at] && a[at..at + n] != b[at..at + n]
    ensures Lex(a, b) == Lex(a[at..at + n], b[at..at + n]) && a != b
  {
    assert a == a[..at] + (a[at..at + n] + a[at + n..]) && b == b[..at] + (b[at..at + n] + b[at + n..]);
    LexPrefix(a[..at], a[at..at + n] + a[at + n..], b[at..at + n] + b[at + n..]);
    LexDecided(a[at..at + n], b[at..at + n], a[at + n..], b[at + n..]);
  }

  /** `res` is zero for equal strings only; otherwise it has the sign of their order if `fair`,
      and the opposite one if not. */
  predicate Tells(res: int, a: Bytes, b: Bytes, fair: bool) {
    && (res == 0 <==> a == b)
    && Sign(res) == if fair then Lex(a, b) else -Lex(a, b)
  }

  lemma TellsAt(res: int, a: Bytes, b: Bytes, at: nat, n: nat, fair: bool)
    requires |a| == |b| && at + n <= |a| && a[..at] == b[..at] && a[at..at + n] != b[at..at + n]
    requires Tells(res, a[at..at + n], b[at..at + n], fair)
    ensures Tells(res, a, b, fair)
  {
    hide Lex;
    LexAt(a, b, at, n);
  }

  lemma TellsEqual(a: Bytes, b: Bytes, fair: bool)
    requires a == b
    ensures Tells(0, a, b, fair)
  {
    LexZero(a, b);
  }

  /** The difference of two blocks does not overflow. */
  predicate FairBlock(p: Bytes, q: Bytes)
    requires |p| == |q| == 4
  {
    -0x8000_0000 <= Big(p) - Big(q) < 0x8000_0000
  }

  /** A block comparison tells equality, and has the right sign exactly when the difference does
      not overflow. */
  lemma {:induction false} BlockTells(x: Bytes, y: Bytes)
    requires |x| == |y| == 4 && IsBytes(x) && IsBytes(y) && x != y
    ensures var d := Wrap32(IntLe(x) - IntLe(y)); Tells(d, x, y, FairBlock(x, y)) && d != 0 && IntLe(x) != IntLe(y)
  {
    hide Lex, Wrap32, Big;
    LexZero(x, y);
    BigOrder(x, y);
    BigOrder(y, x);
    WrapDifference(Big(x), Big(y));
    SignExact(Big(x), Big(y));
  }

  function Folded(fold: bool, s: Bytes): Bytes {
    if fold then Fold(s) else s
  }

  function FoldIf(fold: bool, b: int): int {
    if fold then FoldByte(b) else b
  }

  /** The bytes of `c` and `s` agree, up to folding, below position `p`. */
  predicate Match(fold: bool, c: Bytes, s: Bytes, p: nat) {
    && p <= |c| == |s|
    && forall i :: 0 <= i < p ==> FoldIf(fold, c[i]) == FoldIf(fold, s[i])
  }

  lemma MatchAll(fold: bool, c: Bytes, s: Bytes, fair: bool)
    requires Match(fold, c, s, |c|)
    ensures Tells(0, Folded(fold, c), Folded(fold, s), fair)
  {
    hide Tells;
    assert Folded(fold, c) == Folded(fold, s);
    TellsEqual(Folded(fold, c), Folded(fold, s), fair);
  }

  /** The first block or byte that differs settles the comparison. */
  lemma MatchUpTo(fold: bool, c: Bytes, s: Bytes, p: nat, n: nat, res: int, fair: bool)
    requires Match(fold, c, s, p) && p + n <= |c|
    requires res != 0 && Tells(res, Folded(fold, c)[p..p + n], Folded(fold, s)[p..p + n], fair)
    ensures Tells(res, Folded(fold, c), Folded(fold, s), fair)
  {
    var a, b := Folded(fold, c), Folded(fold, s);
    assert a[..p] == b[..p];
    TellsAt(res, a, b, p, n, fair);
    hide Lex;
  }

  lemma FoldedSlice(fold: bool, s: Bytes, p: nat, n: nat)
    requires p + n <= |s|
    ensures |Folded(fold, s)| == |s| && Folded(fold, s)[p..p + n] == Folded(fold, s[p..p + n])
  {
  }

  lemma MatchMore(fold: bool, c: Bytes, s: Bytes, p: nat, n: nat)
    requires Match(fold, c, s, p) && p + n <= |c| && Folded(fold, c[p..p + n]) == Folded(fold, s[p..p + n])
    ensures Match(fold, c, s, p + n)
  {
    forall i | p <= i < p + n ensures FoldIf(fold, c[i]) == FoldIf(fold, s[i]) {
      assert Folded(fold, c[p..p + n])[i - p] == Folded(fold, s[p..p + n])[i - p];
    }
  }

  function Block(fold: bool, c: Bytes, p: nat): (r: Bytes)
    requires p + 4 <= |c| && IsBytes(c)
    ensures |r| == 4 && IsBytes(r) && |Folded(fold, c)| == |c| && r == Folded(fold, c)[p..p + 4]
  {
    [FoldIf(fold, c[p]), FoldIf(fold, c[p + 1]), FoldIf(fold, c[p + 2]), FoldIf(fold, c[p + 3])]
  }

  /** The first four-byte block that differs, if any, does not overflow. */
  predicate FairText(fold: bool, c: Bytes, s: Bytes)
    requires |c| == |s| && IsBytes(c) && IsBytes(s)
    decreases c
  {
    |c| >= 4 ==>
      var x, y := Block(fold, c, 0), Block(fold, s, 0);
      if x == y then FairText(fold, c[4..], s[4..]) else FairBlock(x, y)
  }

  lemma {:induction false} FairStep(fold: bool, c: Bytes, s: Bytes, p: nat)
    requires |c| == |s| && IsBytes(c) && IsBytes(s) && p + 4 <= |c|
    ensures var x, y := Block(fold, c, p), Block(fold, s, p);
      FairText(fold, c[p..], s[p..]) == if x == y then FairText(fold, c[p + 4..], s[p + 4..]) else FairBlock(x, y)
  {
    assert c[p..][4..] == c[p + 4..] && s[p..][4..] == s[p + 4..];
    assert Block(fold, c[p..], 0) == Block(fold, c, p) && Block(fold, s[p..], 0) == Block(fold, s, p);
  }

  /** The bytes below `p` match, and the rest decides about fairness. */
  ghost predicate Blockwise(fold: bool, c: Bytes, s: Bytes, p: nat)
    requires |c| == |s| && IsBytes(c) && IsBytes(s)
  {
    Match(fold, c, s, p) && FairText(fold, c[p..], s[p..]) == FairText(fold, c, s)
  }

  lemma BlockStart(fold: bool, c: Bytes, s: Bytes)
    requires |c| == |s| && IsBytes(c) && IsBytes(s)
    ensures Blockwise(fold, c, s, 0)
  {
    hide FairText;
    assert c[0..] == c && s[0..] == s;
  }

  lemma {:induction false} BlockStep(fold: bool, c: Bytes, s: Bytes, p: nat)
    requires |c| == |s| && IsBytes(c) && IsBytes(s) && p + 4 <= |c| && Blockwise(fold, c, s, p)
    ensures var x, y := IntLe(Block(fold, c, p)), IntLe(Block(fold, s, p));
      if x == y then Blockwise(fold, c, s, p + 4)
      else Tells(Wrap32(x - y), Folded(fold, c), Folded(fold, s), FairText(fold, c, s)) && Wrap32(x - y) != 0
  {
    hide Wrap32, IntLe, Tells, Match, Block, Folded, FairText, FairBlock;
    FairStep(fold, c, s, p);
    var x, y := Block(fold, c, p), Block(fold, s, p);
    if x == y {
      FoldedSlice(fold, c, p, 4);
      FoldedSlice(fold, s, p, 4);
      MatchMore(fold, c, s, p, 4);
    } else {
      BlockTells(x, y);
      MatchUpTo(fold, c, s, p, 4, Wrap32(IntLe(x) - IntLe(y)), FairBlock(x, y));
    }
  }

  /** Fewer than four bytes are compared one by one and cannot overflow. */
  lemma {:induction false} BlockEnd(fold: bool, c: Bytes, s: Bytes, p: nat)
    requires |c| == |s| && IsBytes(c) && IsBytes(s) && p <= |c| < p + 4 && Blockwise(fold, c, s, p)
    ensures Match(fold, c, s, p) && FairText(fold, c, s)
  {
  }

  lemma {:induction false} ByteStep(fold: bool, c: Bytes, s: Bytes, p: nat)
    requires Match(fold, c, s, p) && p < |c|
    ensures var x, y := FoldIf(fold, c[p]), FoldIf(fold, s[p]);
      if x == y then Match(fold, c, s, p + 1) else Tells(x - y, Folded(fold, c), Folded(fold, s), true)
  {
    var x, y := FoldIf(fold, c[p]), FoldIf(fold, s[p]);
    if x != y {
      assert Folded(fold, c)[p..p + 1] == [x] && Folded(fold, s)[p..p + 1] == [y];
      assert Lex([x], [y]) == Sign(x - y);
      MatchUpTo(fold, c, s, p, 1, x - y, true);
    }
  }

  /** One chunk against stored bytes of the same length, four bytes at a time. */
  method CompareChunk(c: Bytes, stored: Bytes, fold: bool) returns (res: int)
    requires |c| == |stored| && IsBytes(c) && IsBytes(stored)
    ensures Tells(res, Folded(fold, c), Folded(fold, stored), FairText(fold, c, stored))
  {
    hide Tells, Match, IntLe, Wrap32, Block, FairText, Blockwise, FoldIf, IsBytes;
    var p, len := 0, |c|;
    BlockStart(fold, c, stored);
    while len >= 4
      invariant 0 <= len && p + len == |c| && Blockwise(fold, c, stored, p)
    {
      BlockStep(fold, c, stored, p);
      var x, y := IntLe(Block(fold, c, p)), IntLe(Block(fold, stored, p));
      if x != y {
        return Wrap32(x - y);
      }
      p, len := p + 4, len - 4;
    }
    BlockEnd(fold, c, stored, p);
    while len > 0
      invariant 0 <= len && p + len == |c| && Match(fold, c, stored, p)
    {
      ByteStep(fold, c, stored, p);
      var x, y := FoldIf(fold, c[p]), FoldIf(fold, stored[p]);
      if x != y {
        return x - y;
      }
      p, len := p + 1, len - 1;
    }
    MatchAll(fold, c, stored, true);
    return 0;
  }

  lemma ChunkStep(fold: bool, text: Bytes, s: Bytes, np: nat, c: Bytes, res: int, fair: bool)
    requires Match(fold, text, s, np) && np + |c| <= |text| == |s| && text[np..np + |c|] == c
    requires Tells(res, Folded(fold, c), Folded(fold, s[np..np + |c|]), fair)
    ensures if res == 0 then Match(fold, text, s, np + |c|) && Folded(fold, c) == Folded(fold, s[np..np + |c|])
            else Tells(res, Folded(fold, text), Folded(fold, s), fair) && Folded(fold, c) != Folded(fold, s[np..np + |c|])
  {
    hide Match, Folded, Lex;
    FoldedSlice(fold, text, np, |c|);
    FoldedSlice(fold, s, np, |c|);
    if res == 0 {
      MatchMore(fold, text, s, np, |c|);
    } else {
      MatchUpTo(fold, text, s, np, |c|, res, fair);
    }
  }

  /** The first chunk that differs, if any, has a first differing block that does not overflow. */
  predicate FairChunks(fold: bool, chunks: seq<Bytes>, s: Bytes)
    requires FlatLen(chunks) == |s| && IsBytes(Flatten(chunks)) && IsBytes(s)
    decreases chunks
  {
    if chunks == [] then true
    else
      ChunkBytes(chunks);
      var c, d := chunks[0], s[..|chunks[0]|];
      if Folded(fold, c) == Folded(fold, d) then FairChunks(fold, chunks[1..], s[|c|..]) else FairText(fold, c, d)
  }

  lemma {:induction false} ChunkBytes(chunks: seq<Bytes>)
    requires chunks != [] && IsBytes(Flatten(chunks))
    ensures IsBytes(chunks[0]) && IsBytes(Flatten(chunks[1..])) && FlatLen(chunks) == |chunks[0]| + FlatLen(chunks[1..])
  {
    var c, rest := chunks[0], Flatten(chunks[1..]);
    assert Flatten(chunks) == c + rest;
    forall i | 0 <= i < |c| ensures 0 <= c[i] < 256 { assert (c + rest)[i] == c[i]; }
    forall i | 0 <= i < |rest| ensures 0 <= rest[i] < 256 { assert (c + rest)[|c| + i] == rest[i]; }
  }

  /** All chunks against the stored text of the same total length. */
  method CompareChunks(chunks: seq<Bytes>, stored: Bytes, fold: bool) returns (res: int)
    requires FlatLen(chunks) == |stored| && IsBytes(Flatten(chunks)) && IsBytes(stored)
    ensures Tells(res, Folded(fold, Flatten(chunks)), Folded(fold, stored), FairChunks(fold, chunks, stored))
  {
    hide Tells, Along, Folded, FairChunks, FairText, Flatten, IsBytes;
    ghost var text := Flatten(chunks);
    var np: nat := 0;
    AlongStart(fold, chunks, stored);
    for ci := 0 to |chunks|
      invariant Along(fold, chunks, ci, stored, np)
    {
      var c := chunks[ci];
      ChunkAt(fold, chunks, ci, stored, np);
      res := CompareChunk(c, stored[np..np + |c|], fold);
      AlongStep(fold, chunks, ci, stored, np, res);
      if res != 0 {
        return;
      }
      np := np + |c|;
    }
    AlongEnd(fold, chunks, stored, np);
    res := 0;
  }

  /** The chunks before `ci`, `np` bytes in all, match, and the rest decides about fairness. */
  ghost predicate Along(fold: bool, chunks: seq<Bytes>, ci: nat, s: Bytes, np: nat)
    requires FlatLen(chunks) == |s| && IsBytes(Flatten(chunks)) && IsBytes(s)
  {
    var text := Flatten(chunks);
    && ci <= |chunks| && np <= |s| && text[np..] == Flatten(chunks[ci..]) && Match(fold, text, s, np)
    && IsBytes(text[np..]) && IsBytes(s[np..]) && FairChunks(fold, chunks[ci..], s[np..]) == FairChunks(fold, chunks, s)
  }

  lemma {:induction false} AlongStart(fold: bool, chunks: seq<Bytes>, s: Bytes)
    requires FlatLen(chunks) == |s| && IsBytes(Flatten(chunks)) && IsBytes(s)
    ensures Along(fold, chunks, 0, s, 0)
  {
    hide FairChunks, Flatten;
    assert chunks[0..] == chunks && s[0..] == s && Flatten(chunks)[0..] == Flatten(chunks);
  }

  lemma {:induction false} ChunkAt(fold: bool, chunks: seq<Bytes>, ci: nat, s: Bytes, np: nat)
    requires FlatLen(chunks) == |s| && IsBytes(Flatten(chunks)) && IsBytes(s) && Along(fold, chunks, ci, s, np) && ci < |chunks|
    ensures np + |chunks[ci]| <= |s| && IsBytes(chunks[ci]) && IsBytes(s[np..np + |chunks[ci]|])
  {
    hide FairChunks, Flatten, IsBytes, Match;
    ChunkFair(fold, chunks, ci, Flatten(chunks), s, np);
  }

  lemma {:induction false} AlongStep(fold: bool, chunks: seq<Bytes>, ci: nat, s: Bytes, np: nat, res: int)
    requires FlatLen(chunks) == |s| && IsBytes(Flatten(chunks)) && IsBytes(s) && Along(fold, chunks, ci, s, np) && ci < |chunks|
    requires var c := chunks[ci];
      && np + |c| <= |s| && IsBytes(c) && IsBytes(s[np..np + |c|])
      && Tells(res, Folded(fold, c), Folded(fold, s[np..np + |c|]), FairText(fold, c, s[np..np + |c|]))
    ensures if res == 0 then Along(fold, chunks, ci + 1, s, np + |chunks[ci]|)
            else Tells(res, Folded(fold, Flatten(chunks)), Folded(fold, s), FairChunks(fold, chunks, s))
  {
    hide FairChunks, FairText, Flatten, IsBytes, Match, Tells, Folded;
    var c := chunks[ci];
    ChunkFair(fold, chunks, ci, Flatten(chunks), s, np);
    ChunkStep(fold, Flatten(chunks), s, np, c, res, FairText(fold, c, s[np..np + |c|]));
  }

  lemma {:induction false} AlongEnd(fold: bool, chunks: seq<Bytes>, s: Bytes, np: nat)
    requires FlatLen(chunks) == |s| && IsBytes(Flatten(chunks)) && IsBytes(s) && Along(fold, chunks, |chunks|, s, np)
    ensures Tells(0, Folded(fold, Flatten(chunks)), Folded(fold, s), FairChunks(fold, chunks, s))
  {
    hide FairChunks, IsBytes, Match, Tells, Folded;
    assert chunks[|chunks|..] == [];
    MatchAll(fold, Flatten(chunks), s, FairChunks(fold, chunks, s));
  }

  /** One chunk further along. */
  lemma {:induction false} ChunkFair(fold: bool, chunks: seq<Bytes>, ci: nat, text: Bytes, s: Bytes, np: nat)
    requires ci < |chunks| && np <= |s| == |text| && text[np..] == Flatten(chunks[ci..]) && IsBytes(text[np..]) && IsBytes(s[np..])
    ensures var c := chunks[ci]; var n := np + |c|;
      && n <= |s| && text[np..n] == c && text[n..] == Flatten(chunks[ci + 1..])
      && IsBytes(c) && IsBytes(s[np..n]) && IsBytes(text[n..]) && IsBytes(s[n..])
      && FairChunks(fold, chunks[ci..], s[np..]) ==
           if Folded(fold, c) == Folded(fold, s[np..n]) then FairChunks(fold, chunks[ci + 1..], s[n..])
           else FairText(fold, c, s[np..n])
  {
    hide Folded, FairText;
    var c := chunks[ci];
    var n := np + |c|;
    ChunkBytes(chunks[ci..]);
    FlattenFrom(chunks, ci);
    assert chunks[ci..][1..] == chunks[ci + 1..];
    assert text[np..n] == text[np..][..|c|] && text[n..] == text[np..][|c|..];
    assert s[np..][..|c|] == s[np..n] && s[np..][|c|..] == s[n..];
  }

  /** The comparison of a field, given in chunks, with a stored one does not overflow where it is
      decided. */
  predicate Fair(hName: seq<Bytes>, hVal: seq<Bytes>, node: Field)
    requires IsBytes(Flatten(hName)) && IsBytes(Flatten(hVal)) && BytesField(node)
  {
    if FlatLen(hName) != |node.name| then true
    else if Fold(Flatten(hName)) != Fold(node.name) then FairChunks(true, hName, node.name)
    else if FlatLen(hVal) != |node.value| then true
    else FairChunks(false, hVal, node.value)
  }

  predicate BytesField(f: Field) {
    IsBytes(f.name) && IsBytes(f.value)
  }

  /** The sign of the comparison: that of the order of fields if it is fair, else the opposite one. */
  function Compared(hName: seq<Bytes>, hVal: seq<Bytes>, node: Field): int
    requires IsBytes(Flatten(hName)) && IsBytes(Flatten(hVal)) && BytesField(node)
  {
    var order := Lex(Rank(Field(Flatten(hName), Flatten(hVal))), Rank(node));
    if Fair(hName, hVal, node) then order else -order
  }

  /** Compare a field, given in chunks, with a stored one; also tell whether the names match. */
  method NodeCompare(hName: seq<Bytes>, hVal: seq<Bytes>, node: Field) returns (res: int, nameMatch: bool)
    requires IsBytes(Flatten(hName)) && IsBytes(Flatten(hVal)) && BytesField(node)
    ensures var f := Field(Flatten(hName), Flatten(hVal));
      && (res == 0 <==> Rank(f) == Rank(node)) && Sign(res) == Compared(hName, hVal, node)
      && (nameMatch <==> NameRank(f) == NameRank(node))
  {
    hide Lex, Rank, NameRank, FairChunks, Flatten, Tells, Fold;
    ghost var f := Field(Flatten(hName), Flatten(hVal));
    NamesEqual(f, node);
    if FlatLen(hName) != |node.name| {
      res, nameMatch := FlatLen(hName) - |node.name|, false;
      RankByLength(f, node);
      return;
    }
    res := CompareChunks(hName, node.name, true);
    RankByName(f, node, res, FairChunks(true, hName, node.name));
    if res != 0 {
      nameMatch := false;
      return;
    }
    nameMatch := true;
    var len := FlatLen(hName) + FlatLen(hVal);
    var hdrLen := |node.name| + |node.value|;
    if len != hdrLen {
      res := len - hdrLen;
      RankByValue(f, node, res, true);
      return;
    }
    res := CompareChunks(hVal, node.value, false);
    RankByValue(f, node, res, FairChunks(false, hVal, node.value));
  }

  lemma NamesEqual(f: Field, g: Field)
    ensures NameRank(f) == NameRank(g) <==> |f.name| == |g.name| && Fold(f.name) == Fold(g.name)
  {
    assert NameRank(f)[1..] == Fold(f.name) && NameRank(g)[1..] == Fold(g.name);
    assert NameRank(f)[0] == |f.name| && NameRank(g)[0] == |g.name|;
  }

  lemma RankByLength(f: Field, g: Field)
    requires |f.name| != |g.name|
    ensures NameRank(f) != NameRank(g) && Rank(f) != Rank(g) && Sign(|f.name| - |g.name|) == Lex(Rank(f), Rank(g))
  {
    NameDecides(f, g);
    LexZero(Rank(f), Rank(g));
  }

  lemma RankByName(f: Field, g: Field, res: int, fair: bool)
    requires |f.name| == |g.name| && Tells(res, Fold(f.name), Fold(g.name), fair)
    ensures res == 0 <==> NameRank(f) == NameRank(g)
    ensures res != 0 ==> Rank(f) != Rank(g) && Sign(res) == if fair then Lex(Rank(f), Rank(g)) else -Lex(Rank(f), Rank(g))
  {
    hide Rank, Fold, Lex;
    NamesEqual(f, g);
    if res != 0 {
      NameDecides(f, g);
      LexZero(Rank(f), Rank(g));
      LexPrefix([|f.name|], Fold(f.name), Fold(g.name));
    }
  }

  lemma RankByValue(f: Field, g: Field, res: int, fair: bool)
    requires NameRank(f) == NameRank(g)
    requires if |f.value| != |g.value| then res == |f.value| - |g.value| && fair else Tells(res, f.value, g.value, fair)
    ensures res == 0 <==> Rank(f) == Rank(g)
    ensures Sign(res) == if fair then Lex(Rank(f), Rank(g)) else -Lex(Rank(f), Rank(g))
  {
    hide NameRank;
    var a, b := [|f.value|] + f.value, [|g.value|] + g.value;
    assert Rank(f) == NameRank(f) + a && Rank(g) == NameRank(g) + b;
    LexPrefix(NameRank(f), a, b);
    LexZero(a, b);
    LexZero(Rank(f), Rank(g));
    if |f.value| == |g.value| {
      LexPrefix([|f.value|], f.value, g.value);
      assert a[1..] == f.value && b[1..] == g.value;
    }
  }

  // ---------------------------------------------------------------- bytes below 0x80

  /** On 7-bit text every comparison is fair, however the text is chunked. */
  lemma {:induction false} SevenBitFair(hName: seq<Bytes>, hVal: seq<Bytes>, node: Field)
    requires SevenBitField(Field(Flatten(hName), Flatten(hVal))) && SevenBitField(node)
    ensures IsBytes(Flatten(hName)) && IsBytes(Flatten(hVal)) && BytesField(node) && Fair(hName, hVal, node)
  {
    if FlatLen(hName) == |node.name| { FairSevenChunks(true, hName, node.name); }
    if FlatLen(hVal) == |node.value| { FairSevenChunks(false, hVal, node.value); }
  }

  lemma {:induction false} FairSevenChunks(fold: bool, chunks: seq<Bytes>, s: Bytes)
    requires FlatLen(chunks) == |s| && SevenBit(Flatten(chunks)) && SevenBit(s)
    ensures IsBytes(Flatten(chunks)) && IsBytes(s) && FairChunks(fold, chunks, s)
    decreases chunks
  {
    hide Folded, FairText;
    if chunks != [] {
      var c, rest := chunks[0], Flatten(chunks[1..]);
      ChunkBytes(chunks);
      forall i | 0 <= i < |c| ensures 0 <= c[i] < 128 { assert Flatten(chunks)[i] == c[i]; }
      forall i | 0 <= i < |rest| ensures 0 <= rest[i] < 128 { assert Flatten(chunks)[|c| + i] == rest[i]; }
      FairSevenText(fold, c, s[..|c|]);
      FairSevenChunks(fold, chunks[1..], s[|c|..]);
    }
  }

  lemma {:induction false} FairSevenText(fold: bool, c: Bytes, s: Bytes)
    requires |c| == |s| && SevenBit(c) && SevenBit(s)
    ensures IsBytes(c) && IsBytes(s) && FairText(fold, c, s)
    decreases c
  {
    hide Block, FairBlock;
    if |c| >= 4 {
      BlockSeven(fold, c);
      BlockSeven(fold, s);
      FairSevenBlock(Block(fold, c, 0), Block(fold, s, 0));
      FairSevenText(fold, c[4..], s[4..]);
    }
  }

  lemma BlockSeven(fold: bool, c: Bytes)
    requires |c| >= 4 && SevenBit(c)
    ensures IsBytes(c) && SevenBit(Block(fold, c, 0))
  {
  }

  lemma {:induction false} FairSevenBlock(x: Bytes, y: Bytes)
    requires |x| == |y| == 4 && SevenBit(x) && SevenBit(y)
    ensures FairBlock(x, y)
  {
    BigOrder(x, y);
    BigOrder(y, x);
    hide Big;
  }

  // ---------------------------------------------------------------- how far the order can be trusted

  /** On bytes above 0x7F the 32-bit difference overflows: the comparison then goes
      round in a circle, so no search order exists. */
  lemma EightBitCycle()
    ensures var a, b, c := [0x20, 0x20, 0x20, 0x20], [0x70, 0x20, 0x20, 0x20], [0xC0, 0x20, 0x20, 0x20];
      Wrap32(IntLe(a) - IntLe(b)) < 0 && Wrap32(IntLe(b) - IntLe(c)) < 0 && Wrap32(IntLe(c) - IntLe(a)) < 0
  {
    assert Big([0x20, 0x20, 0x20, 0x20]) == 0x2020_2020;
    assert Big([0x70, 0x20, 0x20, 0x20]) == 0x7020_2020;
    assert Big([0xC0, 0x20, 0x20, 0x20]) == 0xC020_2020;
  }

  /** A block comparison has the right sign exactly when the blocks, read as unsigned
      numbers, are less than half the 32-bit range apart. */
  lemma {:induction false} BlockSignExact(p: Bytes, q: Bytes)
    requires |p| == |q| == 4 && IsBytes(p) && IsBytes(q)
    ensures Sign(Wrap32(IntLe(p) - IntLe(q))) == Lex(p, q) <==> FairBlock(p, q)
  {
    LexZero(p, q);
    hide Lex;
    if p != q { BlockTells(p, q); }
  }

  /** The bytes a header name may consist of (section 5.6.2 of RFC 9110). */
  predicate IsTokenByte(b: int) {
    || 0x30 <= b <= 0x39 || 0x41 <= b <= 0x5A || 0x61 <= b <= 0x7A
    || b in {0x21, 0x23, 0x24, 0x25, 0x26, 0x27, 0x2A, 0x2B, 0x2D, 0x2E, 0x5E, 0x5F, 0x60, 0x7C, 0x7E}
  }

  /** On header names, setting bit 0x20 is case folding except that it also identifies
      `^` (0x5E) with `~` (0x7E). */
  lemma FoldMeaning(x: int, y: int)
    requires IsTokenByte(x) && IsTokenByte(y)
    ensures FoldByte(x) == FoldByte(y) <==> LowerByte(x) == LowerByte(y) || {x, y} == {0x5E, 0x7E}
  {
    assert {x, y} == {0x5E, 0x7E} <==> (x == 0x5E && y == 0x7E) || (x == 0x7E && y == 0x5E) by {
      assert x in {x, y} && y in {x, y};
      if {x, y} == {0x5E, 0x7E} { assert 0x5E in {x, y} && 0x7E in {x, y}; }
    }
  }
}
