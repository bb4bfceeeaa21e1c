/** Huffman-coded strings as the header decoder sees them: bytes that come in pieces of any size, and the
    text they stand for. */
module HuffmanText {
  import opened Bits
  import opened Common
  import opened Huffman
  import opened HuffmanTables
  import opened HuffmanProof
  import opened HuffmanCodec

  /** Where the automaton stands after `src`. */
  function After(src: seq<Byte>): (o: Outcome)
    ensures Shape(HT) && (o.Next? ==> ContextOk(HT, o.c) && Hungry(o.c))
  {
    ShapeOk();
    StartOk(HT);
    Feed(HT, Next(START), src)
  }

  /** No string begins like `src`. */
  predicate Stuck(src: seq<Byte>) {
    After(src).Bad?
  }

  /** The text of a whole string, if it is one. */
  function Plain(src: seq<Byte>): Decoded {
    Ending(HT, After(src))
  }

  /** `src` is the code of the text and up to seven one-bits. */
  ghost predicate Encodes(src: seq<Byte>, text: seq<Byte>) {
    Shape(HT) && Padded(HT, Stream(src), text)
  }

  /** A string has a text exactly if it encodes the text. */
  lemma PlainExact(src: seq<Byte>, text: seq<Byte>)
    ensures Plain(src) == Text(text) <==> Encodes(src, text)
  {
    hide Feed, Ending, Padded, Shape, ContextOk, Hungry;
    HuffmanExact(src, text);
  }

  lemma {:induction false} AfterMore(a: seq<Byte>, b: seq<Byte>)
    ensures After(a + b) == Feed(HT, After(a), b)
  {
    hide Feed, Shape, IsTable;
    ShapeOk();
    StartOk(HT);
    FeedConcat(HT, Next(START), a, b);
  }

  lemma {:induction false} StuckOn(a: seq<Byte>, b: seq<Byte>)
    requires Stuck(a)
    ensures Stuck(a + b) && Plain(a).Malformed?
  {
    hide Feed, Shape, After, ContextOk, Hungry;
    AfterMore(a, b);
    FeedBad(HT, b);
  }

  /** Nothing stands for nothing only. */
  lemma {:induction false} PlainNone()
    ensures Plain([]) == Text([]) && !Stuck([])
  {
    hide Shape, IsTable;
  }

  /** The decoder stands after `src`, with `left` bytes to come. */
  ghost predicate At(d: Decoder, src: seq<Byte>, left: nat)
    reads d
  {
    d.length == left && After(src) == Next(d.Now())
  }

  method Begin(len: nat) returns (d: Decoder)
    ensures fresh(d) && At(d, [], len)
  {
    hide Feed, Shape, IsTable;
    ShapeOk();
    StartOk(HT);
    FeedUnfold(HT, START, []);
    d := new Decoder(len);
  }

  /** Decode a piece of the string. */
  method Go(d: Decoder, src: seq<Byte>, ghost got: seq<Byte>) returns (ok: bool)
    requires At(d, got, d.length) && 0 < |src| <= d.length
    modifies d
    ensures ok <==> !Stuck(got + src) && (|src| == old(d.length) ==> Plain(got + src).Text?)
    ensures ok && |src| < old(d.length) ==> At(d, got + src, old(d.length) - |src|)
    ensures ok && |src| == old(d.length) ==> Plain(got + src) == Text(d.out)
  {
    hide Feed, Ending, Shape, After, ContextOk, Hungry;
    AfterMore(got, src);
    var r := d.Decode(HT, src);
    ok := r != Compression;
  }
}
