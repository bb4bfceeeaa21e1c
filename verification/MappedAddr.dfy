/** IPv4 addresses written as mapped IPv6 addresses: the parser turns their octets around. */
module MappedAddr {
  import opened AddrText
  import opened Addr
  import opened AddrForms
  import opened Bits

  /** What the parser takes for an octet: outside brackets all but the first may have 16 bits. */
  function Bound(port: int): nat {
    if port == 0 then 255 else 0xFFFF
  }

  predicate Within(o: seq<nat>, bound: nat) {
    forall i :: 0 <= i < |o| ==> o[i] <= bound
  }

  predicate Octets(o: seq<nat>) {
    |o| == 4 && Within(o, 255)
  }

  /** Numbers with dots between them. */
  function Dotted(o: seq<nat>): Text
    requires o != []
    decreases |o|
  {
    if |o| == 1 then Dec(o[0]) else Dec(o[0]) + "." + Dotted(o[1..])
  }

  function Turned(o: seq<nat>): seq<nat>
    requires |o| >= 4
  {
    [o[3], o[2], o[1], o[0]]
  }

  // ---------------------------------------------------------------- the octets

  /** The value of decimal digits read as hexadecimal ones. */
  function AsHex(q: nat): nat {
    if q < 10 then q else AsHex(q / 10) * 16 + q % 10
  }

  lemma {:induction false} AsHexDigits(q: nat)
    requires q <= 9999
    ensures AsHex(q) == q / 1000 * 0x1000 + q / 100 % 10 * 256 + q / 10 % 10 * 16 + q % 10 <= 0x9999
    ensures q > 999 ==> AsHex(q) >= 0x1000
  {
    Tens(q);
    AsHexTwo(q / 100);
    assert AsHex(q / 10) == AsHex(q / 100) * 16 + q / 10 % 10;
    assert AsHex(q) == AsHex(q / 10) * 16 + q % 10;
  }

  lemma {:induction false} AsHexTwo(g: nat)
    requires g <= 99
    ensures AsHex(g) == g / 10 * 16 + g % 10
  {
    assert AsHex(g / 10) == g / 10;
  }

  lemma Tens(q: nat)
    ensures q / 10 / 10 == q / 100 && q / 100 / 10 == q / 1000 && (q <= 9999 ==> q / 100 <= 99 && q / 1000 <= 9) && (q > 999 ==> q / 1000 >= 1)
  {
  }

  lemma {:induction false} AsHexNext(q: nat)
    requires q <= 9999
    ensures AsHex(q) == if q < 10 then q else AsHex(q / 10) * 16 + q % 10
    ensures AsHex(q) <= 0x9999
  {
    AsHexDigits(q);
  }

  lemma HexStep(t: Text, k: nat, words: seq<int>, port: int, d: nat)
    requires k < |t| && d < 10 && t[k] == DigitChar(d) && |words| == 9 && (port == -1 || port == 0)
    requires (if words[2] == -1 then 0 else words[2]) * 16 + d <= 0xFFFF
    ensures Step6(t, k, S6(words, 0, 2, port, false)) ==
      (S6(words[2 := (if words[2] == -1 then 0 else words[2]) * 16 + d], 0, 2, port, false), k + 1)
  {
    DigitBack(d);
  }

  lemma {:induction false} HexRunDec(t: Text, k: nat, words: seq<int>, port: int, q: nat)
    requires At(t, k, Dec(q)) && q <= 9999 && |words| == 9 && words[2] == -1 && (port == -1 || port == 0)
    ensures Run6(t, k, S6(words, 0, 2, port, false)) == Run6(t, k + |Dec(q)|, S6(words[2 := AsHex(q)], 0, 2, port, false))
    decreases q
  {
    hide Run6, At, AsHex, Step6;
    AsHexNext(q);
    if q < 10 {
      AtHead(t, k, Dec(q));
      HexStep(t, k, words, port, q);
      Run6Step(t, k, S6(words, 0, 2, port, false));
    } else {
      var h, d := q / 10, DigitChar(q % 10);
      assert Dec(q) == Dec(h) + [d];
      AtSplit(t, k, Dec(h), [d]);
      HexRunDec(t, k, words, port, h);
      AtHead(t, k + |Dec(h)|, [d]);
      HexStep(t, k + |Dec(h)|, words[2 := AsHex(h)], port, q % 10);
      Run6Step(t, k + |Dec(h)|, S6(words[2 := AsHex(h)], 0, 2, port, false));
      assert words[2 := AsHex(h)][2 := AsHex(q)] == words[2 := AsHex(q)];
    }
  }

  /** A decimal octet is read into the current word. */
  lemma {:induction false} OctetRun(t: Text, k: nat, words: seq<int>, i: nat, port: int, q: nat)
    requires At(t, k, Dec(q)) && q <= Bound(port) && |words| == 9 && i <= 7 && words[i] == -1 && (port == -1 || port == 0)
    ensures Run6(t, k, S6(words, 0, i, port, true)) == Run6(t, k + |Dec(q)|, S6(words[i := q], 0, i, port, true))
    decreases q
  {
    hide Run6;
    if q < 10 {
      AtHead(t, k, Dec(q));
      DigitBack(q);
      Run6Step(t, k, S6(words, 0, i, port, true));
    } else {
      var h, d := q / 10, DigitChar(q % 10);
      AtSplit(t, k, Dec(h), [d]);
      OctetRun(t, k, words, i, port, h);
      DigitBack(q % 10);
      AtHead(t, k + |Dec(h)|, [d]);
      Run6Step(t, k + |Dec(h)|, S6(words[i := h], 0, i, port, true));
      assert words[i := h][i := q] == words[i := q];
    }
  }

  lemma {:induction false} OctetDot(t: Text, k: nat, words: seq<int>, i: nat, port: int, q: nat)
    requires At(t, k, Dec(q) + ".") && q <= Bound(port) && |words| == 9 && i <= 7 && words[i] == -1 && (port == -1 || port == 0)
    ensures Run6(t, k, S6(words, 0, i, port, true)) == Run6(t, k + |Dec(q)| + 1, S6(words[i := q], 0, i + 1, port, true))
  {
    hide Run6, Dec;
    AtSplit(t, k, Dec(q), ".");
    AtHead(t, k + |Dec(q)|, ".");
    OctetRun(t, k, words, i, port, q);
    Run6Step(t, k + |Dec(q)|, S6(words[i := q], 0, i, port, true));
  }

  const PREFIX_WORDS: seq<int> := NO_WORDS[1 := 0xFFFF]

  /** The first dot: the hexadecimal word becomes a decimal octet. */
  lemma {:induction false} FirstDot(t: Text, k: nat, port: int, q: nat)
    requires At(t, k, Dec(q) + ".") && q <= 255 && (port == -1 || port == 0)
    ensures Run6(t, k, S6(PREFIX_WORDS, 0, 2, port, false)) == Run6(t, k + |Dec(q)| + 1, S6(NO_WORDS[0 := q], 0, 1, port, true))
  {
    hide Run6, Dec, AsHex;
    AtSplit(t, k, Dec(q), ".");
    AtHead(t, k + |Dec(q)|, ".");
    HexRunDec(t, k, PREFIX_WORDS, port, q);
    var s := S6(PREFIX_WORDS[2 := AsHex(q)], 0, 2, port, false);
    Run6Step(t, k + |Dec(q)|, s);
    AsHexDigits(q);
    DotBack(AsHex(q), q);
    assert PREFIX_WORDS[2 := AsHex(q)][0 := q][1 := -1][2 := -1] == NO_WORDS[0 := q];
  }

  lemma DotBack(w: nat, q: nat)
    requires q <= 9999 && w == q / 1000 * 0x1000 + q / 100 % 10 * 256 + q / 10 % 10 * 16 + q % 10
    ensures w / 0x1000 % 16 * 1000 + w / 0x100 % 16 * 100 + w / 16 % 16 * 10 + w % 16 == q
  {
    var z, a, b, c := q / 1000, q / 100 % 10, q / 10 % 10, q % 10;
    Digits(q);
    Nibbles(z, a, b, c);
    assert w == z * 0x1000 + a * 256 + b * 16 + c;
  }

  lemma Digits(q: nat)
    requires q <= 9999
    ensures q / 1000 < 10 && q == q / 1000 * 1000 + q / 100 % 10 * 100 + q / 10 % 10 * 10 + q % 10
  {
    Tens(q);
    Ten(q);
    Ten(q / 10);
    Ten(q / 100);
  }

  lemma Ten(x: nat)
    ensures x == x / 10 * 10 + x % 10
  {
  }

  lemma Nibbles(z: nat, a: nat, b: nat, c: nat)
    requires z < 16 && a < 16 && b < 16 && c < 16
    ensures var w := z * 0x1000 + a * 256 + b * 16 + c; w / 0x1000 % 16 == z && w / 0x100 % 16 == a && w / 16 % 16 == b && w % 16 == c
  {
    var w := z * 0x1000 + a * 256 + b * 16 + c;
    assert w == 16 * (256 * z + 16 * a + b) + c;
    assert w / 16 == 256 * z + 16 * a + b && w % 16 == c;
    assert w == 256 * (16 * z + a) + (16 * b + c);
    assert w / 256 == 16 * z + a;
    assert w / 0x1000 == z;
  }

  // ---------------------------------------------------------------- the text

  const PREFIX: Text := "::ffff:"

  lemma PrefixIs()
    ensures PREFIX == "::" + (Hex(0xFFFF) + ":") && |Hex(0xFFFF)| == 4
  {
    HexDigits(0xFFFF);
    hide Hex;
  }

  lemma DoubleColon(t: Text, k: nat)
    requires At(t, k, "::")
    ensures k < |t| && forall port :: Step6(t, k, S6(NO_WORDS, -1, 0, port, false)) == (S6(NO_WORDS, 0, if port == 1 then 8 else 1, port, false), k + 2)
  {
    assert t[k] == ':' && t[k + 1] == ':' by { assert t[k..k + 2][0] == t[k] && t[k..k + 2][1] == t[k + 1]; }
  }

  lemma {:induction false} PrefixRun(t: Text, k: nat, port: int, c: Text)
    requires At(t, k, PREFIX + c) && |c| > 0 && IsDigit(c[0]) && (port == -1 || port == 0)
    ensures Run6(t, k, S6(NO_WORDS, -1, 0, port, false)) == Run6(t, k + 7, S6(PREFIX_WORDS, 0, 2, port, false))
  {
    hide Run6, Hex, At, Step6;
    PrefixIs();
    AtSplit(t, k, PREFIX, c);
    AtHead(t, k + 7, c);
    AtSplit(t, k, "::", Hex(0xFFFF) + ":");
    DoubleColon(t, k);
    Run6Step(t, k, S6(NO_WORDS, -1, 0, port, false));
    GroupColon(t, k + 2, NO_WORDS, 0, 1, port, 0xFFFF);
  }

  /** The rest of a dotted tail is read into the words from `i` on. */
  lemma {:induction false} TailRun(t: Text, k: nat, o: seq<nat>, words: seq<int>, i: nat, port: int)
    requires o != [] && Within(o, Bound(port)) && At(t, k, Dotted(o)) && (port == -1 || port == 0)
    requires |words| == 9 && i + |o| <= 8 && forall j :: i <= j < 8 ==> words[j] == -1
    ensures Run6(t, k, S6(words, 0, i, port, true)) == Run6(t, k + |Dotted(o)|, S6(Laid(words, i, o), 0, i + |o| - 1, port, true))
    decreases |o|
  {
    hide Run6, Dec, At, Laid;
    if |o| == 1 {
      OctetRun(t, k, words, i, port, o[0]);
      LaidOne(words, i, o);
    } else {
      AtSplit(t, k, Dec(o[0]) + ".", Dotted(o[1..]));
      OctetDot(t, k, words, i, port, o[0]);
      TailRun(t, k + |Dec(o[0])| + 1, o[1..], words[i := o[0]], i + 1, port);
      LaidNext(words, i, o);
    }
  }

  lemma LaidOne(words: seq<int>, i: nat, o: seq<nat>)
    requires |o| == 1 && i + 1 <= 8 && |words| == 9
    ensures Laid(words, i, o) == words[i := o[0]]
  {
  }

  lemma {:induction false} DottedRun(t: Text, k: nat, o: seq<nat>, port: int)
    requires 2 <= |o| <= 8 && o[0] <= 255 && Within(o[1..], Bound(port)) && At(t, k, Dotted(o)) && (port == -1 || port == 0)
    ensures Run6(t, k, S6(PREFIX_WORDS, 0, 2, port, false)) == Run6(t, k + |Dotted(o)|, S6(Laid(NO_WORDS, 0, o), 0, |o| - 1, port, true))
  {
    hide Run6, Dec, Laid;
    AtSplit(t, k, Dec(o[0]) + ".", Dotted(o[1..]));
    FirstDot(t, k, port, o[0]);
    TailRun(t, k + |Dec(o[0])| + 1, o[1..], NO_WORDS[0 := o[0]], 1, port);
    LaidNext(NO_WORDS, 0, o);
  }

  /** An octet beyond the bound stops the parser. */
  lemma {:induction false} OctetStops(t: Text, k: nat, words: seq<int>, i: nat, port: int, q: nat)
    requires At(t, k, Dec(q)) && q > Bound(port) && |words| == 9 && i <= 7 && words[i] == -1 && (port == -1 || port == 0)
    ensures Run6(t, k, S6(words, 0, i, port, true)) == Stop6
    decreases q
  {
    hide Run6;
    var h, d := q / 10, DigitChar(q % 10);
    AtSplit(t, k, Dec(h), [d]);
    if h > Bound(port) {
      OctetStops(t, k, words, i, port, h);
    } else {
      OctetRun(t, k, words, i, port, h);
      DigitBack(q % 10);
      var m := k + |Dec(h)|;
      AtHead(t, m, [d]);
      Run6Step(t, m, S6(words[i := h], 0, i, port, true));
      Run6Stop(t, m + 1);
    }
  }

  /** A first number of three digits or more that is beyond 255 stops it at the dot, one of five digits before. */
  lemma {:induction false} FirstStops(t: Text, k: nat, port: int, q: nat)
    requires At(t, k, Dec(q) + ".") && q > 255 && (port == -1 || port == 0)
    ensures Run6(t, k, S6(PREFIX_WORDS, 0, 2, port, false)) == Stop6
  {
    hide Run6, Dec, AsHex;
    AtSplit(t, k, Dec(q), ".");
    if q > 9999 {
      HexStops(t, k, PREFIX_WORDS, port, q);
    } else {
      HexRunDec(t, k, PREFIX_WORDS, port, q);
      var m, w := k + |Dec(q)|, PREFIX_WORDS[2 := AsHex(q)];
      AtHead(t, m, ".");
      AsHexDigits(q);
      DotBack(AsHex(q), q);
      Run6Step(t, m, S6(w, 0, 2, port, false));
      Run6Stop(t, m + 1);
    }
  }

  lemma {:induction false} HexStops(t: Text, k: nat, words: seq<int>, port: int, q: nat)
    requires At(t, k, Dec(q)) && q > 9999 && |words| == 9 && words[2] == -1 && (port == -1 || port == 0)
    ensures Run6(t, k, S6(words, 0, 2, port, false)) == Stop6
    decreases q
  {
    hide Run6, AsHex;
    var h, d := q / 10, DigitChar(q % 10);
    assert Dec(q) == Dec(h) + [d];
    AtSplit(t, k, Dec(h), [d]);
    if h > 9999 {
      HexStops(t, k, words, port, h);
    } else {
      HexRunDec(t, k, words, port, h);
      AsHexDigits(h);
      DigitBack(q % 10);
      var m := k + |Dec(h)|;
      AtHead(t, m, [d]);
      Run6Step(t, m, S6(words[2 := AsHex(h)], 0, 2, port, false));
      Run6Stop(t, m + 1);
    }
  }

  /** A number beyond its bound, or one beyond the eighth word, is turned down. */
  lemma {:induction false} TailStops(t: Text, k: nat, o: seq<nat>, words: seq<int>, i: nat, port: int)
    requires o != [] && At(t, k, Dotted(o)) && (port == -1 || port == 0)
    requires |words| == 9 && i <= 8 && (i + |o| > 8 || !Within(o, Bound(port))) && forall j :: i <= j < 8 ==> words[j] == -1
    ensures Run6(t, k, S6(words, 0, i, port, true)) == Stop6
    decreases |o|
  {
    hide Run6, Dec, At;
    if i == 8 {
      DottedHead(o);
      AtHead(t, k, Dotted(o));
      Run6Step(t, k, S6(words, 0, i, port, true));
      Run6Stop(t, k + 1);
    } else if |o| == 1 {
      OctetStops(t, k, words, i, port, o[0]);
    } else {
      AtSplit(t, k, Dec(o[0]) + ".", Dotted(o[1..]));
      if o[0] > Bound(port) {
        AtSplit(t, k, Dec(o[0]), ".");
        OctetStops(t, k, words, i, port, o[0]);
      } else {
        OctetDot(t, k, words, i, port, o[0]);
        WithinRest(o, Bound(port));
        TailStops(t, k + |Dec(o[0])| + 1, o[1..], words[i := o[0]], i + 1, port);
      }
    }
  }

  lemma WithinRest(o: seq<nat>, bound: nat)
    requires o != []
    ensures Within(o, bound) <==> o[0] <= bound && Within(o[1..], bound)
  {
    assert forall i :: 1 <= i < |o| ==> o[i] == o[1..][i - 1];
  }

  lemma {:induction false} DottedStops(t: Text, k: nat, o: seq<nat>, port: int)
    requires |o| >= 2 && (|o| > 8 || o[0] > 255 || !Within(o[1..], Bound(port))) && At(t, k, Dotted(o)) && (port == -1 || port == 0)
    ensures Run6(t, k, S6(PREFIX_WORDS, 0, 2, port, false)) == Stop6
  {
    hide Run6, Dec;
    AtSplit(t, k, Dec(o[0]) + ".", Dotted(o[1..]));
    if o[0] > 255 {
      FirstStops(t, k, port, o[0]);
    } else {
      FirstDot(t, k, port, o[0]);
      TailStops(t, k + |Dec(o[0])| + 1, o[1..], NO_WORDS[0 := o[0]], 1, port);
    }
  }

  lemma {:induction false} DottedHead(o: seq<nat>)
    requires o != []
    ensures |Dotted(o)| > 0 && IsDigit(Dotted(o)[0])
  {
    hide Dec;
    assert Dotted(o)[0] == Dec(o[0])[0];
  }

  // ---------------------------------------------------------------- the bytes

  lemma OrZero(b: nat)
    requires b < 256
    ensures OrByte(b, 0) == b && OrByte(0, b) == b
  {
    ByteSize();
    OrNone(b, 8);
  }

  lemma {:induction false} OrNone(b: nat, n: nat)
    requires b < Pow2(n)
    ensures 0 < Pow2(n) && Or(b, 0, n) == b && Or(0, b, n) == b
  {
    if n > 0 { OrNone(b / 2, n - 1); }
  }

  lemma OrOnes(b: nat)
    requires b < 256
    ensures OrByte(b, 255) == 255
  {
    ByteSize();
    OrAll(b, 8);
  }

  lemma {:induction false} OrAll(b: nat, n: nat)
    requires b < Pow2(n)
    ensures 0 < Pow2(n) && Or(b, Pow2(n) - 1, n) == Pow2(n) - 1
  {
    if n > 0 {
      assert (Pow2(n) - 1) / 2 == Pow2(n - 1) - 1 && (Pow2(n) - 1) % 2 == 1;
      OrAll(b / 2, n - 1);
    }
  }

  /** Without a fourth word all bytes are ones. */
  lemma {:induction false} TailOnes(words: seq<int>)
    requires |words| == 9 && words[3] == -1
    ensures seq(4, j requires 0 <= j < 4 => TailByte(words, 4, j)) == [255, 255, 255, 255]
  {
    hide OrByte;
    forall j | 0 <= j < 4 ensures TailByte(words, 4, j) == 255 { OrOnes(TailByte(words, 3, j)); }
  }

  /** The byte at `j` is that of word `3 - j`. */
  lemma {:induction false} TailIs(o: seq<nat>, words: seq<int>, n: nat, j: nat)
    requires Octets(o) && n <= 4 <= |words| && words[..4] == o && j < 4
    ensures TailByte(words, n, j) == if n > 3 - j then o[3 - j] else 0
  {
    hide OrByte;
    if n > 0 {
      TailIs(o, words, n - 1, j);
      assert words[n - 1] == words[..4][n - 1] == o[n - 1];
      OrZero(TailByte(words, n - 1, j));
      OrZero(WordByte(words[n - 1], j - (4 - n)));
    }
  }

  lemma {:induction false} TailTurned(o: seq<nat>, words: seq<int>)
    requires Octets(o) && |words| == 9 && words[..4] == o
    ensures seq(4, j requires 0 <= j < 4 => TailByte(words, 4, j)) == Turned(o)
  {
    hide TailByte;
    forall j | 0 <= j < 4 ensures TailByte(words, 4, j) == o[3 - j] { TailIs(o, words, 4, j); }
  }

  // ---------------------------------------------------------------- what is parsed

  /** The words of the first four numbers. */
  lemma {:induction false} FourWords(o: seq<nat>, p: int)
    requires 2 <= |o| <= 8
    ensures var w := Laid(NO_WORDS, 0, o)[8 := p]; |w| == 9 && (if |o| < 4 then w[3] == -1 else w[..4] == o[..4])
  {
    hide Laid;
    LaidParts(NO_WORDS, 0, o);
    var u, w := Laid(NO_WORDS, 0, o), Laid(NO_WORDS, 0, o)[8 := p];
    if |o| >= 4 {
      forall j | 0 <= j < 4 ensures w[..4][j] == o[..4][j] { assert u[j] == u[0..0 + |o|][j]; }
    }
  }

  /** The address of a dotted tail: the first four numbers, last one first, or all ones if there are fewer. */
  function TailAddr(o: seq<nat>): seq<nat> {
    if |o| < 4 then [255, 255, 255, 255] else Turned(o)
  }

  lemma {:induction false} TailIsAddr(o: seq<nat>, p: int)
    requires 2 <= |o| <= 8 && Within(o, 255)
    ensures seq(4, j requires 0 <= j < 4 => TailByte(Laid(NO_WORDS, 0, o)[8 := p], 4, j)) == TailAddr(o)
  {
    hide TailByte, Laid;
    FourWords(o, p);
    if |o| < 4 { TailOnes(Laid(NO_WORDS, 0, o)[8 := p]); } else { TailTurned(o[..4], Laid(NO_WORDS, 0, o)[8 := p]); }
  }

  /** A mapped address without brackets and port: there have to be four numbers, the first up to 255 and the
      others up to 65535.  If all are octets they come out in the opposite order. */
  lemma {:induction false} PlainMapped(o: seq<nat>)
    requires |o| >= 2
    ensures Parse(PREFIX + Dotted(o)).Parsed? <==> |o| == 4 && o[0] <= 255 && Within(o[1..], 0xFFFF)
    ensures Octets(o) ==> Parse(PREFIX + Dotted(o)) == Parsed(V4(Turned(o), DEF_PORT))
  {
    hide Run6, Dotted, TailByte, Laid;
    var t := PREFIX + Dotted(o);
    AtWhole(t);
    DottedHead(o);
    PrefixRun(t, 0, -1, Dotted(o));
    AtSplit(t, 0, PREFIX, Dotted(o));
    if |o| <= 8 && o[0] <= 255 && Within(o[1..], 0xFFFF) {
      DottedRun(t, 7, o, -1);
      var w := Laid(NO_WORDS, 0, o);
      Run6End(t, |t|, S6(w, 0, |o| - 1, -1, true));
      LaidParts(NO_WORDS, 0, o);
      assert w[8 := -1] == w;
      if Octets(o) { TailIsAddr(o, -1); }
    } else {
      DottedStops(t, 7, o, -1);
    }
  }

  /** In brackets and with a port: two to eight octets are taken; of fewer than four comes 255.255.255.255. */
  lemma {:induction false} BracketMapped(o: seq<nat>, port: nat)
    requires |o| >= 2 && 0 < port <= 0xFFFF
    ensures Parse("[" + (PREFIX + Dotted(o)) + "]:" + Dec(port)) ==
      if |o| <= 8 && Within(o, 255) then Parsed(V4(TailAddr(o), port)) else Invalid
  {
    hide Run6, Dotted, TailByte, Dec, Laid, At, Mode;
    var x := PREFIX + Dotted(o);
    var t := "[" + x + "]:" + Dec(port);
    BracketedText(x, Dec(port));
    DottedHead(o);
    PrefixRun(t, 1, 0, Dotted(o));
    AtSplit(t, 1, PREFIX, Dotted(o));
    WithinRest(o, 255);
    if |o| <= 8 && Within(o, 255) {
      DottedRun(t, 8, o, 0);
      var w, q := Laid(NO_WORDS, 0, o), |o| - 1;
      LaidParts(NO_WORDS, 0, o);
      assert w[q] == w[0..0 + |o|][q];
      AtSplit(t, 1 + |x|, "]:", Dec(port));
      CloseRun(t, 1 + |x|, w, 0, true, q, port);
      Run6End(t, |t|, S6(w[8 := port], 0, 8, 1, true));
      TailIsAddr(o, port);
    } else {
      DottedStops(t, 8, o, 0);
    }
  }

  /** A mapped address comes back with its octets in the opposite order, with and without a port. */
  lemma {:induction false} MappedTurned(o: seq<nat>, port: nat)
    requires Octets(o) && 0 < port <= 0xFFFF
    ensures Parse(PREFIX + Dotted(o)) == Parsed(V4(Turned(o), DEF_PORT))
    ensures Parse("[" + (PREFIX + Dotted(o)) + "]:" + Dec(port)) == Parsed(V4(Turned(o), port))
  {
    hide Parse, Dotted, Dec;
    PlainMapped(o);
    BracketMapped(o, port);
  }

  /** So it is the address that was written exactly if it reads the same both ways. */
  lemma {:induction false} MappedRight(o: seq<nat>)
    requires Octets(o)
    ensures Parse(PREFIX + Dotted(o)) == Parsed(V4(o, DEF_PORT)) <==> o[0] == o[3] && o[1] == o[2]
  {
    hide Parse, Dotted;
    MappedTurned(o, 1);
  }

  /** Two octets in brackets. */
  lemma AllOnes()
    ensures Parse("[::ffff:1.2]:8") == Parsed(V4([255, 255, 255, 255], 8))
  {
    hide Parse;
    assert [1, 2][1..] == [2];
    assert Dec(1) == "1" && Dec(2) == "2" && Dec(8) == "8";
    assert Dotted([2]) == "2" && Dotted([1, 2]) == "1" + "." + "2";
    BracketMapped([1, 2], 8);
    assert "[" + ("::ffff:" + ("1" + "." + "2")) + "]:" + "8" == "[::ffff:1.2]:8";
  }

  /** A number beyond 255 reaches into the one before it. */
  lemma {:induction false} OctetOverflows()
    ensures Parse("::ffff:1.2.4.256") == Parsed(V4([0, 5, 2, 1], DEF_PORT))
  {
    hide Run6, TailByte, Laid, Dec, Dotted;
    var o := [1, 2, 4, 256];
    OverflowText();
    var t := PREFIX + Dotted(o);
    AtWhole(t);
    DottedHead(o);
    PrefixRun(t, 0, -1, Dotted(o));
    AtSplit(t, 0, PREFIX, Dotted(o));
    DottedRun(t, 7, o, -1);
    var w := Laid(NO_WORDS, 0, o);
    Run6End(t, |t|, S6(w, 0, 3, -1, true));
    OverflowBytes();
  }

  lemma {:induction false} OverflowText()
    ensures PREFIX + Dotted([1, 2, 4, 256]) == "::ffff:1.2.4.256"
  {
    hide Dec, Dotted;
    OverflowNumbers();
    DottedMore([4, 256], [256]);
    DottedMore([2, 4, 256], [4, 256]);
    DottedMore([1, 2, 4, 256], [2, 4, 256]);
    assert Dotted([1, 2, 4, 256]) == "1" + "." + ("2" + "." + ("4" + "." + "256"));
  }

  lemma {:induction false} DottedMore(o: seq<nat>, rest: seq<nat>)
    requires |o| > 1 && rest == o[1..]
    ensures Dotted(o) == Dec(o[0]) + "." + Dotted(rest)
  {
  }

  lemma {:induction false} OverflowNumbers()
    ensures Dec(1) == "1" && Dec(2) == "2" && Dec(4) == "4" && Dotted([256]) == "256"
  {
    assert Dec(2) == "2";
    assert Dec(25) == Dec(2) + "5";
    assert Dec(256) == Dec(25) + "6";
  }

  lemma {:induction false} OverflowBytes()
    ensures seq(4, j requires 0 <= j < 4 => TailByte(Laid(NO_WORDS, 0, [1, 2, 4, 256]), 4, j)) == [0, 5, 2, 1]
  {
    var w := Laid(NO_WORDS, 0, [1, 2, 4, 256]);
    assert w[0] == 1 && w[1] == 2 && w[2] == 4 && w[3] == 256;
    hide Laid;
    forall j | 0 <= j < 4 ensures TailByte(w, 4, j) == [0, 5, 2, 1][j] { OverflowByte(w, j); }
  }

  lemma {:induction false} OverflowByte(w: seq<int>, j: nat)
    requires |w| == 9 && w[0] == 1 && w[1] == 2 && w[2] == 4 && w[3] == 256 && j < 4
    ensures TailByte(w, 4, j) == [0, 5, 2, 1][j]
  {
    hide OrByte;
    OrZero(0);
    OrZero(1);
    OrZero(2);
    OrZero(4);
    FourOrOne();
    assert TailByte(w, 1, j) == OrByte(0, WordByte(1, j - 3));
    assert TailByte(w, 2, j) == OrByte(TailByte(w, 1, j), WordByte(2, j - 2));
    assert TailByte(w, 3, j) == OrByte(TailByte(w, 2, j), WordByte(4, j - 1));
    assert TailByte(w, 4, j) == OrByte(TailByte(w, 3, j), WordByte(256, j));
  }

  lemma {:induction false} FourOrOne()
    ensures OrByte(4, 1) == 5
  {
    ByteSize();
    assert Pow2(0) == 1 && Pow2(1) == 2 && Pow2(2) == 4 && Pow2(3) == 8 && Pow2(4) == 16 && Pow2(5) == 32 && Pow2(6) == 64 && Pow2(7) == 128;
    OrNone(0, 5);
    assert Or(1, 0, 6) == 1 by { OrNone(1, 6); }
    assert Or(2, 0, 7) == 2 by { OrNone(2, 7); }
  }
}
