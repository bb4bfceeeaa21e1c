/** Printing and parsing of IPv4 and IPv6 addresses with ports. */
module Addr {
  import opened AddrText
  import opened Bits

  const DEF_PORT := 80
  const BUF_SIZE := 54

  /** Eight groups of sixteen bits and a port; IPv4 addresses are mapped. */
  datatype Addr = Addr(groups: seq<nat>, port: nat)

  predicate AddrOk(a: Addr) {
    |a.groups| == 8 && a.port < 0x1_0000 && forall i :: 0 <= i < 8 ==> a.groups[i] < 0x1_0000
  }

  predicate IsV4(a: Addr)
    requires AddrOk(a)
  {
    a.groups[..6] == [0, 0, 0, 0, 0, 0xFFFF]
  }

  function Octet(a: Addr, i: nat): nat
    requires AddrOk(a) && i < 4
  {
    if i % 2 == 0 then a.groups[6 + i / 2] / 256 else a.groups[6 + i / 2] % 256
  }

  function V4(o: seq<nat>, port: nat): Addr
    requires |o| == 4
  {
    Addr([0, 0, 0, 0, 0, 0xFFFF, o[0] * 256 + o[1], o[2] * 256 + o[3]], port)
  }

  predicate PrintsPort(a: Addr) {
    a.port != 0 && a.port != DEF_PORT
  }

  // ---------------------------------------------------------------- printed forms

  function V4Host(a: Addr): Text
    requires AddrOk(a)
  {
    Dec(Octet(a, 0)) + ("." + (Dec(Octet(a, 1)) + ("." + (Dec(Octet(a, 2)) + ("." + Dec(Octet(a, 3)))))))
  }

  function V4Text(a: Addr): Text
    requires AddrOk(a)
  {
    V4Host(a) + if PrintsPort(a) then ":" + Dec(a.port) else ""
  }

  /** Groups from `i` on.  The first run of zeros among the first seven groups is left out; `first`
      says that nothing has been printed before, `omitted` that a run was left out already. */
  function Groups(g: seq<nat>, i: nat, omitted: bool, first: bool): Text
    requires |g| == 8 && i <= 7
    decreases 7 - i
  {
    if i == 7 then Hex(g[7])
    else if g[i] != 0 || omitted then Hex(g[i]) + ":" + Groups(g, i + 1, omitted, false)
    else if g[i + 1] != 0 || i == 6 then (if first then "::" else ":") + Groups(g, i + 1, true, false)
    else Groups(g, i + 1, false, first)
  }

  function V6Text(a: Addr): Text
    requires AddrOk(a)
  {
    if PrintsPort(a) then "[" + Groups(a.groups, 0, false, true) + "]:" + Dec(a.port)
    else Groups(a.groups, 0, false, true)
  }

  function Print(a: Addr): Text
    requires AddrOk(a)
  {
    if IsV4(a) then V4Text(a) else V6Text(a)
  }

  // ---------------------------------------------------------------- IPv4 parser

  datatype Result = Parsed(a: Addr) | Invalid

  /** Scan state: current number or -1, numbers stored, and whether a port is being read. */
  datatype S4 = S4(octet: int, i: nat, port: bool, a: seq<nat>) | Stop4

  const START4 := S4(-1, 0, false, [0, 0, 0, 0])

  function Step4(s: S4, c: char): S4 {
    match s
    case Stop4 => Stop4
    case S4(octet, i, port, a) =>
      if IsDigit(c) then
        var o := if octet == -1 then DigitValue(c) else octet * 10 + DigitValue(c);
        if (!port && o > 255) || o > 0xFFFF then Stop4 else S4(o, i, port, a)
      else if octet >= 0 && ((c == '.' && i < 4) || (c == ':' && i == 3)) then
        if i < |a| then S4(-1, i + 1, c == ':', a[i := octet]) else Stop4
      else Stop4
  }

  function Run4(s: S4, t: Text): S4
    decreases t
  {
    if t == [] then s else Run4(Step4(s, t[0]), t[1..])
  }

  function End4(s: S4): Result {
    match s
    case Stop4 => Invalid
    case S4(octet, i, port, a) =>
      if octet >= 0 && i == 3 && |a| == 4 then Parsed(V4(a[3 := octet], DEF_PORT))
      else if octet >= 0 && i == 4 && |a| == 4 then Parsed(V4(a, octet))
      else Invalid
  }

  method Pton4(t: Text) returns (r: Result)
    ensures r == End4(Run4(START4, t))
  {
    var octet, i, port := -1, 0, false;
    var a: seq<nat> := [0, 0, 0, 0];
    for k := 0 to |t|
      invariant |a| == 4 && 0 <= i <= 4 && Run4(START4, t) == Run4(S4(octet, i, port, a), t[k..])
    {
      var c := t[k];
      assert t[k..][1..] == t[k + 1..];
      StopRun4(t[k + 1..]);
      if IsDigit(c) {
        octet := if octet == -1 then DigitValue(c) else octet * 10 + DigitValue(c);
        if (!port && octet > 255) || octet > 0xFFFF {
          return Invalid;
        }
      } else if octet >= 0 && ((c == '.' && i < 4) || (c == ':' && i == 3)) {
        a, i := a[i := octet], i + 1;
        octet := -1;
        port := c == ':';
      } else {
        return Invalid;
      }
    }
    assert t[|t|..] == [];
    if octet >= 0 {
      if i == 3 {
        return Parsed(V4(a[3 := octet], DEF_PORT));
      } else if i == 4 {
        return Parsed(V4(a, octet));
      }
    }
    r := Invalid;
  }

  lemma {:induction false} StopRun4(t: Text)
    ensures Run4(Stop4, t) == Stop4
    decreases t
  {
    if t != [] { StopRun4(t[1..]); }
  }

  lemma {:induction false} Run4Concat(s: S4, a: Text, b: Text)
    ensures Run4(s, a + b) == Run4(Run4(s, a), b)
    decreases a
  {
    if a == [] {
      assert a + b == b;
    } else {
      assert (a + b)[1..] == a[1..] + b;
      Run4Concat(Step4(s, a[0]), a[1..], b);
    }
  }

  /** Digits read back as the number they were printed from. */
  lemma {:induction false} DecRun4(i: nat, port: bool, a: seq<nat>, q: nat)
    requires q <= if port then 0xFFFF else 255
    ensures Run4(S4(-1, i, port, a), Dec(q)) == S4(q, i, port, a)
  {
    var s := S4(-1, i, port, a);
    if q < 10 {
      DigitBack(q);
      assert Dec(q)[1..] == [];
    } else {
      DecRun4(i, port, a, q / 10);
      DigitBack(q % 10);
      Run4Concat(s, Dec(q / 10), [DigitChar(q % 10)]);
      assert [DigitChar(q % 10)][1..] == [];
    }
  }

  lemma {:induction false} FieldRun4(i: nat, a: seq<nat>, q: nat, c: char, rest: Text)
    requires q <= 255 && |a| == 4 && ((c == '.' && i < 4) || (c == ':' && i == 3))
    ensures Run4(S4(-1, i, false, a), Dec(q) + ([c] + rest)) == Run4(S4(-1, i + 1, c == ':', a[i := q]), rest)
  {
    hide Dec;
    DecRun4(i, false, a, q);
    Run4Concat(S4(-1, i, false, a), Dec(q), [c] + rest);
    assert ([c] + rest)[1..] == rest;
  }

  lemma OctetsBack(a: Addr)
    requires AddrOk(a) && IsV4(a)
    ensures V4([Octet(a, 0), Octet(a, 1), Octet(a, 2), Octet(a, 3)], a.port) == a
    ensures forall i :: 0 <= i < 4 ==> Octet(a, i) <= 255
  {
    var g, h := a.groups[6], a.groups[7];
    assert g / 256 * 256 + g % 256 == g && h / 256 * 256 + h % 256 == h;
    assert a.groups == a.groups[..6] + [g, h];
  }

  /** Parsing a printed IPv4 address gives it back; port 0 is not printed and comes back as 80. */
  lemma V4RoundTrip(a: Addr)
    requires AddrOk(a) && IsV4(a)
    ensures End4(Run4(START4, V4Text(a))) == Parsed(Addr(a.groups, if a.port == 0 then DEF_PORT else a.port))
  {
    hide Dec, Run4;
    OctetsBack(a);
    var o0, o1, o2, o3 := Octet(a, 0), Octet(a, 1), Octet(a, 2), Octet(a, 3);
    var p := if PrintsPort(a) then ":" + Dec(a.port) else "";
    var t3 := Dec(o3) + p;
    var t2 := Dec(o2) + (['.'] + t3);
    var t1 := Dec(o1) + (['.'] + t2);
    assert V4Text(a) == Dec(o0) + (['.'] + t1) by { V4Assoc(Dec(o0), Dec(o1), Dec(o2), Dec(o3), p); }
    var z: seq<nat> := [0, 0, 0, 0];
    FieldRun4(0, z, o0, '.', t1);
    FieldRun4(1, z[0 := o0], o1, '.', t2);
    FieldRun4(2, z[0 := o0][1 := o1], o2, '.', t3);
    var y := z[0 := o0][1 := o1][2 := o2];
    assert y[3 := o3] == [o0, o1, o2, o3];
    if PrintsPort(a) {
      FieldRun4(3, y, o3, ':', Dec(a.port));
      DecRun4(4, true, y[3 := o3], a.port);
    } else {
      DecRun4(3, false, y, o3);
      assert t3 == Dec(o3);
    }
  }

  lemma V4Assoc(a: Text, b: Text, c: Text, d: Text, p: Text)
    ensures (a + ("." + (b + ("." + (c + ("." + d)))))) + p == a + (['.'] + (b + (['.'] + (c + (['.'] + (d + p))))))
  {
  }

  // ---------------------------------------------------------------- IPv6 parser

  /** Scan state: up to eight words and the port, the place of the left-out run, the current word and
      whether a port is expected (-1: no bracket seen, 0: inside, 1: behind). */
  datatype S6 = S6(words: seq<int>, hole: int, i: nat, port: int, mapped: bool) | Stop6

  const NO_WORDS := [-1, -1, -1, -1, -1, -1, -1, -1, -1]
  const START6 := S6(NO_WORDS, -1, 0, -1, false)

  /** Take the character at `k`; a double colon takes two. */
  function Step6(t: Text, k: nat, s: S6): (S6, nat)
    requires k < |t|
  {
    match s
    case Stop6 => (Stop6, k + 1)
    case S6(words, hole, i, port, mapped) =>
      if (i > 7 && !(i == 8 && port == 1)) || |words| != 9 then (Stop6, k + 1)
      else if t[k] == '[' then (S6(words, hole, i, 0, mapped), k + 1)
      else if t[k] == ':' then
        if k + 1 < |t| && t[k + 1] == ':' then
          var h := if words[i] != -1 then i + 1 else i;
          (S6(words, h, if port == 1 then 8 else h + 1, port, mapped), k + 2)
        else if words[i] == -1 then (Stop6, k + 1)
        else (S6(words, hole, if port == 1 then 8 else i + 1, port, mapped), k + 1)
      else if t[k] == '.' then (Dot(words, hole, i + 1, port, mapped), k + 1)
      else if IsXDigit(t[k]) then (Digit(words, hole, i, port, mapped, t[k]), k + 1)
      else if t[k] == ']' then (S6(words, hole, i, 1, mapped), k + 1)
      else (Stop6, k + 1)
  }

  /** A dotted tail: two hexadecimal octets turn out to have been one decimal octet. */
  function Dot(words: seq<int>, hole: int, i: nat, port: int, mapped: bool): S6
    requires |words| == 9
  {
    if mapped then S6(words, hole, i, port, mapped)
    else if words[0] != -1 || words[1] != 0xFFFF || words[2] == -1 || i != 3 || hole != 0 then Stop6
    else
      var w := words[2] / 0x1000 % 16 * 1000 + words[2] / 0x100 % 16 * 100 + words[2] / 16 % 16 * 10 + words[2] % 16;
      if w > 255 then Stop6 else S6(words[0 := w][1 := -1][2 := -1], hole, 1, port, true)
  }

  function Digit(words: seq<int>, hole: int, i: nat, port: int, mapped: bool, c: char): S6
    requires |words| == 9 && i < 9 && IsXDigit(c)
  {
    var w := if words[i] == -1 then 0 else words[i];
    if mapped || port == 1 then
      if !IsDigit(c) then Stop6
      else
        var v := w * 10 + DigitValue(c);
        if (port != 0 && v > 0xFFFF) || (port == 0 && v > 255) then Stop6 else S6(words[i := v], hole, i, port, mapped)
    else
      var v := w * 16 + XValue(c);
      if v > 0xFFFF then Stop6 else S6(words[i := v], hole, i, port, mapped)
  }

  function Run6(t: Text, k: nat, s: S6): S6
    decreases |t| - k
  {
    if k >= |t| || s.Stop6? then s
    else var (s', k') := Step6(t, k, s); Run6(t, k', s')
  }

  predicate Sane(s: S6)
    requires s.S6? && |s.words| == 9
  {
    && s.port != 0 && (s.port == -1 || s.words[8] > 0)
    && !(s.mapped && s.hole == -1) && !(s.mapped && s.port == -1 && s.i != 3)
    && !(s.port == 1 && s.i != 8) && !(s.port == -1 && s.i < 7 && s.hole == -1)
  }

  /** Spread the words over the eight groups from the right: `a` is the next group to be set. */
  function Spread(words: seq<int>, hole: int, i: int, a: int, g: seq<nat>): seq<nat>
    requires |words| == 9 && |g| == 8 && -1 <= i <= 7 && -1 <= a <= 7
    decreases i + a
  {
    if i < 0 || a < 0 then g
    else if words[i] == -1 then
      if i > hole then Spread(words, hole, i - 1, a, g)
      else if a == i && i != 0 then Spread(words, hole, i - 1, a - 1, g)
      else Spread(words, hole, i, a - 1, g)
    else Spread(words, hole, i - 1, a - 1, g[a := if words[i] >= 0 then words[i] else 0])
  }

  /** Byte `d` of a word, as a 32-bit integer: words have up to 16 bits, and -1 is all ones. */
  function WordByte(w: int, d: int): (b: nat)
    ensures b < 256
  {
    if d < 0 then 0 else if w < 0 then 255 else if d == 0 then w % 256 else if d == 1 then w / 256 % 256 else 0
  }

  /** The bits of either number, of `n` bits each. */
  function Or(a: nat, b: nat, n: nat): (c: nat)
    requires a < Pow2(n) && b < Pow2(n)
    ensures c < Pow2(n)
  {
    if n == 0 then 0 else 2 * Or(a / 2, b / 2, n - 1) + if a % 2 == 1 || b % 2 == 1 then 1 else 0
  }

  function OrByte(a: nat, b: nat): (c: nat)
    requires a < 256 && b < 256
    ensures c < 256
  {
    ByteSize();
    Or(a, b, 8)
  }

  lemma ByteSize()
    ensures Pow2(8) == 256
  {
    Pow2Add(4, 4);
    assert Pow2(4) == 16;
  }

  /** Byte `j` in memory of the first `n` words of a dotted tail, put into one number with the first word
      on top; the host keeps the low byte first. */
  function TailByte(words: seq<int>, n: nat, j: nat): (b: nat)
    requires n <= 4 <= |words|
    ensures b < 256
  {
    if n == 0 then 0 else OrByte(TailByte(words, n - 1, j), WordByte(words[n - 1], j - (4 - n)))
  }

  const ZERO_GROUPS: seq<nat> := [0, 0, 0, 0, 0, 0, 0, 0]

  function End6(s: S6): Result {
    if s.Stop6? || |s.words| != 9 || !Sane(s) then Invalid
    else
      var port := if s.port == -1 then DEF_PORT else if s.words[8] >= 0 then s.words[8] else 0;
      if s.mapped then Parsed(V4(seq(4, j requires 0 <= j < 4 => TailByte(s.words, 4, j)), port))
      else Parsed(Addr(Spread(s.words, s.hole, 7, 7, ZERO_GROUPS), port))
  }

  method Pton6(t: Text) returns (r: Result)
    ensures r == End6(Run6(t, 0, START6))
  {
    hide Step6, Run6, Dot, Digit;
    var s, k := START6, 0;
    while k < |t|
      invariant s.S6? && Run6(t, k, s) == Run6(t, 0, START6)
      decreases |t| - k
    {
      var (s', k') := Step6(t, k, s);
      Run6Step(t, k, s);
      if s'.Stop6? {
        Run6Stop(t, k');
        return Invalid;
      }
      s, k := s', k';
    }
    Run6End(t, k, s);
    if |s.words| != 9 || !Sane(s) {
      return Invalid;
    }
    var port := if s.port == -1 then DEF_PORT else if s.words[8] >= 0 then s.words[8] else 0;
    if s.mapped {
      var o := Tail4(s.words);
      r := Parsed(V4(o, port));
    } else {
      var g := Copy(s.words, s.hole);
      r := Parsed(Addr(g, port));
    }
  }

  /** The number made up by a dotted tail, as its bytes lie in memory. */
  method Tail4(words: seq<int>) returns (o: seq<nat>)
    requires |words| == 9
    ensures o == seq(4, j requires 0 <= j < 4 => TailByte(words, 4, j))
  {
    o := [0, 0, 0, 0];
    for i := 0 to 4
      invariant |o| == 4 && forall j :: 0 <= j < 4 ==> o[j] == TailByte(words, i, j)
    {
      o := seq(4, j requires 0 <= j < 4 => OrByte(o[j], WordByte(words[i], j - (3 - i))));
    }
  }

  /** Copy the parsed words into the address, filling the hole with zeros. */
  method Copy(words: seq<int>, hole: int) returns (g: seq<nat>)
    requires |words| == 9
    ensures g == Spread(words, hole, 7, 7, ZERO_GROUPS)
  {
    hide Spread;
    var i, a := 7, 7;
    g := ZERO_GROUPS;
    while i >= 0 && a >= 0
      invariant -1 <= i <= 7 && -1 <= a <= 7 && |g| == 8
      invariant Spread(words, hole, i, a, g) == Spread(words, hole, 7, 7, ZERO_GROUPS)
      decreases i + a
    {
      SpreadStep(words, hole, i, a, g);
      if words[i] == -1 {
        if i > hole {
          i := i - 1;
        } else {
          if a == i && i != 0 {
            i := i - 1;
          }
          a := a - 1;
        }
      } else {
        g := g[a := if words[i] >= 0 then words[i] else 0];
        a, i := a - 1, i - 1;
      }
    }
    SpreadEnd(words, hole, i, a, g);
  }

  lemma SpreadStep(words: seq<int>, hole: int, i: int, a: int, g: seq<nat>)
    requires |words| == 9 && |g| == 8 && 0 <= i <= 7 && 0 <= a <= 7
    ensures Spread(words, hole, i, a, g) ==
      if words[i] == -1 then
        if i > hole then Spread(words, hole, i - 1, a, g)
        else if a == i && i != 0 then Spread(words, hole, i - 1, a - 1, g)
        else Spread(words, hole, i, a - 1, g)
      else Spread(words, hole, i - 1, a - 1, g[a := if words[i] >= 0 then words[i] else 0])
  {
  }

  lemma {:induction false} SpreadEnd(words: seq<int>, hole: int, i: int, a: int, g: seq<nat>)
    requires |words| == 9 && |g| == 8 && -1 <= i <= 7 && -1 <= a <= 7 && (i < 0 || a < 0)
    ensures Spread(words, hole, i, a, g) == g
  {
  }

  lemma {:induction false} Run6Step(t: Text, k: nat, s: S6)
    requires k < |t| && s.S6?
    ensures Step6(t, k, s).1 > k && Run6(t, k, s) == Run6(t, Step6(t, k, s).1, Step6(t, k, s).0)
  {
  }

  lemma {:induction false} Run6Stop(t: Text, k: nat)
    ensures Run6(t, k, Stop6) == Stop6
  {
  }

  lemma {:induction false} Run6End(t: Text, k: nat, s: S6)
    requires k >= |t|
    ensures Run6(t, k, s) == s
  {
  }

  // ---------------------------------------------------------------- IPv6 round trip

  /** `t` has the text `x` at `k`. */
  predicate At(t: Text, k: nat, x: Text) {
    k + |x| <= |t| && t[k..k + |x|] == x
  }

  lemma AtSplit(t: Text, k: nat, x: Text, y: Text)
    ensures At(t, k, x + y) <==> At(t, k, x) && At(t, k + |x|, y)
  {
    if k + |x| + |y| <= |t| {
      var m, n := k + |x|, k + |x| + |y|;
      assert t[k..n] == t[k..m] + t[m..n];
      assert t[k..n] == x + y ==> t[k..m] == t[k..n][..|x|] == x && t[m..n] == t[k..n][|x|..] == y;
    }
  }

  /** A group is read into the current word. */
  lemma {:induction false} HexRun(t: Text, k: nat, words: seq<int>, hole: int, i: nat, port: int, g: nat)
    requires At(t, k, Hex(g)) && g <= 0xFFFF && |words| == 9 && i <= 7 && words[i] == -1 && port != 1
    ensures Run6(t, k, S6(words, hole, i, port, false)) == Run6(t, k + |Hex(g)|, S6(words[i := g], hole, i, port, false))
    decreases g
  {
    hide Run6;
    if g < 16 {
      assert t[k] == HexChar(g) by { assert t[k..k + 1][0] == t[k]; }
      HexBack(g);
      Run6Step(t, k, S6(words, hole, i, port, false));
    } else {
      var h, d := g / 16, HexChar(g % 16);
      AtSplit(t, k, Hex(h), [d]);
      HexRun(t, k, words, hole, i, port, h);
      HexBack(g % 16);
      var k1 := k + |Hex(h)|;
      assert t[k1] == d by { assert t[k1..k1 + 1][0] == t[k1]; }
      var s := S6(words[i := h], hole, i, port, false);
      Run6Step(t, k1, s);
      assert words[i := h][i := g] == words[i := g];
    }
  }

  /** What the parser knows after the groups: either all eight words, or a hole for groups `z` to `e`. */
  ghost predicate Holds(words: seq<int>, hole: int, g: seq<nat>) {
    && |words| == 9 && |g| == 8
    && if hole == -1 then forall j :: 0 <= j < 8 ==> words[j] == g[j]
       else exists e :: HoldsHole(words, hole, g, e)
  }

  ghost predicate HoldsHole(words: seq<int>, z: int, g: seq<nat>, e: int)
    requires |words| == 9 && |g| == 8
  {
    && 0 <= z <= e <= 6 && words[z] == -1 && words[..z] == g[..z]
    && (forall j :: z <= j <= e ==> g[j] == 0)
    && words[z + 1..z + 8 - e] == g[e + 1..]
    && (forall j :: z + 8 - e <= j < 8 ==> words[j] == -1)
  }

  /** The first character of printed groups is a digit when a run was left out before or none begins here. */
  lemma {:induction false} GroupsHead(g: seq<nat>, i: nat, omitted: bool, first: bool)
    requires |g| == 8 && i <= 7 && (omitted || g[i] != 0 || i == 7)
    ensures |Groups(g, i, omitted, first)| > 0 && IsXDigit(Groups(g, i, omitted, first)[0])
  {
    hide Hex;
  }

  /** A group and the colon behind it, with another group behind that. */
  lemma {:induction false} GroupColon(t: Text, k: nat, words: seq<int>, hole: int, q: nat, port: int, x: nat)
    requires At(t, k, Hex(x) + ":") && x <= 0xFFFF && |words| == 9 && q <= 7 && words[q] == -1 && (port == -1 || port == 0)
    requires k + |Hex(x)| + 1 < |t| && t[k + |Hex(x)| + 1] != ':'
    ensures Run6(t, k, S6(words, hole, q, port, false)) == Run6(t, k + |Hex(x)| + 1, S6(words[q := x], hole, q + 1, port, false))
  {
    hide Run6, Hex;
    AtSplit(t, k, Hex(x), ":");
    HexRun(t, k, words, hole, q, port, x);
    var k1 := k + |Hex(x)|;
    assert t[k1] == ':' by { assert t[k1..k1 + 1][0] == t[k1]; }
    Run6Step(t, k1, S6(words[q := x], hole, q, port, false));
  }

  /** A group and the double colon of a left-out run. */
  lemma {:induction false} GroupHole(t: Text, k: nat, words: seq<int>, q: nat, port: int, x: nat)
    requires At(t, k, Hex(x) + "::") && x <= 0xFFFF && |words| == 9 && q < 7 && words[q] == -1 && (port == -1 || port == 0)
    ensures Run6(t, k, S6(words, -1, q, port, false)) == Run6(t, k + |Hex(x)| + 2, S6(words[q := x], q + 1, q + 2, port, false))
  {
    hide Run6, Hex;
    AtSplit(t, k, Hex(x), "::");
    HexRun(t, k, words, -1, q, port, x);
    var k1 := k + |Hex(x)|;
    assert t[k1] == ':' && t[k1 + 1] == ':' by { assert t[k1..k1 + 2][0] == t[k1] && t[k1..k1 + 2][1] == t[k1 + 1]; }
    Run6Step(t, k1, S6(words[q := x], -1, q, port, false));
  }

  /** Groups behind a left-out run fill the words from `q` on. */
  lemma {:induction false} RestRun(t: Text, k: nat, g: seq<nat>, i: nat, words: seq<int>, hole: int, q: nat, port: int) returns (w: seq<int>)
    requires |g| == 8 && i <= 7 && (forall j :: 0 <= j < 8 ==> g[j] <= 0xFFFF) && At(t, k, Groups(g, i, true, false))
    requires |words| == 9 && q + 7 - i <= 7 && (forall j :: q <= j < 8 ==> words[j] == -1) && (port == -1 || port == 0)
    ensures |w| == 9 && w[8] == words[8] && (forall j :: 0 <= j < q || q + 8 - i <= j < 8 ==> w[j] == words[j])
    ensures w[q..q + 8 - i] == g[i..]
    ensures Run6(t, k, S6(words, hole, q, port, false)) == Run6(t, k + |Groups(g, i, true, false)|, S6(w, hole, q + 7 - i, port, false))
    decreases 7 - i
  {
    hide Run6, Hex, Groups, At;
    GroupsUnfold(g, i, true, false);
    if i == 7 {
      HexRun(t, k, words, hole, q, port, g[7]);
      w := words[q := g[7]];
      assert g[7..] == [g[7]];
    } else {
      var rest := Groups(g, i + 1, true, false);
      var k1 := k + |Hex(g[i])| + 1;
      AtSplit(t, k, Hex(g[i]) + ":", rest);
      GroupsHead(g, i + 1, true, false);
      AtHead(t, k1, rest);
      GroupColon(t, k, words, hole, q, port, g[i]);
      w := RestRun(t, k1, g, i + 1, words[q := g[i]], hole, q + 1, port);
      assert w[q..q + 8 - i] == [w[q]] + w[q + 1..q + 8 - i] && g[i..] == [g[i]] + g[i + 1..];
    }
  }

  /** The last group of the run of zeros that begins at `z`, within the first seven. */
  function RunEnd(g: seq<nat>, z: nat): (e: nat)
    requires |g| == 8 && z <= 6 && g[z] == 0
    ensures z <= e <= 6 && forall j :: z <= j <= e ==> g[j] == 0
    decreases 6 - z
  {
    if z == 6 || g[z + 1] != 0 then z else RunEnd(g, z + 1)
  }

  lemma {:induction false} ZeroRun(g: seq<nat>, z: nat, first: bool)
    requires |g| == 8 && z <= 6 && g[z] == 0
    ensures Groups(g, z, false, first) == (if first then "::" else ":") + Groups(g, RunEnd(g, z) + 1, true, false)
    decreases 6 - z
  {
    if !(z == 6 || g[z + 1] != 0) { ZeroRun(g, z + 1, first); }
  }

  ghost predicate GroupsOk(g: seq<nat>) {
    |g| == 8 && forall j :: 0 <= j < 8 ==> g[j] <= 0xFFFF
  }

  /** The words before group `i` are read, the rest is free. */
  ghost predicate Reading(words: seq<int>, g: seq<nat>, i: nat)
    requires |g| == 8
  {
    |words| == 9 && i <= 7 && words[..i] == g[..i] && forall j :: i <= j < 8 ==> words[j] == -1
  }

  /** What the groups leave behind. */
  ghost predicate Read(w: seq<int>, hole: int, q: nat, g: seq<nat>, w8: int) {
    Holds(w, hole, g) && w[8] == w8 && q <= 7 && w[q] != -1 && (hole == -1 ==> q == 7)
  }

  /** Behind a double colon at place `z`. */
  lemma HoleRun(t: Text, k: nat, g: seq<nat>, z: nat, words: seq<int>, port: int) returns (w: seq<int>)
    requires GroupsOk(g) && z <= 6 && g[z] == 0 && Reading(words, g, z) && (port == -1 || port == 0)
    requires At(t, k, Groups(g, RunEnd(g, z) + 1, true, false))
    ensures Read(w, z, z + 7 - RunEnd(g, z), g, words[8])
    ensures Run6(t, k, S6(words, z, z + 1, port, false)) ==
      Run6(t, k + |Groups(g, RunEnd(g, z) + 1, true, false)|, S6(w, z, z + 7 - RunEnd(g, z), port, false))
  {
    hide Run6, Groups;
    var e := RunEnd(g, z);
    w := RestRun(t, k, g, e + 1, words, z, z + 1, port);
    assert w[..z] == words[..z];
    assert HoldsHole(w, z, g, e);
    assert w[z + 1..z + 8 - e][6 - e] == g[e + 1..][6 - e] == g[7];
  }

  lemma AtHead(t: Text, k: nat, x: Text)
    requires At(t, k, x) && |x| > 0
    ensures k < |t| && t[k] == x[0]
  {
    assert t[k..k + |x|][0] == t[k];
  }

  lemma {:induction false} GroupsLast(g: seq<nat>, first: bool)
    requires |g| == 8
    ensures Groups(g, 7, false, first) == Hex(g[7])
  {
  }

  lemma ReadingSize(words: seq<int>, g: seq<nat>, i: nat)
    requires |g| == 8 && Reading(words, g, i)
    ensures |words| == 9 && i <= 7
  {
  }

  lemma ReadingFree(words: seq<int>, g: seq<nat>, i: nat)
    requires |g| == 8 && Reading(words, g, i)
    ensures |words| == 9 && i <= 7 && words[i] == -1
  {
  }

  lemma GroupsNext(g: seq<nat>, i: nat, first: bool)
    requires |g| == 8 && i < 7 && g[i] != 0
    ensures Groups(g, i, false, first) == (Hex(g[i]) + ":") + Groups(g, i + 1, false, false)
  {
  }

  lemma ReadingNext(words: seq<int>, g: seq<nat>, i: nat)
    requires |g| == 8 && Reading(words, g, i) && i < 7
    ensures Reading(words[i := g[i]], g, i + 1)
  {
    assert words[i := g[i]][..i + 1] == words[..i] + [g[i]] && g[..i + 1] == g[..i] + [g[i]];
  }

  lemma {:induction false} LastRun(t: Text, k: nat, g: seq<nat>, words: seq<int>, port: int)
    requires GroupsOk(g) && Reading(words, g, 7) && (port == -1 || port == 0) && At(t, k, Hex(g[7]))
    ensures Read(words[7 := g[7]], -1, 7, g, words[8])
    ensures Run6(t, k, S6(words, -1, 7, port, false)) == Run6(t, k + |Hex(g[7])|, S6(words[7 := g[7]], -1, 7, port, false))
  {
    hide Run6, Hex;
    HexRun(t, k, words, -1, 7, port, g[7]);
    assert forall j :: 0 <= j < 7 ==> words[j] == words[..7][j] == g[..7][j];
  }

  /** A group with the left-out run right behind it. */
  lemma HoleAfter(t: Text, k: nat, g: seq<nat>, i: nat, words: seq<int>, port: int) returns (w: seq<int>)
    requires GroupsOk(g) && i < 6 && g[i + 1] == 0 && Reading(words, g, i) && (port == -1 || port == 0)
    requires At(t, k, (Hex(g[i]) + ":") + Groups(g, i + 1, false, false))
    ensures Read(w, i + 1, i + 8 - RunEnd(g, i + 1), g, words[8])
    ensures Run6(t, k, S6(words, -1, i, port, false)) ==
      Run6(t, k + |Hex(g[i])| + 1 + |Groups(g, i + 1, false, false)|, S6(w, i + 1, i + 8 - RunEnd(g, i + 1), port, false))
  {
    hide Run6, Hex, Groups;
    var n, tail := |Hex(g[i])|, Groups(g, RunEnd(g, i + 1) + 1, true, false);
    AtSplit(t, k, Hex(g[i]) + ":", Groups(g, i + 1, false, false));
    ZeroRun(g, i + 1, false);
    AtSplit(t, k + n + 1, ":", tail);
    AtSplit(t, k, Hex(g[i]) + ":", ":");
    assert (Hex(g[i]) + ":") + ":" == Hex(g[i]) + "::";
    GroupHole(t, k, words, i, port, g[i]);
    ReadingNext(words, g, i);
    w := HoleRun(t, k + n + 2, g, i + 1, words[i := g[i]], port);
  }

  lemma {:induction false} GroupsRun(t: Text, k: nat, g: seq<nat>, i: nat, words: seq<int>, port: int) returns (w: seq<int>, hole: int, q: nat)
    requires GroupsOk(g) && Reading(words, g, i) && (i == 7 || g[i] != 0) && (port == -1 || port == 0)
    requires At(t, k, Groups(g, i, false, i == 0))
    ensures Read(w, hole, q, g, words[8])
    ensures Run6(t, k, S6(words, -1, i, port, false)) == Run6(t, k + |Groups(g, i, false, i == 0)|, S6(w, hole, q, port, false))
    decreases 7 - i
  {
    hide Run6, Hex, Groups, Read, At, Reading;
    ReadingSize(words, g, i);
    if i == 7 {
      GroupsLast(g, false);
      LastRun(t, k, g, words, port);
      w, hole, q := words[7 := g[7]], -1, 7;
    } else {
      GroupsNext(g, i, i == 0);
      if i + 1 < 7 && g[i + 1] == 0 {
        w := HoleAfter(t, k, g, i, words, port);
        hole, q := i + 1, i + 8 - RunEnd(g, i + 1);
      } else {
        var rest, m := Groups(g, i + 1, false, false), k + |Hex(g[i])| + 1;
        AtSplit(t, k, Hex(g[i]) + ":", rest);
        GroupsHead(g, i + 1, false, false);
        AtHead(t, m, rest);
        ReadingFree(words, g, i);
        GroupColon(t, k, words, -1, i, port, g[i]);
        ReadingNext(words, g, i);
        w, hole, q := GroupsRun(t, m, g, i + 1, words[i := g[i]], port);
      }
    }
  }

  /** All groups, from the beginning of the text or behind the bracket. */
  lemma AllGroupsRun(t: Text, k: nat, g: seq<nat>, port: int) returns (w: seq<int>, hole: int, q: nat)
    requires GroupsOk(g) && (port == -1 || port == 0) && At(t, k, Groups(g, 0, false, true))
    ensures Read(w, hole, q, g, -1)
    ensures Run6(t, k, S6(NO_WORDS, -1, 0, port, false)) == Run6(t, k + |Groups(g, 0, false, true)|, S6(w, hole, q, port, false))
  {
    hide Run6, Hex, Groups;
    if g[0] != 0 {
      w, hole, q := GroupsRun(t, k, g, 0, NO_WORDS, port);
    } else {
      ZeroRun(g, 0, true);
      AtSplit(t, k, "::", Groups(g, RunEnd(g, 0) + 1, true, false));
      assert t[k] == ':' && t[k + 1] == ':' by { assert t[k..k + 2][0] == t[k] && t[k..k + 2][1] == t[k + 1]; }
      Run6Step(t, k, S6(NO_WORDS, -1, 0, port, false));
      w := HoleRun(t, k + 2, g, 0, NO_WORDS, port);
      hole, q := 0, 7 - RunEnd(g, 0);
    }
  }

  // ---------------------------------------------------------------- spreading the words

  /** Words before the hole go to their own places. */
  lemma {:induction false} SpreadPrefix(words: seq<int>, hole: int, g: seq<nat>, i: int, acc: seq<nat>)
    requires |words| == 9 && |g| == |acc| == 8 && -1 <= i <= 7 && forall j :: 0 <= j <= i ==> words[j] == g[j]
    ensures Spread(words, hole, i, i, acc) == g[..i + 1] + acc[i + 1..]
    decreases i
  {
    if i >= 0 {
      SpreadPrefix(words, hole, g, i - 1, acc[i := g[i]]);
      PrefixGrows(g, acc, i);
    }
  }

  lemma PrefixGrows(g: seq<nat>, acc: seq<nat>, i: nat)
    requires |g| == |acc| == 8 && i <= 7
    ensures g[..i] + acc[i := g[i]][i..] == g[..i + 1] + acc[i + 1..]
  {
  }

  /** The hole takes up groups down to its own place and sets none. */
  lemma {:induction false} SpreadGap(words: seq<int>, z: nat, a: nat, acc: seq<nat>)
    requires |words| == 9 && |acc| == 8 && z <= a <= 7 && words[z] == -1
    ensures Spread(words, z, z, a, acc) == if z == 0 then acc else Spread(words, z, z - 1, z - 1, acc)
    decreases a
  {
    if a > z { SpreadGap(words, z, a - 1, acc); }
  }

  /** Words behind the hole are moved to the end. */
  lemma {:induction false} SpreadTail(words: seq<int>, z: nat, e: nat, g: seq<nat>, i: nat, acc: seq<nat>)
    requires |words| == 9 && |g| == |acc| == 8 && z <= e <= 6 && z <= i <= z + 7 - e
    requires words[z + 1..z + 8 - e] == g[e + 1..]
    ensures Spread(words, z, i, i + e - z, acc) == Spread(words, z, z, e, acc[..e + 1] + g[e + 1..i + e - z + 1] + acc[i + e - z + 1..])
    decreases i
  {
    var a := i + e - z;
    if i == z {
      assert acc[..e + 1] + [] + acc[e + 1..] == acc;
    } else {
      assert words[i] == words[z + 1..z + 8 - e][i - z - 1] == g[e + 1..][i - z - 1] == g[a];
      SpreadTail(words, z, e, g, i - 1, acc[a := g[a]]);
      TailGrows(g, acc, e, a);
    }
  }

  lemma TailGrows(g: seq<nat>, acc: seq<nat>, e: nat, a: nat)
    requires |g| == |acc| == 8 && e < a <= 7
    ensures var next := acc[a := g[a]]; next[..e + 1] + g[e + 1..a] + next[a..] == acc[..e + 1] + g[e + 1..a + 1] + acc[a + 1..]
  {
    var next := acc[a := g[a]];
    assert next[..e + 1] == acc[..e + 1];
    assert g[e + 1..a + 1] == g[e + 1..a] + [g[a]];
    assert next[a..] == [g[a]] + acc[a + 1..];
  }

  lemma {:induction false} SpreadSkip(words: seq<int>, z: nat, i: nat, m: nat, acc: seq<nat>)
    requires |words| == 9 && |acc| == 8 && z < m <= i <= 7 && forall j :: m < j <= i ==> words[j] == -1
    ensures Spread(words, z, i, 7, acc) == Spread(words, z, m, 7, acc)
    decreases i
  {
    if i > m { SpreadSkip(words, z, i - 1, m, acc); }
  }

  lemma Filled(g: seq<nat>, z: nat, e: nat)
    requires |g| == 8 && z <= e <= 6 && forall j :: z <= j <= e ==> g[j] == 0
    ensures g == g[..z] + (ZERO_GROUPS[..e + 1] + g[e + 1..8] + ZERO_GROUPS[8..])[z..]
  {
    var acc := ZERO_GROUPS[..e + 1] + g[e + 1..8] + ZERO_GROUPS[8..];
    assert forall j :: z <= j < 8 ==> acc[j] == g[j];
  }

  lemma {:induction false} SpreadHole(words: seq<int>, z: nat, g: seq<nat>, e: nat)
    requires |words| == 9 && |g| == 8 && HoldsHole(words, z, g, e)
    ensures Spread(words, z, 7, 7, ZERO_GROUPS) == g
  {
    hide Spread;
    SpreadSkip(words, z, 7, z + 7 - e, ZERO_GROUPS);
    SpreadTail(words, z, e, g, z + 7 - e, ZERO_GROUPS);
    var acc := ZERO_GROUPS[..e + 1] + g[e + 1..8] + ZERO_GROUPS[8..];
    SpreadGap(words, z, e, acc);
    Filled(g, z, e);
    if z > 0 {
      assert forall j :: 0 <= j < z ==> words[j] == words[..z][j] == g[..z][j];
      SpreadPrefix(words, z, g, z - 1, acc);
    } else {
      assert g[..0] + acc[0..] == acc;
    }
  }

  /** Zero-run expansion undoes zero-run compression. */
  lemma {:induction false} SpreadBack(words: seq<int>, hole: int, g: seq<nat>)
    requires Holds(words, hole, g)
    ensures Spread(words, hole, 7, 7, ZERO_GROUPS) == g
  {
    hide Spread, HoldsHole;
    if hole == -1 {
      SpreadPrefix(words, -1, g, 7, ZERO_GROUPS);
      assert g[..8] + ZERO_GROUPS[8..] == g;
    } else {
      var e :| HoldsHole(words, hole, g, e);
      assert 0 <= hole && 0 <= e by { HoleBounds(words, hole, g, e); }
      SpreadHole(words, hole, g, e);
    }
  }

  lemma HoleBounds(words: seq<int>, z: int, g: seq<nat>, e: int)
    requires |words| == 9 && |g| == 8 && HoldsHole(words, z, g, e)
    ensures 0 <= z <= e <= 6
  {
  }

  // ---------------------------------------------------------------- the whole parser

  /** The first character from `k` on that is not a digit. */
  function FirstOther(t: Text, k: nat): (j: nat)
    requires k <= |t|
    ensures k <= j <= |t| && (j < |t| ==> !IsDigit(t[j])) && forall i :: k <= i < j ==> IsDigit(t[i])
    decreases |t| - k
  {
    if k == |t| || !IsDigit(t[k]) then k else FirstOther(t, k + 1)
  }

  /** Which kind of address the text begins like; 0 for neither. */
  function Mode(t: Text): nat
    requires |t| > 0
  {
    if t[0] == '[' || IsAlpha(t[0]) then 6
    else
      var j := FirstOther(t, 0);
      if j == |t| then 0 else if t[j] == ':' then 6 else if t[j] == '.' then 4 else 0
  }

  function Parse(t: Text): Result
    requires |t| > 0
  {
    if Mode(t) == 4 then End4(Run4(START4, t)) else if Mode(t) == 6 then End6(Run6(t, 0, START6)) else Invalid
  }

  method Pton(t: Text) returns (r: Result)
    requires |t| > 0
    ensures r == Parse(t)
  {
    var mode := 0;
    if t[0] == '[' || IsAlpha(t[0]) {
      mode := 6;
    } else {
      var pos := 0;
      while pos < |t| && IsDigit(t[pos])
        invariant pos <= |t| && FirstOther(t, pos) == FirstOther(t, 0)
      {
        pos := pos + 1;
      }
      if pos == |t| {
        return Invalid;
      }
      if t[pos] == ':' {
        mode := 6;
      } else if t[pos] == '.' {
        mode := 4;
      }
    }
    if mode == 4 {
      r := Pton4(t);
    } else if mode == 6 {
      r := Pton6(t);
    } else {
      r := Invalid;
    }
  }

  // ---------------------------------------------------------------- round trips

  lemma {:induction false} PortRun(t: Text, k: nat, words: seq<int>, hole: int, mapped: bool, q: nat)
    requires At(t, k, Dec(q)) && q <= 0xFFFF && |words| == 9 && words[8] == -1
    ensures Run6(t, k, S6(words, hole, 8, 1, mapped)) == Run6(t, k + |Dec(q)|, S6(words[8 := q], hole, 8, 1, mapped))
    decreases q
  {
    hide Run6;
    if q < 10 {
      AtHead(t, k, Dec(q));
      DigitBack(q);
      Run6Step(t, k, S6(words, hole, 8, 1, mapped));
    } else {
      var h, d := q / 10, DigitChar(q % 10);
      AtSplit(t, k, Dec(h), [d]);
      PortRun(t, k, words, hole, mapped, h);
      DigitBack(q % 10);
      AtHead(t, k + |Dec(h)|, [d]);
      Run6Step(t, k + |Dec(h)|, S6(words[8 := h], hole, 8, 1, mapped));
      assert words[8 := h][8 := q] == words[8 := q];
    }
  }

  lemma HoldsPort(w: seq<int>, hole: int, g: seq<nat>, p: nat)
    requires Holds(w, hole, g)
    ensures Holds(w[8 := p], hole, g)
  {
    var x := w[8 := p];
    if hole != -1 {
      var e :| HoldsHole(w, hole, g, e);
      assert x[..hole] == w[..hole] && x[hole + 1..hole + 8 - e] == w[hole + 1..hole + 8 - e];
      assert HoldsHole(x, hole, g, e);
    }
  }

  /** The bracketed form with a port. */
  lemma BracketedBack(a: Addr)
    requires AddrOk(a) && PrintsPort(a)
    ensures End6(Run6(V6Text(a), 0, START6)) == Parsed(a)
  {
    hide Run6, Groups, Dec, Spread;
    var t, g := V6Text(a), Groups(a.groups, 0, false, true);
    var p := Dec(a.port);
    assert At(t, 0, "[" + g + "]:" + p) by { assert t[0..|t|] == t; }
    AtSplit(t, 0, "[" + g + "]:", p);
    AtSplit(t, 0, "[" + g, "]:");
    AtSplit(t, 0, "[", g);
    AtHead(t, 0, "[");
    Run6Step(t, 0, START6);
    var w, hole, q := AllGroupsRun(t, 1, a.groups, 0);
    CloseRun(t, 1 + |g|, w, hole, false, q, a.port);
    HoldsPort(w, hole, a.groups, a.port);
    SpreadBack(w[8 := a.port], hole, a.groups);
    Run6End(t, |t|, S6(w[8 := a.port], hole, 8, 1, false));
  }

  lemma {:induction false} CloseRun(t: Text, k: nat, w: seq<int>, hole: int, mapped: bool, q: nat, port: nat)
    requires At(t, k, "]:") && At(t, k + 2, Dec(port)) && port <= 0xFFFF
    requires |w| == 9 && q <= 7 && w[q] != -1 && w[8] == -1
    ensures Run6(t, k, S6(w, hole, q, 0, mapped)) == Run6(t, k + 2 + |Dec(port)|, S6(w[8 := port], hole, 8, 1, mapped))
  {
    hide Run6, Dec;
    AtSplit(t, k, "]", ":");
    AtHead(t, k, "]");
    AtHead(t, k + 1, ":");
    AtHead(t, k + 2, Dec(port));
    Run6Step(t, k, S6(w, hole, q, 0, mapped));
    Run6Step(t, k + 1, S6(w, hole, q, 1, mapped));
    PortRun(t, k + 2, w, hole, mapped, port);
  }

  /** The plain form; the port that is not printed comes back as the default. */
  lemma {:induction false} PlainBack(g: seq<nat>)
    requires GroupsOk(g)
    ensures End6(Run6(Groups(g, 0, false, true), 0, START6)) == Parsed(Addr(g, DEF_PORT))
  {
    hide Run6, Groups, Spread;
    var t := Groups(g, 0, false, true);
    assert At(t, 0, t);
    var w, hole, q := AllGroupsRun(t, 0, g, -1);
    SpreadBack(w, hole, g);
    Run6End(t, |t|, S6(w, hole, q, -1, false));
  }

  /** The plain form is taken for an IPv6 address unless its first group begins with a decimal digit
      and goes on with a letter. */
  predicate Detectable(g: seq<nat>)
    requires |g| == 8
  {
    g[0] == 0 || !IsDigit(Hex(g[0])[0]) || FirstOther(Hex(g[0]), 0) == |Hex(g[0])|
  }

  lemma {:induction false} PlainMode(g: seq<nat>)
    requires GroupsOk(g)
    ensures |Groups(g, 0, false, true)| > 0 && Mode(Groups(g, 0, false, true)) == if Detectable(g) then 6 else 0
  {
    hide Hex, Mode, FirstOther, Groups;
    if g[0] == 0 {
      ZeroRun(g, 0, true);
      ColonMode(":" + Groups(g, RunEnd(g, 0) + 1, true, false));
      assert ":" + (":" + Groups(g, RunEnd(g, 0) + 1, true, false)) == "::" + Groups(g, RunEnd(g, 0) + 1, true, false);
    } else {
      GroupsNext(g, 0, true);
      WordMode(Hex(g[0]), Groups(g, 1, false, false));
      LetterOrDigit(Hex(g[0])[0]);
      assert (Hex(g[0]) + ":") + Groups(g, 1, false, false) == Hex(g[0]) + (":" + Groups(g, 1, false, false));
    }
  }

  lemma LetterOrDigit(c: char)
    ensures IsXDigit(c) ==> (IsAlpha(c) <==> !IsDigit(c))
  {
  }

  lemma {:induction false} ColonMode(rest: Text)
    ensures Mode(":" + rest) == 6
  {
    assert (":" + rest)[0] == ':';
  }

  /** A text that begins with hexadecimal digits and a colon. */
  lemma {:induction false} WordMode(h: Text, rest: Text)
    requires |h| > 0 && forall i :: 0 <= i < |h| ==> IsXDigit(h[i])
    ensures Mode(h + (":" + rest)) == if IsAlpha(h[0]) || FirstOther(h, 0) == |h| then 6 else 0
  {
    hide FirstOther;
    var t, j := h + (":" + rest), FirstOther(h, 0);
    assert t[|h|] == ':' && forall i :: 0 <= i < |h| ==> t[i] == h[i];
    FirstOtherIs(t, 0, j);
  }

  lemma {:induction false} FirstOtherIs(t: Text, k: nat, j: nat)
    requires k <= j < |t| && !IsDigit(t[j]) && forall i :: k <= i < j ==> IsDigit(t[i])
    ensures FirstOther(t, k) == j
    decreases j - k
  {
    if k < j { FirstOtherIs(t, k + 1, j); }
  }

  lemma V4Mode(a: Addr)
    requires AddrOk(a)
    ensures |V4Text(a)| > 0 && Mode(V4Text(a)) == 4
  {
    hide Dec;
    var t, d := V4Text(a), Dec(Octet(a, 0));
    assert t[|d|] == '.' && forall i :: 0 <= i < |d| ==> t[i] == d[i];
    FirstOtherIs(t, 0, |d|);
  }

  /** What parsing a printed address gives, for every address and port. */
  lemma RoundTrip(a: Addr)
    requires AddrOk(a)
    ensures |Print(a)| > 0
    ensures IsV4(a) || !PrintsPort(a) ==>
      (Parse(Print(a)) == Parsed(Addr(a.groups, if a.port == 0 then DEF_PORT else a.port)) <==> IsV4(a) || Detectable(a.groups))
    ensures !IsV4(a) && PrintsPort(a) ==> Parse(Print(a)) == Parsed(a)
    ensures !IsV4(a) && !PrintsPort(a) && !Detectable(a.groups) ==> Parse(Print(a)) == Invalid
  {
    hide Run4, Run6, Groups, V4Host, Dec, Hex, Detectable, Mode;
    if IsV4(a) {
      V4Mode(a);
      V4RoundTrip(a);
    } else if PrintsPort(a) {
      BracketedBack(a);
      BracketMode(a);
    } else {
      PlainMode(a.groups);
      PlainBack(a.groups);
    }
  }

  /** Such an address is 2a00::1: its own text is turned down. */
  lemma PlainLost()
    ensures var a := Addr([0x2a00, 0, 0, 0, 0, 0, 0, 1], DEF_PORT); AddrOk(a) && Print(a) == "2a00::1" && Parse(Print(a)) == Invalid
  {
    hide Hex, Detectable, FirstOther, Groups, Parse;
    var a := Addr([0x2a00, 0, 0, 0, 0, 0, 0, 1], DEF_PORT);
    SampleText(a.groups);
    SampleLost(a.groups);
    RoundTrip(a);
  }

  lemma {:induction false} SampleText(g: seq<nat>)
    requires |g| == 8 && g[0] == 0x2a00 && (forall j :: 1 <= j <= 6 ==> g[j] == 0) && g[7] == 1
    ensures Groups(g, 0, false, true) == "2a00::1"
  {
    HexDigits(0x2a00);
    HexDigits(1);
    hide Hex, Groups;
    GroupsUnfold(g, 7, true, false);
    GroupsUnfold(g, 6, false, false);
    ZeroGroups(g, 1);
    GroupsUnfold(g, 0, false, true);
  }

  lemma SampleLost(g: seq<nat>)
    requires |g| == 8 && g[0] == 0x2a00
    ensures !Detectable(g)
  {
    HexDigits(0x2a00);
    FirstOtherIs(Hex(0x2a00), 0, 1);
    hide Hex, FirstOther;
  }

  /** A run of zeros is passed over up to its end. */
  lemma {:induction false} ZeroGroups(g: seq<nat>, i: nat)
    requires |g| == 8 && i <= 6 && forall j :: i <= j <= 6 ==> g[j] == 0
    ensures Groups(g, i, false, false) == Groups(g, 6, false, false)
    decreases 6 - i
  {
    if i < 6 { ZeroGroups(g, i + 1); }
  }

  lemma BracketMode(a: Addr)
    requires AddrOk(a) && PrintsPort(a)
    ensures |V6Text(a)| > 0 && Mode(V6Text(a)) == 6
  {
    assert V6Text(a)[0] == '[';
  }

  // ---------------------------------------------------------------- printers

  method PutChar(c: char, buf: array<char>, pos: nat) returns (end: nat)
    requires pos < buf.Length
    modifies buf
    ensures end == pos + 1 && buf[..end] == old(buf[..pos]) + [c]
  {
    buf[pos] := c;
    end := pos + 1;
  }

  method FmtV4(a: Addr, buf: array<char>) returns (pos: nat)
    requires AddrOk(a) && buf.Length == BUF_SIZE
    modifies buf
    ensures pos < buf.Length && buf[..pos] == V4Text(a)
  {
    hide Dec, Octet;
    pos := 0;
    for i := 0 to 4
      invariant pos <= 4 * i && buf[..pos] == V4Prefix(a, i)
    {
      if i > 0 {
        pos := PutChar('.', buf, pos);
      }
      OctetDigits(a, i);
      pos := PutDec(Octet(a, i), buf, pos);
    }
    V4PrefixAll(a);
    if a.port != 0 && a.port != DEF_PORT {
      pos := PutChar(':', buf, pos);
      DecLength(a.port);
      pos := PutDec(a.port, buf, pos);
    }
  }

  function V4Prefix(a: Addr, n: nat): Text
    requires AddrOk(a) && n <= 4
  {
    if n == 0 then "" else V4Prefix(a, n - 1) + (if n > 1 then "." else "") + Dec(Octet(a, n - 1))
  }

  lemma {:induction false} V4PrefixAll(a: Addr)
    requires AddrOk(a)
    ensures V4Prefix(a, 4) == V4Host(a)
  {
    hide Dec, Octet;
    var p, q, r, s := Dec(Octet(a, 0)), Dec(Octet(a, 1)), Dec(Octet(a, 2)), Dec(Octet(a, 3));
    assert V4Prefix(a, 1) == p;
    assert V4Prefix(a, 2) == p + "." + q;
    assert V4Prefix(a, 3) == p + "." + q + "." + r;
    hide V4Prefix;
    Dots(p, q, r, s);
  }

  lemma Dots(p: Text, q: Text, r: Text, s: Text)
    ensures p + "." + q + "." + r + "." + s == p + ("." + (q + ("." + (r + ("." + s)))))
  {
  }

  lemma OctetDigits(a: Addr, i: nat)
    requires AddrOk(a) && i < 4
    ensures Octet(a, i) < 256 && |Dec(Octet(a, i))| <= 3
  {
    DecLength(Octet(a, i));
  }

  /** Print an address, with its port if wanted, in the shortest form. */
  method Fmt(a0: Addr, printPort: bool, buf: array<char>) returns (pos: nat)
    requires AddrOk(a0) && buf.Length == BUF_SIZE
    modifies buf
    ensures pos < buf.Length && buf[..pos] == Print(if printPort then a0 else Addr(a0.groups, 0))
  {
    hide V4Text, V6Text;
    var a := if printPort then a0 else Addr(a0.groups, 0);
    if IsV4(a) {
      pos := FmtV4(a, buf);
    } else {
      pos := FmtV6(a, buf);
    }
  }

  method FmtV6(a: Addr, buf: array<char>) returns (pos: nat)
    requires AddrOk(a) && buf.Length == BUF_SIZE
    modifies buf
    ensures pos < buf.Length && buf[..pos] == V6Text(a)
  {
    hide Dec, Hex, Groups;
    pos := 0;
    if PrintsPort(a) {
      pos := PutChar('[', buf, pos);
      assert buf[..1][0] == '[';
    }
    ghost var g := Groups(a.groups, 0, false, true);
    pos := FmtGroups(a.groups, buf, pos);
    if PrintsPort(a) {
      assert buf[..pos] == "[" + g;
      pos := PutChar(']', buf, pos);
      pos := PutChar(':', buf, pos);
      assert buf[..pos] == "[" + g + "]:";
      DecLength(a.port);
      pos := PutDec(a.port, buf, pos);
    } else {
      assert buf[..0] + g == g;
    }
  }

  method FmtGroups(g: seq<nat>, buf: array<char>, start: nat) returns (pos: nat)
    requires GroupsOk(g) && start <= 1 && buf.Length == BUF_SIZE && (start == 1 ==> buf[0] != ':')
    modifies buf
    ensures pos <= start + 39 && buf[..pos] == old(buf[..start]) + Groups(g, 0, false, true)
  {
    hide Hex, Groups, Tail;
    pos := start;
    var omitted := false;
    TailStart(buf[..start], start);
    ghost var all := buf[..start] + Groups(g, 0, false, true);
    for i := 0 to 7
      invariant start <= pos <= start + 5 * i && buf[..pos] + Groups(g, i, omitted, pos == start) == all
      invariant Tail(buf[..pos], start)
    {
      pos, omitted := FmtGroup(g, i, omitted, buf, pos, start);
    }
    GroupsUnfold(g, 7, omitted, pos == start);
    HexLength(g[7]);
    pos := PutGroup(g[7], buf, pos);
  }

  /** Printed text ends with a colon, if anything is printed yet. */
  predicate Tail(t: Text, start: nat) {
    && |t| >= start && (|t| > start ==> t[|t| - 1] == ':')
    && (|t| == start && start > 0 ==> t[start - 1] != ':')
  }

  lemma TailStart(t: Text, start: nat)
    requires |t| == start && (start > 0 ==> t[start - 1] != ':')
    ensures Tail(t, start)
  {
  }

  /** One group, or the colons of a run of zeros that ends with it. */
  method FmtGroup(g: seq<nat>, i: nat, omitted: bool, buf: array<char>, pos0: nat, ghost start: nat) returns (pos: nat, omitted': bool)
    requires GroupsOk(g) && i < 7 && pos0 + 5 <= buf.Length && Tail(buf[..pos0], start)
    modifies buf
    ensures pos0 <= pos <= pos0 + 5 && Tail(buf[..pos], start)
    ensures buf[..pos] + Groups(g, i + 1, omitted', pos == start) == old(buf[..pos0]) + Groups(g, i, omitted, pos0 == start)
  {
    hide Hex, Groups, Tail;
    pos, omitted' := pos0, omitted;
    GroupsUnfold(g, i, omitted, pos == start);
    ghost var done := buf[..pos];
    if g[i] != 0 || omitted {
      pos := FmtShown(g[i], buf, pos, start);
      Regroup(done, Hex(g[i]) + ":", Groups(g, i + 1, omitted, false));
    } else if g[i + 1] != 0 || i == 6 {
      pos := FmtColons(buf, pos, start);
      omitted' := true;
      Regroup(done, if pos0 == start then "::" else ":", Groups(g, i + 1, true, false));
    }
  }

  lemma Regroup(p: Text, q: Text, r: Text)
    ensures p + (q + r) == (p + q) + r
  {
  }

  method FmtShown(group: nat, buf: array<char>, pos0: nat, ghost start: nat) returns (pos: nat)
    requires group <= 0xFFFF && pos0 + 5 <= buf.Length && Tail(buf[..pos0], start)
    modifies buf
    ensures pos0 < pos <= pos0 + 5 && start < pos && Tail(buf[..pos], start)
    ensures buf[..pos] == old(buf[..pos0]) + (Hex(group) + ":")
  {
    hide Hex;
    HexLength(group);
    pos := PutGroup(group, buf, pos0);
    pos := PutChar(':', buf, pos);
  }

  /** The colons of a run of zeros: two if nothing is printed yet. */
  method FmtColons(buf: array<char>, pos0: nat, ghost start: nat) returns (pos: nat)
    requires pos0 + 2 <= buf.Length && Tail(buf[..pos0], start)
    modifies buf
    ensures pos0 < pos <= pos0 + 2 && start < pos && Tail(buf[..pos], start)
    ensures buf[..pos] == old(buf[..pos0]) + if pos0 == start then "::" else ":"
  {
    ghost var done := buf[..pos0];
    pos := pos0;
    assert pos > 0 ==> buf[pos - 1] == done[pos - 1];
    if pos == 0 || buf[pos - 1] != ':' {
      pos := PutChar(':', buf, pos);
    }
    pos := PutChar(':', buf, pos);
  }

  lemma GroupsUnfold(g: seq<nat>, i: nat, omitted: bool, first: bool)
    requires |g| == 8 && i <= 7
    ensures Groups(g, i, omitted, first) ==
      if i == 7 then Hex(g[7])
      else if g[i] != 0 || omitted then Hex(g[i]) + ":" + Groups(g, i + 1, omitted, false)
      else if g[i + 1] != 0 || i == 6 then (if first then "::" else ":") + Groups(g, i + 1, true, false)
      else Groups(g, i + 1, false, first)
  {
  }
}
