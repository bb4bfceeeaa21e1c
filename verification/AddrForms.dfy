/** Which texts the address parsers take, beyond those the program prints itself: digits in either case and with
    leading zeros, and the forms of section 2.2 of RFC 4291. */
module AddrForms {
  import opened AddrText
  import opened Addr

  const DECIMAL := "0123456789"
  const LOWER_HEX := "0123456789abcdef"
  const UPPER_HEX := "0123456789ABCDEF"

  /** The character stands for the digit `d`. */
  predicate Stands(c: char, d: nat) {
    d < 16 && (c == LOWER_HEX[d] || c == UPPER_HEX[d])
  }

  /** Hexadecimal digits, in either case and with any leading zeros, of the number `v`. */
  predicate Spells(x: Text, v: nat)
    decreases |x|
  {
    |x| > 0 && Stands(x[|x| - 1], v % 16) && if |x| == 1 then v < 16 else Spells(x[..|x| - 1], v / 16)
  }

  /** Decimal digits, with any leading zeros, of the number `v`. */
  predicate SpellsDec(x: Text, v: nat)
    decreases |x|
  {
    |x| > 0 && x[|x| - 1] == DECIMAL[v % 10] && if |x| == 1 then v < 10 else SpellsDec(x[..|x| - 1], v / 10)
  }

  lemma StandsValue(c: char, d: nat)
    requires Stands(c, d)
    ensures IsXDigit(c) && XValue(c) == d
  {
    assert d < 10 ==> LOWER_HEX[d] == UPPER_HEX[d] == '0' + d as char;
    assert d >= 10 ==> LOWER_HEX[d] == 'a' + (d - 10) as char && UPPER_HEX[d] == 'A' + (d - 10) as char;
  }

  lemma DigitStands(c: char, d: nat)
    requires d < 10 && c == DECIMAL[d]
    ensures IsDigit(c) && DigitValue(c) == d
  {
  }

  lemma DigitIs(c: char)
    requires IsDigit(c)
    ensures DigitValue(c) < 10 && c == DECIMAL[DigitValue(c)]
  {
  }

  // ---------------------------------------------------------------- every result is an address

  predicate WordsOk(s: S6) {
    s.S6? ==> |s.words| == 9 && forall j :: 0 <= j < 9 ==> -1 <= s.words[j] <= 0xFFFF
  }

  lemma StepOk(t: Text, k: nat, s: S6)
    requires k < |t| && WordsOk(s)
    ensures WordsOk(Step6(t, k, s).0)
  {
  }

  lemma {:induction false} RunOk(t: Text, k: nat, s: S6)
    requires WordsOk(s)
    ensures WordsOk(Run6(t, k, s))
    decreases |t| - k
  {
    hide Step6, WordsOk;
    if k < |t| && s.S6? {
      Run6Step(t, k, s);
      StepOk(t, k, s);
      RunOk(t, Step6(t, k, s).1, Step6(t, k, s).0);
    }
  }

  lemma {:induction false} SpreadOk(words: seq<int>, hole: int, i: int, a: int, g: seq<nat>)
    requires |words| == 9 && |g| == 8 && -1 <= i <= 7 && -1 <= a <= 7
    requires (forall j :: 0 <= j < 9 ==> words[j] <= 0xFFFF) && forall j :: 0 <= j < 8 ==> g[j] <= 0xFFFF
    ensures var r := Spread(words, hole, i, a, g); |r| == 8 && forall j :: 0 <= j < 8 ==> r[j] <= 0xFFFF
    decreases i + a
  {
    if i >= 0 && a >= 0 {
      if words[i] != -1 {
        SpreadOk(words, hole, i - 1, a - 1, g[a := if words[i] >= 0 then words[i] else 0]);
      } else if i > hole {
        SpreadOk(words, hole, i - 1, a, g);
      } else if a == i && i != 0 {
        SpreadOk(words, hole, i - 1, a - 1, g);
      } else {
        SpreadOk(words, hole, i, a - 1, g);
      }
    }
  }

  /** Whatever is parsed is an address with a port. */
  lemma ParsedOk(t: Text)
    requires |t| > 0
    ensures Parse(t).Parsed? ==> AddrOk(Parse(t).a)
  {
    hide Run4, Run6, Spread, TailByte, Mode, Sane, AddrOk;
    if Mode(t) == 4 {
      if End4(Run4(START4, t)).Parsed? {
        var xs, o, port := Taken4(t);
        V4Ok(o[..4], if |o| == 5 then o[4] else DEF_PORT);
      }
    } else if Mode(t) == 6 {
      RunOk(t, 0, START6);
      EndOk(Run6(t, 0, START6));
    }
  }

  lemma V4Ok(o: seq<nat>, port: nat)
    requires |o| == 4 && port <= 0xFFFF && forall k :: 0 <= k < 4 ==> o[k] <= 255
    ensures AddrOk(V4(o, port))
  {
  }

  lemma EndOk(s: S6)
    requires WordsOk(s)
    ensures End6(s).Parsed? ==> AddrOk(End6(s).a)
  {
    hide Spread, TailByte;
    if End6(s).Parsed? {
      if s.mapped {
        V4Ok(seq(4, j requires 0 <= j < 4 => TailByte(s.words, 4, j)), End6(s).a.port);
      } else {
        SpreadOk(s.words, s.hole, 7, 7, ZERO_GROUPS);
      }
    }
  }

  // ---------------------------------------------------------------- the exact language of IPv4 texts

  /** Fields with separators, all of them dots but the last one, which is a colon if `port`. */
  function Join4(xs: seq<Text>, port: bool): Text
    requires |xs| > 0
    decreases |xs|
  {
    if |xs| == 1 then xs[0]
    else Join4(xs[..|xs| - 1], false) + [if port then ':' else '.'] + xs[|xs| - 1]
  }

  /** Decimal numbers up to 255, the one behind a colon up to 65535. */
  predicate Fields4(xs: seq<Text>, port: bool, o: seq<nat>) {
    && 0 < |xs| == |o| <= 5 && (port ==> |o| == 5)
    && forall k :: 0 <= k < |o| ==> SpellsDec(xs[k], o[k]) && o[k] <= if port && k == 4 then 0xFFFF else 255
  }

  lemma {:induction false} JoinDigit(xs: seq<Text>, port: bool, x: Text, c: char)
    requires |xs| > 0 && xs[|xs| - 1] == x
    ensures Join4(xs[..|xs| - 1] + [x + [c]], port) == Join4(xs, port) + [c]
  {
    var ys := xs[..|xs| - 1] + [x + [c]];
    assert ys[..|ys| - 1] == xs[..|xs| - 1];
  }

  lemma {:induction false} JoinField(xs: seq<Text>, port: bool)
    requires |xs| > 0
    ensures Join4(xs + [""], port) == Join4(xs, false) + [if port then ':' else '.']
  {
    assert (xs + [""])[..|xs|] == xs;
  }

  lemma {:induction false} SpellsDigit(x: Text, v: nat, d: nat)
    requires d < 10 && ((x == [] && v == 0) || SpellsDec(x, v))
    ensures SpellsDec(x + [DECIMAL[d]], v * 10 + d)
  {
    assert (x + [DECIMAL[d]])[..|x|] == x;
    assert (v * 10 + d) / 10 == v && (v * 10 + d) % 10 == d;
  }

  /** What has been scanned: the fields stored, and the digits of the current one. */
  ghost predicate Scanned(t: Text, xs: seq<Text>, s: S4) {
    && s.S4? && s.i <= 4 && |xs| == s.i + 1 && |s.a| == 4 && (s.port ==> s.i == 4) && t == Join4(xs, s.port)
    && (forall k :: 0 <= k < s.i ==> SpellsDec(xs[k], s.a[k]) && s.a[k] <= 255)
    && if s.octet == -1 then xs[s.i] == [] else 0 <= s.octet <= (if s.port then 0xFFFF else 255) && SpellsDec(xs[s.i], s.octet)
  }

  lemma {:induction false} ScanStep(t: Text, xs: seq<Text>, s: S4, c: char) returns (ys: seq<Text>)
    requires Scanned(t, xs, s) && Step4(s, c).S4?
    ensures Scanned(t + [c], ys, Step4(s, c))
  {
    hide SpellsDec, Join4;
    if IsDigit(c) {
      DigitIs(c);
      SpellsDigit(xs[s.i], if s.octet == -1 then 0 else s.octet, DigitValue(c));
      JoinDigit(xs, s.port, xs[s.i], c);
      ys := xs[..|xs| - 1] + [xs[s.i] + [c]];
    } else {
      JoinField(xs, c == ':');
      JoinPlain(xs, s.port, s.i);
      ys := xs + [""];
    }
  }

  lemma {:induction false} JoinPlain(xs: seq<Text>, port: bool, i: nat)
    requires |xs| == i + 1 && (port ==> i == 4)
    ensures i < 4 ==> Join4(xs, port) == Join4(xs, false)
  {
  }

  lemma {:induction false} Scan4(t: Text) returns (xs: seq<Text>)
    requires Run4(START4, t).S4?
    ensures Scanned(t, xs, Run4(START4, t))
    decreases |t|
  {
    if t == [] {
      xs := [""];
    } else {
      var init, c := t[..|t| - 1], t[|t| - 1];
      assert t == init + [c] && [c][1..] == [];
      Run4Concat(START4, init, [c]);
      var s := Run4(START4, init);
      assert Run4(START4, t) == Step4(s, c);
      var ys := Scan4(init);
      xs := ScanStep(init, ys, s, c);
    }
  }

  /** An accepted text is made up of four decimal numbers, or five. */
  lemma {:induction false} Taken4(t: Text) returns (xs: seq<Text>, o: seq<nat>, port: bool)
    requires End4(Run4(START4, t)).Parsed?
    ensures Fields4(xs, port, o) && |o| >= 4 && t == Join4(xs, port)
    ensures End4(Run4(START4, t)) == Parsed(V4(o[..4], if |o| == 5 then o[4] else DEF_PORT))
  {
    hide SpellsDec, Join4, Run4;
    xs := Scan4(t);
    var s := Run4(START4, t);
    port := s.port;
    o := s.a[..s.i] + [s.octet];
    assert s.i == 3 ==> o[..4] == s.a[3 := s.octet];
    assert s.i == 4 ==> o[..4] == s.a;
  }

  lemma {:induction false} DigitsRun4(i: nat, port: bool, a: seq<nat>, x: Text, v: nat)
    requires SpellsDec(x, v) && v <= if port then 0xFFFF else 255
    ensures Run4(S4(-1, i, port, a), x) == S4(v, i, port, a)
    decreases |x|
  {
    var s, init, c := S4(-1, i, port, a), x[..|x| - 1], x[|x| - 1];
    DigitStands(c, v % 10);
    assert x == init + [c] && [c][1..] == [];
    Run4Concat(s, init, [c]);
    if |x| > 1 { DigitsRun4(i, port, a, init, v / 10); }
  }

  /** The numbers stored after the field before the last. */
  function Stored(o: seq<nat>): seq<nat>
    requires 0 < |o| <= 5
  {
    seq(4, k requires 0 <= k < 4 => if k < |o| - 1 then o[k] else 0)
  }

  lemma {:induction false} FieldsRun4(xs: seq<Text>, port: bool, o: seq<nat>)
    requires Fields4(xs, port, o)
    ensures Run4(START4, Join4(xs, port)) == S4(o[|o| - 1], |o| - 1, port, Stored(o))
    decreases |xs|
  {
    hide Run4, SpellsDec;
    var n := |xs| - 1;
    if n == 0 {
      assert Stored(o) == [0, 0, 0, 0];
      DigitsRun4(0, port, [0, 0, 0, 0], xs[0], o[0]);
    } else {
      var sep, p := if port then ':' else '.', o[..n];
      FieldsRun4(xs[..n], false, p);
      Run4Concat(START4, Join4(xs[..n], false), [sep]);
      Run4Concat(START4, Join4(xs[..n], false) + [sep], xs[n]);
      SepRun4(o[n - 1], n - 1, Stored(p), sep);
      assert Stored(p)[n - 1 := o[n - 1]] == Stored(o);
      DigitsRun4(n, port, Stored(o), xs[n], o[n]);
    }
  }

  lemma SepRun4(octet: nat, i: nat, a: seq<nat>, sep: char)
    requires |a| == 4 && i < 4 && (sep == '.' || (sep == ':' && i == 3))
    ensures Run4(S4(octet, i, false, a), [sep]) == S4(-1, i + 1, sep == ':', a[i := octet])
  {
    assert [sep][1..] == [];
  }

  /** The IPv4 parser takes exactly four decimal numbers up to 255 with dots between them, and behind them
      a port: a number up to 65535 behind a colon, and also one up to 255 behind a dot. */
  lemma {:induction false} V4Exact(t: Text, a: Addr)
    ensures End4(Run4(START4, t)) == Parsed(a) <==>
      exists xs, port, o :: Fields4(xs, port, o) && |o| >= 4 && t == Join4(xs, port) && a == V4(o[..4], if |o| == 5 then o[4] else DEF_PORT)
  {
    hide Run4, SpellsDec, Join4;
    if End4(Run4(START4, t)) == Parsed(a) {
      var xs, o, port := Taken4(t);
    }
    forall xs, port, o | Fields4(xs, port, o) && |o| >= 4 && t == Join4(xs, port)
      ensures End4(Run4(START4, t)) == Parsed(V4(o[..4], if |o| == 5 then o[4] else DEF_PORT)) {
      FieldsTaken(xs, port, o);
    }
  }

  lemma {:induction false} FieldsTaken(xs: seq<Text>, port: bool, o: seq<nat>)
    requires Fields4(xs, port, o) && |o| >= 4
    ensures End4(Run4(START4, Join4(xs, port))) == Parsed(V4(o[..4], if |o| == 5 then o[4] else DEF_PORT))
  {
    hide Run4, SpellsDec, Join4;
    FieldsRun4(xs, port, o);
    if |o| == 4 {
      assert Stored(o)[3 := o[3]] == o[..4];
    } else {
      assert Stored(o) == o[..4];
    }
  }

  lemma {:induction false} DigitsSample()
    ensures SpellsDec("1", 1) && SpellsDec("2", 2) && SpellsDec("3", 3) && SpellsDec("4", 4) && SpellsDec("80", 80)
  {
    assert "80"[..1] == "8" && SpellsDec("8", 8);
  }

  lemma {:induction false} JoinSample()
    ensures Join4(["1", "2", "3", "4", "80"], false) == "1.2.3.4.80"
  {
    assert ["1", "2", "3", "4", "80"][..4] == ["1", "2", "3", "4"];
    assert ["1", "2", "3", "4"][..3] == ["1", "2", "3"];
    assert ["1", "2", "3"][..2] == ["1", "2"];
    assert ["1", "2"][..1] == ["1"];
    assert Join4(["1", "2"], false) == "1.2";
    assert Join4(["1", "2", "3"], false) == "1.2.3";
    assert Join4(["1", "2", "3", "4"], false) == "1.2.3.4";
  }

  /** A dot in front of the port. */
  lemma DottedPort()
    ensures Parse("1.2.3.4.80") == Parsed(V4([1, 2, 3, 4], 80))
  {
    hide Run4, SpellsDec, Join4;
    var xs, o := ["1", "2", "3", "4", "80"], [1, 2, 3, 4, 80];
    DigitsSample();
    JoinSample();
    FieldsTaken(xs, false, o);
    FirstOtherIs("1.2.3.4.80", 0, 1);
  }

  // ---------------------------------------------------------------- either case

  function LowerDigit(c: char): char {
    if 'A' <= c <= 'F' then 'a' + (c - 'A') else c
  }

  /** `u` is `t` with its digits A to F in lower case. */
  predicate Lowered(t: Text, u: Text) {
    |t| == |u| && forall i :: 0 <= i < |t| ==> u[i] == LowerDigit(t[i])
  }

  lemma LowerDigitSame(c: char)
    ensures var d := LowerDigit(c); IsDigit(d) == IsDigit(c) && IsAlpha(d) == IsAlpha(c) && IsXDigit(d) == IsXDigit(c)
    ensures var d := LowerDigit(c); !IsXDigit(c) || IsDigit(c) ==> d == c
    ensures IsXDigit(c) ==> XValue(LowerDigit(c)) == XValue(c)
  {
  }

  lemma StepLower(t: Text, u: Text, k: nat, s: S6)
    requires Lowered(t, u) && k < |t|
    ensures Step6(t, k, s) == Step6(u, k, s)
  {
    hide Dot, XValue;
    LowerDigitSame(t[k]);
    if k + 1 < |t| { LowerDigitSame(t[k + 1]); }
  }

  lemma {:induction false} RunLower(t: Text, u: Text, k: nat, s: S6)
    requires Lowered(t, u)
    ensures Run6(t, k, s) == Run6(u, k, s)
    decreases |t| - k
  {
    hide Step6, Lowered;
    assert |t| == |u| by { LoweredSize(t, u); }
    if k < |t| && s.S6? {
      StepLower(t, u, k, s);
      Run6Step(t, k, s);
      Run6Step(u, k, s);
      RunLower(t, u, Step6(t, k, s).1, Step6(t, k, s).0);
    }
  }

  lemma LoweredSize(t: Text, u: Text)
    requires Lowered(t, u)
    ensures |t| == |u|
  {
  }

  lemma {:induction false} Run4Lower(t: Text, u: Text, s: S4)
    requires Lowered(t, u)
    ensures Run4(s, t) == Run4(s, u)
    decreases |t|
  {
    if t != [] {
      LowerDigitSame(t[0]);
      assert Step4(s, t[0]) == Step4(s, u[0]);
      Run4Lower(t[1..], u[1..], Step4(s, t[0]));
    }
  }

  lemma {:induction false} ModeLower(t: Text, u: Text)
    requires |t| > 0 && Lowered(t, u)
    ensures Mode(t) == Mode(u)
  {
    hide FirstOther, IsAlpha, LowerDigit;
    LowerDigitSame(t[0]);
    var j := FirstOther(t, 0);
    forall i | 0 <= i < |t| ensures IsDigit(u[i]) == IsDigit(t[i]) { LowerDigitSame(t[i]); }
    if j < |t| {
      FirstOtherIs(u, 0, j);
      LowerDigitSame(t[j]);
    }
    assert LowerDigit('[') == '[' && forall c :: LowerDigit(c) == '[' ==> c == '[' by { BracketOnly(); }
  }

  lemma BracketOnly()
    ensures forall c :: LowerDigit(c) == '[' <==> c == '['
  {
  }

  /** The case of hexadecimal digits makes no difference, in any text. */
  lemma CaseBlind(t: Text, u: Text)
    requires |t| > 0 && Lowered(t, u)
    ensures Parse(t) == Parse(u)
  {
    hide Mode, Run4, Run6;
    ModeLower(t, u);
    Run4Lower(t, u, START4);
    RunLower(t, u, 0, START6);
  }

  // ---------------------------------------------------------------- the forms of IPv6 texts

  /** Groups with colons between them. */
  function Join(xs: seq<Text>): Text
    decreases |xs|
  {
    if xs == [] then "" else if |xs| == 1 then xs[0] else xs[0] + ":" + Join(xs[1..])
  }

  /** Groups of hexadecimal digits for numbers. */
  predicate Spelt(xs: seq<Text>, g: seq<nat>) {
    |xs| == |g| && forall i :: 0 <= i < |g| ==> Spells(xs[i], g[i])
  }

  predicate Short(g: seq<nat>) {
    forall i :: 0 <= i < |g| ==> g[i] <= 0xFFFF
  }

  lemma {:induction false} SpellsHead(x: Text, v: nat)
    requires Spells(x, v)
    ensures |x| > 0 && forall i :: 0 <= i < |x| ==> IsXDigit(x[i])
    decreases |x|
  {
    StandsValue(x[|x| - 1], v % 16);
    if |x| > 1 {
      SpellsHead(x[..|x| - 1], v / 16);
      assert forall i :: 0 <= i < |x| - 1 ==> x[i] == x[..|x| - 1][i];
    }
  }

  lemma {:induction false} JoinHead(xs: seq<Text>, g: seq<nat>)
    requires Spelt(xs, g) && xs != []
    ensures |Join(xs)| > 0 && IsXDigit(Join(xs)[0])
  {
    hide Spells;
    SpellsHead(xs[0], g[0]);
  }

  /** Any digits of a number of 16 bits are read into the current word as that number. */
  lemma {:induction false} SpellsRun(t: Text, k: nat, words: seq<int>, hole: int, i: nat, port: int, x: Text, v: nat)
    requires At(t, k, x) && Spells(x, v) && v <= 0xFFFF && |words| == 9 && i <= 7 && words[i] == -1 && port != 1
    ensures Run6(t, k, S6(words, hole, i, port, false)) == Run6(t, k + |x|, S6(words[i := v], hole, i, port, false))
    decreases |x|
  {
    hide Run6;
    var s, init, c := S6(words, hole, i, port, false), x[..|x| - 1], x[|x| - 1];
    var m := k + |init|;
    assert x == init + [c];
    AtSplit(t, k, init, [c]);
    AtHead(t, m, [c]);
    StandsValue(c, v % 16);
    if |x| == 1 {
      Run6Step(t, k, s);
    } else {
      SpellsRun(t, k, words, hole, i, port, init, v / 16);
      Run6Step(t, m, S6(words[i := v / 16], hole, i, port, false));
      assert words[i := v / 16][i := v] == words[i := v];
    }
  }

  /** The words from `q` on hold the groups. */
  function Laid(words: seq<int>, q: nat, g: seq<nat>): (w: seq<int>)
    requires q + |g| <= 8 && |words| == 9
    ensures |w| == 9
  {
    words[..q] + g + words[q + |g|..]
  }

  lemma LaidNext(words: seq<int>, q: nat, g: seq<nat>)
    requires 0 < |g| && q + |g| <= 8 && |words| == 9
    ensures Laid(words, q, g) == Laid(words[q := g[0]], q + 1, g[1..])
  {
    assert g == [g[0]] + g[1..];
  }

  lemma {:induction false} JoinRun(t: Text, k: nat, xs: seq<Text>, g: seq<nat>, words: seq<int>, hole: int, q: nat, port: int)
    requires Spelt(xs, g) && Short(g) && xs != [] && At(t, k, Join(xs)) && (port == -1 || port == 0)
    requires |words| == 9 && q + |g| <= 8 && forall j :: q <= j < 8 ==> words[j] == -1
    ensures Run6(t, k, S6(words, hole, q, port, false)) ==
      Run6(t, k + |Join(xs)|, S6(Laid(words, q, g), hole, q + |g| - 1, port, false))
    decreases |xs|
  {
    hide Run6, Spells, At;
    if |xs| == 1 {
      SpellsRun(t, k, words, hole, q, port, xs[0], g[0]);
      assert Laid(words, q, g) == words[q := g[0]];
    } else {
      AtSplit(t, k, xs[0] + ":", Join(xs[1..]));
      AtSplit(t, k, xs[0], ":");
      SpellsRun(t, k, words, hole, q, port, xs[0], g[0]);
      var m := k + |xs[0]|;
      AtHead(t, m, ":");
      JoinHead(xs[1..], g[1..]);
      AtHead(t, m + 1, Join(xs[1..]));
      ColonRun(t, m, words[q := g[0]], hole, q, port);
      JoinRun(t, m + 1, xs[1..], g[1..], words[q := g[0]], hole, q + 1, port);
      LaidNext(words, q, g);
    }
  }

  lemma {:induction false} ColonRun(t: Text, k: nat, words: seq<int>, hole: int, q: nat, port: int)
    requires k + 1 < |t| && t[k] == ':' && t[k + 1] != ':' && |words| == 9 && q <= 7 && words[q] != -1 && port != 1
    ensures Run6(t, k, S6(words, hole, q, port, false)) == Run6(t, k + 1, S6(words, hole, q + 1, port, false))
  {
    hide Run6;
    Run6Step(t, k, S6(words, hole, q, port, false));
  }

  lemma {:induction false} DoubleColonRun(t: Text, k: nat, words: seq<int>, q: nat, port: int)
    requires At(t, k, "::") && |words| == 9 && q <= 7 && port != 1
    ensures var z := if words[q] != -1 then q + 1 else q;
      Run6(t, k, S6(words, -1, q, port, false)) == Run6(t, k + 2, S6(words, z, z + 1, port, false))
  {
    hide Run6;
    AtSplit(t, k, ":", ":");
    AtHead(t, k, ":");
    AtHead(t, k + 1, ":");
    assert ":" + ":" == "::";
    Run6Step(t, k, S6(words, -1, q, port, false));
  }

  /** The address of a text with a double colon: the groups before it, zeros and the groups behind it. */
  function ZeroFilled(l: seq<nat>, r: seq<nat>): seq<nat>
    requires |l| + |r| <= 7
  {
    l + seq(8 - |l| - |r|, _ => 0) + r
  }

  /** The words after such a text. */
  function Gapped(l: seq<nat>, r: seq<nat>): (w: seq<int>)
    requires |l| + |r| <= 7
    ensures |w| == 9
  {
    Laid(Laid(NO_WORDS, 0, l), |l| + 1, r)
  }

  /** The word that is current after it. */
  function Current(l: seq<nat>, r: seq<nat>): nat {
    if r == [] then |l| + 1 else |l| + |r|
  }

  /** The groups before the double colon, and it. */
  lemma {:induction false} LeftRun(t: Text, k: nat, xs: seq<Text>, l: seq<nat>, port: int)
    requires Spelt(xs, l) && Short(l) && |l| <= 8 && (port == -1 || port == 0) && At(t, k, Join(xs)) && At(t, k + |Join(xs)|, "::")
    ensures Run6(t, k, S6(NO_WORDS, -1, 0, port, false)) ==
      Run6(t, k + |Join(xs)| + 2, S6(Laid(NO_WORDS, 0, l), |l|, |l| + 1, port, false))
  {
    hide Run6, Join, Spells, At, Laid;
    var words := Laid(NO_WORDS, 0, l);
    LaidParts(NO_WORDS, 0, l);
    if xs == [] {
      EmptyJoin();
      assert words == NO_WORDS;
      DoubleColonRun(t, k, words, 0, port);
    } else {
      JoinRun(t, k, xs, l, NO_WORDS, -1, 0, port);
      assert words[|l| - 1] == words[..|l|][|l| - 1] == l[|l| - 1] by { assert words[..|l|] == words[0..0 + |l|]; }
      DoubleColonRun(t, k + |Join(xs)|, words, |l| - 1, port);
    }
  }

  /** The groups behind it. */
  lemma {:induction false} RightRun(t: Text, k: nat, l: seq<nat>, ys: seq<Text>, r: seq<nat>, port: int)
    requires Spelt(ys, r) && Short(r) && |l| + |r| <= 7 && (port == -1 || port == 0) && At(t, k, Join(ys))
    ensures Run6(t, k, S6(Laid(NO_WORDS, 0, l), |l|, |l| + 1, port, false)) ==
      Run6(t, k + |Join(ys)|, S6(Gapped(l, r), |l|, Current(l, r), port, false))
  {
    hide Run6, Join, Spells, At, Laid;
    var words := Laid(NO_WORDS, 0, l);
    LaidParts(NO_WORDS, 0, l);
    LaidParts(words, |l| + 1, r);
    if ys == [] {
      EmptyJoin();
      assert Laid(words, |l| + 1, r) == words;
    } else {
      JoinRun(t, k, ys, r, words, |l|, |l| + 1, port);
    }
  }

  lemma {:induction false} HoleText(t: Text, k: nat, xs: seq<Text>, l: seq<nat>, ys: seq<Text>, r: seq<nat>, port: int)
    requires Spelt(xs, l) && Short(l) && Spelt(ys, r) && Short(r) && |l| + |r| <= 7 && (port == -1 || port == 0)
    requires At(t, k, Join(xs) + "::" + Join(ys))
    ensures Run6(t, k, S6(NO_WORDS, -1, 0, port, false)) ==
      Run6(t, k + |Join(xs)| + 2 + |Join(ys)|, S6(Gapped(l, r), |l|, Current(l, r), port, false))
  {
    hide Run6, Join, Spelt, At, Gapped, Current, Laid;
    assert |xs| == |l| && |ys| == |r| by { SpeltSize(xs, l); SpeltSize(ys, r); }
    AtSplit(t, k, Join(xs) + "::", Join(ys));
    AtSplit(t, k, Join(xs), "::");
    LeftRun(t, k, xs, l, port);
    RightRun(t, k + |Join(xs)| + 2, l, ys, r, port);
  }

  /** Digits of a larger number stop the parser. */
  lemma {:induction false} SpellsStops(t: Text, k: nat, words: seq<int>, hole: int, i: nat, port: int, x: Text, v: nat)
    requires At(t, k, x) && Spells(x, v) && v > 0xFFFF && |words| == 9 && i <= 7 && words[i] == -1 && port != 1
    ensures Run6(t, k, S6(words, hole, i, port, false)) == Stop6
    decreases |x|
  {
    hide Run6;
    var init, c := x[..|x| - 1], x[|x| - 1];
    var m := k + |init|;
    assert x == init + [c];
    AtSplit(t, k, init, [c]);
    if v / 16 > 0xFFFF {
      SpellsStops(t, k, words, hole, i, port, init, v / 16);
    } else {
      SpellsRun(t, k, words, hole, i, port, init, v / 16);
      AtHead(t, m, [c]);
      StandsValue(c, v % 16);
      Run6Step(t, m, S6(words[i := v / 16], hole, i, port, false));
      Run6Stop(t, m + 1);
    }
  }

  /** So do groups beyond the eighth word, and a group of more than 16 bits. */
  lemma {:induction false} JoinStops(t: Text, k: nat, xs: seq<Text>, g: seq<nat>, words: seq<int>, hole: int, q: nat, port: int)
    requires Spelt(xs, g) && xs != [] && At(t, k, Join(xs)) && (port == -1 || port == 0)
    requires |words| == 9 && q <= 9 && (q + |g| > 8 || !Short(g)) && forall j :: q <= j < 8 ==> words[j] == -1
    ensures Run6(t, k, S6(words, hole, q, port, false)) == Stop6
    decreases |xs|
  {
    hide Run6, Spells, At;
    if q >= 8 {
      JoinHead(xs, g);
      AtHead(t, k, Join(xs));
      Run6Step(t, k, S6(words, hole, q, port, false));
      Run6Stop(t, k + 1);
    } else if |xs| == 1 {
      SpellsStops(t, k, words, hole, q, port, xs[0], g[0]);
    } else {
      AtSplit(t, k, xs[0] + ":", Join(xs[1..]));
      AtSplit(t, k, xs[0], ":");
      if g[0] > 0xFFFF {
        SpellsStops(t, k, words, hole, q, port, xs[0], g[0]);
      } else {
        SpellsRun(t, k, words, hole, q, port, xs[0], g[0]);
        var m := k + |xs[0]|;
        AtHead(t, m, ":");
        JoinHead(xs[1..], g[1..]);
        AtHead(t, m + 1, Join(xs[1..]));
        ColonRun(t, m, words[q := g[0]], hole, q, port);
        assert !Short(g) ==> !Short(g[1..]) by { ShortRest(g); }
        JoinStops(t, m + 1, xs[1..], g[1..], words[q := g[0]], hole, q + 1, port);
      }
    }
  }

  lemma ShortRest(g: seq<nat>)
    requires g != [] && g[0] <= 0xFFFF
    ensures Short(g[1..]) ==> Short(g)
  {
    assert forall i :: 1 <= i < |g| ==> g[i] == g[1..][i - 1];
  }

  /** Which texts with a double colon get to their end. */
  predicate HoleTaken(l: seq<nat>, r: seq<nat>) {
    Short(l) && Short(r) && |l| + |r| <= 7
  }

  /** One of the others is read to the end as well: eight groups and the double colon behind them. */
  predicate HoleLast(l: seq<nat>, r: seq<nat>) {
    Short(l) && |l| == 8 && r == []
  }

  lemma {:induction false} HoleStops(t: Text, k: nat, xs: seq<Text>, l: seq<nat>, ys: seq<Text>, r: seq<nat>, port: int)
    requires Spelt(xs, l) && Spelt(ys, r) && !HoleTaken(l, r) && !HoleLast(l, r) && (port == -1 || port == 0)
    requires At(t, k, Join(xs) + "::" + Join(ys))
    ensures Run6(t, k, S6(NO_WORDS, -1, 0, port, false)) == Stop6
  {
    hide Run6, Join, Spells, At, Laid;
    AtSplit(t, k, Join(xs) + "::", Join(ys));
    AtSplit(t, k, Join(xs), "::");
    if |l| > 8 || !Short(l) {
      JoinStops(t, k, xs, l, NO_WORDS, -1, 0, port);
    } else {
      LeftRun(t, k, xs, l, port);
      LaidParts(NO_WORDS, 0, l);
      JoinStops(t, k + |Join(xs)| + 2, ys, r, Laid(NO_WORDS, 0, l), |l|, |l| + 1, port);
    }
  }

  lemma SpeltSize(xs: seq<Text>, g: seq<nat>)
    requires Spelt(xs, g)
    ensures |xs| == |g|
  {
  }

  lemma EmptyJoin()
    ensures Join([]) == ""
  {
  }

  lemma LaidParts(words: seq<int>, q: nat, g: seq<nat>)
    requires q + |g| <= 8 && |words| == 9
    ensures |Laid(words, q, g)| == 9 && Laid(words, q, g)[q..q + |g|] == g && Laid(words, q, g)[..q] == words[..q]
    ensures forall j :: 0 <= j < q || q + |g| <= j < 9 ==> Laid(words, q, g)[j] == words[j]
  {
  }

  lemma GappedParts(l: seq<nat>, r: seq<nat>, p: int)
    requires |l| + |r| <= 7
    ensures |Gapped(l, r)| == 9
    ensures var w, z := Gapped(l, r)[8 := p], |l|;
      && w[..z] == l && w[z] == -1 && w[z + 1..z + 1 + |r|] == r
      && forall j :: z + 1 + |r| <= j < 8 ==> w[j] == -1
  {
    hide Laid;
    LaidParts(NO_WORDS, 0, l);
    LaidParts(Laid(NO_WORDS, 0, l), |l| + 1, r);
    var u, w, z := Gapped(l, r), Gapped(l, r)[8 := p], |l|;
    assert w[..z] == u[..z] == Laid(NO_WORDS, 0, l)[..z];
    assert Laid(NO_WORDS, 0, l)[..z] == Laid(NO_WORDS, 0, l)[0..0 + |l|];
    assert w[z + 1..z + 1 + |r|] == u[z + 1..z + 1 + |r|];
  }

  lemma FilledParts(l: seq<nat>, r: seq<nat>)
    requires |l| + |r| <= 7
    ensures var g := ZeroFilled(l, r); |g| == 8 && g[..|l|] == l && g[8 - |r|..] == r && forall j :: |l| <= j < 8 - |r| ==> g[j] == 0
  {
  }

  lemma {:induction false} GappedSpread(l: seq<nat>, r: seq<nat>, p: int)
    requires |l| + |r| <= 7
    ensures Spread(Gapped(l, r)[8 := p], |l|, 7, 7, ZERO_GROUPS) == ZeroFilled(l, r)
  {
    hide Spread, Gapped, ZeroFilled;
    GappedParts(l, r, p);
    FilledParts(l, r);
    var w, g, z := Gapped(l, r)[8 := p], ZeroFilled(l, r), |l|;
    if r != [] {
      assert HoldsHole(w, z, g, 7 - |r|);
      SpreadHole(w, z, g, 7 - |r|);
    } else {
      LeftSpread(w, l, g);
    }
  }

  lemma {:induction false} LeftSpread(w: seq<int>, l: seq<nat>, g: seq<nat>)
    requires |w| == 9 && |g| == 8 && |l| <= 7 && w[..|l|] == l == g[..|l|]
    requires (forall j :: |l| <= j < 8 ==> w[j] == -1) && forall j :: |l| <= j < 8 ==> g[j] == 0
    ensures Spread(w, |l|, 7, 7, ZERO_GROUPS) == g
  {
    hide Spread;
    var z := |l|;
    SpreadLeft(w, z, 7, ZERO_GROUPS);
    SpreadGap(w, z, 7, ZERO_GROUPS);
    assert g == g[..z] + ZERO_GROUPS[z..];
    if z > 0 {
      assert forall j :: 0 <= j < z ==> w[j] == w[..z][j] == g[..z][j];
      SpreadPrefix(w, z, g, z - 1, ZERO_GROUPS);
    }
  }

  lemma {:induction false} SpreadLeft(words: seq<int>, z: nat, i: nat, acc: seq<nat>)
    requires |words| == 9 && |acc| == 8 && z <= i <= 7 && forall j :: z <= j <= i ==> words[j] == -1
    ensures Spread(words, z, i, 7, acc) == Spread(words, z, z, 7, acc)
    decreases i
  {
    if i > z { SpreadLeft(words, z, i - 1, acc); }
  }

  /** A port of decimal digits is read into the last word. */
  lemma {:induction false} PortDigits(t: Text, k: nat, words: seq<int>, hole: int, x: Text, v: nat)
    requires At(t, k, x) && SpellsDec(x, v) && v <= 0xFFFF && |words| == 9 && words[8] == -1
    ensures Run6(t, k, S6(words, hole, 8, 1, false)) == Run6(t, k + |x|, S6(words[8 := v], hole, 8, 1, false))
    decreases |x|
  {
    hide Run6;
    var s, init, c := S6(words, hole, 8, 1, false), x[..|x| - 1], x[|x| - 1];
    var m := k + |init|;
    assert x == init + [c];
    AtSplit(t, k, init, [c]);
    AtHead(t, m, [c]);
    DigitStands(c, v % 10);
    if |x| == 1 {
      Run6Step(t, k, s);
    } else {
      PortDigits(t, k, words, hole, init, v / 10);
      Run6Step(t, m, S6(words[8 := v / 10], hole, 8, 1, false));
      assert words[8 := v / 10][8 := v] == words[8 := v];
    }
  }

  lemma {:induction false} PortStops(t: Text, k: nat, words: seq<int>, hole: int, x: Text, v: nat)
    requires At(t, k, x) && SpellsDec(x, v) && v > 0xFFFF && |words| == 9 && words[8] == -1
    ensures Run6(t, k, S6(words, hole, 8, 1, false)) == Stop6
    decreases |x|
  {
    hide Run6;
    var init, c := x[..|x| - 1], x[|x| - 1];
    var m := k + |init|;
    assert x == init + [c];
    AtSplit(t, k, init, [c]);
    if v / 10 > 0xFFFF {
      PortStops(t, k, words, hole, init, v / 10);
    } else {
      PortDigits(t, k, words, hole, init, v / 10);
      AtHead(t, m, [c]);
      DigitStands(c, v % 10);
      Run6Step(t, m, S6(words[8 := v / 10], hole, 8, 1, false));
      Run6Stop(t, m + 1);
    }
  }

  lemma {:induction false} DecHead(x: Text, v: nat)
    requires SpellsDec(x, v)
    ensures |x| > 0 && IsDigit(x[0])
    decreases |x|
  {
    if |x| == 1 { DigitStands(x[0], v); } else { DecHead(x[..|x| - 1], v / 10); }
  }

  /** The bracket, the colon and the port; the colon is refused if the current word is empty. */
  lemma {:induction false} CloseForm(t: Text, k: nat, w: seq<int>, hole: int, q: nat, x: Text, v: nat)
    requires At(t, k, "]:" + x) && k + 2 + |x| == |t| && SpellsDec(x, v) && |w| == 9 && w[8] == -1 && q <= 9
    ensures Run6(t, k, S6(w, hole, q, 0, false)) ==
      if q >= 8 || w[q] == -1 || v > 0xFFFF then Stop6 else S6(w[8 := v], hole, 8, 1, false)
  {
    hide Run6, SpellsDec;
    AtSplit(t, k, "]:", x);
    AtSplit(t, k, "]", ":");
    assert "]" + ":" == "]:";
    AtHead(t, k, "]");
    AtHead(t, k + 1, ":");
    DecHead(x, v);
    AtHead(t, k + 2, x);
    Run6Step(t, k, S6(w, hole, q, 0, false));
    Run6Stop(t, k + 1);
    if q < 8 {
      Run6Step(t, k + 1, S6(w, hole, q, 1, false));
      Run6Stop(t, k + 2);
      if w[q] != -1 {
        if v > 0xFFFF {
          PortStops(t, k + 2, w, hole, x, v);
        } else {
          PortDigits(t, k + 2, w, hole, x, v);
          Run6End(t, |t|, S6(w[8 := v], hole, 8, 1, false));
        }
      }
    }
  }

  lemma BracketedText(inner: Text, x: Text)
    ensures var t := "[" + inner + "]:" + x; At(t, 0, "[") && At(t, 1, inner) && At(t, 1 + |inner|, "]:" + x)
    ensures var t := "[" + inner + "]:" + x; Mode(t) == 6 && Run6(t, 0, START6) == Run6(t, 1, S6(NO_WORDS, -1, 0, 0, false))
  {
    hide Run6, FirstOther, At;
    var t := "[" + inner + "]:" + x;
    assert t == "[" + (inner + ("]:" + x));
    AtWhole(t);
    AtSplit(t, 0, "[", inner + ("]:" + x));
    AtSplit(t, 1, inner, "]:" + x);
    OpenRun(t);
  }

  lemma AtWhole(t: Text)
    ensures At(t, 0, t)
  {
    assert t[0..|t|] == t;
  }

  lemma {:induction false} OpenRun(t: Text)
    requires |t| > 0 && t[0] == '['
    ensures Run6(t, 0, START6) == Run6(t, 1, S6(NO_WORDS, -1, 0, 0, false))
  {
    hide Run6;
    Run6Step(t, 0, START6);
  }

  /** A bracketed text with a double colon, in any spelling, any number of groups and any numbers.  It is turned
      down if nothing stands between the double colon and the bracket, and for port 0. */
  lemma {:induction false} BracketHole(xs: seq<Text>, l: seq<nat>, ys: seq<Text>, r: seq<nat>, x: Text, port: nat)
    requires Spelt(xs, l) && Spelt(ys, r) && SpellsDec(x, port)
    ensures Parse("[" + (Join(xs) + "::" + Join(ys)) + "]:" + x) ==
      if HoleTaken(l, r) && r != [] && 0 < port <= 0xFFFF then Parsed(Addr(ZeroFilled(l, r), port)) else Invalid
  {
    hide Run6, Join, Spells, SpellsDec, Spread, ZeroFilled, Mode, Gapped, Current, At, Laid, Short;
    var inner := Join(xs) + "::" + Join(ys);
    var t := "[" + inner + "]:" + x;
    BracketedText(inner, x);
    if HoleTaken(l, r) {
      HoleText(t, 1, xs, l, ys, r, 0);
      GappedCurrent(l, r);
      CloseForm(t, 1 + |inner|, Gapped(l, r), |l|, Current(l, r), x, port);
      GappedSpread(l, r, port);
    } else if HoleLast(l, r) {
      AtSplit(t, 1, Join(xs) + "::", Join(ys));
      AtSplit(t, 1, Join(xs), "::");
      LeftRun(t, 1, xs, l, 0);
      EmptyJoin();
      LaidParts(NO_WORDS, 0, l);
      CloseForm(t, 1 + |inner|, Laid(NO_WORDS, 0, l), 8, 9, x, port);
    } else {
      HoleStops(t, 1, xs, l, ys, r, 0);
    }
  }

  /** So an address that ends in zeros has to spell one of them: this one is turned down. */
  lemma AnyRefused()
    ensures Parse("[::]:80") == Invalid
  {
    hide Parse, Join;
    assert "80"[..1] == "8" && SpellsDec("8", 8) && SpellsDec("80", 80);
    EmptyJoin();
    BracketHole([], [], [], [], "80", 80);
    assert "[" + ("" + "::" + "") + "]:" + "80" == "[::]:80";
  }

  /** The current word is empty exactly if nothing follows the double colon. */
  lemma GappedCurrent(l: seq<nat>, r: seq<nat>)
    requires |l| + |r| <= 7
    ensures var w, q := Gapped(l, r), Current(l, r); |w| == 9 && w[8] == -1 && q <= 8 && (q == 8 || w[q] == -1 <==> r == [])
  {
    hide Gapped;
    GappedParts(l, r, -1);
    GappedLast(l, r);
    var w, z := Gapped(l, r), |l|;
    assert w[8 := -1] == w;
    if r != [] { assert w[z + |r|] == w[z + 1..z + 1 + |r|][|r| - 1] == r[|r| - 1]; }
  }

  lemma GappedLast(l: seq<nat>, r: seq<nat>)
    requires |l| + |r| <= 7
    ensures |Gapped(l, r)| == 9 && Gapped(l, r)[8] == -1
  {
    hide Laid;
    LaidParts(NO_WORDS, 0, l);
    LaidParts(Laid(NO_WORDS, 0, l), |l| + 1, r);
  }

  /** The groups at the end, zeros before them. */
  function ZeroLed(g: seq<nat>): seq<nat>
    requires |g| <= 8
  {
    seq(8 - |g|, _ => 0) + g
  }

  lemma {:induction false} SpreadShift(words: seq<int>, g: seq<nat>, i: int, d: nat, acc: seq<nat>)
    requires |words| == 9 && |acc| == 8 && -1 <= i < |g| && i + d <= 7 && forall j :: 0 <= j <= i ==> words[j] == g[j]
    ensures Spread(words, -1, i, i + d, acc) == acc[..d] + g[..i + 1] + acc[i + 1 + d..]
    decreases i
  {
    if i >= 0 {
      var next := acc[i + d := g[i]];
      SpreadShift(words, g, i - 1, d, next);
      assert next[..d] == acc[..d] && next[i + d..] == [g[i]] + acc[i + 1 + d..] && g[..i + 1] == g[..i] + [g[i]];
    }
  }

  lemma {:induction false} SpreadDown(words: seq<int>, m: int, i: int, acc: seq<nat>)
    requires |words| == 9 && |acc| == 8 && -1 <= m <= i <= 7 && forall j :: m < j <= i ==> words[j] == -1
    ensures Spread(words, -1, i, 7, acc) == Spread(words, -1, m, 7, acc)
    decreases i
  {
    if i > m { SpreadDown(words, m, i - 1, acc); }
  }

  lemma {:induction false} LaidSpread(g: seq<nat>, p: int)
    requires 0 < |g| <= 8
    ensures Spread(Laid(NO_WORDS, 0, g)[8 := p], -1, 7, 7, ZERO_GROUPS) == ZeroLed(g)
  {
    hide Spread, Laid;
    LaidParts(NO_WORDS, 0, g);
    var w, n := Laid(NO_WORDS, 0, g)[8 := p], |g|;
    forall j | 0 <= j < n ensures w[j] == g[j] { assert w[j] == Laid(NO_WORDS, 0, g)[0..0 + n][j]; }
    SpreadDown(w, n - 1, 7, ZERO_GROUPS);
    SpreadShift(w, g, n - 1, 8 - n, ZERO_GROUPS);
    assert g[..n] == g && ZERO_GROUPS[..8 - n] == seq(8 - n, _ => 0) && ZERO_GROUPS[8..] == [];
  }

  /** A bracketed text without a double colon, in any spelling, any number of groups and any numbers: up to
      eight groups are taken, and fewer than eight for the end of the address. */
  lemma {:induction false} BracketGroups(xs: seq<Text>, g: seq<nat>, x: Text, port: nat)
    requires Spelt(xs, g) && xs != [] && SpellsDec(x, port)
    ensures Parse("[" + Join(xs) + "]:" + x) ==
      if Short(g) && |g| <= 8 && 0 < port <= 0xFFFF then Parsed(Addr(ZeroLed(g), port)) else Invalid
  {
    hide Run6, Join, Spells, SpellsDec, Spread, Mode, Laid, Short, At;
    var t := "[" + Join(xs) + "]:" + x;
    BracketedText(Join(xs), x);
    if Short(g) && |g| <= 8 {
      JoinRun(t, 1, xs, g, NO_WORDS, -1, 0, 0);
      LaidParts(NO_WORDS, 0, g);
      var w, q := Laid(NO_WORDS, 0, g), |g| - 1;
      assert w[q] == w[0..0 + |g|][q] == g[q];
      CloseForm(t, 1 + |Join(xs)|, w, -1, q, x, port);
      LaidSpread(g, port);
    } else {
      JoinStops(t, 1, xs, g, NO_WORDS, -1, 0, 0);
    }
  }

  /** Such a text with two groups. */
  lemma ShortBrackets()
    ensures Parse("[1:2]:80") == Parsed(Addr([0, 0, 0, 0, 0, 0, 1, 2], 80))
  {
    hide Parse;
    assert Spells("1", 1) && Spells("2", 2);
    assert "80"[..1] == "8" && SpellsDec("8", 8) && SpellsDec("80", 80);
    var xs, g := ["1", "2"], [1, 2];
    assert xs[1..] == ["2"] && Join(xs) == "1:2";
    BracketGroups(xs, g, "80", 80);
    assert ZeroLed(g) == [0, 0, 0, 0, 0, 0, 1, 2];
    assert "[" + "1:2" + "]:" + "80" == "[1:2]:80";
  }

  /** The text begins with a colon, a letter, or nothing but decimal digits and a colon. */
  predicate Recognised(xs: seq<Text>)
    requires forall i :: 0 <= i < |xs| ==> |xs[i]| > 0
  {
    xs == [] || xs[0][0] !in DECIMAL || forall i :: 0 <= i < |xs[0]| ==> xs[0][i] in DECIMAL
  }

  lemma {:induction false} RecognisedWord(h: Text)
    requires |h| > 0 && forall i :: 0 <= i < |h| ==> IsXDigit(h[i])
    ensures Recognised([h]) <==> IsAlpha(h[0]) || FirstOther(h, 0) == |h|
  {
    hide FirstOther;
    forall i | 0 <= i < |h| ensures h[i] in DECIMAL <==> IsDigit(h[i]) { InDecimal(h[i]); }
    var j := FirstOther(h, 0);
    if j < |h| { assert !IsDigit(h[j]); }
  }

  lemma InDecimal(c: char)
    ensures c in DECIMAL <==> IsDigit(c)
  {
    if IsDigit(c) { DigitIs(c); }
  }

  lemma {:induction false} SpeltSome(xs: seq<Text>, g: seq<nat>)
    requires Spelt(xs, g)
    ensures forall i :: 0 <= i < |xs| ==> |xs[i]| > 0
  {
  }

  /** The text without brackets and port; it is turned down if it is not recognised. */
  lemma {:induction false} PlainHole(xs: seq<Text>, l: seq<nat>, ys: seq<Text>, r: seq<nat>)
    requires Spelt(xs, l) && Spelt(ys, r)
    ensures forall i :: 0 <= i < |xs| ==> |xs[i]| > 0
    ensures Parse(Join(xs) + "::" + Join(ys)) ==
      if !Recognised(xs) then Invalid
      else if HoleTaken(l, r) then Parsed(Addr(ZeroFilled(l, r), DEF_PORT))
      else if HoleLast(l, r) then Parsed(Addr(l, DEF_PORT)) else Invalid
  {
    hide Run6, Join, Spells, Spread, ZeroFilled, Mode, FirstOther, Recognised, Short, End6;
    SpeltSome(xs, l);
    JoinMode(xs, l, ":" + Join(ys));
    assert Join(xs) + (":" + (":" + Join(ys))) == Join(xs) + "::" + Join(ys);
    HoleEnd(xs, l, ys, r);
  }

  lemma {:induction false} HoleEnd(xs: seq<Text>, l: seq<nat>, ys: seq<Text>, r: seq<nat>)
    requires Spelt(xs, l) && Spelt(ys, r)
    ensures End6(Run6(Join(xs) + "::" + Join(ys), 0, START6)) ==
      if HoleTaken(l, r) then Parsed(Addr(ZeroFilled(l, r), DEF_PORT)) else if HoleLast(l, r) then Parsed(Addr(l, DEF_PORT)) else Invalid
  {
    hide Run6, Join, Spells, Spread, ZeroFilled, Gapped, Current, At, Short, Laid;
    var t := Join(xs) + "::" + Join(ys);
    AtWhole(t);
    if HoleTaken(l, r) {
      HoleText(t, 0, xs, l, ys, r, -1);
      var w := Gapped(l, r);
      Run6End(t, |t|, S6(w, |l|, Current(l, r), -1, false));
      GappedLast(l, r);
      assert w[8 := -1] == w;
      GappedSpread(l, r, -1);
    } else if HoleLast(l, r) {
      AtSplit(t, 0, Join(xs) + "::", Join(ys));
      AtSplit(t, 0, Join(xs), "::");
      LeftRun(t, 0, xs, l, -1);
      EmptyJoin();
      Run6End(t, |t|, S6(Laid(NO_WORDS, 0, l), 8, 9, -1, false));
      FullSpread(l, 8);
    } else {
      HoleStops(t, 0, xs, l, ys, r, -1);
    }
  }

  lemma {:induction false} FullSpread(g: seq<nat>, hole: int)
    requires |g| == 8
    ensures Spread(Laid(NO_WORDS, 0, g), hole, 7, 7, ZERO_GROUPS) == g
  {
    hide Spread, Laid;
    LaidParts(NO_WORDS, 0, g);
    var w := Laid(NO_WORDS, 0, g);
    forall j | 0 <= j < 8 ensures w[j] == g[j] { assert w[j] == w[0..0 + 8][j]; }
    SpreadPrefix(w, hole, g, 7, ZERO_GROUPS);
    assert g[..8] + ZERO_GROUPS[8..] == g;
  }

  /** Without a double colon there have to be eight groups. */
  lemma {:induction false} PlainGroups(xs: seq<Text>, g: seq<nat>)
    requires Spelt(xs, g) && xs != []
    ensures forall i :: 0 <= i < |xs| ==> |xs[i]| > 0
    ensures |Join(xs)| > 0 && Parse(Join(xs)) == if Recognised(xs) && Short(g) && |g| == 8 then Parsed(Addr(g, DEF_PORT)) else Invalid
  {
    hide Run6, Spells, Spread, Mode, FirstOther, Short, At, Laid, Recognised;
    SpeltSome(xs, g);
    JoinHead(xs, g);
    var t := Join(xs);
    AtWhole(t);
    if Short(g) && |g| <= 8 {
      JoinRun(t, 0, xs, g, NO_WORDS, -1, 0, -1);
      var w := Laid(NO_WORDS, 0, g);
      Run6End(t, |t|, S6(w, -1, |g| - 1, -1, false));
      if |g| == 8 { FullSpread(g, -1); }
    } else {
      JoinStops(t, 0, xs, g, NO_WORDS, -1, 0, -1);
    }
    if |xs| == 1 {
      SpellsHead(xs[0], g[0]);
      DigitsMode(t);
    } else {
      JoinMode([xs[0]], [g[0]], Join(xs[1..]));
      assert [xs[0]][0] == xs[0] && Join([xs[0]]) == xs[0];
      assert Recognised(xs) <==> Recognised([xs[0]]) by { FirstRecognised(xs); }
      assert xs[0] + (":" + Join(xs[1..])) == t;
    }
  }

  lemma DigitsMode(t: Text)
    requires |t| > 0 && forall i :: 0 <= i < |t| ==> IsXDigit(t[i])
    ensures Mode(t) != 4
  {
    hide FirstOther;
  }

  lemma FirstRecognised(xs: seq<Text>)
    requires xs != [] && forall i :: 0 <= i < |xs| ==> |xs[i]| > 0
    ensures Recognised(xs) <==> Recognised([xs[0]])
  {
  }

  lemma NoneRecognised()
    ensures Recognised([])
  {
  }

  /** How a text of groups is recognised. */
  lemma {:induction false} JoinMode(xs: seq<Text>, g: seq<nat>, rest: Text)
    requires Spelt(xs, g)
    ensures forall i :: 0 <= i < |xs| ==> |xs[i]| > 0
    ensures Mode(Join(xs) + (":" + rest)) == if Recognised(xs) then 6 else 0
  {
    hide Mode, FirstOther, Spells, IsAlpha, Recognised;
    SpeltSome(xs, g);
    if xs == [] {
      NoneRecognised();
      ColonMode(rest);
      assert "" + (":" + rest) == ":" + rest;
    } else {
      SpellsHead(xs[0], g[0]);
      FirstRecognised(xs);
      RecognisedWord(xs[0]);
      if |xs| == 1 {
        WordMode(xs[0], rest);
      } else {
        WordMode(xs[0], Join(xs[1..]) + (":" + rest));
        assert xs[0] + (":" + (Join(xs[1..]) + (":" + rest))) == Join(xs) + (":" + rest);
      }
    }
  }
}
