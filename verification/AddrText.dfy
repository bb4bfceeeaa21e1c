/** Digits of printed addresses: decimal numbers and hexadecimal groups. */
module AddrText {

  type Text = seq<char>

  function DigitChar(d: nat): char
    requires d < 10
  {
    '0' + d as char
  }

  /** hex_asc */
  function HexChar(d: nat): char
    requires d < 16
  {
    if d < 10 then '0' + d as char else 'a' + (d - 10) as char
  }

  predicate IsDigit(c: char) {
    '0' <= c <= '9'
  }

  predicate IsAlpha(c: char) {
    'a' <= c <= 'z' || 'A' <= c <= 'Z'
  }

  predicate IsXDigit(c: char) {
    IsDigit(c) || 'a' <= c <= 'f' || 'A' <= c <= 'F'
  }

  function DigitValue(c: char): nat
    requires IsDigit(c)
  {
    c as int - '0' as int
  }

  /** XD(tolower(c)) */
  function XValue(c: char): nat
    requires IsXDigit(c)
  {
    if IsDigit(c) then c as int - '0' as int
    else if 'a' <= c then 10 + c as int - 'a' as int
    else 10 + c as int - 'A' as int
  }

  /** The usual decimal form. */
  function Dec(q: nat): (t: Text)
    ensures |t| > 0 && forall i :: 0 <= i < |t| ==> IsDigit(t[i])
  {
    if q < 10 then [DigitChar(q)] else Dec(q / 10) + [DigitChar(q % 10)]
  }

  /** The usual hexadecimal form without leading zeros. */
  function Hex(g: nat): (t: Text)
    ensures |t| > 0 && forall i :: 0 <= i < |t| ==> IsXDigit(t[i])
  {
    if g < 16 then [HexChar(g)] else Hex(g / 16) + [HexChar(g % 16)]
  }

  lemma DigitBack(d: nat)
    requires d < 10
    ensures IsDigit(DigitChar(d)) && DigitValue(DigitChar(d)) == d
  {
  }

  lemma HexBack(d: nat)
    requires d < 16
    ensures IsXDigit(HexChar(d)) && XValue(HexChar(d)) == d
  {
  }

  // ---------------------------------------------------------------- printers

  /** Multiplication and shift divide exactly below the bound of the printer. */
  lemma DivTen(q: nat)
    requires q < 81920
    ensures q * 0xcccd / 0x8_0000 == q / 10
  {
    var d, m := q / 10, q % 10;
    assert q == 10 * d + m;
  }

  lemma DivHundred(q: nat)
    requires q < 10000
    ensures q * 0x147b / 0x8_0000 == q / 100
  {
    var d, m := q / 100, q % 100;
    assert q == 100 * d + m;
  }

  function Pair(x: nat): Text
    requires x < 100
  {
    [DigitChar(x / 10), DigitChar(x % 10)]
  }

  lemma {:induction false} DecTwo(x: nat)
    requires 10 <= x < 100
    ensures Dec(x) == Pair(x)
  {
    assert Dec(x / 10) == [DigitChar(x / 10)];
  }

  lemma {:induction false} DecPair(q: nat)
    requires q >= 100
    ensures Dec(q) == Dec(q / 100) + Pair(q % 100)
  {
    assert q / 10 / 10 == q / 100 && q % 100 / 10 == q / 10 % 10 && q % 100 % 10 == q % 10;
    assert Dec(q) == Dec(q / 10) + [DigitChar(q % 10)];
    assert Dec(q / 10) == Dec(q / 10 / 10) + [DigitChar(q / 10 % 10)];
  }

  /** How many digits there are, and what they are. */
  lemma {:induction false} DecLength(q: nat)
    requires q < 81920
    ensures |Dec(q)| == if q > 9999 then 5 else if q > 999 then 4 else if q > 99 then 3 else if q > 9 then 2 else 1
  {
    hide Dec;
    if q > 9999 {
      DecTen(q);
      DecPair(q / 10);
      DecTwo(q / 10 / 100);
    } else if q > 999 {
      DecPair(q);
      DecTwo(q / 100);
    } else if q > 99 {
      DecPair(q);
      DecOne(q / 100);
    } else if q > 9 {
      DecTwo(q);
    } else {
      DecOne(q);
    }
  }

  lemma {:induction false} DecOne(q: nat)
    requires q < 10
    ensures Dec(q) == [DigitChar(q)]
  {
  }

  lemma {:induction false} DecTen(q: nat)
    requires q >= 10
    ensures Dec(q) == Dec(q / 10) + [DigitChar(q % 10)]
  {
  }

  /** Two digits at once, from the table of pairs. */
  method PutPair(x: nat, buf: array<char>, pos: nat)
    requires x < 100 && pos + 2 <= buf.Length
    modifies buf
    ensures buf[pos..pos + 2] == Pair(x) && buf[..pos] == old(buf[..pos]) && buf[pos + 2..] == old(buf[pos + 2..])
  {
    buf[pos] := DigitChar(x / 10);
    buf[pos + 1] := DigitChar(x % 10);
  }

  /** Four digits. */
  method PutFour(r: nat, buf: array<char>, pos: nat)
    requires 1000 <= r < 10000 && pos + 4 <= buf.Length
    modifies buf
    ensures buf[pos..pos + 4] == Dec(r) && buf[..pos] == old(buf[..pos]) && buf[pos + 4..] == old(buf[pos + 4..])
  {
    hide Dec, DigitChar;
    DivHundred(r);
    var q := r * 0x147b / 0x8_0000;
    DecPair(r);
    DecTwo(q);
    PutPair(r - 100 * q, buf, pos + 2);
    ghost var low := buf[pos + 2..];
    assert low[..2] == Pair(r % 100) && low[2..] == old(buf[pos + 4..]);
    assert buf[..pos] == buf[..pos + 2][..pos] == old(buf[..pos]);
    PutPair(q, buf, pos);
    assert buf[pos..pos + 4] == buf[pos..pos + 2] + buf[pos + 2..][..2];
    assert buf[pos + 4..] == buf[pos + 2..][2..];
  }

  /** Three digits. */
  method PutThree(q: nat, buf: array<char>, pos: nat)
    requires 100 <= q < 1000 && pos + 3 <= buf.Length
    modifies buf
    ensures buf[pos..pos + 3] == Dec(q) && buf[..pos] == old(buf[..pos])
  {
    hide Dec;
    DivHundred(q);
    var r := q * 0x147b / 0x8_0000;
    DecPair(q);
    DecOne(r);
    PutPair(q - 100 * r, buf, pos + 1);
    ghost var low := buf[pos + 1..];
    buf[pos] := DigitChar(r);
    assert buf[pos..pos + 3] == [DigitChar(r)] + low[..2];
  }

  /** Write up to five digits without leading zeros; returns the position behind them. */
  method PutDec(q: nat, buf: array<char>, pos: nat) returns (end: nat)
    requires q < 81920 && pos + |Dec(q)| <= buf.Length
    modifies buf
    ensures end == pos + |Dec(q)| && buf[..end] == old(buf[..pos]) + Dec(q)
  {
    hide Dec;
    DecLength(q);
    var n := 1 + (if q > 9 then 1 else 0) + (if q > 99 then 1 else 0) + (if q > 999 then 1 else 0) + (if q > 9999 then 1 else 0);
    end := pos + n;
    if n == 5 {
      DivTen(q);
      var r := q * 0xcccd / 0x8_0000;
      DecTen(q);
      buf[pos + 4] := DigitChar(q - 10 * r);
      ghost var last := buf[pos + 4..];
      PutFour(r, buf, pos);
      assert buf[pos..end] == buf[pos..pos + 4] + last[..1];
    } else if n == 4 {
      PutFour(q, buf, pos);
    } else if n == 3 {
      PutThree(q, buf, pos);
    } else if n == 2 {
      DecTwo(q);
      PutPair(q, buf, pos);
    } else {
      DecOne(q);
      buf[pos] := DigitChar(q);
      assert buf[pos..pos + 1] == [DigitChar(q)];
    }
    assert buf[..end] == buf[..pos] + buf[pos..end];
  }

  lemma {:induction false} HexLength(g: nat)
    requires g < 0x1_0000
    ensures |Hex(g)| == if g > 0xFFF then 4 else if g > 0xFF then 3 else if g > 0xF then 2 else 1
  {
    if g > 0xF { HexMore(g); }
    if g > 0xFF { HexMore(g / 16); }
    if g > 0xFFF { HexMore(g / 16 / 16); }
  }

  lemma {:induction false} HexMore(g: nat)
    requires g >= 16
    ensures Hex(g) == Hex(g / 16) + [HexChar(g % 16)]
  {
  }

  lemma {:induction false} HexDigits(g: nat)
    requires g < 0x1_0000
    ensures g <= 0xF ==> Hex(g) == [HexChar(g % 16)]
    ensures 0xF < g <= 0xFF ==> Hex(g) == [HexChar(g / 16 % 16), HexChar(g % 16)]
    ensures 0xFF < g <= 0xFFF ==> Hex(g) == [HexChar(g / 0x100 % 16), HexChar(g / 16 % 16), HexChar(g % 16)]
    ensures 0xFFF < g ==> Hex(g) == [HexChar(g / 0x1000), HexChar(g / 0x100 % 16), HexChar(g / 16 % 16), HexChar(g % 16)]
  {
    var a, b, c := g / 16, g / 0x100, g / 0x1000;
    assert a / 16 == b && b / 16 == c;
    if g > 0xF { HexMore(g); }
    if g > 0xFF { HexMore(a); }
    if g > 0xFFF { HexMore(b); }
  }

  /** Write a group of hexadecimal digits without leading zeros. */
  method PutGroup(group: nat, buf: array<char>, pos: nat) returns (end: nat)
    requires group < 0x1_0000 && pos + |Hex(group)| <= buf.Length
    modifies buf
    ensures end == pos + |Hex(group)| && buf[..end] == old(buf[..pos]) + Hex(group)
  {
    hide Hex, HexChar;
    HexLength(group);
    HexDigits(group);
    var n := 1 + (if group > 0xF then 1 else 0) + (if group > 0xFF then 1 else 0) + (if group > 0xFFF then 1 else 0);
    end := pos + n;
    if n == 4 {
      buf[end - 4] := HexChar(group / 0x1000);
    }
    if n >= 3 {
      buf[end - 3] := HexChar(group / 0x100 % 16);
    }
    if n >= 2 {
      buf[end - 2] := HexChar(group / 0x10 % 16);
    }
    buf[end - 1] := HexChar(group % 16);
    assert buf[..end] == buf[..pos] + buf[pos..end];
  }
}
