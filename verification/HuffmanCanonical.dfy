/** The code of the tables is the canonical one of its lengths, as Appendix B of RFC 7541 lists it: shorter codes come
    first, equally long ones in the order of their symbols, and each follows immediately on the one before. */
module HuffmanCanonical {
  import opened Bits
  import opened HuffmanTables
  import opened HuffmanProof

  /** Symbols with codes of up to fifteen bits, in the order of the code. */
  function Class(n: nat): string {
    if n == 5 then "012aceiost"
    else if n == 6 then " %-./3456789=A_bdfghlmnpru"
    else if n == 7 then ":BCDEFGHIJKLMNOPQRSTUVWYjkqvwxyz"
    else if n == 8 then "&*,;XZ"
    else if n == 10 then "!\"()?"
    else if n == 11 then "'+|"
    else if n == 12 then "#>"
    else if n == 13 then "\0$@[]~"
    else if n == 14 then "^}"
    else if n == 15 then "<`{"
    else ""
  }

  /** The place of the first code of `n` bits among all codes. */
  function ClassStart(n: nat): nat {
    if n <= 5 then 0 else ClassStart(n - 1) + |Class(n - 1)|
  }

  lemma {:induction false} ClassStarts()
    ensures ClassStart(5) == 0 && ClassStart(6) == 10 && ClassStart(7) == 36 && ClassStart(8) == 68 && ClassStart(10) == 74
    ensures ClassStart(11) == 79 && ClassStart(12) == 82 && ClassStart(13) == 84 && ClassStart(14) == 90 && ClassStart(15) == 92
  {
    assert ClassStart(5) == 0;
    assert ClassStart(6) == 10;
    assert ClassStart(7) == 36;
    assert ClassStart(8) == 68;
    assert ClassStart(9) == 74;
    assert ClassStart(10) == 74;
    assert ClassStart(11) == 79;
    assert ClassStart(12) == 82;
    assert ClassStart(13) == 84;
    assert ClassStart(14) == 90;
  }

  lemma Class5(j: nat)
    requires j < 10
    ensures Sym5(j) == Class(5)[j] as int < 128
  {
  }

  lemma Class6(j: nat)
    requires j < 26
    ensures Sym6(j) == Class(6)[j] as int < 128
  {
  }

  lemma Class7(j: nat)
    requires j < 32
    ensures Sym7(j) == Class(7)[j] as int < 128
  {
  }

  lemma ClassRest(n: nat, j: nat)
    requires 8 <= n <= 15 && j < |Class(n)|
    ensures n == 8 ==> Sym8(j) == Class(8)[j] as int < 128
    ensures n == 10 ==> Sym10(j) == Class(10)[j] as int < 128
    ensures n == 11 ==> Sym11(j) == Class(11)[j] as int < 128
    ensures n == 12 ==> Sym12(j) == Class(12)[j] as int < 128
    ensures n == 13 ==> Sym13(j) == Class(13)[j] as int < 128
    ensures n == 14 ==> Sym14(j) == Class(14)[j] as int < 128
    ensures n == 15 ==> Sym15(j) == Class(15)[j] as int < 128
  {
  }

  lemma ClassSizes()
    ensures |Class(5)| == 10 && |Class(6)| == 26 && |Class(7)| == 32 && |Class(8)| == 6 && |Class(10)| == 5
    ensures |Class(11)| == 3 && |Class(12)| == 2 && |Class(13)| == 6 && |Class(14)| == 2 && |Class(15)| == 3
    ensures forall n :: Class(n) != "" ==> 5 <= n <= 15 && n != 9
  {
  }

  lemma {:induction false} ClassSymbol(n: nat, j: nat)
    requires j < |Class(n)|
    ensures ClassStart(n) + j < 95 && SymbolAt(ClassStart(n) + j) == Class(n)[j] as int && CodeAt(ClassStart(n) + j).length == n
  {
    hide Sym5, Sym6, Sym7, Sym8, Sym10, Sym11, Sym12, Sym13, Sym14, Sym15, Class, SymbolAt, CodeAt, ClassStart;
    ClassSizes();
    ClassStarts();
    PlaceOf(n, j, ClassStart(n) + j);
    if n == 5 { Class5(j); } else if n == 6 { Class6(j); } else if n == 7 { Class7(j); } else { ClassRest(n, j); }
    assert (Class(n)[j] as int) % 256 == Class(n)[j] as int by { ClassAscii(n, j); }
  }

  lemma ClassAscii(n: nat, j: nat)
    requires j < |Class(n)|
    ensures Class(n)[j] as int < 128
  {
    hide Sym5, Sym6, Sym7, Sym8, Sym10, Sym11, Sym12, Sym13, Sym14, Sym15, Class;
    ClassSizes();
    if n == 5 { Class5(j); } else if n == 6 { Class6(j); } else if n == 7 { Class7(j); } else { ClassRest(n, j); }
  }

  lemma PlaceOf(n: nat, j: nat, r: nat)
    ensures n == 5 && j < 10 && r == j ==> SymbolAt(r) == Sym5(j) % 256 && CodeAt(r).length == n
    ensures n == 6 && j < 26 && r == 10 + j ==> SymbolAt(r) == Sym6(j) % 256 && CodeAt(r).length == n
    ensures n == 7 && j < 32 && r == 36 + j ==> SymbolAt(r) == Sym7(j) % 256 && CodeAt(r).length == n
    ensures n == 8 && j < 6 && r == 68 + j ==> SymbolAt(r) == Sym8(j) % 256 && CodeAt(r).length == n
    ensures n == 10 && j < 5 && r == 74 + j ==> SymbolAt(r) == Sym10(j) % 256 && CodeAt(r).length == n
    ensures n == 11 && j < 3 && r == 79 + j ==> SymbolAt(r) == Sym11(j) % 256 && CodeAt(r).length == n
    ensures n == 12 && j < 2 && r == 82 + j ==> SymbolAt(r) == Sym12(j) % 256 && CodeAt(r).length == n
    ensures n == 13 && j < 6 && r == 84 + j ==> SymbolAt(r) == Sym13(j) % 256 && CodeAt(r).length == n
    ensures n == 14 && j < 2 && r == 90 + j ==> SymbolAt(r) == Sym14(j) % 256 && CodeAt(r).length == n
    ensures n == 15 && j < 3 && r == 92 + j ==> SymbolAt(r) == Sym15(j) % 256 && CodeAt(r).length == n
  {
    hide Sym5, Sym6, Sym7, Sym8, Sym10, Sym11, Sym12, Sym13, Sym14, Sym15;
  }

  /** The codes of up to fifteen bits, which are those of all printable characters but the backslash. */
  lemma {:induction false} ShortCodes(n: nat, j: nat)
    requires j < |Class(n)|
    ensures Class(n)[j] as int < 128 && WordOf(Class(n)[j] as int) == CodeAt(ClassStart(n) + j) && WordOf(Class(n)[j] as int).length == n
  {
    hide SymbolAt, CodeAt, WordOf, ClassStart, Class;
    ClassSymbol(n, j);
    ClassAscii(n, j);
    Taken(ClassStart(n) + j);
  }

  // ---------------------------------------------------------------- the order of all codes

  lemma LengthsAscend(r: nat)
    requires r < 256
    ensures CodeAt(r).length <= CodeAt(r + 1).length <= 30
  {
  }

  /** Codes of equal length follow on each other. */
  lemma SameLength(r: nat)
    requires r < 256 && CodeAt(r).length == CodeAt(r + 1).length
    ensures CodeAt(r + 1).code == CodeAt(r).code + 1
  {
  }

  lemma LongerNext(r: nat)
    requires r < 256 && CodeAt(r).length != CodeAt(r + 1).length
    ensures r < 100 ==> r in {9, 35, 67, 73, 78, 81, 83, 89, 91, 94, 97}
    ensures r >= 100 ==> r in {105, 118, 144, 173, 185, 189, 204, 223, 252}
  {
  }

  lemma LongerFirst(r: nat)
    requires r in {9, 35, 67, 73, 78, 81, 83, 89, 91, 94, 97}
    ensures CodeAt(r + 1).length <= 30 && CodeAt(r).length <= 30 && First(CodeAt(r + 1)) == First(CodeAt(r)) + Span(CodeAt(r))
  {
    hide Pow2;
    Powers();
  }

  lemma LongerLast(r: nat)
    requires r in {105, 118, 144, 173, 185, 189, 204, 223, 252}
    ensures CodeAt(r + 1).length <= 30 && CodeAt(r).length <= 30 && First(CodeAt(r + 1)) == First(CodeAt(r)) + Span(CodeAt(r))
  {
    hide Pow2;
    Powers();
  }

  lemma NextCode(a: Word, b: Word)
    requires a.length == b.length <= 30 && b.code == a.code + 1
    ensures First(b) == First(a) + Span(a)
  {
    hide Pow2;
  }

  /** A code begins where the one before ends. */
  lemma Adjacent(r: nat)
    requires r < 256
    ensures CodeAt(r).length <= 30 && CodeAt(r + 1).length <= 30
    ensures First(CodeAt(r + 1)) == First(CodeAt(r)) + Span(CodeAt(r))
  {
    hide CodeAt, First, Span;
    LengthsAscend(r);
    if CodeAt(r).length == CodeAt(r + 1).length {
      SameLength(r);
      NextCode(CodeAt(r), CodeAt(r + 1));
    } else {
      LongerNext(r);
      if r < 100 { LongerFirst(r); } else { LongerLast(r); }
    }
  }

  lemma Ascend5(j: int)
    requires 0 <= j < 9
    ensures Sym5(j) % 256 < Sym5(j + 1) % 256
  {
  }

  lemma Ascend6(j: int)
    requires 0 <= j < 25
    ensures Sym6(j) % 256 < Sym6(j + 1) % 256
  {
  }

  lemma Ascend7(j: int)
    requires 0 <= j < 31
    ensures Sym7(j) % 256 < Sym7(j + 1) % 256
  {
  }

  lemma Ascend8(j: int)
    requires 0 <= j < 5
    ensures Sym8(j) % 256 < Sym8(j + 1) % 256
  {
  }

  lemma Ascend10(j: int)
    requires 0 <= j < 4
    ensures Sym10(j) % 256 < Sym10(j + 1) % 256
  {
  }

  lemma Ascend11(j: int)
    requires 0 <= j < 2
    ensures Sym11(j) % 256 < Sym11(j + 1) % 256
  {
  }

  lemma Ascend12(j: int)
    requires 0 <= j < 1
    ensures Sym12(j) % 256 < Sym12(j + 1) % 256
  {
  }

  lemma Ascend13(j: int)
    requires 0 <= j < 5
    ensures Sym13(j) % 256 < Sym13(j + 1) % 256
  {
  }

  lemma Ascend14(j: int)
    requires 0 <= j < 1
    ensures Sym14(j) % 256 < Sym14(j + 1) % 256
  {
  }

  lemma Ascend15(j: int)
    requires 0 <= j < 2
    ensures Sym15(j) % 256 < Sym15(j + 1) % 256
  {
  }

  lemma Ascend19(j: int)
    requires 0 <= j < 2
    ensures Sym19(j) % 256 < Sym19(j + 1) % 256
  {
  }

  lemma Ascend20(j: int)
    requires 0 <= j < 7
    ensures Sym20(j) % 256 < Sym20(j + 1) % 256
  {
  }

  lemma Ascend21(j: int)
    requires 0 <= j < 12
    ensures Sym21(j) % 256 < Sym21(j + 1) % 256
  {
  }

  lemma Ascend22(j: int)
    requires 0 <= j < 25
    ensures Sym22(j) % 256 < Sym22(j + 1) % 256
  {
  }

  lemma Ascend23(j: int)
    requires 0 <= j < 28
    ensures Sym23(j) % 256 < Sym23(j + 1) % 256
  {
  }

  lemma Ascend24(j: int)
    requires 0 <= j < 11
    ensures Sym24(j) % 256 < Sym24(j + 1) % 256
  {
  }

  lemma Ascend25(j: int)
    requires 0 <= j < 3
    ensures Sym25(j) % 256 < Sym25(j + 1) % 256
  {
  }

  lemma Ascend26(j: int)
    requires 0 <= j < 14
    ensures Sym26(j) % 256 < Sym26(j + 1) % 256
  {
  }

  lemma Ascend27(j: int)
    requires 0 <= j < 18
    ensures Sym27(j) % 256 < Sym27(j + 1) % 256
  {
  }

  lemma Ascend28(j: int)
    requires 0 <= j < 28
    ensures Sym28(j) % 256 < Sym28(j + 1) % 256
  {
  }

  lemma Ascend30(j: int)
    requires 0 <= j < 2
    ensures Sym30(j) % 256 < Sym30(j + 1) % 256
  {
  }

  lemma SymbolsAscend(r: nat)
    requires r < 255
    ensures CodeAt(r).length == CodeAt(r + 1).length ==> SymbolAt(r) < SymbolAt(r + 1)
  {
    hide Sym5, Sym6, Sym7, Sym8, Sym10, Sym11, Sym12, Sym13, Sym14, Sym15, Sym19, Sym20, Sym21, Sym22, Sym23, Sym24, Sym25, Sym26, Sym27, Sym28, Sym30;
    if CodeAt(r).length == CodeAt(r + 1).length {
      if r < 9 { Ascend5(r - 0); }
      else if r < 35 { Ascend6(r - 10); }
      else if r < 67 { Ascend7(r - 36); }
      else if r < 73 { Ascend8(r - 68); }
      else if r < 78 { Ascend10(r - 74); }
      else if r < 81 { Ascend11(r - 79); }
      else if r < 83 { Ascend12(r - 82); }
      else if r < 89 { Ascend13(r - 84); }
      else if r < 91 { Ascend14(r - 90); }
      else if r < 94 { Ascend15(r - 92); }
      else if r < 97 { Ascend19(r - 95); }
      else if r < 105 { Ascend20(r - 98); }
      else if r < 118 { Ascend21(r - 106); }
      else if r < 144 { Ascend22(r - 119); }
      else if r < 173 { Ascend23(r - 145); }
      else if r < 185 { Ascend24(r - 174); }
      else if r < 189 { Ascend25(r - 186); }
      else if r < 204 { Ascend26(r - 190); }
      else if r < 223 { Ascend27(r - 205); }
      else if r < 252 { Ascend28(r - 224); }
      else { Ascend30(r - 253); }
    }
  }

  /** The canonical order of two symbols. */
  predicate Earlier(s: Byte, u: Byte) {
    WordOf(s).length < WordOf(u).length || (WordOf(s).length == WordOf(u).length && s < u)
  }

  lemma {:induction false} RanksEarlier(r: nat, q: nat)
    requires r < q < 256
    ensures CodeAt(r).length <= CodeAt(q).length && (CodeAt(r).length == CodeAt(q).length ==> SymbolAt(r) < SymbolAt(q))
    decreases q - r
  {
    hide CodeAt, SymbolAt;
    LengthsAscend(r);
    SymbolsAscend(r);
    if r + 1 < q { RanksEarlier(r + 1, q); }
  }

  /** Shorter codes come first, and equally long ones in the order of their symbols. */
  lemma {:induction false} InOrder(s: Byte, u: Byte)
    ensures WordOf(s).length <= 30 && WordOf(u).length <= 30
    ensures Earlier(s, u) <==> First(WordOf(s)) < First(WordOf(u))
    ensures Earlier(s, u) <==> Rank(WordOf(s)) < Rank(WordOf(u))
  {
    hide CodeAt, SymbolAt, WordOf, Rank, First, Span;
    RankOf(s);
    RankOf(u);
    var r, q := Rank(WordOf(s)), Rank(WordOf(u));
    Adjacent(r);
    Adjacent(q);
    Longer(WordOf(s));
    Longer(WordOf(u));
    if r < q {
      RanksEarlier(r, q);
      Apart(r, q);
    } else if q < r {
      RanksEarlier(q, r);
      Apart(q, r);
    }
  }

  /** The code is determined by its lengths: the first one is all zeros, and each follows on the one before. */
  lemma {:induction false} Canonical(s: Byte, u: Byte)
    ensures WordOf(s).length <= 30 && WordOf(u).length <= 30
    ensures (forall x: Byte :: !Earlier(x, s)) ==> WordOf(s).code == 0
    ensures Earlier(s, u) && (forall x: Byte :: !(Earlier(s, x) && Earlier(x, u))) ==> First(WordOf(u)) == First(WordOf(s)) + Span(WordOf(s))
  {
    hide CodeAt, SymbolAt, WordOf, Rank, First, Span, Earlier;
    InOrder(s, u);
    RankOf(s);
    RankOf(u);
    var r, q := Rank(WordOf(s)), Rank(WordOf(u));
    if forall x: Byte :: !Earlier(x, s) {
      Between(0, s);
      FirstZero();
    }
    if Earlier(s, u) && forall x: Byte :: !(Earlier(s, x) && Earlier(x, u)) {
      if r + 1 < q {
        Between(r + 1, s);
        Between(r + 1, u);
      }
      Adjacent(r);
    }
  }

  lemma FirstZero()
    ensures CodeAt(0).code == 0
  {
  }

  /** The symbol at a place, in the order. */
  lemma {:induction false} Between(r: nat, s: Byte)
    requires r < 256
    ensures Earlier(SymbolAt(r), s) <==> r < Rank(WordOf(s))
    ensures Earlier(s, SymbolAt(r)) <==> Rank(WordOf(s)) < r
  {
    hide CodeAt, SymbolAt, WordOf, Rank, First, Span, Earlier;
    var x := SymbolAt(r);
    Taken(r);
    RankOf(x);
    RankUnique(r);
    InOrder(x, s);
    InOrder(s, x);
  }

  lemma RankUnique(r: nat)
    requires r < 256
    ensures Rank(CodeAt(r)) == r
  {
  }
}
