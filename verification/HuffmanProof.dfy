/** The Huffman tables have the properties the decoder and the encoder rely on. */
module HuffmanProof {
  import opened Common
  import opened Bits
  import opened Huffman
  import opened HuffmanTables

  // ---------------------------------------------------------------- the order of the codes

  lemma Powers()
    ensures Pow2(0) == 1 && Pow2(1) == 2 && Pow2(2) == 4 && Pow2(3) == 8 && Pow2(4) == 16 && Pow2(5) == 32
    ensures Pow2(6) == 64 && Pow2(7) == 128 && Pow2(8) == 0x100 && Pow2(9) == 0x200 && Pow2(10) == 0x400
    ensures Pow2(11) == 0x800 && Pow2(12) == 0x1000 && Pow2(13) == 0x2000 && Pow2(14) == 0x4000 && Pow2(15) == 0x8000
    ensures Pow2(16) == 0x1_0000 && Pow2(17) == 0x2_0000 && Pow2(18) == 0x4_0000 && Pow2(19) == 0x8_0000
    ensures Pow2(20) == 0x10_0000 && Pow2(21) == 0x20_0000 && Pow2(22) == 0x40_0000 && Pow2(23) == 0x80_0000
    ensures Pow2(24) == 0x100_0000 && Pow2(25) == 0x200_0000 && Pow2(26) == 0x400_0000 && Pow2(27) == 0x800_0000
    ensures Pow2(28) == 0x1000_0000 && Pow2(29) == 0x2000_0000 && Pow2(30) == 0x4000_0000
  {
  }

  /** The code of `s` is the one its place among the symbols of the same length gives. */
  predicate Listed(s: nat, w: Word) {
    if w.length == 5 then 0x0 <= w.code < 0xA && Sym5(w.code - 0x0) == Signed(s)
    else if w.length == 6 then 0x14 <= w.code < 0x2E && Sym6(w.code - 0x14) == Signed(s)
    else if w.length == 7 then 0x5C <= w.code < 0x7C && Sym7(w.code - 0x5C) == Signed(s)
    else if w.length == 8 then 0xF8 <= w.code < 0xFE && Sym8(w.code - 0xF8) == Signed(s)
    else if w.length == 10 then 0x3F8 <= w.code < 0x3FD && Sym10(w.code - 0x3F8) == Signed(s)
    else if w.length == 11 then 0x7FA <= w.code < 0x7FD && Sym11(w.code - 0x7FA) == Signed(s)
    else if w.length == 12 then 0xFFA <= w.code < 0xFFC && Sym12(w.code - 0xFFA) == Signed(s)
    else if w.length == 13 then 0x1FF8 <= w.code < 0x1FFE && Sym13(w.code - 0x1FF8) == Signed(s)
    else if w.length == 14 then 0x3FFC <= w.code < 0x3FFE && Sym14(w.code - 0x3FFC) == Signed(s)
    else if w.length == 15 then 0x7FFC <= w.code < 0x7FFF && Sym15(w.code - 0x7FFC) == Signed(s)
    else if w.length == 19 then 0x7FFF0 <= w.code < 0x7FFF3 && Sym19(w.code - 0x7FFF0) == Signed(s)
    else if w.length == 20 then 0xFFFE6 <= w.code < 0xFFFEE && Sym20(w.code - 0xFFFE6) == Signed(s)
    else if w.length == 21 then 0x1FFFDC <= w.code < 0x1FFFE9 && Sym21(w.code - 0x1FFFDC) == Signed(s)
    else if w.length == 22 then 0x3FFFD2 <= w.code < 0x3FFFEC && Sym22(w.code - 0x3FFFD2) == Signed(s)
    else if w.length == 23 then 0x7FFFD8 <= w.code < 0x7FFFF5 && Sym23(w.code - 0x7FFFD8) == Signed(s)
    else if w.length == 24 then 0xFFFFEA <= w.code < 0xFFFFF6 && Sym24(w.code - 0xFFFFEA) == Signed(s)
    else if w.length == 25 then 0x1FFFFEC <= w.code < 0x1FFFFF0 && Sym25(w.code - 0x1FFFFEC) == Signed(s)
    else if w.length == 26 then 0x3FFFFE0 <= w.code < 0x3FFFFEF && Sym26(w.code - 0x3FFFFE0) == Signed(s)
    else if w.length == 27 then 0x7FFFFDE <= w.code < 0x7FFFFF1 && Sym27(w.code - 0x7FFFFDE) == Signed(s)
    else if w.length == 28 then 0xFFFFFE2 <= w.code < 0xFFFFFFF && Sym28(w.code - 0xFFFFFE2) == Signed(s)
    else w.length == 30 && 0x3FFFFFFC <= w.code < 0x3FFFFFFF && Sym30(w.code - 0x3FFFFFFC) == Signed(s)
  }

  lemma Block0(s: nat)
    requires 0 <= s < 8
    ensures Listed(s, Words0(s))
  {
  }

  lemma Block8(s: nat)
    requires 8 <= s < 16
    ensures Listed(s, Words0(s))
  {
  }

  lemma Block16(s: nat)
    requires 16 <= s < 24
    ensures Listed(s, Words16(s))
  {
  }

  lemma Block24(s: nat)
    requires 24 <= s < 32
    ensures Listed(s, Words16(s))
  {
  }

  lemma Block32(s: nat)
    requires 32 <= s < 40
    ensures Listed(s, Words32(s))
  {
  }

  lemma Block40(s: nat)
    requires 40 <= s < 48
    ensures Listed(s, Words32(s))
  {
  }

  lemma Block48(s: nat)
    requires 48 <= s < 56
    ensures Listed(s, Words48(s))
  {
  }

  lemma Block56(s: nat)
    requires 56 <= s < 64
    ensures Listed(s, Words48(s))
  {
  }

  lemma Block64(s: nat)
    requires 64 <= s < 72
    ensures Listed(s, Words64(s))
  {
  }

  lemma Block72(s: nat)
    requires 72 <= s < 80
    ensures Listed(s, Words64(s))
  {
  }

  lemma Block80(s: nat)
    requires 80 <= s < 88
    ensures Listed(s, Words80(s))
  {
  }

  lemma Block88(s: nat)
    requires 88 <= s < 96
    ensures Listed(s, Words80(s))
  {
  }

  lemma Block96(s: nat)
    requires 96 <= s < 104
    ensures Listed(s, Words96(s))
  {
  }

  lemma Block104(s: nat)
    requires 104 <= s < 112
    ensures Listed(s, Words96(s))
  {
  }

  lemma Block112(s: nat)
    requires 112 <= s < 120
    ensures Listed(s, Words112(s))
  {
  }

  lemma Block120(s: nat)
    requires 120 <= s < 128
    ensures Listed(s, Words112(s))
  {
  }

  lemma Block128(s: nat)
    requires 128 <= s < 136
    ensures Listed(s, Words128(s))
  {
  }

  lemma Block136(s: nat)
    requires 136 <= s < 144
    ensures Listed(s, Words128(s))
  {
  }

  lemma Block144(s: nat)
    requires 144 <= s < 152
    ensures Listed(s, Words144(s))
  {
  }

  lemma Block152(s: nat)
    requires 152 <= s < 160
    ensures Listed(s, Words144(s))
  {
  }

  lemma Block160(s: nat)
    requires 160 <= s < 168
    ensures Listed(s, Words160(s))
  {
  }

  lemma Block168(s: nat)
    requires 168 <= s < 176
    ensures Listed(s, Words160(s))
  {
  }

  lemma Block176(s: nat)
    requires 176 <= s < 184
    ensures Listed(s, Words176(s))
  {
  }

  lemma Block184(s: nat)
    requires 184 <= s < 192
    ensures Listed(s, Words176(s))
  {
  }

  lemma Block192(s: nat)
    requires 192 <= s < 200
    ensures Listed(s, Words192(s))
  {
  }

  lemma Block200(s: nat)
    requires 200 <= s < 208
    ensures Listed(s, Words192(s))
  {
  }

  lemma Block208(s: nat)
    requires 208 <= s < 216
    ensures Listed(s, Words208(s))
  {
  }

  lemma Block216(s: nat)
    requires 216 <= s < 224
    ensures Listed(s, Words208(s))
  {
  }

  lemma Block224(s: nat)
    requires 224 <= s < 232
    ensures Listed(s, Words224(s))
  {
  }

  lemma Block232(s: nat)
    requires 232 <= s < 240
    ensures Listed(s, Words224(s))
  {
  }

  lemma Block240(s: nat)
    requires 240 <= s < 248
    ensures Listed(s, Words240(s))
  {
  }

  lemma Block248(s: nat)
    requires 248 <= s < 256
    ensures Listed(s, Words240(s))
  {
  }

  lemma AllListed(s: nat)
    requires s < 256
    ensures Listed(s, WordOf(s))
  {
    hide Words0, Words16, Words32, Words48, Words64, Words80, Words96, Words112, Words128, Words144, Words160, Words176, Words192, Words208, Words224, Words240, Listed;
    if s < 8 { Block0(s); }
    else if s < 16 { Block8(s); }
    else if s < 24 { Block16(s); }
    else if s < 32 { Block24(s); }
    else if s < 40 { Block32(s); }
    else if s < 48 { Block40(s); }
    else if s < 56 { Block48(s); }
    else if s < 64 { Block56(s); }
    else if s < 72 { Block64(s); }
    else if s < 80 { Block72(s); }
    else if s < 88 { Block80(s); }
    else if s < 96 { Block88(s); }
    else if s < 104 { Block96(s); }
    else if s < 112 { Block104(s); }
    else if s < 120 { Block112(s); }
    else if s < 128 { Block120(s); }
    else if s < 136 { Block128(s); }
    else if s < 144 { Block136(s); }
    else if s < 152 { Block144(s); }
    else if s < 160 { Block152(s); }
    else if s < 168 { Block160(s); }
    else if s < 176 { Block168(s); }
    else if s < 184 { Block176(s); }
    else if s < 192 { Block184(s); }
    else if s < 200 { Block192(s); }
    else if s < 208 { Block200(s); }
    else if s < 216 { Block208(s); }
    else if s < 224 { Block216(s); }
    else if s < 232 { Block224(s); }
    else if s < 240 { Block232(s); }
    else if s < 248 { Block240(s); }
    else { Block248(s); }
  }

  lemma ShapeOk()
    ensures Shape(HT)
  {
    forall s | 0 <= s < 256 ensures 1 <= HT.length[s] <= 32 && HT.encode[s] < Pow2(HT.length[s]) {
      hide WordOf, Pow2, Rank, SymbolAt;
      WordAt(s);
      RankOf(s);
      CodeFits(Rank(WordOf(s)));
    }
    forall k | 0 <= k < |HT.shift| ensures StateOk(HT, k) {
      StateForms(k);
    }
  }

  lemma CodeFits(r: nat)
    requires r <= 256
    ensures 1 <= CodeAt(r).length <= 30 && CodeAt(r).code < Pow2(CodeAt(r).length)
  {
    hide Pow2;
    Powers();
  }

  lemma StateForms(k: nat)
    requires k < 848
    ensures StateOk(HT, k)
  {
    hide Signed, Sym5, Sym6, Sym7, Sym8, Sym10, Sym11, Sym12, Sym13, Sym14, Sym15, Sym19, Sym20, Sym21, Sym22, Sym23, Sym24, Sym25, Sym26, Sym27, Sym28, Sym30;
    assert HT.shift[k] == StateOf(k).shift && HT.offset[k] == StateOf(k).offset;
  }

  lemma StateAt(k: nat)
    requires k < 848
    ensures |HT.shift| == |HT.offset| == 848 && HT.shift[k] == StateOf(k).shift && HT.offset[k] == StateOf(k).offset
  {
    hide StateOf;
  }

  lemma WordAt(s: Byte)
    ensures |HT.encode| == |HT.length| == 256 && HT.encode[s] == WordOf(s).code && HT.length[s] == WordOf(s).length
  {
    hide WordOf;
  }

  // ---------------------------------------------------------------- every state keeps to the codes

  /** The symbols in the order of their codes. */
  function SymbolAt(r: nat): Byte {
    if r < 10 then Sym5(r) % 256
    else if r < 36 then Sym6(r - 10) % 256
    else if r < 68 then Sym7(r - 36) % 256
    else if r < 74 then Sym8(r - 68) % 256
    else if r < 79 then Sym10(r - 74) % 256
    else if r < 82 then Sym11(r - 79) % 256
    else if r < 84 then Sym12(r - 82) % 256
    else if r < 90 then Sym13(r - 84) % 256
    else if r < 92 then Sym14(r - 90) % 256
    else if r < 95 then Sym15(r - 92) % 256
    else if r < 98 then Sym19(r - 95) % 256
    else if r < 106 then Sym20(r - 98) % 256
    else if r < 119 then Sym21(r - 106) % 256
    else if r < 145 then Sym22(r - 119) % 256
    else if r < 174 then Sym23(r - 145) % 256
    else if r < 186 then Sym24(r - 174) % 256
    else if r < 190 then Sym25(r - 186) % 256
    else if r < 205 then Sym26(r - 190) % 256
    else if r < 224 then Sym27(r - 205) % 256
    else if r < 253 then Sym28(r - 224) % 256
    else Sym30(r - 253) % 256
  }

  /** Their codes. */
  function CodeAt(r: nat): Word {
    if r < 10 then Word(r, 5)
    else if r < 36 then Word(0x14 + (r - 10), 6)
    else if r < 68 then Word(0x5C + (r - 36), 7)
    else if r < 74 then Word(0xF8 + (r - 68), 8)
    else if r < 79 then Word(0x3F8 + (r - 74), 10)
    else if r < 82 then Word(0x7FA + (r - 79), 11)
    else if r < 84 then Word(0xFFA + (r - 82), 12)
    else if r < 90 then Word(0x1FF8 + (r - 84), 13)
    else if r < 92 then Word(0x3FFC + (r - 90), 14)
    else if r < 95 then Word(0x7FFC + (r - 92), 15)
    else if r < 98 then Word(0x7FFF0 + (r - 95), 19)
    else if r < 106 then Word(0xFFFE6 + (r - 98), 20)
    else if r < 119 then Word(0x1FFFDC + (r - 106), 21)
    else if r < 145 then Word(0x3FFFD2 + (r - 119), 22)
    else if r < 174 then Word(0x7FFFD8 + (r - 145), 23)
    else if r < 186 then Word(0xFFFFEA + (r - 174), 24)
    else if r < 190 then Word(0x1FFFFEC + (r - 186), 25)
    else if r < 205 then Word(0x3FFFFE0 + (r - 190), 26)
    else if r < 224 then Word(0x7FFFFDE + (r - 205), 27)
    else if r < 253 then Word(0xFFFFFE2 + (r - 224), 28)
    else Word(0x3FFFFFFC + (r - 253), 30)
  }

  /** The place of a code in that order. */
  function Rank(w: Word): int {
    if w.length == 5 then 0 + w.code - 0x0
    else if w.length == 6 then 10 + w.code - 0x14
    else if w.length == 7 then 36 + w.code - 0x5C
    else if w.length == 8 then 68 + w.code - 0xF8
    else if w.length == 10 then 74 + w.code - 0x3F8
    else if w.length == 11 then 79 + w.code - 0x7FA
    else if w.length == 12 then 82 + w.code - 0xFFA
    else if w.length == 13 then 84 + w.code - 0x1FF8
    else if w.length == 14 then 90 + w.code - 0x3FFC
    else if w.length == 15 then 92 + w.code - 0x7FFC
    else if w.length == 19 then 95 + w.code - 0x7FFF0
    else if w.length == 20 then 98 + w.code - 0xFFFE6
    else if w.length == 21 then 106 + w.code - 0x1FFFDC
    else if w.length == 22 then 119 + w.code - 0x3FFFD2
    else if w.length == 23 then 145 + w.code - 0x7FFFD8
    else if w.length == 24 then 174 + w.code - 0xFFFFEA
    else if w.length == 25 then 186 + w.code - 0x1FFFFEC
    else if w.length == 26 then 190 + w.code - 0x3FFFFE0
    else if w.length == 27 then 205 + w.code - 0x7FFFFDE
    else if w.length == 28 then 224 + w.code - 0xFFFFFE2
    else 253 + w.code - 0x3FFFFFFC
  }

  lemma ListedRank(s: Byte, w: Word)
    requires Listed(s, w)
    ensures 0 <= Rank(w) < 256 && SymbolAt(Rank(w)) == s && CodeAt(Rank(w)) == w
  {
    hide Sym5, Sym6, Sym7, Sym8, Sym10, Sym11, Sym12, Sym13, Sym14, Sym15, Sym19, Sym20, Sym21, Sym22, Sym23, Sym24, Sym25, Sym26, Sym27, Sym28, Sym30;
  }

  lemma RankOf(s: Byte)
    ensures 0 <= Rank(WordOf(s)) < 256 && SymbolAt(Rank(WordOf(s))) == s && CodeAt(Rank(WordOf(s))) == WordOf(s)
  {
    hide WordOf, Rank, SymbolAt, CodeAt, Listed;
    AllListed(s);
    ListedRank(s, WordOf(s));
  }

  ghost function Ranks(n: nat): set<int> {
    set s | 0 <= s < n :: Rank(WordOf(s))
  }

  lemma {:induction false} RanksSize(n: nat)
    requires n <= 256
    ensures |Ranks(n)| == n
  {
    hide WordOf, Rank, SymbolAt, CodeAt;
    if n == 0 {
      assert Ranks(0) == {};
    } else {
      RanksSize(n - 1);
      RankOf(n - 1);
      assert Ranks(n) == Ranks(n - 1) + {Rank(WordOf(n - 1))};
      forall s: Byte | s < n - 1 ensures Rank(WordOf(s)) != Rank(WordOf(n - 1)) { RankOf(s); }
    }
  }

  ghost function Below(n: nat): (b: set<int>)
    ensures forall r :: r in b <==> 0 <= r < n
  {
    if n == 0 then {} else Below(n - 1) + {n - 1}
  }

  lemma {:induction false} BelowSize(n: nat)
    ensures |Below(n)| == n
  {
    if n > 0 { BelowSize(n - 1); }
  }

  /** As many codes as places: each place is taken by the symbol listed there. */
  lemma Taken(r: nat)
    requires r < 256
    ensures WordOf(SymbolAt(r)) == CodeAt(r)
  {
    hide WordOf, Rank, SymbolAt, CodeAt;
    RanksSize(256);
    BelowSize(256);
    assert Ranks(256) <= Below(256) by {
      forall s | 0 <= s < 256 ensures Rank(WordOf(s)) in Below(256) { RankOf(s); }
    }
    SameSet(Ranks(256), Below(256));
    assert r in Below(256);
    var s :| 0 <= s < 256 && Rank(WordOf(s)) == r;
    RankOf(s);
  }

  /** Where the tables begin. */
  predicate IsStart(off: nat) {
    (off < 640 && off % 128 == 0) || (640 <= off < 848 && off % 8 == 0)
  }

  /** The bits that lead to a table. */
  function PathOf(off: nat): Word {
    if off == 0 then Word(0, 0)
    else if off == 128 then Word(0x7F, 7)
    else if off == 256 then Word(0x3FFF, 14)
    else if off == 384 then Word(0x1FFFFE, 21)
    else if off == 512 then Word(0x1FFFFF, 21)
    else if off < 664 then Word(124 + off / 8 - 80, 7)
    else if off == 664 then Word(0x3FFE, 14)
    else if off < 840 then Word(0x1FFFE9 + off / 8 - 84, 21)
    else Word(0xFFFFFFF, 28)
  }

  /** A symbol lies where its code says, the next table where the longer path says. */
  predicate Keeps(off: nat, i: nat, st: State, p: Word) {
    var w := Width(off);
    && (st.shift > 0 ==>
        var k := st.shift - (NBITS - w);
        1 <= k <= w && WordOf(st.offset % 256) == Word(p.code * Pow2(k) + i / Pow2(w - k), p.length + k))
    && (st.shift < 0 && off < SMALL ==>
        st.offset > 0 && IsStart(st.offset) && PathOf(st.offset) == Word(p.code * 128 + i, p.length + NBITS))
    && (st.shift < 0 && off >= SMALL ==> st.shift == -6 && p.code * 4 + i / 2 == 0x3FFFFFFF && p.length == 28)
  }

  lemma Keeps0(i: nat)
    requires i < 128
    ensures Keeps(0, i, StateOf(0 + i), PathOf(0))
  {
    hide WordOf, Pow2, Sym5, Sym6, Sym7, Sym8, Sym10, Sym11, Sym12, Sym13, Sym14, Sym15, Sym19, Sym20, Sym21, Sym22, Sym23, Sym24, Sym25, Sym26, Sym27, Sym28, Sym30;
    Powers();
    if i < 40 { Taken(i / 4); }
    else if i < 92 { Taken(10 + (i - 40) / 2); }
    else if i < 124 { Taken(36 + (i - 92)); }
  }

  lemma Keeps128(i: nat)
    requires i < 128
    ensures Keeps(128, i, StateOf(128 + i), PathOf(128))
  {
    hide WordOf, Pow2, Sym5, Sym6, Sym7, Sym8, Sym10, Sym11, Sym12, Sym13, Sym14, Sym15, Sym19, Sym20, Sym21, Sym22, Sym23, Sym24, Sym25, Sym26, Sym27, Sym28, Sym30;
    Powers();
    if i < 80 { Taken(74 + i / 16); }
    else if i < 104 { Taken(79 + (i - 80) / 8); }
    else if i < 112 { Taken(82 + (i - 104) / 4); }
    else if i < 124 { Taken(84 + (i - 112) / 2); }
    else if i < 126 { Taken(90 + (i - 124)); }
  }

  lemma Keeps256(i: nat)
    requires i < 128
    ensures Keeps(256, i, StateOf(256 + i), PathOf(256))
  {
    hide WordOf, Pow2, Sym5, Sym6, Sym7, Sym8, Sym10, Sym11, Sym12, Sym13, Sym14, Sym15, Sym19, Sym20, Sym21, Sym22, Sym23, Sym24, Sym25, Sym26, Sym27, Sym28, Sym30;
    Powers();
    if i < 64 { Taken(94); }
    else if i < 76 { Taken(95 + (i - 64) / 4); }
    else if i < 92 { Taken(98 + (i - 76) / 2); }
    else if i < 105 { Taken(106 + (i - 92)); }
  }

  lemma Keeps384(i: nat)
    requires i < 128
    ensures Keeps(384, i, StateOf(384 + i), PathOf(384))
  {
    hide WordOf, Pow2, Sym5, Sym6, Sym7, Sym8, Sym10, Sym11, Sym12, Sym13, Sym14, Sym15, Sym19, Sym20, Sym21, Sym22, Sym23, Sym24, Sym25, Sym26, Sym27, Sym28, Sym30;
    Powers();
    if i < 96 { Taken(180 + i / 16); }
    else if i < 128 { Taken(186 + (i - 96) / 8); }
  }

  lemma Keeps512(i: nat)
    requires i < 128
    ensures Keeps(512, i, StateOf(512 + i), PathOf(512))
  {
    hide WordOf, Pow2, Sym5, Sym6, Sym7, Sym8, Sym10, Sym11, Sym12, Sym13, Sym14, Sym15, Sym19, Sym20, Sym21, Sym22, Sym23, Sym24, Sym25, Sym26, Sym27, Sym28, Sym30;
    Powers();
    if i < 60 { Taken(190 + i / 4); }
    else if i < 98 { Taken(205 + (i - 60) / 2); }
    else if i < 127 { Taken(224 + (i - 98)); }
  }

  lemma KeepsSmall8(m: nat, i: nat)
    requires m < 3 && i < 8
    ensures Keeps(640 + 8 * m, i, StateOf(640 + 8 * m + i), PathOf(640 + 8 * m))
  {
    hide WordOf, Pow2, Sym5, Sym6, Sym7, Sym8, Sym10, Sym11, Sym12, Sym13, Sym14, Sym15, Sym19, Sym20, Sym21, Sym22, Sym23, Sym24, Sym25, Sym26, Sym27, Sym28, Sym30;
    Powers();
    Taken(68 + 2 * m + i / 4);
  }

  lemma KeepsSmall15(m: nat, i: nat)
    requires m == 3 && i < 8
    ensures Keeps(640 + 8 * m, i, StateOf(640 + 8 * m + i), PathOf(640 + 8 * m))
  {
    hide WordOf, Pow2, Sym5, Sym6, Sym7, Sym8, Sym10, Sym11, Sym12, Sym13, Sym14, Sym15, Sym19, Sym20, Sym21, Sym22, Sym23, Sym24, Sym25, Sym26, Sym27, Sym28, Sym30;
    Powers();
    Taken(92 + i / 4);
  }

  lemma KeepsSmall22(m: nat, i: nat)
    requires 4 <= m < 17 && i < 8
    ensures Keeps(640 + 8 * m, i, StateOf(640 + 8 * m + i), PathOf(640 + 8 * m))
  {
    hide WordOf, Pow2, Sym5, Sym6, Sym7, Sym8, Sym10, Sym11, Sym12, Sym13, Sym14, Sym15, Sym19, Sym20, Sym21, Sym22, Sym23, Sym24, Sym25, Sym26, Sym27, Sym28, Sym30;
    Powers();
    Taken(119 + 2 * (m - 4) + i / 4);
  }

  lemma KeepsSmall23(m: nat, i: nat)
    requires 17 <= m < 24 && i < 8
    ensures Keeps(640 + 8 * m, i, StateOf(640 + 8 * m + i), PathOf(640 + 8 * m))
  {
    hide WordOf, Pow2, Sym5, Sym6, Sym7, Sym8, Sym10, Sym11, Sym12, Sym13, Sym14, Sym15, Sym19, Sym20, Sym21, Sym22, Sym23, Sym24, Sym25, Sym26, Sym27, Sym28, Sym30;
    Powers();
    Taken(145 + 4 * (m - 17) + i / 2);
  }

  lemma KeepsSmall24(m: nat, i: nat)
    requires m == 24 && i < 8
    ensures Keeps(640 + 8 * m, i, StateOf(640 + 8 * m + i), PathOf(640 + 8 * m))
  {
    hide WordOf, Pow2, Sym5, Sym6, Sym7, Sym8, Sym10, Sym11, Sym12, Sym13, Sym14, Sym15, Sym19, Sym20, Sym21, Sym22, Sym23, Sym24, Sym25, Sym26, Sym27, Sym28, Sym30;
    Powers();
    if i < 2 { Taken(173); } else { Taken(172 + i); }
  }

  lemma KeepsSmall30(m: nat, i: nat)
    requires m == 25 && i < 8
    ensures Keeps(640 + 8 * m, i, StateOf(640 + 8 * m + i), PathOf(640 + 8 * m))
  {
    hide WordOf, Pow2, Sym5, Sym6, Sym7, Sym8, Sym10, Sym11, Sym12, Sym13, Sym14, Sym15, Sym19, Sym20, Sym21, Sym22, Sym23, Sym24, Sym25, Sym26, Sym27, Sym28, Sym30;
    Powers();
    if i < 6 { Taken(253 + i / 2); }
  }

  lemma AllKeep(off: nat, i: nat)
    requires IsStart(off) && i < Pow2(Width(off))
    ensures off + i < 848 && Keeps(off, i, StateOf(off + i), PathOf(off))
  {
    hide WordOf, Pow2, StateOf, PathOf, Keeps;
    Powers();
    if off < 640 {
      if off == 0 { Keeps0(i); } else if off == 128 { Keeps128(i); } else if off == 256 { Keeps256(i); }
      else if off == 384 { Keeps384(i); } else { Keeps512(i); }
    } else {
      var m := off / 8 - 80;
      if m < 3 { KeepsSmall8(m, i); } else if m == 3 { KeepsSmall15(m, i); } else if m < 17 { KeepsSmall22(m, i); }
      else if m < 24 { KeepsSmall23(m, i); } else if m == 24 { KeepsSmall24(m, i); } else { KeepsSmall30(m, i); }
    }
  }

  ghost function Paths(): map<nat, seq<bool>> {
    map off: nat | 0 <= off < 848 && IsStart(off) :: BitsOf(PathOf(off).code, PathOf(off).length)
  }

  lemma SymbolSound(p: Word, i: nat, w: nat, k: nat)
    requires 1 <= k <= w && i < Pow2(w)
    ensures BitsOf(p.code * Pow2(k) + i / Pow2(w - k), p.length + k) == BitsOf(p.code, p.length) + BitsOf(i, w)[..k]
  {
    hide BitsOf, Pow2;
    QuotientBound(i, w, k);
    BitsJoin(p.code, p.length, i / Pow2(w - k), k);
    BitsHigh(i, w, k);
  }

  lemma {:induction false} EosSound(p: Word, i: nat)
    requires p.code * 4 + i / 2 == 0x3FFFFFFF && p.length == 28 && i < 8
    ensures BitsOf(p.code, p.length) + BitsOf(i, MBITS)[..2] == EOS
  {
    hide BitsOf, Pow2;
    Powers();
    SymbolSound(p, i, MBITS, 2);
    BitsOnes(30);
  }

  lemma StateSound(t: Tables, off: nat, i: nat)
    requires t == HT && Shape(t) && IsStart(off) && i < Pow2(Width(off))
    ensures off in Paths() && SoundState(t, Paths(), off, i)
  {
    hide WordOf, Pow2, StateOf, PathOf, BitsOf, StateOk;
    AllKeep(off, i);
    StateAt(off + i);
    Powers();
    var st, p, w := StateOf(off + i), PathOf(off), Width(off);
    if st.shift > 0 {
      WordAt(Symbol(st.offset));
      SymbolSound(p, i, w, st.shift - (NBITS - w));
    } else if st.shift < 0 && off < SMALL {
      BitsJoin(p.code, p.length, i, NBITS);
    } else if st.shift < 0 {
      EosSound(p, i);
    }
  }

  /** The tables are sound: no state strays from the codes. */
  lemma SoundOk()
    ensures Sound(HT, Paths())
  {
    hide StateOk, WordOf, StateOf, PathOf, Pow2;
    ShapeOk();
    assert Paths()[0] == [] by { assert PathOf(0) == Word(0, 0) by { PathRoot(); } }
    forall off, i | off in Paths() && 0 <= i < Pow2(Width(off)) ensures SoundState(HT, Paths(), off, i) {
      StateSound(HT, off, i);
    }
  }

  lemma PathRoot()
    ensures PathOf(0) == Word(0, 0)
  {
  }

  // ---------------------------------------------------------------- the codes are a prefix code

  /** The numbers of thirty bits that begin with a code. */
  function First(w: Word): nat
    requires w.length <= 30
  {
    w.code * Pow2(30 - w.length)
  }

  function Span(w: Word): nat
    requires w.length <= 30
  {
    Pow2(30 - w.length)
  }

  lemma Ascending(r: nat)
    requires r < 256
    ensures CodeAt(r).length <= 30 && CodeAt(r + 1).length <= 30
    ensures First(CodeAt(r)) + Span(CodeAt(r)) <= First(CodeAt(r + 1))
  {
    hide Pow2;
    Powers();
  }

  lemma {:induction false} Apart(r: nat, q: nat)
    requires r < q <= 256
    ensures CodeAt(r).length <= 30 && CodeAt(q).length <= 30
    ensures First(CodeAt(r)) + Span(CodeAt(r)) <= First(CodeAt(q))
    decreases q - r
  {
    hide CodeAt, First, Span;
    Ascending(r);
    if r + 1 < q { Apart(r + 1, q); }
  }

  lemma Within(a: Word, b: Word)
    requires a.length <= 30 && b.length <= 30 && a.code < Pow2(a.length) && b.code < Pow2(b.length)
    requires BitsOf(a.code, a.length) <= BitsOf(b.code, b.length)
    ensures First(a) <= First(b) < First(a) + Span(a)
  {
    hide BitsOf, Pow2;
    var d := b.length - a.length;
    BitsHigh(b.code, b.length, a.length);
    QuotientBound(b.code, b.length, a.length);
    BitsInjective(a.code, b.code / Pow2(d), a.length);
    Pow2Add(d, 30 - b.length);
    Scaled(a.code, b.code, Pow2(d), Pow2(30 - b.length));
  }

  lemma Scaled(a: nat, b: nat, d: nat, z: nat)
    requires d > 0 && z > 0 && a == b / d
    ensures a * (d * z) <= b * z < a * (d * z) + d * z
  {
    var m := b % d;
    assert b == a * d + m;
    assert b * z == a * (d * z) + m * z;
    assert 0 <= m * z < d * z;
  }

  lemma RanksApart(r: nat, q: nat)
    requires r <= 256 && q <= 256
    requires BitsOf(CodeAt(r).code, CodeAt(r).length) <= BitsOf(CodeAt(q).code, CodeAt(q).length)
    ensures r == q
  {
    hide BitsOf, Pow2, CodeAt, First, Span;
    CodeFits(r);
    CodeFits(q);
    Within(CodeAt(r), CodeAt(q));
    if r < q { Apart(r, q); }
    if q < r { Apart(q, r); Longer(CodeAt(q)); }
  }

  lemma Longer(w: Word)
    requires w.length <= 30
    ensures Span(w) > 0
  {
  }

  lemma CodeOf(s: Byte)
    requires Shape(HT)
    ensures Code(HT, s) == BitsOf(WordOf(s).code, WordOf(s).length)
  {
    hide BitsOf, Pow2, WordOf, StateOk;
    WordAt(s);
  }

  lemma EosCode()
    ensures EOS == BitsOf(CodeAt(256).code, CodeAt(256).length)
  {
    Powers();
    BitsOnes(30);
  }

  lemma PrefixFreeOk()
    requires Shape(HT)
    ensures PrefixFree(HT)
  {
    hide BitsOf, Pow2, CodeAt, WordOf, Rank, SymbolAt, StateOk, Code;
    forall s: Byte, u: Byte | Code(HT, s) <= Code(HT, u) ensures s == u {
      CodeOf(s);
      CodeOf(u);
      RankOf(s);
      RankOf(u);
      RanksApart(Rank(WordOf(s)), Rank(WordOf(u)));
    }
    EosCode();
    forall s: Byte ensures !(Code(HT, s) <= EOS) && !(EOS <= Code(HT, s)) {
      CodeOf(s);
      RankOf(s);
      if Code(HT, s) <= EOS { RanksApart(Rank(WordOf(s)), 256); }
      if EOS <= Code(HT, s) { RanksApart(256, Rank(WordOf(s))); }
    }
  }

  /** The tables are right: sound for a prefix code, without an idle table. */
  lemma TablesRight()
    ensures Right(HT, Paths())
  {
    hide StateOk, WordOf, StateOf, PathOf, Pow2, SoundState, PrefixFree;
    ShapeOk();
    SoundOk();
    PrefixFreeOk();
    forall off | off in Paths() ensures IsTable(HT, off) && HT.shift[off] > 0 { StartsWithSymbol(off); }
  }

  lemma StartsWithSymbol(off: nat)
    requires off < 848 && IsStart(off)
    ensures IsTable(HT, off) && HT.shift[off] > 0
  {
    StateAt(off);
    hide Sym5, Sym6;
  }

  /** With the program's own tables the decoder accepts exactly the padded encodings, and yields
      exactly what was encoded. */
  lemma {:induction false} HuffmanExact(src: seq<Byte>, str: seq<Byte>)
    ensures Shape(HT)
    ensures Ending(HT, Feed(HT, Next(START), src)) == Text(str) <==> Padded(HT, Stream(src), str)
  {
    hide Ending, Feed, Padded, SoundState, StateOk, PrefixFree, Inhabited;
    TablesRight();
    DecodingExact(HT, Paths(), src, str);
  }
}
