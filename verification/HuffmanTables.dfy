/** The tables of fw/hpack_tbl.h: the Huffman code of RFC 7541, Appendix B, and the automaton
    generated for it, 128 or 8 states to a table. */
module HuffmanTables {
  import opened Bits
  import opened Huffman

  // ---------------------------------------------------------------- ht_encode and ht_length

  datatype Word = Word(code: nat, length: nat)

  function Words0(s: nat): Word {
    if s == 0 then Word(0x1FF8, 13) else if s == 1 then Word(0x7FFFD8, 23) else
    if s == 2 then Word(0xFFFFFE2, 28) else if s == 3 then Word(0xFFFFFE3, 28) else
    if s == 4 then Word(0xFFFFFE4, 28) else if s == 5 then Word(0xFFFFFE5, 28) else
    if s == 6 then Word(0xFFFFFE6, 28) else if s == 7 then Word(0xFFFFFE7, 28) else
    if s == 8 then Word(0xFFFFFE8, 28) else if s == 9 then Word(0xFFFFEA, 24) else
    if s == 10 then Word(0x3FFFFFFC, 30) else if s == 11 then Word(0xFFFFFE9, 28) else
    if s == 12 then Word(0xFFFFFEA, 28) else if s == 13 then Word(0x3FFFFFFD, 30) else
    if s == 14 then Word(0xFFFFFEB, 28) else Word(0xFFFFFEC, 28)
  }

  function Words16(s: nat): Word {
    if s == 16 then Word(0xFFFFFED, 28) else if s == 17 then Word(0xFFFFFEE, 28) else
    if s == 18 then Word(0xFFFFFEF, 28) else if s == 19 then Word(0xFFFFFF0, 28) else
    if s == 20 then Word(0xFFFFFF1, 28) else if s == 21 then Word(0xFFFFFF2, 28) else
    if s == 22 then Word(0x3FFFFFFE, 30) else if s == 23 then Word(0xFFFFFF3, 28) else
    if s == 24 then Word(0xFFFFFF4, 28) else if s == 25 then Word(0xFFFFFF5, 28) else
    if s == 26 then Word(0xFFFFFF6, 28) else if s == 27 then Word(0xFFFFFF7, 28) else
    if s == 28 then Word(0xFFFFFF8, 28) else if s == 29 then Word(0xFFFFFF9, 28) else
    if s == 30 then Word(0xFFFFFFA, 28) else Word(0xFFFFFFB, 28)
  }

  function Words32(s: nat): Word {
    if s == 32 then Word(0x14, 6) else if s == 33 then Word(0x3F8, 10) else if s == 34 then Word(0x3F9, 10) else
    if s == 35 then Word(0xFFA, 12) else if s == 36 then Word(0x1FF9, 13) else if s == 37 then Word(0x15, 6) else
    if s == 38 then Word(0xF8, 8) else if s == 39 then Word(0x7FA, 11) else if s == 40 then Word(0x3FA, 10) else
    if s == 41 then Word(0x3FB, 10) else if s == 42 then Word(0xF9, 8) else if s == 43 then Word(0x7FB, 11) else
    if s == 44 then Word(0xFA, 8) else if s == 45 then Word(0x16, 6) else if s == 46 then Word(0x17, 6) else
    Word(0x18, 6)
  }

  function Words48(s: nat): Word {
    if s == 48 then Word(0x0, 5) else if s == 49 then Word(0x1, 5) else if s == 50 then Word(0x2, 5) else
    if s == 51 then Word(0x19, 6) else if s == 52 then Word(0x1A, 6) else if s == 53 then Word(0x1B, 6) else
    if s == 54 then Word(0x1C, 6) else if s == 55 then Word(0x1D, 6) else if s == 56 then Word(0x1E, 6) else
    if s == 57 then Word(0x1F, 6) else if s == 58 then Word(0x5C, 7) else if s == 59 then Word(0xFB, 8) else
    if s == 60 then Word(0x7FFC, 15) else if s == 61 then Word(0x20, 6) else if s == 62 then Word(0xFFB, 12) else
    Word(0x3FC, 10)
  }

  function Words64(s: nat): Word {
    if s == 64 then Word(0x1FFA, 13) else if s == 65 then Word(0x21, 6) else if s == 66 then Word(0x5D, 7) else
    if s == 67 then Word(0x5E, 7) else if s == 68 then Word(0x5F, 7) else if s == 69 then Word(0x60, 7) else
    if s == 70 then Word(0x61, 7) else if s == 71 then Word(0x62, 7) else if s == 72 then Word(0x63, 7) else
    if s == 73 then Word(0x64, 7) else if s == 74 then Word(0x65, 7) else if s == 75 then Word(0x66, 7) else
    if s == 76 then Word(0x67, 7) else if s == 77 then Word(0x68, 7) else if s == 78 then Word(0x69, 7) else
    Word(0x6A, 7)
  }

  function Words80(s: nat): Word {
    if s == 80 then Word(0x6B, 7) else if s == 81 then Word(0x6C, 7) else if s == 82 then Word(0x6D, 7) else
    if s == 83 then Word(0x6E, 7) else if s == 84 then Word(0x6F, 7) else if s == 85 then Word(0x70, 7) else
    if s == 86 then Word(0x71, 7) else if s == 87 then Word(0x72, 7) else if s == 88 then Word(0xFC, 8) else
    if s == 89 then Word(0x73, 7) else if s == 90 then Word(0xFD, 8) else if s == 91 then Word(0x1FFB, 13) else
    if s == 92 then Word(0x7FFF0, 19) else if s == 93 then Word(0x1FFC, 13) else if s == 94 then Word(0x3FFC, 14) else
    Word(0x22, 6)
  }

  function Words96(s: nat): Word {
    if s == 96 then Word(0x7FFD, 15) else if s == 97 then Word(0x3, 5) else if s == 98 then Word(0x23, 6) else
    if s == 99 then Word(0x4, 5) else if s == 100 then Word(0x24, 6) else if s == 101 then Word(0x5, 5) else
    if s == 102 then Word(0x25, 6) else if s == 103 then Word(0x26, 6) else if s == 104 then Word(0x27, 6) else
    if s == 105 then Word(0x6, 5) else if s == 106 then Word(0x74, 7) else if s == 107 then Word(0x75, 7) else
    if s == 108 then Word(0x28, 6) else if s == 109 then Word(0x29, 6) else if s == 110 then Word(0x2A, 6) else
    Word(0x7, 5)
  }

  function Words112(s: nat): Word {
    if s == 112 then Word(0x2B, 6) else if s == 113 then Word(0x76, 7) else if s == 114 then Word(0x2C, 6) else
    if s == 115 then Word(0x8, 5) else if s == 116 then Word(0x9, 5) else if s == 117 then Word(0x2D, 6) else
    if s == 118 then Word(0x77, 7) else if s == 119 then Word(0x78, 7) else if s == 120 then Word(0x79, 7) else
    if s == 121 then Word(0x7A, 7) else if s == 122 then Word(0x7B, 7) else if s == 123 then Word(0x7FFE, 15) else
    if s == 124 then Word(0x7FC, 11) else if s == 125 then Word(0x3FFD, 14) else
    if s == 126 then Word(0x1FFD, 13) else Word(0xFFFFFFC, 28)
  }

  function Words128(s: nat): Word {
    if s == 128 then Word(0xFFFE6, 20) else if s == 129 then Word(0x3FFFD2, 22) else
    if s == 130 then Word(0xFFFE7, 20) else if s == 131 then Word(0xFFFE8, 20) else
    if s == 132 then Word(0x3FFFD3, 22) else if s == 133 then Word(0x3FFFD4, 22) else
    if s == 134 then Word(0x3FFFD5, 22) else if s == 135 then Word(0x7FFFD9, 23) else
    if s == 136 then Word(0x3FFFD6, 22) else if s == 137 then Word(0x7FFFDA, 23) else
    if s == 138 then Word(0x7FFFDB, 23) else if s == 139 then Word(0x7FFFDC, 23) else
    if s == 140 then Word(0x7FFFDD, 23) else if s == 141 then Word(0x7FFFDE, 23) else
    if s == 142 then Word(0xFFFFEB, 24) else Word(0x7FFFDF, 23)
  }

  function Words144(s: nat): Word {
    if s == 144 then Word(0xFFFFEC, 24) else if s == 145 then Word(0xFFFFED, 24) else
    if s == 146 then Word(0x3FFFD7, 22) else if s == 147 then Word(0x7FFFE0, 23) else
    if s == 148 then Word(0xFFFFEE, 24) else if s == 149 then Word(0x7FFFE1, 23) else
    if s == 150 then Word(0x7FFFE2, 23) else if s == 151 then Word(0x7FFFE3, 23) else
    if s == 152 then Word(0x7FFFE4, 23) else if s == 153 then Word(0x1FFFDC, 21) else
    if s == 154 then Word(0x3FFFD8, 22) else if s == 155 then Word(0x7FFFE5, 23) else
    if s == 156 then Word(0x3FFFD9, 22) else if s == 157 then Word(0x7FFFE6, 23) else
    if s == 158 then Word(0x7FFFE7, 23) else Word(0xFFFFEF, 24)
  }

  function Words160(s: nat): Word {
    if s == 160 then Word(0x3FFFDA, 22) else if s == 161 then Word(0x1FFFDD, 21) else
    if s == 162 then Word(0xFFFE9, 20) else if s == 163 then Word(0x3FFFDB, 22) else
    if s == 164 then Word(0x3FFFDC, 22) else if s == 165 then Word(0x7FFFE8, 23) else
    if s == 166 then Word(0x7FFFE9, 23) else if s == 167 then Word(0x1FFFDE, 21) else
    if s == 168 then Word(0x7FFFEA, 23) else if s == 169 then Word(0x3FFFDD, 22) else
    if s == 170 then Word(0x3FFFDE, 22) else if s == 171 then Word(0xFFFFF0, 24) else
    if s == 172 then Word(0x1FFFDF, 21) else if s == 173 then Word(0x3FFFDF, 22) else
    if s == 174 then Word(0x7FFFEB, 23) else Word(0x7FFFEC, 23)
  }

  function Words176(s: nat): Word {
    if s == 176 then Word(0x1FFFE0, 21) else if s == 177 then Word(0x1FFFE1, 21) else
    if s == 178 then Word(0x3FFFE0, 22) else if s == 179 then Word(0x1FFFE2, 21) else
    if s == 180 then Word(0x7FFFED, 23) else if s == 181 then Word(0x3FFFE1, 22) else
    if s == 182 then Word(0x7FFFEE, 23) else if s == 183 then Word(0x7FFFEF, 23) else
    if s == 184 then Word(0xFFFEA, 20) else if s == 185 then Word(0x3FFFE2, 22) else
    if s == 186 then Word(0x3FFFE3, 22) else if s == 187 then Word(0x3FFFE4, 22) else
    if s == 188 then Word(0x7FFFF0, 23) else if s == 189 then Word(0x3FFFE5, 22) else
    if s == 190 then Word(0x3FFFE6, 22) else Word(0x7FFFF1, 23)
  }

  function Words192(s: nat): Word {
    if s == 192 then Word(0x3FFFFE0, 26) else if s == 193 then Word(0x3FFFFE1, 26) else
    if s == 194 then Word(0xFFFEB, 20) else if s == 195 then Word(0x7FFF1, 19) else
    if s == 196 then Word(0x3FFFE7, 22) else if s == 197 then Word(0x7FFFF2, 23) else
    if s == 198 then Word(0x3FFFE8, 22) else if s == 199 then Word(0x1FFFFEC, 25) else
    if s == 200 then Word(0x3FFFFE2, 26) else if s == 201 then Word(0x3FFFFE3, 26) else
    if s == 202 then Word(0x3FFFFE4, 26) else if s == 203 then Word(0x7FFFFDE, 27) else
    if s == 204 then Word(0x7FFFFDF, 27) else if s == 205 then Word(0x3FFFFE5, 26) else
    if s == 206 then Word(0xFFFFF1, 24) else Word(0x1FFFFED, 25)
  }

  function Words208(s: nat): Word {
    if s == 208 then Word(0x7FFF2, 19) else if s == 209 then Word(0x1FFFE3, 21) else
    if s == 210 then Word(0x3FFFFE6, 26) else if s == 211 then Word(0x7FFFFE0, 27) else
    if s == 212 then Word(0x7FFFFE1, 27) else if s == 213 then Word(0x3FFFFE7, 26) else
    if s == 214 then Word(0x7FFFFE2, 27) else if s == 215 then Word(0xFFFFF2, 24) else
    if s == 216 then Word(0x1FFFE4, 21) else if s == 217 then Word(0x1FFFE5, 21) else
    if s == 218 then Word(0x3FFFFE8, 26) else if s == 219 then Word(0x3FFFFE9, 26) else
    if s == 220 then Word(0xFFFFFFD, 28) else if s == 221 then Word(0x7FFFFE3, 27) else
    if s == 222 then Word(0x7FFFFE4, 27) else Word(0x7FFFFE5, 27)
  }

  function Words224(s: nat): Word {
    if s == 224 then Word(0xFFFEC, 20) else if s == 225 then Word(0xFFFFF3, 24) else
    if s == 226 then Word(0xFFFED, 20) else if s == 227 then Word(0x1FFFE6, 21) else
    if s == 228 then Word(0x3FFFE9, 22) else if s == 229 then Word(0x1FFFE7, 21) else
    if s == 230 then Word(0x1FFFE8, 21) else if s == 231 then Word(0x7FFFF3, 23) else
    if s == 232 then Word(0x3FFFEA, 22) else if s == 233 then Word(0x3FFFEB, 22) else
    if s == 234 then Word(0x1FFFFEE, 25) else if s == 235 then Word(0x1FFFFEF, 25) else
    if s == 236 then Word(0xFFFFF4, 24) else if s == 237 then Word(0xFFFFF5, 24) else
    if s == 238 then Word(0x3FFFFEA, 26) else Word(0x7FFFF4, 23)
  }

  function Words240(s: nat): Word {
    if s == 240 then Word(0x3FFFFEB, 26) else if s == 241 then Word(0x7FFFFE6, 27) else
    if s == 242 then Word(0x3FFFFEC, 26) else if s == 243 then Word(0x3FFFFED, 26) else
    if s == 244 then Word(0x7FFFFE7, 27) else if s == 245 then Word(0x7FFFFE8, 27) else
    if s == 246 then Word(0x7FFFFE9, 27) else if s == 247 then Word(0x7FFFFEA, 27) else
    if s == 248 then Word(0x7FFFFEB, 27) else if s == 249 then Word(0xFFFFFFE, 28) else
    if s == 250 then Word(0x7FFFFEC, 27) else if s == 251 then Word(0x7FFFFED, 27) else
    if s == 252 then Word(0x7FFFFEE, 27) else if s == 253 then Word(0x7FFFFEF, 27) else
    if s == 254 then Word(0x7FFFFF0, 27) else Word(0x3FFFFEE, 26)
  }

  function WordOf(s: nat): Word {
    if s < 16 then Words0(s)
    else if s < 32 then Words16(s)
    else if s < 48 then Words32(s)
    else if s < 64 then Words48(s)
    else if s < 80 then Words64(s)
    else if s < 96 then Words80(s)
    else if s < 112 then Words96(s)
    else if s < 128 then Words112(s)
    else if s < 144 then Words128(s)
    else if s < 160 then Words144(s)
    else if s < 176 then Words160(s)
    else if s < 192 then Words176(s)
    else if s < 208 then Words192(s)
    else if s < 224 then Words208(s)
    else if s < 240 then Words224(s)
    else Words240(s)
  }

  // ---------------------------------------------------------------- ht_decode

  datatype State = State(shift: int, offset: int)

  /** A symbol as it is stored in a state: a signed char. */
  function Signed(s: nat): int {
    if s < 128 then s else s - 256
  }

  // symbols with codes of equal length, in the order of their codes

  function Sym5(j: int): int {
    if j == 0 then 48 else if j == 1 then 49 else if j == 2 then 50 else if j == 3 then 97 else if j == 4 then 99 else
    if j == 5 then 101 else if j == 6 then 105 else if j == 7 then 111 else if j == 8 then 115 else 116
  }

  function Sym6(j: int): int {
    if j == 0 then 32 else if j == 1 then 37 else if j == 2 then 45 else if j == 3 then 46 else if j == 4 then 47 else
    if j == 5 then 51 else if j == 6 then 52 else if j == 7 then 53 else if j == 8 then 54 else if j == 9 then 55 else
    if j == 10 then 56 else if j == 11 then 57 else if j == 12 then 61 else if j == 13 then 65 else
    if j == 14 then 95 else if j == 15 then 98 else if j == 16 then 100 else if j == 17 then 102 else
    if j == 18 then 103 else if j == 19 then 104 else if j == 20 then 108 else if j == 21 then 109 else
    if j == 22 then 110 else if j == 23 then 112 else if j == 24 then 114 else 117
  }

  function Sym7(j: int): int {
    if j == 0 then 58 else if j == 1 then 66 else if j == 2 then 67 else if j == 3 then 68 else if j == 4 then 69 else
    if j == 5 then 70 else if j == 6 then 71 else if j == 7 then 72 else if j == 8 then 73 else if j == 9 then 74 else
    if j == 10 then 75 else if j == 11 then 76 else if j == 12 then 77 else if j == 13 then 78 else
    if j == 14 then 79 else if j == 15 then 80 else if j == 16 then 81 else if j == 17 then 82 else
    if j == 18 then 83 else if j == 19 then 84 else if j == 20 then 85 else if j == 21 then 86 else
    if j == 22 then 87 else if j == 23 then 89 else if j == 24 then 106 else if j == 25 then 107 else
    if j == 26 then 113 else if j == 27 then 118 else if j == 28 then 119 else if j == 29 then 120 else
    if j == 30 then 121 else 122
  }

  function Sym8(j: int): int {
    if j == 0 then 38 else if j == 1 then 42 else if j == 2 then 44 else if j == 3 then 59 else if j == 4 then 88 else
    90
  }

  function Sym10(j: int): int {
    if j == 0 then 33 else if j == 1 then 34 else if j == 2 then 40 else if j == 3 then 41 else 63
  }

  function Sym11(j: int): int {
    if j == 0 then 39 else if j == 1 then 43 else 124
  }

  function Sym12(j: int): int {
    if j == 0 then 35 else 62
  }

  function Sym13(j: int): int {
    if j == 0 then 0 else if j == 1 then 36 else if j == 2 then 64 else if j == 3 then 91 else if j == 4 then 93 else
    126
  }

  function Sym14(j: int): int {
    if j == 0 then 94 else 125
  }

  function Sym15(j: int): int {
    if j == 0 then 60 else if j == 1 then 96 else 123
  }

  function Sym19(j: int): int {
    if j == 0 then 92 else if j == 1 then -61 else -48
  }

  function Sym20(j: int): int {
    if j == 0 then -128 else if j == 1 then -126 else if j == 2 then -125 else if j == 3 then -94 else
    if j == 4 then -72 else if j == 5 then -62 else if j == 6 then -32 else -30
  }

  function Sym21(j: int): int {
    if j == 0 then -103 else if j == 1 then -95 else if j == 2 then -89 else if j == 3 then -84 else
    if j == 4 then -80 else if j == 5 then -79 else if j == 6 then -77 else if j == 7 then -47 else
    if j == 8 then -40 else if j == 9 then -39 else if j == 10 then -29 else if j == 11 then -27 else -26
  }

  function Sym22(j: int): int {
    if j == 0 then -127 else if j == 1 then -124 else if j == 2 then -123 else if j == 3 then -122 else
    if j == 4 then -120 else if j == 5 then -110 else if j == 6 then -102 else if j == 7 then -100 else
    if j == 8 then -96 else if j == 9 then -93 else if j == 10 then -92 else if j == 11 then -87 else
    if j == 12 then -86 else if j == 13 then -83 else if j == 14 then -78 else if j == 15 then -75 else
    if j == 16 then -71 else if j == 17 then -70 else if j == 18 then -69 else if j == 19 then -67 else
    if j == 20 then -66 else if j == 21 then -60 else if j == 22 then -58 else if j == 23 then -28 else
    if j == 24 then -24 else -23
  }

  function Sym23(j: int): int {
    if j == 0 then 1 else if j == 1 then -121 else if j == 2 then -119 else if j == 3 then -118 else
    if j == 4 then -117 else if j == 5 then -116 else if j == 6 then -115 else if j == 7 then -113 else
    if j == 8 then -109 else if j == 9 then -107 else if j == 10 then -106 else if j == 11 then -105 else
    if j == 12 then -104 else if j == 13 then -101 else if j == 14 then -99 else if j == 15 then -98 else
    if j == 16 then -91 else if j == 17 then -90 else if j == 18 then -88 else if j == 19 then -82 else
    if j == 20 then -81 else if j == 21 then -76 else if j == 22 then -74 else if j == 23 then -73 else
    if j == 24 then -68 else if j == 25 then -65 else if j == 26 then -59 else if j == 27 then -25 else -17
  }

  function Sym24(j: int): int {
    if j == 0 then 9 else if j == 1 then -114 else if j == 2 then -112 else if j == 3 then -111 else
    if j == 4 then -108 else if j == 5 then -97 else if j == 6 then -85 else if j == 7 then -50 else
    if j == 8 then -41 else if j == 9 then -31 else if j == 10 then -20 else -19
  }

  function Sym25(j: int): int {
    if j == 0 then -57 else if j == 1 then -49 else if j == 2 then -22 else -21
  }

  function Sym26(j: int): int {
    if j == 0 then -64 else if j == 1 then -63 else if j == 2 then -56 else if j == 3 then -55 else
    if j == 4 then -54 else if j == 5 then -51 else if j == 6 then -46 else if j == 7 then -43 else
    if j == 8 then -38 else if j == 9 then -37 else if j == 10 then -18 else if j == 11 then -16 else
    if j == 12 then -14 else if j == 13 then -13 else -1
  }

  function Sym27(j: int): int {
    if j == 0 then -53 else if j == 1 then -52 else if j == 2 then -45 else if j == 3 then -44 else
    if j == 4 then -42 else if j == 5 then -35 else if j == 6 then -34 else if j == 7 then -33 else
    if j == 8 then -15 else if j == 9 then -12 else if j == 10 then -11 else if j == 11 then -10 else
    if j == 12 then -9 else if j == 13 then -8 else if j == 14 then -6 else if j == 15 then -5 else
    if j == 16 then -4 else if j == 17 then -3 else -2
  }

  function Sym28(j: int): int {
    if j == 0 then 2 else if j == 1 then 3 else if j == 2 then 4 else if j == 3 then 5 else if j == 4 then 6 else
    if j == 5 then 7 else if j == 6 then 8 else if j == 7 then 11 else if j == 8 then 12 else if j == 9 then 14 else
    if j == 10 then 15 else if j == 11 then 16 else if j == 12 then 17 else if j == 13 then 18 else
    if j == 14 then 19 else if j == 15 then 20 else if j == 16 then 21 else if j == 17 then 23 else
    if j == 18 then 24 else if j == 19 then 25 else if j == 20 then 26 else if j == 21 then 27 else
    if j == 22 then 28 else if j == 23 then 29 else if j == 24 then 30 else if j == 25 then 31 else
    if j == 26 then 127 else if j == 27 then -36 else -7
  }

  function Sym30(j: int): int {
    if j == 0 then 10 else if j == 1 then 13 else 22
  }

  function StateOf(k: nat): State {
    if k < 128 then Table0(k)
    else if k < 256 then Table128(k - 128)
    else if k < 384 then Table256(k - 256)
    else if k < 512 then Table384(k - 384)
    else if k < 640 then Table512(k - 512)
    else Small(k - 640)
  }

  function Table0(i: nat): State {
    if i < 40 then State(5, Sym5(i / 4))
    else if i < 92 then State(6, Sym6((i - 40) / 2))
    else if i < 124 then State(7, Sym7(i - 92))
    else if i < 127 then State(-7, 640 + 8 * (i - 124))
    else State(-7, 128)
  }

  function Table128(i: nat): State {
    if i < 80 then State(3, Sym10(i / 16))
    else if i < 104 then State(4, Sym11((i - 80) / 8))
    else if i < 112 then State(5, Sym12((i - 104) / 4))
    else if i < 124 then State(6, Sym13((i - 112) / 2))
    else if i < 126 then State(7, Sym14(i - 124))
    else if i < 127 then State(-7, 664)
    else State(-7, 256)
  }

  function Table256(i: nat): State {
    if i < 64 then State(1, Sym15(2))
    else if i < 76 then State(5, Sym19((i - 64) / 4))
    else if i < 92 then State(6, Sym20((i - 76) / 2))
    else if i < 105 then State(7, Sym21(i - 92))
    else if i < 126 then State(-7, 672 + 8 * (i - 105))
    else if i < 127 then State(-7, 384)
    else State(-7, 512)
  }

  function Table384(i: nat): State {
    if i < 96 then State(3, Sym24(6 + i / 16))
    else State(4, Sym25((i - 96) / 8))
  }

  function Table512(i: nat): State {
    if i < 60 then State(5, Sym26(i / 4))
    else if i < 98 then State(6, Sym27((i - 60) / 2))
    else if i < 127 then State(7, Sym28(i - 98))
    else State(-7, 840)
  }

  /** Tables of eight states, from offset 640 on. */
  function Small(i: nat): State {
    if i < 24 then State(5, Sym8(i / 4))
    else if i < 32 then State(5, Sym15((i - 24) / 4))
    else if i < 136 then State(5, Sym22((i - 32) / 4))
    else if i < 194 then State(6, Sym23((i - 136) / 2))
    else if i < 200 then State(7, Sym24(i - 194))
    else if i < 206 then State(6, Sym30((i - 200) / 2))
    else State(-6, 0)
  }

  function EncodeCodes(): seq<nat> {
    seq(256, s requires 0 <= s => WordOf(s).code)
  }

  function EncodeLengths(): seq<nat> {
    seq(256, s requires 0 <= s => WordOf(s).length)
  }

  function DecodeShifts(): seq<int> {
    seq(848, k requires 0 <= k => StateOf(k).shift)
  }

  function DecodeOffsets(): seq<int> {
    seq(848, k requires 0 <= k => StateOf(k).offset)
  }

  const HT := Tables(EncodeCodes(), EncodeLengths(), DecodeShifts(), DecodeOffsets())
}
