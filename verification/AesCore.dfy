/**
 The arithmetic of AES: bytes as elements of GF(2^8) (section 4.2 of FIPS 197), columns
 as words whose most significant byte is row 0, and what the constant tables hold.
 */
module AesCore {
  import opened AesTables

  // ---- the field GF(2^8) ----

  function Add(a: bv8, b: bv8): bv8 { a ^ b }

  function XTime(b: bv8): bv8 { (b << 1) ^ ((b >> 7) * 0x1b) }

  function Pick(c: bool, b: bv8): bv8 { if c then b else 0 }

  /** The product of a and b in GF(2^8): the sum of x^i b over the bits i of a. */
  function Times(a: bv8, b: bv8): bv8 {
    var b1 := XTime(b);
    var b2 := XTime(b1);
    var b3 := XTime(b2);
    var b4 := XTime(b3);
    var b5 := XTime(b4);
    var b6 := XTime(b5);
    var b7 := XTime(b6);
    Pick(a & 0x01 != 0, b) ^ Pick(a & 0x02 != 0, b1) ^ Pick(a & 0x04 != 0, b2) ^ Pick(a & 0x08 != 0, b3)
    ^ Pick(a & 0x10 != 0, b4) ^ Pick(a & 0x20 != 0, b5) ^ Pick(a & 0x40 != 0, b6) ^ Pick(a & 0x80 != 0, b7)
  }

  function Times2(b: bv8): bv8 { XTime(b) }
  function Times3(b: bv8): bv8 { Add(XTime(b), b) }
  function Times8(b: bv8): bv8 { XTime(XTime(XTime(b))) }
  function Times9(b: bv8): bv8 { Add(Times8(b), b) }
  function Times11(b: bv8): bv8 { Add(Times8(b), Times3(b)) }
  function Times13(b: bv8): bv8 { Add(Times8(b), Add(XTime(XTime(b)), b)) }
  function Times14(b: bv8): bv8 { Add(Times8(b), Add(XTime(XTime(b)), XTime(b))) }

  /** The six multipliers of the two matrices are products in the field. */
  lemma Multipliers(b: bv8)
    ensures Times2(b) == Times(2, b) && Times3(b) == Times(3, b) && Times9(b) == Times(9, b)
    ensures Times11(b) == Times(11, b) && Times13(b) == Times(13, b) && Times14(b) == Times(14, b)
  {
  }

  function Sum4(a: bv8, b: bv8, c: bv8, d: bv8): bv8 { Add(Add(a, b), Add(c, d)) }

  lemma XTimeLinear(x: bv8, y: bv8)
    ensures XTime(Add(x, y)) == Add(XTime(x), XTime(y))
  {
  }

  lemma AddAssociative(a: bv8, b: bv8, c: bv8)
    ensures Add(Add(a, b), c) == Add(a, Add(b, c))
  {
  }

  lemma AddCommutative(a: bv8, b: bv8)
    ensures Add(a, b) == Add(b, a)
  {
  }

  lemma RegroupHalves(a: bv8, b: bv8, c: bv8, d: bv8)
    ensures Add(Add(a, b), Add(c, d)) == Add(Add(a, c), Add(b, d))
  {
    hide Add;
    AddAssociative(Add(a, b), c, d);
    AddAssociative(a, b, c);
    AddCommutative(b, c);
    AddAssociative(a, c, b);
    AddAssociative(Add(a, c), b, d);
  }

  lemma RegroupPairs(a: bv8, b: bv8, c: bv8, d: bv8, a': bv8, b': bv8, c': bv8, d': bv8)
    ensures Sum4(Add(a, a'), Add(b, b'), Add(c, c'), Add(d, d')) == Add(Sum4(a, b, c, d), Sum4(a', b', c', d'))
  {
    hide Add;
    RegroupHalves(a, a', b, b');
    RegroupHalves(c, c', d, d');
    RegroupHalves(Add(a, b), Add(a', b'), Add(c, d), Add(c', d'));
  }

  /** Summing a four by four square by rows or by columns. */
  lemma Transpose(a0: bv8, a1: bv8, a2: bv8, a3: bv8, b0: bv8, b1: bv8, b2: bv8, b3: bv8,
                  c0: bv8, c1: bv8, c2: bv8, c3: bv8, d0: bv8, d1: bv8, d2: bv8, d3: bv8)
    ensures Sum4(Sum4(a0, a1, a2, a3), Sum4(b0, b1, b2, b3), Sum4(c0, c1, c2, c3), Sum4(d0, d1, d2, d3))
         == Sum4(Sum4(a0, b0, c0, d0), Sum4(a1, b1, c1, d1), Sum4(a2, b2, c2, d2), Sum4(a3, b3, c3, d3))
  {
    hide Add;
    RegroupPairs(a0, a1, a2, a3, b0, b1, b2, b3);
    RegroupPairs(c0, c1, c2, c3, d0, d1, d2, d3);
    RegroupPairs(Add(a0, b0), Add(a1, b1), Add(a2, b2), Add(a3, b3),
                 Add(c0, d0), Add(c1, d1), Add(c2, d2), Add(c3, d3));
  }

  lemma SumRotate(a: bv8, b: bv8, c: bv8, d: bv8)
    ensures Sum4(a, b, c, d) == Sum4(b, c, d, a)
  {
    hide Add;
    AddCommutative(a, b);
    RegroupHalves(b, a, c, d);
    AddCommutative(a, d);
  }

  lemma TimesLinear(x: bv8, y: bv8)
    ensures Times3(Add(x, y)) == Add(Times3(x), Times3(y))
    ensures Times9(Add(x, y)) == Add(Times9(x), Times9(y))
    ensures Times11(Add(x, y)) == Add(Times11(x), Times11(y))
    ensures Times13(Add(x, y)) == Add(Times13(x), Times13(y))
    ensures Times14(Add(x, y)) == Add(Times14(x), Times14(y))
  {
    hide Add, XTime;
    XTimeLinear(x, y);
    XTimeLinear(XTime(x), XTime(y));
    XTimeLinear(XTime(XTime(x)), XTime(XTime(y)));
    var (x2, y2) := (XTime(XTime(x)), XTime(XTime(y)));
    RegroupHalves(XTime(x), XTime(y), x, y);
    RegroupHalves(Times8(x), Times8(y), x, y);
    RegroupHalves(Times8(x), Times8(y), Times3(x), Times3(y));
    RegroupHalves(x2, y2, x, y);
    RegroupHalves(Times8(x), Times8(y), Add(x2, x), Add(y2, y));
    RegroupHalves(x2, y2, XTime(x), XTime(y));
    RegroupHalves(Times8(x), Times8(y), Add(x2, XTime(x)), Add(y2, XTime(y)));
  }

  lemma TimesSum4(p: bv8, q: bv8, r: bv8, s: bv8)
    ensures Times2(Sum4(p, q, r, s)) == Sum4(Times2(p), Times2(q), Times2(r), Times2(s))
    ensures Times3(Sum4(p, q, r, s)) == Sum4(Times3(p), Times3(q), Times3(r), Times3(s))
    ensures Times9(Sum4(p, q, r, s)) == Sum4(Times9(p), Times9(q), Times9(r), Times9(s))
    ensures Times11(Sum4(p, q, r, s)) == Sum4(Times11(p), Times11(q), Times11(r), Times11(s))
    ensures Times13(Sum4(p, q, r, s)) == Sum4(Times13(p), Times13(q), Times13(r), Times13(s))
    ensures Times14(Sum4(p, q, r, s)) == Sum4(Times14(p), Times14(q), Times14(r), Times14(s))
  {
    hide Times3, Times9, Times11, Times13, Times14, XTime, Add;
    XTimeLinear(p, q);
    XTimeLinear(r, s);
    XTimeLinear(Add(p, q), Add(r, s));
    TimesLinear(p, q);
    TimesLinear(r, s);
    TimesLinear(Add(p, q), Add(r, s));
  }

  // ---- the S-box ----

  function S(x: bv8): bv8 { (Te4(x) & 0xff) as bv8 }

  /** The affine map of section 5.1.1 of FIPS 197. */
  function Affine(b: bv8): bv8 {
    b ^ ((b << 1) | (b >> 7)) ^ ((b << 2) | (b >> 6)) ^ ((b << 3) | (b >> 5)) ^ ((b << 4) | (b >> 4)) ^ 0x63
  }

  /** The inverse of the affine map. */
  function Unaffine(s: bv8): bv8 {
    ((s << 1) | (s >> 7)) ^ ((s << 3) | (s >> 5)) ^ ((s << 6) | (s >> 2)) ^ 0x05
  }

  /**
   The S-box table is the one the standard defines: the affine image of the
   multiplicative inverse in GF(2^8), zero standing for its own inverse.
   */
  lemma SBoxIsAffineOfInverse(x: bv8)
    ensures exists y :: (if x == 0 then y == 0 else Times(x, y) == 1) && S(x) == Affine(y)
  {
    var y := Unaffine(S(x));
    SBoxInverse(x);
    UnaffineInverts(S(x));
  }

  lemma SBoxInverse(x: bv8)
    ensures var y := Unaffine(S(x)); if x == 0 then y == 0 else Times(x, y) == 1
  {
  }

  lemma UnaffineInverts(s: bv8)
    ensures Affine(Unaffine(s)) == s
  {
  }

  lemma Td4AfterS(x: bv8)
    ensures Td4(S(x)) == x
  {
  }

  lemma SAfterTd4(x: bv8)
    ensures S(Td4(x)) == x
  {
  }

  // ---- columns ----

  function B3(w: bv32): bv8 { ((w >> 24) & 0xff) as bv8 }
  function B2(w: bv32): bv8 { ((w >> 16) & 0xff) as bv8 }
  function B1(w: bv32): bv8 { ((w >> 8) & 0xff) as bv8 }
  function B0(w: bv32): bv8 { (w & 0xff) as bv8 }

  function Word(a: bv8, b: bv8, c: bv8, d: bv8): bv32 {
    (a as bv32 << 24) | (b as bv32 << 16) | (c as bv32 << 8) | (d as bv32)
  }

  function AddWord(v: bv32, w: bv32): bv32 { v ^ w }

  function Ror(w: bv32, n: bv32): bv32
    requires n == 8 || n == 16 || n == 24
  {
    (w >> n) | (w << (32 - n))
  }

  lemma BytesOfWord(a: bv8, b: bv8, c: bv8, d: bv8)
    ensures var w := Word(a, b, c, d); B3(w) == a && B2(w) == b && B1(w) == c && B0(w) == d
  {
  }

  lemma WordOfBytes(w: bv32)
    ensures Word(B3(w), B2(w), B1(w), B0(w)) == w
  {
  }

  lemma AddWordCancels(v: bv32, w: bv32)
    ensures AddWord(AddWord(v, w), w) == v
  {
  }

  lemma BytesOfXor(v: bv32, w: bv32)
    ensures B3(v ^ w) == B3(v) ^ B3(w) && B2(v ^ w) == B2(v) ^ B2(w)
    ensures B1(v ^ w) == B1(v) ^ B1(w) && B0(v ^ w) == B0(v) ^ B0(w)
  {
  }

  lemma BytesOfSum(v: bv32, w: bv32)
    ensures B3(AddWord(v, w)) == Add(B3(v), B3(w)) && B2(AddWord(v, w)) == Add(B2(v), B2(w))
    ensures B1(AddWord(v, w)) == Add(B1(v), B1(w)) && B0(AddWord(v, w)) == Add(B0(v), B0(w))
  {
    hide B3, B2, B1, B0;
    BytesOfXor(v, w);
  }

  lemma SumOfWords(a: bv8, b: bv8, c: bv8, d: bv8, a': bv8, b': bv8, c': bv8, d': bv8)
    ensures Word(Add(a, a'), Add(b, b'), Add(c, c'), Add(d, d')) == AddWord(Word(a, b, c, d), Word(a', b', c', d'))
  {
  }

  /** The first row of the matrix of section 5.1.3 of FIPS 197; the other rows are its rotations. */
  function MixRow(a: bv8, b: bv8, c: bv8, d: bv8): bv8 { Sum4(Times2(a), Times3(b), c, d) }

  /** The first row of the inverse matrix, section 5.3.3. */
  function InvMixRow(a: bv8, b: bv8, c: bv8, d: bv8): bv8 { Sum4(Times14(a), Times11(b), Times13(c), Times9(d)) }

  function MixBytes(a: bv8, b: bv8, c: bv8, d: bv8): bv32 {
    Word(MixRow(a, b, c, d), MixRow(b, c, d, a), MixRow(c, d, a, b), MixRow(d, a, b, c))
  }

  function InvMixBytes(a: bv8, b: bv8, c: bv8, d: bv8): bv32 {
    Word(InvMixRow(a, b, c, d), InvMixRow(b, c, d, a), InvMixRow(c, d, a, b), InvMixRow(d, a, b, c))
  }

  function MixColumn(w: bv32): bv32 { MixBytes(B3(w), B2(w), B1(w), B0(w)) }

  function InvMixColumn(w: bv32): bv32 { InvMixBytes(B3(w), B2(w), B1(w), B0(w)) }

  /** Entry by entry of one row, the inverse matrix times the matrix: one on the diagonal, zero elsewhere. */
  lemma InverseTimesMatrix(a: bv8)
    ensures Sum4(Times14(Times2(a)), Times11(a), Times13(a), Times9(Times3(a))) == a
    ensures Sum4(Times14(Times3(a)), Times11(Times2(a)), Times13(a), Times9(a)) == 0
  {
  }

  lemma InverseTimesMatrix'(a: bv8)
    ensures Sum4(Times14(a), Times11(Times3(a)), Times13(Times2(a)), Times9(a)) == 0
    ensures Sum4(Times14(a), Times11(a), Times13(Times3(a)), Times9(Times2(a))) == 0
  {
  }

  lemma MatrixTimesInverse(a: bv8)
    ensures Sum4(Times2(Times14(a)), Times3(Times9(a)), Times13(a), Times11(a)) == a
    ensures Sum4(Times2(Times11(a)), Times3(Times14(a)), Times9(a), Times13(a)) == 0
  {
  }

  lemma MatrixTimesInverse'(a: bv8)
    ensures Sum4(Times2(Times13(a)), Times3(Times11(a)), Times14(a), Times9(a)) == 0
    ensures Sum4(Times2(Times9(a)), Times3(Times13(a)), Times11(a), Times14(a)) == 0
  {
  }

  lemma InvRowAfterRow(a: bv8, b: bv8, c: bv8, d: bv8)
    ensures InvMixRow(MixRow(a, b, c, d), MixRow(b, c, d, a), MixRow(c, d, a, b), MixRow(d, a, b, c)) == a
  {
    hide Times2, Times3, Times9, Times11, Times13, Times14, Sum4;
    TimesSum4(Times2(a), Times3(b), c, d);
    SumRotate(a, Times2(b), Times3(c), d);
    TimesSum4(a, Times2(b), Times3(c), d);
    SumRotate(b, Times2(c), Times3(d), a);
    SumRotate(a, b, Times2(c), Times3(d));
    TimesSum4(a, b, Times2(c), Times3(d));
    SumRotate(Times3(a), b, c, Times2(d));
    SumRotate(b, c, Times2(d), Times3(a));
    SumRotate(c, Times2(d), Times3(a), b);
    TimesSum4(Times3(a), b, c, Times2(d));
    Transpose(Times14(Times2(a)), Times14(Times3(b)), Times14(c), Times14(d),
              Times11(a), Times11(Times2(b)), Times11(Times3(c)), Times11(d),
              Times13(a), Times13(b), Times13(Times2(c)), Times13(Times3(d)),
              Times9(Times3(a)), Times9(b), Times9(c), Times9(Times2(d)));
    InverseTimesMatrix(a);
    InverseTimesMatrix(b);
    InverseTimesMatrix'(c);
    InverseTimesMatrix'(d);
    SumZeros(a);
  }

  lemma RowAfterInvRow(a: bv8, b: bv8, c: bv8, d: bv8)
    ensures MixRow(InvMixRow(a, b, c, d), InvMixRow(b, c, d, a), InvMixRow(c, d, a, b), InvMixRow(d, a, b, c)) == a
  {
    hide Times2, Times3, Times9, Times11, Times13, Times14, Sum4;
    TimesSum4(Times14(a), Times11(b), Times13(c), Times9(d));
    SumRotate(Times9(a), Times14(b), Times11(c), Times13(d));
    TimesSum4(Times9(a), Times14(b), Times11(c), Times13(d));
    SumRotate(Times13(a), Times9(b), Times14(c), Times11(d));
    SumRotate(Times9(b), Times14(c), Times11(d), Times13(a));
    SumRotate(Times11(a), Times13(b), Times9(c), Times14(d));
    SumRotate(Times13(b), Times9(c), Times14(d), Times11(a));
    SumRotate(Times9(c), Times14(d), Times11(a), Times13(b));
    Transpose(Times2(Times14(a)), Times2(Times11(b)), Times2(Times13(c)), Times2(Times9(d)),
              Times3(Times9(a)), Times3(Times14(b)), Times3(Times11(c)), Times3(Times13(d)),
              Times13(a), Times9(b), Times14(c), Times11(d),
              Times11(a), Times13(b), Times9(c), Times14(d));
    MatrixTimesInverse(a);
    MatrixTimesInverse(b);
    MatrixTimesInverse'(c);
    MatrixTimesInverse'(d);
    SumZeros(a);
  }

  lemma SumZeros(a: bv8)
    ensures Sum4(a, 0, 0, 0) == a
  {
  }

  lemma InvMixAfterMix(w: bv32)
    ensures InvMixColumn(MixColumn(w)) == w
  {
    hide MixRow, InvMixRow, B3, B2, B1, B0, Word;
    var (a, b, c, d) := (B3(w), B2(w), B1(w), B0(w));
    BytesOfWord(MixRow(a, b, c, d), MixRow(b, c, d, a), MixRow(c, d, a, b), MixRow(d, a, b, c));
    InvRowAfterRow(a, b, c, d);
    InvRowAfterRow(b, c, d, a);
    InvRowAfterRow(c, d, a, b);
    InvRowAfterRow(d, a, b, c);
    WordOfBytes(w);
  }

  lemma MixAfterInvMix(w: bv32)
    ensures MixColumn(InvMixColumn(w)) == w
  {
    hide MixRow, InvMixRow, B3, B2, B1, B0, Word;
    var (a, b, c, d) := (B3(w), B2(w), B1(w), B0(w));
    BytesOfWord(InvMixRow(a, b, c, d), InvMixRow(b, c, d, a), InvMixRow(c, d, a, b), InvMixRow(d, a, b, c));
    RowAfterInvRow(a, b, c, d);
    RowAfterInvRow(b, c, d, a);
    RowAfterInvRow(c, d, a, b);
    RowAfterInvRow(d, a, b, c);
    WordOfBytes(w);
  }

  lemma InvMixRowLinear(a: bv8, b: bv8, c: bv8, d: bv8, a': bv8, b': bv8, c': bv8, d': bv8)
    ensures InvMixRow(Add(a, a'), Add(b, b'), Add(c, c'), Add(d, d'))
         == Add(InvMixRow(a, b, c, d), InvMixRow(a', b', c', d'))
  {
    hide Times9, Times11, Times13, Times14, Add, Sum4;
    TimesLinear(a, a');
    TimesLinear(b, b');
    TimesLinear(c, c');
    TimesLinear(d, d');
    RegroupPairs(Times14(a), Times11(b), Times13(c), Times9(d), Times14(a'), Times11(b'), Times13(c'), Times9(d'));
  }

  lemma InvMixLinear(v: bv32, w: bv32)
    ensures InvMixColumn(AddWord(v, w)) == AddWord(InvMixColumn(v), InvMixColumn(w))
  {
    hide InvMixRow, B3, B2, B1, B0, Word, Add, AddWord;
    BytesOfSum(v, w);
    var (a, b, c, d) := (B3(v), B2(v), B1(v), B0(v));
    var (a', b', c', d') := (B3(w), B2(w), B1(w), B0(w));
    InvMixRowLinear(a, b, c, d, a', b', c', d');
    InvMixRowLinear(b, c, d, a, b', c', d', a');
    InvMixRowLinear(c, d, a, b, c', d', a', b');
    InvMixRowLinear(d, a, b, c, d', a', b', c');
    SumOfWords(InvMixRow(a, b, c, d), InvMixRow(b, c, d, a), InvMixRow(c, d, a, b), InvMixRow(d, a, b, c),
               InvMixRow(a', b', c', d'), InvMixRow(b', c', d', a'), InvMixRow(c', d', a', b'), InvMixRow(d', a', b', c'));
  }

  // ---- the tables ----

  lemma Te0Meaning(x: bv8)
    ensures Te0(x) == Word(Times2(S(x)), S(x), S(x), Times3(S(x)))
  {
  }

  lemma Td0Meaning(x: bv8)
    ensures Td0(x) == Word(Times14(Td4(x)), Times9(Td4(x)), Times13(Td4(x)), Times11(Td4(x)))
  {
  }

  /** Four column contributions, rotated into place, add up to one product with the matrix. */
  lemma RotatedColumns(a0: bv8, a1: bv8, a2: bv8, a3: bv8, b0: bv8, b1: bv8, b2: bv8, b3: bv8,
                       c0: bv8, c1: bv8, c2: bv8, c3: bv8, d0: bv8, d1: bv8, d2: bv8, d3: bv8)
    ensures Word(a0, a1, a2, a3) ^ Ror(Word(b0, b1, b2, b3), 8) ^ Ror(Word(c0, c1, c2, c3), 16) ^ Ror(Word(d0, d1, d2, d3), 24)
         == Word(Sum4(a0, b3, c2, d1), Sum4(a1, b0, c3, d2), Sum4(a2, b1, c0, d3), Sum4(a3, b2, c1, d0))
  {
  }
}
