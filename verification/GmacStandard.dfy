/**
 GMAC as NIST SP 800-38D defines it, on blocks of bytes, and that the tags of the streaming
 object are exactly these: where the length goes, how the data is padded, which counter
 block masks the hash and in which order bits stand for a block.
 */
module GmacStandard {
  import opened Bits
  import opened BlockCipher
  import opened Common
  import opened Ctr
  import opened Gf128
  import Gmac

  // ---- the definition ----

  /** The product of section 6.3 on blocks. */
  function Dot(x: Block, y: Block): Block { BitsBlock(Product(BlockBits(x), BlockBits(y))) }

  /** Section 6.4: each block is added to the hash of the blocks before it and multiplied by h. */
  function GhashOf(h: Block, x: seq<bv8>): Block
    requires |x| % 16 == 0
  {
    if x == [] then ZERO_BLOCK else Dot(XorBytes(GhashOf(h, x[..|x| - 16]), x[|x| - 16..]), h)
  }

  /** The 64-bit length of the additional data in bits and that of the ciphertext, which is empty. */
  function Lengths(n: nat): Block { BigEndian(8 * (n % WORD32), 8) + seq(8, _ => 0) }

  /** How many zeros complete the last block. */
  function Fill(n: nat): (v: nat)
    ensures (n + v) % 16 == 0 && v < 16
  {
    16 * ((n + 15) / 16) - n
  }

  /** What is hashed: the data, zeros up to a whole block, the lengths. */
  function Hashed(data: seq<bv8>): (x: seq<bv8>)
    ensures |x| % 16 == 0
  {
    OneBlockMore(|data| + Fill(|data|));
    data + seq(Fill(|data|), _ => 0) + Lengths(|data|)
  }

  lemma OneBlockMore(n: nat)
    requires n % 16 == 0
    ensures (n + 16) % 16 == 0
  {
  }

  /** Section 7.1 for an empty plaintext and a 96-bit vector. */
  function GmacOf(aes: Keyed, iv: Gmac.Iv, data: seq<bv8>): Block {
    XorBytes(GhashOf(aes.enc(ZERO_BLOCK), Hashed(data)), aes.enc(iv + [0, 0, 0, 1]))
  }

  // ---- blocks as bits ----

  /** The bits of a string of bytes, each most significant bit first. */
  function BitsOf(s: seq<bv8>): (w: Bits)
    ensures |w| == 8 * |s|
  {
    if s == [] then [] else BitsOf(s[..|s| - 1]) + ByteBits(s[|s| - 1])
  }

  function Half(b: bv8): bv8 { b >> 1 }

  lemma ByteHalves(b: bv8)
    ensures FromByte(Half(b)) == FromByte(b) / 2 && ByteBits(b)[7] == (FromByte(b) % 2 == 1)
  {
  }

  lemma HalfBits(b: bv8)
    ensures ByteBits(b)[..7] == ByteBits(Half(b))[1..]
  {
  }

  lemma ByteIsNumber(b: bv8)
    ensures ByteBits(b) == ToBits(FromByte(b), 8)
  {
    hide FromByte, ByteBits, Half, ToBits;
    var (b1, b2, b3) := (Half(b), Half(Half(b)), Half(Half(Half(b))));
    var (b4, b5, b6) := (Half(b3), Half(Half(b3)), Half(Half(Half(b3))));
    FourHalves(b, b1, b2, b3);
    FourHalves(b4, b5, b6, Half(b6));
    ByteHalves(b3);
    FourBack(b, b1, b2, b3, b4);
    FourAndFour(FromByte(b));
    assert ByteBits(b) == ByteBits(b)[..4] + ByteBits(b)[4..];
  }

  lemma FourBack(b: bv8, b1: bv8, b2: bv8, b3: bv8, b4: bv8)
    requires b1 == Half(b) && b2 == Half(b1) && b3 == Half(b2) && b4 == Half(b3)
    ensures ByteBits(b)[..4] == ByteBits(b4)[4..]
  {
    hide ByteBits, Half;
    HalfBits(b);
    HalfBits(b1);
    HalfBits(b2);
    HalfBits(b3);
    assert ByteBits(b)[..4] == ByteBits(b)[..7][..4] == ByteBits(b1)[1..5];
    assert ByteBits(b1)[1..5] == ByteBits(b1)[..7][1..5] == ByteBits(b2)[2..6];
    assert ByteBits(b2)[2..6] == ByteBits(b2)[..7][2..6] == ByteBits(b3)[3..7];
    assert ByteBits(b3)[3..7] == ByteBits(b3)[..7][3..7] == ByteBits(b4)[4..];
  }

  /** The low half of a byte. */
  lemma FourHalves(b: bv8, b1: bv8, b2: bv8, b3: bv8)
    requires b1 == Half(b) && b2 == Half(b1) && b3 == Half(b2)
    ensures FromByte(b3) == FromByte(b) / 2 / 2 / 2 && ByteBits(b)[4..] == ToBits(FromByte(b), 4)
  {
    hide FromByte, ByteBits, Half, ToBits;
    ByteHalves(b);
    ByteHalves(b1);
    ByteHalves(b2);
    ByteHalves(b3);
    HalfBits(b);
    HalfBits(b1);
    HalfBits(b2);
    assert ByteBits(b)[6] == ByteBits(b1)[7] && ByteBits(b)[5] == ByteBits(b1)[6] == ByteBits(b2)[7];
    assert ByteBits(b)[4] == ByteBits(b1)[5] == ByteBits(b2)[6] == ByteBits(b3)[7];
    FourBits(FromByte(b));
  }

  lemma FourBits(v: nat)
    ensures ToBits(v, 4) == [v / 2 / 2 / 2 % 2 == 1, v / 2 / 2 % 2 == 1, v / 2 % 2 == 1, v % 2 == 1]
  {
    assert ToBits(v / 2 / 2 / 2, 1) == [v / 2 / 2 / 2 % 2 == 1];
    assert ToBits(v / 2 / 2, 2) == [v / 2 / 2 / 2 % 2 == 1, v / 2 / 2 % 2 == 1];
  }

  lemma FourAndFour(v: nat)
    ensures ToBits(v, 8) == ToBits(v / 2 / 2 / 2 / 2, 4) + ToBits(v, 4)
  {
    hide ToBits;
    Split(v, 4, 3);
    Split(v / 2, 4, 2);
    Split(v / 2 / 2, 4, 1);
    Split(v / 2 / 2 / 2, 4, 0);
  }

  lemma Split(v: nat, n: nat, m: nat)
    ensures ToBits(v, n + m + 1) == ToBits(v / 2, n + m) + [v % 2 == 1]
    ensures ToBits(v, m + 1) == ToBits(v / 2, m) + [v % 2 == 1] && ToBits(v, 0) == []
  {
  }

  lemma {:induction false} ToBitsConcat(v: nat, b: nat, n: nat, m: nat)
    requires b < Pow2(m)
    ensures ToBits(v * Pow2(m) + b, n + m) == ToBits(v, n) + ToBits(b, m)
  {
    if m == 0 {
      assert ToBits(v, n) + [] == ToBits(v, n);
    } else {
      var x := v * Pow2(m - 1);
      assert v * Pow2(m) == 2 * x;
      assert (2 * x + b) / 2 == x + b / 2 && (2 * x + b) % 2 == b % 2;
      ToBitsConcat(v, b / 2, n, m - 1);
    }
  }

  /** A string of bytes is, as bits, the number it stands for. */
  lemma {:induction false} BitsOfIsNumber(s: seq<bv8>)
    ensures BitsOf(s) == ToBits(Number(s), 8 * |s|)
  {
    hide ByteBits, FromByte, ToBits;
    if s == [] {
      assert ToBits(0, 0) == [];
    } else {
      var (init, last) := (s[..|s| - 1], s[|s| - 1]);
      BitsOfIsNumber(init);
      ByteIsNumber(last);
      PowersMatch(1);
      ToBitsConcat(Number(init), FromByte(last), 8 * |init|, 8);
    }
  }

  lemma {:induction false} BitsOfAt(s: seq<bv8>, i: nat)
    requires i < 8 * |s|
    ensures BitsOf(s)[i] == ByteBits(s[i / 8])[i % 8]
  {
    hide ByteBits;
    if i < 8 * (|s| - 1) {
      BitsOfAt(s[..|s| - 1], i);
    }
  }

  /** The bit string of a block is the 128-bit number its bytes stand for, most significant first. */
  lemma BlockIsNumber(b: Block)
    ensures BlockBits(b) == ToBits(Number(b), 128)
  {
    hide ByteBits;
    forall i | 0 <= i < 128
      ensures BlockBits(b)[i] == BitsOf(b)[i]
    {
      BitsOfAt(b, i);
    }
    assert BlockBits(b) == BitsOf(b);
    BitsOfIsNumber(b);
  }

  lemma BitsRoundTrip(e: Elem)
    ensures BlockBits(BitsBlock(e)) == e
  {
    hide ByteOf, ByteBits;
    forall i | 0 <= i < 128
      ensures BlockBits(BitsBlock(e))[i] == e[i]
    {
      BitsOfByte(e[8 * (i / 8)..8 * (i / 8) + 8]);
    }
  }

  lemma BitsOfByte(w: Bits)
    requires |w| == 8
    ensures ByteBits(ByteOf(w)) == w
  {
  }

  lemma HalfSum(a: bv8, b: bv8)
    ensures Half(XorByte(a, b)) == XorByte(Half(a), Half(b))
  {
  }

  predicate Odd(b: bv8) { b & 1 != 0 }

  lemma OddSum(a: bv8, b: bv8)
    ensures Odd(XorByte(a, b)) == (Odd(a) != Odd(b))
  {
  }

  lemma LastBit(b: bv8)
    ensures ByteBits(b)[7] == Odd(b)
  {
  }

  lemma {:induction false} ByteSumFrom(a: bv8, b: bv8, i: nat)
    requires i < 8
    ensures ByteBits(XorByte(a, b))[i] == (ByteBits(a)[i] != ByteBits(b)[i])
    decreases 7 - i
  {
    hide ByteBits, XorByte, Half, Odd;
    HalfSum(a, b);
    OddSum(a, b);
    LastBit(a);
    LastBit(b);
    LastBit(XorByte(a, b));
    if i < 7 {
      ByteSumFrom(Half(a), Half(b), i + 1);
      HalfBits(a);
      HalfBits(b);
      HalfBits(XorByte(a, b));
      assert ByteBits(a)[i] == ByteBits(a)[..7][i] && ByteBits(b)[i] == ByteBits(b)[..7][i];
      assert ByteBits(XorByte(a, b))[i] == ByteBits(XorByte(a, b))[..7][i];
    }
  }

  lemma BlockSum(a: Block, b: Block)
    ensures BlockBits(XorBytes(a, b)) == Add(BlockBits(a), BlockBits(b))
  {
    hide ByteBits, XorByte;
    forall i | 0 <= i < 128
      ensures BlockBits(XorBytes(a, b))[i] == Add(BlockBits(a), BlockBits(b))[i]
    {
      ByteSumFrom(a[i / 8], b[i / 8], i % 8);
    }
  }

  lemma ZeroBlock()
    ensures BlockBits(ZERO_BLOCK) == ZERO
  {
    assert ByteBits(0) == [false, false, false, false, false, false, false, false];
  }

  // ---- the tag ----

  /** The block that ends the hash holds the length in bits in its first eight bytes and zeros in its last. */
  lemma LengthBlockIs(n: nat)
    ensures BlockBits(Lengths(n)) == Gmac.LengthBlock(n) && BitsBlock(Gmac.LengthBlock(n)) == Lengths(n)
    ensures Number(Lengths(n)[..8]) == 8 * (n % WORD32) && forall i :: 8 <= i < 16 ==> Lengths(n)[i] == 0
  {
    hide BigEndian, Number, BitsOf, ToBits, BlockBits, BitsBlock, Pow2, Power256;
    var v := 8 * (n % WORD32);
    assert Lengths(n)[..8] == BigEndian(v, 8);
    LengthsNumber(n);
    BlockIsNumber(Lengths(n));
    ToBitsConcat(v, 0, 64, 64);
    ZeroBits(64);
    BlockRoundTrip(Lengths(n));
  }

  lemma LengthsNumber(n: nat)
    ensures var v := 8 * (n % WORD32); Number(BigEndian(v, 8)) == v && Number(Lengths(n)) == v * Pow2(64) + 0
  {
    hide BigEndian, Number, Pow2, Power256;
    var v := 8 * (n % WORD32);
    var zeros: seq<bv8> := seq(8, _ => 0);
    Powers();
    NumberOfBigEndian(v, 8);
    NumberOfZeros(zeros);
    NumberConcat(BigEndian(v, 8), zeros);
    PowersMatch(8);
  }

  lemma {:induction false} PowersMatch(n: nat)
    ensures Power256(n) == Pow2(8 * n)
  {
    if n > 0 {
      PowersMatch(n - 1);
      EightMore(8 * (n - 1));
    }
  }

  lemma EightMore(k: nat)
    ensures Pow2(k + 8) == 256 * Pow2(k)
  {
    assert Pow2(k + 2) == 4 * Pow2(k) && Pow2(k + 4) == 4 * Pow2(k + 2);
    assert Pow2(k + 6) == 4 * Pow2(k + 4) && Pow2(k + 8) == 4 * Pow2(k + 6);
  }

  lemma {:induction false} NumberOfZeros(s: seq<bv8>)
    requires forall i :: 0 <= i < |s| ==> s[i] == 0
    ensures Number(s) == 0
  {
    if |s| > 0 {
      NumberOfZeros(s[..|s| - 1]);
    }
  }

  lemma {:induction false} ZeroBits(n: nat)
    ensures ToBits(0, n) == Zeros(n)
  {
    if n > 0 {
      ZeroBits(n - 1);
    }
  }

  /** The hash of the standard, as bits, is the one the object keeps. */
  lemma {:induction false} GhashIsGhash(h: Block, x: seq<bv8>)
    requires |x| % 16 == 0
    ensures BlockBits(GhashOf(h, x)) == Gmac.Ghash(BlockBits(h), ZERO, x)
  {
    hide Product, Add, BlockBits, Gmac.Ghash, BitsBlock, XorBytes;
    if x == [] {
      ZeroBlock();
      Gmac.GhashNone(BlockBits(h), ZERO, x);
    } else {
      var (init, last) := (x[..|x| - 16], x[|x| - 16..]);
      assert x == init + last;
      GhashIsGhash(h, init);
      BlockSum(GhashOf(h, init), last);
      BitsRoundTrip(Product(Add(BlockBits(GhashOf(h, init)), BlockBits(last)), BlockBits(h)));
      Gmac.GhashPush(BlockBits(h), ZERO, init, last);
    }
  }

  lemma SumFlips(a: Block, b: Block)
    ensures Gmac.XorBlocks(a, b) == XorBytes(b, a)
  {
    forall i | 0 <= i < 16
      ensures a[i] ^ b[i] == XorByte(b[i], a[i])
    {
      ByteSumFlips(a[i], b[i]);
    }
  }

  lemma ByteSumFlips(a: bv8, b: bv8)
    ensures a ^ b == b ^ a
  {
  }

  /** The tag of a message is its GMAC, for every key, vector and message; the length counts modulo 2^32. */
  lemma TagIsGmac(aes: Keyed, iv: Gmac.Iv, data: seq<bv8>)
    ensures Gmac.Tag(aes, iv, data) == GmacOf(aes, iv, data)
  {
    hide Product, Add, BlockBits, Gmac.Ghash, BitsBlock, XorBytes, GhashOf, Gmac.XorBlocks, Lengths, Gmac.LengthBlock;
    var h := aes.enc(ZERO_BLOCK);
    assert data + seq(Fill(|data|), _ => 0) == Gmac.Pad16(data);
    var x := Hashed(data);
    GhashIsGhash(h, x);
    Gmac.GhashPush(BlockBits(h), ZERO, Gmac.Pad16(data), Lengths(|data|));
    LengthBlockIs(|data|);
    BlockRoundTrip(GhashOf(h, x));
    SumFlips(aes.enc(iv + [0, 0, 0, 1]), GhashOf(h, x));
  }
}
