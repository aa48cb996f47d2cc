/**
 The inner block of the software counter mode: the cipher rounds started from precomputed
 words, and the result combined with the input as two 64-bit words or as sixteen bytes.
 */
module CtrBlocks {
  import opened AesCore
  import opened Aes
  import opened BlockCipher

  // ---- 64-bit words in memory ----

  type Half = b: seq<bv8> | |b| == 8 witness seq(8, _ => 0)

  /** The bytes of a 64-bit word, most significant first. */
  function W7(w: bv64): bv8 { ((w >> 56) & 0xff) as bv8 }
  function W6(w: bv64): bv8 { ((w >> 48) & 0xff) as bv8 }
  function W5(w: bv64): bv8 { ((w >> 40) & 0xff) as bv8 }
  function W4(w: bv64): bv8 { ((w >> 32) & 0xff) as bv8 }
  function W3(w: bv64): bv8 { ((w >> 24) & 0xff) as bv8 }
  function W2(w: bv64): bv8 { ((w >> 16) & 0xff) as bv8 }
  function W1(w: bv64): bv8 { ((w >> 8) & 0xff) as bv8 }
  function W0(w: bv64): bv8 { (w & 0xff) as bv8 }

  function Word64(a: bv8, b: bv8, c: bv8, d: bv8, e: bv8, f: bv8, g: bv8, h: bv8): bv64 {
    (a as bv64 << 56) | (b as bv64 << 48) | (c as bv64 << 40) | (d as bv64 << 32)
    | (e as bv64 << 24) | (f as bv64 << 16) | (g as bv64 << 8) | (h as bv64)
  }

  function Add64(v: bv64, w: bv64): bv64 { v ^ w }

  /** A machine word read from memory, on a little-endian or a big-endian machine. */
  function Load64(little: bool, b: Half): bv64 {
    if little then Word64(b[7], b[6], b[5], b[4], b[3], b[2], b[1], b[0])
    else Word64(b[0], b[1], b[2], b[3], b[4], b[5], b[6], b[7])
  }

  function Store64(little: bool, w: bv64): Half {
    if little then [W0(w), W1(w), W2(w), W3(w), W4(w), W5(w), W6(w), W7(w)]
    else [W7(w), W6(w), W5(w), W4(w), W3(w), W2(w), W1(w), W0(w)]
  }

  /** To network byte order: the bytes are exchanged on a little-endian machine. */
  function Hton(little: bool, w: bv64): bv64 {
    if little then Word64(W0(w), W1(w), W2(w), W3(w), W4(w), W5(w), W6(w), W7(w)) else w
  }

  /** Two columns as one word. */
  function Joined(hi: bv32, lo: bv32): bv64 { (hi as bv64 << 32) | (lo as bv64) }

  lemma JoinedBytes(hi: bv32, lo: bv32)
    ensures var w := Joined(hi, lo);
            && W7(w) == B3(hi) && W6(w) == B2(hi) && W5(w) == B1(hi) && W4(w) == B0(hi)
            && W3(w) == B3(lo) && W2(w) == B2(lo) && W1(w) == B1(lo) && W0(w) == B0(lo)
  {
  }

  lemma BytesOfWord64(a: bv8, b: bv8, c: bv8, d: bv8, e: bv8, f: bv8, g: bv8, h: bv8)
    ensures var w := Word64(a, b, c, d, e, f, g, h);
            W7(w) == a && W6(w) == b && W5(w) == c && W4(w) == d && W3(w) == e && W2(w) == f && W1(w) == g && W0(w) == h
  {
  }

  lemma SumBytes76(v: bv64, w: bv64)
    ensures W7(Add64(v, w)) == XorByte(W7(v), W7(w)) && W6(Add64(v, w)) == XorByte(W6(v), W6(w))
  {
  }

  lemma SumBytes54(v: bv64, w: bv64)
    ensures W5(Add64(v, w)) == XorByte(W5(v), W5(w)) && W4(Add64(v, w)) == XorByte(W4(v), W4(w))
  {
  }

  lemma SumBytes32(v: bv64, w: bv64)
    ensures W3(Add64(v, w)) == XorByte(W3(v), W3(w)) && W2(Add64(v, w)) == XorByte(W2(v), W2(w))
  {
  }

  lemma SumBytes10(v: bv64, w: bv64)
    ensures W1(Add64(v, w)) == XorByte(W1(v), W1(w)) && W0(Add64(v, w)) == XorByte(W0(v), W0(w))
  {
  }

  /** The bytes of two columns. */
  function Columns(hi: bv32, lo: bv32): Half { [B3(hi), B2(hi), B1(hi), B0(hi), B3(lo), B2(lo), B1(lo), B0(lo)] }

  /** Eight bytes combined with eight bytes. */
  function Eight(a: Half, b: Half): Half {
    [XorByte(a[0], b[0]), XorByte(a[1], b[1]), XorByte(a[2], b[2]), XorByte(a[3], b[3]),
     XorByte(a[4], b[4]), XorByte(a[5], b[5]), XorByte(a[6], b[6]), XorByte(a[7], b[7])]
  }

  lemma EightAt(a: Half, b: Half, i: nat)
    requires i < 8
    ensures Eight(a, b)[i] == XorByte(a[i], b[i])
  {
    hide XorByte;
  }

  /** Combining in words of either byte order is combining the bytes of the two columns in network order. */
  lemma WordsAreBytes(little: bool, input: Half, hi: bv32, lo: bv32)
    ensures Store64(little, Add64(Load64(little, input), Hton(little, Joined(hi, lo)))) == Eight(input, Columns(hi, lo))
  {
    hide W7, W6, W5, W4, W3, W2, W1, W0, Word64, Add64, Joined, B3, B2, B1, B0, XorByte;
    JoinedBytes(hi, lo);
    var w := Joined(hi, lo);
    BytesOfWord64(W0(w), W1(w), W2(w), W3(w), W4(w), W5(w), W6(w), W7(w));
    if little {
      BytesOfWord64(input[7], input[6], input[5], input[4], input[3], input[2], input[1], input[0]);
    } else {
      BytesOfWord64(input[0], input[1], input[2], input[3], input[4], input[5], input[6], input[7]);
    }
    var (v, n) := (Load64(little, input), Hton(little, w));
    SumBytes76(v, n);
    SumBytes54(v, n);
    SumBytes32(v, n);
    SumBytes10(v, n);
  }

  // ---- one block ----

  /** A block is combined half by half. */
  lemma HalvesCombined(block: Block, s: State)
    ensures Eight(block[..8], Columns(s.c0, s.c1)) + Eight(block[8..], Columns(s.c2, s.c3)) == XorBytes(block, Store(s))
  {
    hide XorByte, Eight, Store, Columns;
    StoreColumns(s);
    var (x, y) := (Columns(s.c0, s.c1), Columns(s.c2, s.c3));
    var r := Eight(block[..8], x) + Eight(block[8..], y);
    forall i | 0 <= i < 16
      ensures r[i] == XorByte(block[i], Store(s)[i])
    {
      if i < 8 {
        EightAt(block[..8], x, i);
      } else {
        EightAt(block[8..], y, i - 8);
      }
    }
  }

  lemma StoreColumns(s: State)
    ensures Store(s) == Columns(s.c0, s.c1) + Columns(s.c2, s.c3)
  {
    hide B3, B2, B1, B0;
  }

  /** The aligned loop's way of combining a block: two machine words. */
  method CombineWords(little: bool, block: Block, s: State) returns (r: Block)
    ensures r == XorBytes(block, Store(s))
  {
    hide Load64, Store64, Hton, Joined, Add64, Eight, Columns, Store, XorBytes;
    var in0, in1 := Load64(little, block[..8]), Load64(little, block[8..]);
    WordsAreBytes(little, block[..8], s.c0, s.c1);
    WordsAreBytes(little, block[8..], s.c2, s.c3);
    HalvesCombined(block, s);
    r := Store64(little, Add64(in0, Hton(little, Joined(s.c0, s.c1)))) + Store64(little, Add64(in1, Hton(little, Joined(s.c2, s.c3))));
  }

  /** The unaligned loop's way: byte by byte. */
  method CombineBytes(block: Block, s: State) returns (r: Block)
    ensures r == XorBytes(block, Store(s))
  {
    hide Eight, Columns, Store, XorBytes;
    HalvesCombined(block, s);
    r := Eight(block[..8], Columns(s.c0, s.c1)) + Eight(block[8..], Columns(s.c2, s.c3));
  }

  /** The three words of a counter block that stay the same, with the first round key added. */
  datatype Fixed = Fixed(s0: bv32, s1: bv32, s2: bv32)

  function FixedOf(rk: Schedule, c: State): Fixed {
    Fixed(AddWord(c.c0, rk[0]), AddWord(c.c1, rk[1]), AddWord(c.c2, rk[2]))
  }

  /**
   One turn of the inner loops: the rounds from the precomputed words and the running counter,
   combined with the input in either way, are the block combined with the cipher of the counter block.
   */
  method InnerBlock(rk: Schedule, fixed: Fixed, counter: bv32, block: Block, aligned: bool, little: bool, ghost c: State)
    returns (r: Block)
    requires fixed == FixedOf(rk, c)
    ensures r == XorBytes(block, KeyedBy(rk).enc(Store(c.(c3 := counter))))
  {
    hide AddWord, Cipher, Load, Store, Inverted, InvCipher, XorBytes;
    LoadStore(c.(c3 := counter));
    var s := TableRounds(rk, State(fixed.s0, fixed.s1, fixed.s2, AddWord(counter, rk[3])), c.(c3 := counter));
    if aligned {
      r := CombineWords(little, block, s);
    } else {
      r := CombineBytes(block, s);
    }
  }
}
