/** Blocks of sixteen bytes, as field elements too, and keyed block ciphers as a pair of functions on them. */
module BlockCipher {
  import opened Bits
  import opened Gf128

  type Block = b: seq<bv8> | |b| == 16 witness seq(16, _ => 0)

  const ZERO_BLOCK: Block := [0, 0, 0, 0, 0, 0, 0, 0, 0, 0, 0, 0, 0, 0, 0, 0]

  /** A keyed cipher instance: what encrypt() and decrypt() of one key compute. */
  datatype Keyed = Keyed(enc: Block -> Block, dec: Block -> Block) {
    /** Each of the two functions undoes the other. */
    ghost predicate Permutation() {
      && (forall b: Block :: dec(enc(b)) == b)
      && (forall b: Block :: enc(dec(b)) == b)
    }
  }

  /** The part of a length that whole blocks make up. */
  function Whole(n: nat): (k: nat)
    ensures k % 16 == 0 && k <= n < k + 16
  {
    n - n % 16
  }

  lemma WholeIs(n: nat, k: nat)
    requires k % 16 == 0 && k <= n < k + 16
    ensures Whole(n) == k
  {
  }

  function XorByte(a: bv8, b: bv8): bv8 { a ^ b }

  /** Up to a block of bytes combined with the start of a block of key stream. */
  function XorBytes(a: seq<bv8>, stream: Block): (r: seq<bv8>)
    requires |a| <= 16
    ensures |r| == |a|
  {
    seq(|a|, i requires 0 <= i < |a| => XorByte(a[i], stream[i]))
  }

  // ---- blocks as field elements ----

  function ByteBits(b: bv8): (w: Bits)
    ensures |w| == 8
  {
    [b & 0x80 != 0, b & 0x40 != 0, b & 0x20 != 0, b & 0x10 != 0, b & 0x08 != 0, b & 0x04 != 0, b & 0x02 != 0, b & 0x01 != 0]
  }

  function ByteOf(w: Bits): bv8
    requires |w| == 8
  {
    (if w[0] then 0x80 else 0) | (if w[1] then 0x40 else 0) | (if w[2] then 0x20 else 0) | (if w[3] then 0x10 else 0)
    | (if w[4] then 0x08 else 0) | (if w[5] then 0x04 else 0) | (if w[6] then 0x02 else 0) | (if w[7] then 0x01 else 0)
  }

  /** The bit string of a block, byte by byte, most significant bits first. */
  function BlockBits(b: Block): Elem {
    seq(128, i requires 0 <= i < 128 => ByteBits(b[i / 8])[i % 8])
  }

  function BitsBlock(e: Elem): Block {
    seq(16, j requires 0 <= j < 16 => ByteOf(e[8 * j..8 * j + 8]))
  }

  lemma ByteRoundTrip(b: bv8)
    ensures ByteOf(ByteBits(b)) == b
  {
  }

  /** No block is lost on the way to bits and back. */
  lemma BlockRoundTrip(b: Block)
    ensures BitsBlock(BlockBits(b)) == b
  {
    hide ByteOf, ByteBits;
    forall j | 0 <= j < 16
      ensures BitsBlock(BlockBits(b))[j] == b[j]
    {
      ByteRoundTrip(b[j]);
      assert BlockBits(b)[8 * j..8 * j + 8] == ByteBits(b[j]);
    }
  }
}
