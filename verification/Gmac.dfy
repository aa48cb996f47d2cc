/**
 Streaming GMAC: the hash and the tag that NIST SP 800-38D defines for a whole message, and
 the object that computes them from any sequence of chunks, in software or with the
 aggregated hardware loop.
 */
module Gmac {
  import opened Bits
  import opened BlockCipher
  import opened Common
  import opened Gf128
  import AesInstance
  import GfMul
  import GfMulNi

  function XorBlocks(a: Block, b: Block): Block { seq(16, i requires 0 <= i < 16 => a[i] ^ b[i]) }

  // ---- GHASH and the tag ----

  /** A length as the 32-bit counter holds it. */
  function Length32(n: nat): nat { n % WORD32 }

  /** Section 6.4 of the standard, started from y: every block is added, then multiplied by h. */
  function Ghash(h: Elem, y: Elem, data: seq<bv8>): Elem
    requires |data| % 16 == 0
    decreases |data|
  {
    if |data| == 0 then y else Ghash(h, Product(Add(y, BlockBits(data[..16])), h), data[16..])
  }

  /** Zeros up to the next multiple of sixteen bytes. */
  function Pad16(data: seq<bv8>): (p: seq<bv8>)
    ensures |p| % 16 == 0 && |data| <= |p| < |data| + 16
  {
    data + seq((16 - |data| % 16) % 16, _ => 0)
  }

  /** The block that ends GHASH: the length in bits of the message, and zero for the other part. */
  function LengthBlock(len: nat): Elem {
    ToBits(8 * (len % WORD32), 64) + Zeros(64)
  }

  function HashKey(aes: Keyed): Elem { BlockBits(aes.enc(ZERO_BLOCK)) }

  type Iv = iv: seq<bv8> | |iv| == 12 witness seq(12, _ => 0)

  /** The first counter block: the initialization vector and a counter of one. */
  function FirstCounter(iv: Iv): Block { iv + [0, 0, 0, 1] }

  /** GMAC of a message. */
  function Tag(aes: Keyed, iv: Iv, data: seq<bv8>): Block {
    var h := HashKey(aes);
    var s := Product(Add(Ghash(h, ZERO, Pad16(data)), LengthBlock(|data|)), h);
    XorBlocks(aes.enc(FirstCounter(iv)), BitsBlock(s))
  }

  lemma {:induction false} GhashConcat(h: Elem, y: Elem, a: seq<bv8>, b: seq<bv8>)
    requires |a| % 16 == 0 && |b| % 16 == 0
    ensures Ghash(h, y, a + b) == Ghash(h, Ghash(h, y, a), b)
    decreases |a|
  {
    hide Product, Add, BlockBits;
    if |a| == 0 {
      assert a + b == b;
    } else {
      assert (a + b)[..16] == a[..16] && (a + b)[16..] == a[16..] + b;
      GhashConcat(h, Product(Add(y, BlockBits(a[..16])), h), a[16..], b);
    }
  }

  /** The block of a message at position k. */
  function BlockAt(data: seq<bv8>, k: nat): Block
    requires k + 16 <= |data|
  {
    data[k..k + 16]
  }

  /** GHASH of the first k bytes of a message. */
  function Prefix(h: Elem, data: seq<bv8>, k: nat): Elem
    requires k % 16 == 0 && k <= |data|
  {
    Ghash(h, ZERO, data[..k])
  }

  /** One more block. */
  lemma PrefixStep(h: Elem, data: seq<bv8>, k: nat)
    requires k % 16 == 0 && k + 16 <= |data|
    ensures Prefix(h, data, k + 16) == Product(Add(Prefix(h, data, k), BlockBits(BlockAt(data, k))), h)
  {
    hide Product, Add, BlockBits;
    var (a, b) := (data[..k], BlockAt(data, k));
    assert data[..k + 16] == a + b;
    GhashConcat(h, ZERO, a, b);
    GhashOne(h, Ghash(h, ZERO, a), b);
  }

  lemma GhashOne(h: Elem, y: Elem, b: Block)
    ensures Ghash(h, y, b) == Product(Add(y, BlockBits(b)), h)
  {
    hide Product, Add, BlockBits;
    assert b[..16] == b;
  }

  class Gmac {
    const cipher: AesInstance.Instance
    /** What the cipher computes. */
    ghost const aes: Keyed := cipher.keyed
    const r: array<bv8>
    var rp: nat
    var len: nat
    var iv: Iv
    var y: Elem
    ghost var data: seq<bv8>

    /** y is the hash of the whole blocks of d, and r holds the bytes after them. */
    ghost predicate Holds(d: seq<bv8>)
      reads this, r
    {
      && AesInstance.Ready(cipher) && r.Length == 16
      && rp == |d| - Whole(|d|)
      && r[..rp] == d[Whole(|d|)..]
      && y == Prefix(HashKey(aes), d, Whole(|d|))
    }

    ghost predicate Valid()
      reads this, r
    {
      Holds(data) && len == Length32(|data|)
    }

    constructor (cipher: AesInstance.Instance)
      requires AesInstance.Ready(cipher)
      ensures this.cipher == cipher && fresh(r) && r.Length == 16
    {
      this.cipher := cipher;
      r := new bv8[16];
      rp, len := 0, 0;
      iv := seq(12, _ => 0);
      y := ZERO;
      data := [];
    }

    method Init(iv: Iv)
      requires AesInstance.Ready(cipher) && r.Length == 16
      modifies this
      ensures Valid() && data == [] && this.iv == iv
    {
      hide HashKey, AesInstance.Ready;
      rp := 0;
      len := 0;
      this.iv := iv;
      y := ZERO;
      data := [];
    }

    lemma HashKeyOfCipher()
      requires AesInstance.Ready(cipher)
      ensures BlockBits(cipher.h) == HashKey(aes)
    {
      AesInstance.HashKeyBlock(cipher);
    }

    /** One product with the hash key, by the multiplier the processor has. */
    method TimesH(x: Elem) returns (z: Elem)
      requires AesInstance.Ready(cipher)
      ensures z == Product(x, HashKey(aes))
    {
      hide Product, HashKey, BlockBits, GfMulNi.MulNi, AesInstance.Ready;
      HashKeyOfCipher();
      var h := BlockBits(cipher.h);
      if cipher.aesni {
        z := GfMulNi.MulNi(h, x);
        GfMulNi.MulNiIsProduct(h, x);
      } else {
        assert h == h[..64] + h[64..] && x == x[..64] + x[64..];
        var z0, z1 := GfMul.GfMul(h[..64], h[64..], x[..64], x[64..]);
        z := z0 + z1;
      }
    }

    method Absorb(y: Elem, block: Block) returns (z: Elem)
      requires AesInstance.Ready(cipher)
      ensures z == Product(Add(y, BlockBits(block)), HashKey(aes))
    {
      hide Product, Add, BlockBits, HashKey, AesInstance.Ready;
      z := TimesH(Add(y, BlockBits(block)));
    }

    /** The loop that fills the buffer; the result says how many bytes it took. */
    method Fill(input: seq<bv8>) returns (i: nat, z: Elem)
      requires AesInstance.Ready(cipher) && r.Length == 16 && 0 < rp < 16
      modifies r, `rp
      ensures i <= |input| && 0 < rp == old(rp) + i <= 16 && (rp < 16 ==> i == |input|)
      ensures r[..rp] == old(r[..rp]) + input[..i]
      ensures z == if rp < 16 then y else Product(Add(y, BlockBits(r[..])), HashKey(aes))
    {
      hide AesInstance.Ready, Product, Add, BlockBits, HashKey, Prefix;
      i, z := 0, y;
      var n := |input|;
      while true
        invariant 0 < rp < 16 && rp == old(rp) + i && i + n == |input| && 0 <= n
        invariant r[..rp] == old(r[..rp]) + input[..i]
        invariant z == y
        decreases n
      {
        if n == 0 {
          return;
        }
        n := n - 1;
        r[rp] := input[i];
        rp, i := rp + 1, i + 1;
        if rp == 16 {
          z := Absorb(z, r[..]);
          break;
        }
      }
    }

    /** A block left over from earlier calls is either completed and absorbed, or still waiting. */
    method Complete(input: seq<bv8>, ghost d: seq<bv8>) returns (i: nat, z: Elem)
      requires Holds(d) && 0 < rp
      modifies r, `rp
      ensures rp < 16 ==> Holds(d + input)
      ensures rp >= 16 ==> i <= |input| && (|d| + i) % 16 == 0 && z == Prefix(HashKey(aes), d + input, |d| + i)
    {
      hide AesInstance.Ready, Product, Add, BlockBits, HashKey, Prefix, Whole;
      i, z := Fill(input);
      if rp < 16 {
        StillPartial(HashKey(aes), d, input);
      } else {
        assert r[..] == r[..rp];
        Completed(HashKey(aes), d, input, i, r[..]);
      }
    }

    /** The hardware loop over 64 bytes at a time, from position i on. */
    method AbsorbQuads(start: Elem, input: seq<bv8>, i: nat) returns (z: Elem, p: nat)
      requires AesInstance.Ready(cipher) && cipher.aesni && i <= |input|
      ensures i <= p <= |input| && (p - i) % 16 == 0
      ensures z == Ghash(HashKey(aes), start, input[i..p])
    {
      hide AesInstance.Ready, Product, Add, BlockBits, HashKey, Ghash, GfMulNi.FourBlocks, GfMulNi.Precompute;
      z, p := start, i;
      HashKeyOfCipher();
      AesInstance.PowersOfHashKey(cipher);
      GhashNone(HashKey(aes), start, input[i..p]);
      while |input| - p >= 64
        invariant i <= p <= |input| && (p - i) % 16 == 0
        invariant z == Ghash(HashKey(aes), start, input[i..p])
      {
        var (b1, b2, b3, b4) := (BlockAt(input, p), BlockAt(input, p + 16), BlockAt(input, p + 32), BlockAt(input, p + 48));
        GhashQuad(HashKey(aes), start, input[i..p], b1, b2, b3, b4);
        QuadOf(input, i, p);
        z := GfMulNi.FourBlocks(cipher.powers, Add(z, BlockBits(b1)), BlockBits(b2), BlockBits(b3), BlockBits(b4));
        p := p + 64;
      }
    }

    /** The loop over single blocks, from position i on. */
    method AbsorbSingles(start: Elem, input: seq<bv8>, i: nat) returns (z: Elem, p: nat)
      requires AesInstance.Ready(cipher) && i <= |input|
      ensures p == i + Whole(|input| - i)
      ensures z == Ghash(HashKey(aes), start, input[i..p])
    {
      hide AesInstance.Ready, Product, Add, BlockBits, HashKey, Ghash, Whole;
      z, p := start, i;
      GhashNone(HashKey(aes), start, input[i..p]);
      while |input| - p >= 16
        invariant i <= p <= |input| && (p - i) % 16 == 0
        invariant z == Ghash(HashKey(aes), start, input[i..p])
      {
        GhashPush(HashKey(aes), start, input[i..p], input[p..p + 16]);
        assert input[i..p + 16] == input[i..p] + input[p..p + 16];
        z := Absorb(z, input[p..p + 16]);
        p := p + 16;
      }
      WholeIs(|input| - i, p - i);
    }

    /** All whole blocks of the input, from position i on. */
    method AbsorbBlocks(start: Elem, input: seq<bv8>, i: nat) returns (z: Elem, p: nat)
      requires AesInstance.Ready(cipher) && i <= |input|
      ensures p == i + Whole(|input| - i)
      ensures z == Ghash(HashKey(aes), start, input[i..p])
    {
      hide AesInstance.Ready, HashKey, Ghash, Whole;
      if cipher.aesni {
        var q;
        z, q := AbsorbQuads(start, input, i);
        z, p := AbsorbSingles(z, input, q);
        GhashConcat(HashKey(aes), start, input[i..q], input[q..p]);
        assert input[i..p] == input[i..q] + input[q..p];
        WholeIs(|input| - i, p - i);
      } else {
        z, p := AbsorbSingles(start, input, i);
      }
    }

    /** The last loop: what is left of the input goes into the buffer. */
    method Keep(input: seq<bv8>, i: nat)
      requires r.Length == 16 && i <= |input| < i + 16
      modifies r, `rp
      ensures rp == |input| - i && r[..rp] == input[i..]
    {
      var n := |input| - i;
      for j := 0 to n
        invariant r[..j] == input[i..i + j]
      {
        r[j] := input[i + j];
      }
      rp := n;
    }

    /** Once the object is at a block boundary of the message: whole blocks, then the tail. */
    method TakeRest(input: seq<bv8>, i: nat, z: Elem, ghost before: seq<bv8>)
      requires AesInstance.Ready(cipher) && r.Length == 16 && i <= |input| && (|before| + i) % 16 == 0
      requires z == Prefix(HashKey(aes), before + input, |before| + i) && len == Length32(|before + input|)
      modifies this, r
      ensures Valid() && data == before + input && iv == old(iv)
    {
      hide AesInstance.Ready, HashKey, Prefix, Ghash, Whole, Length32;
      var w, p := AbsorbBlocks(z, input, i);
      AfterBlocks(HashKey(aes), before, input, i);
      y := w;
      Keep(input, p);
      data := before + input;
    }

    /** GMAC::update. */
    method Update(input: seq<bv8>)
      requires Valid()
      modifies this, r
      ensures Valid() && data == old(data) + input && iv == old(iv)
    {
      hide AesInstance.Ready, Product, Add, BlockBits, HashKey, Prefix, Ghash, Whole, Length32;
      LengthAdds(|data|, |input|);
      len := Length32(len + |input|);
      if rp != 0 {
        var i, z := Complete(input, data);
        if rp < 16 {
          data := data + input;
        } else {
          TakeRest(input, i, z, data);
        }
      } else {
        PrefixExtends(HashKey(aes), data, input, |data|);
        TakeRest(input, 0, y, data);
      }
    }

    /** GMAC::finish: pad the last block with zeros, add the length, mask with the encrypted first counter. */
    method Finish() returns (tag: Block)
      requires Valid()
      modifies r, `rp
      ensures tag == Tag(aes, iv, data)
    {
      hide AesInstance.Ready, Product, Add, BlockBits, BitsBlock, XorBlocks, HashKey, Prefix, Ghash, Whole, LengthBlock, Pad16;
      var z := y;
      if rp != 0 {
        ghost var tail := r[..rp];
        while rp < 16
          invariant |tail| <= rp <= 16 && r[..rp] == tail + seq(rp - |tail|, _ => 0)
          modifies r, `rp
        {
          r[rp] := 0;
          rp := rp + 1;
        }
        assert r[..] == r[..rp];
        z := Absorb(z, r[..]);
        PaddedTail(HashKey(aes), data, r[..]);
      } else {
        NoTail(HashKey(aes), data);
      }
      z := TimesH(Add(z, LengthBlock(len)));
      LengthWraps(|data|);
      var mask := cipher.Encrypt(FirstCounter(iv));
      tag := XorBlocks(mask, BitsBlock(z));
    }
  }

  lemma LengthAdds(a: nat, b: nat)
    ensures Length32(Length32(a) + b) == Length32(a + b)
  {
  }

  lemma LengthWraps(n: nat)
    ensures LengthBlock(n % WORD32) == LengthBlock(n)
  {
    hide ToBits;
    assert (n % WORD32) % WORD32 == n % WORD32;
  }

  lemma PaddedTail(h: Elem, data: seq<bv8>, b: Block)
    requires Whole(|data|) < |data|
    requires b == data[Whole(|data|)..] + seq(16 - |data[Whole(|data|)..]|, _ => 0)
    ensures Ghash(h, ZERO, Pad16(data)) == Product(Add(Prefix(h, data, Whole(|data|)), BlockBits(b)), h)
  {
    hide Product, Add, BlockBits, Ghash;
    var k := Whole(|data|);
    assert Pad16(data) == data[..k] + b;
    GhashPush(h, ZERO, data[..k], b);
  }

  lemma NoTail(h: Elem, data: seq<bv8>)
    requires Whole(|data|) == |data|
    ensures Ghash(h, ZERO, Pad16(data)) == Prefix(h, data, |data|)
  {
    hide Ghash;
    assert Pad16(data) == data == data[..|data|];
  }

  lemma GhashQuad(h: Elem, y: Elem, data: seq<bv8>, b1: Block, b2: Block, b3: Block, b4: Block)
    requires |data| % 16 == 0
    ensures Ghash(h, y, data + b1 + b2 + b3 + b4)
         == GfMulNi.FourBlocks(GfMulNi.Precompute(h), Add(Ghash(h, y, data), BlockBits(b1)), BlockBits(b2), BlockBits(b3), BlockBits(b4))
  {
    hide Product, Add, BlockBits, Ghash, GfMulNi.FourBlocks, GfMulNi.Precompute;
    GhashPush(h, y, data, b1);
    GhashPush(h, y, data + b1, b2);
    GhashPush(h, y, data + b1 + b2, b3);
    GhashPush(h, y, data + b1 + b2 + b3, b4);
    GfMulNi.FourBlocksIsFourSteps(h, Ghash(h, y, data), BlockBits(b1), BlockBits(b2), BlockBits(b3), BlockBits(b4));
  }

  lemma QuadOf(input: seq<bv8>, i: nat, p: nat)
    requires i <= p && p + 64 <= |input|
    ensures input[i..p] + BlockAt(input, p) + BlockAt(input, p + 16) + BlockAt(input, p + 32) + BlockAt(input, p + 48)
         == input[i..p + 64]
  {
  }

  lemma GhashNone(h: Elem, y: Elem, data: seq<bv8>)
    requires |data| == 0
    ensures Ghash(h, y, data) == y
  {
  }

  lemma GhashPush(h: Elem, y: Elem, data: seq<bv8>, b: Block)
    requires |data| % 16 == 0
    ensures Ghash(h, y, data + b) == Product(Add(Ghash(h, y, data), BlockBits(b)), h)
  {
    hide Product, Add, BlockBits, Ghash;
    GhashConcat(h, y, data, b);
    GhashOne(h, Ghash(h, y, data), b);
  }

  /** The input ran out before the buffered block was full. */
  lemma StillPartial(h: Elem, data: seq<bv8>, input: seq<bv8>)
    requires |data| - Whole(|data|) + |input| < 16
    ensures Whole(|data + input|) == Whole(|data|)
    ensures (data + input)[Whole(|data|)..] == data[Whole(|data|)..] + input
    ensures Prefix(h, data + input, Whole(|data|)) == Prefix(h, data, Whole(|data|))
  {
    hide Whole, Prefix;
    PrefixExtends(h, data, input, Whole(|data|));
    WholeIs(|data + input|, Whole(|data|));
  }

  /** The first i bytes of the input completed the buffered block b. */
  lemma Completed(h: Elem, data: seq<bv8>, input: seq<bv8>, i: nat, b: Block)
    requires i <= |input| && b == data[Whole(|data|)..] + input[..i]
    ensures (|data| + i) % 16 == 0
    ensures Prefix(h, data + input, |data| + i) == Product(Add(Prefix(h, data, Whole(|data|)), BlockBits(b)), h)
  {
    hide Product, Add, BlockBits, Prefix, Whole;
    var k := Whole(|data|);
    PrefixExtends(h, data, input, k);
    assert BlockAt(data + input, k) == b;
    PrefixStep(h, data + input, k);
  }

  /** Whole blocks of the input from a block boundary on, and what they leave over. */
  lemma AfterBlocks(h: Elem, data: seq<bv8>, input: seq<bv8>, i: nat)
    requires i <= |input| && (|data| + i) % 16 == 0
    ensures var m := Whole(|input| - i);
            && Whole(|data + input|) == |data| + i + m
            && Prefix(h, data + input, |data| + i + m) == Ghash(h, Prefix(h, data + input, |data| + i), input[i..i + m])
            && (data + input)[|data| + i + m..] == input[i + m..]
  {
    hide Ghash, Whole;
    var (whole, k, m) := (data + input, |data| + i, Whole(|input| - i));
    WholeIs(|whole|, k + m);
    assert whole[..k + m] == whole[..k] + input[i..i + m];
    GhashConcat(h, ZERO, whole[..k], input[i..i + m]);
  }

  lemma PrefixExtends(h: Elem, data: seq<bv8>, more: seq<bv8>, k: nat)
    requires k % 16 == 0 && k <= |data|
    ensures Prefix(h, data + more, k) == Prefix(h, data, k)
  {
    assert (data + more)[..k] == data[..k];
  }

  // ---- chunking does not matter ----

  function Flatten(chunks: seq<seq<bv8>>): seq<bv8> {
    if chunks == [] then [] else Flatten(chunks[..|chunks| - 1]) + chunks[|chunks| - 1]
  }

  /** Whatever the chunks and whatever the processor, the tag is that of the whole message. */
  method TagOfChunks(cipher: AesInstance.Instance, iv: Iv, chunks: seq<seq<bv8>>) returns (tag: Block)
    requires AesInstance.Ready(cipher)
    ensures tag == Tag(cipher.keyed, iv, Flatten(chunks))
  {
    hide Tag, AesInstance.Ready;
    var g := new Gmac(cipher);
    g.Init(iv);
    for i := 0 to |chunks|
      invariant g.Valid() && g.cipher == cipher && g.iv == iv && g.data == Flatten(chunks[..i]) && fresh(g) && fresh(g.r)
    {
      g.Update(chunks[i]);
      assert chunks[..i + 1][..i] == chunks[..i];
    }
    assert chunks[..|chunks|] == chunks;
    tag := g.Finish();
  }
}
