/**
 AES-GMAC-SIV: what a sealed message is, the two-pass encryptor and the one-pass decryptor
 as the protocol of calls they support, and the theorem that the decryptor accepts exactly
 what the encryptor produces.
 */
module Siv {
  import opened BlockCipher
  import opened Common
  import Aes
  import AesInstance
  import Gmac
  import Ctr
  import CtrBlocks

  type Iv = iv: seq<bv8> | |iv| == 8 witness seq(8, _ => 0)

  /** The two keyed ciphers of a session: k0 hashes, k1 encrypts. */
  datatype Keys = Keys(k0: Keyed, k1: Keyed)

  /** A combined IV and MAC block and a ciphertext. */
  datatype Sealed = Sealed(tag: Block, text: seq<bv8>)

  /** A plaintext and the verdict on it. */
  datatype Opened = Opened(text: seq<bv8>, ok: bool)

  // ---- the construction ----

  /** The 96-bit vector of GMAC: the message IV and zeros. */
  function GmacIv(iv: Iv): Gmac.Iv { iv + [0, 0, 0, 0] }

  /** A tag shortened to 64 bits by combining its halves. */
  function Fold(tag: Block): (m: seq<bv8>)
    ensures |m| == 8
  {
    seq(8, i requires 0 <= i < 8 => tag[i] ^ tag[i + 8])
  }

  /** The 64-bit MAC of the additional data, padded to whole blocks, and the plaintext. */
  function Mac(k0: Keyed, iv: Iv, aad: seq<bv8>, text: seq<bv8>): (m: seq<bv8>)
    ensures |m| == 8
  {
    Fold(Gmac.Tag(k0, GmacIv(iv), Gmac.Pad16(aad) + text))
  }

  /** The initial counter block: the tag with the top bit of its last word cleared. */
  function CtrIv(tag: Block): Block { tag[12 := tag[12] & 0x7f] }

  function Seal(k: Keys, iv: Iv, aad: seq<bv8>, text: seq<bv8>): Sealed {
    var tag: Block := k.k1.enc(iv + Mac(k.k0, iv, aad, text));
    Sealed(tag, Ctr.WithKeyStream(k.k1, false, CtrIv(tag), text))
  }

  function Open(k: Keys, aad: seq<bv8>, sealed: Sealed): Opened {
    var text := Ctr.WithKeyStream(k.k1, false, CtrIv(sealed.tag), sealed.text);
    var ivMac := k.k1.dec(sealed.tag);
    Opened(text, Mac(k.k0, ivMac[..8], aad, text) == ivMac[8..])
  }

  // ---- what the parts of the construction compute ----

  /**
   Folding is the exclusive or of the two machine words of the tag, in either byte order, and of
   nothing else: each half alone is kept as it is.
   */
  lemma FoldIsWords(tag: Block, little: bool)
    ensures CtrBlocks.Load64(little, Fold(tag)) ==
            CtrBlocks.Add64(CtrBlocks.Load64(little, tag[..8]), CtrBlocks.Load64(little, tag[8..]))
  {
    hide CtrBlocks.Load64;
    if little {
      FoldLittle(tag);
    } else {
      FoldBig(tag);
    }
  }

  lemma FoldLittle(tag: Block)
    ensures CtrBlocks.Load64(true, Fold(tag)) ==
            CtrBlocks.Add64(CtrBlocks.Load64(true, tag[..8]), CtrBlocks.Load64(true, tag[8..]))
  {
    hide CtrBlocks.Word64, CtrBlocks.Add64, XorByte;
    FoldAt(tag);
    hide Fold;
    var (a, b) := (tag[..8], tag[8..]);
    WordSum(a[7], a[6], a[5], a[4], a[3], a[2], a[1], a[0], b[7], b[6], b[5], b[4], b[3], b[2], b[1], b[0]);
  }

  lemma FoldBig(tag: Block)
    ensures CtrBlocks.Load64(false, Fold(tag)) ==
            CtrBlocks.Add64(CtrBlocks.Load64(false, tag[..8]), CtrBlocks.Load64(false, tag[8..]))
  {
    hide CtrBlocks.Word64, CtrBlocks.Add64, XorByte;
    FoldAt(tag);
    hide Fold;
    var (a, b) := (tag[..8], tag[8..]);
    WordSum(a[0], a[1], a[2], a[3], a[4], a[5], a[6], a[7], b[0], b[1], b[2], b[3], b[4], b[5], b[6], b[7]);
  }

  lemma FoldAt(tag: Block)
    ensures var (f, a, b) := (Fold(tag), tag[..8], tag[8..]);
            && f[0] == XorByte(a[0], b[0]) && f[1] == XorByte(a[1], b[1]) && f[2] == XorByte(a[2], b[2]) && f[3] == XorByte(a[3], b[3])
            && f[4] == XorByte(a[4], b[4]) && f[5] == XorByte(a[5], b[5]) && f[6] == XorByte(a[6], b[6]) && f[7] == XorByte(a[7], b[7])
  {
  }

  lemma WordSum(a7: bv8, a6: bv8, a5: bv8, a4: bv8, a3: bv8, a2: bv8, a1: bv8, a0: bv8,
                b7: bv8, b6: bv8, b5: bv8, b4: bv8, b3: bv8, b2: bv8, b1: bv8, b0: bv8)
    ensures CtrBlocks.Word64(XorByte(a7, b7), XorByte(a6, b6), XorByte(a5, b5), XorByte(a4, b4), XorByte(a3, b3), XorByte(a2, b2), XorByte(a1, b1), XorByte(a0, b0)) ==
            CtrBlocks.Add64(CtrBlocks.Word64(a7, a6, a5, a4, a3, a2, a1, a0), CtrBlocks.Word64(b7, b6, b5, b4, b3, b2, b1, b0))
  {
  }

  lemma FoldOfHalf(x: seq<bv8>)
    requires |x| == 8
    ensures Fold(x + [0, 0, 0, 0, 0, 0, 0, 0]) == x && Fold([0, 0, 0, 0, 0, 0, 0, 0] + x) == x
  {
  }

  /**
   The block that starts CTR is the tag with its last word taken modulo 2^31; so CTR counts from
   there without an overflow of the word for every 32-bit length.
   */
  lemma CtrIvIs(tag: Block)
    ensures CtrIv(tag)[..12] == tag[..12] && Ctr.Number(CtrIv(tag)[12..]) == Ctr.Number(tag[12..]) % (WORD32 / 2)
  {
    hide Ctr.FromByte;
    LowSeven(tag[12]);
    var (a, b) := (tag[12..], CtrIv(tag)[12..]);
    NumberOfFour(a);
    NumberOfFour(b);
    var rest := 0x1_0000 * Ctr.FromByte(a[1]) + 0x100 * Ctr.FromByte(a[2]) + Ctr.FromByte(a[3]);
    TopModulo(Ctr.FromByte(a[0]), rest);
  }

  lemma LowSeven(b: bv8)
    ensures Ctr.FromByte(b & 0x7f) == Ctr.FromByte(b) % 128
  {
  }

  lemma NumberOfFour(s: seq<bv8>)
    requires |s| == 4
    ensures Ctr.Number(s) == 0x100_0000 * Ctr.FromByte(s[0]) + 0x1_0000 * Ctr.FromByte(s[1]) + 0x100 * Ctr.FromByte(s[2]) + Ctr.FromByte(s[3])
  {
    hide Ctr.FromByte;
    assert s[..3][..2] == s[..2] && s[..2][..1] == s[..1];
    assert Ctr.Number(s[..1]) == Ctr.FromByte(s[0]);
    assert Ctr.Number(s[..2]) == 256 * Ctr.Number(s[..1]) + Ctr.FromByte(s[1]);
    assert Ctr.Number(s[..3]) == 256 * Ctr.Number(s[..2]) + Ctr.FromByte(s[2]);
  }

  lemma TopModulo(top: nat, rest: nat)
    requires rest < 0x100_0000
    ensures (0x100_0000 * top + rest) % (WORD32 / 2) == 0x100_0000 * (top % 128) + rest
  {
    var q := top / 128;
    assert 0x100_0000 * top + rest == (WORD32 / 2) * q + (0x100_0000 * (top % 128) + rest);
  }

  // ---- the theorems ----

  /** Opening a sealed message yields the message and succeeds. */
  lemma OpenAfterSeal(k: Keys, iv: Iv, aad: seq<bv8>, text: seq<bv8>)
    requires k.k1.Permutation()
    ensures Open(k, aad, Seal(k, iv, aad, text)) == Opened(text, true)
  {
    hide Mac, CtrIv, Ctr.WithKeyStream;
    var mac := Mac(k.k0, iv, aad, text);
    var block: Block := iv + mac;
    assert block[..8] == iv && block[8..] == mac;
    Ctr.CryptTwice(k.k1, false, CtrIv(k.k1.enc(block)), text);
  }

  /** What opens is what was sealed: the IV and the plaintext it was sealed from are the ones recovered. */
  lemma SealAfterOpen(k: Keys, aad: seq<bv8>, sealed: Sealed)
    requires k.k1.Permutation() && Open(k, aad, sealed).ok
    ensures Seal(k, k.k1.dec(sealed.tag)[..8], aad, Open(k, aad, sealed).text) == sealed
  {
    hide Mac, CtrIv, Ctr.WithKeyStream;
    var ivMac := k.k1.dec(sealed.tag);
    assert ivMac == ivMac[..8] + ivMac[8..];
    Ctr.CryptTwice(k.k1, false, CtrIv(sealed.tag), sealed.text);
  }

  /** The decryptor accepts exactly the encryptor's outputs for the same additional data. */
  lemma AcceptsExactlySealed(k: Keys, aad: seq<bv8>, sealed: Sealed)
    requires k.k1.Permutation()
    ensures Open(k, aad, sealed).ok <==> exists iv: Iv, text :: Seal(k, iv, aad, text) == sealed
  {
    hide Seal, Open;
    if Open(k, aad, sealed).ok {
      SealAfterOpen(k, aad, sealed);
    }
    if iv: Iv, text :| Seal(k, iv, aad, text) == sealed {
      OpenAfterSeal(k, iv, aad, text);
    }
  }

  /** With AES for both ciphers nothing is left to assume: the round trip holds for all keys. */
  lemma AesRoundTrip(key0: Aes.Key, key1: Aes.Key, iv: Iv, aad: seq<bv8>, text: seq<bv8>)
    ensures var k := Keys(Aes.KeyedBy(Aes.Expanded(key0)), Aes.KeyedBy(Aes.Expanded(key1)));
            Open(k, aad, Seal(k, iv, aad, text)) == Opened(text, true)
  {
    hide Aes.KeyedBy, Aes.Expanded, Open, Seal;
    Aes.AesIsPermutation(Aes.Expanded(key1));
    OpenAfterSeal(Keys(Aes.KeyedBy(Aes.Expanded(key0)), Aes.KeyedBy(Aes.Expanded(key1))), iv, aad, text);
  }

  lemma CtrIvMasked(tag: Block)
    ensures CtrIv(tag)[12] & 0x80 == 0
  {
  }

  /** Hardware and software key streams agree on every message, so the flag does not show. */
  lemma SameOnBothPaths(k1: Keyed, wide: bool, tag: Block, text: seq<bv8>)
    requires |text| < WORD32
    ensures Ctr.WithKeyStream(k1, wide, CtrIv(tag), text) == Ctr.WithKeyStream(k1, false, CtrIv(tag), text)
  {
    hide CtrIv, Ctr.WithKeyStream;
    CtrIvMasked(tag);
    Ctr.PathsAgree(k1, CtrIv(tag), text);
  }

  /** Additional data goes into the hash as whole blocks, zeros at the end. */
  method HashPadded(gmac: Gmac.Gmac, aad: seq<bv8>)
    requires gmac.Valid() && gmac.data == []
    modifies gmac, gmac.r
    ensures gmac.Valid() && gmac.data == Gmac.Pad16(aad) && gmac.iv == old(gmac.iv)
  {
    hide AesInstance.Ready, Gmac.Prefix, Gmac.HashKey;
    gmac.Update(aad);
    assert [] + aad == aad;
    if |aad| % 16 != 0 {
      gmac.Update(seq(16 - |aad| % 16, _ => 0));
    }
  }

  // ---- the encryptor ----

  class Encryptor {
    /** The two keyed ciphers. */
    const k0: AesInstance.Instance
    const k1: AesInstance.Instance
    ghost const keys: Keys := Keys(k0.keyed, k1.keyed)
    const gmac: Gmac.Gmac
    const ctr: Ctr.Ctr
    var output: array<bv8>
    var tag: Block

    /** The objects are keyed as they should be. */
    ghost predicate Keyed() {
      AesInstance.Ready(k0) && AesInstance.Ready(k1) && gmac.cipher == k0 && ctr.cipher == k1
    }

    ghost predicate Built()
      reads this
    {
      && Keyed() && gmac.r != output
    }

    /** First pass: the message IV is in place and hashed has gone into GMAC. */
    ghost predicate Hashing(iv: Iv, hashed: seq<bv8>)
      reads this, gmac, gmac.r, ctr
    {
      && Built() && gmac.Valid()
      && gmac.iv == GmacIv(iv) && gmac.data == hashed && tag[..8] == iv
    }

    /** Second pass: the tag is final and text has been fed to CTR. */
    ghost predicate Encrypting(sealed: Block, text: seq<bv8>)
      reads this, gmac, ctr, ctr.out
    {
      && Built() && ctr.Valid() && ctr.out == output
      && tag == sealed && ctr.iv == CtrIv(sealed) && ctr.data == text
    }

    constructor (k0: AesInstance.Instance, k1: AesInstance.Instance)
      requires AesInstance.Ready(k0) && AesInstance.Ready(k1)
      ensures this.k0 == k0 && this.k1 == k1 && Keyed() && gmac.r.Length == 16
      ensures fresh(gmac) && fresh(gmac.r) && fresh(ctr)
    {
      hide AesInstance.Ready;
      this.k0, this.k1 := k0, k1;
      gmac := new Gmac.Gmac(k0);
      ctr := new Ctr.Ctr(k1);
      output := new bv8[0];
      tag := ZERO_BLOCK;
    }

    method Init(iv: Iv, output: array<bv8>)
      requires Keyed() && gmac.r.Length == 16 && gmac.r != output
      modifies this, gmac
      ensures Hashing(iv, []) && this.output == output
    {
      hide AesInstance.Ready, Gmac.HashKey, Gmac.Prefix;
      this.output := output;
      tag := iv + [0, 0, 0, 0, 0, 0, 0, 0];
      assert tag[..12] == GmacIv(iv);
      gmac.Init(tag[..12]);
    }

    /** Additional data, in one chunk and before any plaintext; padded to whole blocks. */
    method Aad(aad: seq<bv8>, ghost iv: Iv)
      requires Hashing(iv, [])
      modifies gmac, gmac.r
      ensures Hashing(iv, Gmac.Pad16(aad))
    {
      hide AesInstance.Ready, Gmac.Prefix, Gmac.HashKey, Gmac.Pad16;
      HashPadded(gmac, aad);
    }

    method Update1(chunk: seq<bv8>, ghost iv: Iv, ghost hashed: seq<bv8>)
      requires Hashing(iv, hashed)
      modifies gmac, gmac.r
      ensures Hashing(iv, hashed + chunk)
    {
      hide AesInstance.Ready, Gmac.Prefix, Gmac.HashKey;
      gmac.Update(chunk);
    }

    /** Between the passes: the MAC goes next to the IV, both are encrypted, and CTR starts from the masked result. */
    method Finish1(ghost iv: Iv, ghost hashed: seq<bv8>)
      requires Hashing(iv, hashed)
      modifies this, gmac, gmac.r, ctr
      ensures output == old(output)
      ensures Encrypting(keys.k1.enc(iv + Fold(Gmac.Tag(keys.k0, GmacIv(iv), hashed))), [])
    {
      hide AesInstance.Ready, Gmac.Prefix, Gmac.HashKey, Gmac.Tag, Fold, CtrIv, Ctr.Counter, Ctr.Partial;
      var tmp := gmac.Finish();
      tag := tag[..8] + Fold(tmp);
      tag := k1.Encrypt(tag);
      ctr.Init(CtrIv(tag), output);
    }

    method Update2(chunk: seq<bv8>, aligned: bool, little: bool, ghost sealed: Block, ghost text: seq<bv8>)
      requires Encrypting(sealed, text) && |text| + |chunk| <= output.Length && |text| + |chunk| < WORD32
      modifies ctr, output
      ensures Encrypting(sealed, text + chunk)
    {
      hide AesInstance.Ready, CtrIv, Ctr.Counter, Ctr.Partial;
      ctr.Crypt(chunk, aligned, little);
    }

    method Finish2(ghost sealed: Block, ghost text: seq<bv8>) returns (ivMac: Block)
      requires Encrypting(sealed, text)
      modifies output
      ensures ivMac == sealed && |text| <= output.Length
      ensures output[..|text|] == Ctr.WithKeyStream(keys.k1, false, CtrIv(sealed), text)
    {
      hide AesInstance.Ready, CtrIv, Ctr.Counter, Ctr.Partial, Ctr.WithKeyStream;
      ctr.Finish();
      SameOnBothPaths(keys.k1, k1.aesni, sealed, text);
      ivMac := tag;
    }
  }

  // ---- the decryptor ----

  class Decryptor {
    /** The two keyed ciphers. */
    const k0: AesInstance.Instance
    const k1: AesInstance.Instance
    ghost const keys: Keys := Keys(k0.keyed, k1.keyed)
    const gmac: Gmac.Gmac
    const ctr: Ctr.Ctr
    var ivMac: Block
    var output: array<bv8>
    var decryptedLen: nat

    /** The objects are keyed as they should be. */
    ghost predicate Keyed() {
      AesInstance.Ready(k0) && AesInstance.Ready(k1) && gmac.cipher == k0 && ctr.cipher == k1
    }

    /** hashed has gone into GMAC and text, so far, into CTR. */
    ghost predicate Decrypting(sealed: Block, hashed: seq<bv8>, text: seq<bv8>)
      reads this, gmac, gmac.r, ctr, ctr.out
    {
      && Keyed() && gmac.r != output && ctr.out == output
      && gmac.Valid() && ctr.Valid()
      && ivMac == keys.k1.dec(sealed)
      && gmac.iv == GmacIv(ivMac[..8]) && gmac.data == hashed
      && ctr.iv == CtrIv(sealed) && ctr.data == text && decryptedLen == |text|
    }

    constructor (k0: AesInstance.Instance, k1: AesInstance.Instance)
      requires AesInstance.Ready(k0) && AesInstance.Ready(k1)
      ensures this.k0 == k0 && this.k1 == k1 && Keyed() && gmac.r.Length == 16
      ensures fresh(gmac) && fresh(gmac.r) && fresh(ctr)
    {
      hide AesInstance.Ready;
      this.k0, this.k1 := k0, k1;
      gmac := new Gmac.Gmac(k0);
      ctr := new Ctr.Ctr(k1);
      output := new bv8[0];
      ivMac, decryptedLen := ZERO_BLOCK, 0;
    }

    method Init(tag: Block, output: array<bv8>)
      requires Keyed() && gmac.r.Length == 16 && gmac.r != output
      modifies this, gmac, ctr
      ensures Decrypting(tag, [], []) && this.output == output
    {
      hide AesInstance.Ready, CtrIv, Ctr.Counter, Ctr.Partial, Gmac.Prefix, Gmac.HashKey;
      ctr.Init(CtrIv(tag), output);
      ivMac := k1.Decrypt(tag);
      gmac.Init(GmacIv(ivMac[..8]));
      this.output := output;
      decryptedLen := 0;
    }

    method Aad(aad: seq<bv8>, ghost sealed: Block)
      requires Decrypting(sealed, [], [])
      modifies gmac, gmac.r
      ensures Decrypting(sealed, Gmac.Pad16(aad), [])
    {
      hide AesInstance.Ready, CtrIv, Ctr.Counter, Ctr.Partial, Gmac.Prefix, Gmac.HashKey, Gmac.Pad16;
      HashPadded(gmac, aad);
    }

    method Update(chunk: seq<bv8>, aligned: bool, little: bool, ghost sealed: Block, ghost hashed: seq<bv8>, ghost text: seq<bv8>)
      requires Decrypting(sealed, hashed, text) && |text| + |chunk| <= output.Length && |text| + |chunk| < WORD32
      modifies `decryptedLen, ctr, output
      ensures Decrypting(sealed, hashed, text + chunk)
    {
      hide AesInstance.Ready, CtrIv, Ctr.Counter, Ctr.Partial, Gmac.Prefix, Gmac.HashKey;
      ctr.Crypt(chunk, aligned, little);
      decryptedLen := decryptedLen + |chunk|;
    }

    method Finish(ghost sealed: Block, ghost hashed: seq<bv8>, ghost text: seq<bv8>) returns (ok: bool)
      requires Decrypting(sealed, hashed, text)
      modifies gmac, gmac.r, output
      ensures |text| <= output.Length
      ensures var plain := Ctr.WithKeyStream(keys.k1, false, CtrIv(sealed), text);
              && output[..|text|] == plain
              && ok == (Fold(Gmac.Tag(keys.k0, GmacIv(keys.k1.dec(sealed)[..8]), hashed + plain)) == keys.k1.dec(sealed)[8..])
    {
      hide AesInstance.Ready, CtrIv, Fold, Ctr.Counter, Ctr.Partial, Ctr.WithKeyStream, Gmac.Prefix, Gmac.HashKey, Gmac.Tag;
      ctr.Finish();
      SameOnBothPaths(keys.k1, k1.aesni, sealed, text);
      gmac.Update(output[..decryptedLen]);
      var gmacTag := gmac.Finish();
      ok := Fold(gmacTag) == ivMac[8..];
    }
  }

  // ---- whole messages, in any chunks ----

  lemma FlattenStep(chunks: seq<seq<bv8>>, i: nat)
    requires i < |chunks|
    ensures Gmac.Flatten(chunks[..i + 1]) == Gmac.Flatten(chunks[..i]) + chunks[i]
    ensures |Gmac.Flatten(chunks[..i + 1])| <= |Gmac.Flatten(chunks)|
  {
    assert chunks[..i + 1][..i] == chunks[..i];
    FlattenBound(chunks, i + 1);
  }

  lemma {:induction false} FlattenBound(chunks: seq<seq<bv8>>, i: nat)
    requires i <= |chunks|
    ensures |Gmac.Flatten(chunks[..i])| <= |Gmac.Flatten(chunks)|
  {
    if i == |chunks| {
      assert chunks[..i] == chunks;
    } else {
      var init := chunks[..|chunks| - 1];
      assert chunks[..i] == init[..i];
      FlattenBound(init, i);
    }
  }

  /** Feeds the plaintext to the first pass. */
  method FirstPass(e: Encryptor, iv: Iv, head: seq<bv8>, chunks: seq<seq<bv8>>)
    requires e.Hashing(iv, head)
    modifies e.gmac, e.gmac.r
    ensures e.Hashing(iv, head + Gmac.Flatten(chunks))
  {
    hide AesInstance.Ready, Gmac.Flatten, Gmac.Prefix, Gmac.HashKey;
    FlattenNone(chunks);
    assert head + [] == head;
    for i := 0 to |chunks|
      invariant e.Hashing(iv, head + Gmac.Flatten(chunks[..i]))
    {
      e.Update1(chunks[i], iv, head + Gmac.Flatten(chunks[..i]));
      FlattenStep(chunks, i);
      assert head + Gmac.Flatten(chunks[..i]) + chunks[i] == head + Gmac.Flatten(chunks[..i + 1]);
    }
    assert chunks[..|chunks|] == chunks;
  }

  /** Feeds the plaintext to the second pass. */
  method SecondPass(e: Encryptor, sealed: Block, chunks: seq<seq<bv8>>, aligned: nat -> bool, little: bool)
    requires e.Encrypting(sealed, [])
    requires |Gmac.Flatten(chunks)| <= e.output.Length && |Gmac.Flatten(chunks)| < WORD32
    modifies e.ctr, e.output
    ensures e.Encrypting(sealed, Gmac.Flatten(chunks))
  {
    hide AesInstance.Ready, Gmac.Flatten, CtrIv, Ctr.Counter, Ctr.Partial;
    FlattenNone(chunks);
    for i := 0 to |chunks|
      invariant e.Encrypting(sealed, Gmac.Flatten(chunks[..i]))
    {
      FlattenStep(chunks, i);
      e.Update2(chunks[i], aligned(i), little, sealed, Gmac.Flatten(chunks[..i]));
    }
    assert chunks[..|chunks|] == chunks;
  }

  /** How a machine hands over buffers: its byte order, and which chunks lie on word boundaries. */
  datatype Machine = Machine(little: bool, aligned: nat -> bool)

  /** Both passes over the same plaintext, each in chunks of its own, produce the sealed message. */
  method SealChunks(k0: AesInstance.Instance, k1: AesInstance.Instance, iv: Iv, aad: seq<bv8>,
                    chunks1: seq<seq<bv8>>, chunks2: seq<seq<bv8>>, m: Machine, output: array<bv8>) returns (tag: Block)
    requires AesInstance.Ready(k0) && AesInstance.Ready(k1)
    requires Gmac.Flatten(chunks1) == Gmac.Flatten(chunks2)
    requires |Gmac.Flatten(chunks2)| <= output.Length && |Gmac.Flatten(chunks2)| < WORD32
    modifies output
    ensures Sealed(tag, output[..|Gmac.Flatten(chunks2)|]) ==
            Seal(Keys(k0.keyed, k1.keyed), iv, aad, Gmac.Flatten(chunks2))
  {
    hide Gmac.Pad16, Gmac.Flatten, Gmac.Tag, Gmac.Prefix, Gmac.HashKey, Fold, CtrIv, Ctr.WithKeyStream, Ctr.Partial, Ctr.Counter,
      AesInstance.Ready;
    ghost var text := Gmac.Flatten(chunks2);
    ghost var head := Gmac.Pad16(aad);
    var e := new Encryptor(k0, k1);
    e.Init(iv, output);
    e.Aad(aad, iv);
    FirstPass(e, iv, Gmac.Pad16(aad), chunks1);
    e.Finish1(iv, head + text);
    tag := e.tag;
    SecondPass(e, tag, chunks2, m.aligned, m.little);
    tag := e.Finish2(tag, text);
  }

  lemma FlattenNone(chunks: seq<seq<bv8>>)
    ensures Gmac.Flatten(chunks[..0]) == []
  {
  }

  /** One pass over the ciphertext, in any chunks, opens the sealed message. */
  method OpenChunks(k0: AesInstance.Instance, k1: AesInstance.Instance, tag: Block, aad: seq<bv8>,
                    chunks: seq<seq<bv8>>, m: Machine, output: array<bv8>) returns (ok: bool)
    requires AesInstance.Ready(k0) && AesInstance.Ready(k1)
    requires |Gmac.Flatten(chunks)| <= output.Length && |Gmac.Flatten(chunks)| < WORD32
    modifies output
    ensures Opened(output[..|Gmac.Flatten(chunks)|], ok) ==
            Open(Keys(k0.keyed, k1.keyed), aad, Sealed(tag, Gmac.Flatten(chunks)))
  {
    hide Gmac.Pad16, Gmac.Flatten, Gmac.Tag, Fold, CtrIv, Ctr.WithKeyStream, AesInstance.Ready, Ctr.Partial, Ctr.Counter,
      Gmac.Prefix, Gmac.HashKey;
    var d := new Decryptor(k0, k1);
    d.Init(tag, output);
    d.Aad(aad, tag);
    FlattenNone(chunks);
    for i := 0 to |chunks|
      invariant d.Decrypting(tag, Gmac.Pad16(aad), Gmac.Flatten(chunks[..i])) && d.output == output
      modifies d, d.ctr, output
    {
      FlattenStep(chunks, i);
      d.Update(chunks[i], m.aligned(i), m.little, tag, Gmac.Pad16(aad), Gmac.Flatten(chunks[..i]));
    }
    assert chunks[..|chunks|] == chunks;
    ok := d.Finish(tag, Gmac.Pad16(aad), Gmac.Flatten(chunks));
  }

  /**
   The round trip through the objects, from the two keys: the message is sealed and opened by
   AES objects of either kind on machines of either kind, cut up in three independent ways,
   and ends with the message and success.
   */
  method RoundTrip(key0: Aes.Key, key1: Aes.Key, aesni: bool, aesni': bool, m: Machine, m': Machine,
                   iv: Iv, aad: seq<bv8>, chunks1: seq<seq<bv8>>, chunks2: seq<seq<bv8>>,
                   cut: seq<bv8> -> seq<seq<bv8>>, output: array<bv8>, output': array<bv8>) returns (ok: bool)
    requires Gmac.Flatten(chunks1) == Gmac.Flatten(chunks2)
    requires forall c :: Gmac.Flatten(cut(c)) == c
    requires |Gmac.Flatten(chunks2)| <= output.Length && |Gmac.Flatten(chunks2)| <= output'.Length
    requires |Gmac.Flatten(chunks2)| < WORD32 && output != output'
    modifies output, output'
    ensures ok && output'[..|Gmac.Flatten(chunks2)|] == Gmac.Flatten(chunks2)
  {
    hide Gmac.Flatten, Seal, Open, AesInstance.Ready;
    ghost var text := Gmac.Flatten(chunks2);
    var n := Length(chunks2);
    var k0 := new AesInstance.Instance(key0, aesni);
    var k1 := new AesInstance.Instance(key1, aesni);
    var tag := SealChunks(k0, k1, iv, aad, chunks1, chunks2, m, output);
    var j0 := new AesInstance.Instance(key0, aesni');
    var j1 := new AesInstance.Instance(key1, aesni');
    AesInstance.SameKeySameCipher(k0, j0);
    AesInstance.SameKeySameCipher(k1, j1);
    AesInstance.IsPermutation(k1);
    OpenAfterSeal(Keys(k0.keyed, k1.keyed), iv, aad, text);
    ok := OpenChunks(j0, j1, tag, aad, cut(output[..n]), m', output');
  }

  method Length(chunks: seq<seq<bv8>>) returns (n: nat)
    ensures n == |Gmac.Flatten(chunks)|
  {
    n := 0;
    FlattenNone(chunks);
    for i := 0 to |chunks|
      invariant n == |Gmac.Flatten(chunks[..i])|
    {
      FlattenStep(chunks, i);
      n := n + |chunks[i]|;
    }
    assert chunks[..|chunks|] == chunks;
  }
}
