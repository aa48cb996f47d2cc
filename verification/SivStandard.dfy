/**
 AES-GMAC-SIV in one formula: which bytes a sealed message consists of, from the block ciphers
 and GMAC alone.
 */
module SivStandard {
  import opened BlockCipher
  import opened Common
  import opened GmacStandard
  import opened Siv
  import Ctr
  import Gmac

  /** The GMAC of additional data and plaintext under the padded vector. */
  function FullTag(k: Keys, iv: Siv.Iv, aad: seq<bv8>, text: seq<bv8>): Block {
    GmacOf(k.k0, iv + [0, 0, 0, 0], aad + seq(Fill(|aad|), _ => 0) + text)
  }

  /** Block j of the counter stream of a sealed message: the tag, its last word modulo 2^31 counting up. */
  function CounterBlock(tag: Block, j: nat): Block {
    tag[..12] + Ctr.BigEndian((Ctr.Number(tag[12..]) % (WORD32 / 2) + j) % WORD32, 4)
  }

  /**
   The tag of a sealed message is the second cipher applied to the vector and the two halves of
   the GMAC combined; the text is the plaintext combined with the second cipher's stream.
   */
  lemma SealIs(k: Keys, iv: Siv.Iv, aad: seq<bv8>, text: seq<bv8>)
    ensures var (sealed, t) := (Seal(k, iv, aad, text), FullTag(k, iv, aad, text));
            && sealed.tag == k.k1.enc(iv + seq(8, i requires 0 <= i < 8 => t[i] ^ t[i + 8]))
            && |sealed.text| == |text|
            && forall i :: 0 <= i < |text| ==> sealed.text[i] == text[i] ^ k.k1.enc(CounterBlock(sealed.tag, i / 16))[i % 16]
  {
    hide GmacOf, Gmac.Tag, CtrIv, Ctr.WithKeyStream, CounterBlock;
    var tag := Seal(k, iv, aad, text).tag;
    assert aad + seq(Fill(|aad|), _ => 0) == Gmac.Pad16(aad);
    TagIsGmac(k.k0, iv + [0, 0, 0, 0], Gmac.Pad16(aad) + text);
    forall i | 0 <= i < |text|
      ensures Seal(k, iv, aad, text).text[i] == text[i] ^ k.k1.enc(CounterBlock(tag, i / 16))[i % 16]
    {
      Ctr.WithKeyStreamAt(k.k1, false, CtrIv(tag), text, i);
      CounterBlockIs(tag, i / 16);
    }
  }

  lemma CounterBlockIs(tag: Block, j: nat)
    ensures Ctr.Counter(false, CtrIv(tag), j) == CounterBlock(tag, j)
  {
    hide CtrIv, Ctr.Counter, Ctr.BigEndian, Ctr.Number;
    CtrIvIs(tag);
    Ctr.CounterClosedForm(false, CtrIv(tag), j);
  }
}
