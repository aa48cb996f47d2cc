/**
 A keyed AES object: its schedules as its constructor computes them, in software or for the
 processor's AES instructions, and the block functions that choose between the two.
 */
module AesInstance {
  import opened Aes
  import opened BlockCipher
  import AesNi
  import GfMulNi

  /** Holds of the object's own key only. Ready quantifies over it so that SetUp stays folded in proofs. */
  predicate HasKey(i: Instance, k: Key) { k == i.key }

  /** The schedules in use are those of a key, and the object computes AES under it. */
  ghost predicate SetUp(i: Instance, k: Key) {
    && i.keyed == KeyedBy(Expanded(k))
    && (i.aesni ==> AesNi.Scheduled(i.ni, Expanded(k)))
    && (!i.aesni ==> i.ek == Expanded(k) && i.dk == Inverted(Expanded(k)))
    && i.h == i.keyed.enc(ZERO_BLOCK)
    && (i.aesni ==> i.powers == GfMulNi.Precompute(BlockBits(i.h)))
  }

  /** The object is set up for its key. */
  ghost predicate Ready(i: Instance) {
    forall k: Key :: HasKey(i, k) ==> SetUp(i, k)
  }

  lemma ReadyIs(i: Instance)
    ensures Ready(i) <==> SetUp(i, i.key)
  {
    hide SetUp;
    assert HasKey(i, i.key);
  }

  class Instance {
    const key: Key
    /** Whether the processor has the AES instructions. */
    const aesni: bool
    /** The schedules of the software implementation. */
    const ek: Schedule
    const dk: Schedule
    /** The registers of the hardware implementation. */
    const ni: seq<State>
    /** The hash key of GHASH. */
    const h: Block
    /** Its powers for the aggregated hardware loop. */
    const powers: GfMulNi.Powers
    /** What the object computes. */
    ghost const keyed: Keyed

    constructor (key: Key, aesni: bool)
      ensures this.key == key && this.aesni == aesni && Ready(this)
    {
      hide Expanded, Inverted, KeyedBy, AesNi.Scheduled, Ready, GfMulNi.Precompute, BlockBits;
      this.key, this.aesni := key, aesni;
      keyed := KeyedBy(Expanded(key));
      if aesni {
        var k := AesNi.InitNi(key);
        ni := k;
        var zero := AesNi.EncryptNi(k, Expanded(key), ZERO_BLOCK);
        h, powers := zero, GfMulNi.Precompute(BlockBits(zero));
        ek, dk := seq(60, _ => 0), seq(60, _ => 0);
      } else {
        var e, d := new bv32[60], new bv32[60];
        var zero := InitSW(key, e, d);
        h, ek, dk, ni := zero, e[..], d[..], [];
        powers := GfMulNi.NO_POWERS;
      }
      new;
      ReadyIs(this);
    }

    method Encrypt(b: Block) returns (r: Block)
      requires Ready(this)
      ensures r == keyed.enc(b)
    {
      hide Expanded, Inverted, KeyedBy, AesNi.Scheduled, Ready;
      ReadyIs(this);
      if aesni {
        r := AesNi.EncryptNi(ni, Expanded(key), b);
      } else {
        r := EncryptSW(ek, b);
      }
    }

    method Decrypt(b: Block) returns (r: Block)
      requires Ready(this)
      ensures r == keyed.dec(b)
    {
      hide Expanded, Inverted, KeyedBy, AesNi.Scheduled, Ready;
      ReadyIs(this);
      if aesni {
        r := AesNi.DecryptNi(ni, Expanded(key), b);
      } else {
        r := DecryptSW(dk, b);
      }
    }
  }

  lemma SoftwareSchedule(i: Instance)
    requires Ready(i) && !i.aesni
    ensures KeyedBy(i.ek) == i.keyed
  {
    hide Expanded, Inverted, KeyedBy, Ready;
    ReadyIs(i);
  }

  /** Each of the two functions undoes the other, for every key. */
  lemma IsPermutation(i: Instance)
    requires Ready(i)
    ensures i.keyed.Permutation()
  {
    hide Expanded, Inverted, KeyedBy, AesNi.Scheduled, Ready;
    ReadyIs(i);
    AesIsPermutation(Expanded(i.key));
  }

  lemma HashKeyBlock(i: Instance)
    requires Ready(i)
    ensures i.h == i.keyed.enc(ZERO_BLOCK)
  {
    hide Expanded, Inverted, KeyedBy, AesNi.Scheduled, Ready;
    ReadyIs(i);
  }

  lemma PowersOfHashKey(i: Instance)
    requires Ready(i) && i.aesni
    ensures i.powers == GfMulNi.Precompute(BlockBits(i.h))
  {
    hide Expanded, Inverted, KeyedBy, Ready, GfMulNi.Precompute, BlockBits, AesNi.Scheduled;
    ReadyIs(i);
  }

  /** Objects with the same key compute the same, whatever the processor. */
  lemma SameKeySameCipher(i: Instance, j: Instance)
    requires Ready(i) && Ready(j) && i.key == j.key
    ensures i.keyed == j.keyed
  {
    hide Expanded, Inverted, KeyedBy, AesNi.Scheduled, Ready;
    ReadyIs(i);
    ReadyIs(j);
  }
}
