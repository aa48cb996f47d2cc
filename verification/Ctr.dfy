/**
 Streaming AES-CTR: the key stream of section 6.5 of NIST SP 800-38A and the object that
 applies it to any sequence of chunks, either with the 32-bit counter of the software path
 or with the 64-bit counter of the hardware path.
 */
module Ctr {
  import opened AesCore
  import opened BlockCipher
  import opened Common
  import Aes
  import AesInstance
  import CtrBlocks

  // ---- counters ----

  function ToByte(v: nat): bv8
    requires v < 256
  {
    v as bv8
  }

  function FromByte(b: bv8): (v: nat)
    ensures v < 256
  {
    b as nat
  }

  lemma ToFromByte(b: bv8)
    ensures ToByte(FromByte(b)) == b
  {
  }

  lemma ByteSuccessor(b: bv8)
    requires FromByte(b) < 255
    ensures FromByte(b + 1) == FromByte(b) + 1
  {
    assert b != 0xff;
  }

  lemma {:induction false} FromToByte(v: nat)
    requires v < 256
    ensures FromByte(ToByte(v)) == v
  {
    if v == 0 {
      ToFromByte(0);
    } else {
      hide FromByte, ToByte;
      FromToByte(v - 1);
      ByteSuccessor(ToByte(v - 1));
      ToFromByte(ToByte(v - 1) + 1);
    }
  }

  /** The low n bytes of v, most significant first. */
  function BigEndian(v: nat, n: nat): (s: seq<bv8>)
    ensures |s| == n
  {
    if n == 0 then [] else BigEndian(v / 256, n - 1) + [ToByte(v % 256)]
  }

  function Number(s: seq<bv8>): nat {
    if s == [] then 0 else 256 * Number(s[..|s| - 1]) + FromByte(s[|s| - 1])
  }

  /** The next counter block: the software adds one to the last word, the hardware path to the last two. */
  function Next(wide: bool, b: Block): Block {
    if wide then b[..8] + BigEndian((Number(b[8..]) + 1) % (WORD32 * WORD32), 8)
    else b[..12] + BigEndian((Number(b[12..]) + 1) % WORD32, 4)
  }

  /** Counter block j of a stream. */
  function Counter(wide: bool, iv: Block, j: nat): Block {
    if j == 0 then iv else Next(wide, Counter(wide, iv, j - 1))
  }

  // ---- the key stream ----

  /** Byte i of the key stream. */
  function KeyByte(aes: Keyed, wide: bool, iv: Block, i: nat): bv8 {
    aes.enc(Counter(wide, iv, i / 16))[i % 16]
  }

  /** The whole stream at once: the message combined with as much of the key stream. */
  function WithKeyStream(aes: Keyed, wide: bool, iv: Block, message: seq<bv8>): (c: seq<bv8>)
    ensures |c| == |message|
  {
    seq(|message|, i requires 0 <= i < |message| => XorByte(message[i], KeyByte(aes, wide, iv, i)))
  }

  lemma XorTwice(a: bv8, b: bv8)
    ensures XorByte(XorByte(a, b), b) == a
  {
  }

  /** Applying the same key stream twice gives the message back. */
  lemma CryptTwice(aes: Keyed, wide: bool, iv: Block, message: seq<bv8>)
    ensures WithKeyStream(aes, wide, iv, WithKeyStream(aes, wide, iv, message)) == message
  {
    hide KeyByte, XorByte;
    forall i | 0 <= i < |message|
      ensures WithKeyStream(aes, wide, iv, WithKeyStream(aes, wide, iv, message))[i] == message[i]
    {
      XorTwice(message[i], KeyByte(aes, wide, iv, i));
    }
  }

  // ---- the two counters ----

  function Power256(n: nat): (p: nat)
    ensures p > 0
  {
    if n == 0 then 1 else 256 * Power256(n - 1)
  }

  lemma {:induction false} NumberBound(s: seq<bv8>)
    ensures Number(s) < Power256(|s|)
  {
    hide FromByte;
    if |s| > 0 {
      NumberBound(s[..|s| - 1]);
    }
  }

  lemma {:induction false} NumberOfBigEndian(v: nat, n: nat)
    requires v < Power256(n)
    ensures Number(BigEndian(v, n)) == v
  {
    hide FromByte, ToByte;
    if n > 0 {
      NumberOfBigEndian(v / 256, n - 1);
      FromToByte(v % 256);
    }
  }

  lemma LastByte(q: nat, b: nat)
    requires b < 256
    ensures (256 * q + b) / 256 == q && (256 * q + b) % 256 == b
  {
  }

  lemma BigEndianPush(q: nat, b: nat, n: nat)
    requires b < 256
    ensures BigEndian(256 * q + b, n + 1) == BigEndian(q, n) + [ToByte(b)]
  {
    hide ToByte;
    LastByte(q, b);
  }

  lemma {:induction false} BigEndianOfNumber(s: seq<bv8>)
    ensures BigEndian(Number(s), |s|) == s
  {
    hide FromByte, ToByte, BigEndian;
    if |s| > 0 {
      var (init, last) := (s[..|s| - 1], s[|s| - 1]);
      BigEndianOfNumber(init);
      BigEndianPush(Number(init), FromByte(last), |init|);
      ToFromByte(last);
      assert s == init + [last];
    }
  }

  lemma TimesByte(x: nat, p: nat)
    ensures x * (256 * p) == 256 * (x * p)
  {
  }

  lemma NumberPush(s: seq<bv8>, c: bv8)
    ensures Number(s + [c]) == 256 * Number(s) + FromByte(c)
  {
    assert (s + [c])[..|s|] == s;
  }

  lemma {:induction false} NumberConcat(a: seq<bv8>, b: seq<bv8>)
    ensures Number(a + b) == Number(a) * Power256(|b|) + Number(b)
  {
    if |b| == 0 {
      assert a + b == a;
    } else {
      hide FromByte, Number;
      var (b0, c) := (b[..|b| - 1], b[|b| - 1]);
      assert b == b0 + [c];
      assert a + b == a + b0 + [c];
      NumberPush(b0, c);
      NumberPush(a + b0, c);
      NumberConcat(a, b0);
      TimesByte(Number(a), Power256(|b0|));
    }
  }

  lemma {:induction false} BigEndianConcat(u: nat, v: nat, m: nat, n: nat)
    requires v < Power256(n)
    ensures BigEndian(u * Power256(n) + v, m + n) == BigEndian(u, m) + BigEndian(v, n)
  {
    hide ToByte;
    if n == 0 {
      assert BigEndian(u, m) + [] == BigEndian(u, m);
    } else {
      var x := u * Power256(n - 1);
      TimesByte(u, Power256(n - 1));
      assert (256 * x + v) / 256 == x + v / 256 && (256 * x + v) % 256 == v % 256;
      BigEndianConcat(u, v / 256, m, n - 1);
    }
  }

  lemma Powers()
    ensures Power256(4) == WORD32 && Power256(8) == WORD32 * WORD32
  {
    assert Power256(1) == 0x100 && Power256(2) == 0x1_0000 && Power256(3) == 0x100_0000 && Power256(4) == WORD32;
    assert Power256(5) == 0x100 * WORD32 && Power256(6) == 0x1_0000 * WORD32 && Power256(7) == 0x100_0000 * WORD32;
  }

  /** A big-endian number of bytes plus one, the carry falling off the top. */
  function Incremented(s: seq<bv8>): (r: seq<bv8>)
    ensures |r| == |s|
  {
    if s == [] then []
    else if s[|s| - 1] == 0xff then Incremented(s[..|s| - 1]) + [0]
    else s[..|s| - 1] + [s[|s| - 1] + 1]
  }

  lemma {:induction false} IncrementedIsSuccessor(s: seq<bv8>)
    ensures BigEndian((Number(s) + 1) % Power256(|s|), |s|) == Incremented(s)
  {
    hide FromByte, ToByte, BigEndian, Number;
    if |s| > 0 {
      var (init, last) := (s[..|s| - 1], s[|s| - 1]);
      assert s == init + [last];
      NumberPush(init, last);
      NumberBound(init);
      IncrementedIsSuccessor(init);
      SuccessorOfPush(Number(init), Power256(|init|), FromByte(last));
      if last == 0xff {
        LastByteFull(last);
        BigEndianPush((Number(init) + 1) % Power256(|init|), 0, |init|);
        ToFromByte(0);
        FromZero();
      } else {
        LastByteFull(last);
        ByteSuccessor(last);
        ToFromByte(last + 1);
        BigEndianPush(Number(init), FromByte(last + 1), |init|);
        BigEndianOfNumber(init);
      }
    }
  }

  lemma LastByteFull(b: bv8)
    ensures b == 0xff <==> FromByte(b) == 255
  {
    if b != 0xff {
      assert b < 0xff;
    }
  }

  lemma FromZero()
    ensures FromByte(0) == 0
  {
  }

  /** Adding one to 256 q + b below 256 p. */
  lemma SuccessorOfPush(q: nat, p: nat, b: nat)
    requires q < p && b < 256
    ensures b < 255 ==> (256 * q + b + 1) % (256 * p) == 256 * q + (b + 1)
    ensures b == 255 ==> (256 * q + b + 1) % (256 * p) == 256 * ((q + 1) % p)
  {
    if b == 255 && q + 1 == p {
      ModSelf(256 * p);
      ModSelf(p);
    } else {
      ModSmall(256 * q + b + 1, 256 * p);
      if q + 1 < p {
        ModSmall(q + 1, p);
      }
    }
  }

  lemma ModSelf(m: nat)
    requires m > 0
    ensures m % m == 0
  {
  }

  lemma ModSmall(a: nat, m: nat)
    requires a < m
    ensures a % m == a
  {
  }

  lemma IncrementedPush(s: seq<bv8>, b: bv8)
    ensures Incremented(s + [b]) == if b == 0xff then Incremented(s) + [0] else s + [b + 1]
  {
    assert (s + [b])[..|s|] == s;
  }

  lemma IncrementedFour(a: bv8, b: bv8, c: bv8, d: bv8)
    ensures Incremented([a, b, c, d]) ==
            if d != 0xff then [a, b, c, d + 1]
            else if c != 0xff then [a, b, c + 1, 0]
            else if b != 0xff then [a, b + 1, 0, 0]
            else if a != 0xff then [a + 1, 0, 0, 0]
            else [0, 0, 0, 0]
  {
    IncrementedPush([a, b, c], d);
    IncrementedPush([a, b], c);
    IncrementedPush([a], b);
    IncrementedPush([], a);
    hide Incremented;
    assert [a, b, c] + [d] == [a, b, c, d] && [a, b] + [c] == [a, b, c] && [a] + [b] == [a, b] && [] + [a] == [a];
  }

  lemma WordSuccessor(x: bv32)
    ensures var y := x + 1;
            if B0(x) != 0xff then B3(y) == B3(x) && B2(y) == B2(x) && B1(y) == B1(x) && B0(y) == B0(x) + 1
            else if B1(x) != 0xff then B3(y) == B3(x) && B2(y) == B2(x) && B1(y) == B1(x) + 1 && B0(y) == 0
            else if B2(x) != 0xff then B3(y) == B3(x) && B2(y) == B2(x) + 1 && B1(y) == 0 && B0(y) == 0
            else if B3(x) != 0xff then B3(y) == B3(x) + 1 && B2(y) == 0 && B1(y) == 0 && B0(y) == 0
            else B3(y) == 0 && B2(y) == 0 && B1(y) == 0 && B0(y) == 0
  {
  }

  /** The bytes of a counter word in network order. */
  function WordBytes(x: bv32): (s: seq<bv8>)
    ensures |s| == 4
  {
    [B3(x), B2(x), B1(x), B0(x)]
  }

  /** The software's increment of the counter word is the next counter block. */
  lemma NextIsIncrement(b: Block, x: bv32)
    requires b[12..] == WordBytes(x)
    ensures Next(false, b) == b[..12] + WordBytes(x + 1)
  {
    hide B3, B2, B1, B0, BigEndian, Number;
    Powers();
    IncrementedIsSuccessor(WordBytes(x));
    IncrementedFour(B3(x), B2(x), B1(x), B0(x));
    WordSuccessor(x);
  }

  /** Section 6.5 of the standard with a 32-bit incrementing function, and its 64-bit relative. */
  lemma {:induction false} CounterClosedForm(wide: bool, iv: Block, j: nat)
    ensures Counter(wide, iv, j)
         == if wide then iv[..8] + BigEndian((Number(iv[8..]) + j) % (WORD32 * WORD32), 8)
            else iv[..12] + BigEndian((Number(iv[12..]) + j) % WORD32, 4)
  {
    hide BigEndian, Number;
    var (w, n, m) := if wide then (8, 8, WORD32 * WORD32) else (12, 4, WORD32);
    Powers();
    var c := Number(iv[w..]);
    if j == 0 {
      NumberBound(iv[w..]);
      BigEndianOfNumber(iv[w..]);
      assert iv[..w] + iv[w..] == iv;
    } else {
      CounterClosedForm(wide, iv, j - 1);
      var p := (c + (j - 1)) % m;
      var b: Block := iv[..w] + BigEndian(p, n);
      assert b[..w] == iv[..w] && b[w..] == BigEndian(p, n);
      NumberOfBigEndian(p, n);
      ModStep(c + (j - 1), m);
    }
  }

  lemma ModStep(x: nat, m: nat)
    requires m == WORD32 || m == WORD32 * WORD32
    ensures (x % m + 1) % m == (x + 1) % m
  {
    if m == WORD32 {
      ModStep32(x);
    } else {
      ModStep64(x);
    }
  }

  lemma ModStep32(x: nat)
    ensures (x % 0x1_0000_0000 + 1) % 0x1_0000_0000 == (x + 1) % 0x1_0000_0000
  {
    var (q, r) := (x / 0x1_0000_0000, x % 0x1_0000_0000);
    assert x + 1 == 0x1_0000_0000 * q + (r + 1);
  }

  lemma ModStep64(x: nat)
    ensures (x % 0x1_0000_0000_0000_0000 + 1) % 0x1_0000_0000_0000_0000 == (x + 1) % 0x1_0000_0000_0000_0000
  {
    var (q, r) := (x / 0x1_0000_0000_0000_0000, x % 0x1_0000_0000_0000_0000);
    assert x + 1 == 0x1_0000_0000_0000_0000 * q + (r + 1);
  }

  /** The two counters agree on block j exactly when the last word has not overflowed by then. */
  lemma CountersAgree(iv: Block, j: nat)
    requires j < WORD32
    ensures Counter(true, iv, j) == Counter(false, iv, j) <==> Number(iv[12..]) + j < WORD32
  {
    hide BigEndian, Number, Counter;
    var (u, v) := (Number(iv[8..12]), Number(iv[12..]));
    Powers();
    CounterClosedForm(true, iv, j);
    CounterClosedForm(false, iv, j);
    assert iv[8..] == iv[8..12] + iv[12..];
    NumberConcat(iv[8..12], iv[12..]);
    NumberBound(iv[8..12]);
    NumberBound(iv[12..]);
    BigEndianOfNumber(iv[8..12]);
    assert iv[..12] == iv[..8] + iv[8..12];
    if v + j < WORD32 {
      assert u * WORD32 + v + j < WORD32 * WORD32;
      BigEndianConcat(u, v + j, 4, 4);
      assert iv[..8] + (iv[8..12] + BigEndian(v + j, 4)) == iv[..12] + BigEndian(v + j, 4);
    } else {
      var w := v + j - WORD32;
      var u' := (u + 1) % WORD32;
      CarryOut(u, v, j);
      BigEndianConcat(u', w, 4, 4);
      var x := Counter(true, iv, j);
      assert x[8..12] == BigEndian(u', 4);
      if x == Counter(false, iv, j) {
        assert x[8..12] == iv[8..12];
        NumberOfBigEndian(u', 4);
        assert false;
      }
    }
  }

  lemma CarryOut(u: nat, v: nat, j: nat)
    requires u < WORD32 && v < WORD32 && j < WORD32 && v + j >= WORD32
    ensures (u * WORD32 + v + j) % (WORD32 * WORD32) == ((u + 1) % WORD32) * WORD32 + (v + j - WORD32)
  {
    var w := v + j - WORD32;
    assert u * WORD32 + v + j == (u + 1) * WORD32 + w;
  }

  /** Clearing the top bit of the last word keeps both counters together for every 32-bit length. */
  lemma MaskedCountersAgree(iv: Block, j: nat)
    requires iv[12] & 0x80 == 0 && j < WORD32 / 2
    ensures Counter(true, iv, j) == Counter(false, iv, j)
  {
    hide Number, Counter;
    NumberOfMasked(iv[12..]);
    CountersAgree(iv, j);
  }

  lemma NumberOfMasked(s: seq<bv8>)
    requires |s| == 4 && s[0] & 0x80 == 0
    ensures Number(s) < WORD32 / 2
  {
    hide FromByte;
    TopClear(s[0]);
    assert s[..3][..2] == s[..2] && s[..2][..1] == s[..1];
    assert Number(s[..1]) == FromByte(s[0]);
    assert Number(s[..2]) == 256 * Number(s[..1]) + FromByte(s[1]);
    assert Number(s[..3]) == 256 * Number(s[..2]) + FromByte(s[2]);
  }

  lemma TopClear(b: bv8)
    requires b & 0x80 == 0
    ensures FromByte(b) < 128
  {
  }

  /** So the software and the hardware path produce the same bytes from a masked counter. */
  lemma PathsAgree(aes: Keyed, iv: Block, message: seq<bv8>)
    requires iv[12] & 0x80 == 0 && |message| < WORD32
    ensures WithKeyStream(aes, true, iv, message) == WithKeyStream(aes, false, iv, message)
  {
    hide Counter;
    forall i | 0 <= i < |message|
      ensures KeyByte(aes, true, iv, i) == KeyByte(aes, false, iv, i)
    {
      MaskedCountersAgree(iv, i / 16);
    }
  }

  // ---- streaming ----

  /** What the output holds between calls: whole blocks in their final form, the tail as it came in. */
  function Partial(aes: Keyed, wide: bool, iv: Block, data: seq<bv8>): (s: seq<bv8>)
    ensures |s| == |data|
  {
    WithKeyStream(aes, wide, iv, data[..Whole(|data|)]) + data[Whole(|data|)..]
  }

  lemma KeyByteAt(aes: Keyed, wide: bool, iv: Block, n: nat, i: nat)
    requires n % 16 == 0 && n <= i < n + 16
    ensures KeyByte(aes, wide, iv, i) == aes.enc(Counter(wide, iv, n / 16))[i - n]
  {
    hide Counter;
    assert i / 16 == n / 16 && i % 16 == i - n;
  }

  lemma WithKeyStreamAt(aes: Keyed, wide: bool, iv: Block, message: seq<bv8>, i: nat)
    requires i < |message|
    ensures WithKeyStream(aes, wide, iv, message)[i] == XorByte(message[i], KeyByte(aes, wide, iv, i))
  {
    hide KeyByte, XorByte;
  }

  lemma XorBytesAt(a: seq<bv8>, stream: Block, i: nat)
    requires i < |a| <= 16
    ensures XorBytes(a, stream)[i] == XorByte(a[i], stream[i])
  {
    hide XorByte;
  }

  /** More bytes of message, and the bytes of key stream they meet. */
  lemma Extend(aes: Keyed, wide: bool, iv: Block, data: seq<bv8>, b: seq<bv8>, stream: Block)
    requires |b| <= 16
    requires forall i :: 0 <= i < |b| ==> KeyByte(aes, wide, iv, |data| + i) == stream[i]
    ensures WithKeyStream(aes, wide, iv, data + b) == WithKeyStream(aes, wide, iv, data) + XorBytes(b, stream)
  {
    hide KeyByte, WithKeyStream, XorBytes, XorByte;
    var n := |data|;
    var (x, y) := (WithKeyStream(aes, wide, iv, data + b), WithKeyStream(aes, wide, iv, data));
    forall i | 0 <= i < n
      ensures x[i] == y[i]
    {
      WithKeyStreamAt(aes, wide, iv, data + b, i);
      WithKeyStreamAt(aes, wide, iv, data, i);
    }
    forall i | 0 <= i < |b|
      ensures x[n + i] == XorBytes(b, stream)[i]
    {
      WithKeyStreamAt(aes, wide, iv, data + b, n + i);
      XorBytesAt(b, stream, i);
    }
    assert x[..n] == y;
    assert x[n..] == XorBytes(b, stream);
  }

  /** One more block, or a last incomplete one. */
  lemma CryptPush(aes: Keyed, wide: bool, iv: Block, data: seq<bv8>, b: seq<bv8>)
    requires |data| % 16 == 0 && |b| <= 16
    ensures WithKeyStream(aes, wide, iv, data + b)
         == WithKeyStream(aes, wide, iv, data) + XorBytes(b, aes.enc(Counter(wide, iv, |data| / 16)))
  {
    hide Counter, KeyByte, WithKeyStream, XorBytes;
    var stream := aes.enc(Counter(wide, iv, |data| / 16));
    forall i | 0 <= i < |b|
      ensures KeyByte(aes, wide, iv, |data| + i) == stream[i]
    {
      KeyByteAt(aes, wide, iv, |data|, |data| + i);
    }
    Extend(aes, wide, iv, data, b, stream);
  }

  /** At a block boundary nothing is pending. */
  lemma PartialWhole(aes: Keyed, wide: bool, iv: Block, data: seq<bv8>)
    requires |data| % 16 == 0
    ensures Partial(aes, wide, iv, data) == WithKeyStream(aes, wide, iv, data)
  {
    hide WithKeyStream;
    WholeIs(|data|, |data|);
    assert data[..|data|] == data;
  }

  /** Fewer bytes than complete a block stay as they are. */
  lemma PartialTail(aes: Keyed, wide: bool, iv: Block, data: seq<bv8>, more: seq<bv8>)
    requires |data| - Whole(|data|) + |more| < 16
    ensures Partial(aes, wide, iv, data + more) == Partial(aes, wide, iv, data) + more
    ensures Whole(|data + more|) == Whole(|data|) && |data + more| / 16 == |data| / 16
  {
    hide WithKeyStream, Whole;
    var k := Whole(|data|);
    WholeIs(|data + more|, k);
    assert (data + more)[..k] == data[..k];
  }

  /** Bytes that complete a block put its exclusive or with the key stream in place of the pending tail. */
  lemma PartialComplete(aes: Keyed, wide: bool, iv: Block, data: seq<bv8>, more: seq<bv8>)
    requires |data| - Whole(|data|) + |more| == 16
    ensures var (k, b) := (Whole(|data|), data[Whole(|data|)..] + more);
            && Partial(aes, wide, iv, data + more)
               == Partial(aes, wide, iv, data)[..k] + XorBytes(b, aes.enc(Counter(wide, iv, |data| / 16)))
            && |data + more| / 16 == |data| / 16 + 1 && |data + more| % 16 == 0
  {
    hide WithKeyStream, Whole, Counter, XorBytes;
    var (k, b) := (Whole(|data|), data[Whole(|data|)..] + more);
    assert data + more == data[..k] + b;
    CryptPush(aes, wide, iv, data[..k], b);
    PartialWhole(aes, wide, iv, data + more);
    assert k / 16 == |data| / 16;
  }

  class Ctr {
    const cipher: AesInstance.Instance
    /** What the cipher computes. */
    ghost const aes: Keyed := cipher.keyed
    /** Whether the hardware path, with its 64-bit counter and four blocks a turn, is taken. */
    ghost const aesni: bool := cipher.aesni
    var out: array<bv8>
    var ctr: Block
    var len: nat
    ghost var iv: Block
    ghost var data: seq<bv8>

    /** The output after the bytes of d. */
    ghost predicate HoldsOut(d: seq<bv8>)
      reads `out, `iv, out
    {
      AesInstance.Ready(cipher) && |d| <= out.Length && out[..|d|] == Partial(aes, aesni, iv, d)
    }

    /** The state after the bytes of d. */
    ghost predicate Holds(d: seq<bv8>)
      reads `out, `iv, `ctr, out
    {
      HoldsOut(d) && ctr == Counter(aesni, iv, |d| / 16)
    }

    ghost predicate Valid()
      reads this, out
    {
      Holds(data) && len == |data| < WORD32
    }

    constructor (cipher: AesInstance.Instance)
      requires AesInstance.Ready(cipher)
      ensures this.cipher == cipher
    {
      this.cipher := cipher;
      out := new bv8[0];
      ctr, len := ZERO_BLOCK, 0;
      iv, data := ZERO_BLOCK, [];
    }

    method Init(iv: Block, output: array<bv8>)
      requires AesInstance.Ready(cipher)
      modifies this
      ensures Valid() && data == [] && this.iv == iv && out == output
    {
      hide AesInstance.Ready, Next;
      ctr := iv;
      out := output;
      len := 0;
      this.iv, data := iv, [];
    }

    /** Combines the block at position p of the output with a block of key stream, in place. */
    method XorInto(p: nat, stream: Block)
      requires p + 16 <= out.Length
      modifies out
      ensures out[..p] == old(out[..p])
      ensures out[p..p + 16] == XorBytes(old(out[p..p + 16]), stream)
    {
      hide AesInstance.Ready, XorByte;
      for i := 0 to 16
        invariant forall j :: 0 <= j < p ==> out[j] == old(out[j])
        invariant forall j :: p <= j < p + i ==> out[j] == XorByte(old(out[j]), stream[j - p])
        invariant forall j :: p + i <= j < p + 16 ==> out[j] == old(out[j])
      {
        out[p + i] := XorByte(out[p + i], stream[i]);
      }
    }

    /** Copies input bytes behind a pending tail until a block is full or the input ends. */
    method Fill(input: seq<bv8>, pos: nat) returns (i: nat)
      requires pos % 16 != 0 && pos + |input| <= out.Length
      modifies out
      ensures i <= |input| && i <= 16 - pos % 16
      ensures i == |input| || i == 16 - pos % 16
      ensures out[..pos + i] == old(out[..pos]) + input[..i]
    {
      i := 0;
      while true
        invariant i <= |input| && i < 16 - pos % 16
        invariant out[..pos + i] == old(out[..pos]) + input[..i]
        decreases |input| - i
      {
        if i == |input| {
          return;
        }
        out[pos + i] := input[i];
        i := i + 1;
        if i == 16 - pos % 16 {
          break;
        }
      }
    }

    /** Combines a pending block that is full with its block of key stream. */
    method CombinePending(p: nat, ghost d: seq<bv8>, ghost more: seq<bv8>)
      requires p == Whole(|d|) && p + 16 == |d| + |more| <= out.Length && 0 < |more| < 16
      requires AesInstance.Ready(cipher) && out[..p + 16] == Partial(aes, aesni, iv, d) + more && ctr == Counter(aesni, iv, |d| / 16)
      modifies out, `ctr
      ensures Holds(d + more) && |d + more| % 16 == 0
    {
      hide AesInstance.Ready, Partial, Counter, Next, Whole, XorBytes;
      FilledBlock(aes, aesni, iv, d, more, out[..p + 16]);
      assert out[p..p + 16] == out[..p + 16][p..];
      var stream := cipher.Encrypt(ctr);
      XorInto(p, stream);
      assert out[..p + 16] == out[..p] + out[p..p + 16];
      CounterStep(aesni, iv, |d| / 16);
      ctr := Next(cipher.aesni, ctr);
    }

    /** Completes the block pending from earlier calls, as far as the input reaches. */
    method Complete(input: seq<bv8>, pos: nat, ghost d: seq<bv8>) returns (i: nat)
      requires Holds(d) && pos == |d| && pos % 16 != 0 && pos + |input| <= out.Length
      modifies out, `ctr
      ensures i <= |input| && Holds(d + input[..i])
      ensures i < |input| ==> (pos + i) % 16 == 0
    {
      hide AesInstance.Ready, Partial, Counter, Whole;
      WholeIs(pos, pos - pos % 16);
      i := Fill(input, pos);
      if i == 16 - pos % 16 {
        CombinePending(pos + i - 16, d, input[..i]);
      } else {
        PartialTail(aes, aesni, iv, d, input[..i]);
      }
    }

    /** Writes a block at position p of the output. */
    method PutBlock(p: nat, block: Block)
      requires p + 16 <= out.Length
      modifies out
      ensures out[..p + 16] == old(out[..p]) + block
    {
      for i := 0 to 16
        invariant forall j :: 0 <= j < p ==> out[j] == old(out[j])
        invariant forall j :: p <= j < p + i ==> out[j] == block[j - p]
      {
        out[p + i] := block[i];
      }
    }

    /** A block combined with its block of key stream goes behind the whole blocks before it. */
    method PutCrypted(block: Block, r: Block, pos: nat, ghost d: seq<bv8>)
      requires HoldsOut(d) && pos == |d| && pos % 16 == 0 && pos + 16 <= out.Length
      requires r == XorBytes(block, aes.enc(Counter(aesni, iv, pos / 16)))
      modifies out
      ensures HoldsOut(d + block)
    {
      hide AesInstance.Ready, WithKeyStream, Counter, XorBytes, Whole;
      PutBlock(pos, r);
      CryptPush(aes, aesni, iv, d, block);
      PartialWhole(aes, aesni, iv, d);
      PartialWhole(aes, aesni, iv, d + block);
    }

    /** One whole block of the input on the hardware path, straight to the output. */
    method CryptBlock(block: Block, pos: nat, ghost d: seq<bv8>)
      requires Holds(d) && pos == |d| && pos % 16 == 0 && pos + 16 <= out.Length
      modifies out, `ctr
      ensures Holds(d + block)
    {
      hide AesInstance.Ready, Partial, Counter, Next, XorBytes;
      var stream := cipher.Encrypt(ctr);
      PutCrypted(block, XorBytes(block, stream), pos, d);
      CounterStep(aesni, iv, pos / 16);
      ctr := Next(cipher.aesni, ctr);
    }

    /**
     The software loops over blocks, from position i of the input on: the rounds in place, with
     the words of the counter block that do not change precomputed, and the running counter
     written back at the end. Alignment and byte order choose how a block is combined.
     */
    method CryptUnrolled(input: seq<bv8>, i: nat, pos: nat, aligned: bool, little: bool, ghost d: seq<bv8>) returns (p: nat)
      requires !aesni && Holds(d) && pos == |d| && pos % 16 == 0 && i <= |input| && pos + (|input| - i) <= out.Length
      modifies out, `ctr
      ensures i <= p <= |input| < p + 16 && (p - i) % 16 == 0 && Holds(d + input[i..p])
    {
      hide AesInstance.Ready, Partial, Counter, XorBytes, WordBytes, HoldsOut, Aes.KeyedBy, Aes.Load, Aes.Store, CtrBlocks.FixedOf;
      CipherReady(d);
      AesInstance.SoftwareSchedule(cipher);
      p := i;
      assert d + input[i..p] == d;
      var c := Aes.Load(ctr);
      var fixed := CtrBlocks.FixedOf(cipher.ek, c);
      var counter := c.c3;
      Aes.StoreLoad(ctr);
      assert c == c.(c3 := counter);
      while |input| - p >= 16
        invariant i <= p <= |input| && (p - i) % 16 == 0 && HoldsOut(d + input[i..p])
        invariant Counter(aesni, iv, (pos + (p - i)) / 16) == Aes.Store(c.(c3 := counter))
        modifies out
      {
        var block: Block := input[p..p + 16];
        var r := CtrBlocks.InnerBlock(cipher.ek, fixed, counter, block, aligned, little, c);
        PutCrypted(block, r, pos + (p - i), d + input[i..p]);
        NextStored(iv, (pos + (p - i)) / 16, c, counter);
        counter := counter + 1;
        AppendSlices(d, input, i, p, p + 16);
        p := p + 16;
      }
      StoreCounter(c, c.c3, counter);
      ctr := ctr[..12] + WordBytes(counter);
    }

    lemma CipherReady(d: seq<bv8>)
      requires HoldsOut(d)
      ensures AesInstance.Ready(cipher)
    {
    }

    /** The hardware loop: four blocks a turn from position i of the input on. */
    method CryptQuads(input: seq<bv8>, i: nat, pos: nat, ghost d: seq<bv8>) returns (p: nat)
      requires Holds(d) && pos == |d| && pos % 16 == 0 && i <= |input| && pos + (|input| - i) <= out.Length
      modifies out, `ctr
      ensures i <= p <= |input| && (p - i) % 16 == 0 && Holds(d + input[i..p])
    {
      hide *;
      p := i;
      assert d + input[i..p] == d;
      while |input| - p >= 64
        invariant i <= p <= |input| && (p - i) % 16 == 0 && Holds(d + input[i..p])
      {
        ghost var e := d + input[i..p];
        var q := pos + (p - i);
        var (b0, b1, b2, b3) := (input[p..p + 16], input[p + 16..p + 32], input[p + 32..p + 48], input[p + 48..p + 64]);
        CryptBlock(b0, q, e);
        CryptBlock(b1, q + 16, e + b0);
        CryptBlock(b2, q + 32, e + b0 + b1);
        CryptBlock(b3, q + 48, e + b0 + b1 + b2);
        AppendSlices(e, input, p, p + 16, p + 32);
        AppendSlices(e, input, p, p + 32, p + 48);
        AppendSlices(e, input, p, p + 48, p + 64);
        AppendSlices(d, input, i, p, p + 64);
        p := p + 64;
      }
    }

    /** The loop over single blocks from position i of the input on. */
    method CryptSingles(input: seq<bv8>, i: nat, pos: nat, ghost d: seq<bv8>) returns (p: nat)
      requires Holds(d) && pos == |d| && pos % 16 == 0 && i <= |input| && pos + (|input| - i) <= out.Length
      modifies out, `ctr
      ensures i <= p <= |input| < p + 16 && (p - i) % 16 == 0 && Holds(d + input[i..p])
    {
      hide *;
      p := i;
      assert d + input[i..p] == d;
      while |input| - p >= 16
        invariant i <= p <= |input| && (p - i) % 16 == 0 && Holds(d + input[i..p])
      {
        CryptBlock(input[p..p + 16], pos + (p - i), d + input[i..p]);
        AppendSlices(d, input, i, p, p + 16);
        p := p + 16;
      }
    }

    /** The hardware loops: four blocks at a time, then one at a time. */
    method CryptHardware(input: seq<bv8>, i: nat, pos: nat, ghost d: seq<bv8>) returns (p: nat)
      requires Holds(d) && pos == |d| && pos % 16 == 0 && i <= |input| && pos + (|input| - i) <= out.Length
      modifies out, `ctr
      ensures i <= p <= |input| < p + 16 && (p - i) % 16 == 0 && Holds(d + input[i..p])
    {
      hide *;
      var q := CryptQuads(input, i, pos, d);
      p := CryptSingles(input, q, pos + (q - i), d + input[i..q]);
      AppendSlices(d, input, i, q, p);
    }

    /** The last loop: what is left of the input waits, as it is, at the end of the output. */
    method Keep(input: seq<bv8>, i: nat, pos: nat, ghost d: seq<bv8>)
      requires Holds(d) && pos == |d| && pos % 16 == 0 && i <= |input| < i + 16 && pos + (|input| - i) <= out.Length
      modifies out
      ensures Holds(d + input[i..])
    {
      hide AesInstance.Ready, Partial, Counter;
      for j := i to |input|
        invariant out[..pos + (j - i)] == old(out[..pos]) + input[i..j]
      {
        out[pos + (j - i)] := input[j];
      }
      WholeIs(pos, pos);
      PartialTail(aes, aesni, iv, d, input[i..]);
    }

    /** From a block boundary of the message on: whole blocks, then the tail. */
    method CryptRest(input: seq<bv8>, i: nat, pos: nat, aligned: bool, little: bool, ghost d: seq<bv8>)
      requires Holds(d) && pos == |d| && pos % 16 == 0 && i <= |input| && pos + (|input| - i) <= out.Length
      modifies out, `ctr
      ensures Holds(d + input[i..])
    {
      hide *;
      PathOfCipher();
      var p;
      if cipher.aesni {
        p := CryptHardware(input, i, pos, d);
      } else {
        p := CryptUnrolled(input, i, pos, aligned, little, d);
      }
      Keep(input, p, pos + (p - i), d + input[i..p]);
      AppendSlices(d, input, i, p, |input|);
      assert input[p..|input|] == input[p..] && input[i..|input|] == input[i..];
    }

    lemma PathOfCipher()
      ensures aesni == cipher.aesni
    {
    }

    /** CTR::crypt; aligned and little describe the buffers and the machine. */
    method Crypt(input: seq<bv8>, aligned: bool, little: bool)
      requires Valid() && len + |input| <= out.Length && len + |input| < WORD32
      modifies `ctr, `len, `data, out
      ensures Valid() && data == old(data) + input
    {
      hide AesInstance.Ready, Partial, Counter;
      var i := 0;
      assert data + input[..0] == data;
      if len % 16 != 0 {
        i := Complete(input, len, data);
      }
      ghost var d := data + input[..i];
      if i < |input| {
        CryptRest(input, i, len + i, aligned, little, d);
      }
      assert d + input[i..] == data + input;
      assert i == |input| ==> d == data + input;
      len := len + |input|;
      data := data + input;
    }

    /** CTR::finish: the bytes of an incomplete last block. */
    method Finish()
      requires Valid()
      modifies out
      ensures out[..len] == WithKeyStream(aes, aesni, iv, data)
    {
      hide AesInstance.Ready, WithKeyStream, Counter, XorByte;
      var rem := len % 16;
      var k := len - rem;
      WholeIs(len, k);
      if rem != 0 {
        var tmp := cipher.Encrypt(ctr);
        for i := 0 to rem
          invariant out[..k] == old(out[..k])
          invariant forall j :: k <= j < k + i ==> out[j] == XorByte(old(out[j]), tmp[j - k])
          invariant forall j :: k + i <= j < len ==> out[j] == old(out[j])
        {
          out[k + i] := XorByte(out[k + i], tmp[i]);
        }
        TailCrypted(aes, aesni, iv, data, tmp, old(out[..len]), out[..len]);
      } else {
        PartialWhole(aes, aesni, iv, data);
      }
    }
  }

  /** The counter block with its last word replaced. */
  lemma StoreCounter(c: Aes.State, x: bv32, y: bv32)
    ensures Aes.Store(c.(c3 := x))[12..] == WordBytes(x)
    ensures Aes.Store(c.(c3 := y)) == Aes.Store(c.(c3 := x))[..12] + WordBytes(y)
  {
    hide B3, B2, B1, B0;
  }

  /** The running counter plus one stands for the next counter block. */
  lemma NextStored(iv: Block, n: nat, c: Aes.State, x: bv32)
    requires Counter(false, iv, n) == Aes.Store(c.(c3 := x))
    ensures Counter(false, iv, n + 1) == Aes.Store(c.(c3 := x + 1))
  {
    hide Aes.Store, Next, WordBytes;
    StoreCounter(c, x, x + 1);
    NextIsIncrement(Aes.Store(c.(c3 := x)), x);
    CounterStep(false, iv, n);
  }

  /** Combining the pending tail with its block of key stream finishes the stream. */
  lemma TailCrypted(aes: Keyed, wide: bool, iv: Block, data: seq<bv8>, stream: Block, held: seq<bv8>, done: seq<bv8>)
    requires held == Partial(aes, wide, iv, data) && |done| == |data|
    requires stream == aes.enc(Counter(wide, iv, |data| / 16))
    requires done[..Whole(|data|)] == held[..Whole(|data|)]
    requires forall j :: Whole(|data|) <= j < |data| ==> done[j] == XorByte(held[j], stream[j - Whole(|data|)])
    ensures done == WithKeyStream(aes, wide, iv, data)
  {
    hide WithKeyStream, Counter, XorByte, Whole;
    var k := Whole(|data|);
    assert done[k..] == XorBytes(data[k..], stream);
    assert done == done[..k] + done[k..];
    assert data == data[..k] + data[k..];
    assert |data| / 16 == k / 16;
    CryptPush(aes, wide, iv, data[..k], data[k..]);
  }

  /** What the output holds when a pending block has been filled but not yet combined. */
  lemma FilledBlock(aes: Keyed, wide: bool, iv: Block, data: seq<bv8>, more: seq<bv8>, held: seq<bv8>)
    requires |data| - Whole(|data|) + |more| == 16
    requires held == Partial(aes, wide, iv, data) + more
    ensures var k := Whole(|data|);
            && |held| == k + 16
            && Partial(aes, wide, iv, data + more)
               == held[..k] + XorBytes(held[k..], aes.enc(Counter(wide, iv, |data| / 16)))
            && |data + more| / 16 == |data| / 16 + 1 && |data + more| % 16 == 0
  {
    hide Partial, Counter, XorBytes, Whole;
    PartialComplete(aes, wide, iv, data, more);
    PartialAt(aes, wide, iv, data);
    var k := Whole(|data|);
    assert held[k..] == data[k..] + more;
    assert held[..k] == Partial(aes, wide, iv, data)[..k];
  }

  lemma AppendSlices(d: seq<bv8>, s: seq<bv8>, i: nat, j: nat, k: nat)
    requires i <= j <= k <= |s|
    ensures d + s[i..j] + s[j..k] == d + s[i..k]
  {
    assert s[i..j] + s[j..k] == s[i..k];
  }

  lemma CounterStep(wide: bool, iv: Block, j: nat)
    ensures Counter(wide, iv, j + 1) == Next(wide, Counter(wide, iv, j))
  {
  }

  lemma PartialAt(aes: Keyed, wide: bool, iv: Block, data: seq<bv8>)
    ensures Partial(aes, wide, iv, data)[Whole(|data|)..] == data[Whole(|data|)..]
  {
  }
}
