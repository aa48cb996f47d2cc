/**
 AES-256: the cipher and the equivalent inverse cipher of FIPS 197, the table-driven
 block functions and key setup of the software implementation proved against them, and
 the theorem that decryption and encryption undo each other.
 */
module Aes {
  import opened AesTables
  import opened AesCore
  import opened BlockCipher

  const ROUNDS: nat := 14

  /** Four columns, sixteen bytes. */
  datatype State = State(c0: bv32, c1: bv32, c2: bv32, c3: bv32)

  // ---- FIPS 197 ----

  function AddRoundKey(s: State, k: State): State {
    State(AddWord(s.c0, k.c0), AddWord(s.c1, k.c1), AddWord(s.c2, k.c2), AddWord(s.c3, k.c3))
  }

  /** SubBytes, then ShiftRows: row r of a column comes from r columns further right. */
  function ShiftSub(s: State): State {
    State(Word(S(B3(s.c0)), S(B2(s.c1)), S(B1(s.c2)), S(B0(s.c3))),
          Word(S(B3(s.c1)), S(B2(s.c2)), S(B1(s.c3)), S(B0(s.c0))),
          Word(S(B3(s.c2)), S(B2(s.c3)), S(B1(s.c0)), S(B0(s.c1))),
          Word(S(B3(s.c3)), S(B2(s.c0)), S(B1(s.c1)), S(B0(s.c2))))
  }

  /** InvSubBytes and InvShiftRows: row r of a column comes from r columns further left. */
  function InvShiftSub(s: State): State {
    State(Word(Td4(B3(s.c0)), Td4(B2(s.c3)), Td4(B1(s.c2)), Td4(B0(s.c1))),
          Word(Td4(B3(s.c1)), Td4(B2(s.c0)), Td4(B1(s.c3)), Td4(B0(s.c2))),
          Word(Td4(B3(s.c2)), Td4(B2(s.c1)), Td4(B1(s.c0)), Td4(B0(s.c3))),
          Word(Td4(B3(s.c3)), Td4(B2(s.c2)), Td4(B1(s.c1)), Td4(B0(s.c0))))
  }

  function MixColumns(s: State): State {
    State(MixColumn(s.c0), MixColumn(s.c1), MixColumn(s.c2), MixColumn(s.c3))
  }

  function InvMixColumns(s: State): State {
    State(InvMixColumn(s.c0), InvMixColumn(s.c1), InvMixColumn(s.c2), InvMixColumn(s.c3))
  }

  /** Round keys: ROUNDS + 1 states in the 60 words of an expanded key. */
  type Schedule = w: seq<bv32> | |w| == 60 witness seq(60, _ => 0)

  function RoundKey(w: Schedule, r: nat): State
    requires r <= ROUNDS
  {
    State(w[4 * r], w[4 * r + 1], w[4 * r + 2], w[4 * r + 3])
  }

  /** The state after r full rounds of the cipher, section 5.1 of FIPS 197. */
  function Rounds(w: Schedule, s: State, r: nat): State
    requires r < ROUNDS
  {
    if r == 0 then AddRoundKey(s, RoundKey(w, 0))
    else AddRoundKey(MixColumns(ShiftSub(Rounds(w, s, r - 1))), RoundKey(w, r))
  }

  function Cipher(w: Schedule, s: State): State {
    AddRoundKey(ShiftSub(Rounds(w, s, ROUNDS - 1)), RoundKey(w, ROUNDS))
  }

  /** The state after r full rounds of the equivalent inverse cipher, section 5.3.5. */
  function InvRounds(dw: Schedule, s: State, r: nat): State
    requires r < ROUNDS
  {
    if r == 0 then AddRoundKey(s, RoundKey(dw, 0))
    else AddRoundKey(InvMixColumns(InvShiftSub(InvRounds(dw, s, r - 1))), RoundKey(dw, r))
  }

  function InvCipher(dw: Schedule, s: State): State {
    AddRoundKey(InvShiftSub(InvRounds(dw, s, ROUNDS - 1)), RoundKey(dw, ROUNDS))
  }

  /** The schedule of the inverse cipher: w reversed, InvMixColumns applied to the inner round keys. */
  function Inverted(w: Schedule): Schedule {
    seq(60, i requires 0 <= i < 60 =>
      var v := w[4 * (ROUNDS - i / 4) + i % 4];
      if 4 <= i < 56 then InvMixColumn(v) else v)
  }

  lemma InvertedKey(w: Schedule, r: nat)
    requires r <= ROUNDS
    ensures RoundKey(Inverted(w), r)
         == if 1 <= r < ROUNDS then InvMixColumns(RoundKey(w, ROUNDS - r)) else RoundKey(w, ROUNDS - r)
  {
    hide InvMixColumn;
    assert (4 * r) / 4 == (4 * r + 1) / 4 == (4 * r + 2) / 4 == (4 * r + 3) / 4 == r;
  }

  // ---- encryption and decryption undo each other ----

  lemma AddRoundKeyCancels(s: State, k: State)
    ensures AddRoundKey(AddRoundKey(s, k), k) == s
  {
    hide AddWord;
    AddWordCancels(s.c0, k.c0);
    AddWordCancels(s.c1, k.c1);
    AddWordCancels(s.c2, k.c2);
    AddWordCancels(s.c3, k.c3);
  }

  lemma ColumnUnsub(a: bv8, b: bv8, c: bv8, d: bv8)
    ensures var w := Word(S(a), S(b), S(c), S(d));
            Td4(B3(w)) == a && Td4(B2(w)) == b && Td4(B1(w)) == c && Td4(B0(w)) == d
  {
    hide *;
    BytesOfWord(S(a), S(b), S(c), S(d));
    Td4AfterS(a);
    Td4AfterS(b);
    Td4AfterS(c);
    Td4AfterS(d);
  }

  lemma ColumnResub(a: bv8, b: bv8, c: bv8, d: bv8)
    ensures var w := Word(Td4(a), Td4(b), Td4(c), Td4(d));
            S(B3(w)) == a && S(B2(w)) == b && S(B1(w)) == c && S(B0(w)) == d
  {
    hide *;
    BytesOfWord(Td4(a), Td4(b), Td4(c), Td4(d));
    SAfterTd4(a);
    SAfterTd4(b);
    SAfterTd4(c);
    SAfterTd4(d);
  }

  lemma UndoShiftSub(s: State)
    ensures InvShiftSub(ShiftSub(s)) == s
  {
    hide S, Td4, Word, B3, B2, B1, B0;
    ColumnUnsub(B3(s.c0), B2(s.c1), B1(s.c2), B0(s.c3));
    ColumnUnsub(B3(s.c1), B2(s.c2), B1(s.c3), B0(s.c0));
    ColumnUnsub(B3(s.c2), B2(s.c3), B1(s.c0), B0(s.c1));
    ColumnUnsub(B3(s.c3), B2(s.c0), B1(s.c1), B0(s.c2));
    WordOfBytes(s.c0);
    WordOfBytes(s.c1);
    WordOfBytes(s.c2);
    WordOfBytes(s.c3);
  }

  lemma RedoShiftSub(s: State)
    ensures ShiftSub(InvShiftSub(s)) == s
  {
    hide S, Td4, Word, B3, B2, B1, B0;
    ColumnResub(B3(s.c0), B2(s.c3), B1(s.c2), B0(s.c1));
    ColumnResub(B3(s.c1), B2(s.c0), B1(s.c3), B0(s.c2));
    ColumnResub(B3(s.c2), B2(s.c1), B1(s.c0), B0(s.c3));
    ColumnResub(B3(s.c3), B2(s.c2), B1(s.c1), B0(s.c0));
    WordOfBytes(s.c0);
    WordOfBytes(s.c1);
    WordOfBytes(s.c2);
    WordOfBytes(s.c3);
  }

  /** InvMixColumns undoes a mixed, keyed round up to the key it maps the round key to. */
  lemma UndoMixRound(s: State, k: State)
    ensures AddRoundKey(InvMixColumns(AddRoundKey(MixColumns(s), k)), InvMixColumns(k)) == s
  {
    hide MixColumn, InvMixColumn, AddRoundKey;
    InvMixOfSum(MixColumns(s), k);
    InvMixAfterMix(s.c0);
    InvMixAfterMix(s.c1);
    InvMixAfterMix(s.c2);
    InvMixAfterMix(s.c3);
    AddRoundKeyCancels(s, InvMixColumns(k));
  }

  lemma InvMixOfSum(s: State, k: State)
    ensures InvMixColumns(AddRoundKey(s, k)) == AddRoundKey(InvMixColumns(s), InvMixColumns(k))
  {
    hide InvMixColumn, AddWord;
    InvMixLinear(s.c0, k.c0);
    InvMixLinear(s.c1, k.c1);
    InvMixLinear(s.c2, k.c2);
    InvMixLinear(s.c3, k.c3);
  }

  lemma RedoMixRound(s: State, k: State)
    ensures AddRoundKey(MixColumns(AddRoundKey(InvMixColumns(s), InvMixColumns(k))), k) == s
  {
    hide MixColumn, InvMixColumn, AddRoundKey;
    InvMixOfSum(s, k);
    var t := AddRoundKey(s, k);
    MixAfterInvMix(t.c0);
    MixAfterInvMix(t.c1);
    MixAfterInvMix(t.c2);
    MixAfterInvMix(t.c3);
    AddRoundKeyCancels(s, k);
  }

  /** Running the inverse rounds on a ciphertext walks back through the encryption rounds. */
  lemma {:induction false} WalkBack(w: Schedule, s: State, r: nat)
    requires r < ROUNDS
    ensures InvRounds(Inverted(w), Cipher(w, s), r) == ShiftSub(Rounds(w, s, ROUNDS - 1 - r))
  {
    hide AddRoundKey, InvMixColumns, MixColumns, ShiftSub, InvShiftSub, RoundKey, Inverted;
    InvertedKey(w, r);
    if r == 0 {
      AddRoundKeyCancels(ShiftSub(Rounds(w, s, ROUNDS - 1)), RoundKey(w, ROUNDS));
    } else {
      WalkBack(w, s, r - 1);
      UndoShiftSub(Rounds(w, s, ROUNDS - r));
      UndoMixRound(ShiftSub(Rounds(w, s, ROUNDS - 1 - r)), RoundKey(w, ROUNDS - r));
    }
  }

  /** Running the rounds on a deciphered block walks back through the decryption rounds. */
  lemma {:induction false} WalkForth(w: Schedule, c: State, r: nat)
    requires r < ROUNDS
    ensures Rounds(w, InvCipher(Inverted(w), c), r) == InvShiftSub(InvRounds(Inverted(w), c, ROUNDS - 1 - r))
  {
    hide AddRoundKey, InvMixColumns, MixColumns, ShiftSub, InvShiftSub, RoundKey, Inverted;
    var dw := Inverted(w);
    InvertedKey(w, ROUNDS - r);
    if r == 0 {
      AddRoundKeyCancels(InvShiftSub(InvRounds(dw, c, ROUNDS - 1)), RoundKey(dw, ROUNDS));
    } else {
      WalkForth(w, c, r - 1);
      RedoShiftSub(InvRounds(dw, c, ROUNDS - r));
      RedoMixRound(InvShiftSub(InvRounds(dw, c, ROUNDS - 1 - r)), RoundKey(w, r));
    }
  }

  lemma DecryptAfterEncrypt(w: Schedule, s: State)
    ensures InvCipher(Inverted(w), Cipher(w, s)) == s
  {
    hide AddRoundKey, ShiftSub, InvShiftSub, RoundKey, Cipher, Inverted;
    WalkBack(w, s, ROUNDS - 1);
    UndoShiftSub(Rounds(w, s, 0));
    InvertedKey(w, ROUNDS);
    AddRoundKeyCancels(s, RoundKey(w, 0));
  }

  lemma EncryptAfterDecrypt(w: Schedule, c: State)
    ensures Cipher(w, InvCipher(Inverted(w), c)) == c
  {
    hide AddRoundKey, ShiftSub, InvShiftSub, RoundKey, InvCipher, Inverted;
    WalkForth(w, c, ROUNDS - 1);
    RedoShiftSub(InvRounds(Inverted(w), c, 0));
    InvertedKey(w, 0);
    AddRoundKeyCancels(c, RoundKey(w, ROUNDS));
  }

  // ---- blocks ----

  /** Big-endian load of the four columns. */
  function Load(b: Block): State {
    State(Word(b[0], b[1], b[2], b[3]), Word(b[4], b[5], b[6], b[7]),
          Word(b[8], b[9], b[10], b[11]), Word(b[12], b[13], b[14], b[15]))
  }

  function Store(s: State): Block {
    [B3(s.c0), B2(s.c0), B1(s.c0), B0(s.c0), B3(s.c1), B2(s.c1), B1(s.c1), B0(s.c1),
     B3(s.c2), B2(s.c2), B1(s.c2), B0(s.c2), B3(s.c3), B2(s.c3), B1(s.c3), B0(s.c3)]
  }

  lemma StoreLoad(b: Block)
    ensures Store(Load(b)) == b
  {
    hide Word, B3, B2, B1, B0;
    BytesOfWord(b[0], b[1], b[2], b[3]);
    BytesOfWord(b[4], b[5], b[6], b[7]);
    BytesOfWord(b[8], b[9], b[10], b[11]);
    BytesOfWord(b[12], b[13], b[14], b[15]);
    assert Store(Load(b)) == [b[0], b[1], b[2], b[3], b[4], b[5], b[6], b[7],
                              b[8], b[9], b[10], b[11], b[12], b[13], b[14], b[15]];
  }

  lemma LoadStore(s: State)
    ensures Load(Store(s)) == s
  {
    hide Word, B3, B2, B1, B0;
    WordOfBytes(s.c0);
    WordOfBytes(s.c1);
    WordOfBytes(s.c2);
    WordOfBytes(s.c3);
  }

  /** A keyed AES instance as the modes of operation see it. */
  function KeyedBy(w: Schedule): Keyed {
    Keyed((b: Block) => Store(Cipher(w, Load(b))), (b: Block) => Store(InvCipher(Inverted(w), Load(b))))
  }

  /** For every schedule, so for every key, AES is a permutation of blocks and its decryption the inverse. */
  lemma AesIsPermutation(w: Schedule)
    ensures KeyedBy(w).Permutation()
  {
    hide Load, Store, Cipher, InvCipher, Inverted;
    var k := KeyedBy(w);
    forall b: Block
      ensures k.dec(k.enc(b)) == b && k.enc(k.dec(b)) == b
    {
      DecryptAfterEncrypt(w, Load(b));
      EncryptAfterDecrypt(w, Load(b));
      LoadStore(Cipher(w, Load(b)));
      LoadStore(InvCipher(Inverted(w), Load(b)));
      StoreLoad(b);
    }
  }

  // ---- the software block functions ----

  /** One output word of an encryption round: Te0 and its rotations. */
  function Te(a: bv8, b: bv8, c: bv8, d: bv8): bv32 {
    Te0(a) ^ Ror(Te0(b), 8) ^ Ror(Te0(c), 16) ^ Ror(Te0(d), 24)
  }

  function Td(a: bv8, b: bv8, c: bv8, d: bv8): bv32 {
    Td0(a) ^ Ror(Td0(b), 8) ^ Ror(Td0(c), 16) ^ Ror(Td0(d), 24)
  }

  lemma TeMixes(a: bv8, b: bv8, c: bv8, d: bv8)
    ensures Te(a, b, c, d) == MixBytes(S(a), S(b), S(c), S(d))
  {
    hide Te0, S, Word, Ror, Sum4, Times2, Times3;
    Te0Meaning(a);
    Te0Meaning(b);
    Te0Meaning(c);
    Te0Meaning(d);
    var (p, q, r, s) := (S(a), S(b), S(c), S(d));
    RotatedColumns(Times2(p), p, p, Times3(p), Times2(q), q, q, Times3(q),
                   Times2(r), r, r, Times3(r), Times2(s), s, s, Times3(s));
    SumRotate(p, Times2(q), Times3(r), s);
    SumRotate(p, q, Times2(r), Times3(s));
    SumRotate(q, Times2(r), Times3(s), p);
    SumRotate(Times3(p), q, r, Times2(s));
    SumRotate(q, r, Times2(s), Times3(p));
    SumRotate(r, Times2(s), Times3(p), q);
  }

  lemma TdMixes(a: bv8, b: bv8, c: bv8, d: bv8)
    ensures Td(a, b, c, d) == InvMixBytes(Td4(a), Td4(b), Td4(c), Td4(d))
  {
    hide Td0, Td4, Word, Ror, Sum4, Times9, Times11, Times13, Times14;
    Td0Meaning(a);
    Td0Meaning(b);
    Td0Meaning(c);
    Td0Meaning(d);
    var (p, q, r, s) := (Td4(a), Td4(b), Td4(c), Td4(d));
    RotatedColumns(Times14(p), Times9(p), Times13(p), Times11(p), Times14(q), Times9(q), Times13(q), Times11(q),
                   Times14(r), Times9(r), Times13(r), Times11(r), Times14(s), Times9(s), Times13(s), Times11(s));
    SumRotate(Times9(p), Times14(q), Times11(r), Times13(s));
    SumRotate(Times13(p), Times9(q), Times14(r), Times11(s));
    SumRotate(Times9(q), Times14(r), Times11(s), Times13(p));
    SumRotate(Times11(p), Times13(q), Times9(r), Times14(s));
    SumRotate(Times13(q), Times9(r), Times14(s), Times11(p));
    SumRotate(Times9(r), Times14(s), Times11(p), Times13(q));
  }

  /** One table-driven encryption round. */
  function EncryptRound(s: State, k: State): State {
    State(AddWord(Te(B3(s.c0), B2(s.c1), B1(s.c2), B0(s.c3)), k.c0),
          AddWord(Te(B3(s.c1), B2(s.c2), B1(s.c3), B0(s.c0)), k.c1),
          AddWord(Te(B3(s.c2), B2(s.c3), B1(s.c0), B0(s.c1)), k.c2),
          AddWord(Te(B3(s.c3), B2(s.c0), B1(s.c1), B0(s.c2)), k.c3))
  }

  function DecryptRound(s: State, k: State): State {
    State(AddWord(Td(B3(s.c0), B2(s.c3), B1(s.c2), B0(s.c1)), k.c0),
          AddWord(Td(B3(s.c1), B2(s.c0), B1(s.c3), B0(s.c2)), k.c1),
          AddWord(Td(B3(s.c2), B2(s.c1), B1(s.c0), B0(s.c3)), k.c2),
          AddWord(Td(B3(s.c3), B2(s.c2), B1(s.c1), B0(s.c0)), k.c3))
  }

  lemma TeColumn(a: bv8, b: bv8, c: bv8, d: bv8)
    ensures Te(a, b, c, d) == MixColumn(Word(S(a), S(b), S(c), S(d)))
  {
    hide Te, S, Word, B3, B2, B1, B0, MixBytes;
    TeMixes(a, b, c, d);
    BytesOfWord(S(a), S(b), S(c), S(d));
  }

  lemma TdColumn(a: bv8, b: bv8, c: bv8, d: bv8)
    ensures Td(a, b, c, d) == InvMixColumn(Word(Td4(a), Td4(b), Td4(c), Td4(d)))
  {
    hide Td, Td4, Word, B3, B2, B1, B0, InvMixBytes;
    TdMixes(a, b, c, d);
    BytesOfWord(Td4(a), Td4(b), Td4(c), Td4(d));
  }

  lemma EncryptRoundIsRound(w: Schedule, s: State, r: nat)
    requires 1 <= r < ROUNDS
    ensures EncryptRound(Rounds(w, s, r - 1), RoundKey(w, r)) == Rounds(w, s, r)
  {
    hide Te, S, Word, B3, B2, B1, B0, MixColumn, AddWord, RoundKey;
    var t := Rounds(w, s, r - 1);
    TeColumn(B3(t.c0), B2(t.c1), B1(t.c2), B0(t.c3));
    TeColumn(B3(t.c1), B2(t.c2), B1(t.c3), B0(t.c0));
    TeColumn(B3(t.c2), B2(t.c3), B1(t.c0), B0(t.c1));
    TeColumn(B3(t.c3), B2(t.c0), B1(t.c1), B0(t.c2));
  }

  lemma DecryptRoundIsRound(dw: Schedule, s: State, r: nat)
    requires 1 <= r < ROUNDS
    ensures DecryptRound(InvRounds(dw, s, r - 1), RoundKey(dw, r)) == InvRounds(dw, s, r)
  {
    hide Td, Td4, Word, B3, B2, B1, B0, InvMixColumn, AddWord, RoundKey;
    var t := InvRounds(dw, s, r - 1);
    TdColumn(B3(t.c0), B2(t.c3), B1(t.c2), B0(t.c1));
    TdColumn(B3(t.c1), B2(t.c0), B1(t.c3), B0(t.c2));
    TdColumn(B3(t.c2), B2(t.c1), B1(t.c0), B0(t.c3));
    TdColumn(B3(t.c3), B2(t.c2), B1(t.c1), B0(t.c0));
  }

  /** S-box lookups through masked entries of Te0: the last round and the key setup. */
  function TeSub(a: bv8, b: bv8, c: bv8, d: bv8): bv32 {
    (Ror(Te0(a), 16) & 0xff000000) ^ (Ror(Te0(b), 24) & 0x00ff0000) ^ (Te0(c) & 0x0000ff00) ^ (Ror(Te0(d), 8) & 0x000000ff)
  }

  function Td4Sub(a: bv8, b: bv8, c: bv8, d: bv8): bv32 {
    (Td4(a) as bv32 << 24) ^ (Td4(b) as bv32 << 16) ^ (Td4(c) as bv32 << 8) ^ (Td4(d) as bv32)
  }

  lemma MaskedWords(a0: bv8, a: bv8, a3: bv8, b0: bv8, b: bv8, b3: bv8, c0: bv8, c: bv8, c3: bv8, d0: bv8, d: bv8, d3: bv8)
    ensures (Ror(Word(a0, a, a, a3), 16) & 0xff000000) ^ (Ror(Word(b0, b, b, b3), 24) & 0x00ff0000)
            ^ (Word(c0, c, c, c3) & 0x0000ff00) ^ (Ror(Word(d0, d, d, d3), 8) & 0x000000ff) == Word(a, b, c, d)
  {
  }

  lemma TeSubIsSBox(a: bv8, b: bv8, c: bv8, d: bv8)
    ensures TeSub(a, b, c, d) == Word(S(a), S(b), S(c), S(d))
  {
    hide Te0, S, Word, Ror, Times2, Times3;
    Te0Meaning(a);
    Te0Meaning(b);
    Te0Meaning(c);
    Te0Meaning(d);
    MaskedWords(Times2(S(a)), S(a), Times3(S(a)), Times2(S(b)), S(b), Times3(S(b)),
                Times2(S(c)), S(c), Times3(S(c)), Times2(S(d)), S(d), Times3(S(d)));
  }

  lemma Td4SubIsInverse(a: bv8, b: bv8, c: bv8, d: bv8)
    ensures Td4Sub(a, b, c, d) == Word(Td4(a), Td4(b), Td4(c), Td4(d))
  {
    hide Td4;
  }

  /** The last round, through masked entries of Te0. */
  function LastRound(t: State, k: State): State {
    State(AddWord(TeSub(B3(t.c0), B2(t.c1), B1(t.c2), B0(t.c3)), k.c0),
          AddWord(TeSub(B3(t.c1), B2(t.c2), B1(t.c3), B0(t.c0)), k.c1),
          AddWord(TeSub(B3(t.c2), B2(t.c3), B1(t.c0), B0(t.c1)), k.c2),
          AddWord(TeSub(B3(t.c3), B2(t.c0), B1(t.c1), B0(t.c2)), k.c3))
  }

  lemma LastRoundIsLast(w: Schedule, b: State)
    ensures LastRound(Rounds(w, b, 13), RoundKey(w, 14)) == Cipher(w, b)
  {
    hide Rounds, RoundKey, TeSub, S, Word, B3, B2, B1, B0, AddWord;
    var t := Rounds(w, b, 13);
    TeSubIsSBox(B3(t.c0), B2(t.c1), B1(t.c2), B0(t.c3));
    TeSubIsSBox(B3(t.c1), B2(t.c2), B1(t.c3), B0(t.c0));
    TeSubIsSBox(B3(t.c2), B2(t.c3), B1(t.c0), B0(t.c1));
    TeSubIsSBox(B3(t.c3), B2(t.c0), B1(t.c1), B0(t.c2));
  }

  /** Thirteen table rounds and a masked last round, from the state after the first key addition. */
  method TableRounds(w: Schedule, first: State, ghost b: State) returns (s: State)
    requires first == AddRoundKey(b, RoundKey(w, 0))
    ensures s == Cipher(w, b)
  {
    hide EncryptRound, LastRound, Cipher, Rounds, RoundKey, AddRoundKey;
    s := first;
    assert s == Rounds(w, b, 0) by { FirstRound(w, b); }
    var t := EncryptRound(s, RoundKey(w, 1));
    EncryptRoundIsRound(w, b, 1);
    s := EncryptRound(t, RoundKey(w, 2));
    EncryptRoundIsRound(w, b, 2);
    t := EncryptRound(s, RoundKey(w, 3));
    EncryptRoundIsRound(w, b, 3);
    s := EncryptRound(t, RoundKey(w, 4));
    EncryptRoundIsRound(w, b, 4);
    t := EncryptRound(s, RoundKey(w, 5));
    EncryptRoundIsRound(w, b, 5);
    s := EncryptRound(t, RoundKey(w, 6));
    EncryptRoundIsRound(w, b, 6);
    t := EncryptRound(s, RoundKey(w, 7));
    EncryptRoundIsRound(w, b, 7);
    s := EncryptRound(t, RoundKey(w, 8));
    EncryptRoundIsRound(w, b, 8);
    t := EncryptRound(s, RoundKey(w, 9));
    EncryptRoundIsRound(w, b, 9);
    s := EncryptRound(t, RoundKey(w, 10));
    EncryptRoundIsRound(w, b, 10);
    t := EncryptRound(s, RoundKey(w, 11));
    EncryptRoundIsRound(w, b, 11);
    s := EncryptRound(t, RoundKey(w, 12));
    EncryptRoundIsRound(w, b, 12);
    t := EncryptRound(s, RoundKey(w, 13));
    EncryptRoundIsRound(w, b, 13);
    s := LastRound(t, RoundKey(w, 14));
    LastRoundIsLast(w, b);
  }

  /** p_encryptSW: load, add the first round key, run the rounds, store. */
  method EncryptSW(w: Schedule, input: Block) returns (output: Block)
    ensures output == Store(Cipher(w, Load(input)))
    ensures output == KeyedBy(w).enc(input)
  {
    hide AddRoundKey, RoundKey, Load, Store, Cipher, Inverted, InvCipher;
    var s := TableRounds(w, AddRoundKey(Load(input), RoundKey(w, 0)), Load(input));
    output := Store(s);
  }

  lemma FirstRound(w: Schedule, s: State)
    ensures Rounds(w, s, 0) == AddRoundKey(s, RoundKey(w, 0))
    ensures InvRounds(w, s, 0) == AddRoundKey(s, RoundKey(w, 0))
  {
  }

  /** p_decryptSW: thirteen table rounds over the inverted schedule and a last round through Td4. */
  method DecryptSW(dw: Schedule, input: Block) returns (output: Block)
    ensures output == Store(InvCipher(dw, Load(input)))
    ensures forall w: Schedule :: dw == Inverted(w) ==> output == KeyedBy(w).dec(input)
  {
    hide DecryptRound, InvRounds, RoundKey, Load, Store, Td4Sub, Td4, Word, B3, B2, B1, B0, AddWord, Inverted, Cipher;
    var s := AddRoundKey(Load(input), RoundKey(dw, 0));
    ghost var b := Load(input);
    assert s == InvRounds(dw, b, 0) by { FirstRound(dw, b); }
    var t := DecryptRound(s, RoundKey(dw, 1));
    DecryptRoundIsRound(dw, b, 1);
    s := DecryptRound(t, RoundKey(dw, 2));
    DecryptRoundIsRound(dw, b, 2);
    t := DecryptRound(s, RoundKey(dw, 3));
    DecryptRoundIsRound(dw, b, 3);
    s := DecryptRound(t, RoundKey(dw, 4));
    DecryptRoundIsRound(dw, b, 4);
    t := DecryptRound(s, RoundKey(dw, 5));
    DecryptRoundIsRound(dw, b, 5);
    s := DecryptRound(t, RoundKey(dw, 6));
    DecryptRoundIsRound(dw, b, 6);
    t := DecryptRound(s, RoundKey(dw, 7));
    DecryptRoundIsRound(dw, b, 7);
    s := DecryptRound(t, RoundKey(dw, 8));
    DecryptRoundIsRound(dw, b, 8);
    t := DecryptRound(s, RoundKey(dw, 9));
    DecryptRoundIsRound(dw, b, 9);
    s := DecryptRound(t, RoundKey(dw, 10));
    DecryptRoundIsRound(dw, b, 10);
    t := DecryptRound(s, RoundKey(dw, 11));
    DecryptRoundIsRound(dw, b, 11);
    s := DecryptRound(t, RoundKey(dw, 12));
    DecryptRoundIsRound(dw, b, 12);
    t := DecryptRound(s, RoundKey(dw, 13));
    DecryptRoundIsRound(dw, b, 13);
    Td4SubIsInverse(B3(t.c0), B2(t.c3), B1(t.c2), B0(t.c1));
    Td4SubIsInverse(B3(t.c1), B2(t.c0), B1(t.c3), B0(t.c2));
    Td4SubIsInverse(B3(t.c2), B2(t.c1), B1(t.c0), B0(t.c3));
    Td4SubIsInverse(B3(t.c3), B2(t.c2), B1(t.c1), B0(t.c0));
    var k := RoundKey(dw, 14);
    s := State(AddWord(Td4Sub(B3(t.c0), B2(t.c3), B1(t.c2), B0(t.c1)), k.c0),
               AddWord(Td4Sub(B3(t.c1), B2(t.c0), B1(t.c3), B0(t.c2)), k.c1),
               AddWord(Td4Sub(B3(t.c2), B2(t.c1), B1(t.c0), B0(t.c3)), k.c2),
               AddWord(Td4Sub(B3(t.c3), B2(t.c2), B1(t.c1), B0(t.c0)), k.c3));
    output := Store(s);
  }

  // ---- key setup ----

  type Key = k: seq<bv8> | |k| == 32 witness seq(32, _ => 0)

  /** x^i in GF(2^8). */
  function XPower(i: nat): bv8 {
    if i == 0 then 1 else XTime(XPower(i - 1))
  }

  function SubWord(v: bv32): bv32 { Word(S(B3(v)), S(B2(v)), S(B1(v)), S(B0(v))) }

  function RotWord(v: bv32): bv32 { Word(B2(v), B1(v), B0(v), B3(v)) }

  /** Word i of the key expansion, section 5.2 of FIPS 197 with Nk = 8. */
  function KeyWord(key: Key, i: nat): bv32 {
    if i < 8 then Word(key[4 * i], key[4 * i + 1], key[4 * i + 2], key[4 * i + 3])
    else
      var temp := KeyWord(key, i - 1);
      var mixed :=
        if i % 8 == 0 then AddWord(SubWord(RotWord(temp)), Word(XPower(i / 8 - 1), 0, 0, 0))
        else if i % 8 == 4 then SubWord(temp)
        else temp;
      AddWord(KeyWord(key, i - 8), mixed)
  }

  function Expanded(key: Key): Schedule { seq(60, i requires 0 <= i < 60 => KeyWord(key, i)) }

  lemma RconPowers()
    ensures forall i :: 0 <= i < 7 ==> RCON[i] == Word(XPower(i), 0, 0, 0)
  {
    assert XPower(0) == 0x01;
    assert XPower(1) == 0x02;
    assert XPower(2) == 0x04;
    assert XPower(3) == 0x08;
    assert XPower(4) == 0x10;
    assert XPower(5) == 0x20;
    assert XPower(6) == 0x40;
  }

  lemma KeyWordFirst(key: Key, i: nat, v: bv32, rcon: bv32)
    requires i % 8 == 0 && 8 <= i < 60 && rcon == Word(XPower(i / 8 - 1), 0, 0, 0)
    requires v == KeyWord(key, i - 1)
    ensures KeyWord(key, i) == AddWord(KeyWord(key, i - 8), AddWord(TeSub(B2(v), B1(v), B0(v), B3(v)), rcon))
  {
    hide TeSub, S, Word, B3, B2, B1, B0, AddWord;
    TeSubIsSBox(B2(v), B1(v), B0(v), B3(v));
    BytesOfWord(B2(v), B1(v), B0(v), B3(v));
  }

  lemma KeyWordMiddle(key: Key, i: nat, v: bv32)
    requires i % 8 == 4 && 8 <= i < 60 && v == KeyWord(key, i - 1)
    ensures KeyWord(key, i) == AddWord(KeyWord(key, i - 8), TeSub(B3(v), B2(v), B1(v), B0(v)))
  {
    hide TeSub, S, Word, B3, B2, B1, B0, AddWord;
    TeSubIsSBox(B3(v), B2(v), B1(v), B0(v));
  }

  lemma KeyWordPlain(key: Key, i: nat)
    requires i % 4 != 0 && 8 <= i < 60
    ensures KeyWord(key, i) == AddWord(KeyWord(key, i - 8), KeyWord(key, i - 1))
  {
    hide AddWord, SubWord, RotWord, Word, XPower;
  }

  /** InvMixColumn through Td0 after the S-box. */
  lemma TdOfSBox(v: bv32)
    ensures Td(S(B3(v)), S(B2(v)), S(B1(v)), S(B0(v))) == InvMixColumn(v)
  {
    hide Td, S, B3, B2, B1, B0, InvMixBytes;
    TdMixes(S(B3(v)), S(B2(v)), S(B1(v)), S(B0(v)));
    Td4AfterS(B3(v));
    Td4AfterS(B2(v));
    Td4AfterS(B1(v));
    Td4AfterS(B0(v));
  }

  /** One half turn of the expansion: a mixed word and three running sums. */
  method ExpandFour(ek: array<bv32>, p: nat, mixed: bv32)
    requires 8 <= p && p + 4 <= ek.Length
    modifies ek
    ensures ek[p] == AddWord(old(ek[p - 8]), mixed)
    ensures ek[p + 1] == AddWord(old(ek[p - 7]), ek[p])
    ensures ek[p + 2] == AddWord(old(ek[p - 6]), ek[p + 1])
    ensures ek[p + 3] == AddWord(old(ek[p - 5]), ek[p + 2])
    ensures ek[..p] == old(ek[..p])
  {
    hide AddWord;
    ek[p] := AddWord(ek[p - 8], mixed);
    ek[p + 1] := AddWord(ek[p - 7], ek[p]);
    ek[p + 2] := AddWord(ek[p - 6], ek[p + 1]);
    ek[p + 3] := AddWord(ek[p - 5], ek[p + 2]);
  }

  /** The words of w are the words of the key expansion. */
  ghost predicate Expands(key: Key, w: seq<bv32>) {
    forall i :: 0 <= i < |w| ==> w[i] == KeyWord(key, i)
  }

  lemma ExpandsFour(key: Key, w: seq<bv32>, mixed: bv32, v: seq<bv32>)
    requires 8 <= |w| <= 56 && |w| % 4 == 0 && Expands(key, w)
    requires AddWord(w[|w| - 8], mixed) == KeyWord(key, |w|)
    requires |v| == |w| + 4 && v[..|w|] == w
    requires v[|w|] == AddWord(w[|w| - 8], mixed) && v[|w| + 1] == AddWord(w[|w| - 7], v[|w|])
    requires v[|w| + 2] == AddWord(w[|w| - 6], v[|w| + 1]) && v[|w| + 3] == AddWord(w[|w| - 5], v[|w| + 2])
    ensures Expands(key, v)
  {
    hide AddWord, KeyWord;
    var p := |w|;
    KeyWordPlain(key, p + 1);
    KeyWordPlain(key, p + 2);
    KeyWordPlain(key, p + 3);
    forall i | 0 <= i < |v|
      ensures v[i] == KeyWord(key, i)
    {
      if i < p {
        assert v[i] == v[..p][i];
      }
    }
  }

  /** The eight words of the key itself. */
  method LoadKey(key: Key, ek: array<bv32>)
    requires ek.Length == 60
    modifies ek
    ensures Expands(key, ek[..8])
  {
    hide Word, KeyWord;
    for i := 0 to 8
      invariant forall j :: 0 <= j < i ==> ek[j] == KeyWord(key, j)
    {
      ek[i] := Word(key[4 * i], key[4 * i + 1], key[4 * i + 2], key[4 * i + 3]);
      KeyHead(key, i);
    }
  }

  /** The first half of turn i: the rotated, substituted word with its round constant. */
  method ExpandFirst(ghost key: Key, ek: array<bv32>, i: nat)
    requires ek.Length == 60 && i < 7 && Expands(key, ek[..8 * i + 8])
    modifies ek
    ensures Expands(key, ek[..8 * i + 12])
  {
    hide TeSub, B3, B2, B1, B0, AddWord, KeyWord, Expands;
    ghost var w := ek[..8 * i + 8];
    var temp := ek[8 * i + 7];
    assert temp == w[|w| - 1];
    FirstMixed(key, w, i);
    ghost var mixed := AddWord(TeSub(B2(temp), B1(temp), B0(temp), B3(temp)), RCON[i]);
    ExpandFour(ek, 8 * i + 8, AddWord(TeSub(B2(temp), B1(temp), B0(temp), B3(temp)), RCON[i]));
    assert ek[..8 * i + 12][..8 * i + 8] == w;
    ExpandsFour(key, w, mixed, ek[..8 * i + 12]);
  }

  /** The second half of turn i: the substituted word. */
  method ExpandSecond(ghost key: Key, ek: array<bv32>, i: nat)
    requires ek.Length == 60 && i < 6 && Expands(key, ek[..8 * i + 12])
    modifies ek
    ensures Expands(key, ek[..8 * i + 16])
  {
    hide TeSub, B3, B2, B1, B0, AddWord, KeyWord, Expands;
    ghost var w := ek[..8 * i + 12];
    var temp := ek[8 * i + 11];
    assert |w| == 8 * (i + 1) + 4;
    MiddleMixed(key, w);
    ExpandFour(ek, 8 * i + 12, TeSub(B3(temp), B2(temp), B1(temp), B0(temp)));
    ExpandsFour(key, w, TeSub(B3(temp), B2(temp), B1(temp), B0(temp)), ek[..8 * i + 16]);
  }

  /** The expansion loop of p_initSW: eight words a turn, cut short after sixty. */
  method ExpandKey(key: Key, ek: array<bv32>)
    requires ek.Length == 60
    modifies ek
    ensures ek[..] == Expanded(key)
  {
    hide Expands, Expanded;
    LoadKey(key, ek);
    var i := 0;
    while true
      invariant 0 <= i < 7 && Expands(key, ek[..8 * i + 8])
      decreases 7 - i
    {
      ExpandFirst(key, ek, i);
      i := i + 1;
      if i == 7 {
        break;
      }
      ExpandSecond(key, ek, i - 1);
    }
    assert ek[..60] == ek[..];
    ExpandedWords(key, ek[..]);
  }

  lemma KeyHead(key: Key, i: nat)
    requires i < 8
    ensures KeyWord(key, i) == Word(key[4 * i], key[4 * i + 1], key[4 * i + 2], key[4 * i + 3])
  {
    hide Word;
  }

  lemma FirstMixed(key: Key, w: seq<bv32>, i: nat)
    requires i < 7 && |w| == 8 * i + 8 && Expands(key, w)
    ensures var v := w[|w| - 1];
            AddWord(w[|w| - 8], AddWord(TeSub(B2(v), B1(v), B0(v), B3(v)), RCON[i])) == KeyWord(key, |w|)
  {
    hide TeSub, S, Word, B3, B2, B1, B0, AddWord, KeyWord;
    RconPowers();
    KeyWordFirst(key, |w|, w[|w| - 1], RCON[i]);
  }

  lemma MiddleMixed(key: Key, w: seq<bv32>)
    requires 12 <= |w| <= 52 && |w| % 8 == 4 && Expands(key, w)
    ensures var v := w[|w| - 1]; AddWord(w[|w| - 8], TeSub(B3(v), B2(v), B1(v), B0(v))) == KeyWord(key, |w|)
  {
    hide TeSub, S, Word, B3, B2, B1, B0, AddWord, KeyWord;
    KeyWordMiddle(key, |w|, w[|w| - 1]);
  }

  lemma ExpandedWords(key: Key, w: seq<bv32>)
    requires |w| == 60 && Expands(key, w)
    ensures w == Expanded(key)
  {
    hide KeyWord;
  }

  /** Exchanges round keys a and b in place. */
  method SwapRoundKeys(dk: array<bv32>, a: nat, b: nat)
    requires dk.Length == 60 && a < b <= ROUNDS
    modifies dk
    ensures RoundKey(dk[..], a) == old(RoundKey(dk[..], b)) && RoundKey(dk[..], b) == old(RoundKey(dk[..], a))
    ensures forall r: nat :: r <= ROUNDS && r != a && r != b ==> RoundKey(dk[..], r) == old(RoundKey(dk[..], r))
  {
    var i, j := 4 * a, 4 * b;
    assert dk[..][i] == dk[i] && dk[..][i + 1] == dk[i + 1] && dk[..][i + 2] == dk[i + 2] && dk[..][i + 3] == dk[i + 3];
    assert dk[..][j] == dk[j] && dk[..][j + 1] == dk[j + 1] && dk[..][j + 2] == dk[j + 2] && dk[..][j + 3] == dk[j + 3];
    ghost var w := dk[..];
    var k0, k1, k2, k3 := dk[i], dk[i + 1], dk[i + 2], dk[i + 3];
    StoreRoundKey(dk, a, State(dk[j], dk[j + 1], dk[j + 2], dk[j + 3]));
    StoreRoundKey(dk, b, State(k0, k1, k2, k3));
  }

  method StoreRoundKey(dk: array<bv32>, a: nat, k: State)
    requires dk.Length == 60 && a <= ROUNDS
    modifies dk
    ensures RoundKey(dk[..], a) == k
    ensures forall r: nat :: r <= ROUNDS && r != a ==> RoundKey(dk[..], r) == old(RoundKey(dk[..], r))
  {
    dk[4 * a], dk[4 * a + 1], dk[4 * a + 2], dk[4 * a + 3] := k.c0, k.c1, k.c2, k.c3;
  }

  /** Applies InvMixColumns to round key a in place, through the S-box and Td0. */
  method InvMixRoundKey(dk: array<bv32>, a: nat)
    requires dk.Length == 60 && a <= ROUNDS
    modifies dk
    ensures RoundKey(dk[..], a) == InvMixColumns(old(RoundKey(dk[..], a)))
    ensures forall r: nat :: r <= ROUNDS && r != a ==> RoundKey(dk[..], r) == old(RoundKey(dk[..], r))
  {
    hide Td, S, B3, B2, B1, B0, InvMixColumn;
    var p := 4 * a;
    var (k0, k1, k2, k3) := (dk[p], dk[p + 1], dk[p + 2], dk[p + 3]);
    TdOfSBox(k0);
    TdOfSBox(k1);
    TdOfSBox(k2);
    TdOfSBox(k3);
    StoreRoundKey(dk, a, State(
      Td(S(B3(k0)), S(B2(k0)), S(B1(k0)), S(B0(k0))), Td(S(B3(k1)), S(B2(k1)), S(B1(k1)), S(B0(k1))),
      Td(S(B3(k2)), S(B2(k2)), S(B1(k2)), S(B0(k2))), Td(S(B3(k3)), S(B2(k3)), S(B1(k3)), S(B0(k3)))));
  }

  lemma SameRoundKeys(v: Schedule, w: Schedule)
    requires forall r: nat :: r <= ROUNDS ==> RoundKey(v, r) == RoundKey(w, r)
    ensures v == w
  {
    forall i | 0 <= i < 60
      ensures v[i] == w[i]
    {
      assert RoundKey(v, i / 4) == RoundKey(w, i / 4);
    }
  }

  /** The decryption schedule of p_initSW: copy, swap round keys end for end, InvMixColumn the inner ones. */
  method InvertSchedule(ek: array<bv32>, dk: array<bv32>)
    requires ek.Length == 60 && dk.Length == 60 && ek != dk
    modifies dk
    ensures dk[..] == Inverted(ek[..])
  {
    hide InvMixColumns, Inverted, RoundKey;
    for i := 0 to 60
      invariant forall j :: 0 <= j < i ==> dk[j] == ek[j]
    {
      dk[i] := ek[i];
    }
    ghost var w: Schedule := ek[..];
    assert dk[..] == w;
    var i, j := 0, 14;
    while i < j
      invariant 0 <= i <= 7 && j == 14 - i
      invariant forall r: nat :: r <= ROUNDS && (r < i || r > j) ==> RoundKey(dk[..], r) == RoundKey(w, ROUNDS - r)
      invariant forall r: nat :: i <= r <= j ==> RoundKey(dk[..], r) == RoundKey(w, r)
    {
      SwapRoundKeys(dk, i, j);
      i, j := i + 1, j - 1;
    }
    for r := 1 to 14
      invariant forall n: nat :: 1 <= n < r ==> RoundKey(dk[..], n) == InvMixColumns(RoundKey(w, ROUNDS - n))
      invariant forall n: nat :: n <= ROUNDS && !(1 <= n < r) ==> RoundKey(dk[..], n) == RoundKey(w, ROUNDS - n)
    {
      InvMixRoundKey(dk, r);
    }
    forall r: nat | r <= ROUNDS
      ensures RoundKey(dk[..], r) == RoundKey(Inverted(w), r)
    {
      InvertedKey(w, r);
    }
    SameRoundKeys(dk[..], Inverted(w));
  }

  /** p_initSW: both schedules of a key, and the hash key of GHASH, the encryption of the zero block. */
  method InitSW(key: Key, ek: array<bv32>, dk: array<bv32>) returns (h: Block)
    requires ek.Length == 60 && dk.Length == 60 && ek != dk
    modifies ek, dk
    ensures ek[..] == Expanded(key) && dk[..] == Inverted(Expanded(key))
    ensures h == KeyedBy(Expanded(key)).enc(ZERO_BLOCK)
  {
    hide Expanded, Inverted, Load, Store, Cipher, InvCipher;
    ExpandKey(key, ek);
    h := EncryptSW(ek[..], ZERO_BLOCK);
    InvertSchedule(ek, dk);
  }
}
