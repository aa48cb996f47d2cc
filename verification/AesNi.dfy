/**
 AES-256 with the processor's AES instructions: the shift-and-xor key setup computes the key
 expansion of FIPS 197, and the block functions are those of the software implementation.
 */
module AesNi {
  import opened AesCore
  import opened Aes
  import opened BlockCipher

  // ---- the instructions, on registers of four columns ----

  function AesEnc(s: State, k: State): State { AddRoundKey(MixColumns(ShiftSub(s)), k) }
  function AesEncLast(s: State, k: State): State { AddRoundKey(ShiftSub(s), k) }
  function AesDec(s: State, k: State): State { AddRoundKey(InvMixColumns(InvShiftSub(s)), k) }
  function AesDecLast(s: State, k: State): State { AddRoundKey(InvShiftSub(s), k) }

  /** AESKEYGENASSIST: substituted and rotated copies of the second and fourth column. */
  function KeyGenAssist(s: State, rcon: bv8): State {
    State(SubWord(s.c1), AddWord(RotWord(SubWord(s.c1)), Word(rcon, 0, 0, 0)),
          SubWord(s.c3), AddWord(RotWord(SubWord(s.c3)), Word(rcon, 0, 0, 0)))
  }

  /** Shift of the whole register by one column. */
  function ShiftColumn(s: State): State { State(0, s.c0, s.c1, s.c2) }

  function Broadcast(c: bv32): State { State(c, c, c, c) }

  /** The running sums of the columns of a, each with m added. */
  function RunningSums(a: State, m: bv32): State {
    var x := AddRoundKey(a, ShiftColumn(a));
    var y := AddRoundKey(x, ShiftColumn(ShiftColumn(a)));
    var z := AddRoundKey(y, ShiftColumn(ShiftColumn(ShiftColumn(a))));
    AddRoundKey(z, Broadcast(m))
  }

  /** p_init256_1: the first half of a turn of the expansion. */
  function FirstHalf(a: State, b: State): State { RunningSums(a, b.c3) }

  /** p_init256_2: the second half. */
  function SecondHalf(a: State, b: State): State { RunningSums(b, KeyGenAssist(a, 0).c2) }

  // ---- the key setup is the key expansion ----

  lemma AddWordLaws(a: bv32, b: bv32, c: bv32)
    ensures AddWord(AddWord(a, b), c) == AddWord(a, AddWord(b, c)) && AddWord(a, 0) == a
  {
  }

  lemma RegisterSums(a0: bv32, a1: bv32, a2: bv32, a3: bv32, m: bv32)
    ensures RunningSums(State(a0, a1, a2, a3), m) ==
            State(AddWord(a0, m), AddWord(a1, AddWord(a0, m)), AddWord(a2, AddWord(a1, AddWord(a0, m))),
                  AddWord(a3, AddWord(a2, AddWord(a1, AddWord(a0, m)))))
  {
    hide AddWord;
    AddWordLaws(a0, 0, 0);
    AddWordLaws(a1, a0, m);
    AddWordLaws(AddWord(a1, a0), 0, 0);
    AddWordLaws(a2, a1, AddWord(a0, m));
    AddWordLaws(AddWord(a2, a1), a0, m);
    AddWordLaws(AddWord(AddWord(a2, a1), a0), 0, 0);
    AddWordLaws(a3, a2, AddWord(a1, AddWord(a0, m)));
    AddWordLaws(AddWord(a3, a2), a1, AddWord(a0, m));
    AddWordLaws(AddWord(AddWord(a3, a2), a1), a0, m);
  }

  lemma RotateSubstituted(v: bv32)
    ensures RotWord(SubWord(v)) == SubWord(RotWord(v))
  {
    hide S, Word, B3, B2, B1, B0;
    BytesOfWord(S(B3(v)), S(B2(v)), S(B1(v)), S(B0(v)));
    BytesOfWord(B2(v), B1(v), B0(v), B3(v));
  }

  lemma KeyWordAt(key: Key, i: nat)
    requires 8 <= i < 60
    ensures i % 8 == 0 ==>
              var mixed := AddWord(SubWord(RotWord(KeyWord(key, i - 1))), Word(XPower(i / 8 - 1), 0, 0, 0));
              KeyWord(key, i) == AddWord(KeyWord(key, i - 8), mixed)
    ensures i % 8 == 4 ==> KeyWord(key, i) == AddWord(KeyWord(key, i - 8), SubWord(KeyWord(key, i - 1)))
    ensures i % 4 != 0 ==> KeyWord(key, i) == AddWord(KeyWord(key, i - 8), KeyWord(key, i - 1))
  {
    hide AddWord, SubWord, RotWord, Word, XPower;
  }

  lemma RoundKeyWords(key: Key, r: nat)
    requires r <= ROUNDS
    ensures RoundKey(Expanded(key), r) ==
            State(KeyWord(key, 4 * r), KeyWord(key, 4 * r + 1), KeyWord(key, 4 * r + 2), KeyWord(key, 4 * r + 3))
  {
    hide KeyWord;
  }

  /** Any round key but the first two is the running sums of the one two before, started by the mixed word. */
  lemma RoundKeyIsSums(key: Key, r: nat, m: bv32)
    requires 2 <= r <= ROUNDS && KeyWord(key, 4 * r) == AddWord(KeyWord(key, 4 * r - 8), m)
    ensures RoundKey(Expanded(key), r) == RunningSums(RoundKey(Expanded(key), r - 2), m)
  {
    hide KeyWord, AddWord, RunningSums, Expanded, RoundKey, SubWord, RotWord;
    RoundKeyWords(key, r);
    RoundKeyWords(key, r - 2);
    KeyWordAt(key, 4 * r + 1);
    KeyWordAt(key, 4 * r + 2);
    KeyWordAt(key, 4 * r + 3);
    RegisterSums(KeyWord(key, 4 * r - 8), KeyWord(key, 4 * r - 7), KeyWord(key, 4 * r - 6), KeyWord(key, 4 * r - 5), m);
  }

  lemma EvenRoundKey(key: Key, i: nat)
    requires 1 <= i <= 7
    ensures var w := Expanded(key);
            RoundKey(w, 2 * i) == FirstHalf(RoundKey(w, 2 * i - 2), KeyGenAssist(RoundKey(w, 2 * i - 1), XPower(i - 1)))
  {
    hide KeyWord, AddWord, RunningSums, Expanded, RoundKey, SubWord, RotWord, Word, XPower;
    RoundKeyWords(key, 2 * i - 1);
    KeyWordAt(key, 8 * i);
    RotateSubstituted(KeyWord(key, 8 * i - 1));
    RoundKeyIsSums(key, 2 * i, AddWord(SubWord(RotWord(KeyWord(key, 8 * i - 1))), Word(XPower(i - 1), 0, 0, 0)));
  }

  lemma OddRoundKey(key: Key, i: nat)
    requires 1 <= i <= 6
    ensures var w := Expanded(key);
            RoundKey(w, 2 * i + 1) == SecondHalf(RoundKey(w, 2 * i), RoundKey(w, 2 * i - 1))
  {
    hide KeyWord, AddWord, RunningSums, Expanded, RoundKey, SubWord, RotWord, Word;
    RoundKeyWords(key, 2 * i);
    KeyWordAt(key, 8 * i + 4);
    RoundKeyIsSums(key, 2 * i + 1, SubWord(KeyWord(key, 8 * i + 3)));
  }

  /** The 28 registers: the round keys, then InvMixColumns of the inner ones, last to first. */
  ghost predicate Scheduled(k: seq<State>, w: Schedule) {
    && |k| == 28
    && (forall r :: 0 <= r <= ROUNDS ==> k[r] == RoundKey(w, r))
    && (forall r :: ROUNDS < r < 28 ==> k[r] == InvMixColumns(RoundKey(w, 28 - r)))
  }

  lemma FirstRoundKeys(key: Key)
    ensures RoundKey(Expanded(key), 0) == State(Word(key[0], key[1], key[2], key[3]), Word(key[4], key[5], key[6], key[7]),
                                               Word(key[8], key[9], key[10], key[11]), Word(key[12], key[13], key[14], key[15]))
    ensures RoundKey(Expanded(key), 1) == State(Word(key[16], key[17], key[18], key[19]), Word(key[20], key[21], key[22], key[23]),
                                               Word(key[24], key[25], key[26], key[27]), Word(key[28], key[29], key[30], key[31]))
  {
    hide Expanded, RoundKey, KeyWord, Word;
    RoundKeyWords(key, 0);
    RoundKeyWords(key, 1);
    KeyHead(key, 0);
    KeyHead(key, 1);
    KeyHead(key, 2);
    KeyHead(key, 3);
    KeyHead(key, 4);
    KeyHead(key, 5);
    KeyHead(key, 6);
    KeyHead(key, 7);
  }

  method ExpandNi(key: Key) returns (k: seq<State>)
    ensures |k| == ROUNDS + 1 && forall r :: 0 <= r <= ROUNDS ==> k[r] == RoundKey(Expanded(key), r)
  {
    hide Expanded, RoundKey, FirstHalf, SecondHalf, KeyGenAssist, XPower, XTime, Word;
    ghost var w := Expanded(key);
    var rcon: bv8 := 0x01;
    RoundConstantStarts();
    FirstRoundKeys(key);
    var t1 := State(Word(key[0], key[1], key[2], key[3]), Word(key[4], key[5], key[6], key[7]),
                    Word(key[8], key[9], key[10], key[11]), Word(key[12], key[13], key[14], key[15]));
    var t2 := State(Word(key[16], key[17], key[18], key[19]), Word(key[20], key[21], key[22], key[23]),
                    Word(key[24], key[25], key[26], key[27]), Word(key[28], key[29], key[30], key[31]));
    k := [t1, t2];
    for i := 1 to 7
      invariant |k| == 2 * i && forall r :: 0 <= r < 2 * i ==> k[r] == RoundKey(w, r)
      invariant t1 == RoundKey(w, 2 * i - 2) && t2 == RoundKey(w, 2 * i - 1) && rcon == XPower(i - 1)
    {
      EvenRoundKey(key, i);
      OddRoundKey(key, i);
      RoundConstantNext(i);
      t1 := FirstHalf(t1, KeyGenAssist(t2, rcon));
      t2 := SecondHalf(t1, t2);
      rcon := XTime(rcon);
      k := k + [t1, t2];
    }
    EvenRoundKey(key, 7);
    k := k + [FirstHalf(t1, KeyGenAssist(t2, rcon))];
  }

  method InitNi(key: Key) returns (k: seq<State>)
    ensures Scheduled(k, Expanded(key))
  {
    hide Expanded, RoundKey, InvMixColumns;
    ghost var w := Expanded(key);
    k := ExpandNi(key);
    for r := 15 to 28
      invariant |k| == r && forall q :: 0 <= q <= ROUNDS ==> k[q] == RoundKey(w, q)
      invariant forall q :: ROUNDS < q < r ==> k[q] == InvMixColumns(RoundKey(w, 28 - q))
    {
      k := k + [InvMixColumns(k[28 - r])];
    }
  }

  lemma RoundConstantStarts()
    ensures XPower(0) == 0x01
  {
  }

  lemma RoundConstantNext(i: nat)
    requires i > 0
    ensures XPower(i) == XTime(XPower(i - 1))
  {
    hide XTime;
  }

  // ---- the block functions ----

  method EncryptNi(k: seq<State>, ghost w: Schedule, input: Block) returns (output: Block)
    requires Scheduled(k, w)
    ensures output == KeyedBy(w).enc(input)
  {
    hide AddRoundKey, MixColumns, ShiftSub, RoundKey, Load, Store, Inverted, InvCipher;
    var s := Load(input);
    var tmp := AddRoundKey(s, k[0]);
    for r := 1 to ROUNDS
      invariant tmp == Rounds(w, s, r - 1)
    {
      tmp := AesEnc(tmp, k[r]);
    }
    output := Store(AesEncLast(tmp, k[14]));
  }

  method DecryptNi(k: seq<State>, ghost w: Schedule, input: Block) returns (output: Block)
    requires Scheduled(k, w)
    ensures output == KeyedBy(w).dec(input)
  {
    hide AddRoundKey, InvMixColumns, InvShiftSub, RoundKey, Load, Store, Inverted, Cipher;
    ghost var dw := Inverted(w);
    var s := Load(input);
    InvertedKey(w, 0);
    var tmp := AddRoundKey(s, k[14]);
    for r := 1 to ROUNDS
      invariant tmp == InvRounds(dw, s, r - 1)
    {
      InvertedKey(w, r);
      tmp := AesDec(tmp, k[ROUNDS + r]);
    }
    InvertedKey(w, ROUNDS);
    output := Store(AesDecLast(tmp, k[0]));
  }
}
