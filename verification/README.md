# Verification of the ZeroTier core

Dafny models, with machine-checked proofs, of four parts of the ZeroTier network
virtualization core under `externals/core`. `dafny verify dfyconfig.toml` checks everything.

**The cipher stack** (`node/AES.cpp`, `node/AES.hpp`, `node/AES_aesni.cpp`). AES-256 by tables
and by processor instructions, GMAC, CTR and the two-pass AEAD construction AES-GMAC-SIV built from
them. The reference definitions are those of the standards: FIPS 197 for the cipher and its
equivalent inverse, NIST SP 800-38D for the field GF(2^128) and GHASH, NIST SP 800-38A for
counter mode. The layers:

- `AesTables`, `AesCore`, `Aes`, `AesNi`: tables, byte field, the block cipher in software and hardware;
- `Bits`, `CarryLess`, `Multiplier32`: bit strings, carry-less products, and the multiplier that gets
  them from ordinary multiplication with holes between the bits;
- `Gf128`, `GfMul`, `GfMulNi`: the field, the software product with its two levels of Karatsuba, the
  hardware product and its aggregation of four blocks;
- `BlockCipher`, `AesInstance`: a block cipher as a pair of functions, and the AES object that computes
  one for its key on either processor path;
- `Gmac`, `CtrBlocks`, `Ctr`, `Siv`: the streaming objects over AES objects, the software counter loop with
  its own unrolled rounds, and the message protocol;
- `GmacStandard`, `SivStandard`: GMAC as the standard defines it and a sealed message in one formula, and that
  the objects compute these.

The end result is `Siv.RoundTrip`: from any two keys, with three independent chunkings and with or
without hardware on either side, the plaintext comes back and verifies; `Siv.AcceptsExactlySealed` adds
that nothing else does.

**The controller's member store and address allocator** (`controller/DB.cpp`, `FileDB.cpp`,
`DBMirrorSet.cpp`, `EmbeddedNetworkController.cpp`). `Records` is the JSON the controller reads,
`ControllerDb` the store and its operations, `ControllerIndex` what its indexes are worth,
`IpAllocator` the probing of address pools, `Controller` requests as steps, and `Requests` what a request does
to the member that asks. `MirrorPass` is the periodic
synchronization of several stores seen under one key, `StoreKeys` and `MirrorSet` that synchronization on
the stores, and `MirrorSave` a save that is passed on from store to store. The end results are
`Controller.NeverShared`, that no two members of a network ever hold the same address, and
`Requests.AuthorizedAfterIff`, who becomes authorized.

**The connection pool** (`controller/ConnectionPool.hpp`), with the references held by clients part
of the state: `ConnectionPool`.

**The multipath bond** (`node/Bond.cpp`): `Bond` for the re-formation of the table of bonded paths,
`RoundRobin` for striping, `BondFlows` for flow accounting. `Common`, `Ranks` and `Division` hold what several parts share.

## Findings

Places where the code does not do what its names, comments or callers suggest. Each is a lemma.

- The record comparison ignores a new field when the incoming record has no revision
  (`Records.AddedFieldOverlooked`). It is equality of content exactly among records that agree in
  carrying one (`Records.ComparesContentIff`).
- The address index loses an address that two members hold when either gives it up
  (`ControllerIndex.SharedAddressLost`); it stays right exactly when that does not happen
  (`ControllerIndex.AddressesStayExactIff`).
- The last address of an IPv4 pool is never tried unless it is the only one
  (`IpAllocator.CandidateInPool`). Pools beyond 1000 further addresses are not covered, and a pool of
  fewer may not be when the 32-bit trial counter wraps (`IpAllocator.UnwrappedCoversIff`,
  `IpAllocator.WrappedCoversIff`): six further addresses are enough for that (`IpAllocator.SixNotCovered`).
- Storing a member adds nulls for missing fields to the record that is passed on, so that the stores of a
  mirror set end up with different contents exactly in the cases of `MirrorSave.AllAlikeIff`; records the
  controller initialised are safe (`ControllerDb.InitialisedIsSettled`).
- A record saved without a revision, as every new network is, is not taken for unchanged when its content is
  stored already: it is saved anew and its revision starts over at one (`StoreKeys.SavedAnewIff`).
- One synchronization pass is enough for two stores without ties; three may need two passes
  (`MirrorPass.OnePassSettlesIff`, `MirrorPass.ThreeStoresSettle`), and four may exchange two
  contents for ever, their revisions growing (`MirrorPass.FourStoresNeverRest`). Any number of stores agree, ties
  apart, once they rest (`MirrorPass.AtRestAgreesIff`), and a record far enough ahead wins in one pass
  (`MirrorPass.AheadWins`). Three and four stores are a matter of the class alone: the program adds at most two
  (`controller/EmbeddedNetworkController.cpp:561`, `564` and `591`).
- A store that learns of a network through one of its members never gets the configuration from the other
  stores (`MirrorSet.MemberMakesBare`, `MirrorSet.ConfiguredAfterIff`).
- A pool with a minimum above its maximum exceeds the maximum from the start
  (`ConnectionPool.WithinMaxIff`).
- A bonded path that is dropped because its link is gone or it expired does not make the bond form anew while
  another bonded path is alive: the table goes on listing the emptied slot (`Bond.Bond.Curate`,
  `Bond.UnflaggedIff`).
- The setter for the packets per link takes any number, and round robin is fair exactly for shares below
  65536 (`RoundRobin.FairIff`). This is a fact about the setter (`node/Bond.hpp:1062`) alone: it is called on
  templates only (`service/OneService.cpp:2369`), the overlay of a template on a bond does not copy the
  share (`node/Bond.cpp:2003-2014`), and every bond starts with 64 (`node/Bond.cpp:1987`).
- The limit on flows cannot be reached by creating one (`BondFlows.LimitNeverReached`), so the eviction behind
  it is never entered. Were it entered, it would take the first flow that has an age rather than the oldest
  (`BondFlows.VictimOldestIff`).
- The comment in `node/AES.hpp` allows 2^31 bytes per message; the code is right for any length that
  its 32-bit length field can hold, which is what is proved.

## Reading guide

A class method is proved against a function of the old state, and what is promised is proved about
that function. `Holds`, `Valid` and similar predicates say which message or history a mutable object
stands for. Lemmas that end in `Iff` give the exact condition under which the code keeps a property.
`hide` at the head of a proof names the definitions the proof does not look into.

## Model

| member | source | states |
|---|---|---|
| `AesCore.SBoxIsAffineOfInverse` | externals/core/node/AES.cpp:627-682 | Every entry of Te4 is the S-box of section 5.1.1 of FIPS 197: the affine map of the inverse in GF(2^8) |
| `AesCore.Td4AfterS` | externals/core/node/AES.cpp:739-763 | Td4 undoes the S-box on every byte |
| `AesCore.SAfterTd4` | externals/core/node/AES.cpp:739-763 | The S-box undoes Td4, so both are permutations |
| `AesCore.Te0Meaning` | externals/core/node/AES.cpp:571-626 | Te0 holds the MixColumns column (2, 1, 1, 3) of the substituted byte |
| `AesCore.Td0Meaning` | externals/core/node/AES.cpp:683-738 | Td0 holds the InvMixColumns column (14, 9, 13, 11) of the inversely substituted byte |
| `AesCore.Multipliers` | externals/core/node/AES.cpp:571-738 | The multipliers built from shifts are multiplication by 2, 3, 9, 11, 13 and 14 in GF(2^8), modulo the polynomial of section 4.2 |
| `AesCore.InvMixAfterMix` | externals/core/node/AES.cpp:683-738 | The InvMixColumns matrix undoes the MixColumns matrix on every column |
| `AesCore.MixAfterInvMix` | externals/core/node/AES.cpp:571-626 | The converse: MixColumns undoes InvMixColumns |
| `AesCore.InvMixLinear` | externals/core/node/AES.cpp:821-835 | InvMixColumns distributes over the round key addition, which is what lets the inverse cipher keep the order of its rounds |
| `Aes.EncryptRoundIsRound` | externals/core/node/AES.cpp:850-953 | One table round is SubBytes, ShiftRows, MixColumns, AddRoundKey of FIPS 197 |
| `Aes.DecryptRoundIsRound` | externals/core/node/AES.cpp:977-1081 | One table round of decryption is a round of the equivalent inverse cipher (section 5.3.5) |
| `Aes.TeSubIsSBox` | externals/core/node/AES.cpp:954-966 | The masked entries of Te0 used in the last round are four S-box lookups |
| `Aes.WalkBack` | externals/core/node/AES.cpp:969-1095 | After r inverse rounds on a ciphertext the state is the one 13 - r encryption rounds left, for every r |
| `Aes.WalkForth` | externals/core/node/AES.cpp:838-967 | The same walk in the other direction |
| `Aes.TableRounds` | externals/core/node/AES.cpp:850-966 | Thirteen table rounds and the masked last round, from the state after the first key addition, are the FIPS 197 cipher of the block |
| `Aes.DecryptAfterEncrypt` | externals/core/node/AES.cpp:838-1095 | For every schedule and state the equivalent inverse cipher, with the reversed schedule and InvMixColumns on the 13 inner round keys, undoes the cipher |
| `Aes.EncryptAfterDecrypt` | externals/core/node/AES.cpp:838-1095 | And the cipher undoes it |
| `Aes.StoreLoad` | externals/core/node/AES.cpp:838-850 | Loading a block into big-endian words and storing them gives the block back |
| `Aes.AesIsPermutation` | externals/core/node/AES.hpp:101-135 | Keyed with any schedule, encryption and decryption of blocks are mutually inverse |
| `Aes.EncryptSW` | externals/core/node/AES.cpp:838-967 | The software encryption computes the FIPS 197 cipher on every block |
| `Aes.DecryptSW` | externals/core/node/AES.cpp:969-1095 | The software decryption computes the equivalent inverse cipher, so the inverse of encryption when given the inverted schedule |
| `Aes.RconPowers` | externals/core/node/AES.cpp:764-766 | The round constants in use are the powers of x |
| `Aes.ExpandKey` | externals/core/node/AES.cpp:771-800 | The expansion loop, left in the middle of its last turn, writes exactly the 60 words of section 5.2 |
| `Aes.InvertSchedule` | externals/core/node/AES.cpp:806-835 | The in-place swaps and table lookups turn the schedule into that of the equivalent inverse cipher |
| `Aes.InitSW` | externals/core/node/AES.cpp:768-836 | Key setup leaves the expanded key, its inverse and the hash key, the encrypted zero block |
| `AesNi.RoundKeyIsSums` | externals/core/node/AES_aesni.cpp:187-216 | The shift-and-xor of a register computes the running sums that make the next four words of the key expansion |
| `AesNi.EvenRoundKey` | externals/core/node/AES_aesni.cpp:187-199 | p_init256_1 with the key generation instruction computes every even round key |
| `AesNi.OddRoundKey` | externals/core/node/AES_aesni.cpp:204-216 | p_init256_2 computes every odd round key |
| `AesNi.InitNi` | externals/core/node/AES_aesni.cpp:568-599 | All 28 registers: the FIPS 197 round keys and, last to first, InvMixColumns of the inner ones |
| `AesNi.EncryptNi` | externals/core/node/AES_aesni.cpp:632-650 | Encryption with AES instructions is the same permutation as in software |
| `AesNi.DecryptNi` | externals/core/node/AES_aesni.cpp:655-674 | And so is decryption |
| `AesInstance.Instance.constructor` | externals/core/node/AES.hpp:79-93 | Key setup by either processor path leaves an object whose schedules, hash key and, on the hardware path, powers of the hash key are those of its key |
| `AesInstance.PowersOfHashKey` | externals/core/node/AES_aesni.cpp:614-626 | The four powers of the hash key and their folded halves, computed once in key setup |
| `AesInstance.Instance.Encrypt` | externals/core/node/AES.hpp:101-115 | Whichever path the processor takes, one block is encrypted as FIPS 197 demands under the object's key |
| `AesInstance.Instance.Decrypt` | externals/core/node/AES.hpp:123-136 | and decrypted by its inverse |
| `AesInstance.IsPermutation` | externals/core/node/AES.hpp:101-136 | For every key the two functions of an object are mutually inverse |
| `AesInstance.SameKeySameCipher` | externals/core/node/AES.hpp:79-136 | Objects with one key compute the same, whatever processor set them up |
| `Bits.ToBitsOfValue` | externals/core/node/AES.cpp:43-50 | Words as bit strings and as numbers correspond |
| `CarryLess.KaratsubaIsProduct` | externals/core/node/AES.cpp:67-98 | Three half-size carry-less products make the full one |
| `Multiplier32.ColumnParity` | externals/core/node/AES.cpp:43-48 | A column of the schoolbook product holds at most as many ones as the factor has bits, and its parity is the carry-less coefficient |
| `Multiplier32.ColumnsAreProduct` | externals/core/node/AES.cpp:43-45 | The integer product of two spread words is the sum of its columns to the base 16 |
| `Multiplier32.NoCarry` | externals/core/node/AES.cpp:43-48 | Columns of fewer than 16 do not carry into each other, so the sampled bit of a group is the parity of its column |
| `Multiplier32.SampledProduct` | externals/core/node/AES.cpp:43-48 | At the sampled bits the integer product of two masked words agrees with the carry-less product |
| `Multiplier32.MaskedProduct` | externals/core/node/AES.cpp:35-48 | Two masks meet only at the bits whose position is congruent to the sum of theirs |
| `Multiplier32.Bmul32IsClMul` | externals/core/node/AES.cpp:34-50 | For every pair of words s_bmul32 returns exactly their 63-bit carry-less product |
| `Gf128.SerialIsApply` | externals/core/node/AES.cpp:52-56 | The bit-serial product of section 6.3 of NIST SP 800-38D is one factor, as a polynomial in multiplication by x, applied to the other |
| `Gf128.ProductCommutative` | externals/core/node/AES.cpp:52-109 | The field product commutes |
| `Gf128.ProductAssociative` | externals/core/node/AES_aesni.cpp:615-622 | and associates, which is what precomputed powers of the hash key rest on |
| `Gf128.ProductDistributes` | externals/core/node/AES.cpp:52-109 | and is linear in the block |
| `Gf128.PowerOverflow` | externals/core/node/AES.cpp:103-106 | x^128 acts as the field polynomial without its leading term |
| `GfMul.Mul64IsClMul` | externals/core/node/AES.cpp:68-74 | Each group of three word products is a 64-bit carry-less product |
| `GfMul.Mul128IsClMul` | externals/core/node/AES.cpp:57-98 | The nine word products, combined by two levels of Karatsuba, are the 256-bit carry-less product |
| `GfMul.ShiftedProduct` | externals/core/node/AES.cpp:99-102 | Bit-reflected factors multiply to the reflected product shifted by one bit |
| `GfMul.ReduceIsResidue` | externals/core/node/AES.cpp:103-106 | The folding reduction is the residue modulo the field polynomial |
| `GfMul.GfMul` | externals/core/node/AES.cpp:52-109 | s_gfmul overwrites y0:y1 with the product of section 6.3 of NIST SP 800-38D, for every H and Y |
| `GfMulNi.ShiftAndFoldIsReduce` | externals/core/node/AES_aesni.cpp:44-49 | The lane shifts of the hardware reduction, spills included, compute shift and residue |
| `GfMulNi.MulNiIsProduct` | externals/core/node/AES_aesni.cpp:32-51 | p_gmacPCLMUL128 computes the same field product |
| `GfMulNi.FourBlocksIsSum` | externals/core/node/AES_aesni.cpp:259-272 | One reduction of the four summed Karatsuba products is the sum of four field products |
| `GfMulNi.FourBlocksIsFourSteps` | externals/core/node/AES_aesni.cpp:254-273 | The 64-byte turn with H to H^4 equals four sequential steps Y := (Y + X) H |
| `BlockCipher.BlockRoundTrip` | externals/core/node/AES.cpp:144-145 | No block is lost between bytes and field elements |
| `GmacStandard.BlockIsNumber` | externals/core/node/AES.cpp:144-145 | The bit string of a block is the 128-bit number its bytes stand for, most significant byte and bit first |
| `Gmac.GhashConcat` | externals/core/node/AES.cpp:152-161 | GHASH of a concatenation continues from GHASH of its first part |
| `Gmac.GhashQuad` | externals/core/node/AES_aesni.cpp:254-274 | Four blocks of GHASH are four field steps |
| `Gmac.Gmac.constructor` | externals/core/node/AES.hpp:172 | A fresh object on an AES object |
| `Gmac.Gmac.Init` | externals/core/node/AES.hpp:179-198 | Starts an empty message under the vector |
| `Gmac.Gmac.TimesH` | externals/core/node/AES_aesni.cpp:32-51 | Whichever multiplier the processor has, the result is the field product with the hash key |
| `Gmac.Gmac.Complete` | externals/core/node/AES.cpp:136-150 | Bytes for a buffered block either complete and absorb it or leave it waiting |
| `Gmac.Gmac.AbsorbQuads` | externals/core/node/AES_aesni.cpp:243-274 | The 64-byte loop computes GHASH of the bytes it consumes |
| `Gmac.Gmac.AbsorbSingles` | externals/core/node/AES.cpp:152-158 | The 16-byte loop computes GHASH of all whole blocks |
| `Gmac.Gmac.Update` | externals/core/node/AES.cpp:113-167 | After any call the state is GHASH of the whole blocks so far, a buffered tail shorter than 16 bytes and the length; the message has grown by the input |
| `Gmac.Gmac.Finish` | externals/core/node/AES.cpp:169-212 | Returns the GMAC tag of the whole message: tail padded once, length block, mask of the first counter |
| `Gmac.TagOfChunks` | externals/core/node/AES.cpp:113-212 | Whatever the chunks and the processor, the tag is that of the concatenation under the AES object's key |
| `GmacStandard.LengthBlockIs` | externals/core/node/AES.cpp:198-199 | The block that ends the hash holds the length in bits, big-endian, in its first eight bytes and zeros in its last |
| `GmacStandard.GhashIsGhash` | externals/core/node/AES.cpp:152-161 | The hash the object keeps is GHASH of section 6.4 of NIST SP 800-38D on blocks of bytes |
| `GmacStandard.TagIsGmac` | externals/core/node/AES.cpp:113-212 | For every key, vector and message the tag is GMAC as section 7 of NIST SP 800-38D defines it: the encrypted first counter block plus GHASH of the data, zeros up to a whole block and the lengths; the length counts modulo 2^32 |
| `Ctr.CryptTwice` | externals/core/node/AES.hpp:276-282 | Applying the key stream twice gives the message back |
| `Ctr.CounterClosedForm` | externals/core/node/AES.cpp:235-249 | Counter block j is the initial block plus j in its last 32 (software) or 64 (hardware) bits, modulo that width |
| `Ctr.CountersAgree` | externals/core/node/AES_aesni.cpp:370-371 | The 32-bit and the 64-bit counter agree on block j if and only if the last word has not overflowed by then |
| `Ctr.MaskedCountersAgree` | externals/core/node/AES.hpp:400-402 | With the top bit of the counter cleared they agree for every 32-bit message length |
| `Ctr.PathsAgree` | externals/core/node/AES_aesni.cpp:368-561 | So both paths produce the same bytes from a masked counter |
| `Ctr.CryptPush` | externals/core/node/AES.cpp:262-547 | One more block, or a last incomplete one, extends the output by itself combined with its counter block |
| `Ctr.PartialComplete` | externals/core/node/AES.cpp:238-257 | Bytes that complete a pending block replace the raw tail by that block combined with the key stream |
| `Ctr.Ctr.Init` | externals/core/node/AES.hpp:256-260 | Starts an empty stream into the output |
| `Ctr.Ctr.CombinePending` | externals/core/node/AES.cpp:246-254 | A full pending block is combined in place with its counter block, and the counter advances |
| `Ctr.Ctr.Complete` | externals/core/node/AES.cpp:238-257 | Completes the pending block as far as the input reaches, or leaves it pending |
| `Ctr.Ctr.CryptBlock` | externals/core/node/AES_aesni.cpp:533-553 | One whole block on the hardware path goes straight to the output, combined with the encrypted counter block |
| `Ctr.Ctr.CryptUnrolled` | externals/core/node/AES.cpp:262-547 | The software loops with their own rounds, precomputed words and 32-bit running counter, on aligned buffers or not and in either byte order, extend the stream by all whole blocks and leave the next counter block |
| `Ctr.Ctr.PutCrypted` | externals/core/node/AES.cpp:399-542 | A block combined with its block of key stream is stored behind the whole blocks before it |
| `CtrBlocks.WordsAreBytes` | externals/core/node/AES.cpp:399-402 | Combining two columns with eight input bytes as one machine word, on a little-endian or big-endian machine, is combining the bytes in network order |
| `CtrBlocks.CombineWords` | externals/core/node/AES.cpp:399-402 | The aligned loop stores the input block combined with the cipher state, as two 64-bit words |
| `CtrBlocks.CombineBytes` | externals/core/node/AES.cpp:526-541 | The unaligned loop stores the same sixteen bytes |
| `CtrBlocks.InnerBlock` | externals/core/node/AES.cpp:264-544 | From the counter block's words with the first round key already added, the unrolled rounds give AES of the counter block, combined with the input in either way |
| `Ctr.NextIsIncrement` | externals/core/node/AES.cpp:235-249 | Adding one to the last word modulo 2^32 is the 32-bit incrementing function of the standard |
| `Ctr.Ctr.CryptQuads` | externals/core/node/AES_aesni.cpp:449-530 | The hardware loop over four blocks keeps the same state as four single blocks |
| `Ctr.Ctr.CryptSingles` | externals/core/node/AES_aesni.cpp:533-553 | The hardware loop over single blocks processes all whole blocks |
| `Ctr.Ctr.CryptHardware` | externals/core/node/AES_aesni.cpp:448-553 | The hardware loops one after the other process all whole blocks |
| `Ctr.Ctr.Crypt` | externals/core/node/AES.cpp:216-556 | Between calls whole blocks are final, the tail holds raw input and the counter is the start plus the blocks done; the stream has grown by the input |
| `Ctr.Ctr.Finish` | externals/core/node/AES.cpp:558-567 | After finish the output is the input combined with the key stream, to the last byte |
| `Siv.OpenAfterSeal` | externals/core/node/AES.hpp:316-517 | Opening a sealed message yields the message and succeeds |
| `Siv.SealAfterOpen` | externals/core/node/AES.hpp:316-517 | Whatever opens was sealed, from the vector and plaintext recovered |
| `Siv.AcceptsExactlySealed` | externals/core/node/AES.hpp:503-510 | The decryptor accepts a tag and ciphertext if and only if the encryptor produces them for some vector and plaintext |
| `Siv.AesRoundTrip` | externals/core/node/AES.hpp:316-517 | With AES for both ciphers the round trip holds for all keys, nothing assumed |
| `Siv.SameOnBothPaths` | externals/core/node/AES.hpp:391-402 | The processor path does not show in any sealed message shorter than 2^32 bytes |
| `Siv.FoldIsWords` | externals/core/node/AES.hpp:389 | The 64-bit MAC is the exclusive or of the two machine words of the GMAC tag, on machines of either byte order |
| `Siv.FoldOfHalf` | externals/core/node/AES.hpp:509 | A tag of which one half is zero folds to its other half |
| `Siv.CtrIvIs` | externals/core/node/AES.hpp:400-402 | CTR starts from the tag with its last word taken modulo 2^31 |
| `SivStandard.SealIs` | externals/core/node/AES.hpp:334-429 | A sealed message in one formula of the two block ciphers: the tag encrypts the vector and the two halves of GMAC combined, and byte i of the text is combined with byte i mod 16 of the encrypted counter block i div 16 |
| `Siv.Encryptor.Init` | externals/core/node/AES.hpp:334-342 | Starts the first pass with the message vector padded to 96 bits |
| `Siv.Encryptor.Aad` | externals/core/node/AES.hpp:355-364 | Additional data is hashed first, padded to whole blocks |
| `Siv.Encryptor.Update1` | externals/core/node/AES.hpp:372-374 | First pass: the chunk is hashed behind what came before |
| `Siv.Encryptor.Finish1` | externals/core/node/AES.hpp:379-404 | Between the passes the folded tag joins the vector, both are encrypted and CTR starts from the masked block |
| `Siv.Encryptor.Update2` | externals/core/node/AES.hpp:414-416 | Second pass: the chunk is encrypted behind what came before |
| `Siv.Encryptor.Finish2` | externals/core/node/AES.hpp:426-429 | Returns the combined block; the output is the whole ciphertext |
| `Siv.Decryptor.Init` | externals/core/node/AES.hpp:455-469 | Recovers vector and MAC and starts CTR from the masked block |
| `Siv.Decryptor.Aad` | externals/core/node/AES.hpp:477-483 | As in the encryptor |
| `Siv.Decryptor.Update` | externals/core/node/AES.hpp:493-496 | The chunk is decrypted behind what came before |
| `Siv.Decryptor.Finish` | externals/core/node/AES.hpp:503-510 | Returns whether the recomputed MAC of the recovered plaintext is the one received |
| `Siv.SealChunks` | externals/core/node/AES.hpp:334-429 | Both passes over the same plaintext, each in its own chunks, produce the sealed message under the keys of the two AES objects |
| `Siv.OpenChunks` | externals/core/node/AES.hpp:455-510 | One pass over the ciphertext in any chunks opens it |
| `Siv.RoundTrip` | externals/core/node/AES.hpp:334-510 | From two keys: AES objects of any kind of processor, byte order and alignment on either side, three independent chunkings; the message comes back and the check succeeds |
| `Records.CompareRecords` | externals/core/controller/DB.hpp:161-181 | The comparison loop decides exactly Same: equality up to the revision, except when only the first record has a revision |
| `Records.ReadersAgree` | externals/core/osdep/OSUtils.cpp:474-541 | What the readers of the program make of numbers, booleans, strings and everything else |
| `Records.ComparesContentIff` | externals/core/controller/DB.hpp:161-181 | Against a given record the comparison is equality of content, over all records with a revision or all without one, if and only if these are like the given record in that |
| `Records.AddedFieldOverlooked` | externals/core/controller/DB.hpp:161-181 | A record sent back without its revision but with one new field counts as unchanged, although its content differs |
| `Records.BumpKeepsContent` | externals/core/controller/FileDB.cpp:95 | Advancing the counter, modulo 2^64, changes no other field and no assigned address |
| `ControllerDb.FileDb.Get` | externals/core/controller/DB.cpp:111-127 | Finds exactly the stored configuration |
| `ControllerDb.FileDb.GetMember` | externals/core/controller/DB.cpp:129-150 | Finds exactly the stored member; the configuration is returned even if the member is unknown |
| `ControllerDb.FileDb.GetWithSummary` | externals/core/controller/DB.cpp:152-174 | The summary is that of the network, also when the member is not found |
| `ControllerIndex.SummaryIs` | externals/core/controller/DB.cpp:396-406 | In every reachable store the summary lists exactly the bridges, counts the authorized and all members, contains no address nobody holds, and its time is not before any deauthorization; in runs of saves that claim free addresses its addresses are exactly those held |
| `ControllerDb.FileDb.OnMemberChanged` | externals/core/controller/DB.cpp:206-346 | The whole new store: old record taken out of the indexes, new one stored and indexed under the old key if that network is known; and the caller's record with the looked-up fields that were missing filled in as nulls |
| `ControllerDb.FileDb.OnNetworkChanged` | externals/core/controller/DB.cpp:348-394 | The whole new store after a configuration is stored or a network dropped; a configuration whose id is no string is refused |
| `ControllerDb.FileDb.SaveRecord` | externals/core/controller/FileDB.cpp:83-140 | The new store, the verdict and the caller's record as it is left: revision advanced and looked-up fields filled in when stored, only the latter when refused; nothing is stored when the stored record compares equal |
| `Records.FilledContent` | externals/core/controller/DB.cpp:269-292 | Looking fields up in place leaves the content as it was if and only if they were all there |
| `ControllerDb.InitialisedIsSettled` | externals/core/controller/DB.cpp:63-87 | A member record initialised by the controller, whatever its fields are then set to, has all the fields that storing it looks up |
| `ControllerDb.SettledIff` | externals/core/controller/DB.cpp:269-292 | Which fields storing a member looks up |
| `ControllerDb.InitMemberField` | externals/core/controller/DB.cpp:63-87 | Initialising a member keeps its fields and gives those it lacks their defaults: not authorized, no bridge, no assignments |
| `ControllerDb.InitMemberMakes` | externals/core/controller/DB.cpp:83-86 | It sets the type, and resets the trace level unless there is a field of a misspelled name |
| `ControllerDb.FileDb.EraseNetworkRecord` | externals/core/controller/FileDB.cpp:142-156 | Drops the network only if it has a configuration |
| `ControllerDb.FileDb.EraseMemberRecord` | externals/core/controller/FileDB.cpp:158-169 | Removes the member with the stored record as the old one |
| `StoreKeys.EraseLookups` | externals/core/controller/FileDB.cpp:142-169 | Erasing a member takes away its record and no other; erasing a network with a configuration, all of its records and no others |
| `ControllerIndex.ApplyIsEffect` | externals/core/controller/FileDB.cpp:83-169 | On a consistent store each operation has exactly one of five effects, always on the key the record carries |
| `ControllerIndex.ConsistentAfter` | externals/core/controller/DB.cpp:206-346 | Every save and erase, whatever the record, keeps keys, both flag indexes exact, deauthorization times bounded and every indexed address held by someone |
| `ControllerIndex.ReachableConsistent` | externals/core/controller/FileDB.cpp:83-169 | Hence all of this holds in every reachable store |
| `ControllerIndex.DeauthNeverDecreases` | externals/core/controller/DB.cpp:290-295 | While a network is stored its latest deauthorization time never goes back |
| `ControllerIndex.DeauthAfter` | externals/core/controller/DB.cpp:290-295 | The latest time is that before the operation, zero for a new network, or the signed time of the unauthorized member just stored if later |
| `ControllerIndex.AddressesStayExactIff` | externals/core/controller/DB.cpp:235-245 | From a right address index, one operation leaves it right if and only if no address it takes from a member is held by another member too |
| `ControllerIndex.ApartAfter` | externals/core/controller/DB.cpp:235-288 | A save that claims only addresses no other member holds keeps members apart and the index equal to the union |
| `ControllerIndex.ReachableApart` | externals/core/controller/DB.cpp:206-346 | In runs of such operations no two members ever share an address and the index is exactly the union |
| `ControllerIndex.SharedAddressLost` | externals/core/controller/DB.cpp:235-245 | Erasing one of two holders of an address removes it from the index while the other still holds it |
| `ControllerIndex.SharedAddressReachable` | externals/core/controller/DB.cpp:235-245 | Two saves and an erase reach such a state |
| `IpAllocator.RouteBits4` | externals/core/controller/EmbeddedNetworkController.cpp:2012-2025 | Returns the length of the first matching route, if any matches |
| `IpAllocator.Routes4Iff` | externals/core/controller/EmbeddedNetworkController.cpp:2012-2022 | A route matches exactly the block of addresses that begins at its target, aligned and of the size its prefix length leaves; lengths outside 1 to 32 match nothing |
| `IpAllocator.ProbePool4` | externals/core/controller/EmbeddedNetworkController.cpp:1995-2048 | The probing loop, with its wrapping 32-bit variables, is the search for the first acceptable trial |
| `IpAllocator.ProbeFindsFirst` | externals/core/controller/EmbeddedNetworkController.cpp:2001-2048 | A result is the candidate of the least acceptable trial; no result means that no trial was acceptable |
| `IpAllocator.CandidateInPool` | externals/core/controller/EmbeddedNetworkController.cpp:2004-2006 | Candidates lie in the pool; the last address is one only in a pool of a single address |
| `IpAllocator.TriedIff` | externals/core/controller/EmbeddedNetworkController.cpp:1995-2007 | Exactly which addresses the trials reach: those a short way round the pool from where the counter starts, and after a wrap those at the beginning of the pool |
| `IpAllocator.CoversPoolIff` | externals/core/controller/EmbeddedNetworkController.cpp:1995-2007 | For every pool and every start of the 32-bit counter, wrapping included, the m addresses but the last are all tried if and only if m <= n and j >= m, n - j >= m or (n - 2^32) mod m <= n - m, for n trials of which j come before the wrap |
| `IpAllocator.UnwrappedCoversIff` | externals/core/controller/EmbeddedNetworkController.cpp:1995-2007 | When the counter does not wrap the pool is covered if and only if it has at most 1000 addresses beside the last |
| `IpAllocator.ProbeCompleteIff` | externals/core/controller/EmbeddedNetworkController.cpp:1995-2048 | Probing finds an address whenever one but the last is acceptable, for all routes and all addresses in use, if and only if the trials reach every address but the last and those ending in .255 |
| `IpAllocator.ProbeSucceedsIff` | externals/core/controller/EmbeddedNetworkController.cpp:1995-2048 | Probing succeeds if and only if some tried address is acceptable |
| `IpAllocator.SmallPoolYields` | externals/core/controller/EmbeddedNetworkController.cpp:1995-2048 | A pool of up to 1000 addresses beside the last, inside the block of a route and not probed across a wrap, yields an address whenever a free one does not end in .255 |
| `IpAllocator.WrappedCoversIff` | externals/core/controller/EmbeddedNetworkController.cpp:1997-2007 | When the counter wraps, a pool with m <= 1000 addresses beside the last is covered if and only if m < 1000 and the wrap comes after the first trial, before the last but one, or 2^32 leaves a remainder of at most one modulo m |
| `IpAllocator.SixNotCovered` | externals/core/controller/EmbeddedNetworkController.cpp:1995-2007 | A pool of six addresses beside the last, probed from a counter two short of 2^32, is not covered, wherever it starts |
| `IpAllocator.ProbePools4` | externals/core/controller/EmbeddedNetworkController.cpp:1976-2052 | Pools are probed in order until one yields; reversed pools and pools starting at 0.0.0.0 are skipped |
| `IpAllocator.FirstPoolGives` | externals/core/controller/EmbeddedNetworkController.cpp:1976-2052 | The address comes from the first pool that has one to give; which pools are passed over |
| `IpAllocator.Assigned4IsAcceptable` | externals/core/controller/EmbeddedNetworkController.cpp:1976-2052 | What is assigned is routed, free, new to the member, does not end in .255 and lies in a probed pool |
| `IpAllocator.RouteBits6` | externals/core/controller/EmbeddedNetworkController.cpp:1943-1951 | Returns the length of the last matching route without gateway, which may be zero |
| `IpAllocator.LastBits6Is` | externals/core/controller/EmbeddedNetworkController.cpp:1943-1951 | It belongs to a matching route behind which no other matches, and is zero without one |
| `IpAllocator.Routes6Iff` | externals/core/controller/EmbeddedNetworkController.cpp:1943-1951 | A route without gateway matches exactly the aligned block of 128-bit numbers that begins at its target |
| `IpAllocator.ProbePool6` | externals/core/controller/EmbeddedNetworkController.cpp:1912-1972 | The IPv6 loop is the search over a thousand trials, its first the member's own address if the low words leave room |
| `IpAllocator.Probe6FindsFirst` | externals/core/controller/EmbeddedNetworkController.cpp:1912-1972 | A result is the candidate of the first acceptable trial; no result means that no trial was acceptable |
| `IpAllocator.FirstCandidatesDiffer` | externals/core/controller/EmbeddedNetworkController.cpp:1922-1926 | In a pool with room in its low word members start from different addresses, each its own address above the start |
| `IpAllocator.DrawsReachIff` | externals/core/controller/EmbeddedNetworkController.cpp:1927-1939 | Exactly the addresses whose words lie between those of the pool are drawn by some random words |
| `IpAllocator.DrawnCandidate6` | externals/core/controller/EmbeddedNetworkController.cpp:1928-1939 | Adding a draw to the start of the pool never overflows 64 bits |
| `IpAllocator.Candidate6InPoolIff` | externals/core/controller/EmbeddedNetworkController.cpp:1922-1939 | Candidates stay in the pool on every trial and for every draw if and only if its ends are in order |
| `IpAllocator.ProbePools6` | externals/core/controller/EmbeddedNetworkController.cpp:1901-1974 | Pools are probed in order until one yields |
| `IpAllocator.FirstPoolGives6` | externals/core/controller/EmbeddedNetworkController.cpp:1901-1974 | The address comes from the first pool that has one to give |
| `IpAllocator.AutoAssign` | externals/core/controller/EmbeddedNetworkController.cpp:1901-2052 | At most one address of each family is appended, IPv6 first |
| `IpAllocator.AssignedIsFree` | externals/core/controller/EmbeddedNetworkController.cpp:1949-2047 | The member keeps what it had; what it gains was in nobody's use, is routed and new to it |
| `IpAllocator.AssignedShape` | externals/core/controller/EmbeddedNetworkController.cpp:1901-2052 | At most one address of each family is gained, IPv6 first, and none of a family that is not wanted |
| `IpAllocator.WantedIsAssigned` | externals/core/controller/EmbeddedNetworkController.cpp:1976-2052 | A member that wants an IPv4 address gets one whenever some pool must yield one |
| `Controller.AnswerClaims` | externals/core/controller/EmbeddedNetworkController.cpp:1868-2052 | The record a request saves claims the member's own addresses and otherwise none that the index knows |
| `Controller.PreparedFacts` | externals/core/controller/EmbeddedNetworkController.cpp:1403-1500 | What a request makes of the stored member before assignment, a new one initialised, its identity learned, authorized by a public network or a token, carries the keys of the request and the stored assignments |
| `Controller.SavingFacts` | externals/core/controller/EmbeddedNetworkController.cpp:1393-2108 | What a request saves belongs to the member that asks; it claims more than its own addresses only if the member is authorized and its sign-on has not expired, and then only addresses in nobody's use |
| `Controller.RequestClaimsFree` | externals/core/controller/EmbeddedNetworkController.cpp:1393-2108 | So a request claims no address of another member, without any promise by the caller |
| `Controller.ApartAfterEvent` | externals/core/controller/EmbeddedNetworkController.cpp:1347-2108 | Every request, erase or edit that claims free addresses keeps members apart and the indexes right |
| `Controller.NeverShared` | externals/core/controller/EmbeddedNetworkController.cpp:1347-2108 | In every run of serialized requests, erases and such edits no two members of a network ever hold the same address |
| `Controller.HandleRequest` | externals/core/controller/EmbeddedNetworkController.cpp:1393-2108 | From the look-up to the save: refused without a save for an unknown network or another identity, turned away with a save when not authorized or signed on, else assigned addresses and saved |
| `Requests.AuthorizedAfterIff` | externals/core/controller/EmbeddedNetworkController.cpp:1462-1500 | After a request that was saved the stored member is authorized if and only if it was before, the network is public or a valid token was presented |
| `Requests.AssignedAfter` | externals/core/controller/EmbeddedNetworkController.cpp:1393-2108 | The stored member holds what it held, and exactly what was assigned to it if it is authorized, signed on and certified; a request under another identity changes nothing, and a known identity stays |
| `Requests.SavingIs` | externals/core/controller/EmbeddedNetworkController.cpp:1403-2108 | Exactly which requests save a record, and every field of it: keys, identity, grounds of authorization, versions, assignments, the fields taken out, and all others as they were |
| `Requests.StoredIs` | externals/core/controller/EmbeddedNetworkController.cpp:1393-2108 | A request stores that record for the member that asks and changes nothing else in the store |
| `Requests.NobodyAdmitted` | externals/core/controller/EmbeddedNetworkController.cpp:1462-1500 | A request without a token on a network that is private, or does not say, neither authorizes an unauthorized or unknown member nor gives it an address |
| `Requests.NobodyEverAdmitted` | externals/core/controller/EmbeddedNetworkController.cpp:1347-2108 | Nor does any run of such requests |
| `StoreKeys.SaveLookups` | externals/core/controller/FileDB.cpp:83-140 | A save changes the record under its own key at most, to the advanced one if the comparison tells the stored one from it; records without a revision included |
| `StoreKeys.SavedAnewIff` | externals/core/controller/FileDB.cpp:94-95 | A record without a revision is saved unless the stored one lacks exactly one of its fields, also when its content is stored already, and its revision then starts over at one |
| `MirrorSet.Offer` | externals/core/controller/DBMirrorSet.cpp:42-62 | A store offered a record takes it if it has none or an older, different one, except a configuration for a network it knows without one; nothing else changes |
| `MirrorSet.OfferToOthers` | externals/core/controller/DBMirrorSet.cpp:42-66 | One record of one store is offered to every other, which changes nothing else anywhere |
| `MirrorSet.OfferNetwork` | externals/core/controller/DBMirrorSet.cpp:36-67 | One network of one store: configuration first, then members in any order, to all other stores |
| `MirrorSet.OfferAll` | externals/core/controller/DBMirrorSet.cpp:37-68 | One store offers everything it has, except networks without configuration and their members |
| `MirrorSet.SyncPass` | externals/core/controller/DBMirrorSet.cpp:35-68 | A pass over all stores, in any order of networks and members, is the same fold under every key, also where stores know networks without their configuration |
| `MirrorPass.TwoStoresAgreeIff` | externals/core/controller/DBMirrorSet.cpp:36-68 | Under a key two stores agree after one pass if and only if they did not start with different records of equal revision; the exact condition also where one of them lacks the configuration of the network |
| `MirrorSet.SyncTwo` | externals/core/controller/DBMirrorSet.cpp:35-68 | Two stores are in sync after a pass if and only if every key meets that condition; and then a further pass finds nothing to do |
| `MirrorPass.PassIdleIff` | externals/core/controller/DBMirrorSet.cpp:36-68 | For any number of stores a pass changes nothing if and only if no store has a record that is newer and different, or missing elsewhere |
| `MirrorPass.AtRestIff` | externals/core/controller/DBMirrorSet.cpp:36-68 | Passes come to rest exactly where the stores agree, or all of them hold records of one revision |
| `MirrorPass.AtRestAgreesIff` | externals/core/controller/DBMirrorSet.cpp:20-71 | Whenever any number of passes over any number of stores has come to rest, the stores agree if and only if they did not start with records of one revision that are not all alike |
| `MirrorPass.AheadWins` | externals/core/controller/DBMirrorSet.cpp:36-68 | If one store's record is ahead of every different one by more than the turns before its own, then from the first pass on all stores hold that record |
| `MirrorPass.PassGrows` | externals/core/controller/DBMirrorSet.cpp:36-68 | Over a pass no record is lost and no revision goes back: every change advances it |
| `MirrorPass.NothingInvented` | externals/core/controller/DBMirrorSet.cpp:36-68 | Every record after a pass has the content of one that was there before |
| `MirrorPass.EveryoneHasIt` | externals/core/controller/DBMirrorSet.cpp:42-62 | After a pass every store has a record under each key any store had |
| `MirrorPass.AlikeSpreads` | externals/core/controller/DBMirrorSet.cpp:36-68 | If all records under a key are alike, one pass gives every store that record |
| `MirrorPass.OnePassSettlesIff` | externals/core/controller/DBMirrorSet.cpp:36-68 | With three stores one pass comes to rest if and only if the three starting records do not meet a condition on which is newer and by how much |
| `MirrorPass.ThreeStoresSettle` | externals/core/controller/DBMirrorSet.cpp:35-68 | Two passes bring any three stores to rest, and they then agree if and only if they did not start with records of one revision that are not all alike |
| `MirrorSet.SyncRounds` | externals/core/controller/DBMirrorSet.cpp:20-71 | Any number of rounds is, under every key, that many passes among the stores that have the configuration of its network |
| `MirrorSet.SyncAny` | externals/core/controller/DBMirrorSet.cpp:20-71 | Both results on any number of stores and passes, for stores in memory and under every key |
| `MirrorSet.SyncThree` | externals/core/controller/DBMirrorSet.cpp:20-71 | Two rounds on three stores in memory do so under every key |
| `MirrorPass.FourStoresNeverRest` | externals/core/controller/DBMirrorSet.cpp:35-68 | Four stores, three holding records of different revisions and one holding none, are in disagreement after every number of passes and change in every pass |
| `MirrorSet.SyncFour` | externals/core/controller/DBMirrorSet.cpp:20-71 | So no number of rounds brings such stores in memory into agreement |
| `MirrorSet.RestlessStores` | externals/core/controller/DBMirrorSet.cpp:35-68 | There are consistent stores of that kind, holding configurations of a network that differ in its name |
| `MirrorPass.WrappedPassReturns` | externals/core/controller/DBMirrorSet.cpp:36-68 | Where revisions reach 2^64 - 1 a pass can undo its own changes, which is why results on rest ask for room |
| `MirrorPass.VoicesPass` | externals/core/controller/DBMirrorSet.cpp:36-68 | The stores that have the configuration of a network pass its records among themselves as if the others were not there |
| `MirrorSet.ConfiguredAfterIff` | externals/core/controller/DBMirrorSet.cpp:43-52 | After a pass over any number of stores the configuration of a network is in exactly those that do not know the network without it, if any store had it |
| `MirrorSet.MemberMakesBare` | externals/core/controller/DB.cpp:250-259 | A member saved to a store that does not know its network puts the store into that state |
| `MirrorSave.SaveToOthers` | externals/core/controller/DBMirrorSet.cpp:212-234 | Passing a record on: each store gets what the stores before it left of the record, up to its revision; reports whether some store lacked it |
| `MirrorSave.SaveThrough` | externals/core/controller/DBMirrorSet.cpp:169-188 | A save through the set, with or without listeners and with or without a revision in the record: what each store then holds, whether a change is reported, and exactly when all stores end alike |
| `MirrorSave.AllAlikeIff` | externals/core/controller/DBMirrorSet.cpp:169-234 | All stores end alike if and only if none lacked the record and they were alike, or else the record had the fields that storing it looks up or no store came after one that lacked it, and without listeners it had a revision or the first store lacked it |
| `ConnectionPool.RunValid` | externals/core/controller/ConnectionPool.hpp:60-162 | In every interleaving of borrow, return and abandonment: pooled and borrowed are disjoint and free of duplicates, gauges are their sizes, held connections are borrowed, no two clients hold one |
| `ConnectionPool.WithinMaxIff` | externals/core/controller/ConnectionPool.hpp:61-69 | Pooled and borrowed never exceed the maximum in any run if and only if the minimum does not |
| `ConnectionPool.BorrowIsSafe` | externals/core/controller/ConnectionPool.hpp:92-147 | What a client gets nobody else holds, and nothing somebody holds is reclaimed |
| `ConnectionPool.UnavailableIff` | externals/core/controller/ConnectionPool.hpp:100-136 | With a working factory borrowing fails if and only if nothing is pooled, the maximum is reached and every borrowed connection is still held |
| `ConnectionPool.BorrowsPooled` | externals/core/controller/ConnectionPool.hpp:100-147 | While something is pooled the connection pooled longest is lent and none is made beyond the minimum |
| `ConnectionPool.BorrowsNew` | externals/core/controller/ConnectionPool.hpp:100-136 | For an empty pool a connection is made below the maximum, and at the maximum in place of an abandoned one |
| `ConnectionPool.ReturnedIff` | externals/core/controller/ConnectionPool.hpp:153-162 | A returned connection is pooled if and only if there is room below the maximum; everybody else keeps what he holds |
| `ConnectionPool.ReturnedIsLent` | externals/core/controller/ConnectionPool.hpp:92-162 | Returned to an empty pool below the maximum, the connection goes to the next client |
| `ConnectionPool.StepValid` | externals/core/controller/ConnectionPool.hpp:92-162 | Each single action keeps the invariant |
| `ConnectionPool.ConnectionPool.constructor` | externals/core/controller/ConnectionPool.hpp:60-69 | A pool filled to its minimum |
| `ConnectionPool.ConnectionPool.FindAbandoned` | externals/core/controller/ConnectionPool.hpp:114-131 | Finds a borrowed connection only the pool refers to, if there is one |
| `ConnectionPool.ConnectionPool.BorrowFor` | externals/core/controller/ConnectionPool.hpp:92-147 | The new state and outcome of a borrow, for every failing of the factory |
| `ConnectionPool.ConnectionPool.ReturnFrom` | externals/core/controller/ConnectionPool.hpp:153-162 | The new state after a return |
| `Bond.ChosenExactly` | externals/core/node/Bond.cpp:1143-1247 | The chosen slots are distinct, at most 64 and exactly the wanted ones, for every partition into links, preference and order of visiting |
| `Bond.OneLinkExactly` | externals/core/node/Bond.cpp:1158-1245 | On one link the loops choose exactly the wanted slots of that link, each once |
| `Bond.Bond.Check` | externals/core/node/Bond.cpp:1004-1103 | The update of a slot: emptied if its link is unknown or it expired, else aliveness and eligibility as observed; a bonded slot keeps its flag unless dropped or newly ineligible; reports exactly when a new bond is called for |
| `Bond.WantedIsAllowed` | externals/core/node/Bond.cpp:1065-1243 | After the update every wanted slot is allowed by its preference, also one taken as the fallback of a soft preference |
| `Bond.WantedIff` | externals/core/node/Bond.cpp:1014-1245 | Which slots are bonded after a check, from what was observed: never a path that is neither in its trial nor both healthy and unexpired; spares only without a live primary; on a link with a soft preference the preferred family, or all if it has none |
| `Bond.UnflaggedIff` | externals/core/node/Bond.cpp:1022-1041 | Without a new bond exactly the bonded paths that were dropped lose their flags |
| `Bond.Bond.constructor` | externals/core/node/Bond.hpp:1407 | The initializer marks only the first entry of the table as empty |
| `Bond.Bond.AddPath` | externals/core/node/Bond.cpp:363-368 | Appends a slot to the table and flags it |
| `Bond.Bond.AddMatching` | externals/core/node/Bond.cpp:1161-1173 | One pass over a link appends the admitted slots in order |
| `Bond.Bond.Clear` | externals/core/node/Bond.cpp:1138-1141 | An empty table, no slot flagged |
| `Bond.Bond.Rebuild` | externals/core/node/Bond.cpp:1137-1248 | The table lists without repetition exactly the wanted slots, the rest is marked empty, and a slot is flagged exactly if it is listed |
| `Bond.Bond.Curate` | externals/core/node/Bond.cpp:1004-1254 | Updates all slots and forms the bond anew exactly when asked, when eligibility calls for it, when empty or when no bonded path is alive; then exactly the bondable slots are bonded, and striping restarts over entries that are all usable; bonded slots are present, eligible and allowed throughout; a table of slots with paths stays one if and only if the bond was formed anew or no listed path was dropped |
| `Bond.Bond.StripedPath` | externals/core/node/Bond.cpp:392-421 | One packet, for any signed share: the striping state moves as specified and the slot returned is a listed, present one or none |
| `Bond.Bond.StripeAll` | externals/core/node/Bond.cpp:392-421 | The slots of any number of packets, one after the other |
| `Bond.Bond.StripeCycle` | externals/core/node/Bond.cpp:392-421 | Over a cycle of packets on any table a listed path that is there gets one share if its entry is in the ring of usable entries and otherwise nothing, and nothing goes to paths that are not listed |
| `Bond.Bond.ShareOut` | externals/core/node/Bond.cpp:392-1254 | After the bond was formed anew a cycle of packets gives each bonded slot one share and no other slot any |
| `Bond.Bond.NextUsable` | externals/core/node/Bond.cpp:407-417 | The search goes once around the table |
| `RoundRobin.Fair` | externals/core/node/Bond.cpp:397-421 | With n usable entries any n * (perLink + 1) consecutive packets give each exactly perLink + 1, from any point of the cycle |
| `RoundRobin.ServedIsOverlap` | externals/core/node/Bond.cpp:397-421 | The share of an entry in any window up to one cycle, in closed form |
| `RoundRobin.NeverSwitches` | externals/core/node/Bond.cpp:397-400 | A share of 65536 or more never fits the 16-bit counter: all packets stay on one path |
| `RoundRobin.FairIff` | externals/core/node/Bond.cpp:397-421 | Whichever entries are usable, striping gives each entry of the ring its turn and the others nothing, from every state in the ring, if and only if the share is below 65536; negative shares count as one packet |
| `RoundRobin.ServedInRing` | externals/core/node/Bond.cpp:397-421 | The ring is the usable entries and, in a full table whose last entry is usable, the first; entries outside it get nothing, those in it what they would get in a table of usable entries only |
| `RoundRobin.EntersRing` | externals/core/node/Bond.cpp:404-417 | From any entry a switch leads into the ring, except from the last entry of a full table to the first |
| `RoundRobin.NegativeShare` | externals/core/node/Bond.cpp:397-403 | With a negative share every packet switches, whatever the counter reads |
| `RoundRobin.CycleShares` | externals/core/node/Bond.cpp:392-421 | Over a full cycle a slot that one entry stands for gets its turn if the entry is in the ring, and otherwise nothing |
| `RoundRobin.SwitchIsUsable` | externals/core/node/Bond.cpp:404-417 | A switch lands on a usable entry other than the current one whenever there is one |
| `BondFlows.AddBalanced` | externals/core/node/Bond.cpp:703-713 | Creating a flow keeps every counter equal to the live flows of its path, modulo 2^16 |
| `BondFlows.DropBalanced` | externals/core/node/Bond.cpp:736-737 | and so does forgetting one |
| `BondFlows.MoveBalanced` | externals/core/node/Bond.cpp:1488-1494 | and moving one, also onto the path it was on |
| `BondFlows.CounterExactIff` | externals/core/node/Bond.hpp:1305 | A counter is exact unless all 65536 possible flows are on its path |
| `BondFlows.LimitNeverReached` | externals/core/node/Bond.cpp:699-702 | With 16-bit keys the limit on flows is never met when a flow is created, so eviction is dead code |
| `BondFlows.VictimNoneIff` | externals/core/node/Bond.cpp:743-757 | Eviction finds nothing if and only if every flow was active just now |
| `BondFlows.VictimOldestIff` | externals/core/node/Bond.cpp:743-757 | While no age exceeds the activity time of the first flow that has an age, eviction picks that flow, so an oldest one if and only if that first one is an oldest: a time is stored where an age belongs |
| `BondFlows.KeyAliasIff` | externals/core/node/Bond.hpp:1409 | Two flows share a key if and only if their identifiers agree in the low 16 bits |
| `BondFlows.XorPathInTurn` | externals/core/node/Bond.cpp:617-621 | Identifiers take the bonded paths in turn: those below their number in order, then periodically, and a negative one as its absolute value |
| `BondFlows.OnlyDeadMove` | externals/core/node/Bond.cpp:1480-1498 | Moving touches only the path of flows whose path is there and not eligible, and these go where new flows go |
| `BondFlows.FlowTable.ForgetOlder` | externals/core/node/Bond.cpp:731-742 | Forgets exactly the flows older than the age, which for times in order is the time since their last packet; counters kept |
| `BondFlows.FlowTable.ForgetOldest` | externals/core/node/Bond.cpp:743-758 | Forgets the flow the search ends on, counters kept |
| `BondFlows.FlowTable.Create` | externals/core/node/Bond.cpp:693-724 | The new table of flows, counters kept; nothing without bonded paths |
| `BondFlows.FlowTable.FlowFor` | externals/core/node/Bond.cpp:432-443 | An outgoing packet refreshes its flow or creates it on the path its identifier selects |
| `BondFlows.FlowTable.Spread` | externals/core/node/Bond.cpp:611-623 | Flows with n * k consecutive identifiers, started on an empty table over n different paths, put k on each |
| `BondFlows.FlowTable.UseThenAge` | externals/core/node/Bond.cpp:432-443 | A flow is kept by ageing if and only if it was silent no longer than the age since its last packet |
| `BondFlows.FlowTable.Reassign` | externals/core/node/Bond.cpp:1490-1494 | One flow moves to its place among the bonded paths, counters kept |
| `BondFlows.FlowTable.MoveFromDead` | externals/core/node/Bond.cpp:1480-1498 | Moves exactly the flows on present but ineligible paths |
| `BondFlows.NoneLeftOnDead` | externals/core/node/Bond.cpp:1480-1498 | If all bonded paths are eligible no flow is left on a dead path, and moving again changes nothing |

## Left out

- The ARM and VAES code paths: further copies of the same block, counter and GHASH loops.
- Byte order and alignment, except in the software CTR loops: elsewhere blocks are byte strings and
  big-endian words, and loops that differ only in pointer alignment are one loop.
- Ctr.Ctr.CryptBlock: the hardware CTR loops repeat the instruction sequence that AesNi.EncryptNi is proved for; here they call it.
- Aliasing of input and output buffers in CTR; input is a value here.
- Key destruction and constant-time execution.
- Siv.Encryptor.Aad: like Siv.Decryptor.Aad, takes additional data in a single chunk before any text, as the source demands.
- Parsing of JSON, hexadecimal identifiers and addresses: a string carries what the parsers read from it,
  and automatic assignment requires that printed addresses parse back to themselves.
- File writes, listeners other than the mirror set, metrics other than the pool's gauges, the `_networkByMember`
  map (only ever erased from in the code modelled) and the online map.
- Locks and threads: requests, edits and erases are steps. The program's worker threads look up and save without
  a lock over both, which this does not cover.
- IpAllocator.RouteBits4: IPv4 routes with a prefix length outside 1 to 32 never match, because the source's shift is undefined for them;
  the same holds for IPv6 lengths above 128.
- The special RFC 4193 and 6PLANE addresses, the list of static addresses sent to the member, certificates and rules. Whether
  an identity is the known one, a token valid and a certificate signable are inputs of a request, as are the
  flags that say which address family the network and the member want assigned.
- Sorting and binary search of the address summary are set membership.
- MirrorPass.FourStoresNeverRest: for four and more stores it is not stated from which starts passes come to rest at all, beyond
  `MirrorPass.AheadWins`; where they rest, and what they then hold, is. It ends where the revisions would pass 2^64.
- `PostgreSQL.cpp` and `LFDB.cpp` as stores.
- ConnectionPool.ConnectionPool.constructor: a factory that fails during construction leaves no pool and is not a state.
- Returning a connection the client does not hold, which the pool's documentation excludes.
- ConnectionPool.ConnectionPool.ReturnFrom: the reference of the client ends with the call. The pool takes its argument by value, so
  a client can go on using a connection it has returned; such clients are not modelled.
- Bond.Bond.Curate: liveness, health, trial, expiry and links of paths are observations passed in; the arithmetic on their
  times, refractory periods and counts of links for status reports are not modelled.
- Path quality estimates, balance-aware selection, active backup, path negotiation and packet sending.
- BondFlows.FlowTable.MoveFromDead: flows whose slot was reset keep their old path, and counters reset with the slot; only tables whose slots are not reset are covered.
