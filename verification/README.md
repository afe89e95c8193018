# A Dafny model of the Xaloqi EDS diagnostics core

This project models the parts of the UDS (ISO 14229-1) server that hold state across
calls, requests and power cycles, and proves what they promise over whole runs. Run
`dafny verify dfyconfig.toml` to check it.

## What is modelled

Code that changes state step by step is a class whose methods follow the C functions;
each method is proved against a function of the old state, and the promises are proved
about those functions, over every run. Code made of expressions is functions.

| files | subject |
|---|---|
| `Crc32` | table-driven CRC-32 against bit-serial division, and the damage it detects |
| `Sha256`, `Sha256Examples` | streaming SHA-256 against FIPS 180-4, for every way of splitting a message; its word functions, constants and example |
| `Gf256`, `Aes`, `Cmac` | the byte field, AES-128 against FIPS 197 with its inverse, AES-CMAC against RFC 4493 |
| `AesExamples`, `CmacExamples` | the S-box of FIPS 197 and the worked examples of FIPS 197 and RFC 4493, proved |
| `Nvm`, `SecurityNvm` | the key-value store and the persisted SecurityAccess record |
| `Security`, `SecurityRuns`, `SecurityEffects` | the SecurityAccess machine, what each request does in every reachable state, and the bound on wrong keys over runs with power cycles and failing storage |
| `SecurityAlgo`, `SecurityUnlock` | the built-in seed and key algorithm, and which key unlocks which level |
| `Session`, `CommControl`, `AccessTable` | sessions and S3, communication and DTC setting, access rules |
| `Pending`, `PendingEffects`, `Server`, `ServerAnswers` | response-pending jobs: the protocol and each call; the server around it, and what the tester is answered |
| `ServerTiming`, `ServerGap` | the server's clocks, and the longest gap between frames |
| `DefaultSession` | what the default session guarantees in every reachable state |
| `DtcDatabase`, `DtcHistory`, `DtcMirror` | trouble codes with their first and most recent records, the table as a function of the calls made, and the mirror in NVM |
| `Mcuboot` | the TLV iterator and its inverse, swap-using-move capacity |
| `Periodic`, `PeriodicEffects` | the scheduler of periodic identifiers, and the subscriptions as a map |
| `Elapsed` | time accounting on a wrapping clock |
| `Types`, `Bytes`, `Arithmetic` | widths and status codes, bytes and words, a little arithmetic |

The functions that specify the code are pinned in turn by statements that do not use them:
effects on the fields in every reachable state, the calls made so far, the bytes of a record,
or the worked examples of the standards.

Bytes are 8-bit vectors and hash words 32-bit vectors where bit operations matter;
timers and counters are natural numbers below 2^32 with their wrap or saturation written
out. What an unseen callback does (a handler, a job's step, entropy, a platform answer,
a data read) is a parameter, so every statement holds for all its behaviours.

## Where the code differs from its description

- The access table header (core/uds_access_table.h:42-51) describes a scan for a row with
  the service and the session; the code stops at the first row with the service. The
  exact condition under which the two agree is `AccessTable.AgreesExactlyWhen`.
- `uds_server_defer` takes a step below P2* to be short enough for frames to be in time
  (core/uds_server.c:385-386), but the wait for the poll that starts the step comes on top.
  With the default keepalive and polls d ms apart the frames keep within P2* exactly when
  d + step_max_ms does: `ServerGap.DefaultKeepaliveKeepsP2Star`. For every setting the
  longest gap is `ServerGap.WorstGap`, and `ServerGap.P2StarKeptExactlyWhen` is the condition.
- A keepalive interval of 0 keeps every step of every job from running until the cap
  ends the job: `ServerTiming.NoStepEverRunsWhen` says when that is.
- The persisted lockout is called a residual (core/uds_security_nvm.h:31), but it is the
  full duration and is not rewritten as the lockout runs or ends, so a power cycle
  imposes the whole lockout again: `SecurityRuns.RebootRestartsLockout`.
- A save that fails is ignored (core/uds_security.c:311-318, 365-391), so a power cycle after
  it can give attempts back; how many, and when, is `SecurityRuns.LockoutBound` and
  `SecurityRuns.KeepsBoundExactlyWhen`.
- Registration accepts codes of 2^24 and more, of which the mirror keeps only the low 24
  bits. Such a code loses its status, and on load it can overwrite the status of the code
  it is taken for, even when it is clear itself (`DtcMirror.ClearCodeWipesFault`); the exact
  conditions are `DtcMirror.BackExactlyWhen` for the same codes and
  `DtcMirror.SurvivesExactlyWhen` for any.
- The swap capacity is wrong for a sector size of 1 with the largest trailer, where a sum
  wraps: `Mcuboot.CapacityIsLargestExactlyWhen`.

## Model

| member | source | states |
|---|---|---|
| `Crc32.TableIsByteStep` | core/uds_transfer_ctx.c:42-107 | each of the 256 table entries is eight steps of bit-serial division by the reflected polynomial 0xEDB88320 |
| `Crc32.TableStep` | core/uds_transfer_ctx.c:144-149 | one turn of the loop, with its table lookup, is eight steps of the bit-serial register |
| `Crc32.Update` | core/uds_transfer_ctx.c:135-152 | the loop computes bit-serial division over the given bytes; a NULL pointer leaves the accumulator alone |
| `Crc32.Crc32Of` | config/dtc_mirror.c:83-88 | preset, update and finalise give the CRC-32 of the range |
| `Crc32.AccumulatorInjective` | core/uds_transfer_ctx.c:135-152 | equal bytes never hide a difference already in the accumulator |
| `Crc32.BitSerialAppend` | core/uds_transfer_ctx.c:135-152 | a message may be fed in pieces |
| `Crc32.WindowIsOneXor` | core/uds_transfer_ctx.c:135-152 | up to four bytes enter the register as one word xored in beforehand |
| `Crc32.BurstDetected` | core/uds_transfer_ctx.c:135-157 | any change confined to four consecutive bytes changes the CRC |
| `Crc32.BitBurstDetected` | core/uds_transfer_ctx.c:135-157 | any change confined to 32 consecutive bits, in the order they are sent and wherever they start, changes the CRC |
| `Crc32.FinaliseInjective` | core/uds_transfer_ctx.c:154-157 | the final complement merges no two values |
| `Crc32.CheckValue` | core/uds_transfer_ctx.c:129-157 | the CRC of the digits 1 to 9 is CBF43926: preset, polynomial, reflection and complement |
| `Crc32.SealIsSealed` | config/dtc_mirror.c:167-174 | a record written with magic in front and CRC behind passes the check on load |
| `Crc32.DamageBreaksSeal` | config/dtc_mirror.c:346-361 | a change confined to four consecutive bytes before the trailer, or to the trailer, fails the check |
| `Nvm.Store.Read` | platform/nvm_store.h:258-275 | a read delivers the record, cut off at the buffer length, or reports a store that is not ready, a platform error or an absent key |
| `Nvm.Store.Write` | platform/nvm_store.h:232-254 | a write replaces the whole record under its key and no other, or reports why it changed nothing |
| `Nvm.ReadUndoesWrite` | platform/nvm_store.h:232-275 | what was written under a key is read back, cut off only by the buffer; other keys keep theirs |
| `Bytes.BigEndianByte` | config/dtc_mirror.c:154-158 | byte i of a big-endian number is what the shift by 8 (k - 1 - i) and the mask take out |
| `Bytes.BigEndianRoundTrip` | core/uds_security_nvm.c:44-71 | a number that fits k bytes is recovered from its k big-endian bytes |
| `Bytes.BigEndianOfValue` | core/uds_security_nvm.c:44-71 | encoding undoes decoding: no two strings of one length are the same number |
| `Bytes.StoreNumber` | core/uds_security_nvm.c:55-62 | four shifts and masks store a 32-bit number big-endian and touch nothing else |
| `Bytes.StoreBE32` | platform/uds_sha256.c:225-231 | four shifts store a word big-endian and touch nothing else |
| `Bytes.StoreCode` | config/dtc_mirror.c:154-157 | three shifts store the low 24 bits of a code and touch nothing else |
| `Sha256.PrepareSchedule` | platform/uds_sha256.c:261-269 | the first loop fills the buffer with the message schedule of FIPS 180-4, section 6.2.2 step 1 |
| `Sha256.MixRounds` | platform/uds_sha256.c:271-293 | the 64 rounds on the working variables are steps 2 and 3 of section 6.2.2 |
| `Sha256.AddInto` | platform/uds_sha256.c:295-303 | the eight additions are step 4 of section 6.2.2 |
| `Sha256.Compress` | platform/uds_sha256.c:245-307 | compressing a block in place is the functional compression of old state and block |
| `Sha256.Context.Init` | platform/uds_sha256.c:313-328 | the context has absorbed the empty message |
| `Sha256.Context.TopUp` | platform/uds_sha256.c:353-366 | filling a partial block, and compressing it when full, keeps what has been absorbed |
| `Sha256.Context.WholeBlocks` | platform/uds_sha256.c:368-374 | whole blocks are compressed straight out of the caller's buffer, in order |
| `Sha256.Context.KeepTail` | platform/uds_sha256.c:376-384 | the ragged tail is kept for the next call |
| `Sha256.Context.Update` | platform/uds_sha256.c:330-385 | a context that has absorbed m has absorbed m followed by the chunk; an empty or NULL chunk changes nothing |
| `Sha256.Context.Terminate` | platform/uds_sha256.c:403-420 | terminator and zeros: one block if the length field still fits, else two |
| `Sha256.Context.Final` | platform/uds_sha256.c:387-440 | from a context that has absorbed m (below 2^61 bytes) the digest written is SHA-256 of m, and the context is wiped |
| `Sha256.HashBlocksAppend` | platform/uds_sha256.c:368-374 | one more block applies the compression function once |
| `Sha256.PadZerosIsLeast` | platform/uds_sha256.c:403-420 | the zeros that are appended are the fewest that section 5.1.1 of FIPS 180-4 allows |
| `Sha256.PadInjective` | platform/uds_sha256.c:387-440 | padding merges no two messages |
| `Sha256.HashChunks` | platform/uds_sha256.c:313-440 | for every splitting of a message below 2^61 bytes into updates, init, updates and final write the digest of the whole |
| `Sha256Examples.ChBits` | platform/uds_sha256.c:167-170 | where x has ones the choice is y, where it has zeros z, for every set of bits looked at |
| `Sha256Examples.MajBits` | platform/uds_sha256.c:173-177 | where two of the three agree the majority is what they agree on |
| `Sha256Examples.BSig0Bits` | platform/uds_sha256.c:179-183 | each bit is the parity of the bits 2, 13 and 22 places up |
| `Sha256Examples.BSig1Bits` | platform/uds_sha256.c:185-189 | the same with 6, 11 and 25 |
| `Sha256Examples.SSig0Bits` | platform/uds_sha256.c:191-195 | the same with 7, 18 and a shift by 3 |
| `Sha256Examples.SSig1Bits` | platform/uds_sha256.c:197-201 | the same with 17, 19 and a shift by 10 |
| `Sha256Examples.InitialValueIsRoots` | platform/uds_sha256.c:119-123 | the initial words are the first 32 fractional bits of the square roots of the primes 2 to 19 |
| `Sha256Examples.Constants0` | platform/uds_sha256.c:125-147 | round constants 0 to 7: first 32 fractional bits of the cube roots of these primes |
| `Sha256Examples.Constants1` | platform/uds_sha256.c:125-147 | round constants 8 to 15: first 32 fractional bits of the cube roots of these primes |
| `Sha256Examples.Constants2` | platform/uds_sha256.c:125-147 | round constants 16 to 23: first 32 fractional bits of the cube roots of these primes |
| `Sha256Examples.Constants3` | platform/uds_sha256.c:125-147 | round constants 24 to 31: first 32 fractional bits of the cube roots of these primes |
| `Sha256Examples.Constants4` | platform/uds_sha256.c:125-147 | round constants 32 to 39: first 32 fractional bits of the cube roots of these primes |
| `Sha256Examples.Constants5` | platform/uds_sha256.c:125-147 | round constants 40 to 47: first 32 fractional bits of the cube roots of these primes |
| `Sha256Examples.Constants6` | platform/uds_sha256.c:125-147 | round constants 48 to 55: first 32 fractional bits of the cube roots of these primes |
| `Sha256Examples.Constants7` | platform/uds_sha256.c:125-147 | round constants 56 to 63: first 32 fractional bits of the cube roots of these primes |
| `Sha256Examples.AbcDigest` | platform/uds_sha256.c:245-440 | the digest of "abc" is the one of FIPS 180-4, which fixes schedule, rounds, padding and byte order |
| `Gf256.GfMul` | core/uds_aes_cmac.c:131-145 | eight unconditional shift-and-add iterations compute the product in GF(2^8) |
| `Gf256.MulDistributes` | core/uds_aes_cmac.c:131-145 | the product distributes over xor on both sides |
| `Gf256.MulAssociative` | core/uds_aes_cmac.c:131-145 | the product is associative |
| `Gf256.MulCommutes` | core/uds_aes_cmac.c:131-145 | the product is commutative |
| `Gf256.SquareEight` | core/uds_aes_cmac.c:131-145 | every byte satisfies x^256 = x |
| `Gf256.GfInv` | core/uds_aes_cmac.c:160-196 | square-and-multiply with exponent 254 computes x^254 |
| `Gf256.InverseIsInverse` | core/uds_aes_cmac.c:147-196 | x^254 is the multiplicative inverse of every non-zero byte |
| `Gf256.InverseInvolutive` | core/uds_aes_cmac.c:147-196 | x^254 taken twice is x, so it merges no two bytes |
| `Gf256.AesSubByte` | core/uds_aes_cmac.c:208-219 | inverse and four rotations compute the S-box of section 5.1.1 of FIPS 197 |
| `Gf256.SubByteInverts` | core/uds_aes_cmac.c:208-219 | the S-box has an inverse |
| `Aes.KeyExpand` | core/uds_aes_cmac.c:231-274 | the in-place expansion holds word i of the key schedule of section 5.2 of FIPS 197 at every i |
| `Aes.AesSubBytes` | core/uds_aes_cmac.c:282-290 | the loops replace every state byte by its S-box value |
| `Aes.AesShiftRows` | core/uds_aes_cmac.c:293-318 | the assignments permute the state as ShiftRows does |
| `Aes.ShiftRowsMovesRows` | core/uds_aes_cmac.c:293-318 | row r moves left by r columns |
| `Aes.AesMixColumns` | core/uds_aes_cmac.c:321-337 | each column is multiplied by the MixColumns matrix |
| `Aes.AesAddRoundKey` | core/uds_aes_cmac.c:340-350 | the state is xored with the round key, column by column |
| `Aes.EncryptBlock` | core/uds_aes_cmac.c:356-401 | for every key and block the output is the cipher of section 5.1 of FIPS 197 |
| `Aes.SubBytesInverts` | core/uds_aes_cmac.c:282-290 | SubBytes has an inverse |
| `Aes.ShiftRowsInverts` | core/uds_aes_cmac.c:293-318 | ShiftRows has an inverse |
| `Aes.MixColumnsInverts` | core/uds_aes_cmac.c:321-337 | the matrix of section 5.3.3 of FIPS 197 undoes MixColumns |
| `Aes.CipherInverts` | core/uds_aes_cmac.c:356-401 | under every key InvCipher undoes Cipher and Cipher undoes InvCipher, through all ten rounds |
| `Aes.CipherInjective` | core/uds_aes_cmac.c:356-401 | under one key two different blocks never encrypt alike |
| `AesExamples.SboxIsFigure7` | core/uds_aes_cmac.c:160-222 | all 256 values of the computed S-box are those of Figure 7 of FIPS 197 |
| `AesExamples.RotWordMoves` | core/uds_aes_cmac.c:251-257 | byte i of the rotated word is byte i + 1 modulo 4 |
| `AesExamples.RoundConstantsDouble` | core/uds_aes_cmac.c:90-93 | the round constants are 1 and its successive doublings in the field |
| `AesExamples.KeyExpansionExample` | core/uds_aes_cmac.c:231-275 | all eleven round keys of the key of Appendix A.1 of FIPS 197 |
| `AesExamples.CipherExample` | core/uds_aes_cmac.c:356-400 | the ciphertext of Appendix B of FIPS 197, round by round |
| `Cmac.ShiftLeft1` | core/uds_aes_cmac.c:413-427 | the in-place loop shifts the 16 bytes left by one bit and reports the bit shifted out |
| `Cmac.ShiftDoubles` | core/uds_aes_cmac.c:413-427 | read as a number the shift doubles, dropping exactly the top bit |
| `Cmac.XorBlock` | core/uds_aes_cmac.c:436-445 | two blocks are xored byte by byte |
| `Cmac.DeriveSubkeys` | core/uds_aes_cmac.c:460-491 | K1 and K2 are the subkeys of section 2.3 of RFC 4493 |
| `Cmac.BuildLast` | core/uds_aes_cmac.c:532-552 | the last block is masked with K1 if complete, else padded with 10..0 and masked with K2 |
| `Cmac.ChainBlocks` | core/uds_aes_cmac.c:554-565 | the chaining loop folds the cipher over all blocks |
| `Cmac.AesCmac` | core/uds_aes_cmac.c:497-571 | for every key and every message length, 0 included, the result is the tag of section 2.4 of RFC 4493; a NULL key or tag gives -1 |
| `Cmac.OneBlockApart` | core/uds_aes_cmac.c:497-571 | under one key, two messages of one length that differ only inside one 16-byte block, the last and incomplete one included, never share a full tag |
| `Cmac.ShortTagsDistinct` | core/uds_aes_cmac.c:497-571 | under one key two different messages below one block never share a full tag |
| `CmacExamples.SubkeyExamples` | core/uds_aes_cmac.c:460-491 | the subkeys of section 4 of RFC 4493, one with and one without the fold |
| `CmacExamples.TagExample16` | core/uds_aes_cmac.c:497-571 | example 2 of section 4 of RFC 4493: one complete block |
| `CmacExamples.TagExample40` | core/uds_aes_cmac.c:497-571 | example 3: a chain of three blocks, the last padded |
| `SecurityNvm.Serialize` | core/uds_security_nvm.c:44-71 | the twelve bytes are magic, version, attempts, lockout and CRC |
| `SecurityNvm.Save` | core/uds_security_nvm.c:168-194 | the record under the security key is replaced; a store that is not ready or cannot be written changes nothing |
| `SecurityNvm.Load` | core/uds_security_nvm.c:73-166 | absent, not ready, unreadable, corrupt (length, magic, version, CRC) and genuine records are told apart |
| `SecurityNvm.LoadUndoesSave` | core/uds_security_nvm.c:44-194 | load gives back every attempt count and lockout that save wrote |
| `SecurityNvm.RecordLayout` | core/uds_security_nvm.c:44-71 | "SC", version 1, attempts, lockout high byte first, CRC of these six bytes |
| `SecurityNvm.LoadsExactlyWhen` | core/uds_security_nvm.c:73-165 | a record loads as a count and a lockout exactly when it is the one that saving these writes |
| `SecurityNvm.DamageIsCorrupt` | core/uds_security_nvm.c:100-166 | damage within four consecutive bytes before the CRC, or within the CRC, is always found |
| `Security.SecurityAccess.Init` | core/uds_security.c:53-137 | callback and parameter checks, defaults, and what each outcome of the load callback makes of counter and lockout |
| `Security.SecurityAccess.Restore` | core/uds_security.c:104-132 | the loaded count is clamped, a residual locks, an unreadable record locks for good only if so configured |
| `Security.SecurityAccess.RequestSeed` | core/uds_security.c:139-253 | new state, status and seed for every level, lockout, buffer and callback outcome; an unlocked level gets the zero seed; the all-zero test is a loop over the seed |
| `Security.SecurityAccess.SendKey` | core/uds_security.c:255-395 | new state, status and persisted record for every judged and unjudged key; a record that cannot be saved changes nothing else |
| `Security.SecurityAccess.ConsumeAttempt` | core/uds_security.c:304-381 | the shared failure path: the seed is spent, the attempt counted and saved, the last one locks |
| `Security.SecurityAccess.IsUnlocked` | core/uds_security.c:397-413 | exactly the active level is unlocked |
| `Security.SecurityAccess.Reset` | core/uds_security.c:415-436 | level and seed go, counter and lockout stay |
| `Security.SecurityAccess.Tick` | core/uds_security.c:438-456 | a lockout counts down and ends at 0 |
| `SecurityRuns.StepSound` | core/uds_security.c:104-456 | whatever the storage does, every event keeps: fewer failures than the maximum, a lockout with time left, no seed and a fresh counter, and a stored counter below the maximum or a stored full lockout |
| `SecurityRuns.StepMirrors` | core/uds_security.c:104-381 | only a judged key that is not saved, or a power cycle that does not load, takes the record out of step with the counter; one saved key or loaded record brings it back |
| `SecurityRuns.StepAllowance` | core/uds_security.c:288-456 | no event uses up more failures than the time it takes allows, plus max_attempts - 1 for an unlock and max_attempts for a power cycle that gives attempts back |
| `SecurityRuns.LockoutBound` | core/uds_security.c:288-456 | in every window of every run of requests, keys, resets, ticks and power cycles, whichever saves and loads fail: failures <= max_attempts * (ticks / lockout_duration + 1 + forgetful power cycles) + (max_attempts - 1) * unlocks |
| `SecurityRuns.BoundIsReached` | core/uds_security.c:288-456 | for every number of lockout durations, unlocks and forgetful power cycles some run from power-on has just these and reaches the bound exactly |
| `SecurityRuns.PowerCyclesGiveNothing` | core/uds_security.c:90-132 | with persistence and no failed save or load, power cycles give nothing back: failures <= max_attempts * (ticks / lockout_duration + 1) + (max_attempts - 1) * unlocks |
| `SecurityRuns.KeepsBoundExactlyWhen` | core/uds_security.c:90-132 | in every state the events keep sound, a power cycle keeps the allowance for every continuation exactly when it neither ends a lockout nor comes up with a lower counter |
| `SecurityRuns.RebootRestartsLockout` | core/uds_security.c:90-132 | a power cycle that loads the record locks exactly when the record holds the full duration, and then for all of it; with the record in step it never resets the counter |
| `SecurityRuns.RebootLocksByHistory` | core/uds_security.c:90-132 | after every run such a power cycle locks, for the full duration, exactly when the last judged key that was saved started a lockout |
| `SecurityRuns.ServedLockoutReturns` | core/uds_security.c:438-456 | finding: a lockout that was waited out returns in full after a power cycle |
| `SecurityEffects.KeyEffect` | core/uds_security.c:255-395 | in every reachable state: a non-empty key of any level uses up a pending seed; it unlocks the pending level exactly if it is for the level above and accepted, else it counts, and the last failure locks for the full duration; any other key changes nothing |
| `SecurityEffects.KeyRecord` | core/uds_security.c:304-395 | the record then holds just that counter or lockout, if it could be saved |
| `SecurityEffects.KeyAnswer` | core/uds_security.c:271-395 | the status of every key in every reachable state |
| `SecurityEffects.RequestEffect` | core/uds_security.c:139-253 | in every reachable state: the bytes answered are zero exactly for an active level, else the non-zero seed that is now pending; the status of every refusal |
| `SecurityEffects.BootEffect` | core/uds_security.c:53-137 | the state after power-on for every outcome of the load: the count clamped, a residual locks, an unreadable record locks for 2^32 - 1 ms if so configured |
| `SecurityEffects.ResetEffect` | core/uds_security.c:415-436 | only level and seed change |
| `SecurityEffects.WaitEffect` | core/uds_security.c:438-456 | a lockout lasts its timer to the tick |
| `SecurityAlgo.LevelToIndex` | core/uds_security_algo.c:503-517 | levels 1 to 4, and only those, have a key |
| `SecurityAlgo.NextSequence` | core/uds_security_algo.c:701-709 | the counter never becomes 0 |
| `SecurityAlgo.Module.SetLevelKey` | core/uds_security_algo.c:613-633 | exactly the key of the level changes |
| `SecurityAlgo.Module.GenerateSeed` | core/uds_security_algo.c:662-726 | nonce and new counter make the seed; a refusal changes nothing |
| `SecurityAlgo.SeedsAreNeverZero` | core/uds_security_algo.c:701-726 | a generated seed ends in the counter and is never all zero |
| `SecurityAlgo.GenerateExactly` | core/uds_security_algo.c:662-726 | a seed is the nonce and the next counter, high byte first; why a request is refused |
| `SecurityAlgo.ValidatesExactly` | core/uds_security_algo.c:728-809 | a key is valid exactly if the seed carries the current counter and the key is the first four bytes of its tag under the key of the level: levels 1 and 2 the first key, 3 and 4 the second |
| `SecurityAlgo.Module.DeriveCmac` | core/uds_security_algo.c:559-586 | the first four bytes of the CMAC tag under the level key |
| `SecurityAlgo.Module.DeriveKey` | core/uds_security_algo.c:836-856 | the key from the built-in algorithm or the registered callback, and every failure |
| `SecurityAlgo.Module.ValidateKey` | core/uds_security_algo.c:728-809 | a key is valid exactly if the seed carries the current counter and the key is the derived one, by the built-in algorithm or the registered callback |
| `SecurityAlgo.CtCompare` | core/uds_security_algo.c:533-543 | the accumulating comparison answers equality |
| `SecurityUnlock.UnlockedOnlyByItsKey` | core/uds_security.c:255-395 | in every run a level becomes unlocked exactly by the truncated CMAC of the last seed issued for it, sent for level + 1 while that seed is pending |
| `SecurityUnlock.DerivedKeyUnlocks` | core/uds_security.c:139-395 | answering a pending seed with the derived key always unlocks |
| `SecurityUnlock.RequestIssues` | core/uds_security.c:139-253 | without lockout, with entropy and the level not active, a request issues a seed |
| `SecurityUnlock.LockoutHasNoSeed` | core/uds_security.c:288-322 | during a lockout no seed is pending |
| `SecurityUnlock.OneKeyPerSeed` | core/uds_security.c:255-395 | one seed admits at most one judged key, in every window of every run |
| `SecurityUnlock.DerivedKeyExample` | core/uds_security_algo.c:559-586 | the four bytes that answer one seed under the key of section 4 of RFC 4493 |
| `Session.Context.Init` | core/uds_session.c:63-89 | a zero S3 is refused; else the default session with a full timer |
| `Session.Context.ValidateTransition` | core/uds_session.c:298-345 | the switch allows exactly: to default, refresh, from default, extended to programming |
| `Session.Context.Transition` | core/uds_session.c:91-145 | granted exactly as the relation, the optional safety session and the strict gate say; status and state for every code |
| `Session.Context.ResetS3Timer` | core/uds_session.c:164-177 | the timer is full again, nothing else changes |
| `Session.Context.Tick` | core/uds_session.c:197-232 | outside the default session the timer counts down; at 0 the default session returns and the status says so |
| `Session.TransitionExactly` | core/uds_session.c:91-145 | for every code: granted exactly by the listed pairs, then session, full timer and counter; else nothing changes, and the reason |
| `Session.StrictNeedsExtended` | core/uds_session.c:124-130 | with the strict gate no run reaches programming without having passed through extended since it last was in default |
| `Session.LastsExactly` | core/uds_session.c:197-232 | a session left alone lasts its timer to the tick |
| `Session.TimerWithinTimeout` | core/uds_session.c:91-232 | in every run the timer stays between 1 and its period |
| `CommControl.Control.Apply` | core/uds_comm_control.c:57-95 | the mode changes exactly for a known code that the platform accepts; each failure has its status |
| `CommControl.Control.SetDtcSetting` | core/uds_comm_control.c:97-126 | the same for the DTC setting |
| `CommControl.Control.RestoreDefaults` | core/uds_comm_control.c:128-146 | both ways open and faults on, whatever the callbacks answer |
| `CommControl.Control.DtcSettingIsOn` | core/uds_comm_control.c:173-179 | on unless switched off after initialisation |
| `AccessTable.Lookup` | core/uds_access_table.c:345-408 | the first row of the service decides, whatever its session mask |
| `AccessTable.Enforce` | core/uds_access_table.c:410-477 | no row is no access unless the build allows unlisted services; a row may demand the active level |
| `AccessTable.CheckAccessRights` | core/uds_server.c:825-906 | the decision of the server from row, session and level |
| `AccessTable.FirstRowDecides` | core/uds_server.c:825-906 | the decision from the first row of the service: its session bits, its level, or the absence of a row |
| `AccessTable.AgreesExactlyWhen` | core/uds_access_table.c:367-393 | finding: the code decides as core/uds_access_table.h:42-51 describes exactly when the service's first row covers the session or none does; if the build allows unlisted services, exactly when the first row, if any, covers it |
| `AccessTable.HiddenRow` | core/uds_access_table.c:367-393 | a table on which they differ |
| `AccessTable.DefaultPolicy` | core/uds_access_table.c:95-313 | the built-in table opens exactly these services, by session and level, and every other exactly if the build allows unlisted services |
| `Server.UdsServer.constructor` | core/uds_server.c:95-131 | an empty slot, zero counters |
| `Server.UdsServer.Defer` | core/uds_server.c:376-407 | a job is accepted exactly with a short enough step, physical addressing and a free slot; the order of refusals; 7F sid 78 |
| `Server.UdsServer.KeepaliveIsDue` | core/uds_server.c:532-547 | due from the interval on, half of P2* by default and never more than half of S3 |
| `Server.UdsServer.OweNrc` | core/uds_server.c:559-567 | 7F sid nrc is owed, and counted if pending |
| `Server.UdsServer.RunStep` | core/uds_server.c:569-621 | one step, the clocks credited, and the frame or abort that each outcome leads to |
| `Server.UdsServer.Poll` | core/uds_server.c:409-451 | cap, keepalive or step if no frame is owed; the frame owed; S3 restarted only by a new frame; inside a step only the guard is set |
| `Server.UdsServer.FrameSent` | core/uds_server.c:453-465 | a final frame frees the slot, any other restarts the frame clock |
| `Server.UdsServer.PendingAbort` | core/uds_server.c:472-483 | abort is called unless the final frame is owed; the slot is freed |
| `Server.UdsServer.Tick` | core/uds_server.c:259-317 | both clocks, the session, and on its timeout security, communication and the job |
| `Server.UdsServer.Find` | core/uds_server.c:623-636 | the first entry of the service |
| `Server.UdsServer.RejectRequest` | core/uds_server.c:500-520 | 3E 80 is silent and restarts S3, functional requests are dropped, all others get 7F sid 21 |
| `Server.UdsServer.Handle` | core/uds_server.c:232-256 | a failure becomes a counted negative response, a deferral is never suppressed |
| `Server.UdsServer.DispatchRequest` | core/uds_server.c:206-256 | unknown services, S3, access rights, handler, in this order |
| `Server.UdsServer.ProcessRequest` | core/uds_server.c:141-257 | length checks, re-entrancy, counters, and the filter for functional addressing; every call keeps the job's events within the protocol |
| `Server.PendingJobUndisturbed` | core/uds_server.c:191-204 | over every run of requests during a job: the job, the frame and the session stay but for the S3 timer, which a silent TesterPresent restarts; the exact answers and both counters |
| `Server.StartsJobExactlyWhen` | core/uds_server.c:206-256 | a request starts a job exactly when its handler is reached and defers one that fits, and is then answered 7F sid 78 |
| `Server.AnswerExactly` | core/uds_server.c:141-257 | an answer is withheld exactly for a set suppress bit on success or an NRC that functional requests never get; failures are counted |
| `Server.PromiseExactlyWhen` | core/uds_server.c:191-256 | unless a handler writes a negative response itself, 7F sid 78 is answered exactly by requests that start a job and 7F sid 21 exactly by physical requests that meet one |
| `Server.HandlerMattersExactlyWhen` | core/uds_server.c:191-256 | what the handler would do influences answer or state exactly when no job is pending, the service has a handler and the rules open it |
| `ServerAnswers.RequestSession` | core/uds_server.c:191-256 | for refused, failed, answered and deferred requests alike: the session stays, its timer full exactly if the service has a handler; during a job exactly by 3E 80 |
| `ServerAnswers.RefusedExactly` | core/uds_server.c:206-256 | answer, counters and slot of every refusal: 11 without handler, 33 or 7F without access, 22 for a job that cannot be deferred; none of 11 and 7F to functional requests |
| `ServerAnswers.DeferredExactly` | core/uds_server.c:232-256 | a deferral answers 7F sid 78 and takes the slot with both clocks at 0 |
| `ServerAnswers.AnsweredExactly` | core/uds_server.c:232-256 | a success answers its bytes, unless bit 7 of the sub-function asks for silence or functional addressing filters them |
| `ServerAnswers.FailedExactly` | core/uds_server.c:232-256 | a failure is a refusal with the code of its status, whatever the handler wrote |
| `ServerAnswers.BusyExactly` | core/uds_server.c:500-520 | during a job: silence for 3E 80 and functional requests, else 7F sid 21 |
| `ServerAnswers.CodeOfStatus` | core/uds_server.c:678-795 | for every negative response code the exact set of statuses that map to it |
| `ServerAnswers.SilentFailure` | core/uds_server.c:141-257 | the exact set of failures that a functional request does not hear about |
| `Pending.CallFollows` | core/uds_server.c:376-483 | each of defer, poll, frame_sent, abort and tick keeps to the protocol automaton |
| `Pending.EveryRunFollows` | core/uds_server.c:376-621 | every sequence of calls, with every behaviour of the step, yields a trace of the protocol |
| `Pending.NothingAfterTheEnd` | core/uds_server.c:409-483 | after an abort, a finished step or a final frame there is, until another job is accepted, no step, no abort, no pending frame and only one final frame, repeated only while unconfirmed |
| `Pending.NothingAfterConfirmation` | core/uds_server.c:453-483 | after the final frame is confirmed, or the job released, the next event is the acceptance of another job |
| `Pending.NoStepWhileOwed` | core/uds_server.c:409-465 | a step never runs while a frame is owed |
| `Pending.SameFrameUntilConfirmed` | core/uds_server.c:423-450 | polls repeated before the confirmation return identical bytes |
| `Pending.KeepaliveFrame` | core/uds_server.c:559-567 | every frame that is not final is 7F sid 78 of the job accepted last |
| `PendingEffects.DeferEffect` | core/uds_server.c:376-407 | the order of refusals, P2* 5000 ms by default; else the slot is taken with both clocks at 0 |
| `PendingEffects.PollBeforeStep` | core/uds_server.c:409-451 | the cap ends the job with 7F sid 10, an interval that has passed makes a counted 7F sid 78; clocks stay |
| `PendingEffects.PollWithStep` | core/uds_server.c:569-621 | a step credits both clocks, ends the job with its frame unless in progress, and counts a failure |
| `PendingEffects.FrameMadeExactly` | core/uds_server.c:433-450 | the polls that restart S3 are those that make a frame |
| `PendingEffects.FrameSentEffect` | core/uds_server.c:453-465 | a final frame frees the slot, any other restarts its frame clock only |
| `PendingEffects.AbortEffect` | core/uds_server.c:472-483 | the slot is free, and abort is called unless the final frame was there |
| `PendingEffects.NegativesCountFailures` | core/uds_server.c:569-621 | over every run of calls the counter rises by one for each step that failed by itself |
| `ServerTiming.RequestStartsCourse` | core/uds_server.c:141-257 | a request that starts a job leaves both clocks at 0 and S3 full |
| `ServerTiming.FrameInTime` | core/uds_server.c:409-465 | with polls at most d ms apart every frame is owed before the credited frame clock reaches interval + max(d, step_max_ms), and none is missed |
| `ServerTiming.FinalInTime` | core/uds_server.c:423-432 | the final frame is owed before the total clock reaches cap + step_max_ms + d |
| `ServerTiming.JobEndsInTime` | core/uds_server.c:409-465 | however its steps behave a job is over after cap + d ms |
| `ServerTiming.SessionOutlivesJob` | core/uds_session.c:197-232 | with d at most half of S3 the session never times out under a job |
| `ServerTiming.StepRunsExactlyWhen` | core/uds_server.c:423-432 | a poll runs the step exactly when nothing is owed, the cap is not reached and no frame is due |
| `ServerTiming.NoStepEverRunsWhen` | core/uds_server.c:532-547 | finding: with an S3 of 1 ms, or P2* of 1 ms and the default keepalive, the interval is 0 and no step of any job ever runs; otherwise some do |
| `ServerGap.NoLaterFrame` | core/uds_server.c:409-465 | for every d, no frame of a job polled at most d ms apart is owed later than the longest gap |
| `ServerGap.GapIsReached` | core/uds_server.c:409-465 | for every d some course of polls at most d ms apart has exactly that gap |
| `ServerGap.WithinExactlyWhen` | core/uds_server.c:409-465 | all frames keep within a limit exactly when the longest gap does |
| `ServerGap.WorstGapIs` | core/uds_server.c:409-465 | the longest gap in closed form from interval, cap, step_max_ms and d, for all of their values |
| `ServerGap.UncappedGapIs` | core/uds_server.c:409-465 | one formula for it when the cap does not come before the first frame and the step takes time |
| `ServerGap.P2StarKeptExactlyWhen` | core/uds_server.c:385-389 | for every keepalive setting and d: the frames keep within P2* exactly when the longest gap does |
| `ServerGap.DefaultKeepaliveKeepsP2Star` | core/uds_server.c:385-389 | with the default keepalive and d below the interval and the cap: exactly when d + step_max_ms is at most P2* |
| `ServerGap.GapCanExceedP2Star` | core/uds_server.c:385-389 | finding: with default settings a job that defer accepted can overrun P2* exactly when d + step_max_ms exceeds 5000 ms |
| `DefaultSession.GatedServices` | core/uds_server.c:224-230 | handlers of 0x27, 0x28 and 0x85 run only outside the default session |
| `DefaultSession.TransitionLocks` | core/uds_services/service_0x10.c:102-126 | every accepted request for a session, a refresh included, locks every level, drops the seed and keeps counter and lockout |
| `DefaultSession.RequestKeepsSafe` | core/uds_server.c:206-256 | no request, whatever its handler does within its contract, leaves the default session unlocked or muted |
| `DefaultSession.SafeFromStart` | core/uds_server.c:277-309 | in every reachable state whose session is default, after a timeout too, security is locked, communication open and DTC setting on |
| `DtcDatabase.Database.Init` | config/dtc_database.c:113-125 | an empty table and empty records, once |
| `DtcDatabase.Database.Find` | config/dtc_database.c:88-99 | the search finds the position of the code, or the end |
| `DtcDatabase.Database.Register` | config/dtc_database.c:127-164 | code 0, a full table and duplicates are refused; else the entry is appended with status 0x50 |
| `DtcDatabase.Database.RecordsForget` | config/dtc_database.c:182-191 | the loop empties exactly the records naming the code |
| `DtcDatabase.Database.RecordsNoteTransition` | config/dtc_database.c:196-213 | rising edges set "most recent" always and "first" only while empty |
| `DtcDatabase.Database.SetStatusInternal` | config/dtc_database.c:219-243 | status, counter and records of exactly the named code |
| `DtcDatabase.Database.SetStatus` | config/dtc_database.c:245-254 | refused without change while DTC setting is off |
| `DtcDatabase.Database.RestoreStatus` | config/dtc_database.c:256-259 | restores without noting edges |
| `DtcDatabase.Database.ClearOne` | config/dtc_database.c:261-264 | clears one code and forgets it in the records |
| `DtcDatabase.Database.ClearAll` | config/dtc_database.c:266-283 | all entries to 0x50, all records empty |
| `DtcDatabase.Database.SetPermanent` | config/dtc_database.c:357-373 | exactly the permanence of the code changes |
| `DtcDatabase.Database.SetFaultCounter` | config/dtc_database.c:339-355 | exactly the counter of the code |
| `DtcDatabase.Database.CountByStatus` | config/dtc_database.c:285-312 | the loop counts the entries that share a bit with the mask |
| `DtcDatabase.Database.ClearNonPermanent` | config/dtc_database.c:375-397 | permanent entries stay, all records are emptied |
| `DtcDatabase.Database.GetByIndex` | config/dtc_database.c:314-337 | the entry at the index, or the end of the table |
| `DtcDatabase.Database.GetRecord` | config/dtc_database.c:399-416 | the code a record names |
| `DtcDatabase.Database.RestoreRecord` | config/dtc_database.c:418-441 | a record is set to a registered code or emptied |
| `DtcDatabase.RisesMeaning` | config/dtc_database.c:199-207 | the mask expression is a 0 to 1 change of the bit |
| `DtcDatabase.RunKeepsInv` | config/dtc_database.c:127-441 | in every run codes are distinct and non-zero and every non-empty record names a registered code |
| `DtcDatabase.RecordsReplayHistory` | config/dtc_database.c:182-283 | in every run each record is the replay of the accepted edges, clears and restores |
| `DtcDatabase.RecordMeaning` | config/dtc_database.c:193-213 | a record names a code exactly when an edge of its kind (for "first": one that found it empty) or a restore entered it and nothing since ousted it |
| `DtcHistory.TableIsHistory` | config/dtc_database.c:127-397 | after every run the table is the accepted codes in order, each with the status, counter and permanence that a call wrote last; the writes stated by the calls alone |
| `DtcHistory.LookupAnswer` | config/dtc_database.c:88-101 | a code is found exactly if it was registered |
| `DtcHistory.RegisterAnswer` | config/dtc_database.c:127-164 | the order of refusals: code 0, a full table of 128, a known code |
| `DtcHistory.EdgeBits` | config/dtc_database.c:196-213 | edges are those of bits 0 and 3 |
| `DtcHistory.CountMeaning` | config/dtc_database.c:285-312 | the count is the size of the set of matching positions |
| `DtcMirror.Mirror.PutEntries` | config/dtc_mirror.c:124-161 | the loop writes code and status of the first 125 entries, inside the buffer |
| `DtcMirror.Mirror.Serialize` | config/dtc_mirror.c:106-178 | header, entries, count and CRC of the live table |
| `DtcMirror.Mirror.RecordsWrite` | config/dtc_mirror.c:189-214 | the four records, in order, under their own key, or a failed write and no change |
| `DtcMirror.Mirror.RecordsLoad` | config/dtc_mirror.c:217-252 | a genuine record restores all four; a corrupt, absent or unreadable one none, each with its status |
| `DtcMirror.Mirror.TakeEntries` | config/dtc_mirror.c:363-381 | the loop restores the entries in order |
| `DtcMirror.Mirror.Load` | config/dtc_mirror.c:269-384 | absent, short and foreign records apply nothing and are fine; bad version, count, length and CRC apply nothing and are corrupt; a failed read applies nothing; a genuine record is applied |
| `DtcMirror.Mirror.FlushAll` | config/dtc_mirror.c:386-409 | mirror, then records, are rewritten from the live database; either write may fail, and a failed first one stops |
| `DtcMirror.Mirror.ClearAll` | config/dtc_mirror.c:427-436 | the same after a clear |
| `DtcMirror.ParseUndoesWrite` | config/dtc_mirror.c:106-381 | parsing a written mirror gives back its entries, codes modulo 2^24 |
| `DtcMirror.ParseUndoesWriteRecords` | config/dtc_mirror.c:189-252 | the same for the records |
| `DtcMirror.MirrorLayout` | config/dtc_mirror.c:106-178 | "DM", version 1, the count high byte first, the CRC of all but the magic |
| `DtcMirror.EntryLayout` | config/dtc_mirror.c:124-161 | entry i is the code modulo 2^24, high byte first, and the status |
| `DtcMirror.RecordsLayout` | config/dtc_mirror.c:189-214 | "DR", version 1, four codes high byte first, the CRC |
| `DtcMirror.EntriesExactlyWhen` | config/dtc_mirror.c:313-381 | a record is read as entries exactly when it is the one that writing them produces |
| `DtcMirror.RecordsExactlyWhen` | config/dtc_mirror.c:232-252 | the same for the records |
| `DtcMirror.LoadAnswer` | config/dtc_mirror.c:269-384 | every load by the stored bytes: no mirror or no magic is fine and nothing, a written one is applied, any other is corrupt and nothing |
| `DtcMirror.ApplyPairsMeaning` | config/dtc_mirror.c:363-381 | applying a list gives each registered code its last mention and changes nothing else |
| `DtcMirror.RebootInGeneral` | config/dtc_mirror.c:106-436 | flush, reboot with any registered codes, load: status and records of every code, whatever the old codes were |
| `DtcMirror.SurvivesReboot` | config/dtc_mirror.c:106-436 | with codes below 2^24: every code of the old first 125 that is still registered has its status back, every other keeps 0x50, each record is back if still registered, else empty |
| `DtcMirror.SurvivesExactlyWhen` | config/dtc_mirror.c:106-436 | a flushed database survives every reboot, whatever codes are registered then, exactly when each persisted entry other than 0x50 has a code below 2^24 that no later persisted code is taken for, and each record names a code below 2^24 |
| `DtcMirror.ClearSurvivesReboot` | config/dtc_mirror.c:427-436 | after clear_non_permanent and a flush the permanent codes come back with their status, all others clear, all records empty |
| `DtcMirror.HalfFlush` | config/dtc_mirror.c:399-409 | a flush cut short between its two writes leaves the new statuses with the old records |
| `DtcMirror.WideCodeIsLost` | config/dtc_mirror.c:154-158 | finding: a code of 2^24 or more, which registration accepts, never gets its status back |
| `DtcMirror.BackExactlyWhen` | config/dtc_mirror.c:154-158 | a reboot with the same codes brings every persisted status back exactly when each persisted entry other than 0x50 has a code below 2^24 and no later persisted code has the same low 24 bits |
| `DtcMirror.ClearCodeWipesFault` | config/dtc_mirror.c:154-158 | finding: a clear code of 2^24 + 1 after code 1 wipes out the fault of code 1 |
| `DtcMirror.RecordsBackExactlyWhen` | config/dtc_mirror.c:200-206 | the records come back exactly when the codes they name are below 2^24 |
| `DtcMirror.DamageNeverApplied` | config/dtc_mirror.c:313-381 | a mirror altered within four consecutive bytes before its CRC, or within its CRC, changes no status and no record on load; it is reported as corrupt exactly if the two magic bytes are still there |
| `DtcMirror.RecordsDamageNeverApplied` | config/dtc_mirror.c:232-241 | the same for the records, and the load reports it |
| `Mcuboot.TlvIterator.Start` | platform/uds_mcuboot_image.c:213-256 | size, magic and length checks in this order; the iterator is set only on success |
| `Mcuboot.TlvIterator.Next` | platform/uds_mcuboot_image.c:258-326 | one entry of the walk, inside the area, or its end with the right status; an error repeats |
| `Mcuboot.IterateExactly` | platform/uds_mcuboot_image.c:213-326 | an iteration ends cleanly exactly on the printed form of a TLV list, and then yields that list in order |
| `Mcuboot.PrintOfWalk` | platform/uds_mcuboot_image.c:258-326 | what a clean walk has read is the printed form of what it yielded |
| `Mcuboot.WalkOfPrint` | platform/uds_mcuboot_image.c:258-326 | the printed form of any list is walked back to the list |
| `Mcuboot.WalkIsShort` | platform/uds_mcuboot_image.c:284-322 | even a failing iteration yields at most (area_len - 4) / 4 entries |
| `Mcuboot.EntryLayout` | platform/uds_mcuboot_image.c:284-322 | an entry is its kind and length, low byte first, and its value |
| `Mcuboot.BeginAnswer` | platform/uds_mcuboot_image.c:213-256 | why an area is refused, in order |
| `Mcuboot.SwapMoveTrailerSize` | platform/uds_mcuboot_image.c:332-362 | the exact trailer if it fits 32 bits, 0 exactly for a zero argument or one that does not; no intermediate overflow |
| `Mcuboot.SwapMoveCapacity` | platform/uds_mcuboot_image.c:364-389 | the computed capacity, 32-bit wrap of the sector sum included; the product never overflows |
| `Mcuboot.CapacityIsLargestExactlyWhen` | platform/uds_mcuboot_image.c:364-389 | for non-zero arguments the capacity is the largest image that fits both slots, exactly unless the sector size is 1 and the trailer 2^32 - 1 |
| `Mcuboot.LayoutExamples` | tests/unit_runnable/test_mcuboot_image.c:829-868 | the trailer sizes and capacities that the unit tests name |
| `Periodic.Scheduler.Find` | core/uds_periodic.c:81-90 | the first active slot with the identifier |
| `Periodic.Scheduler.ModeToInterval` | core/uds_periodic.c:71-79 | 10, 100 and 1000 ms for fast, medium and any other mode |
| `Periodic.Scheduler.Subscribe` | core/uds_periodic.c:115-154 | renewal in place, or the first free slot; counter 1 |
| `Periodic.Scheduler.Unsubscribe` | core/uds_periodic.c:156-170 | the slot is emptied and the count lowered; unknown identifiers are ignored |
| `Periodic.Scheduler.CancelAll` | core/uds_periodic.c:172-178 | all slots empty, nothing to requeue |
| `Periodic.Scheduler.Tick` | core/uds_periodic.c:180-200 | every active counter one lower, or due and reloaded |
| `Periodic.Scheduler.PopDue` | core/uds_periodic.c:202-276 | the first due and readable slot gives its frame; slots passed over are no longer due, and gone if access was denied |
| `Periodic.Scheduler.RequeueLast` | core/uds_periodic.c:307-327 | the last popped subscription is due again, once |
| `Periodic.SubscribeKeepsInv` | core/uds_periodic.c:115-154 | a subscription is refused exactly when eight others are active |
| `Periodic.RunKeepsInv` | core/uds_periodic.c:107-327 | in every run identifiers are distinct, the count is the number of active slots, counters are between 1 and the interval |
| `PeriodicEffects.SubscribeEffect` | core/uds_periodic.c:115-154 | granted unless eight others are active; then the identifier has the interval of its mode and all others keep theirs |
| `PeriodicEffects.UnsubscribeEffect` | core/uds_periodic.c:156-170 | exactly that identifier is gone |
| `PeriodicEffects.TickEffect` | core/uds_periodic.c:180-200 | every counter one lower, or reloaded and due; subscriptions stay |
| `PeriodicEffects.PopEffect` | core/uds_periodic.c:202-276 | the frame of the first due and readable slot, or none exactly if there is no such slot; only denied identifiers can go |
| `PeriodicEffects.RequeueEffect` | core/uds_periodic.c:307-327 | the identifier popped last is due again, once, if still subscribed |
| `Periodic.DueExactly` | core/uds_periodic.c:180-200 | a subscription left alone for t >= 1 ticks, whatever happens to others, becomes due exactly 1 + (t - 1) / interval times |
| `Periodic.DrainServesAll` | core/uds_periodic.c:202-276 | a drain loop ends within nine pops, whatever each of them reads: it gives the frames and leaves the slots of one pass in slot order, and nothing due |
| `Periodic.RequeueRepeats` | core/uds_periodic.c:278-327 | after a requeue the next pop returns the same frame |
| `Elapsed.Stopwatch.constructor` | core/eds_elapsed.h:74-80 | starts at the given clock with nothing owed |
| `Elapsed.Stopwatch.ElapsedSince` | core/eds_elapsed.h:89-97 | the unsigned difference |
| `Elapsed.Stopwatch.Consume` | core/eds_elapsed.h:113-134 | what is owed, saturated, is handed out up to the cap and the rest carried |
| `Elapsed.SinceIsReal` | core/eds_elapsed.h:89-97 | the difference is the real time below 2^32 ms, across the wrap |
| `Elapsed.DropsExactlyWhen` | core/eds_elapsed.h:113-134 | a call drops time exactly when carry and gap exceed 5000 |
| `Elapsed.HandsOutMost` | core/eds_elapsed.h:113-134 | a call hands out all that is owed, up to 5000 ms and its cap |
| `Elapsed.TimeIsConserved` | core/eds_elapsed.h:113-134 | in every run handed out + carried + dropped = time passed |
| `Elapsed.DroppedExactlyWhen` | core/eds_elapsed.h:113-134 | a run drops time exactly if some call came too late |
| `Elapsed.EveryMillisecond` | core/eds_elapsed.h:74-134 | from the start every real millisecond is handed out, carried or dropped, and carry stays within 5000 |

## Left out

- Nvm.Store.Write: does not model a power cut during a write; a write is done or not done.
- Security.SecurityAccess.Init: does not model NULL arguments.
- Server.UdsServer.ProcessRequest: does not model what a handler does to session, security and communication (DefaultSession adds that), nor NULL arguments and a server that was not initialised.
- Server.UdsServer.RunStep: does not model a step that calls tick, defer or abort, or a response that aliases the frame buffer; a step that calls poll or process_request is one flag.
- Server.UdsServer.constructor: does not model the argument checks of uds_server_init.
- Server.UdsServer.Tick: does not model the abort of a download transfer on a session timeout.
- ServerTiming.FrameInTime: does not model a transport that holds a frame back; frames are confirmed at once.
- DefaultSession.SafeFromStart: does not model handlers other than 0x10, 0x27, 0x28 and 0x85; they and the steps of jobs are only required to keep the guarantee themselves.
- Security.SecurityAccess.RequestSeed: does not model the fixed seed buffer in place; the seed is a sequence of at most eight bytes.
- SecurityAlgo.Module.GenerateSeed: does not model where the nonce comes from, a hardware source or the LFSR of development builds; it is a parameter.
- Periodic.Scheduler.PopDue: does not model the identifier database and the access contexts; what a read gives, or that it is denied, is a parameter.
- DtcDatabase.Database.SetStatus: does not model the lock callbacks; each call is atomic.
- The session change callback, the CAN identifier of periodic messages, the description strings of trouble codes, and plain getters: they would only add easy members.
- uds_mcuboot_parse_header: a straight decoding of fields.
- Constant-time behaviour, volatile accesses and the scrubbing of stack locals: not functional behaviour.
- CAN, ISO-TP, DoIP, RTOS ports and flash drivers: no part of the state modelled here.
- Service handlers other than the contract of 0x10, the identifier and routine databases, session statistics, image policy and the safety counters: single-branch guards and tables.
