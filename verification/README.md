# Verified model of the post-quantum HSM software

A Dafny model of the software around a post-quantum hardware security module: the daemon that drives
the cores in the programmable logic, the RPMB anti-rollback anchor, the business operations on top of
the daemon, and the algorithmic tools that audit the code and assess the noise source. `dafny verify
dfyconfig.toml` checks all of it.

Code that works step by step is modelled as methods and classes with loops, proved against
specification functions and predicates on values; what those promise is stated by lemmas about them.

| module | models |
|---|---|
| `Bytes`, `Options`, `Wire` | octets, exclusive-or, little-endian words; optional values; the payload bound |
| `Pl` | the two post-quantum slaves (ML-KEM, ML-DSA): WIPING and EXP_WIPING, the staged seed, input and output streams, the run state machine, as a nondeterministic device |
| `Handles`, `Protocol`, `Runs`, `Fpgad`, `Sessions`, `Stray` | the daemon: register access that may fail, waits, the staged-seed protocol, a run on each slave, handle tables, requests, sessions; a run as a relation; what a client may rely on across requests; what an abandoned run does |
| `SymModes`, `SymService` | the five block cipher modes on a one-block primitive, and the request that carries them |
| `RateLimiter` | the sixteen-slot table of failed handshakes |
| `Rpmb` | the replay-protected memory block, with a bus that loses and replays frames |
| `HsmOps` | encryption of whole messages in pieces, with padding |
| `Backup`, `Restore` | the key-store bundle, written, and restored from any octets on any disk |
| `Json` | the gateway's JSON writer and field reader |
| `TupleCounts`, `MultiMcw` | the t-tuple, LRS and MultiMCW estimators of SP 800-90B |
| `Sponge` | the counted sponge, its incremental form, and rejection sampling |
| `Lexer`, `Zeroize` | the audit tools: comment blanking, reachability of clearing functions |
| `Parens`, `Marks`, `Survival`, `Calls` | the audit tools: parentheses; an expression whose characters remember where they come from; what stripping calls leaves of it; the stripping itself |

## How the daemon's device is modelled

A slave takes typed commands instead of register writes at addresses. Between any two accesses an
arbitrary amount of time passes: a wipe may end, a run may end and start the wipe of its expansion
area. Any access may fail, unless a constant says that everything can be relied on; a failed write may have
acted or not, a failed read gives zero and sets the sticky fault flag. A `Blame` record in the slave remembers three things for ever: a write that landed
during WIPING, a write rejected for another reason (both come back as bus errors, which this board does
not survive), and a START that met EXP_WIPING. What the silicon computes is a function of mode, seed,
input and lengths, and what the trusted application unwraps a blob to is a function too; both are
parameters of every theorem. Other clients of the trusted application may replace the staged words
between two requests. The rules of the slaves are those of `hardware/rtl/bus/mlkem_axi.v` and
`mldsa_axi.v`.

## Where the code does not do what one would think

* **A stray run.** `mlkem_run_raw` polls 3,000,000 times and gives up; the run goes on. If the next
  request is an ML-KEM KEYGEN, its START is ignored by the busy slave without a trace, and the old run's
  output is taken for the new public key if it has the right length. The exact condition is on what the
  slave holds when the wait begins. Whatever the silicon computes, the key is the one due if and only if
  nothing is running, or an undisturbed run of this very job is (`Stray.KeygenDueWhateverIff`); a caller
  sees the run in STATUS.BUSY. For given silicon `Stray.KeygenDueIff` is exact with the length test
  counted in; that it can happen, after a stray key generation on another seed, needs nothing but the
  ignored START, while a run of another mode counts because the model lets its answer be anything, which
  is more than the present RTL does with it. `Fpgad.Daemon.KemStart` is proved to keep to the relation
  these theorems speak of. Requests with input are immune, because bytes fed to a busy slave are not counted and
  IN_PTR gives it away (`Stray.ReturnsDue`, `Fpgad.Daemon.KemRun`).
* **START against EXP_WIPING.** For the same reason the wait before START is not enough: the stray run
  may end after it, whether or not there is input. `Stray.EarlyStartIff`: exactly when a run was still
  going.
* **MODE before the wait.** `mldsa_run_raw` writes MODE first (line 885). With a run still going that
  write is a bus error (`Stray.BusyModeIff`), so a board that survives it was free, and on ML-DSA no
  answer is ever stray.
* **A handle the client never hears of.** When an access fails while an ML-KEM public key is read out,
  `mlkem_run_raw` still returns 0, the handle is installed, and the client is told HARDFAIL. A key
  generation answered HARDFAIL has left a handle if and only if the handler had said OK and an access
  had failed (`Protocol.HandleUnsaidIff`), and every key generation that can succeed can end so
  (`Stray.CanFailAtReadOut`). ML-DSA KEYGEN checks the fault flag at its end and never leaves one.
* **A write reported done that was not.** `rpmb_write_block` does not tie an answer to its own request:
  the answer to any earlier successful write is accepted again. A return of 0 means that the counter
  moved, in every behaviour of bus and device, if and only if no such answer has been on the bus before or
  the bus is one that brings each request its own answer (`Rpmb.WriteMovesIff`). A reported value one more than before proves it too, which is what `cmd_bump`
  and `cmd_selftest` check; the converse fails, since the write may act and an old answer come back.
* **Right key, "wrong key".** `cmd_status` takes -4 and -5 for a wrong key. -5 can happen, in any state
  and within a single call, if and only if the key is the right one, unless the bus brings each request its
  own answer (`Rpmb.NonceVerdictIff`). -4 can
  happen if and only if the key is wrong, as long as the bus only replays frames it has carried and the
  device signs its answers (`Rpmb.MacVerdictIff`); with an unsigned read answer on the bus it can happen
  with any key (`Rpmb.MacVerdictAlways`). And the wrong-key write of `cmd_selftest` never reaches the
  device: the keyed read before it fails first.
* **Half a restore.** The comment in `c_restore` rules out a bundle restored by half. A bundle that
  passes every digest but holds an entry with an unacceptable name is restored up to the first such
  entry. On a disk that works all or nothing is kept if and only if all names are good or the first is
  refused; on a disk where a write can fail, if and only if there is no entry or the first name is refused
  (`Restore.AllOrNothingIff`). `Restore.HalfRestored` gives a bundle that breaks it on a disk that works.
* **A restore that is not there.** `spill` does not look at what `fclose` returns. Data lost at that
  point is reported as restored; the report can be wrong exactly when there is something to write
  (`Restore.LostUnseenIff`).
* **Outside the bundle.** The 32-bit sum that steps over a name can land just below 2^32, where the bounds
  test wraps and passes; the next length is then read from outside. The checking pass does this exactly
  for bundles in which genuine entries lead up to such a name (`Restore.FirstFaultTells`); twelve octets are
  enough (`Restore.EscapingBundle`). A name of 260 octets or more, or with a zero octet before its last
  four, makes the writing pass look at octets nobody wrote. The verdict is `Undefined` then.
* **A value that looks like a key.** `jget` finds the first occurrence of the quoted key anywhere, so
  an earlier string value equal to the key, or ending in a quote and the key, makes it fail
  (`Json.RoundTripIff`).
* **Lengths near 2^32.** In `hsm_encrypt` the sixteen message lengths from 2^32-32 pad to a length that
  fits 32 bits, but the total with the IV wraps to zero; from 2^32-16 on the padded length wraps itself.
  A buffer comes out too short exactly for these lengths (`HsmOps.RoomIff`, `HsmOps.Encrypt`).
* **Off the end in `lrs`.** For any cutoff the function raises an exception exactly when the first rare
  length u is at most 64 and not below the number of samples, and gives no estimate exactly when u is 65
  and there are no more than 65 samples. From a cutoff of 3 on, the default 35 included, the first means
  at most one sample and the second never happens, so `v < u` and `den == 0` never hold there. When no
  u-tuple repeats, `v` is `u` although no v-tuple occurs twice.
* **A cast before a group.** `strip_calls` drops the parentheses of a cast first, and then takes the bare
  type name for the callee of the group behind it: `(int)(sk & 1)` becomes `  0 ` and the audit sees no
  secret (`Survival.CastSwallows`, and `Survival.CastIsCall` for any group that ends in a word). Nothing
  but parentheses and spaces is lost if and only if no closed `(` has before it, spaces skipped and
  groups looked into, a word or a call (`Survival.AllKeptIff`).
* `sponge` with output length 0 does no squeezing permutation, where ceil(0/rate)-1 would be -1.

## Model

| member | source | states |
|---|---|---|
| Pl.LaterSettles | service/pqchsm_fpgad.c:989-1006 | time alone never makes a slave wipe, busy, or mistreated, and changes no register |
| Pl.WriteSettles | hardware/rtl/bus/mlkem_axi.v:834-983 | no write but START and ZEROIZE can make a slave wipe, run or have its expansion area wiped; a write that fits is no bus error on a free slave |
| Pl.ModeFindsIdle | hardware/rtl/bus/mldsa_axi.v:572-577 | an ML-DSA slave that accepted a write of MODE was not running, and its input is empty after it |
| Pl.StartRuns | hardware/rtl/bus/mlkem_axi.v:891-966 | START on a free slave runs exactly the job in its registers with a complete staged seed, or is refused; on a quiet slave it meets no EXP_WIPING |
| Pl.ZeroizeErases | hardware/rtl/bus/mlkem_axi.v:786-805 | ZEROIZE outside WIPING is no bus error and leaves nothing staged, fed or running |
| Pl.FeedOne | service/pqchsm_fpgad.c:703-727 | one packed or single write appends its bytes in order to a free slave's input; if the count is complete the slave was free |
| Pl.DrainMore | service/pqchsm_fpgad.c:729-743 | four packed bytes, or one single byte, are the next bytes of the answer |
| Handles.FirstFreeIs | service/pqchsm_fpgad.c:1380-1383 | the handle a key gets is free and everything before it is in use |
| Handles.StaysSensible | service/pqchsm_fpgad.c:1380-1406 | opening a handle, or failing to, keeps the live handles a prefix, one longer or the same |
| Fpgad.Daemon.Wr | service/pqchsm_fpgad.c:647-655 | a write acts once, or fails, sets the fault flag and may have acted |
| Fpgad.Daemon.WaitNotWiping | service/pqchsm_fpgad.c:1007-1021 | waits by reads only; success means not wiping and no failed access, refusal means one of the two |
| Fpgad.Daemon.WaitExpIdle | service/pqchsm_fpgad.c:753-767 | the same for EXP_WIPING |
| Fpgad.Daemon.FeedPacked | service/pqchsm_fpgad.c:717-727 | for every length, without a failed access, a free slave's input stream is extended by exactly the bytes; a complete count proves the slave free; the writes are the ones of the relation `Streamed` |
| Fpgad.Daemon.DrainPacked | service/pqchsm_fpgad.c:729-743 | for every length, without a failed access, the bytes are the next n of the answer, the tail of one to three included |
| Fpgad.Daemon.KemPrepare | service/pqchsm_fpgad.c:776-784 | mode and input are in the registers and the slave quiet when it says so; it gives up on a free slave only for a failed access or an unfinished wipe |
| Fpgad.Daemon.KemPoll | service/pqchsm_fpgad.c:786-796 | 0 means done, -2 refused, -3 neither or a failed access |
| Fpgad.Daemon.KemLaunch | service/pqchsm_fpgad.c:776-785 | up to START: what the relation `Launched` allows; on a free slave, or with input, the run asked for or a refusal; never a write during WIPING; on a free slave no START during EXP_WIPING |
| Fpgad.Daemon.KemStart | service/pqchsm_fpgad.c:769-796 | success without a failed access is a run of the relation `Returned`, and on a free slave, or with input, the slave holds the answer to this mode, input and staged seed |
| Fpgad.Daemon.KemRun | service/pqchsm_fpgad.c:769-803 | the same with the answer read out in full, given that the slave was free or that there is input; on a free slave and without a failed access it fails only for a refusal, a run or wipe not done in time, or an answer over the capacity |
| Fpgad.Daemon.DsaMode | service/pqchsm_fpgad.c:885-887 | if the board survives writing MODE before the wait, the slave is quiet afterwards |
| Fpgad.Daemon.DsaPrepare | service/pqchsm_fpgad.c:883-899 | all registers hold what the run needs, stale input and pointers cleared |
| Fpgad.Daemon.DsaRun | service/pqchsm_fpgad.c:874-933 | success on a surviving board: signature bytes and verify bit are the silicon's for this job; a board without a bus error saw no START during EXP_WIPING here; success excludes a failed access, and failure on a free slave has one of the same reasons |
| Fpgad.Daemon.SeedClr | service/pqchsm_fpgad.c:1037-1051 | success empties the staging port; the write never lands in WIPING whatever the slave was doing |
| Fpgad.Daemon.LoadSeed | service/pqchsm_fpgad.c:1023-1036 | the word by word load succeeds only on an empty port and then the port holds exactly the seed; an empty port never refuses |
| Fpgad.Daemon.Stage | service/pqchsm_fpgad.c:1053-1079 | success stages the seed inside the blob, and comes whenever everything is reliable and the blob authentic; failure leaves the port empty unless the clean-up was prevented |
| Fpgad.Daemon.SeedNew | service/pqchsm_fpgad.c:1053-1065 | the staged seed is the one the returned blob unwraps to, whatever was staged before |
| Fpgad.Daemon.SeedReplay | service/pqchsm_fpgad.c:1067-1079 | the staged seed is the one the given blob unwraps to, whatever was staged before |
| Fpgad.Daemon.KemKeygen | service/pqchsm_fpgad.c:1367-1416 | OK installs one key at the first free handle and answers that handle; on a free slave, without a failed access, the rest is the public key of the seed in its blob; every other outcome opens nothing; error codes exactly as deserved; HARDFAIL is explained as for decapsulation, a length other than the key's included |
| Fpgad.Daemon.KemEncaps | service/pqchsm_fpgad.c:1418-1439 | OK without a failed access answers the silicon's encapsulation for 32 random bytes and the given key, stray runs or not; INARGERR exactly for a bad parameter set or key length; HARDFAIL is explained in the same way |
| Fpgad.Daemon.KemDecaps | service/pqchsm_fpgad.c:1441-1465 | OK without a failed access answers the decapsulation with the seed of the blob at that handle, stray runs or not; unknown handles and wrong lengths get exactly their codes; HARDFAIL on a free slave without a failed access has a reason: a refusal, a run or wipe not done in time, an answer over 16384 octets, or no run begun because staging failed, which with everything reliable only a blob that does not authenticate can make it |
| Fpgad.Daemon.DsaKeygen | service/pqchsm_fpgad.c:1488-1529 | as for ML-KEM; OK excludes a failed access, and on a surviving board the public key is right without any condition on earlier runs; HARDFAIL is explained in the same way |
| Fpgad.Daemon.DsaSign | service/pqchsm_fpgad.c:1531-1590 | OK on a surviving board answers a signature of the exact message under the seed of the blob at that handle; unknown handles, contexts and overlong messages get exactly their codes, UNKNOWERR says there was no memory, and HARDFAIL is explained in the same way |
| Fpgad.Daemon.DsaVerify | service/pqchsm_fpgad.c:1592-1616 | OK and VERIFYFAIL on a surviving board are the silicon's verdict on key, signature and message of the payload; HARDFAIL is explained in the same way |
| Fpgad.Daemon.Export | service/pqchsm_fpgad.c:1658-1672 | exactly the live handles can be exported, and give their blob |
| Fpgad.Daemon.Import | service/pqchsm_fpgad.c:1674-1702 | the blob is installed unchanged at the first free handle of its table, the other table untouched |
| Fpgad.Daemon.HandleOp | service/pqchsm_fpgad.c:1320-1787 | for every request on keys: what it must not do to the slaves, the code it deserves, why it failed if it did, and what its reply is worth; the other requests touch neither slave nor table |
| Fpgad.Daemon.Attend | service/pqchsm_fpgad.c:2162-2186 | with the guard in front and the fault check behind, every reply is honest from any state of the slaves, wiping included: without a failed access it is the handler's, an OK resting on a failed access becomes HARDFAIL, and a HARDFAIL has its reason; with everything reliable only a wipe still going turns a request away |
| Fpgad.Daemon.Guard | service/pqchsm_fpgad.c:2166-2179 | lets a request through only when neither slave is wiping, and stops it only for a wipe still going or a failed access |
| Protocol.HandleUnsaidIff | service/pqchsm_fpgad.c:1397-1415 | a KEYGEN answered HARDFAIL left a handle open if and only if the handler said OK and an access had failed; ML-DSA never does |
| Fpgad.Daemon.SessionEnd | service/pqchsm_fpgad.c:1081-1111 | no handle survives; neither slave is written to during WIPING; a slave that was not wiping before is told to wipe, so without a failed access it is idle and empty once it has stopped wiping |
| Fpgad.Daemon.Erase | service/pqchsm_fpgad.c:1084-1089 | ZEROIZE only after a wait that saw no wipe; without a failed access it is left out only for a slave that was wiping and still is |
| Fpgad.Daemon.Session | service/pqchsm_fpgad.c:2156-2201 | a connection starts and ends without handles; every reply in it is honest; the clean-up starts where the last reply left the slaves |
| Fpgad.Daemon.Serve | service/pqchsm_fpgad.c:2156-2204 | over any number of connections and any device behaviour, no write ever lands during WIPING, and every connection is followed by such a clean-up |
| Protocol.CleanStartsFree | service/pqchsm_fpgad.c:1081-1111 | a connection after a clean-up in which no access failed and both wipes began and ended finds both slaves free |
| Sessions.HandleKeepsItsKey | service/pqchsm_fpgad.c:957-974 | from any request of a connection to any later one, live entries of both tables are unchanged |
| Sessions.HandlesArePrefix | service/pqchsm_fpgad.c:1380-1383 | at every request of a connection the live handles are a prefix of each table |
| Sessions.FreeUntilHardFail | service/pqchsm_fpgad.c:786-796 | slaves found free stay free, and unharmed in every way, up to and including the first HARDFAIL |
| Sessions.NoEarlyDsaStart | service/pqchsm_fpgad.c:885-900 | a board alive at the end of a connection saw no ML-DSA START during EXP_WIPING |
| Sessions.DecapsRunsOnKeygenSeed | service/pqchsm_fpgad.c:1367-1465 | KEYGEN then DECAPS under its handle, with anything in between: one seed explains both answers |
| Sessions.KeyAgreement | service/pqchsm_fpgad.c:1367-1465 | if the silicon is a correct KEM, what was encapsulated under the returned key decapsulates to the same secret |
| Sessions.SignRunsOnKeygenSeed | service/pqchsm_fpgad.c:1488-1590 | the same for key generation and signing |
| Sessions.SignatureAccepted | service/pqchsm_fpgad.c:1488-1616 | if the silicon is a correct signature scheme, such a signature is never answered VERIFYFAIL |
| Sessions.ImportedKeyDecapsulates | service/pqchsm_fpgad.c:1658-1702 | a blob exported in one connection and imported in another decapsulates on the exported key's seed |
| Stray.KeygenDueIff | service/pqchsm_fpgad.c:1397-1405 | for given silicon: KEYGEN's public key, length test passed, is the one due in every behaviour of the slave if and only if no run was going that was disturbed, of another mode, or would leave another key of that length |
| Stray.KeygenDueWhateverIff | service/pqchsm_fpgad.c:776-803 | for all silicon: the same if and only if nothing is running or an undisturbed run of this very job is |
| Stray.ReturnsDue | service/pqchsm_fpgad.c:776-803 | with input, or with nothing running, only the answer asked for can be returned |
| Stray.CanFailAtReadOut | service/pqchsm_fpgad.c:797-803 | every key generation that can succeed can come to DONE with a full OUT_LEN and then meet a failing read |
| Stray.EarlyStartIff | service/pqchsm_fpgad.c:745-785 | for any input, some behaviour of the slave makes START meet EXP_WIPING if and only if a run was going before the wait |
| Stray.BusyModeIff | service/pqchsm_fpgad.c:885-886 | writing MODE first can cost the board if and only if a run was going |
| Bytes.XorBitsAt | service/pqchsm_fpgad.c:1200-1200 | each bit of an exclusive-or says whether the two bits differ |
| Bytes.XorAt | service/pqchsm_fpgad.c:1223-1223 | the same for two octets |
| SymModes.IncIsPlusOne | service/pqchsm_fpgad.c:1166-1175 | the octet-wise increment adds one modulo 2^128 |
| SymModes.CounterBlockValue | service/pqchsm_fpgad.c:1166-1175 | counter block k is (IV + k) mod 2^128 |
| SymModes.CountersDistinct | service/pqchsm_fpgad.c:1160-1175 | no two counter blocks within 2^128 blocks are equal |
| SymModes.CtrInc | service/pqchsm_fpgad.c:1166-1175 | in place, the array becomes its increment |
| SymModes.EcbRecurrence | service/pqchsm_fpgad.c:1190-1193 | section 6.1 of SP 800-38A |
| SymModes.CbcRecurrence | service/pqchsm_fpgad.c:1195-1216 | section 6.2, both directions |
| SymModes.CfbRecurrence | service/pqchsm_fpgad.c:1235-1251 | section 6.3, both directions, short last block cut |
| SymModes.OfbRecurrence | service/pqchsm_fpgad.c:1227-1233 | section 6.4 |
| SymModes.CtrRecurrence | service/pqchsm_fpgad.c:1218-1224 | section 6.5 with the full-width increment |
| SymModes.RunAppend | service/pqchsm_fpgad.c:1177-1260 | in every mode a message can be split at any block boundary if the feedback is carried over |
| SymModes.CbcFeedback | service/pqchsm_fpgad.c:1195-1216 | in CBC that feedback is the last ciphertext block |
| SymModes.DecryptInvertsEncrypt | service/pqchsm_fpgad.c:1177-1260 | decryption inverts encryption in all five modes for every admitted length |
| SymModes.CbcEncryptInvertsDecrypt | service/pqchsm_fpgad.c:1195-1216 | the other order, for CBC |
| SymModes.SymCore.OneBlock | service/pqchsm_fpgad.c:1185-1254 | one turn of the mode switch computes one step of the specification, in and out possibly the same octets |
| SymModes.SymCore.Crypt | service/pqchsm_fpgad.c:1177-1260 | the whole loop computes the mode on what the input held at the call, also when it is overwritten in place, and touches nothing outside; on reliable hardware it succeeds in every mode |
| SymService.PackA0RoundTrip | service/libsdfe.c:553-555 | algorithm, direction and mode survive the packing into one word |
| SymService.SymCryptOp | service/pqchsm_fpgad.c:1754-1780 | INARGERR exactly for requests out of range; OK answers the mode's result for IV and data of the payload; HARDFAIL only from hardware that is not reliable |
| SymService.SymMode | service/libsdfe.c:539-571 | the client gets the same result as a direct call, for every length that fits one request, in and out possibly the same buffer; when nothing can fail it succeeds exactly for the requests served |
| HsmOps.PadInjective | service/hsmops.c:300-307 | distinct messages pad to distinct strings |
| HsmOps.PadOkIff | service/hsmops.c:345-351 | the receiver's check accepts exactly the padded strings, and cuts back to the message |
| HsmOps.SealedUnique | service/hsmops.c:330-354 | a ciphertext seals at most one message |
| HsmOps.SealedIff | service/hsmops.c:330-354 | well-sized input seals some message exactly when its decryption ends in valid padding |
| HsmOps.SealedLength | service/hsmops.c:329-330 | every ciphertext has the length the receiver insists on |
| HsmOps.PieceChains | service/hsmops.c:309-315 | a piece started from the last ciphertext block continues the one-shot CBC pass, both directions |
| HsmOps.RoomIff | service/hsmops.c:300-303 | the 32-bit length sums are true exactly below 2^32-32; the next sixteen lengths wrap the second one to zero |
| HsmOps.EncryptPiece | service/hsmops.c:310-314 | one request of whole blocks that fits extends the sealed part by one piece; under a known algorithm it is never turned down |
| HsmOps.EncryptPieces | service/hsmops.c:309-315 | the chunk loop equals one CBC pass over the padded message; every piece is a request the daemon serves |
| HsmOps.Encrypt | service/hsmops.c:288-321 | for every 32-bit length: success returns IV and the CBC pass over the padded message; under a known algorithm no request is turned down, and below 2^32-32 it succeeds when nothing around it fails; a buffer comes out too short only from 2^32-32 on, and then there is no success |
| HsmOps.CheckPadding | service/hsmops.c:345-351 | accepts exactly valid padding and returns its length |
| HsmOps.DecryptPieces | service/hsmops.c:338-344 | the chunk loop equals one CBC decryption pass; every piece is a request the daemon serves |
| HsmOps.Decrypt | service/hsmops.c:322-355 | success returns the one message that was sealed; a length or padding refusal means there is none; under a known algorithm no request is turned down, and nothing else fails when nothing around it does |
| HsmOps.RoundTrip | service/hsmops.c:288-355 | for every 32-bit length, encrypt then decrypt gives the message back or reports a failed operation, or, from 2^32-32 on, overran a buffer; below that, under a known algorithm and when nothing around it fails, it gives the message back |
| Rpmb.Emmc.WriteIoctl | board/src/rpmb.c:100-143 | the device's side: the counter moves by at most one, only for the right key and the current counter, whatever comes back |
| Rpmb.ReadCounter | board/src/rpmb.c:158-217 | the call is one of the runs of the retry loop; a keyed success reports the device's true counter at that moment; the caller's variables are written for 0, -3, -4 and -5 only; -3 exactly for a result the device itself flags; -5 only with the right key and an authentic read answer on the bus |
| Rpmb.WriteBlock | board/src/rpmb.c:219-279 | the call is one of the runs of read, write and result; the counter moves by 0 or 1 whatever is returned, one write request at most; a success on a bus without an earlier success answer moved it and reports its value, and so does one that reports one more than before |
| Rpmb.WriteMovesIff | board/src/rpmb.c:219-279 | with the right key, every success moved the counter and reports its value, in every behaviour, if and only if the bus is faithful or no answer to an earlier successful write is on record |
| Rpmb.UnmovedWrite | board/src/rpmb.c:257-279 | otherwise there is a run that returns 0 and leaves the counter where it was |
| Rpmb.NonceVerdictIff | board/src/rpmb.c:164-214 | in any state a keyed read can return -5 if and only if the key is the right one and the bus not faithful |
| Rpmb.MacVerdictIff | board/src/rpmb.c:164-211 | on a bus that only replays, of a device that signs, a keyed read can return -4 if and only if the key is wrong |
| Rpmb.MacVerdictAlways | board/src/rpmb.c:207-211 | on a bus that delivers anything a keyed read can return -4 in any state and with any key |
| Rpmb.CmdBump | board/src/rpmb_tool.c:182-202 | the call is one of the runs of read and write, and returns 0 exactly if both do and the write reports one more; 0 means the device counter really went up by exactly one; with the right key on a faithful bus it returns 0 until the counter is used up |
| Rpmb.CmdSelftest | board/src/rpmb_tool.c:204-257 | the call is one of the runs of read, three writes, wrong-key write and read, and returns 0 exactly if each does as it should; 0 means exactly three up, and that the wrong-key write never reached the device; with the right key on a faithful bus it returns 0 |
| Rpmb.Run | board/src/rpmb.c:158-279 | over any run of operations with any keys, reported counters never decrease and never exceed the device's |
| RateLimiter.StaysRefused | service/pqchsm_fpgad.c:322-337 | an address at the limit is refused by every connection in its window until sixteen later insertions |
| RateLimiter.AcceptedSound | service/pqchsm_fpgad.c:322-354 | every connection keeps one live entry per address and no count above eight |
| RateLimiter.RunSound | service/pqchsm_fpgad.c:2106-2149 | the same over every run |
| RateLimiter.Limiter.Allow | service/pqchsm_fpgad.c:322-337 | admits exactly the addresses not blocked in the history; an expired window starts over |
| RateLimiter.Limiter.Fail | service/pqchsm_fpgad.c:339-354 | one more failure of the live entry, or a new entry over the oldest |
| RateLimiter.Limiter.Serve | service/pqchsm_fpgad.c:2106-2149 | the ring table follows the history over any number of connections, handshakes lasting as long as they like |
| TupleCounts.LongerIsRarer | tools/sp800_90b.py:265-276 | if no i-tuple reaches a count, no (i+1)-tuple does |
| TupleCounts.CountTuples | tools/sp800_90b.py:267-267 | the counter holds the exact number of occurrences of every tuple |
| TupleCounts.TTuple | tools/sp800_90b.py:261-276 | the early stop finds the largest length up to 65 that reaches the cutoff, with the true maximum for each length |
| TupleCounts.PairsIsSize | tools/sp800_90b.py:309-313 | the running sum counts exactly the position pairs with equal tuples |
| TupleCounts.SumOverValues | tools/sp800_90b.py:311-311 | the sum of c(c-1)/2 in any order is that number |
| TupleCounts.LongestRepeated | tools/sp800_90b.py:290-322 | for any cutoff: when it raises, when it gives no estimate, and otherwise u and v are the lengths of section 6.3.6, and every ratio is pairs of equal tuples over pairs of positions |
| TupleCounts.RareEnough | tools/sp800_90b.py:292-307 | from a cutoff of 3 on neither scan runs off the end of two samples or more |
| TupleCounts.FirstRareLength | tools/sp800_90b.py:292-298 | for any cutoff u is t + 1, or 65 when t is 65 |
| TupleCounts.LastLengthRepeats | tools/sp800_90b.py:299-307 | v is the length of a repeated tuple exactly when some u-tuple repeats |
| MultiMcw.PredictionUnique | tools/sp800_90b.py:341-352 | most frequent value of the window, latest on a tie: there is only one |
| MultiMcw.ScoreAfterLeads | tools/sp800_90b.py:356-360 | the scoreboard counts correct predictions, and the winner's is a maximum |
| MultiMcw.MarkAllWinner | tools/sp800_90b.py:356-360 | only a window that was just right becomes the winner |
| MultiMcw.WinnerWasLast | tools/sp800_90b.py:356-360 | of the windows with the top score the winner is the one that was right last, and of those right about the same sample the last in order; without any score the first |
| MultiMcw.Slide | tools/sp800_90b.py:361-369 | counter and last-seen table stay exact for the window when a sample enters and the oldest leaves |
| MultiMcw.Predict | tools/sp800_90b.py:341-352 | maximum, ties, latest: the prediction of the definition |
| MultiMcw.LastInWindow | tools/sp800_90b.py:348-348 | the remembered position is the position inside the window |
| MultiMcw.WinnerPredicts | tools/sp800_90b.py:353-360 | the believed window always has a prediction |
| MultiMcw.Correct | tools/sp800_90b.py:327-370 | every entry of `correct` is the verdict on the winner's prediction at that step; absent exactly for short inputs |
| Sponge.PaddedInjective | tools/prim_count.py:51-55 | distinct messages have distinct padded forms, for any suffix but zero |
| Sponge.PaddedAt | tools/prim_count.py:51-55 | octet by octet and bit by bit: message, suffix, zeros, and the top bit of the last octet turned over |
| Sponge.StreamPrefix | tools/prim_count.py:104-112 | longer streams extend shorter ones |
| Sponge.StreamAt | tools/prim_count.py:104-112 | octet i of block j is octet i of the state after j more permutations |
| Sponge.Sponge | tools/prim_count.py:43-70 | the output is the stream's prefix; floor(len/rate)+1 absorbing and ceil(outlen/rate)-1 squeezing permutations, none for no output |
| Sponge.IncrementalShake.SqueezeBlock | tools/prim_count.py:108-112 | one permutation extends the stream by one block |
| Sponge.IncrementalEqualsSponge | tools/prim_count.py:77-112 | incremental and one-shot form agree in output and cost, for every message and number of blocks |
| Sponge.SampleNtt | tools/prim_count.py:115-131 | a finished run returns the first 256 accepted candidates of the stream, having read no triple too many; it takes exactly ceil(triples/56) permutations for a 32-octet rho, with at least 128 triples and hence at least 3 |
| Sponge.AcceptedBound | tools/prim_count.py:124-130 | at most two candidates a triple, hence at least 128 triples |
| Sponge.CandidatesAre | tools/prim_count.py:124-130 | the two candidates are the low and the high twelve bits of the triple read as a little-endian number, in this order, those below q kept |
| Lexer.NothingOpens | tools/ct_audit.py:158-211 | no quote or comment opener is left |
| Lexer.BlankedIdempotent | tools/ct_audit.py:158-211 | blanking a blanked text changes nothing |
| Lexer.LinesKept | tools/ct_audit.py:161-163 | every offset still names the same line |
| Lexer.FileComment | tools/ct_audit.py:168-172 | each comment character is filed under its own line |
| Lexer.Record | tools/ct_audit.py:168-172 | filing a comment piece by piece is filing it character by character |
| Lexer.BlankOut | tools/ct_audit.py:158-211 | the jumping scanner computes what a character automaton defines, text and comments |
| Lexer.LiteralBlanked | tools/ct_audit.py:158-211 | a quoted body of plain characters and backslash pairs is blanked up to and with its closing quote, and code follows |
| Parens.MatchParen | tools/ct_audit.py:214-224 | the first position where the depth is back, or -1 exactly if there is none |
| Parens.InnerExists | tools/ct_audit.py:112-135 | an opening before a closing parenthesis always encloses an innermost pair |
| Parens.BalancedStripped | tools/ct_audit.py:112-135 | balanced and stripped means free of parentheses |
| Survival.Survivors | tools/ct_audit.py:112-135 | what one pass with a stack leaves: a visible character survives if and only if it stands in no call's parentheses and is no part of a call's name; a token stands for just the calls no other call takes along; all in their order |
| Survival.KeptIff | tools/ct_audit.py:122-135 | the first half, character by character |
| Survival.AllKeptIff | tools/ct_audit.py:122-135 | nothing but parentheses and spaces is lost if and only if there is no call |
| Survival.SeenIs | tools/ct_audit.py:126-132 | what the code finds before a parenthesis, after all inner rewriting, is what the expression has there, groups looked into |
| Survival.CastIsCall | tools/ct_audit.py:126-135 | a group that ends in a word makes a call of the group right behind it, which loses all it holds |
| Survival.CastSwallows | tools/ct_audit.py:126-135 | a cast expression of which nothing is left but the neutral token |
| Calls.StripCalls | tools/ct_audit.py:112-135 | terminates, and rewriting the leftmost innermost pair over and over leaves what the one pass leaves; without a `(` behind a word or a `)` all text but parentheses and spaces is kept; no '(' is left before a ')'; the surplus of parentheses is kept; balanced input ends up without any |
| Zeroize.ClosedContains | tools/check_zeroize.py:294-297 | a set closed under the followed calls contains all they reach |
| Zeroize.Search.Covered | tools/check_zeroize.py:269-298 | with the shared visited set an inner call returns what its newly visited functions clear, and everything new is reachable |
| Zeroize.Search.CoveredFromTop | tools/check_zeroize.py:269-298 | the top call returns exactly the wanted fields cleared by some reachable function |
| Json.Buf.PutString | service/hsm_httpd.c:118-132 | appends the quoted, escaped string to a buffer that grows by doubling |
| Json.EscapeMeans | service/hsm_httpd.c:118-132 | each character is written in a way that means it by section 7 of RFC 8259 |
| Json.Hex2Value | service/hsm_httpd.c:128-128 | the two digits of an escaped control character, read in base 16, give it |
| Json.Buf.PutObject | service/hsm_httpd.c:134-139 | appends the object's text, commas in the right places |
| Json.GetField | service/hsm_httpd.c:159-197 | the pointer walk computes the reader's definition on any text |
| Json.UnquoteEscaped | service/hsm_httpd.c:185-196 | reading back a written string gives it with unsupported control characters mangled |
| Json.MangleIff | service/hsm_httpd.c:128-128 | and that is the string itself exactly when there are none |
| Json.AfterEscaped | service/hsm_httpd.c:166-169 | searching on from inside a written string finds a false key exactly when it ends in a quote and the key |
| Json.MembersFound | service/hsm_httpd.c:159-197 | the reader's exact answer on any written object |
| Json.RoundTripIff | service/hsm_httpd.c:118-197 | the value is read back unchanged if and only if it is clean and no earlier value looks like the key |
| Backup.CBackup | service/hsmctl.c:280-295 | the bundle is magic, count and every listed key with its digest; there is none only for an empty store, an empty file, one over 8192 bytes, or a failed digest; the 1 MB buffer is overrun only by a listing too large for it, and then there is no bundle |
| Restore.FirstPass | service/hsmctl.c:303-322 | for any octets the verdict is the first thing wrong with the bundle, unless a digest failed that could have been computed |
| Restore.IntactIff | service/hsmctl.c:303-322 | nothing is wrong with a bundle exactly if all entries it says it has are there with the right digests |
| Restore.CheckEntry | service/hsmctl.c:306-321 | one entry, with the wrapping sums of the source: outside the bundle exactly if it escapes, truncated exactly if a bounds test fails, no digest only for a length outside 1 to 16384 or a failed one, else passed or refused by its digest |
| Restore.EscapingBundle | service/hsmctl.c:309-312 | twelve octets on which the checking pass reads outside the bundle |
| Restore.Store.Spill | service/hsmctl.c:62-71 | a noticed failure leaves the file as it was or cut short; a close that loses data is not noticed |
| Restore.Store.SecondPass | service/hsmctl.c:324-338 | ends only as the relation `Restores` allows: entry by entry until a refused or wild name or a failed write |
| Restore.RestoresTell | service/hsmctl.c:324-338 | what that means on a disk that loses nothing on closing: on success everything is written; at a refused name the entries before it; at a failed write the entries before it, with the file at hand absent, as it was or cut short |
| Restore.OthersUntouched | service/hsmctl.c:324-338 | whatever the disk does, only files the bundle names can change |
| Restore.Store.CRestore | service/hsmctl.c:297-342 | for any octets: each refusal for its reason, the first thing wrong with the bundle, and with the store untouched; an intact bundle goes through the writing pass unless a digest fails |
| Restore.AllOrNothingIff | service/hsmctl.c:304-338 | for the entries of an intact bundle: all or nothing on a working disk if and only if all names are good or the first is refused; on a failing disk if and only if there is no entry or the first is refused |
| Restore.HalfRestored | service/hsmctl.c:324-338 | an intact bundle whose restore on a working disk leaves one of its two files |
| Restore.LostUnseenIff | service/hsmctl.c:62-71 | success on a disk that loses data on closing means everything is written if and only if there is nothing to write |
| Backup.EntryFound | service/hsmctl.c:268-274 | an entry written among other bytes is the entry read there |
| Backup.PackedFound | service/hsmctl.c:255-322 | packed entries, whatever their names, are read back and are intact |
| Restore.WrittenListing | service/hsmctl.c:324-338 | writing a listing's entries lays it over the store and changes nothing else |
| Restore.Store.WriteEntry | service/hsmctl.c:325-338 | one turn of the writing pass: name check, then the file |
| Restore.BackupThenRestore | service/hsmctl.c:255-342 | a backup that produced a bundle, then a restore of its octets: every listed file has its exact bytes and no other file changed, unless a digest or a write failed or closing a file lost it; an acceptable listing that fits is restored whenever digests and disk work |

## Left out

- Fpgad.Daemon.KemKeygen: promises the public key only if no run was still going when the request began; the unconditional statement is false, see `Stray.KeygenDueWhateverIff`.
- Fpgad.Daemon.KemDecaps: why it answered HARDFAIL is said for a slave that no earlier run keeps busy; on a busy one that run's end decides.
- Fpgad.Daemon.DsaRun: its answer is claimed for a board that took no bus error; a board that took one does not answer any more.
- Fpgad.Daemon.LoadSeed: the trusted application, its PTA and EL3 are one loop of word writes that may break off anywhere; what they do besides is not modelled.
- Fpgad.Daemon.HandleOp: PING, RANDOM, DEVICE_DNA, SM3 and the symmetric requests appear as one request that touches neither post-quantum slave nor table; SYM_CRYPT has its own module.
- Sessions.KeyAgreement: takes decapsulation to be correct on every seed; FIPS 203 allows a negligible failure rate.
- Sponge.SampleNtt: has a bound on the triples read, since nothing bounds how many a permutation may make it reject; what it states holds for every bound.
- HsmOps.Encrypt: what happens once a buffer is too short, which is undefined in the source's language.
- Backup.CBackup: what happens once the 1 MB buffer is overrun, which the source does not guard against.
- Restore.Store.CRestore: what happens after `Undefined`; a bundle file that cannot be read at all.
- Restore.BackupThenRestore: writing the bundle file itself; the octets restored are the octets packed.
- Register addresses and bit positions: commands and status are typed.
- An ML-KEM input of more than 8192 bytes, which wraps the slave's pointer: the model counts it as a bus error, and the daemon never sends one.
- Reading OUT_DATA or OUT_LEN during a run, tampering, SEED_LOCK and the SY slave's own handshake: the daemon does none of the first, and the others do not occur in these paths.
- `SymCore.BlockOp`: the register handshake of `sym_block` is one step that may fail.
- Whether DONE comes in time: poll bounds are the source's, wall-clock deadlines are arbitrary.
- Foreign clients of the trusted application act between requests only.
- The cryptographic cores, TLS, sockets, the OP-TEE calls, the disk: parameters or steps that may fail.
- `rpmb_program_key` and provisioning, which are compiled out.
- The floating-point parts of the estimators (bounds, bisections, entropies), and the estimators `collision`, `markov`, `compression`, `lag`, `multimmc` and `lz78y`.
- Clearing of local buffers after use, log lines and printing.
- In `covered_fields`, how calls, clearing calls and types are recognised in the text: they are inputs; function names are unique.
