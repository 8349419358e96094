/** What a client may rely on across the requests of a connection, and across connections. */
module Sessions {
  import opened Bytes
  import opened Pl
  import opened Handles
  import opened Options
  import opened Protocol

  // ---- handles -------------------------------------------------------------------------------

  /** Live entries are never overwritten and never closed. */
  predicate Grew(table: seq<Slot>, table': seq<Slot>) {
    && |table'| == |table|
    && forall h :: 0 <= h < |table| && table[h].used ==> table'[h] == table[h]
  }

  lemma OpenedGrew(table: seq<Slot>, table': seq<Slot>, pset: nat)
    requires Opened(table, table', pset)
    ensures Grew(table, table') && !table[FirstFree(table, 0)].used
  {
    FirstFreeIs(table);
  }

  lemma ExchangeGrows(f: Compute, unwrap: Unwrap, e: Exchange)
    requires Honest(f, unwrap, e)
    ensures Grew(e.before.keys, e.after.keys) && Grew(e.before.dsaKeys, e.after.dsaKeys)
  {
    var w, w' := e.before, e.after;
    forall pset | Opened(w.keys, w'.keys, pset) ensures Grew(w.keys, w'.keys) {
      OpenedGrew(w.keys, w'.keys, pset);
    }
    forall pset | Opened(w.dsaKeys, w'.dsaKeys, pset) ensures Grew(w.dsaKeys, w'.dsaKeys) {
      OpenedGrew(w.dsaKeys, w'.dsaKeys, pset);
    }
    hide Opened, RanOn, Names, FirstFree, Encapsulated, Signed, VerifyJob, KemLengths, DsaLengths, Spared;
  }

  /** A handle means the same key until the connection ends. */
  lemma {:induction false} HandleKeepsItsKey(f: Compute, unwrap: Unwrap, log: seq<Exchange>,
                                             requests: seq<Request>, i: nat, j: nat)
    requires IsSession(f, unwrap, log, requests) && i < j < |log|
    ensures Grew(log[i].after.keys, log[j].before.keys)
    ensures Grew(log[i].after.dsaKeys, log[j].before.dsaKeys)
    decreases j
  {
    hide Honest, Linked, Blank;
    assert Linked(f, log, j);
    LinkKeeps(f, log, j);
    if i < j - 1 {
      HandleKeepsItsKey(f, unwrap, log, requests, i, j - 1);
      ExchangeGrows(f, unwrap, log[j - 1]);
    }
  }

  /** At every request the live handles of both tables form a prefix. */
  lemma {:induction false} HandlesArePrefix(f: Compute, unwrap: Unwrap, log: seq<Exchange>,
                                            requests: seq<Request>, i: nat)
    requires IsSession(f, unwrap, log, requests) && i < |log|
    ensures Prefix(log[i].before.keys) && Prefix(log[i].before.dsaKeys)
    ensures Prefix(log[i].after.keys) && Prefix(log[i].after.dsaKeys)
  {
    hide Honest, Linked, Blank, Prefix;
    if i == 0 {
      BlankIsPrefix(log[0].before.keys);
      BlankIsPrefix(log[0].before.dsaKeys);
    } else {
      HandlesArePrefix(f, unwrap, log, requests, i - 1);
      assert Linked(f, log, i);
      LinkKeeps(f, log, i);
    }
    ExchangeKeepsPrefix(f, unwrap, log[i]);
  }

  predicate Prefix(table: seq<Slot>) {
    forall g, h :: 0 <= g < h < |table| && table[h].used ==> table[g].used
  }

  lemma BlankIsPrefix(table: seq<Slot>)
    requires Blank(table)
    ensures Prefix(table)
  {
  }

  lemma OpenedKeepsPrefix(table: seq<Slot>, table': seq<Slot>, pset: nat)
    requires Prefix(table) && Opened(table, table', pset)
    ensures Prefix(table')
  {
    FirstFreeIs(table);
  }

  lemma ExchangeKeepsPrefix(f: Compute, unwrap: Unwrap, e: Exchange)
    requires Honest(f, unwrap, e) && Prefix(e.before.keys) && Prefix(e.before.dsaKeys)
    ensures Prefix(e.after.keys) && Prefix(e.after.dsaKeys)
  {
    var w, w' := e.before, e.after;
    forall pset | Opened(w.keys, w'.keys, pset) ensures Prefix(w'.keys) {
      OpenedKeepsPrefix(w.keys, w'.keys, pset);
    }
    forall pset | Opened(w.dsaKeys, w'.dsaKeys, pset) ensures Prefix(w'.dsaKeys) {
      OpenedKeepsPrefix(w.dsaKeys, w'.dsaKeys, pset);
    }
    hide Opened, RanOn, Names, FirstFree, Encapsulated, Signed, VerifyJob, KemLengths, DsaLengths, Spared;
  }

  // ---- stray runs ----------------------------------------------------------------------------

  /** A slave found free at the first request is free at every request up to and including the first
      one that is answered HARDFAIL, and until then it has not been mistreated in any way. */
  lemma {:induction false} FreeUntilHardFail(f: Compute, unwrap: Unwrap, log: seq<Exchange>,
                                             requests: seq<Request>, i: nat)
    requires IsSession(f, unwrap, log, requests) && i < |log|
    requires !log[0].before.mk.phase.Running? && !log[0].before.md.phase.Running?
    requires forall k :: 0 <= k < i ==> log[k].status != HardFail
    ensures !log[i].before.mk.phase.Running? && !log[i].before.md.phase.Running?
    ensures log[i].after.mk.blame == log[0].before.mk.blame
    ensures log[i].after.md.blame == log[0].before.md.blame
  {
    hide Honest, Linked, Blank;
    ExchangeSpares(f, unwrap, log[i]);
    if i > 0 {
      FreeUntilHardFail(f, unwrap, log, requests, i - 1);
      ExchangeSpares(f, unwrap, log[i - 1]);
      assert Linked(f, log, i);
      LinkKeeps(f, log, i);
    }
  }

  lemma LinkKeeps(f: Compute, log: seq<Exchange>, i: nat)
    requires 0 < i < |log| && Linked(f, log, i)
    ensures var w, w' := log[i - 1].after, log[i].before;
            && w'.keys == w.keys && w'.dsaKeys == w.dsaKeys
            && w'.mk.blame == w.mk.blame && w'.md.blame == w.md.blame
            && (!w.mk.phase.Running? ==> !w'.mk.phase.Running?)
            && (!w.md.phase.Running? ==> !w'.md.phase.Running?)
  {
  }

  lemma ExchangeSpares(f: Compute, unwrap: Unwrap, e: Exchange)
    requires Honest(f, unwrap, e)
    ensures Spared(e.before, e.q, e.status, e.after)
  {
  }

  /** On a board that is still alive at the end of a connection, no START of the ML-DSA slave met
      EXP_WIPING, whatever timed out on the way. */
  lemma {:induction false} NoEarlyDsaStart(f: Compute, unwrap: Unwrap, log: seq<Exchange>,
                                           requests: seq<Request>, i: nat)
    requires IsSession(f, unwrap, log, requests) && i < |log|
    requires !log[i].after.md.blame.busError
    ensures log[i].after.md.blame.expStart == log[0].before.md.blame.expStart
  {
    hide Honest, Linked, Blank;
    ExchangeSpares(f, unwrap, log[i]);
    if i > 0 {
      assert Linked(f, log, i);
      LinkKeeps(f, log, i);
      NoEarlyDsaStart(f, unwrap, log, requests, i - 1);
    }
  }

  // ---- one key, several requests -------------------------------------------------------------

  /** What FIPS 203 promises of the silicon: decapsulating what was encapsulated gives the same
      secret. The encapsulation answers secret and ciphertext, in this order. */
  ghost predicate KemCorrect(f: Compute) {
    forall pset: nat, seed: seq<Word>, m: seq<byte> :: |seed| == SeedWords(MlKem) && |m| == 32 ==>
      DecapsulatesTo(f, pset, seed, Secret(f, pset, seed, m), m)
  }

  function PublicKey(f: Compute, t: Target, pset: nat, seed: seq<Word>): seq<byte> {
    f(t, JobFor(t, Private(0, pset), seed, [], 0)).output
  }

  function Secret(f: Compute, pset: nat, seed: seq<Word>, m: seq<byte>): seq<byte> {
    f(MlKem, JobFor(MlKem, Public(1, pset), [], m + PublicKey(f, MlKem, pset, seed), 0)).output
  }

  predicate DecapsulatesTo(f: Compute, pset: nat, seed: seq<Word>, kc: seq<byte>, m: seq<byte>) {
    |kc| >= 32 && f(MlKem, JobFor(MlKem, Private(2, pset), seed, kc[32..], 0)).output == kc[..32]
  }

  predicate NewKey(e: Exchange, pset: nat, h: nat) {
    e.q == Request.KemKeygen(pset) && e.status == Ok && |e.reply| >= 4 && Names(e.reply[..4], h)
  }

  /** A decapsulation answered OK ran on the very seed of the key generated under its handle,
      whatever happened in between and whatever was left in the staging port. */
  lemma DecapsRunsOnKeygenSeed(f: Compute, unwrap: Unwrap, log: seq<Exchange>, requests: seq<Request>,
                               i: nat, j: nat, pset: nat, h: nat, ct: seq<byte>) returns (seed: seq<Word>)
    requires IsSession(f, unwrap, log, requests) && i < j < |log|
    requires NewKey(log[i], pset, h) && !log[i].before.mk.phase.Running?
    requires log[j].q == Request.KemDecaps(h, ct) && log[j].status == Ok
    ensures |seed| == SeedWords(MlKem)
    ensures log[i].reply[4..] == PublicKey(f, MlKem, pset, seed)
    ensures log[j].reply == f(MlKem, JobFor(MlKem, Private(2, pset), seed, ct, 0)).output
  {
    var w, w' := log[i].before.keys, log[i].after.keys;
    assert Honest(f, unwrap, log[i]) && Honest(f, unwrap, log[j]);
    HandleKeepsItsKey(f, unwrap, log, requests, i, j);
    assert h == FirstFree(w, 0) && log[j].before.keys[h] == w'[h] && w'[h].pset == pset;
    seed := unwrap(MlKem, w'[h].blob).value;
  }

  /** Two parties agree: encapsulate under a key this daemon generated, here or anywhere, decapsulate
      under its handle, and both hold the same secret. */
  lemma KeyAgreement(f: Compute, unwrap: Unwrap, log: seq<Exchange>, requests: seq<Request>,
                     i: nat, j: nat, pset: nat, h: nat, m: seq<byte>, kc: seq<byte>)
    requires KemCorrect(f)
    requires IsSession(f, unwrap, log, requests) && i < j < |log|
    requires NewKey(log[i], pset, h) && !log[i].before.mk.phase.Running?
    requires Encapsulated(f, pset, log[i].reply[4..], m, kc) && |kc| >= 32
    requires log[j].q == Request.KemDecaps(h, kc[32..]) && log[j].status == Ok
    ensures log[j].reply == kc[..32]
  {
    var seed := DecapsRunsOnKeygenSeed(f, unwrap, log, requests, i, j, pset, h, kc[32..]);
    assert kc == Secret(f, pset, seed, m);
    assert DecapsulatesTo(f, pset, seed, Secret(f, pset, seed, m), m);
  }

  /** What FIPS 204 promises of the silicon: what was signed verifies, and sizes are as announced. */
  ghost predicate DsaCorrect(f: Compute) {
    forall pset: nat, seed: seq<Word>, rnd: seq<byte>, msg: seq<byte> ::
      |seed| == SeedWords(MlDsa) && |rnd| == 32 ==>
        Verifies(f, pset, PublicKey(f, MlDsa, pset, seed), SignatureOf(f, pset, seed, rnd, msg), msg)
  }

  function SignatureOf(f: Compute, pset: nat, seed: seq<Word>, rnd: seq<byte>, msg: seq<byte>): seq<byte> {
    f(MlDsa, JobFor(MlDsa, Private(1, pset), seed, rnd + msg, |msg|)).output
  }

  predicate Verifies(f: Compute, pset: nat, pk: seq<byte>, sig: seq<byte>, msg: seq<byte>) {
    && |pk| == DsaLengths(pset).pk && |sig| == DsaLengths(pset).sig
    && f(MlDsa, VerifyJob(pset, pk + sig + msg)).verified
  }

  predicate NewSigningKey(e: Exchange, pset: nat, h: nat) {
    e.q == Request.DsaKeygen(pset) && e.status == Ok && |e.reply| >= 4 && Names(e.reply[..4], h)
  }

  /** The signing counterpart, on a board that is still alive when it answers. */
  lemma SignRunsOnKeygenSeed(f: Compute, unwrap: Unwrap, log: seq<Exchange>, requests: seq<Request>,
                             i: nat, j: nat, pset: nat, h: nat, msg: seq<byte>)
    returns (seed: seq<Word>, rnd: seq<byte>)
    requires IsSession(f, unwrap, log, requests) && i < j < |log|
    requires NewSigningKey(log[i], pset, h) && !log[i].after.md.blame.busError
    requires log[j].q == Request.DsaSign(h, 0, msg) && log[j].status == Ok && !log[j].after.md.blame.busError
    ensures |seed| == SeedWords(MlDsa) && |rnd| == 32
    ensures log[i].reply[4..] == PublicKey(f, MlDsa, pset, seed)
    ensures log[j].reply == SignatureOf(f, pset, seed, rnd, msg)
  {
    var w, w' := log[i].before.dsaKeys, log[i].after.dsaKeys;
    assert Honest(f, unwrap, log[i]) && Honest(f, unwrap, log[j]);
    HandleKeepsItsKey(f, unwrap, log, requests, i, j);
    assert h == FirstFree(w, 0) && log[j].before.dsaKeys[h] == w'[h] && w'[h].pset == pset;
    seed := unwrap(MlDsa, w'[h].blob).value;
    rnd :| Signed(f, unwrap, w'[h], msg, rnd, log[j].reply);
  }

  /** A signature made under a handle is never turned down under that handle's public key. */
  lemma SignatureAccepted(f: Compute, unwrap: Unwrap, log: seq<Exchange>, requests: seq<Request>,
                          i: nat, j: nat, pset: nat, h: nat, msg: seq<byte>, e: Exchange)
    requires DsaCorrect(f)
    requires IsSession(f, unwrap, log, requests) && i < j < |log|
    requires NewSigningKey(log[i], pset, h) && !log[i].after.md.blame.busError
    requires log[j].q == Request.DsaSign(h, 0, msg) && log[j].status == Ok && !log[j].after.md.blame.busError
    requires Honest(f, unwrap, e) && !e.after.md.blame.busError
    requires e.q == Request.DsaVerify(pset, 0, log[i].reply[4..] + log[j].reply + msg)
    ensures e.status != VerifyFail
  {
    var seed, rnd := SignRunsOnKeygenSeed(f, unwrap, log, requests, i, j, pset, h, msg);
    assert Verifies(f, pset, PublicKey(f, MlDsa, pset, seed), SignatureOf(f, pset, seed, rnd, msg), msg);
  }

  /** A key outlives its connection as a blob: exported in one, imported in another, it decapsulates
      as it did under its old handle. */
  lemma ImportedKeyDecapsulates(f: Compute, unwrap: Unwrap, x: Exchange, h0: nat,
                                log: seq<Exchange>, requests: seq<Request>,
                                i: nat, j: nat, pset: nat, h: nat, ct: seq<byte>)
    requires Honest(f, unwrap, x) && x.q == BlobExport(0, h0) && x.status == Ok
    requires IsSession(f, unwrap, log, requests) && i < j < |log|
    requires log[i].q == BlobImport(0, pset, x.reply) && log[i].status == Ok && Names(log[i].reply, h)
    requires log[j].q == Request.KemDecaps(h, ct) && log[j].status == Ok
    ensures h0 < |x.before.keys| && x.before.keys[h0].used
    ensures RanOn(f, unwrap, MlKem, Private(2, pset), x.before.keys[h0].blob, ct, 0, log[j].reply)
  {
    var w, w' := log[i].before.keys, log[i].after.keys;
    assert Honest(f, unwrap, log[i]) && Honest(f, unwrap, log[j]);
    HandleKeepsItsKey(f, unwrap, log, requests, i, j);
    assert h == FirstFree(w, 0) && log[j].before.keys[h] == w'[h] && w'[h].pset == pset;
  }
}
