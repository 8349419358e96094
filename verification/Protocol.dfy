/**
 * Requests and replies of the daemon, and what a reply is worth: which key a handle stands for, what
 * the silicon was asked to compute, and what a request must never do to a slave.
 */
module Protocol {
  import opened Bytes
  import opened Pl
  import opened Handles
  import opened Options
  import opened Wire

  const SEED_BLOB_MAX := 128

  /** The trusted application's side of a blob; `None` when it does not authenticate. */
  type Unwrap = (Target, seq<byte>) -> Option<seq<Word>>

  datatype Code = Ok | HardFail | InArgErr | KeyNotExist | UnknowErr | VerifyFail | Another(code: nat)

  datatype Request =
    | KemKeygen(pset: nat)
    | KemEncaps(pset: nat, ek: seq<byte>)
    | KemDecaps(h: nat, ct: seq<byte>)
    | DsaKeygen(pset: nat)
    | DsaSign(h: nat, ctxLen: nat, msg: seq<byte>)
    | DsaVerify(pset: nat, ctxLen: nat, payload: seq<byte>)
    | BlobExport(kind: nat, h: nat)
    | BlobImport(kind: nat, pset: nat, blob: seq<byte>)
    | Other

  /** A frame the daemon reads at all. */
  predicate Framed(q: Request) {
    match q
    case KemEncaps(_, p) => |p| <= MAXPAY
    case KemDecaps(_, p) => |p| <= MAXPAY
    case DsaSign(_, _, p) => |p| <= MAXPAY
    case DsaVerify(_, _, p) => |p| <= MAXPAY
    case BlobImport(_, _, p) => |p| <= MAXPAY
    case _ => true
  }

  datatype KemSizes = KemSizes(ek: nat, ct: nat)

  function KemLengths(pset: nat): KemSizes {
    var k := if pset == 0 then 2 else if pset == 1 then 3 else 4;
    var du, dv := if pset == 2 then 11 else 10, if pset == 2 then 5 else 4;
    KemSizes(384 * k + 32, 32 * (du * k + dv))
  }

  datatype DsaSizes = DsaSizes(pk: nat, sig: nat)

  function DsaLengths(pset: nat): DsaSizes {
    if pset == 0 then DsaSizes(1312, 2420) else if pset == 1 then DsaSizes(1952, 3309) else DsaSizes(2592, 4627)
  }

  /** Key generation, decapsulation and signing: the private key is expanded from the staged seed. */
  function Private(op: nat, pset: nat): Mode {
    Mode(op, pset, true, true)
  }

  function Public(op: nat, pset: nat): Mode {
    Mode(op, pset, false, false)
  }

  /** What a run of `mode` on `input` is given, when `stage` is what the staging port holds. */
  function JobFor(t: Target, mode: Mode, stage: seq<Word>, input: seq<byte>, msgLen: nat): Job {
    Job(mode, if TakesSeed(t, mode) then stage else [], input, msgLen, 0)
  }

  /** The payload of a verification is public key, signature and message. */
  function VerifyJob(pset: nat, payload: seq<byte>): Job
    requires |payload| >= DsaLengths(pset).pk + DsaLengths(pset).sig
  {
    JobFor(MlDsa, Public(2, pset), [], payload, |payload| - DsaLengths(pset).pk - DsaLengths(pset).sig)
  }

  /** A whole seed is inside the blob. */
  predicate Authentic(unwrap: Unwrap, t: Target, blob: seq<byte>) {
    unwrap(t, blob).Some? && |unwrap(t, blob).value| == SeedWords(t)
  }

  /** `output` is what the silicon makes of `input` with the seed inside `blob`. */
  predicate RanOn(f: Compute, unwrap: Unwrap, t: Target,
                  mode: Mode, blob: seq<byte>, input: seq<byte>, msgLen: nat, output: seq<byte>)
  {
    && Authentic(unwrap, t, blob)
    && output == f(t, JobFor(t, mode, unwrap(t, blob).value, input, msgLen)).output
  }

  predicate Encapsulated(f: Compute, pset: nat, ek: seq<byte>, m: seq<byte>, output: seq<byte>) {
    |m| == 32 && output == f(MlKem, JobFor(MlKem, Public(1, pset), [], m + ek, 0)).output
  }

  predicate Signed(f: Compute, unwrap: Unwrap, slot: Slot,
                   msg: seq<byte>, rnd: seq<byte>, output: seq<byte>)
  {
    |rnd| == 32 && RanOn(f, unwrap, MlDsa, Private(1, slot.pset), slot.blob, rnd + msg, |msg|, output)
  }

  // ---- one request ---------------------------------------------------------------------------

  /** Everything that outlives a request. `reliable`: no register access ever fails, and trusted
      application, noise source and allocator give what they are asked for. */
  datatype World = World(mk: Core, md: Core, keys: seq<Slot>, dsaKeys: seq<Slot>, reliable: bool)

  /** The requests turned down without touching a slave, and with which code. */
  function Refusal(w: World, q: Request): Option<Code> {
    match q
    case KemKeygen(pset) =>
      if pset > 2 then Some(InArgErr) else if FirstFree(w.keys, 0) == |w.keys| then Some(UnknowErr) else None
    case KemEncaps(pset, ek) =>
      if pset > 2 || |ek| != KemLengths(pset).ek then Some(InArgErr) else None
    case KemDecaps(h, ct) =>
      if h >= |w.keys| || !w.keys[h].used then Some(KeyNotExist)
      else if |ct| != KemLengths(w.keys[h].pset).ct then Some(InArgErr) else None
    case DsaKeygen(pset) =>
      if pset > 2 then Some(InArgErr) else if FirstFree(w.dsaKeys, 0) == |w.dsaKeys| then Some(UnknowErr) else None
    case DsaSign(h, ctxLen, msg) =>
      if h >= |w.dsaKeys| || !w.dsaKeys[h].used then Some(KeyNotExist)
      else if ctxLen != 0 || 32 + |msg| > MAXPAY then Some(InArgErr) else None
    case DsaVerify(pset, ctxLen, payload) =>
      if pset > 2 || ctxLen != 0 || |payload| < DsaLengths(pset).pk + DsaLengths(pset).sig then Some(InArgErr)
      else None
    case BlobExport(kind, h) =>
      var table := if kind == 0 then w.keys else w.dsaKeys;
      if kind > 1 || h >= |table| || !table[h].used then Some(KeyNotExist) else None
    case BlobImport(kind, pset, blob) =>
      var table := if kind == 0 then w.keys else w.dsaKeys;
      if kind > 1 || pset > 2 || blob == [] || |blob| > SEED_BLOB_MAX then Some(InArgErr)
      else if FirstFree(table, 0) == |table| then Some(UnknowErr) else None
    case Other => None
  }

  /** Short of a hardware failure the code is the one the request deserves, or a signing request found
      no memory. */
  predicate Coded(w: World, q: Request, status: Code) {
    q.Other? || status == HardFail ||
    match Refusal(w, q)
    case Some(code) => status == code
    case None =>
      status == Ok || (q.DsaVerify? && status == VerifyFail) || (q.DsaSign? && status == UnknowErr)
  }

  /** What no request does to a slave: write to it during WIPING, or cause any other bus error on
      ML-KEM; and, unless an earlier run is still going, cause a bus error on ML-DSA, start a slave
      during EXP_WIPING, or leave a run going without saying so. On ML-DSA a run still going costs the
      board, and short of that no START is ever early. */
  predicate Spared(w: World, q: Request, status: Code, w': World) {
    && w'.mk.blame.busError == w.mk.blame.busError
    && w'.mk.blame.wipeWrite == w.mk.blame.wipeWrite
    && w'.md.blame.wipeWrite == w.md.blame.wipeWrite
    && (!w.mk.phase.Running? ==>
          w'.mk.blame == w.mk.blame && (status != HardFail ==> !w'.mk.phase.Running?))
    && (!w.md.phase.Running? ==>
          w'.md.blame == w.md.blame && (status != HardFail ==> !w'.md.phase.Running?))
    && (!w'.md.blame.busError ==> !w.md.blame.busError && w'.md.blame.expStart == w.md.blame.expStart)
  }

  /** What a reply tells. `faulty`: a register access failed on the way, and nothing read counts. */
  ghost predicate Told(f: Compute, unwrap: Unwrap,
                       w: World, q: Request, status: Code, reply: seq<byte>, faulty: bool, w': World)
  {
    && (status != Ok ==> reply == [])
    && match q
       case KemKeygen(pset) =>
         && w'.dsaKeys == w.dsaKeys
         && (status != Ok ==> Unopened(w.keys, w'.keys))
         && (status == Ok ==>
               && Opened(w.keys, w'.keys, pset)
               && |reply| == 4 + KemLengths(pset).ek
               && Names(reply[..4], FirstFree(w.keys, 0))
               && (!faulty && !w.mk.phase.Running? ==>
                     RanOn(f, unwrap, MlKem, Private(0, pset), Newest(w.keys, w'.keys).blob, [], 0, reply[4..])))
       case KemEncaps(pset, ek) =>
         && w'.keys == w.keys && w'.dsaKeys == w.dsaKeys
         && (status == Ok && !faulty ==> exists m :: Encapsulated(f, pset, ek, m, reply))
       case KemDecaps(h, ct) =>
         && w'.keys == w.keys && w'.dsaKeys == w.dsaKeys
         && (status == Ok && !faulty ==>
               && h < |w.keys| && w.keys[h].used
               && RanOn(f, unwrap, MlKem, Private(2, w.keys[h].pset), w.keys[h].blob, ct, 0, reply))
       case DsaKeygen(pset) =>
         && (status == Ok ==> !faulty)
         && w'.keys == w.keys
         && (status != Ok ==> Unopened(w.dsaKeys, w'.dsaKeys))
         && (status == Ok ==>
               && Opened(w.dsaKeys, w'.dsaKeys, pset)
               && |reply| == 4 + DsaLengths(pset).pk
               && Names(reply[..4], FirstFree(w.dsaKeys, 0))
               && (!w'.md.blame.busError ==>
                     RanOn(f, unwrap, MlDsa, Private(0, pset), Newest(w.dsaKeys, w'.dsaKeys).blob, [], 0, reply[4..])))
       case DsaSign(h, ctxLen, msg) =>
         && w'.keys == w.keys && w'.dsaKeys == w.dsaKeys
         && (status == Ok ==> !faulty && h < |w.dsaKeys| && w.dsaKeys[h].used && ctxLen == 0)
         && (status == Ok && !w'.md.blame.busError ==>
               exists rnd :: Signed(f, unwrap, w.dsaKeys[h], msg, rnd, reply))
       case DsaVerify(pset, ctxLen, payload) =>
         && w'.keys == w.keys && w'.dsaKeys == w.dsaKeys
         && (status == Ok || status == VerifyFail ==>
               && !faulty
               && pset <= 2 && ctxLen == 0 && |payload| >= DsaLengths(pset).pk + DsaLengths(pset).sig
               && (!w'.md.blame.busError ==> (status == Ok <==> f(MlDsa, VerifyJob(pset, payload)).verified)))
       case BlobExport(kind, h) =>
         && (status == Ok ==> !faulty)
         && w'.keys == w.keys && w'.dsaKeys == w.dsaKeys
         && (status == Ok ==>
               var table := if kind == 0 then w.keys else w.dsaKeys;
               kind <= 1 && h < |table| && table[h].used && reply == table[h].blob)
       case BlobImport(kind, pset, blob) =>
         && (status == Ok ==> !faulty)
         && (status != Ok ==> w'.keys == w.keys && w'.dsaKeys == w.dsaKeys)
         && (status == Ok ==>
               var (table, table') := if kind == 0 then (w.keys, w'.keys) else (w.dsaKeys, w'.dsaKeys);
               && (if kind == 0 then w'.dsaKeys == w.dsaKeys else w'.keys == w.keys)
               && kind <= 1 && Opened(table, table', pset)
               && Newest(table, table').blob == blob && Names(reply, FirstFree(table, 0)))
       case Other => w'.keys == w.keys && w'.dsaKeys == w.dsaKeys
  }

  /** The silicon refuses or does not end in time, its expansion area is not clean in time, or its answer
      has a length no answer has. */
  predicate Unanswered(c: Core, min: nat, max: nat) {
    Unready(c) || (c.phase.Finished? && !(min <= |c.phase.answer.output| <= max))
  }

  /** No run was begun. */
  predicate NoRun(c: Core, c': Core) {
    c'.phase == c.phase || c'.phase.Idle?
  }

  /** Why the handler answered HARDFAIL although no access had failed. Nothing is said of a slave that
      was busy with an earlier run. */
  predicate Explained(unwrap: Unwrap, w: World, q: Request, w': World) {
    match q
    case KemKeygen(pset) =>
      var ek := KemLengths(pset).ek;
      w.mk.phase.Running? || Unanswered(w'.mk, ek, ek) || (NoRun(w.mk, w'.mk) && !w.reliable)
    case KemEncaps(pset, _) =>
      var n := 32 + KemLengths(pset).ct;
      w.mk.phase.Running? || Unanswered(w'.mk, n, n) || (NoRun(w.mk, w'.mk) && !w.reliable)
    case KemDecaps(h, _) =>
      && h < |w.keys|
      && (|| w.mk.phase.Running? || Unanswered(w'.mk, 0, MAXPAY)
          || (NoRun(w.mk, w'.mk) && !(w.reliable && Authentic(unwrap, MlKem, w.keys[h].blob))))
    case DsaKeygen(pset) =>
      var pk := DsaLengths(pset).pk;
      w.md.phase.Running? || Unanswered(w'.md, pk, pk) || (NoRun(w.md, w'.md) && !w.reliable)
    case DsaSign(h, _, _) =>
      && h < |w.dsaKeys|
      && var sig := DsaLengths(w.dsaKeys[h].pset).sig;
         || w.md.phase.Running? || Unanswered(w'.md, sig, sig)
         || (NoRun(w.md, w'.md) && !(w.reliable && Authentic(unwrap, MlDsa, w.dsaKeys[h].blob)))
    case DsaVerify(_, _, _) => w.md.phase.Running? || Unanswered(w'.md, 0, MAXPAY)
    case BlobExport(_, _) => false
    case BlobImport(_, _, _) => false
    case Other => true
  }

  /** Nothing is turned down without a reason: short of a failed access the hardware has one for every
      HARDFAIL, and where everything can be relied on no access fails and memory does not run out. */
  predicate Excused(unwrap: Unwrap, w: World, q: Request, status: Code, faulty: bool, w': World) {
    && w'.reliable == w.reliable
    && (w.reliable ==> !faulty && (q.DsaSign? ==> status != UnknowErr))
    && (status == HardFail && !faulty ==> Explained(unwrap, w, q, w'))
  }

  /** One request, the reply to it, and the world before and after; besides, what the request handler
      itself had to say, and whether an access failed on the way. */
  datatype Exchange = Exchange(before: World, q: Request, status: Code, reply: seq<byte>, after: World,
                               raw: Code, faulty: bool)

  /** The reply can be trusted: unless an access failed it is what the handler said, and an OK that
      rests on a failed access is withdrawn. */
  ghost predicate Honest(f: Compute, unwrap: Unwrap, e: Exchange) {
    && Spared(e.before, e.q, e.raw, e.after)
    && Coded(e.before, e.q, e.raw)
    && (Excused(unwrap, e.before, e.q, e.raw, e.faulty, e.after) || AtTheDoor(e))
    && if e.raw == Ok && e.faulty then e.status == HardFail && e.reply == [] && Withheld(e)
       else e.status == e.raw && Told(f, unwrap, e.before, e.q, e.raw, e.reply, e.faulty, e.after)
  }

  /** Turned away before anything was done: an access failed, or a slave is still wiping. */
  predicate AtTheDoor(e: Exchange) {
    && e.after.reliable == e.before.reliable
    && e.raw == HardFail && (if e.faulty then !e.before.reliable else e.after.mk.wiping || e.after.md.wiping)
    && e.after.keys == e.before.keys && e.after.dsaKeys == e.before.dsaKeys
  }

  /** What becomes of the tables when an OK is withdrawn. The handle of a new encapsulation key stays;
      no other request can install anything and then be withdrawn. */
  predicate Withheld(e: Exchange) {
    && e.after.dsaKeys == e.before.dsaKeys
    && match e.q
       case KemKeygen(pset) => Opened(e.before.keys, e.after.keys, pset)
       case KemEncaps(_, _) => e.after.keys == e.before.keys
       case KemDecaps(_, _) => e.after.keys == e.before.keys
       case Other => e.after.keys == e.before.keys
       case _ => false
  }

  /** A key generation answered HARDFAIL has left a handle the client never hears of if and only if the
      handler had succeeded and an access had failed. ML-DSA never leaves one. */
  lemma HandleUnsaidIff(f: Compute, unwrap: Unwrap, e: Exchange, pset: nat)
    requires Honest(f, unwrap, e) && e.status == HardFail
    ensures e.q == KemKeygen(pset) ==> (Opened(e.before.keys, e.after.keys, pset) <==> e.raw == Ok && e.faulty)
    ensures e.q == DsaKeygen(pset) ==> !Opened(e.before.dsaKeys, e.after.dsaKeys, pset)
  {
    FirstFreeIs(e.before.keys);
    FirstFreeIs(e.before.dsaKeys);
    hide RanOn, Names, FirstFree, Encapsulated, Signed, VerifyJob, KemLengths, DsaLengths, Spared, Coded;
  }

  // ---- a connection --------------------------------------------------------------------------

  ghost predicate Foreign(f: Compute, c: Core, c': Core) {
    exists mid :: Later(f, c, mid) && c' == mid.(regs := mid.regs.(stage := c'.regs.stage))
  }

  ghost predicate Between(f: Compute, w: World, w': World) {
    && Foreign(f, w.mk, w'.mk) && Foreign(f, w.md, w'.md)
    && w'.keys == w.keys && w'.dsaKeys == w.dsaKeys && w'.reliable == w.reliable
  }

  ghost predicate Linked(f: Compute, log: seq<Exchange>, i: int)
    requires 0 < i < |log|
  {
    Between(f, log[i - 1].after, log[i].before)
  }

  /** A connection: it begins with no handles, every reply is honest, and from one request to the next
      only time and other clients' staged words intervene. */
  ghost predicate IsSession(f: Compute, unwrap: Unwrap,
                            log: seq<Exchange>, requests: seq<Request>)
  {
    && |log| == |requests|
    && (forall i :: 0 <= i < |log| ==> log[i].q == requests[i] && Honest(f, unwrap, log[i]))
    && (forall i :: 0 < i < |log| ==> Linked(f, log, i))
    && (log != [] ==> Blank(log[0].before.keys) && Blank(log[0].before.dsaKeys))
  }

  /** Neither slave is running when the first request arrives. */
  predicate StartsFree(log: seq<Exchange>) {
    log != [] ==> !log[0].before.mk.phase.Running? && !log[0].before.md.phase.Running?
  }

  /** The clean-up after a connection: the world before and after it, and whether an access failed. */
  datatype CleanUp = CleanUp(before: World, faulty: bool, after: World)

  /** A slave that was not wiping is told to; if an access did not fail and that wipe has ended, it is
      idle and holds nothing. */
  predicate Swept(e: CleanUp) {
    && (!e.faulty && !e.before.mk.wiping && !e.after.mk.wiping ==> AtRest(e.after.mk))
    && (!e.faulty && !e.before.md.wiping && !e.after.md.wiping ==> AtRest(e.after.md))
    && Blank(e.after.keys) && Blank(e.after.dsaKeys)
    && (e.before.reliable ==> !e.faulty)
  }

  lemma SweptIsBlank(e: CleanUp)
    requires Swept(e)
    ensures Blank(e.after.keys) && Blank(e.after.dsaKeys)
  {
  }

  /** The connection began where `prev` had left the world, and the clean-up where the connection did. */
  ghost predicate Joined(f: Compute, prev: World, log: seq<Exchange>, end: CleanUp) {
    if log == [] then end.before == prev
    else Between(f, prev, log[0].before) && end.before == log[|log| - 1].after
  }

  /** Connections one after the other, from the world `start` on, each with its clean-up. */
  ghost predicate IsLife(f: Compute, unwrap: Unwrap, start: World, logs: seq<seq<Exchange>>, ends: seq<CleanUp>,
                         sessions: seq<seq<Request>>)
  {
    && |logs| == |ends| == |sessions|
    && forall i :: 0 <= i < |logs| ==>
         && IsSession(f, unwrap, logs[i], sessions[i])
         && Swept(ends[i]) && Joined(f, LeftBy(start, ends, i), logs[i], ends[i])
  }

  function LeftBy(start: World, ends: seq<CleanUp>, i: nat): World
    requires i <= |ends|
  {
    if i == 0 then start else ends[i - 1].after
  }

  lemma NoSessions(f: Compute, unwrap: Unwrap, start: World)
    ensures IsLife(f, unwrap, start, [], [], [])
  {
  }

  lemma OneMoreSession(f: Compute, unwrap: Unwrap, start: World, logs: seq<seq<Exchange>>, ends: seq<CleanUp>,
                       sessions: seq<seq<Request>>, log: seq<Exchange>, requests: seq<Request>, end: CleanUp)
    requires IsLife(f, unwrap, start, logs, ends, sessions) && IsSession(f, unwrap, log, requests)
    requires Swept(end) && Joined(f, LeftBy(start, ends, |ends|), log, end)
    ensures IsLife(f, unwrap, start, logs + [log], ends + [end], sessions + [requests])
  {
    hide IsSession, Swept, Joined;
    var logs', ends', sessions' := logs + [log], ends + [end], sessions + [requests];
    forall i | 0 <= i < |logs'|
      ensures IsSession(f, unwrap, logs'[i], sessions'[i])
      ensures Swept(ends'[i]) && Joined(f, LeftBy(start, ends', i), logs'[i], ends'[i])
    {
      assert LeftBy(start, ends', i) == LeftBy(start, ends, i);
    }
  }

  /** After a clean-up in which no access failed, of slaves that were not wiping before it and are not
      after it, the next connection finds both slaves free. */
  lemma CleanStartsFree(f: Compute, unwrap: Unwrap, start: World, logs: seq<seq<Exchange>>, ends: seq<CleanUp>,
                        sessions: seq<seq<Request>>, i: nat)
    requires IsLife(f, unwrap, start, logs, ends, sessions) && 0 < i < |logs|
    requires var e := ends[i - 1];
             !e.faulty && !e.before.mk.wiping && !e.after.mk.wiping && !e.before.md.wiping && !e.after.md.wiping
    ensures StartsFree(logs[i])
  {
    hide IsSession;
    assert Swept(ends[i - 1]) && Joined(f, LeftBy(start, ends, i), logs[i], ends[i]);
  }

  lemma NoRequests(f: Compute, unwrap: Unwrap)
    ensures IsSession(f, unwrap, [], [])
  {
  }

  lemma OneMore(f: Compute, unwrap: Unwrap, log: seq<Exchange>,
                requests: seq<Request>, before: World, e: Exchange)
    requires IsSession(f, unwrap, log, requests) && Honest(f, unwrap, e)
    requires Between(f, before, e.before)
    requires if log == [] then Blank(before.keys) && Blank(before.dsaKeys) else before == log[|log| - 1].after
    ensures IsSession(f, unwrap, log + [e], requests + [e.q])
  {
    hide Honest, Foreign, Blank;
    assert e.before.keys == before.keys && e.before.dsaKeys == before.dsaKeys;
    hide Between;
    var more := log + [e];
    forall i | 0 < i < |more|
      ensures Linked(f, more, i)
    {
      if i < |log| {
        assert Linked(f, log, i);
      }
    }
    hide Linked;
  }

  // ---- a request through the door ------------------------------------------------------------

  /** Time that passes before a request is looked at takes nothing away from it. */
  ghost predicate Aged(f: Compute, w: World, w1: World) {
    && Later(f, w.mk, w1.mk) && Later(f, w.md, w1.md)
    && w1.keys == w.keys && w1.dsaKeys == w.dsaKeys && w1.reliable == w.reliable
  }

  lemma AgedSpared(f: Compute, w: World, w1: World, q: Request, status: Code, w': World)
    requires Aged(f, w, w1) && Spared(w1, q, status, w')
    ensures Spared(w, q, status, w')
  {
    LaterSettles(f, w.mk, w1.mk);
    LaterSettles(f, w.md, w1.md);
  }

  lemma AgedTold(f: Compute, unwrap: Unwrap, w: World, w1: World,
                 q: Request, status: Code, reply: seq<byte>, faulty: bool, w': World)
    requires Aged(f, w, w1) && Told(f, unwrap, w1, q, status, reply, faulty, w')
    ensures Told(f, unwrap, w, q, status, reply, faulty, w')
  {
    assert !w.mk.phase.Running? ==> !w1.mk.phase.Running?;
    hide Later, RanOn, Opened, Unopened, Names, FirstFree, Encapsulated, Signed, VerifyJob, KemLengths, DsaLengths;
  }

  lemma AgedExcused(f: Compute, unwrap: Unwrap, w: World, w1: World,
                    q: Request, status: Code, faulty: bool, w': World)
    requires Aged(f, w, w1) && Excused(unwrap, w1, q, status, faulty, w')
    ensures Excused(unwrap, w, q, status, faulty, w')
  {
    assert !w.mk.phase.Running? ==> w1.mk.phase == w.mk.phase;
    assert !w.md.phase.Running? ==> w1.md.phase == w.md.phase;
    hide Later, Authentic, KemLengths, DsaLengths, Unready;
  }

  lemma Withdrawn(f: Compute, unwrap: Unwrap, w: World,
                  q: Request, raw: Code, rawReply: seq<byte>, faulty: bool, w': World)
    requires Spared(w, q, raw, w') && Coded(w, q, raw) && Told(f, unwrap, w, q, raw, rawReply, faulty, w')
    requires Excused(unwrap, w, q, raw, faulty, w')
    ensures Honest(f, unwrap,
                   if faulty && raw == Ok then Exchange(w, q, HardFail, [], w', raw, faulty)
                   else Exchange(w, q, raw, rawReply, w', raw, faulty))
  {
    hide RanOn, Opened, Unopened, Names, FirstFree, Encapsulated, Signed, VerifyJob, KemLengths, DsaLengths;
    hide Explained;
  }

  /** A request turned away at the door. */
  lemma TurnedAway(f: Compute, unwrap: Unwrap, w: World, q: Request, faulty: bool, w': World)
    requires Aged(f, w, w')
    requires if faulty then !w.reliable else w'.mk.wiping || w'.md.wiping
    ensures Honest(f, unwrap, Exchange(w, q, HardFail, [], w', HardFail, faulty))
  {
    LaterSettles(f, w.mk, w'.mk);
    LaterSettles(f, w.md, w'.md);
    assert Unopened(w.keys, w'.keys) && Unopened(w.dsaKeys, w'.dsaKeys);
    hide RanOn, Opened, Unopened, Names, FirstFree, Encapsulated, Signed, VerifyJob, KemLengths, DsaLengths;
  }

  lemma WipeWriteStays(f: Compute, unwrap: Unwrap, e: Exchange)
    requires Honest(f, unwrap, e)
    ensures e.after.mk.blame.wipeWrite == e.before.mk.blame.wipeWrite
    ensures e.after.md.blame.wipeWrite == e.before.md.blame.wipeWrite
  {
  }
}
