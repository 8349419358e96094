/**
 * The daemon that is the only driver of the two post-quantum slaves: register access that may fail,
 * the waits, the staged-seed protocol, one run on each slave, the handle tables and the serve loop.
 */
module Fpgad {
  import opened Bytes
  import opened Pl
  import opened Handles
  import opened Options
  import opened Wire
  import opened Protocol
  import opened Runs

  const SPINS := 200000
  const KEM_POLLS := 3000000
  const KEM_SLOTS := 16
  const DSA_SLOTS := 8

  /** The STATUS bits the daemon looks at; a failed read shows none of them. */
  datatype Status = Status(wiping: bool, done: bool, refused: bool, verified: bool)

  function StatusOf(c: Core): Status {
    Status(c.wiping, c.phase.Finished?, c.phase.Refused?, c.phase.Finished? && c.phase.answer.verified)
  }

  /** How the trusted application's load of a seed ends. */
  datatype Loading = Loaded | PortFull | Broken

  /** A run that needs the staged seed finds a whole one. */
  predicate StagedFor(mode: Mode, c: Core) {
    TakesSeed(c.target, mode) ==> |c.regs.stage| == SeedWords(c.target)
  }

  class Daemon {
    const compute: Compute
    const unwrap: Unwrap
    /** Every access works, and so do the trusted application, the noise source and the allocator. */
    const reliable: bool
    /** Some blob of the trusted application's, for either slave. */
    const spare: Target -> seq<byte>

    var mk: Core
    var md: Core
    var hwFault: bool
    var keys: seq<Slot>
    var dsaKeys: seq<Slot>

    function At(t: Target): Core
      reads this
    {
      match t case MlKem => mk case MlDsa => md
    }

    /** Only slave `t` was accessed, and a failure stays noted, if there can be one. */
    twostate predicate Only(t: Target)
      reads this
    {
      && (t.MlKem? ==> md == old(md))
      && (t.MlDsa? ==> mk == old(mk))
      && (old(hwFault) ==> hwFault)
      && (reliable && !old(hwFault) ==> !hwFault)
    }

    // ---- single accesses ----------------------------------------------------------------------

    method Put(t: Target, c: Core)
      modifies this`mk, this`md
      ensures At(t) == c && Only(t)
    {
      match t
      case MlKem => mk := c;
      case MlDsa => md := c;
    }

    /** Time passes; how much is anyone's guess. */
    method Age(t: Target)
      modifies this`mk, this`md
      ensures Later(compute, old(At(t)), At(t)) && Only(t)
    {
      var c: Core := *;
      if Later(compute, At(t), c) {
        Put(t, c);
      }
    }

    /** One write on the bus: it may fail, and then it may have acted or not. */
    method Bus(t: Target, cmd: Command) returns (ok: bool)
      modifies this`mk, this`md
      ensures Written(compute, old(At(t)), cmd, At(t), !ok) && Only(t)
      ensures reliable ==> ok
    {
      Age(t);
      ghost var mid := At(t);
      var refuse: bool, acts: bool := *, *;
      ok := *;
      ok := ok || reliable;
      if ok || acts {
        Put(t, Apply(At(t), cmd, refuse));
      }
      assert Took(mid, cmd, refuse, At(t), !ok);
    }

    /** A register write of the daemon's own; a failure is noted. */
    method Wr(t: Target, cmd: Command)
      modifies this`mk, this`md, this`hwFault
      ensures Written(compute, old(At(t)), cmd, At(t), hwFault) && Only(t)
      ensures !cmd.Start? && !cmd.Zeroize? && HasRoom(old(At(t)), cmd) ==>
                && Settled(old(At(t)), At(t))
                && (!hwFault && Open(old(At(t)), cmd) ==> At(t).regs == Apply(old(At(t)), cmd, false).regs)
    {
      ghost var start := At(t);
      var ok := Bus(t, cmd);
      hwFault := hwFault || !ok;
      WrittenAnyway(compute, start, cmd, At(t), !ok, hwFault);
      hide *;
      if !cmd.Start? && !cmd.Zeroize? && HasRoom(start, cmd) {
        WriteSettles(compute, start, cmd, At(t), hwFault);
        if !hwFault && Open(start, cmd) {
          RegistersFollow(compute, start, cmd, At(t));
        }
      }
    }

    /** A read that may fail: `ok` is false then, and the daemon sees zero. */
    method Access(t: Target) returns (ok: bool)
      modifies this`mk, this`md, this`hwFault
      ensures Later(compute, old(At(t)), At(t)) && Only(t)
      ensures !ok ==> hwFault
    {
      Age(t);
      ok := *;
      ok := ok || reliable;
      hwFault := hwFault || !ok;
    }

    method RdStatus(t: Target) returns (s: Status)
      modifies this`mk, this`md, this`hwFault
      ensures Later(compute, old(At(t)), At(t)) && Only(t)
      ensures s == StatusOf(At(t)) || (hwFault && s == Status(false, false, false, false))
    {
      var ok := Access(t);
      s := if ok then StatusOf(At(t)) else Status(false, false, false, false);
    }

    // ---- waiting, by reads only ----------------------------------------------------------------

    method WaitNotWiping(t: Target) returns (ok: bool)
      modifies this`mk, this`md, this`hwFault
      ensures Later(compute, old(At(t)), At(t)) && Only(t)
      ensures if ok then !At(t).wiping && !hwFault else hwFault || At(t).wiping
    {
      var spin := 0;
      while spin < SPINS
        invariant Later(compute, old(At(t)), At(t)) && Only(t)
        invariant spin > 0 ==> At(t).wiping
      {
        ghost var before := At(t);
        var s := RdStatus(t);
        LaterTransitive(compute, old(At(t)), before, At(t));
        if hwFault {
          return false;
        }
        if !s.wiping {
          return true;
        }
        spin := spin + 1;
      }
      return false;
    }

    method WaitExpIdle(t: Target) returns (ok: bool)
      modifies this`mk, this`md, this`hwFault
      ensures Later(compute, old(At(t)), At(t)) && Only(t)
      ensures if ok then !At(t).expWiping && !hwFault else hwFault || At(t).expWiping
    {
      var spin := 0;
      while spin < SPINS
        invariant Later(compute, old(At(t)), At(t)) && Only(t)
        invariant spin > 0 ==> At(t).expWiping
      {
        ghost var before := At(t);
        var read := Access(t);
        var busy := read && At(t).expWiping;
        LaterTransitive(compute, old(At(t)), before, At(t));
        if hwFault {
          return false;
        }
        if !busy {
          return true;
        }
        spin := spin + 1;
      }
      return false;
    }

    // ---- packed streams ------------------------------------------------------------------------

    /** Every byte reaches the input stream of a free slave, for every length, unless an access
        fails; and a count that is complete proves the same of a slave that was running. */
    method FeedPacked(t: Target, data: seq<byte>)
      requires !hwFault ==> |At(t).regs.input| + |data| <= InputCapacity(At(t).target)
      modifies this`mk, this`md, this`hwFault
      ensures Fed(old(At(t)), data, At(t), hwFault) && Only(t)
      ensures !hwFault ==> Streamed(compute, old(At(t)), data, At(t))
    {
      hide Written, Fed, Settled, Streamed, StreamsOn;
      ghost var start := At(t);
      FedNothing(start, hwFault);
      StreamStarts(compute, start, data);
      var i := 0;
      while i + 4 <= |data| && !hwFault
        invariant 0 <= i <= |data|
        invariant Fed(start, data[..i], At(t), hwFault) && Only(t)
        invariant !hwFault ==> StreamsOn(compute, start, data, At(t), data[i..])
      {
        FeedChunk(t, start, data, i, 4);
        i := i + 4;
      }
      while i < |data| && !hwFault
        invariant 0 <= i <= |data| && (!hwFault ==> i + 4 > |data|)
        invariant Fed(start, data[..i], At(t), hwFault) && Only(t)
        invariant !hwFault ==> StreamsOn(compute, start, data, At(t), data[i..])
      {
        FeedChunk(t, start, data, i, 1);
        i := i + 1;
      }
      if i < |data| {
        FedPart(start, data, i, At(t));
      } else {
        assert data[..i] == data;
        if !hwFault {
          StreamEnds(compute, start, data, At(t), i);
        }
      }
    }

    method FeedChunk(t: Target, ghost start: Core, data: seq<byte>, i: nat, n: nat)
      requires n == 1 || n == 4
      requires i + n <= |data| && !hwFault
      requires |start.regs.input| + |data| <= InputCapacity(start.target)
      requires Fed(start, data[..i], At(t), false)
      requires n == Chunk(data[i..]) && StreamsOn(compute, start, data, At(t), data[i..])
      modifies this`mk, this`md, this`hwFault
      ensures Fed(start, data[..i + n], At(t), hwFault) && Only(t)
      ensures !hwFault ==> StreamsOn(compute, start, data, At(t), data[i + n..])
    {
      ghost var before := At(t);
      var bytes := data[i..i + n];
      assert before.target == start.target && |before.regs.input| + n <= InputCapacity(before.target);
      hide Fed, Written, StreamsOn;
      Wr(t, FeedCommand(bytes));
      if !hwFault {
        StreamStep(compute, start, data, before, i, n, At(t));
      }
      FeedOne(compute, before, bytes, At(t), hwFault);
      FeedMore(compute, start, data[..i], before, bytes, At(t), hwFault);
      assert data[..i] + bytes == data[..i + n];
    }

    /** One read of the output port, packed or single; a failing one may advance the slave or not. */
    method RdOut(t: Target, n: nat) returns (bytes: seq<byte>, ghost mid: Core)
      requires At(t).phase.Finished? && (n == 1 || n == 4)
      modifies this`mk, this`md, this`hwFault
      ensures ReadOut(compute, old(At(t)), n, mid, At(t), hwFault) && Only(t)
      ensures |bytes| == n
      ensures !hwFault ==> bytes == if n == 4 then LE4(Out4(mid)) else [Out1(mid)]
    {
      var ok := Access(t);
      mid := At(t);
      var w: Word := if ok && n == 4 then Out4(At(t)) else 0;
      var b: byte := if ok && n == 1 then Out1(At(t)) else 0;
      var acts: bool := *;
      if ok || acts {
        Put(t, Advanced(At(t), n));
      }
      bytes := if n == 4 then LE4(w) else [b];
    }

    /** The next `n` bytes of the answer, for every length: packed reads and then up to three single
        ones. Without the single ones the tail would be lost. */
    method DrainPacked(t: Target, n: nat) returns (out: seq<byte>)
      requires At(t).phase.Finished?
      modifies this`mk, this`md, this`hwFault
      ensures Settled(old(At(t)), At(t)) && Only(t)
      ensures |out| == n && At(t).phase == old(At(t)).phase
      ensures !hwFault && old(At(t)).outPos + n <= |old(At(t)).phase.answer.output| ==>
                Drained(old(At(t)), out, At(t))
    {
      ghost var start := At(t);
      hide Settled, Drained;
      DrainNothing(start);
      out := [];
      while |out| + 4 <= n && !hwFault
        invariant |out| <= n
        invariant Draining(t, start, n, out) && Only(t)
      {
        out := DrainChunk(t, start, n, out, 4);
      }
      while |out| < n && !hwFault
        invariant |out| <= n
        invariant Draining(t, start, n, out) && Only(t)
      {
        out := DrainChunk(t, start, n, out, 1);
      }
      // What was not read stays as it was in the caller's buffer; the request fails in any case.
      if |out| < n {
        out := out + seq(n - |out|, _ => 0);
      }
    }

    ghost predicate Draining(t: Target, start: Core, n: nat, out: seq<byte>)
      reads this
    {
      && Settled(start, At(t)) && start.phase.Finished? && At(t).phase == start.phase
      && (!hwFault && start.outPos + n <= |start.phase.answer.output| ==> Drained(start, out, At(t)))
    }

    method DrainChunk(t: Target, ghost start: Core, ghost n: nat, out: seq<byte>, k: nat)
      returns (out': seq<byte>)
      requires k == 1 || k == 4
      requires |out| + k <= n && !hwFault
      requires Draining(t, start, n, out)
      modifies this`mk, this`md, this`hwFault
      ensures Draining(t, start, n, out') && |out'| == |out| + k && Only(t)
    {
      ghost var before := At(t);
      var bytes, mid := RdOut(t, k);
      out' := out + bytes;
      hide Daemon.Only;
      ReadOutSettles(compute, before, k, mid, At(t), hwFault);
      SettledTransitive(start, before, At(t));
      if !hwFault && start.outPos + n <= |start.phase.answer.output| {
        DrainMore(compute, start, out, before, k, mid, At(t));
      }
    }

    // ---- one run on the ML-KEM slave ------------------------------------------------------------

    ghost predicate Wired()
      reads this
    {
      && mk.target.MlKem? && md.target.MlDsa?
      && (reliable ==> forall t :: Authentic(unwrap, t, spare(t)) && |spare(t)| <= SEED_BLOB_MAX)
    }

    method KemPrepare(mode: Mode, data: seq<byte>) returns (ok: bool)
      requires Wired() && !mk.wiping && |data| <= InputCapacity(MlKem)
      modifies this`mk, this`md, this`hwFault
      ensures Settled(old(mk), mk) && Only(MlKem)
      ensures ok && Free(old(mk)) ==> Quiet(mk)
      ensures !ok && Free(old(mk)) ==> hwFault || mk.expWiping
      ensures ok && !hwFault ==>
                && mk.regs == old(mk).regs.(mode := mode, input := data)
                && (Free(old(mk)) || data != [] ==> Free(mk))
      ensures ok && !hwFault ==> exists c4 :: Prepared(compute, old(mk), mode, data, c4) && Later(compute, c4, mk)
    {
      ok := KemSetUp(mode);
      if !ok {
        return false;
      }
      ghost var c1 := mk;
      FeedPacked(MlKem, data);
      ghost var c2 := mk;
      SettledTransitive(old(mk), c1, c2);
      var read := Access(MlKem);
      LaterSettles(compute, c2, mk);
      SettledTransitive(old(mk), c2, mk);
      hide Settled, Later, SetUp, Streamed, Fed;
      ok := (if read then |mk.regs.input| else 0) == |data|;
    }

    /** The wait, MODE and the reset of the input pointer. */
    method KemSetUp(mode: Mode) returns (ok: bool)
      requires Wired() && !mk.wiping
      modifies this`mk, this`md, this`hwFault
      ensures Settled(old(mk), mk) && Only(MlKem)
      ensures ok && Free(old(mk)) ==> Quiet(mk)
      ensures !ok ==> hwFault || mk.expWiping
      ensures ok && !hwFault ==>
                mk.regs == old(mk).regs.(mode := mode, input := []) && SetUp(compute, old(mk), mode, mk)
    {
      ok := WaitExpIdle(MlKem);
      ghost var c1 := mk;
      LaterSettles(compute, old(mk), c1);
      hide Later, Written;
      if !ok {
        return;
      }
      Wr(MlKem, SetMode(mode));
      ghost var c2 := mk;
      SettledTransitive(old(mk), c1, c2);
      assert !hwFault ==> c2.regs == c1.regs.(mode := mode);
      Wr(MlKem, ResetInput);
      SettledTransitive(old(mk), c2, mk);
    }

    /** Whether the slave says it is done: polled, and then read once more. */
    method KemPoll() returns (rc: int)
      modifies this`mk, this`md, this`hwFault
      ensures Later(compute, old(mk), mk) && Only(MlKem)
      ensures rc == 0 ==> mk.phase.Finished?
      ensures rc == -2 ==> mk.phase.Refused?
      ensures rc == -3 ==> hwFault || !mk.phase.Finished?
      ensures rc == 0 || rc == -2 || rc == -3
    {
      var spin := 0;
      while spin < KEM_POLLS
        invariant Later(compute, old(mk), mk) && Only(MlKem)
      {
        ghost var before := mk;
        var st := RdStatus(MlKem);
        LaterTransitive(compute, old(mk), before, mk);
        if st.refused {
          return -2;
        }
        if st.done {
          break;
        }
        spin := spin + 1;
      }
      ghost var before := mk;
      var st := RdStatus(MlKem);
      LaterTransitive(compute, old(mk), before, mk);
      rc := if st.done then 0 else -3;
    }

    /** A run that reports success without a failed access returned what the silicon computes for the
        mode, the input and the seed that was staged. It is enough that the slave was free when the
        run began, or that there is input: a stray run is exposed by the count of bytes taken. */
    method KemRun(mode: Mode, data: seq<byte>, cap: nat) returns (rc: int, out: seq<byte>)
      requires Wired() && !mk.wiping && |data| <= InputCapacity(MlKem)
      modifies this`mk, this`md, this`hwFault
      ensures Kept(old(mk), mk) && Only(MlKem)
      ensures Free(old(mk)) ==> mk.blame == old(mk).blame && (rc != -3 ==> Free(mk))
      ensures rc == 0 ==> |out| <= cap
      ensures rc != 0 && Free(old(mk)) ==> hwFault || Unanswered(mk, 0, cap)
      ensures rc == 0 && !hwFault ==> mk.phase.Finished? && out == mk.phase.answer.output
      ensures rc == 0 && !hwFault ==>
                exists c' :: Returned(compute, old(mk), mode, data, c') && out == c'.phase.answer.output
      ensures rc == 0 && !hwFault && (Free(old(mk)) || data != []) ==>
                && StagedFor(mode, old(mk))
                && out == compute(MlKem, JobFor(MlKem, mode, old(mk).regs.stage, data, 0)).output
    {
      out := [];
      rc := KemStart(mode, data);
      if rc != 0 {
        return;
      }
      ghost var c1 := mk;
      hide Returned;
      var read := Access(MlKem);
      var n := if read then |mk.phase.answer.output| else 0;
      LaterSettles(compute, c1, mk);
      if n > cap {
        return -4, out;
      }
      ghost var c2 := mk;
      out := DrainPacked(MlKem, n);
      SettledTransitive(c1, c2, mk);
    }

    /** Everything up to DONE. */
    method KemStart(mode: Mode, data: seq<byte>) returns (rc: int)
      requires Wired() && !mk.wiping && |data| <= InputCapacity(MlKem)
      modifies this`mk, this`md, this`hwFault
      ensures Kept(old(mk), mk) && Only(MlKem)
      ensures Free(old(mk)) ==> mk.blame == old(mk).blame && (rc != -3 ==> Free(mk))
      ensures rc == 0 ==> mk.phase.Finished?
      ensures rc != 0 && Free(old(mk)) ==> hwFault || Unready(mk)
      ensures rc == 0 && !hwFault ==> Returned(compute, old(mk), mode, data, mk) && mk.outPos == 0
      ensures rc == 0 && !hwFault && (Free(old(mk)) || data != []) ==>
                && StagedFor(mode, old(mk))
                && mk.phase.answer == compute(MlKem, JobFor(MlKem, mode, old(mk).regs.stage, data, 0))
    {
      var ok := KemLaunch(mode, data);
      if !ok {
        return -1;
      }
      ghost var c2, job := mk, JobFor(MlKem, mode, old(mk).regs.stage, data, 0);
      hide Launched, Later;
      rc := KemPoll();
      LaterSettles(compute, c2, mk);
      if rc == 0 && !hwFault {
        ReadFromStart(compute, c2, mk);
        if Free(old(mk)) || data != [] {
          RunAnswers(compute, c2, mk, job);
        }
      }
    }

    /** Everything up to START. */
    method KemLaunch(mode: Mode, data: seq<byte>) returns (ok: bool)
      requires Wired() && !mk.wiping && |data| <= InputCapacity(MlKem)
      modifies this`mk, this`md, this`hwFault
      ensures Kept(old(mk), mk) && Only(MlKem)
      ensures Free(old(mk)) ==> mk.blame == old(mk).blame
      ensures !ok && Free(old(mk)) ==> Free(mk) && (hwFault || mk.expWiping)
      ensures ok && !hwFault ==> Launched(compute, old(mk), mode, data, mk) && !mk.phase.Finished?
      ensures ok && !hwFault && (Free(old(mk)) || data != []) ==>
                || mk.phase.Refused?
                || (&& StagedFor(mode, old(mk))
                    && mk.phase == Running(JobFor(MlKem, mode, old(mk).regs.stage, data, 0), false))
    {
      ok := KemPrepare(mode, data);
      if !ok {
        return;
      }
      ghost var c1 := mk;
      hide Prepared, Launched, Later, Written, Apply;
      Wr(MlKem, Start);
      StartRuns(compute, c1, mk, hwFault);
      if !hwFault {
        StartClears(compute, c1, mk);
        ghost var c4 :| Prepared(compute, old(mk), mode, data, c4) && Later(compute, c4, c1);
        LaunchedAfter(compute, old(mk), mode, data, c4, c1, mk);
      }
    }

    // ---- one run on the ML-DSA slave ------------------------------------------------------------

    /** MODE is written before the wait, so it may find a run in progress: the slave answers with a
        bus error then. A board that survives it was free. */
    method DsaPrepare(mode: Mode, data: seq<byte>, msgLen: nat) returns (rc: int)
      requires Wired() && !md.wiping && |data| <= InputCapacity(MlDsa)
      modifies this`mk, this`md, this`hwFault
      ensures Settled(old(md), md) && Only(MlDsa)
      ensures rc != 0 && Free(old(md)) ==> hwFault || md.expWiping
      ensures rc == 0 && (Free(old(md)) || !md.blame.busError) ==>
                Quiet(md) && md.regs == Registers(mode, old(md).regs.stage, data, msgLen, 0)
    {
      var ok := DsaSetUp(mode, msgLen);
      if !ok {
        return -1;
      }
      FeedPacked(MlDsa, data);
      if hwFault {
        return -3;
      }
      var read := Access(MlDsa);
      rc := if (if read then |md.regs.input| else 0) == |data| then 0 else -1;
    }

    method DsaSetUp(mode: Mode, msgLen: nat) returns (ok: bool)
      requires Wired() && !md.wiping
      modifies this`mk, this`md, this`hwFault
      ensures Settled(old(md), md) && Only(MlDsa)
      ensures ok && !hwFault ==> md.regs.input == []
      ensures !ok ==> hwFault || md.expWiping
      ensures ok && !hwFault && (Free(old(md)) || !md.blame.busError) ==>
                Quiet(md) && md.regs == Registers(mode, old(md).regs.stage, [], msgLen, 0)
    {
      ok := DsaMode(mode);
      ghost var c1 := md;
      hide Settled, Quiet;
      if ok {
        DsaClear();
        ghost var c2 := md;
        DsaSizesIn(msgLen);
        SettledTransitive(c1, c2, md);
      }
      SettledTransitive(old(md), c1, md);
    }

    method DsaMode(mode: Mode) returns (ok: bool)
      requires Wired() && !md.wiping
      modifies this`mk, this`md, this`hwFault
      ensures Settled(old(md), md) && Only(MlDsa)
      ensures !ok ==> hwFault || md.expWiping
      ensures ok && (Free(old(md)) || !md.blame.busError) ==>
                Quiet(md) && md.regs == old(md).regs.(mode := mode, input := [])
    {
      Wr(MlDsa, SetMode(mode));
      ghost var c1 := md;
      if !hwFault && !c1.blame.busError {
        ModeFindsIdle(compute, old(md), mode, c1);
      }
      ok := WaitExpIdle(MlDsa);
      LaterSettles(compute, c1, md);
    }

    method DsaClear()
      requires Wired() && !md.wiping
      modifies this`mk, this`md, this`hwFault
      ensures Settled(old(md), md) && Only(MlDsa)
      ensures !hwFault ==> md.regs == old(md).regs.(input := [])
    {
      Wr(MlDsa, Clear);
      ghost var c1 := md;
      Wr(MlDsa, ResetInput);
      ghost var c2 := md;
      assert !hwFault ==> c2.regs == c1.regs.(input := []);
      hide Written, Apply;
      Wr(MlDsa, ResetOutput);
    }

    method DsaSizesIn(msgLen: nat)
      requires Wired() && !md.wiping
      modifies this`mk, this`md, this`hwFault
      ensures Settled(old(md), md) && Only(MlDsa)
      ensures !hwFault ==> md.regs.input == old(md).regs.input
      ensures !hwFault && Free(old(md)) ==> md.regs == old(md).regs.(msgLen := msgLen, ctxLen := 0)
    {
      Wr(MlDsa, SetMsgLen(msgLen));
      Wr(MlDsa, SetCtxLen(0));
    }

    /** Polled until done, refused, out of reach, or out of time. */
    method DsaPoll() returns (rc: int, verified: bool)
      modifies this`mk, this`md, this`hwFault
      ensures Later(compute, old(md), md) && Only(MlDsa)
      ensures rc == 0 ==> md.phase.Finished? && !hwFault && verified == md.phase.answer.verified
      ensures rc == -2 ==> md.phase.Refused?
      ensures rc == -3 ==> hwFault || !md.phase.Finished?
      ensures rc == 0 || rc == -2 || rc == -3
    {
      verified := false;
      var patience: nat := *;
      while !hwFault
        invariant Later(compute, old(md), md) && Only(MlDsa)
        decreases patience
      {
        ghost var before := md;
        var st := RdStatus(MlDsa);
        LaterTransitive(compute, old(md), before, md);
        if st.refused {
          return -2, false;
        }
        if st.done {
          return if hwFault then -3 else 0, st.verified;
        }
        if patience == 0 {
          return -3, false;
        }
        patience := patience - 1;
      }
      rc := -3;
    }

    /** A run that reports success, on a board that survived it, returned what the silicon computes
        for the mode, the input and the seed that was staged; and it met no wipe in progress. */
    method DsaRun(mode: Mode, data: seq<byte>, msgLen: nat, cap: nat)
      returns (rc: int, out: seq<byte>, verified: bool)
      requires Wired() && !md.wiping && |data| <= InputCapacity(MlDsa)
      modifies this`mk, this`md, this`hwFault
      ensures Kept(old(md), md) && Only(MlDsa)
      ensures Free(old(md)) ==> md.blame == old(md).blame && (rc != -3 ==> Free(md))
      ensures !md.blame.busError ==> md.blame.expStart == old(md).blame.expStart
      ensures rc == 0 ==> !hwFault && |out| <= cap
      ensures rc != 0 && Free(old(md)) ==> hwFault || Unanswered(md, 0, cap)
      ensures rc == 0 ==> md.phase.Finished? && out == md.phase.answer.output
      ensures rc == 0 && !md.blame.busError ==>
                && StagedFor(mode, old(md))
                && Answer(out, verified) == compute(MlDsa, JobFor(MlDsa, mode, old(md).regs.stage, data, msgLen))
    {
      out := [];
      rc, verified := DsaStart(mode, data, msgLen);
      if rc != 0 {
        return;
      }
      ghost var c1 := md;
      var read := Access(MlDsa);
      var n := if read then |md.phase.answer.output| else 0;
      LaterSettles(compute, c1, md);
      if n > cap {
        rc := -4;
        return;
      }
      ghost var c2 := md;
      out := DrainPacked(MlDsa, n);
      SettledTransitive(c1, c2, md);
      if hwFault {
        rc := -3;
      }
    }

    /** Everything up to DONE. */
    method DsaStart(mode: Mode, data: seq<byte>, msgLen: nat) returns (rc: int, verified: bool)
      requires Wired() && !md.wiping && |data| <= InputCapacity(MlDsa)
      modifies this`mk, this`md, this`hwFault
      ensures Kept(old(md), md) && Only(MlDsa)
      ensures Free(old(md)) ==> md.blame == old(md).blame && (rc != -3 ==> Free(md))
      ensures !md.blame.busError ==> md.blame.expStart == old(md).blame.expStart
      ensures rc == 0 ==> md.phase.Finished? && !hwFault && md.outPos == 0
      ensures rc != 0 && Free(old(md)) ==> hwFault || Unready(md)
      ensures rc == 0 && !md.blame.busError ==>
                && StagedFor(mode, old(md)) && verified == md.phase.answer.verified
                && md.phase.answer == compute(MlDsa, JobFor(MlDsa, mode, old(md).regs.stage, data, msgLen))
    {
      verified := false;
      rc := DsaPrepare(mode, data, msgLen);
      if rc != 0 {
        return;
      }
      ghost var c1, job := md, JobFor(MlDsa, mode, old(md).regs.stage, data, msgLen);
      Wr(MlDsa, Start);
      StartRuns(compute, c1, md, hwFault);
      ghost var c2 := md;
      hide Later, Written, Apply;
      rc, verified := DsaPoll();
      LaterSettles(compute, c2, md);
      if rc == 0 {
        StartClears(compute, c1, c2);
        ReadFromStart(compute, c2, md);
      }
      if rc == 0 && (c2.phase.Refused? || c2.phase == Running(job, false)) {
        RunAnswers(compute, c2, md, job);
      }
    }

    // ---- the staged seed ------------------------------------------------------------------------

    /** Discards whatever is staged. Its one write waits for both wipes, by reads. */
    method SeedClr(t: Target) returns (ok: bool)
      modifies this`mk, this`md, this`hwFault
      ensures Settled(old(At(t)), At(t)) && Only(t)
      ensures At(t).blame.wipeWrite == old(At(t)).blame.wipeWrite
      ensures if ok then At(t).regs.stage == [] && !At(t).wiping && !hwFault
              else hwFault || At(t).wiping || At(t).expWiping
    {
      ok := WaitNotWiping(t);
      if ok {
        ghost var c1 := At(t);
        ok := WaitExpIdle(t);
        LaterTransitive(compute, old(At(t)), c1, At(t));
      }
      ghost var c2 := At(t);
      LaterSettles(compute, old(At(t)), c2);
      if ok {
        Wr(t, SeedClear);
        SettledTransitive(old(At(t)), c2, At(t));
      }
      ok := ok && !hwFault;
    }

    /** The trusted application's side of a load, word by word. It can only succeed on an empty port,
        and an empty port never turns it away. */
    method LoadSeed(t: Target, seed: seq<Word>) returns (r: Loading)
      requires |seed| == SeedWords(At(t).target) && !At(t).wiping
      modifies this`mk, this`md
      ensures Settled(old(At(t)), At(t)) && Only(t)
      ensures r.Loaded? ==> At(t).regs.stage == seed && old(At(t)).regs.stage == []
      ensures old(At(t)).regs.stage == [] ==> !r.PortFull? && (reliable ==> r.Loaded?)
    {
      ghost var c0 := At(t);
      var i := 0;
      while i < |seed|
        invariant 0 <= i <= |seed|
        invariant Settled(c0, At(t)) && Only(t)
        invariant At(t).regs.stage == c0.regs.stage + seed[..i]
        invariant i > 0 ==> |c0.regs.stage| + i <= |seed|
      {
        if |At(t).regs.stage| >= SeedWords(At(t).target) {
          return PortFull;
        }
        ghost var c1 := At(t);
        var ok := Bus(t, SeedWord(seed[i]));
        WriteSettles(compute, c1, SeedWord(seed[i]), At(t), !ok);
        if !ok {
          SettledTransitive(c0, c1, At(t));
          return Broken;
        }
        RegistersFollow(compute, c1, SeedWord(seed[i]), At(t));
        SettledTransitive(c0, c1, At(t));
        assert seed[..i + 1] == seed[..i] + [seed[i]];
        i := i + 1;
      }
      assert seed[..i] == seed;
      return Loaded;
    }

    /** Asks the trusted application for a fresh seed: it is staged, and wrapped in `blob`. */
    method SeedNew(t: Target) returns (ok: bool, blob: seq<byte>)
      requires Wired() && !At(t).wiping
      modifies this`mk, this`md, this`hwFault
      ensures Settled(old(At(t)), At(t)) && Only(t)
      ensures |blob| <= SEED_BLOB_MAX
      ensures if ok then Staged(t, blob) else !reliable || hwFault || At(t).expWiping
    {
      blob := *;
      if |blob| > SEED_BLOB_MAX || (reliable && !Authentic(unwrap, t, blob)) {
        blob := if reliable then spare(t) else [];
      }
      ok := SeedClr(t);
      if ok {
        ok := Stage(t, blob);
      }
    }

    /** Has the seed inside `blob` staged again. */
    method SeedReplay(t: Target, blob: seq<byte>) returns (ok: bool)
      requires Wired() && !At(t).wiping
      modifies this`mk, this`md, this`hwFault
      ensures Settled(old(At(t)), At(t)) && Only(t)
      ensures if ok then Staged(t, blob)
              else !(reliable && Authentic(unwrap, t, blob)) || hwFault || At(t).expWiping
    {
      ok := SeedClr(t);
      if ok {
        ok := Stage(t, blob);
      }
    }

    /** What the port holds is the whole seed inside `blob`. */
    ghost predicate Staged(t: Target, blob: seq<byte>)
      reads this
    {
      && unwrap(t, blob) == Some(At(t).regs.stage)
      && |At(t).regs.stage| == SeedWords(t)
    }

    /** The trusted application's command, on a port just cleared; a failure discards the leavings. */
    method Stage(t: Target, blob: seq<byte>) returns (ok: bool)
      requires Wired() && !At(t).wiping && At(t).regs.stage == []
      modifies this`mk, this`md, this`hwFault
      ensures Settled(old(At(t)), At(t)) && Only(t)
      ensures if ok then Staged(t, blob) else At(t).regs.stage == [] || hwFault || At(t).expWiping
      ensures reliable && Authentic(unwrap, t, blob) ==> ok
    {
      ghost var c0 := At(t);
      var seed := unwrap(t, blob);
      var r := Broken;
      if seed.Some? && |seed.value| == SeedWords(t) {
        r := LoadSeed(t, seed.value);
        assert !r.PortFull?;
      }
      ok := r.Loaded?;
      if !ok {
        ghost var c1 := At(t);
        var _ := SeedClr(t);
        SettledTransitive(c0, c1, At(t));
      }
    }

    // ---- key generation, encapsulation, decapsulation --------------------------------------------

    method FreeSlot(table: seq<Slot>) returns (h: nat)
      ensures h == FirstFree(table, 0)
    {
      h := 0;
      while h < |table| && table[h].used
        invariant h <= |table|
        invariant FirstFree(table, h) == FirstFree(table, 0)
      {
        h := h + 1;
      }
    }

    ghost predicate Tables()
      reads this
    {
      && |keys| == KEM_SLOTS && |dsaKeys| == DSA_SLOTS
      && Sensible(keys) && Sensible(dsaKeys)
    }

    method KemKeygen(pset: nat) returns (status: Code, reply: seq<byte>)
      requires Wired() && Tables() && !mk.wiping
      modifies this`mk, this`md, this`hwFault, this`keys
      ensures Coded(old(Now()), Request.KemKeygen(pset), status)
      ensures !old(hwFault) ==> Excused(unwrap, old(Now()), Request.KemKeygen(pset), status, hwFault, Now())
      ensures Tables() && Only(MlKem) && Kept(old(mk), mk)
      ensures Free(old(mk)) ==> mk.blame == old(mk).blame && (status != HardFail ==> Free(mk))
      ensures status != Ok ==> Unopened(old(keys), keys) && reply == []
      ensures status == Ok ==>
                && Opened(old(keys), keys, pset)
                && |reply| == 4 + KemLengths(pset).ek
                && Names(reply[..4], FirstFree(old(keys), 0))
                && (!hwFault && Free(old(mk)) ==>
                      RanOn(compute, unwrap, MlKem, Private(0, pset), Newest(old(keys), keys).blob, [], 0, reply[4..]))
    {
      if pset > 2 {
        return InArgErr, [];
      }
      var h := FreeSlot(keys);
      FirstFreeIs(keys);
      if h == KEM_SLOTS {
        return UnknowErr, [];
      }
      ghost var c0 := mk;
      var ok, blob := SeedNew(MlKem);
      keys := keys[h := keys[h].(blob := blob)];
      StaysSensible(old(keys), keys);
      if !ok {
        return HardFail, [];
      }
      ghost var c1 := mk;
      var rc, out := KemRun(Private(0, pset), [], 4900);
      KeptTransitive(c0, c1, mk);
      if rc != 0 || |out| != KemLengths(pset).ek {
        return HardFail, [];
      }
      keys := keys[h := Slot(true, pset, blob)];
      assert Opened(old(keys), keys, pset);
      StaysSensible(old(keys), keys);
      LE4RoundTrip(h);
      return Ok, LE4(h) + out;
    }

    /** Random bytes from the noise source, a slave of its own; any access may fail. */
    method Trng(n: nat) returns (ok: bool, bytes: seq<byte>)
      modifies this`hwFault
      ensures |bytes| == n
      ensures old(hwFault) ==> hwFault
      ensures reliable ==> ok && hwFault == old(hwFault)
    {
      var fails: bool := *;
      hwFault := hwFault || (fails && !reliable);
      ok := *;
      ok := ok || reliable;
      bytes := *;
      bytes := if |bytes| == n then bytes else seq(n, _ => 0);
    }

    method KemEncaps(pset: nat, ek: seq<byte>) returns (status: Code, reply: seq<byte>, ghost m: seq<byte>)
      requires Wired() && !mk.wiping
      modifies this`mk, this`md, this`hwFault
      ensures Coded(old(Now()), Request.KemEncaps(pset, ek), status)
      ensures !old(hwFault) ==> Excused(unwrap, old(Now()), Request.KemEncaps(pset, ek), status, hwFault, Now())
      ensures Only(MlKem) && Kept(old(mk), mk)
      ensures Free(old(mk)) ==> mk.blame == old(mk).blame && (status != HardFail ==> Free(mk))
      ensures status != Ok ==> reply == []
      ensures status == Ok ==> pset <= 2 && |ek| == KemLengths(pset).ek && |reply| == 32 + KemLengths(pset).ct
      ensures |m| == 32
      ensures status == Ok && !hwFault ==>
                reply == compute(MlKem, JobFor(MlKem, Public(1, pset), [], m + ek, 0)).output
    {
      m := seq(32, _ => 0);
      if pset > 2 || |ek| != KemLengths(pset).ek || |ek| + 32 > 1700 {
        return InArgErr, [], m;
      }
      var ok, fresh32 := Trng(32);
      m := fresh32;
      if !ok {
        return HardFail, [], m;
      }
      var rc, out := KemRun(Public(1, pset), fresh32 + ek, 1700);
      if rc != 0 || |out| != 32 + KemLengths(pset).ct {
        return HardFail, [], m;
      }
      return Ok, out, m;
    }

    method KemDecaps(h: nat, ct: seq<byte>) returns (status: Code, reply: seq<byte>)
      requires Wired() && Tables() && !mk.wiping
      modifies this`mk, this`md, this`hwFault
      ensures Coded(old(Now()), Request.KemDecaps(h, ct), status)
      ensures !old(hwFault) ==> Excused(unwrap, old(Now()), Request.KemDecaps(h, ct), status, hwFault, Now())
      ensures Only(MlKem) && Kept(old(mk), mk)
      ensures Free(old(mk)) ==> mk.blame == old(mk).blame && (status != HardFail ==> Free(mk))
      ensures status != Ok ==> reply == []
      ensures status == Ok ==> h < KEM_SLOTS && keys[h].used
      ensures status == Ok && !hwFault ==>
                RanOn(compute, unwrap, MlKem, Private(2, keys[h].pset), keys[h].blob, ct, 0, reply)
    {
      if h >= KEM_SLOTS || !keys[h].used {
        return KeyNotExist, [];
      }
      var slot := keys[h];
      if |ct| != KemLengths(slot.pset).ct || |ct| > 4800 {
        return InArgErr, [];
      }
      ghost var c0 := mk;
      var ok := SeedReplay(MlKem, slot.blob);
      if !ok {
        return HardFail, [];
      }
      ghost var c1 := mk;
      var rc, out := KemRun(Private(2, slot.pset), ct, MAXPAY);
      KeptTransitive(c0, c1, mk);
      if rc != 0 {
        return HardFail, [];
      }
      return Ok, out;
    }

    // ---- signatures ------------------------------------------------------------------------------

    method DsaKeygen(pset: nat) returns (status: Code, reply: seq<byte>)
      requires Wired() && Tables() && !md.wiping
      modifies this`mk, this`md, this`hwFault, this`dsaKeys
      ensures Coded(old(Now()), Request.DsaKeygen(pset), status)
      ensures !old(hwFault) ==> Excused(unwrap, old(Now()), Request.DsaKeygen(pset), status, hwFault, Now())
      ensures Tables() && Only(MlDsa) && Kept(old(md), md)
      ensures Free(old(md)) ==> md.blame == old(md).blame && (status != HardFail ==> Free(md))
      ensures !md.blame.busError ==> md.blame.expStart == old(md).blame.expStart
      ensures status != Ok ==> Unopened(old(dsaKeys), dsaKeys) && reply == []
      ensures status == Ok ==>
                && !hwFault
                && Opened(old(dsaKeys), dsaKeys, pset)
                && |reply| == 4 + DsaLengths(pset).pk
                && Names(reply[..4], FirstFree(old(dsaKeys), 0))
                && (!md.blame.busError ==>
                      RanOn(compute, unwrap, MlDsa, Private(0, pset), Newest(old(dsaKeys), dsaKeys).blob, [], 0,
                            reply[4..]))
    {
      if pset > 2 {
        return InArgErr, [];
      }
      var h := FreeSlot(dsaKeys);
      FirstFreeIs(dsaKeys);
      if h == DSA_SLOTS {
        return UnknowErr, [];
      }
      ghost var c0 := md;
      var ok, blob := SeedNew(MlDsa);
      dsaKeys := dsaKeys[h := dsaKeys[h].(blob := blob)];
      StaysSensible(old(dsaKeys), dsaKeys);
      if !ok {
        return HardFail, [];
      }
      ghost var c1 := md;
      var rc, out, _ := DsaRun(Private(0, pset), [], 0, MAXPAY - 4);
      KeptTransitive(c0, c1, md);
      if rc != 0 || |out| != DsaLengths(pset).pk {
        return HardFail, [];
      }
      dsaKeys := dsaKeys[h := Slot(true, pset, blob)];
      assert Opened(old(dsaKeys), dsaKeys, pset);
      StaysSensible(old(dsaKeys), dsaKeys);
      LE4RoundTrip(h);
      return Ok, LE4(h) + out;
    }

    method DsaSign(h: nat, ctxLen: nat, msg: seq<byte>)
      returns (status: Code, reply: seq<byte>, ghost rnd: seq<byte>)
      requires Wired() && Tables() && !md.wiping
      modifies this`mk, this`md, this`hwFault
      ensures Coded(old(Now()), Request.DsaSign(h, ctxLen, msg), status)
      ensures !old(hwFault) ==> Excused(unwrap, old(Now()), Request.DsaSign(h, ctxLen, msg), status, hwFault, Now())
      ensures Only(MlDsa) && Kept(old(md), md)
      ensures Free(old(md)) ==> md.blame == old(md).blame && (status != HardFail ==> Free(md))
      ensures !md.blame.busError ==> md.blame.expStart == old(md).blame.expStart
      ensures status != Ok ==> reply == []
      ensures |rnd| == 32
      ensures status == Ok ==>
                && !hwFault
                && h < DSA_SLOTS && dsaKeys[h].used && ctxLen == 0
                && |reply| == DsaLengths(dsaKeys[h].pset).sig
                && (!md.blame.busError ==>
                      RanOn(compute, unwrap, MlDsa, Private(1, dsaKeys[h].pset), dsaKeys[h].blob, rnd + msg, |msg|,
                            reply))
    {
      rnd := seq(32, _ => 0);
      if h >= DSA_SLOTS || !dsaKeys[h].used {
        return KeyNotExist, [], rnd;
      }
      var slot := dsaKeys[h];
      if ctxLen != 0 || 32 + |msg| > MAXPAY {
        return InArgErr, [], rnd;
      }
      var memory: bool := *;
      if !memory && !reliable {
        return UnknowErr, [], rnd;
      }
      var got, fresh32 := Trng(32);
      rnd := fresh32;
      if !got {
        return HardFail, [], rnd;
      }
      ghost var c0 := md;
      var ok := SeedReplay(MlDsa, slot.blob);
      if !ok {
        return HardFail, [], rnd;
      }
      ghost var c1 := md;
      var rc, out, _ := DsaRun(Private(1, slot.pset), fresh32 + msg, |msg|, MAXPAY);
      KeptTransitive(c0, c1, md);
      if rc != 0 || |out| != DsaLengths(slot.pset).sig {
        return HardFail, [], rnd;
      }
      return Ok, out, rnd;
    }

    method DsaVerify(pset: nat, ctxLen: nat, payload: seq<byte>) returns (status: Code)
      requires Wired() && !md.wiping && |payload| <= MAXPAY
      modifies this`mk, this`md, this`hwFault
      ensures Coded(old(Now()), Request.DsaVerify(pset, ctxLen, payload), status)
      ensures !old(hwFault) ==>
                Excused(unwrap, old(Now()), Request.DsaVerify(pset, ctxLen, payload), status, hwFault, Now())
      ensures Only(MlDsa) && Kept(old(md), md)
      ensures Free(old(md)) ==> md.blame == old(md).blame && (status != HardFail ==> Free(md))
      ensures !md.blame.busError ==> md.blame.expStart == old(md).blame.expStart
      ensures status == Ok || status == VerifyFail ==>
                && !hwFault
                && pset <= 2 && ctxLen == 0 && |payload| >= DsaLengths(pset).pk + DsaLengths(pset).sig
                && (!md.blame.busError ==> (status == Ok <==> compute(MlDsa, VerifyJob(pset, payload)).verified))
    {
      if pset > 2 || ctxLen != 0 || |payload| < DsaLengths(pset).pk + DsaLengths(pset).sig {
        return InArgErr;
      }
      var msgLen := |payload| - DsaLengths(pset).pk - DsaLengths(pset).sig;
      var rc, _, ok := DsaRun(Public(2, pset), payload, msgLen, MAXPAY);
      if rc != 0 {
        return HardFail;
      }
      return if ok then Ok else VerifyFail;
    }

    // ---- the wrapped form of a key, carried out and in ---------------------------------------------

    method Export(kind: nat, h: nat) returns (status: Code, reply: seq<byte>)
      requires Tables()
      ensures Coded(Now(), Request.BlobExport(kind, h), status)
      ensures Excused(unwrap, Now(), Request.BlobExport(kind, h), status, false, Now())
      ensures status == Ok || (status == KeyNotExist && reply == [])
      ensures status == Ok <==>
                || (kind == 0 && h < KEM_SLOTS && keys[h].used)
                || (kind == 1 && h < DSA_SLOTS && dsaKeys[h].used)
      ensures status == Ok ==> reply == (if kind == 0 then keys else dsaKeys)[h].blob
    {
      if kind == 0 && h < KEM_SLOTS && keys[h].used {
        return Ok, keys[h].blob;
      } else if kind == 1 && h < DSA_SLOTS && dsaKeys[h].used {
        return Ok, dsaKeys[h].blob;
      }
      return KeyNotExist, [];
    }

    method Import(kind: nat, pset: nat, blob: seq<byte>) returns (status: Code, reply: seq<byte>)
      requires Tables()
      modifies this`keys, this`dsaKeys
      ensures Coded(old(Now()), Request.BlobImport(kind, pset, blob), status)
      ensures Excused(unwrap, old(Now()), Request.BlobImport(kind, pset, blob), status, false, Now())
      ensures Tables()
      ensures status != Ok ==> keys == old(keys) && dsaKeys == old(dsaKeys) && reply == []
      ensures status == Ok ==>
                && pset <= 2 && blob != []
                && if kind == 0 then
                     && dsaKeys == old(dsaKeys) && Opened(old(keys), keys, pset)
                     && Newest(old(keys), keys).blob == blob && Names(reply, FirstFree(old(keys), 0))
                   else
                     && kind == 1
                     && keys == old(keys) && Opened(old(dsaKeys), dsaKeys, pset)
                     && Newest(old(dsaKeys), dsaKeys).blob == blob && Names(reply, FirstFree(old(dsaKeys), 0))
    {
      if kind > 1 || pset > 2 || |blob| == 0 || |blob| > SEED_BLOB_MAX {
        return InArgErr, [];
      }
      var h := FreeSlot(if kind == 0 then keys else dsaKeys);
      FirstFreeIs(keys);
      FirstFreeIs(dsaKeys);
      if h == if kind == 0 then KEM_SLOTS else DSA_SLOTS {
        return UnknowErr, [];
      }
      if kind == 0 {
        keys := keys[h := Slot(true, pset, blob)];
        assert Opened(old(keys), keys, pset);
        StaysSensible(old(keys), keys);
      } else {
        dsaKeys := dsaKeys[h := Slot(true, pset, blob)];
        assert Opened(old(dsaKeys), dsaKeys, pset);
        StaysSensible(old(dsaKeys), dsaKeys);
      }
      LE4RoundTrip(h);
      return Ok, LE4(h);
    }

    // ---- one request -----------------------------------------------------------------------------

    ghost function Now(): World
      reads this
    {
      World(mk, md, keys, dsaKeys, reliable)
    }

    /** Between requests: time passes, and other clients of the trusted application may leave any
        words in the staging ports. */
    method Interlude()
      modifies this`mk, this`md
      ensures Between(compute, old(Now()), Now())
      ensures mk.target == old(mk).target && mk.blame == old(mk).blame
      ensures md.target == old(md).target && md.blame == old(md).blame
    {
      Age(MlKem);
      Age(MlDsa);
      var kemLeft: seq<Word>, dsaLeft: seq<Word> := *, *;
      ghost var k, d := mk, md;
      mk := mk.(regs := mk.regs.(stage := kemLeft));
      md := md.(regs := md.regs.(stage := dsaLeft));
      assert Later(compute, old(mk), k) && Later(compute, old(md), d);
    }

    /** Requests that concern neither slave nor table: random bytes, digests, symmetric ciphers. */
    method Elsewhere() returns (status: Code, reply: seq<byte>)
      modifies this`hwFault
      ensures status != Ok ==> reply == []
      ensures reliable ==> hwFault == old(hwFault)
    {
      var fails: bool := *;
      hwFault := hwFault || (fails && !reliable);
      status := *;
      reply := *;
      reply := if status == Ok then reply else [];
    }

    method HandleOp(q: Request) returns (status: Code, reply: seq<byte>)
      requires Wired() && Tables() && Framed(q) && !mk.wiping && !md.wiping && !hwFault
      modifies this
      ensures Wired() && Tables()
      ensures Spared(old(Now()), q, status, Now())
      ensures Coded(old(Now()), q, status)
      ensures Excused(unwrap, old(Now()), q, status, hwFault, Now())
      ensures Told(compute, unwrap, old(Now()), q, status, reply, hwFault, Now())
    {
      status, reply := InArgErr, [];
      match q
      case KemKeygen(pset) => status, reply := KemKeygen(pset);
      case KemEncaps(pset, ek) =>
        ghost var m;
        status, reply, m := KemEncaps(pset, ek);
        assert status == Ok && !hwFault ==> Encapsulated(compute, pset, ek, m, reply);
      case KemDecaps(h, ct) => status, reply := KemDecaps(h, ct);
      case DsaKeygen(pset) => status, reply := DsaKeygen(pset);
      case DsaSign(h, ctxLen, msg) =>
        ghost var rnd;
        status, reply, rnd := DsaSign(h, ctxLen, msg);
        assert status == Ok && !md.blame.busError ==> Signed(compute, unwrap, dsaKeys[h], msg, rnd, reply);
      case DsaVerify(pset, ctxLen, payload) => status := DsaVerify(pset, ctxLen, payload);
      case BlobExport(kind, h) => status, reply := Export(kind, h);
      case BlobImport(kind, pset, blob) => status, reply := Import(kind, pset, blob);
      case Other => status, reply := Elsewhere();
    }

    /** A request as the serve loop takes it: both slaves are asked whether they are wiping before
        anything is written, and a reply that rests on a failed access is withdrawn. `faulty`: the
        fault flag as the handler left it. */
    method Attend(q: Request) returns (status: Code, reply: seq<byte>, ghost raw: Code, ghost faulty: bool)
      requires Wired() && Tables() && Framed(q)
      modifies this
      ensures Wired() && Tables()
      ensures Honest(compute, unwrap, Exchange(old(Now()), q, status, reply, Now(), raw, faulty))
    {
      ghost var w := Now();
      var ok := Guard();
      ghost var w1 := Now();
      assert w1.mk.target == w.mk.target && w1.md.target == w.md.target;
      assert forall c :: Coded(w1, q, c) ==> Coded(w, q, c);
      hide Later, Aged, Honest, Spared, Told, Coded, Excused;
      if !ok {
        TurnedAway(compute, unwrap, w, q, hwFault, w1);
        return HardFail, [], HardFail, hwFault;
      }
      status, reply := HandleOp(q);
      raw, faulty := status, hwFault;
      AgedSpared(compute, w, w1, q, status, Now());
      AgedExcused(compute, unwrap, w, w1, q, status, hwFault, Now());
      AgedTold(compute, unwrap, w, w1, q, status, reply, hwFault, Now());
      Withdrawn(compute, unwrap, w, q, status, reply, hwFault, Now());
      if hwFault && status == Ok {
        status, reply := HardFail, [];
      }
    }

    method Guard() returns (ok: bool)
      requires Wired() && Tables()
      modifies this
      ensures Aged(compute, old(Now()), Now()) && Wired() && Tables()
      ensures if ok then !mk.wiping && !md.wiping && !hwFault else hwFault || mk.wiping || md.wiping
      ensures reliable ==> !hwFault
    {
      hwFault := false;
      ok := WaitNotWiping(MlKem);
      if ok {
        ok := WaitNotWiping(MlDsa);
      }
      if ok {
        hwFault := false;
      }
    }

    // ---- sessions --------------------------------------------------------------------------------

    /** The tables are emptied and both slaves told to wipe, each after it was asked whether it is
        wiping already; then both are given time. */
    method SessionEnd()
      requires Wired() && !hwFault
      modifies this
      ensures Wired() && Tables()
      ensures mk.blame == old(mk).blame && md.blame == old(md).blame
      ensures Swept(CleanUp(old(Now()), hwFault, Now()))
    {
      keys := seq(KEM_SLOTS, _ => Slot(false, 0, []));
      dsaKeys := seq(DSA_SLOTS, _ => Slot(false, 0, []));
      BlankIsSensible(keys);
      BlankIsSensible(dsaKeys);
      Erase(MlKem);
      Erase(MlDsa);
      var fails: bool := *;
      hwFault := hwFault || (fails && !reliable);
      ghost var k, d := mk, md;
      var _ := WaitNotWiping(MlKem);
      var _ := WaitNotWiping(MlDsa);
      LaterSettles(compute, k, mk);
      LaterSettles(compute, d, md);
    }

    method Erase(t: Target)
      requires Wired()
      modifies this`mk, this`md, this`hwFault
      ensures Only(t) && At(t).target == t && At(t).blame == old(At(t)).blame
      ensures Erased(At(t)) || hwFault || (old(At(t)).wiping && At(t).wiping)
    {
      var ok := WaitNotWiping(t);
      LaterSettles(compute, old(At(t)), At(t));
      if ok {
        ghost var c := At(t);
        Wr(t, Zeroize);
        ZeroizeErases(compute, c, At(t), hwFault);
      }
    }

    /** One connection, from the first request to the clean-up after it. */
    method Session(requests: seq<Request>) returns (ghost log: seq<Exchange>, ghost end: CleanUp)
      requires Wired() && Tables() && Blank(keys) && Blank(dsaKeys)
      requires forall i :: 0 <= i < |requests| ==> Framed(requests[i])
      modifies this
      ensures Wired() && Tables() && Blank(keys) && Blank(dsaKeys)
      ensures IsSession(compute, unwrap, log, requests)
      ensures Joined(compute, old(Now()), log, end) && Swept(end) && end.after == Now()
      ensures mk.blame.wipeWrite == old(mk).blame.wipeWrite && md.blame.wipeWrite == old(md).blame.wipeWrite
    {
      log := [];
      var i := 0;
      hide IsSession, Honest, Sensible, Blank, Between, Swept;
      NoRequests(compute, unwrap);
      while i < |requests|
        invariant 0 <= i <= |requests|
        invariant Wired() && Tables()
        invariant IsSession(compute, unwrap, log, requests[..i])
        invariant mk.blame.wipeWrite == old(mk).blame.wipeWrite && md.blame.wipeWrite == old(md).blame.wipeWrite
        invariant if log == [] then Now() == old(Now()) else Now() == log[|log| - 1].after
        invariant log != [] ==> Between(compute, old(Now()), log[0].before)
      {
        ghost var before := Now();
        Interlude();
        ghost var w := Now();
        var status, reply, raw, faulty := Attend(requests[i]);
        ghost var e := Exchange(w, requests[i], status, reply, Now(), raw, faulty);
        assert e.before.mk.blame.wipeWrite == before.mk.blame.wipeWrite;
        WipeWriteStays(compute, unwrap, e);
        OneMore(compute, unwrap, log, requests[..i], before, e);
        log := log + [e];
        assert requests[..i + 1] == requests[..i] + [requests[i]];
        i := i + 1;
      }
      assert requests[..i] == requests;
      hwFault := false;
      ghost var before := Now();
      SessionEnd();
      end := CleanUp(before, hwFault, Now());
      assert Blank(keys) && Blank(dsaKeys) by {
        SweptIsBlank(end);
      }
      hwFault := false;
    }

    /** The daemon's whole life, connection after connection, whatever state it finds the slaves in. */
    method Serve(sessions: seq<seq<Request>>) returns (ghost logs: seq<seq<Exchange>>, ghost ends: seq<CleanUp>)
      requires Wired() && Tables() && Blank(keys) && Blank(dsaKeys)
      requires forall i, j :: 0 <= i < |sessions| && 0 <= j < |sessions[i]| ==> Framed(sessions[i][j])
      modifies this
      ensures IsLife(compute, unwrap, old(Now()), logs, ends, sessions)
      ensures mk.blame.wipeWrite == old(mk).blame.wipeWrite && md.blame.wipeWrite == old(md).blame.wipeWrite
      ensures Blank(keys) && Blank(dsaKeys)
    {
      logs, ends := [], [];
      var i := 0;
      NoSessions(compute, unwrap, Now());
      hide IsLife, IsSession, Sensible, Blank, Joined, Swept, Framed;
      while i < |sessions|
        invariant 0 <= i <= |sessions| && |logs| == |ends| == i
        invariant Wired() && Tables() && Blank(keys) && Blank(dsaKeys)
        invariant IsLife(compute, unwrap, old(Now()), logs, ends, sessions[..i])
        invariant Now() == LeftBy(old(Now()), ends, i)
        invariant mk.blame.wipeWrite == old(mk).blame.wipeWrite && md.blame.wipeWrite == old(md).blame.wipeWrite
      {
        var log, end := Session(sessions[i]);
        OneMoreSession(compute, unwrap, old(Now()), logs, ends, sessions[..i], log, sessions[i], end);
        assert sessions[..i + 1] == sessions[..i] + [sessions[i]];
        logs, ends := logs + [log], ends + [end];
        i := i + 1;
      }
      assert sessions[..i] == sessions;
    }
  }
}
