/**
 * The two post-quantum slaves in the programmable logic, as far as software can tell them apart:
 * the wiping engines, the staged seed, the input and output streams and the run state machine.
 */
module Pl {
  import opened Bytes

  datatype Target = MlKem | MlDsa

  type Word = w: int | 0 <= w < U32

  /** The MODE register. Operation 0 generates a key pair on both slaves. */
  datatype Mode = Mode(op: nat, pset: nat, chain: bool, staged: bool)

  /** Everything the result of a run depends on. */
  datatype Job = Job(mode: Mode, seed: seq<Word>, input: seq<byte>, msgLen: nat, ctxLen: nat)

  datatype Answer = Answer(output: seq<byte>, verified: bool)

  /** What the silicon computes. */
  type Compute = (Target, Job) -> Answer

  /** `disturbed`: MODE was changed under the run, so its answer may be anything. */
  datatype Phase =
    | Idle
    | Running(job: Job, disturbed: bool)
    | Finished(answer: Answer)
    | Refused

  /** What software can write. `stage` is the staged seed, `input` the input buffer up to IN_PTR. */
  datatype Registers = Registers(mode: Mode, stage: seq<Word>, input: seq<byte>, msgLen: nat, ctxLen: nat)

  /** How the slave has been mistreated, never forgotten: a write landed during WIPING, a write was
      rejected for another reason (both are bus errors, which the board does not survive), a START
      met EXP_WIPING. */
  datatype Blame = Blame(wipeWrite: bool, busError: bool, expStart: bool)

  datatype Core = Core(
    target: Target, wiping: bool, expWiping: bool, regs: Registers, phase: Phase, outPos: nat, blame: Blame)

  datatype Command =
    | SetMode(mode: Mode)
    | ResetInput
    | ResetOutput
    | SetMsgLen(len: nat)
    | SetCtxLen(len: nat)
    | Feed4(w: Word)
    | Feed1(b: byte)
    | SeedClear
    | SeedWord(w: Word)
    | Clear
    | Start
    | Zeroize

  /** The number of words a staged seed has. */
  function SeedWords(t: Target): nat {
    match t case MlKem => 16 case MlDsa => 8
  }

  function InputCapacity(t: Target): nat {
    match t case MlKem => 8192 case MlDsa => 32768
  }

  /** The one operation besides key generation that expands a private key: decapsulation, signing. */
  function PrivateOp(t: Target): nat {
    match t case MlKem => 2 case MlDsa => 1
  }

  predicate NeedsSeed(t: Target, m: Mode) {
    m.chain && (m.op == 0 || m.op == PrivateOp(t))
  }

  /** Whether a run in this mode takes the staged seed, and with it empties the staging port. */
  predicate TakesSeed(t: Target, m: Mode) {
    m.staged && (m.op == 0 || NeedsSeed(t, m))
  }

  predicate SeedReady(c: Core) {
    && (TakesSeed(c.target, c.regs.mode) ==> |c.regs.stage| == SeedWords(c.target))
    && (NeedsSeed(c.target, c.regs.mode) ==> c.regs.mode.staged)
  }

  /** ML-KEM has no length registers. */
  function JobOf(c: Core): Job {
    var dsa := c.target.MlDsa?;
    Job(c.regs.mode, if TakesSeed(c.target, c.regs.mode) then c.regs.stage else [], c.regs.input,
        if dsa then c.regs.msgLen else 0, if dsa then c.regs.ctxLen else 0)
  }

  /** The passing of time: a wipe may end, a run may end (which starts the wipe of the expansion
      area), and nothing else changes by itself. */
  predicate Later(f: Compute, c: Core, c': Core) {
    && (c'.wiping ==> c.wiping)
    && c' == c.(wiping := c'.wiping, expWiping := c'.expWiping, phase := c'.phase, outPos := c'.outPos)
    && (c'.phase == c.phase ==> c'.outPos == c.outPos && (c'.expWiping ==> c.expWiping))
    && (c'.phase != c.phase ==>
          && c.phase.Running? && c'.phase.Finished? && c'.outPos == 0
          && (!c.phase.disturbed ==> c'.phase.answer == f(c.target, c.phase.job)))
  }

  function Rejected(c: Core): Core {
    c.(blame := c.blame.(busError := true))
  }

  function Take(c: Core, bytes: seq<byte>): Core {
    if c.phase.Running? then c
    else if |c.regs.input| + |bytes| > InputCapacity(c.target) then Rejected(c)
    else c.(regs := c.regs.(input := c.regs.input + bytes))
  }

  /** The effect of one write. `refuse`: START is turned down for its parameters or lengths. */
  function Apply(c: Core, cmd: Command, refuse: bool): Core {
    if c.wiping then c.(blame := c.blame.(wipeWrite := true))
    else
      match cmd
      case SetMode(m) =>
        if c.target.MlKem? then
          c.(regs := c.regs.(mode := m),
              phase := if c.phase.Running? && c.regs.mode != m then c.phase.(disturbed := true) else c.phase)
        else if c.phase.Running? then Rejected(c)
        else c.(regs := c.regs.(mode := m, input := []))
      case ResetInput => c.(regs := c.regs.(input := []))
      case ResetOutput => c.(outPos := 0)
      case SetMsgLen(n) =>
        if c.target.MlKem? then c else if c.phase.Running? then Rejected(c) else c.(regs := c.regs.(msgLen := n))
      case SetCtxLen(n) =>
        if c.target.MlKem? then c else if c.phase.Running? then Rejected(c) else c.(regs := c.regs.(ctxLen := n))
      case Feed4(w) => Take(c, LE4(w))
      case Feed1(b) =>
        if c.target.MlDsa? && c.phase.Running? then Rejected(c) else Take(c, [b])
      case SeedClear => c.(regs := c.regs.(stage := []))
      case SeedWord(w) =>
        if |c.regs.stage| >= SeedWords(c.target) then c
        else c.(regs := c.regs.(stage := c.regs.stage + [w]))
      case Clear =>
        c.(regs := c.regs.(input := []), outPos := 0, phase := if c.phase.Running? then c.phase else Idle)
      case Start =>
        if c.phase.Running? then c
        else if c.expWiping then c.(blame := c.blame.(expStart := true), phase := Refused, outPos := 0)
        else if refuse || !SeedReady(c) then c.(phase := Refused, outPos := 0)
        else c.(phase := Running(JobOf(c), false), outPos := 0,
                regs := if TakesSeed(c.target, c.regs.mode) then c.regs.(stage := []) else c.regs)
      case Zeroize =>
        c.(wiping := true, expWiping := false, phase := Idle, outPos := 0,
          regs := c.regs.(stage := [], input := []))
  }

  /** One write as the bus carries it out: time passes, and unless the access fails the slave acts;
      a failing access may act or not. */
  ghost predicate Written(f: Compute, c: Core, cmd: Command, c': Core, failed: bool) {
    exists mid, refuse :: Later(f, c, mid) && Took(mid, cmd, refuse, c', failed)
  }

  predicate Took(mid: Core, cmd: Command, refuse: bool, c': Core, failed: bool) {
    c' == Apply(mid, cmd, refuse) || (failed && c' == mid)
  }

  // ---- what the bus can do to a slave --------------------------------------------------------

  /** Not wiping and not computing. */
  predicate Free(c: Core) {
    !c.wiping && !c.phase.Running?
  }

  /** Free, and the expansion area is clean: the only state a START may find. */
  predicate Quiet(c: Core) {
    Free(c) && !c.expWiping
  }

  /** From `c` to `c'` the slave was not written to during WIPING, unless it was wiping already, and
      a bus error or an early START is never forgotten. ML-KEM knows no bus error outside WIPING. */
  predicate Kept(c: Core, c': Core) {
    && c'.target == c.target
    && (!c.wiping ==> !c'.wiping && c'.blame.wipeWrite == c.blame.wipeWrite)
    && (c.blame.busError ==> c'.blame.busError)
    && (c.target.MlKem? ==> c'.blame.busError == c.blame.busError)
    && (c.blame.expStart ==> c'.blame.expStart)
  }

  /** As `Kept`, without a START: a free slave stays free, a quiet one quiet, and there is no new answer. */
  predicate Settled(c: Core, c': Core) {
    && Kept(c, c')
    && c'.blame.expStart == c.blame.expStart
    && (Free(c) ==>
          && Free(c') && c'.blame.busError == c.blame.busError
          && (c'.phase == c.phase || c'.phase.Idle?))
    && (Quiet(c) ==> Quiet(c'))
  }

  /** No answer to read: refused, still at work, or its expansion area not clean in time. */
  predicate Unready(c: Core) {
    c.expWiping || c.phase.Refused? || c.phase.Running?
  }

  lemma LaterTransitive(f: Compute, a: Core, b: Core, c: Core)
    requires Later(f, a, b) && Later(f, b, c)
    ensures Later(f, a, c)
  {
  }

  lemma LaterSettles(f: Compute, c: Core, c': Core)
    requires Later(f, c, c')
    ensures Settled(c, c')
    ensures c'.regs == c.regs
  {
  }

  predicate HasRoom(c: Core, cmd: Command) {
    && (cmd.Feed4? ==> |c.regs.input| + 4 <= InputCapacity(c.target))
    && (cmd.Feed1? ==> |c.regs.input| + 1 <= InputCapacity(c.target))
  }

  lemma WriteSettles(f: Compute, c: Core, cmd: Command, c': Core, failed: bool)
    requires Written(f, c, cmd, c', failed)
    requires !cmd.Start? && !cmd.Zeroize? && HasRoom(c, cmd)
    ensures Settled(c, c')
  {
    var mid, refuse :| Later(f, c, mid) && Took(mid, cmd, refuse, c', failed);
    LaterSettles(f, c, mid);
    assert HasRoom(mid, cmd);
    ApplySettles(mid, cmd, refuse);
    hide Later, Apply;
  }

  lemma ApplySettles(c: Core, cmd: Command, refuse: bool)
    requires !cmd.Start? && !cmd.Zeroize? && HasRoom(c, cmd)
    ensures Settled(c, Apply(c, cmd, refuse))
  {
    match cmd
    case SetMode(_) =>
    case Feed4(w) => TakeSettles(c, LE4(w));
    case Feed1(b) => TakeSettles(c, [b]);
    case _ =>
  }

  lemma TakeSettles(c: Core, bytes: seq<byte>)
    requires |c.regs.input| + |bytes| <= InputCapacity(c.target)
    ensures Settled(c, Take(c, bytes))
  {
  }

  lemma WrittenAnyway(f: Compute, c: Core, cmd: Command, c': Core, failed: bool, noted: bool)
    requires Written(f, c, cmd, c', failed) && (failed ==> noted)
    ensures Written(f, c, cmd, c', noted)
  {
    var mid, refuse :| Later(f, c, mid) && Took(mid, cmd, refuse, c', failed);
    assert Took(mid, cmd, refuse, c', noted);
  }

  /** Only MODE and the input stream of a running ML-DSA slave, and the input stream of a running
      ML-KEM one, are closed to software. */
  predicate Open(c: Core, cmd: Command) {
    Free(c) || (!c.wiping && (cmd.ResetInput? || cmd.SeedClear? || cmd.SeedWord? || (c.target.MlKem? && cmd.SetMode?)))
  }

  lemma RegistersFollow(f: Compute, c: Core, cmd: Command, c': Core)
    requires Written(f, c, cmd, c', false) && Open(c, cmd)
    requires !cmd.Start? && !cmd.Zeroize? && HasRoom(c, cmd)
    ensures c'.regs == Apply(c, cmd, false).regs
  {
    var mid, refuse :| Later(f, c, mid) && Took(mid, cmd, refuse, c', false);
    LaterSettles(f, c, mid);
  }

  /** A write of MODE that an ML-DSA slave survives finds it idle. */
  lemma ModeFindsIdle(f: Compute, c: Core, m: Mode, c': Core)
    requires Written(f, c, SetMode(m), c', false) && !c.wiping && c.target.MlDsa? && !c'.blame.busError
    ensures Free(c') && c'.regs == c.regs.(mode := m, input := [])
  {
    var mid, refuse :| Later(f, c, mid) && Took(mid, SetMode(m), refuse, c', false);
    LaterSettles(f, c, mid);
  }

  /** START on a free slave runs exactly what its registers say, on a full staged seed, or is
      refused; it meets EXP_WIPING only if the expansion area was being wiped or a run was on. */
  lemma StartRuns(f: Compute, c: Core, c': Core, failed: bool)
    requires Written(f, c, Start, c', failed)
    ensures Kept(c, c')
    ensures !c.wiping ==> c'.blame.busError == c.blame.busError
    ensures Quiet(c) ==> c'.blame.expStart == c.blame.expStart
    ensures Free(c) && !failed ==>
              (c'.phase == Running(JobOf(c), false) && SeedReady(c)) || c'.phase.Refused?
  {
    var mid, refuse :| Later(f, c, mid) && Took(mid, Start, refuse, c', failed);
    LaterSettles(f, c, mid);
    assert Free(c) ==> JobOf(mid) == JobOf(c) && SeedReady(mid) == SeedReady(c);
  }

  /** START leaves nothing to read. */
  lemma StartClears(f: Compute, c: Core, c': Core)
    requires Written(f, c, Start, c', false) && !c.wiping
    ensures !c'.phase.Finished?
  {
    var mid, refuse :| Later(f, c, mid) && Took(mid, Start, refuse, c', false);
  }

  /** What is done later is read from its first byte. */
  lemma ReadFromStart(f: Compute, c: Core, c': Core)
    requires Later(f, c, c') && !c.phase.Finished? && c'.phase.Finished?
    ensures c'.outPos == 0
  {
  }

  /** A run that was started and is found done has produced what the silicon computes for it. */
  lemma RunAnswers(f: Compute, c: Core, c': Core, job: Job)
    requires Later(f, c, c') && c'.phase.Finished?
    requires c.phase == Running(job, false) || c.phase.Refused?
    ensures c'.phase.answer == f(c.target, job) && c'.outPos == 0
  {
  }

  /** Nothing staged, nothing fed, nothing running, nothing to read. */
  predicate Erased(c: Core) {
    c.phase.Idle? && c.regs.stage == [] && c.regs.input == []
  }

  predicate AtRest(c: Core) {
    Erased(c) && !c.wiping
  }

  lemma ZeroizeErases(f: Compute, c: Core, c': Core, failed: bool)
    requires Written(f, c, Zeroize, c', failed) && !c.wiping
    ensures c'.target == c.target && c'.blame == c.blame
    ensures !failed ==> Erased(c')
  {
  }

  // ---- a stream of bytes into the input buffer -----------------------------------------------

  /** The slave `c'` reached from `c` while `bytes` were written to the input port. Bytes count only
      while it is not running, so a count that is complete proves it was free throughout. */
  predicate Fed(c: Core, bytes: seq<byte>, c': Core, failed: bool) {
    && Settled(c, c')
    && c'.regs == c.regs.(input := c'.regs.input)
    && (Free(c) && !failed ==> c'.regs.input == c.regs.input + bytes)
    && |c'.regs.input| <= |c.regs.input| + |bytes|
    && (|c'.regs.input| == |c.regs.input| + |bytes| ==>
          c'.regs.input == c.regs.input + bytes && (bytes != [] && !c.wiping ==> Free(c')))
  }

  /** One byte, or four packed. */
  function FeedCommand(bytes: seq<byte>): Command
    requires |bytes| == 4 || |bytes| == 1
  {
    if |bytes| == 4 then Feed4(FromLE4(bytes)) else Feed1(bytes[0])
  }

  lemma FeedOne(f: Compute, c: Core, bytes: seq<byte>, c': Core, failed: bool)
    requires |bytes| == 4 || |bytes| == 1
    requires Written(f, c, FeedCommand(bytes), c', failed)
    requires |c.regs.input| + |bytes| <= InputCapacity(c.target)
    ensures Fed(c, bytes, c', failed)
  {
    var cmd := FeedCommand(bytes);
    var mid, refuse :| Later(f, c, mid) && Took(mid, cmd, refuse, c', failed);
    LaterSettles(f, c, mid);
    if |bytes| == 4 {
      FromLE4RoundTrip(bytes);
    } else {
      assert bytes == [bytes[0]];
    }
    WriteSettles(f, c, cmd, c', failed);
  }

  lemma FeedMore(f: Compute, a: Core, p: seq<byte>, b: Core, q: seq<byte>, c: Core, failed: bool)
    requires Fed(a, p, b, false) && Fed(b, q, c, failed) && q != []
    ensures Fed(a, p + q, c, failed)
  {
    assert a.regs.input + p + q == a.regs.input + (p + q);
  }

  lemma FedNothing(c: Core, failed: bool)
    ensures Fed(c, [], c, failed)
  {
  }

  /** Stopping short after a failed access. */
  lemma FedPart(a: Core, data: seq<byte>, i: nat, b: Core)
    requires i < |data| && Fed(a, data[..i], b, true)
    ensures Fed(a, data, b, true)
  {
  }

  // ---- four bytes at a time out of the output buffer ------------------------------------------

  /** A packed read gives four bytes, or zero without advancing when fewer are left. */
  function Out4(c: Core): Word
    requires c.phase.Finished?
  {
    if c.outPos + 4 <= |c.phase.answer.output| then FromLE4(c.phase.answer.output[c.outPos..c.outPos + 4]) else 0
  }

  function Out1(c: Core): byte
    requires c.phase.Finished?
  {
    if c.outPos < |c.phase.answer.output| then c.phase.answer.output[c.outPos] else 0
  }

  function Advanced(c: Core, n: nat): Core
    requires c.phase.Finished?
  {
    if c.outPos + n <= |c.phase.answer.output| then c.(outPos := c.outPos + n) else c
  }

  /** `out` was read off the answer of `c`, from where its read pointer stood. */
  predicate Drained(c: Core, out: seq<byte>, c': Core) {
    && c.phase.Finished? && c'.phase == c.phase
    && c'.outPos == c.outPos + |out| <= |c.phase.answer.output|
    && out == c.phase.answer.output[c.outPos..c'.outPos]
  }

  predicate ReadOut(f: Compute, c: Core, n: nat, mid: Core, c': Core, failed: bool) {
    && Later(f, c, mid) && mid.phase.Finished?
    && (c' == Advanced(mid, n) || (failed && c' == mid))
  }

  lemma ReadOutSettles(f: Compute, c: Core, n: nat, mid: Core, c': Core, failed: bool)
    requires ReadOut(f, c, n, mid, c', failed)
    ensures Settled(c, c') && c'.phase == mid.phase && c'.regs == c.regs
    ensures c.phase.Finished? ==> c'.phase == c.phase
  {
  }

  /** Four packed bytes are the next four bytes of the answer, and one byte the next one. */
  lemma DrainMore(f: Compute, a: Core, out: seq<byte>, b: Core, n: nat, mid: Core, c: Core)
    requires Drained(a, out, b) && ReadOut(f, b, n, mid, c, false)
    requires n == 1 || n == 4
    requires b.outPos + n <= |a.phase.answer.output|
    ensures Drained(a, out + (if n == 4 then LE4(Out4(mid)) else [Out1(mid)]), c)
  {
    var all := a.phase.answer.output;
    if n == 4 {
      FromLE4RoundTrip(all[b.outPos..b.outPos + 4]);
      assert all[a.outPos..b.outPos] + all[b.outPos..b.outPos + 4] == all[a.outPos..b.outPos + 4];
    } else {
      assert all[a.outPos..b.outPos] + [all[b.outPos]] == all[a.outPos..b.outPos + 1];
    }
  }

  lemma DrainNothing(c: Core)
    requires c.phase.Finished?
    ensures c.outPos <= |c.phase.answer.output| ==> Drained(c, [], c)
    ensures Settled(c, c)
  {
  }

  lemma KeptTransitive(a: Core, b: Core, c: Core)
    requires Kept(a, b) && Kept(b, c)
    ensures Kept(a, c)
  {
  }

  lemma SettledTransitive(a: Core, b: Core, c: Core)
    requires Settled(a, b) && Settled(b, c)
    ensures Settled(a, c)
  {
  }
}
