/**
 * A run left going by an earlier request that timed out, and what it does to the next one; and what
 * a failing access does to a run that has come to its end. Where nothing else is said register
 * accesses do not fail: the damage needs no failing access.
 */
module Stray {
  import opened Bytes
  import opened Pl
  import opened Protocol
  import opened Runs

  // ---- what a run can return ----------------------------------------------------------------------

  /** The answer asked for: the mode's, on the input and the staged seed. */
  function Due(f: Compute, c: Core, m: Mode, data: seq<byte>): Answer {
    f(MlKem, JobFor(MlKem, m, c.regs.stage, data, 0))
  }

  lemma {:induction false} StreamedFed(f: Compute, c: Core, data: seq<byte>, c': Core)
    requires Streamed(f, c, data, c') && |c.regs.input| + |data| <= InputCapacity(c.target)
    ensures Fed(c, data, c', false)
    decreases |data|
  {
    if data != [] {
      var first, rest := data[..Chunk(data)], data[Chunk(data)..];
      var mid :| Written(f, c, FeedCommand(first), mid, false) && Streamed(f, mid, rest, c');
      hide Written, Streamed;
      FeedOne(f, c, first, mid, false);
      StreamedFed(f, mid, rest, c');
      assert first + rest == data;
      if rest != [] {
        FeedMore(f, c, first, mid, rest, c', false);
      } else {
        StreamedNothing(f, mid, c');
      }
    }
  }

  lemma StreamedNothing(f: Compute, c: Core, c': Core)
    requires Streamed(f, c, [], c')
    ensures c' == c
  {
  }

  /** A free slave can take any input that fits without time passing. */
  lemma {:induction false} StreamAll(f: Compute, c: Core, data: seq<byte>) returns (c': Core)
    requires Free(c) && |c.regs.input| + |data| <= InputCapacity(c.target)
    ensures Streamed(f, c, data, c') && c' == c.(regs := c.regs.(input := c.regs.input + data))
    decreases |data|
  {
    if data == [] {
      assert c.regs.input + data == c.regs.input;
      c' := c;
    } else {
      var first, rest := data[..Chunk(data)], data[Chunk(data)..];
      var mid := Apply(c, FeedCommand(first), false);
      AsApplied(f, c, FeedCommand(first));
      FeedOne(f, c, first, mid, false);
      assert mid == c.(regs := c.regs.(input := c.regs.input + first));
      c' := StreamAll(f, mid, rest);
      assert c.regs.input + first + rest == c.regs.input + data;
    }
  }

  lemma AsApplied(f: Compute, c: Core, cmd: Command)
    ensures Written(f, c, cmd, Apply(c, cmd, false), false)
  {
    assert Later(f, c, c) && Took(c, cmd, false, Apply(c, cmd, false), false);
  }

  /** A launch starts the run asked for or is refused; without input it may also leave a run that was
      going already to itself. */
  lemma LaunchedPhase(f: Compute, c: Core, m: Mode, data: seq<byte>, c': Core)
    requires Launched(f, c, m, data, c') && c.target.MlKem? && !c.wiping && |data| <= InputCapacity(MlKem)
    ensures c'.target == c.target
    ensures Free(c) ==> c'.blame == c.blame
    ensures c'.phase == Running(JobFor(MlKem, m, c.regs.stage, data, 0), false) || c'.phase.Refused?
         || (data == [] && c.phase.Running? && (!c.phase.disturbed && c.regs.mode == m ==> c'.phase == c.phase))
  {
    var c1, c2, c3, c4 :|
      && Later(f, c, c1) && !c1.expWiping
      && Written(f, c1, SetMode(m), c2, false)
      && Written(f, c2, ResetInput, c3, false)
      && Streamed(f, c3, data, c4) && |c4.regs.input| == |data|
      && Written(f, c4, Start, c', false);
    LaterSettles(f, c, c1);
    WriteSettles(f, c1, SetMode(m), c2, false);
    RegistersFollow(f, c1, SetMode(m), c2);
    WriteSettles(f, c2, ResetInput, c3, false);
    RegistersFollow(f, c2, ResetInput, c3);
    StreamedFed(f, c3, data, c4);
    StartRuns(f, c4, c', false);
    if data == [] && c.phase.Running? && !c.phase.disturbed && c.regs.mode == m {
      assert c1.phase == c.phase || Free(c1);
      RunUnmoved(f, c1, SetMode(m), c2);
      RunUnmoved(f, c2, ResetInput, c3);
      RunUnmoved(f, c3, Start, c');
    }
  }

  /** A run goes on through these writes or ends by itself. */
  lemma RunUnmoved(f: Compute, c: Core, cmd: Command, c': Core)
    requires Written(f, c, cmd, c', false) && !c.wiping && c.target.MlKem?
    requires cmd == SetMode(c.regs.mode) || cmd.ResetInput? || cmd.Start?
    ensures c.phase.Running? && !cmd.Start? ==> c'.phase == c.phase || Free(c')
    ensures c.phase.Running? && cmd.Start? ==>
              || c'.phase == c.phase || c'.phase.Refused?
              || c'.phase == Running(JobOf(c), false)
  {
    var mid, refuse :| Later(f, c, mid) && Took(mid, cmd, refuse, c', false);
    LaterSettles(f, c, mid);
  }

  /** With input, or with nothing going on, only the answer asked for can come back. */
  lemma ReturnsDue(f: Compute, c: Core, m: Mode, data: seq<byte>, c': Core)
    requires Returned(f, c, m, data, c') && c.target.MlKem? && !c.wiping && |data| <= InputCapacity(MlKem)
    requires data != [] || !c.phase.Running?
    ensures c'.phase.answer == Due(f, c, m, data)
  {
    var mid :| Launched(f, c, m, data, mid) && Later(f, mid, c') && c'.phase.Finished?;
    LaunchedPhase(f, c, m, data, mid);
    RunAnswers(f, mid, c', JobFor(MlKem, m, c.regs.stage, data, 0));
  }

  // ---- a key pair that is not the one asked for --------------------------------------------------

  /** A run of KEYGEN whose answer passes its length test. */
  ghost predicate KeygenReturned(f: Compute, c: Core, pset: nat, c': Core) {
    Returned(f, c, Private(0, pset), [], c') && |c'.phase.answer.output| == KemLengths(pset).ek
  }

  function DueKey(f: Compute, c: Core, pset: nat): seq<byte> {
    Due(f, c, Private(0, pset), []).output
  }

  /** A run still going that can leave a public key in the output buffer which is not the one due. */
  predicate Strays(f: Compute, c: Core, pset: nat) {
    && c.phase.Running?
    && var left := f(MlKem, c.phase.job).output;
       || c.phase.disturbed || c.regs.mode != Private(0, pset)
       || (|left| == KemLengths(pset).ek && left != DueKey(f, c, pset))
  }

  /** With a run of its own going on, a launch without input can do nothing at all. */
  lemma LaunchIgnored(f: Compute, c: Core, m: Mode)
    requires c.target.MlKem? && !c.wiping && c.phase.Running?
    ensures exists mid :: Launched(f, c, m, [], mid) && mid.target == c.target
              && mid.phase == c.phase.(disturbed := c.phase.disturbed || c.regs.mode != m)
  {
    var c1 := c.(expWiping := false);
    var c2 := Apply(c1, SetMode(m), false);
    var c3 := Apply(c2, ResetInput, false);
    AsApplied(f, c1, SetMode(m));
    AsApplied(f, c2, ResetInput);
    AsApplied(f, c3, Start);
    assert Streamed(f, c3, [], c3) && |c3.regs.input| == 0;
    assert Launched(f, c, m, [], c3);
  }

  /** Another public key of the right length. */
  lemma AnotherKey(due: seq<byte>, pset: nat) returns (key: seq<byte>)
    ensures |key| == KemLengths(pset).ek && key != due
  {
    var n := KemLengths(pset).ek;
    key := seq(n, _ => 0);
    if key == due {
      key := seq(n, _ => 1);
      assert key[0] != due[0];
    }
  }

  /** The exact condition, for given silicon, under which every public key KEYGEN can be answered with,
      length test passed and no access failed, is the one due. */
  lemma KeygenDueIff(f: Compute, c: Core, pset: nat)
    requires c.target.MlKem? && !c.wiping
    ensures (forall c' :: KeygenReturned(f, c, pset, c') ==> c'.phase.answer.output == DueKey(f, c, pset))
       <==> !Strays(f, c, pset)
  {
    var m := Private(0, pset);
    if Strays(f, c, pset) {
      LaunchIgnored(f, c, m);
      var mid :| Launched(f, c, m, [], mid) && mid.target == c.target
        && mid.phase == c.phase.(disturbed := c.phase.disturbed || c.regs.mode != m);
      var other := AnotherKey(DueKey(f, c, pset), pset);
      var answer := if mid.phase.disturbed then Answer(other, false) else f(MlKem, c.phase.job);
      var c' := mid.(phase := Finished(answer), outPos := 0);
      assert Later(f, mid, c');
      assert Returned(f, c, m, [], c');
      assert KeygenReturned(f, c, pset, c') && c'.phase.answer.output != DueKey(f, c, pset);
    } else {
      forall c' | KeygenReturned(f, c, pset, c')
        ensures c'.phase.answer.output == DueKey(f, c, pset)
      {
        NotStrayed(f, c, pset, c');
      }
    }
  }

  lemma NotStrayed(f: Compute, c: Core, pset: nat, c': Core)
    requires c.target.MlKem? && !c.wiping && !Strays(f, c, pset) && KeygenReturned(f, c, pset, c')
    ensures c'.phase.answer.output == DueKey(f, c, pset)
  {
    var m := Private(0, pset);
    var mid :| Launched(f, c, m, [], mid) && Later(f, mid, c') && c'.phase.Finished?;
    LaunchedPhase(f, c, m, [], mid);
    var job := JobFor(MlKem, m, c.regs.stage, [], 0);
    if mid.phase.Refused? || mid.phase == Running(job, false) {
      RunAnswers(f, mid, c', job);
    } else {
      RunAnswers(f, mid, c', c.phase.job);
    }
  }

  /** The same whatever the silicon computes: then the registers alone decide. KEYGEN's answer is the
      one due if and only if nothing is running, or an undisturbed run of this very job. */
  lemma KeygenDueWhateverIff(c: Core, pset: nat)
    requires c.target.MlKem? && !c.wiping
    ensures (forall f: Compute, c' ::
               KeygenReturned(f, c, pset, c') ==> c'.phase.answer.output == DueKey(f, c, pset))
       <==> !c.phase.Running? || (!c.phase.disturbed && c.regs.mode == Private(0, pset)
                                  && c.phase.job == JobFor(MlKem, Private(0, pset), c.regs.stage, [], 0))
  {
    var due := JobFor(MlKem, Private(0, pset), c.regs.stage, [], 0);
    if !c.phase.Running? || (!c.phase.disturbed && c.regs.mode == Private(0, pset) && c.phase.job == due) {
      forall f: Compute, c' | KeygenReturned(f, c, pset, c')
        ensures c'.phase.answer.output == DueKey(f, c, pset)
      {
        NotStrayed(f, c, pset, c');
      }
    } else {
      var zeros, ones := seq(KemLengths(pset).ek, _ => 0), seq(KemLengths(pset).ek, _ => 1);
      assert zeros[0] != ones[0];
      var f: Compute := (t, job) => if job == due then Answer(zeros, false) else Answer(ones, false);
      assert Strays(f, c, pset);
      KeygenDueIff(f, c, pset);
    }
  }

  // ---- START during EXP_WIPING, MODE during a run --------------------------------------------------

  /** A START can meet EXP_WIPING, with any input, exactly when a run was still going before the wait:
      it may end, and raise EXP_WIPING, after the wait saw the bit clear. */
  lemma EarlyStartIff(f: Compute, c: Core, m: Mode, data: seq<byte>)
    requires c.target.MlKem? && !c.wiping && !c.blame.expStart && |data| <= InputCapacity(MlKem)
    ensures (exists c' :: Launched(f, c, m, data, c') && c'.blame.expStart) <==> c.phase.Running?
  {
    forall c' | Launched(f, c, m, data, c') && !c.phase.Running? ensures !c'.blame.expStart {
      LaunchedPhase(f, c, m, data, c');
    }
    if c.phase.Running? {
      var c' := LaunchedTooEarly(f, c, m, data);
    }
  }

  lemma LaunchedTooEarly(f: Compute, c: Core, m: Mode, data: seq<byte>) returns (c': Core)
    requires c.target.MlKem? && !c.wiping && c.phase.Running? && |data| <= InputCapacity(MlKem)
    ensures Launched(f, c, m, data, c') && c'.blame.expStart
  {
    var c1 := c.(expWiping := false);
    var done := c1.(phase := Finished(f(MlKem, c.phase.job)), outPos := 0, expWiping := true);
    var c2 := Apply(done, SetMode(m), false);
    assert Later(f, c1, done) && Took(done, SetMode(m), false, c2, false);
    assert Written(f, c1, SetMode(m), c2, false);
    var c3 := Apply(c2, ResetInput, false);
    AsApplied(f, c2, ResetInput);
    var c4 := StreamAll(f, c3, data);
    assert c4.regs.input == data;
    AsApplied(f, c4, Start);
    c' := Apply(c4, Start, false);
  }

  /** On ML-DSA the first write of a run costs the board exactly when a run may still be going. */
  lemma BusyModeIff(f: Compute, c: Core, m: Mode)
    requires c.target.MlDsa? && !c.wiping && !c.blame.busError
    ensures (exists c' :: Written(f, c, SetMode(m), c', false) && c'.blame.busError) <==> c.phase.Running?
  {
    forall c' | Written(f, c, SetMode(m), c', false) && !c.phase.Running? ensures !c'.blame.busError {
      WriteSettles(f, c, SetMode(m), c', false);
    }
    if c.phase.Running? {
      AsApplied(f, c, SetMode(m));
      assert Apply(c, SetMode(m), false).blame.busError;
    }
  }

  // ---- an access that fails when the key is there ---------------------------------------------------

  /** KEYGEN came to DONE with a full OUT_LEN and then a read of the output failed. */
  ghost predicate FailsAtReadOut(f: Compute, c: Core, pset: nat, c': Core) {
    exists done :: KeygenReturned(f, c, pset, done) && Later(f, done, c') && ReadOut(f, done, 4, c', c', true)
  }

  /** That can happen to every key generation that can succeed. The run has returned 0 and its length
      test is passed: the raw status is OK and the fault flag is set. */
  lemma CanFailAtReadOut(f: Compute, c: Core, pset: nat)
    requires c.target.MlKem? && Quiet(c) && |c.regs.stage| == SeedWords(MlKem)
    requires |DueKey(f, c, pset)| == KemLengths(pset).ek
    ensures exists c' :: FailsAtReadOut(f, c, pset, c')
  {
    var m := Private(0, pset);
    var c2 := Apply(c, SetMode(m), false);
    var c3 := Apply(c2, ResetInput, false);
    var c4 := Apply(c3, Start, false);
    AsApplied(f, c, SetMode(m));
    AsApplied(f, c2, ResetInput);
    AsApplied(f, c3, Start);
    assert Later(f, c, c) && Streamed(f, c3, [], c3) && |c3.regs.input| == 0;
    assert Launched(f, c, m, [], c4);
    var job := JobFor(MlKem, m, c.regs.stage, [], 0);
    assert c4.phase == Running(job, false);
    var done := c4.(phase := Finished(f(MlKem, job)), outPos := 0);
    assert Later(f, c4, done) && Returned(f, c, m, [], done);
    assert KeygenReturned(f, c, pset, done) && Later(f, done, done) && ReadOut(f, done, 4, done, done, true);
    assert FailsAtReadOut(f, c, pset, done);
  }
}
