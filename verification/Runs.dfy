/**
 * One run on the ML-KEM slave as a relation between the slave before and after, no access failing: the
 * daemon's method keeps to it, and it can be reasoned about where a method cannot.
 */
module Runs {
  import opened Bytes
  import opened Pl

  /** The input port is written to, four bytes at a time and then singly. */
  ghost predicate Streamed(f: Compute, c: Core, data: seq<byte>, c': Core)
    decreases |data|
  {
    if data == [] then c' == c
    else
      var k := Chunk(data);
      exists mid :: Written(f, c, FeedCommand(data[..k]), mid, false) && Streamed(f, mid, data[k..], c')
  }

  function Chunk(data: seq<byte>): nat {
    if |data| >= 4 then 4 else 1
  }

  /** What the daemon writes for a run, from its wait for EXP_WIPING on, with the count of bytes taken
      checked before START. */
  ghost predicate Launched(f: Compute, c: Core, m: Mode, data: seq<byte>, c': Core) {
    exists c1, c2, c3, c4 ::
      && Later(f, c, c1) && !c1.expWiping
      && Written(f, c1, SetMode(m), c2, false)
      && Written(f, c2, ResetInput, c3, false)
      && Streamed(f, c3, data, c4) && |c4.regs.input| == |data|
      && Written(f, c4, Start, c', false)
  }

  /** The launch was followed by DONE without PARAM_ERR: the daemon takes `c'.phase.answer`. */
  ghost predicate Returned(f: Compute, c: Core, m: Mode, data: seq<byte>, c': Core) {
    exists mid :: Launched(f, c, m, data, mid) && Later(f, mid, c') && c'.phase.Finished?
  }

  /** The part of a launch before any input. */
  ghost predicate SetUp(f: Compute, c: Core, m: Mode, c3: Core) {
    exists c1, c2 ::
      && Later(f, c, c1) && !c1.expWiping
      && Written(f, c1, SetMode(m), c2, false)
      && Written(f, c2, ResetInput, c3, false)
  }

  /** The part of a launch before START. */
  ghost predicate Prepared(f: Compute, c: Core, m: Mode, data: seq<byte>, c4: Core) {
    exists c3 :: SetUp(f, c, m, c3) && Streamed(f, c3, data, c4) && |c4.regs.input| == |data|
  }

  lemma LaunchedAfter(f: Compute, c: Core, m: Mode, data: seq<byte>, c4: Core, c5: Core, c': Core)
    requires Prepared(f, c, m, data, c4) && Later(f, c4, c5) && Written(f, c5, Start, c', false)
    ensures Launched(f, c, m, data, c')
  {
    var c3 :| SetUp(f, c, m, c3) && Streamed(f, c3, data, c4) && |c4.regs.input| == |data|;
    var mid, refuse :| Later(f, c5, mid) && Took(mid, Start, refuse, c', false);
    LaterTransitive(f, c4, c5, mid);
    assert Written(f, c4, Start, c', false);
    hide Later, Written, Streamed;
    var c1, c2 :|
      && Later(f, c, c1) && !c1.expWiping
      && Written(f, c1, SetMode(m), c2, false)
      && Written(f, c2, ResetInput, c3, false);
  }

  // ---- streaming, step by step --------------------------------------------------------------------

  /** What streams the rest from `c` streams everything from `start`. */
  ghost predicate StreamsOn(f: Compute, start: Core, data: seq<byte>, c: Core, rest: seq<byte>) {
    forall c' :: Streamed(f, c, rest, c') ==> Streamed(f, start, data, c')
  }

  lemma StreamStarts(f: Compute, c: Core, data: seq<byte>)
    ensures StreamsOn(f, c, data, c, data[0..])
  {
    assert data[0..] == data;
  }

  lemma StreamStep(f: Compute, start: Core, data: seq<byte>, c: Core, i: nat, n: nat, c1: Core)
    requires i < |data| && n == Chunk(data[i..])
    requires StreamsOn(f, start, data, c, data[i..]) && Written(f, c, FeedCommand(data[i..i + n]), c1, false)
    ensures StreamsOn(f, start, data, c1, data[i + n..])
  {
    var rest := data[i..];
    assert rest[..n] == data[i..i + n] && rest[n..] == data[i + n..];
    hide Written;
    forall c' | Streamed(f, c1, data[i + n..], c')
      ensures Streamed(f, start, data, c')
    {
      assert Streamed(f, c, rest, c');
    }
  }

  lemma StreamEnds(f: Compute, start: Core, data: seq<byte>, c: Core, i: nat)
    requires i == |data| && StreamsOn(f, start, data, c, data[i..])
    ensures Streamed(f, start, data, c)
  {
    assert data[i..] == [];
    assert Streamed(f, c, [], c);
  }
}
