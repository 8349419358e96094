/**
 * The handshake rate limiter: a table of sixteen entries, the oldest overwritten when it is full.
 *
 * `log` is the history the table stands for: every entry ever inserted, in order, its count and
 * window start kept up to date. The table holds the last sixteen of them.
 */
module RateLimiter {

  const RL_SLOTS := 16
  const RL_MAX_FAILS := 8
  const RL_WINDOW_S := 60

  /** `since == 0` marks a slot never used. */
  datatype Entry = Entry(ip: int, fails: nat, since: nat)

  // ---- the history ---------------------------------------------------------------------------

  /** The index of the oldest entry still in the table. */
  function Oldest(log: seq<Entry>): (k: nat)
    ensures k <= |log|
  {
    if |log| >= RL_SLOTS then |log| - RL_SLOTS else 0
  }

  predicate Live(log: seq<Entry>, k: int) {
    Oldest(log) <= k < |log|
  }

  predicate Expired(e: Entry, now: nat) {
    now - e.since > RL_WINDOW_S
  }

  /** An address is refused when a live entry of its own has reached the limit within its window. */
  ghost predicate Blocked(log: seq<Entry>, ip: int, now: nat) {
    exists k :: Live(log, k) && log[k].ip == ip && log[k].fails >= RL_MAX_FAILS && !Expired(log[k], now)
  }

  ghost predicate Sound(log: seq<Entry>) {
    && (forall k :: 0 <= k < |log| ==> log[k].since > 0 && log[k].fails <= RL_MAX_FAILS)
    && (forall j, k :: Live(log, j) && Live(log, k) && log[j].ip == log[k].ip ==> j == k)
  }

  /** The history after asking whether `ip` may connect: an expired window of its own starts over. */
  ghost predicate Asked(log: seq<Entry>, log': seq<Entry>, ip: int, now: nat) {
    && |log'| == |log|
    && forall k :: 0 <= k < |log| ==>
         log'[k] == if Live(log, k) && log[k].ip == ip && Expired(log[k], now)
                    then Entry(ip, 0, now) else log[k]
  }

  /** The history after a failed handshake: one more failure of the live entry, or a new entry. */
  ghost predicate Failed(log: seq<Entry>, log': seq<Entry>, ip: int, now: nat) {
    if exists k :: Live(log, k) && log[k].ip == ip then
      && |log'| == |log|
      && forall k :: 0 <= k < |log| ==>
           log'[k] == if Live(log, k) && log[k].ip == ip then log[k].(fails := log[k].fails + 1) else log[k]
    else
      log' == log + [Entry(ip, 1, now)]
  }

  /** A connection asks at `now`; its handshake, if it comes to one, is over at `end`. */
  datatype Attempt = Attempt(ip: int, now: nat, end: nat, handshakeOk: bool)

  /** One TCP connection: refused out of hand, or admitted and then failed or not. */
  ghost predicate Accepted(log: seq<Entry>, log': seq<Entry>, a: Attempt) {
    exists mid :: Asked(log, mid, a.ip, a.now) &&
      if Blocked(log, a.ip, a.now) || a.handshakeOk then log' == mid else Failed(mid, log', a.ip, a.end)
  }

  /** One connection after the other, on a clock that does not go back. */
  predicate InOrder(tries: seq<Attempt>) {
    && (forall i :: 0 <= i < |tries| ==> tries[i].now <= tries[i].end)
    && (forall i, j :: 0 <= i < j < |tries| ==> tries[i].end <= tries[j].now)
  }

  /** The history a run leaves behind, connection by connection. */
  ghost predicate IsRun(logs: seq<seq<Entry>>, tries: seq<Attempt>) {
    && |logs| == |tries| + 1
    && (forall i :: 0 <= i < |tries| ==> Accepted(logs[i], logs[i + 1], tries[i]))
    && InOrder(tries)
  }

  /** An entry that has reached the limit is not touched by any connection in its window, and its
      address is refused by each, until sixteen more entries have been inserted after it. */
  lemma {:induction false} StaysRefused(logs: seq<seq<Entry>>, tries: seq<Attempt>, k: nat, i: nat)
    requires IsRun(logs, tries) && i < |tries|
    requires k < |logs[0]| && logs[0][k].fails >= RL_MAX_FAILS
    requires Live(logs[i], k) && !Expired(logs[0][k], tries[i].now)
    ensures logs[i][k] == logs[0][k]
    ensures Blocked(logs[i], logs[0][k].ip, tries[i].now)
  {
    if i > 0 {
      AcceptedGrows(logs[i - 1], logs[i], tries[i - 1]);
      StartsWithin(logs, tries, k, i - 1);
      StaysRefused(logs, tries, k, i - 1);
      var mid: seq<Entry> :| Asked(logs[i - 1], mid, tries[i - 1].ip, tries[i - 1].now) &&
        if Blocked(logs[i - 1], tries[i - 1].ip, tries[i - 1].now) || tries[i - 1].handshakeOk then logs[i] == mid
        else Failed(mid, logs[i], tries[i - 1].ip, tries[i - 1].end);
      assert mid[k] == logs[i - 1][k];
    }
  }

  lemma AcceptedGrows(log: seq<Entry>, log': seq<Entry>, a: Attempt)
    requires Accepted(log, log', a)
    ensures |log| <= |log'| <= |log| + 1
  {
  }

  /** Inserted entries stay in the history. */
  lemma {:induction false} StartsWithin(logs: seq<seq<Entry>>, tries: seq<Attempt>, k: nat, i: nat)
    requires IsRun(logs, tries) && i <= |tries| && k < |logs[0]|
    ensures k < |logs[i]|
  {
    if i > 0 {
      StartsWithin(logs, tries, k, i - 1);
      AcceptedGrows(logs[i - 1], logs[i], tries[i - 1]);
    }
  }

  /** One entry per live address and no count above the limit, kept by every connection. */
  lemma AcceptedSound(log: seq<Entry>, log': seq<Entry>, a: Attempt)
    requires Sound(log) && 0 < a.now <= a.end && Accepted(log, log', a)
    ensures Sound(log')
  {
    var mid: seq<Entry> :| Asked(log, mid, a.ip, a.now) &&
      if Blocked(log, a.ip, a.now) || a.handshakeOk then log' == mid else Failed(mid, log', a.ip, a.end);
    assert forall k :: 0 <= k < |log| ==> mid[k].ip == log[k].ip;
    assert Sound(mid);
    if !Blocked(log, a.ip, a.now) && !a.handshakeOk {
      forall k | Live(mid, k) && mid[k].ip == a.ip
        ensures mid[k].fails < RL_MAX_FAILS
      {
        assert Live(log, k);
      }
      assert forall k :: Live(log', k) && k < |mid| ==> Live(mid, k);
    }
  }

  lemma {:induction false} RunSound(logs: seq<seq<Entry>>, tries: seq<Attempt>, i: nat)
    requires IsRun(logs, tries) && i <= |tries| && Sound(logs[0])
    requires forall j :: 0 <= j < |tries| ==> tries[j].now > 0
    ensures Sound(logs[i])
  {
    if i > 0 {
      RunSound(logs, tries, i - 1);
      AcceptedSound(logs[i - 1], logs[i], tries[i - 1]);
    }
  }

  // ---- the table -------------------------------------------------------------------------------

  /** The history index slot `s` holds after `n` insertions; negative for a slot never used. */
  function IndexAt(n: nat, s: nat): int
    requires s < RL_SLOTS
  {
    var base := n - n % RL_SLOTS;
    if s < n % RL_SLOTS then base + s else base - RL_SLOTS + s
  }

  /** Slots and live entries correspond one to one. */
  lemma IndexAtLive(log: seq<Entry>, k: nat)
    requires Live(log, k)
    ensures IndexAt(|log|, k % RL_SLOTS) == k
  {
  }

  lemma IndexAtInjective(n: nat)
    ensures forall s, t :: 0 <= s < RL_SLOTS && 0 <= t < RL_SLOTS && IndexAt(n, s) == IndexAt(n, t) ==> s == t
    ensures forall s :: 0 <= s < RL_SLOTS ==> n - RL_SLOTS <= IndexAt(n, s) < n
  {
  }

  lemma IndexAtNext(n: nat, s: nat)
    requires s < RL_SLOTS
    ensures IndexAt(n + 1, s) == if s == n % RL_SLOTS then n else IndexAt(n, s)
  {
  }

  lemma InsertSound(log: seq<Entry>, ip: int, now: nat)
    requires Sound(log) && now > 0 && forall k :: Live(log, k) ==> log[k].ip != ip
    ensures Sound(log + [Entry(ip, 1, now)])
  {
    var log' := log + [Entry(ip, 1, now)];
    assert forall k :: Live(log', k) && k < |log| ==> Live(log, k) && log'[k] == log[k];
  }

  lemma CountUpSound(log: seq<Entry>, k: nat)
    requires Sound(log) && Live(log, k) && log[k].fails < RL_MAX_FAILS
    ensures Sound(log[k := log[k].(fails := log[k].fails + 1)])
    ensures Failed(log, log[k := log[k].(fails := log[k].fails + 1)], log[k].ip, log[k].since)
  {
    var log' := log[k := log[k].(fails := log[k].fails + 1)];
    assert forall j :: 0 <= j < |log| ==> log'[j].ip == log[j].ip && log'[j].since == log[j].since;
    assert forall j :: Live(log', j) <==> Live(log, j);
  }

  class Limiter {
    const tab: array<Entry>
    var next: nat
    ghost var log: seq<Entry>

    /** The table shows the live end of the history. */
    ghost predicate Valid()
      reads this, tab
    {
      && tab.Length == RL_SLOTS && next == |log| % RL_SLOTS && Sound(log)
      && forall s :: 0 <= s < RL_SLOTS ==>
           var k := IndexAt(|log|, s); if k >= 0 then tab[s] == log[k] else tab[s].since == 0
    }

    constructor ()
      ensures Valid() && fresh(tab) && log == []
    {
      tab := new Entry[RL_SLOTS](_ => Entry(0, 0, 0));
      next := 0;
      log := [];
    }

    /** May `ip` try a handshake now? */
    method Allow(ip: int, now: nat) returns (allowed: bool)
      requires Valid() && now > 0
      modifies this`log, tab
      ensures Valid() && Asked(old(log), log, ip, now)
      ensures allowed <==> !Blocked(old(log), ip, now)
    {
      IndexAtInjective(|log|);
      hide IndexAt;
      for i := 0 to RL_SLOTS
        invariant Valid() && log == old(log) && tab[..] == old(tab[..])
        invariant forall s :: 0 <= s < i && IndexAt(|log|, s) >= 0 ==> tab[s].ip != ip
      {
        if tab[i].ip != ip || tab[i].since == 0 {
          continue;
        }
        ghost var k := IndexAt(|log|, i);
        if now - tab[i].since > RL_WINDOW_S {
          tab[i] := tab[i].(fails := 0, since := now);
          log := log[k := Entry(ip, 0, now)];
        }
        return tab[i].fails < RL_MAX_FAILS;
      }
      NoneOf(ip);
      return true;
    }

    /** No slot has the address, so no live entry does. */
    lemma NoneOf(ip: int)
      requires Valid() && forall s :: 0 <= s < RL_SLOTS && IndexAt(|log|, s) >= 0 ==> tab[s].ip != ip
      ensures forall k :: Live(log, k) ==> log[k].ip != ip
    {
      forall k | Live(log, k)
        ensures log[k].ip != ip
      {
        IndexAtLive(log, k);
      }
    }

    /** Record a failed handshake. */
    method Fail(ip: int, now: nat)
      requires Valid() && now > 0
      requires forall k :: Live(log, k) && log[k].ip == ip ==> log[k].fails < RL_MAX_FAILS
      modifies this, tab
      ensures Valid() && Failed(old(log), log, ip, now)
    {
      IndexAtInjective(|log|);
      hide IndexAt;
      for i := 0 to RL_SLOTS
        invariant Valid() && log == old(log) && next == old(next) && tab[..] == old(tab[..])
        invariant forall s :: 0 <= s < i && IndexAt(|log|, s) >= 0 ==> tab[s].ip != ip
      {
        if tab[i].ip == ip && tab[i].since != 0 {
          ghost var k := IndexAt(|log|, i);
          CountUpSound(log, k);
          tab[i] := tab[i].(fails := tab[i].fails + 1);
          log := log[k := log[k].(fails := log[k].fails + 1)];
          return;
        }
      }
      NoneOf(ip);
      InsertSound(log, ip, now);
      Insert(Entry(ip, 1, now));
    }

    /** Overwrite the oldest slot. */
    method Insert(e: Entry)
      requires Valid() && Sound(log + [e])
      modifies this, tab
      ensures Valid() && log == old(log) + [e]
    {
      tab[next] := e;
      next := (next + 1) % RL_SLOTS;
      forall s | 0 <= s < RL_SLOTS
        ensures IndexAt(|log| + 1, s) == if s == |log| % RL_SLOTS then |log| else IndexAt(|log|, s)
      {
        IndexAtNext(|log|, s);
      }
      log := log + [e];
    }

    /** What the serving loop does with one remote connection. */
    method Connect(a: Attempt) returns (admitted: bool)
      requires Valid() && 0 < a.now <= a.end
      modifies this, tab
      ensures Valid() && Accepted(old(log), log, a)
      ensures admitted <==> !Blocked(old(log), a.ip, a.now) && a.handshakeOk
    {
      var allowed := Allow(a.ip, a.now);
      ghost var mid := log;
      if !allowed {
        return false;
      }
      if !a.handshakeOk {
        Fail(a.ip, a.end);
        return false;
      }
      return true;
    }

    /** Any number of connections: who was admitted, and a run. */
    method Serve(tries: seq<Attempt>) returns (admitted: seq<bool>, ghost logs: seq<seq<Entry>>)
      requires Valid()
      requires forall i :: 0 <= i < |tries| ==> tries[i].now > 0
      requires InOrder(tries)
      modifies this, tab
      ensures Valid() && IsRun(logs, tries) && logs[0] == old(log) && logs[|tries|] == log
      ensures |admitted| == |tries|
      ensures forall i :: 0 <= i < |tries| ==>
                (admitted[i] <==> !Blocked(logs[i], tries[i].ip, tries[i].now) && tries[i].handshakeOk)
    {
      admitted, logs := [], [log];
      for i := 0 to |tries|
        invariant Valid() && |logs| == i + 1 && logs[0] == old(log) && logs[i] == log && |admitted| == i
        invariant forall j :: 0 <= j < i ==> Accepted(logs[j], logs[j + 1], tries[j])
        invariant forall j :: 0 <= j < i ==>
                    (admitted[j] <==> !Blocked(logs[j], tries[j].ip, tries[j].now) && tries[j].handshakeOk)
      {
        var yes := Connect(tries[i]);
        ghost var older := logs;
        logs, admitted := logs + [log], admitted + [yes];
        assert forall j :: 0 <= j <= i ==> logs[j] == older[j];
        assert Accepted(logs[i], logs[i + 1], tries[i]);
      }
    }
  }
}
