/**
 * The multi most-common-in-window prediction of SP 800-90B, section 6.3.7: several sliding windows
 * kept up to date sample by sample, a prediction from each, and a scoreboard that says which
 * window to believe. What the entropy figure is computed from, the list of correct predictions, is
 * modelled; the figure itself is floating point and is not.
 */
module MultiMcw {
  import opened Options
  import TupleCounts

  // ---- one window ------------------------------------------------------------------------------------

  /** The index of the last `v` in `s`, or -1. */
  function Last<T(==)>(s: seq<T>, v: T): (k: int)
    ensures -1 <= k < |s|
    ensures k >= 0 ==> s[k] == v
    ensures forall j :: k < j < |s| ==> s[j] != v
  {
    if s == [] then -1
    else if s[|s| - 1] == v then |s| - 1
    else Last(s[..|s| - 1], v)
  }

  /** The samples a window of `w` shows before sample `p` (counting from 0). */
  function Window<T>(s: seq<T>, p: nat, w: nat): seq<T>
    requires p <= |s|
  {
    if p >= w then s[p - w..p] else s[..p]
  }

  /** Most frequent, and among the most frequent the one seen last. */
  ghost predicate MostCommon<T(!new)>(win: seq<T>, v: T) {
    && v in win
    && forall x :: x in win && x != v ==>
         multiset(win)[x] < multiset(win)[v]
         || (multiset(win)[x] == multiset(win)[v] && Last(win, x) < Last(win, v))
  }

  /** A full window predicts its most common value; a window not yet full predicts nothing. */
  ghost predicate Predicts<T(!new)>(s: seq<T>, p: nat, w: nat, f: Option<T>)
    requires p <= |s|
  {
    if p >= w then f.Some? && MostCommon(Window(s, p, w), f.value) else f.None?
  }

  lemma PredictionUnique<T(!new)>(s: seq<T>, p: nat, w: nat, f: Option<T>, g: Option<T>)
    requires p <= |s| && Predicts(s, p, w, f) && Predicts(s, p, w, g)
    ensures f == g
  {
  }

  // ---- the scoreboard ------------------------------------------------------------------------------------

  datatype Score = Score(board: seq<nat>, winner: nat) {
    predicate Ok(n: nat) {
      |board| == n && winner < n
    }

    ghost predicate WinnerLeads() {
      winner < |board| && forall j :: 0 <= j < |board| ==> board[j] <= board[winner]
    }
  }

  /** Window `j` was right or wrong about `x`; a tie goes to the window being updated. */
  function Mark<T(==)>(sc: Score, j: nat, f: Option<T>, x: T): (r: Score)
    requires sc.Ok(|sc.board|) && j < |sc.board|
    ensures r.Ok(|sc.board|)
  {
    if f == Some(x) then
      var board := sc.board[j := sc.board[j] + 1];
      Score(board, if board[j] >= board[sc.winner] then j else sc.winner)
    else sc
  }

  /** The first `j` windows marked, in order. */
  function MarkAll<T(==)>(sc: Score, fs: seq<Option<T>>, x: T, j: nat): (r: Score)
    requires sc.Ok(|fs|) && j <= |fs|
    ensures r.Ok(|fs|)
  {
    if j == 0 then sc else Mark(MarkAll(sc, fs, x, j - 1), j - 1, fs[j - 1], x)
  }

  /** The scoreboard after `k` predicted samples. */
  function ScoreAfter<T(==)>(n: nat, fs: seq<seq<Option<T>>>, xs: seq<T>, k: nat): (r: Score)
    requires n > 0 && k <= |fs| && k <= |xs| && forall i :: 0 <= i < |fs| ==> |fs[i]| == n
    ensures r.Ok(n)
  {
    if k == 0 then Score(seq(n, _ => 0), 0)
    else MarkAll(ScoreAfter(n, fs, xs, k - 1), fs[k - 1], xs[k - 1], n)
  }

  lemma {:induction false} MarkAllLeads<T>(sc: Score, fs: seq<Option<T>>, x: T, j: nat)
    requires sc.Ok(|fs|) && j <= |fs| && sc.WinnerLeads()
    ensures MarkAll(sc, fs, x, j).WinnerLeads()
    ensures forall i :: 0 <= i < |fs| ==>
              MarkAll(sc, fs, x, j).board[i] == sc.board[i] + if i < j && fs[i] == Some(x) then 1 else 0
  {
    if j > 0 {
      MarkAllLeads(sc, fs, x, j - 1);
    }
  }

  /** Only a window that was just right can become the winner. */
  lemma {:induction false} MarkAllWinner<T>(sc: Score, fs: seq<Option<T>>, x: T, j: nat)
    requires sc.Ok(|fs|) && j <= |fs|
    ensures var w := MarkAll(sc, fs, x, j).winner; w == sc.winner || fs[w] == Some(x)
  {
    if j > 0 {
      MarkAllWinner(sc, fs, x, j - 1);
    }
  }

  /** How often window `j` was right about the first `k` samples. */
  function Hits<T(==)>(fs: seq<seq<Option<T>>>, xs: seq<T>, j: nat, k: nat): nat
    requires k <= |fs| && k <= |xs| && forall i :: 0 <= i < |fs| ==> j < |fs[i]|
  {
    if k == 0 then 0 else Hits(fs, xs, j, k - 1) + if fs[k - 1][j] == Some(xs[k - 1]) then 1 else 0
  }

  /** The board counts each window's correct predictions, and the winner has as many as any. */
  lemma {:induction false} ScoreAfterLeads<T>(n: nat, fs: seq<seq<Option<T>>>, xs: seq<T>, k: nat)
    requires n > 0 && k <= |fs| && k <= |xs| && forall i :: 0 <= i < |fs| ==> |fs[i]| == n
    ensures ScoreAfter(n, fs, xs, k).WinnerLeads()
    ensures forall j :: 0 <= j < n ==> ScoreAfter(n, fs, xs, k).board[j] == Hits(fs, xs, j, k)
  {
    if k > 0 {
      ScoreAfterLeads(n, fs, xs, k - 1);
      MarkAllLeads(ScoreAfter(n, fs, xs, k - 1), fs[k - 1], xs[k - 1], n);
    }
  }

  // ---- ties ------------------------------------------------------------------------------------------

  /** The last of the first `k` samples that window `j` was right about, or -1. */
  function LastHit<T(==)>(fs: seq<seq<Option<T>>>, xs: seq<T>, j: nat, k: nat): (i: int)
    requires k <= |fs| && k <= |xs| && forall i :: 0 <= i < |fs| ==> j < |fs[i]|
    ensures -1 <= i < k
  {
    if k == 0 then -1
    else if fs[k - 1][j] == Some(xs[k - 1]) then k - 1 else LastHit(fs, xs, j, k - 1)
  }

  /** Of the windows with the top score the winner is the one that was right last, and of those right
      about the same sample the one behind the others. With no score at all it is the first. */
  predicate LatestLeads(sc: Score, last: seq<int>)
    requires sc.Ok(|last|)
  {
    && (sc.board[sc.winner] == 0 ==> sc.winner == 0)
    && forall i :: 0 <= i < |last| && i != sc.winner && sc.board[i] == sc.board[sc.winner] > 0 ==>
         last[i] < last[sc.winner] || (last[i] == last[sc.winner] && i < sc.winner)
  }

  /** The last hits once the first `j` windows have seen sample `now`. */
  function Stamped<T(==)>(last: seq<int>, fs: seq<Option<T>>, x: T, j: nat, now: int): (r: seq<int>)
    requires |last| == |fs|
    ensures |r| == |fs|
  {
    seq(|fs|, i requires 0 <= i < |fs| => if i < j && fs[i] == Some(x) then now else last[i])
  }

  lemma StampedNext<T>(last: seq<int>, fs: seq<Option<T>>, x: T, j: nat, now: int)
    requires 0 < j <= |fs| == |last| && forall i :: 0 <= i < |last| ==> last[i] < now
    ensures var before := Stamped(last, fs, x, j - 1, now);
            && Stamped(last, fs, x, j, now) == (if fs[j - 1] == Some(x) then before[j - 1 := now] else before)
            && forall i :: 0 <= i < |before| ==> if i < j - 1 then before[i] <= now else before[i] < now
  {
  }

  lemma MarkAllNext<T>(sc: Score, fs: seq<Option<T>>, x: T, j: nat)
    requires sc.Ok(|fs|) && 0 < j <= |fs| && sc.WinnerLeads()
    ensures var before := MarkAll(sc, fs, x, j - 1);
            before.WinnerLeads() && MarkAll(sc, fs, x, j) == Mark(before, j - 1, fs[j - 1], x)
  {
    MarkAllLeads(sc, fs, x, j - 1);
  }

  lemma {:induction false} MarkAllTies<T>(sc: Score, last: seq<int>, fs: seq<Option<T>>, x: T, j: nat, now: int)
    requires |last| == |fs| && sc.Ok(|fs|) && j <= |fs| && sc.WinnerLeads() && LatestLeads(sc, last)
    requires forall i :: 0 <= i < |last| ==> last[i] < now
    ensures LatestLeads(MarkAll(sc, fs, x, j), Stamped(last, fs, x, j, now))
  {
    if j == 0 {
      assert Stamped(last, fs, x, j, now) == last;
    } else {
      hide *;
      MarkAllTies(sc, last, fs, x, j - 1, now);
      MarkAllNext(sc, fs, x, j);
      StampedNext(last, fs, x, j, now);
      MarkTies(MarkAll(sc, fs, x, j - 1), Stamped(last, fs, x, j - 1, now), j - 1, fs[j - 1], x, now);
    }
  }

  lemma MarkTies<T>(sc: Score, last: seq<int>, j: nat, f: Option<T>, x: T, now: int)
    requires sc.Ok(|last|) && j < |last| && sc.WinnerLeads() && LatestLeads(sc, last)
    requires forall i :: 0 <= i < |last| ==> if i < j then last[i] <= now else last[i] < now
    ensures LatestLeads(Mark(sc, j, f, x), if f == Some(x) then last[j := now] else last)
  {
  }

  lemma {:induction false} WinnerWasLast<T>(n: nat, fs: seq<seq<Option<T>>>, xs: seq<T>, k: nat)
    requires n > 0 && k <= |fs| && k <= |xs| && forall i :: 0 <= i < |fs| ==> |fs[i]| == n
    ensures LatestLeads(ScoreAfter(n, fs, xs, k), seq(n, j requires 0 <= j < n => LastHit(fs, xs, j, k)))
  {
    if k > 0 {
      var last := seq(n, j requires 0 <= j < n => LastHit(fs, xs, j, k - 1));
      WinnerWasLast(n, fs, xs, k - 1);
      ScoreAfterLeads(n, fs, xs, k - 1);
      MarkAllTies(ScoreAfter(n, fs, xs, k - 1), last, fs[k - 1], xs[k - 1], n, k - 1);
      assert Stamped(last, fs[k - 1], xs[k - 1], n, k - 1) == seq(n, j requires 0 <= j < n => LastHit(fs, xs, j, k));
    }
  }

  // ---- the incremental window ----------------------------------------------------------------------------

  /** A counter holds exactly the multiset of the window: no zero entries, no missing ones. */
  ghost predicate Tracks<T(!new)>(cnt: map<T, nat>, win: seq<T>) {
    && (forall v :: v in cnt <==> v in win)
    && (forall v :: v in cnt ==> cnt[v] == multiset(win)[v])
  }

  /** The last position (counting from 1) of every value seen so far. */
  ghost predicate Remembers<T(!new)>(recent: map<T, nat>, seen: seq<T>) {
    forall v :: v in seen ==> v in recent && recent[v] == Last(seen, v) + 1
  }

  function CountUp<T(==)>(cnt: map<T, nat>, x: T): map<T, nat> {
    cnt[x := (if x in cnt then cnt[x] else 0) + 1]
  }

  /** One less of `x`, the entry deleted when nothing is left. */
  function CountDown<T(==)>(cnt: map<T, nat>, x: T): map<T, nat>
    requires x in cnt && cnt[x] > 0
  {
    if cnt[x] == 1 then cnt - {x} else cnt[x := cnt[x] - 1]
  }

  lemma TracksGrow<T(!new)>(cnt: map<T, nat>, win: seq<T>, x: T)
    requires Tracks(cnt, win)
    ensures Tracks(CountUp(cnt, x), win + [x])
  {
    var cnt' := CountUp(cnt, x);
    forall v | v in cnt'
      ensures cnt'[v] == multiset(win + [x])[v]
    {
      assert multiset(win)[v] == if v in cnt then cnt[v] else 0;
    }
  }

  lemma TracksShrink<T(!new)>(cnt: map<T, nat>, x: T, win: seq<T>)
    requires Tracks(cnt, [x] + win)
    ensures x in cnt && cnt[x] > 0 && Tracks(CountDown(cnt, x), win)
  {
    var all := [x] + win;
    assert multiset(all) == multiset{x} + multiset(win);
    assert all[0] == x;
    var cnt' := CountDown(cnt, x);
    forall v
      ensures v in cnt' <==> v in win
    {
      assert v in win <==> multiset(win)[v] > 0;
    }
  }

  lemma RemembersGrow<T(!new)>(recent: map<T, nat>, seen: seq<T>, x: T)
    requires Remembers(recent, seen)
    ensures Remembers(recent[x := |seen| + 1], seen + [x])
  {
    var seen' := seen + [x];
    assert seen'[..|seen'| - 1] == seen;
  }

  /** A new sample enters the window and, when it was full, the oldest one leaves. */
  method Slide<T(==, !new)>(cnt: map<T, nat>, recent: map<T, nat>, s: seq<T>, p: nat, w: nat)
    returns (cnt': map<T, nat>, recent': map<T, nat>)
    requires p < |s| && w > 0
    requires Tracks(cnt, Window(s, p, w)) && Remembers(recent, s[..p])
    ensures Tracks(cnt', Window(s, p + 1, w)) && Remembers(recent', s[..p + 1])
  {
    hide *;
    ghost var win, next := Window(s, p, w), Window(s, p + 1, w);
    WindowSlides(s, p, w);
    TracksGrow(cnt, win, s[p]);
    RemembersGrow(recent, s[..p], s[p]);
    cnt' := CountUp(cnt, s[p]);
    recent' := recent[s[p] := p + 1];
    if p + 1 - w >= 1 {
      TracksShrink(cnt', s[p - w], next);
      cnt' := CountDown(cnt', s[p - w]);
    }
  }

  lemma WindowSlides<T>(s: seq<T>, p: nat, w: nat)
    requires p < |s| && w > 0
    ensures s[..p + 1] == s[..p] + [s[p]]
    ensures Window(s, p, w) + [s[p]] == if p >= w then [s[p - w]] + Window(s, p + 1, w) else Window(s, p + 1, w)
  {
  }

  /** The prediction of one window: the maximum of the counter, then the ties, then the latest. */
  method Predict<T(==, !new)>(cnt: map<T, nat>, recent: map<T, nat>, s: seq<T>, p: nat, w: nat)
    returns (f: Option<T>)
    requires w > 0 && p <= |s|
    requires Tracks(cnt, Window(s, p, w)) && Remembers(recent, s[..p])
    ensures Predicts(s, p, w, f)
  {
    if p < w {
      return None;
    }
    ghost var win := Window(s, p, w);
    assert win[0] in cnt;
    hide Tracks, Remembers, Window, MostCommon;
    var mx := TupleCounts.MaxOf(cnt);
    var ties := set v | v in cnt && cnt[v] == mx;
    ghost var top :| top in cnt && cnt[top] == mx;
    assert top in ties;
    RemembersWindow(cnt, recent, s, p, w);
    var best := Latest(ties, recent);
    BestIsMostCommon(cnt, recent, s, p, w, best);
    return Some(best);
  }

  lemma RemembersWindow<T(!new)>(cnt: map<T, nat>, recent: map<T, nat>, s: seq<T>, p: nat, w: nat)
    requires w <= p <= |s|
    requires Tracks(cnt, Window(s, p, w)) && Remembers(recent, s[..p])
    ensures forall v :: v in cnt ==> v in recent && recent[v] == Last(Window(s, p, w), v) + (p - w) + 1
  {
    forall v | v in cnt
      ensures v in recent && recent[v] == Last(Window(s, p, w), v) + (p - w) + 1
    {
      LastInWindow(s, p, w, v);
    }
  }

  lemma BestIsMostCommon<T(!new)>(cnt: map<T, nat>, recent: map<T, nat>, s: seq<T>, p: nat, w: nat, best: T)
    requires w <= p <= |s|
    requires Tracks(cnt, Window(s, p, w)) && Remembers(recent, s[..p])
    requires best in cnt && forall v :: v in cnt ==> cnt[v] <= cnt[best]
    requires forall v :: v in cnt && cnt[v] == cnt[best] ==> v in recent && best in recent && recent[v] <= recent[best]
    ensures MostCommon(Window(s, p, w), best)
  {
    var win := Window(s, p, w);
    RemembersWindow(cnt, recent, s, p, w);
    forall x | x in win && x != best
      ensures multiset(win)[x] < multiset(win)[best]
           || (multiset(win)[x] == multiset(win)[best] && Last(win, x) < Last(win, best))
    {
      assert x in cnt && Last(win, x) >= 0 by {
        LastInWindow(s, p, w, x);
      }
      LastDistinct(win, x, best);
    }
  }

  /** `max(ties, key=...)`: the tied value seen last. */
  method Latest<T(==)>(ties: set<T>, recent: map<T, nat>) returns (best: T)
    requires ties != {} && forall v :: v in ties ==> v in recent
    ensures best in ties && forall v :: v in ties ==> recent[v] <= recent[best]
  {
    best :| best in ties;
    var left := ties - {best};
    while left != {}
      invariant left <= ties && best in ties
      invariant forall v :: v in ties && v !in left ==> recent[v] <= recent[best]
      decreases |left|
    {
      var v :| v in left;
      if recent[v] > recent[best] {
        best := v;
      }
      left := left - {v};
    }
  }

  /** A value of the window was last seen inside it: its remembered position is its position there. */
  lemma LastInWindow<T>(s: seq<T>, p: nat, w: nat, v: T)
    requires p <= |s| && p >= w && v in Window(s, p, w)
    ensures v in s[..p] && Last(s[..p], v) == Last(Window(s, p, w), v) + (p - w)
    ensures Last(Window(s, p, w), v) >= 0
  {
    var win := Window(s, p, w);
    var i :| 0 <= i < |win| && win[i] == v;
    assert s[..p][p - w + i] == v;
    var a, b := Last(s[..p], v), Last(win, v);
    assert b >= 0 && s[..p][p - w + b] == v;
    assert a >= p - w && win[a - (p - w)] == v;
  }

  lemma LastDistinct<T>(s: seq<T>, x: T, y: T)
    requires x != y && Last(s, x) >= 0
    ensures Last(s, x) != Last(s, y)
  {
  }

  // ---- the whole estimator -----------------------------------------------------------------------------------

  /** Everything the loop carries before sample `p`: each window's counter and memory. */
  ghost predicate Caught<T(!new)>(s: seq<T>, p: nat, ws: seq<nat>, counts: seq<map<T, nat>>, recent: seq<map<T, nat>>)
    requires p <= |s|
  {
    && |counts| == |recent| == |ws|
    && forall j :: 0 <= j < |ws| ==> Tracks(counts[j], Window(s, p, ws[j])) && Remembers(recent[j], s[..p])
  }

  ghost predicate AllPredict<T(!new)>(s: seq<T>, p: nat, ws: seq<nat>, fs: seq<Option<T>>)
    requires p <= |s|
  {
    |fs| == |ws| && forall j :: 0 <= j < |ws| ==> Predicts(s, p, ws[j], fs[j])
  }

  method PredictAll<T(==, !new)>(s: seq<T>, p: nat, ws: seq<nat>, counts: seq<map<T, nat>>, recent: seq<map<T, nat>>)
    returns (fs: seq<Option<T>>)
    requires p <= |s| && Caught(s, p, ws, counts, recent)
    requires forall j :: 0 <= j < |ws| ==> ws[j] > 0
    ensures AllPredict(s, p, ws, fs)
  {
    hide Tracks, Remembers, Predicts, Window;
    fs := [];
    for j := 0 to |ws|
      invariant |fs| == j && forall i :: 0 <= i < j ==> Predicts(s, p, ws[i], fs[i])
    {
      var f := Predict(counts[j], recent[j], s, p, ws[j]);
      fs := fs + [f];
    }
  }

  method SlideAll<T(==, !new)>(s: seq<T>, p: nat, ws: seq<nat>, counts: seq<map<T, nat>>, recent: seq<map<T, nat>>)
    returns (counts': seq<map<T, nat>>, recent': seq<map<T, nat>>)
    requires p < |s| && Caught(s, p, ws, counts, recent)
    requires forall j :: 0 <= j < |ws| ==> ws[j] > 0
    ensures Caught(s, p + 1, ws, counts', recent')
  {
    hide Tracks, Remembers, Window;
    counts', recent' := [], [];
    for j := 0 to |ws|
      invariant |counts'| == |recent'| == j
      invariant forall i :: 0 <= i < j ==>
                  Tracks(counts'[i], Window(s, p + 1, ws[i])) && Remembers(recent'[i], s[..p + 1])
    {
      var c, r := Slide(counts[j], recent[j], s, p, ws[j]);
      counts', recent' := counts' + [c], recent' + [r];
    }
  }

  /** The loop over the scoreboard. */
  method Tally<T(==)>(sc: Score, fs: seq<Option<T>>, x: T) returns (r: Score)
    requires sc.Ok(|fs|)
    ensures r == MarkAll(sc, fs, x, |fs|)
  {
    var board, winner: nat := sc.board, sc.winner;
    for j := 0 to |fs|
      invariant |board| == |fs| && winner < |fs|
      invariant Score(board, winner) == MarkAll(sc, fs, x, j)
    {
      if fs[j].Some? && fs[j].value == x {
        board := board[j := board[j] + 1];
        if board[j] >= board[winner] {
          winner := j;
        }
      }
    }
    r := Score(board, winner);
  }

  /** The scoreboard before a step does not depend on what comes after. */
  lemma {:induction false} ScorePrefix<T>(n: nat, fs: seq<seq<Option<T>>>, f: seq<Option<T>>, xs: seq<T>, k: nat)
    requires n > 0 && |f| == n && k <= |fs| && k <= |xs| && forall i :: 0 <= i < |fs| ==> |fs[i]| == n
    ensures ScoreAfter(n, fs + [f], xs, k) == ScoreAfter(n, fs, xs, k)
  {
    if k > 0 {
      ScorePrefix(n, fs, f, xs, k - 1);
    }
  }

  /** The verdicts so far: each the verdict on the window the scoreboard believed at that step, which
      predicted something; and the scoreboard after the last of them. */
  ghost predicate Recorded<T(!new)>(s: seq<T>, ws: seq<nat>, freqs: seq<seq<Option<T>>>, correct: seq<nat>,
                                    score: Score)
    requires |ws| > 0
  {
    && |correct| == |freqs| && ws[0] + |freqs| <= |s|
    && (forall k :: 0 <= k < |freqs| ==> AllPredict(s, ws[0] + k, ws, freqs[k]))
    && (forall k :: 0 <= k < |freqs| ==> |freqs[k]| == |ws|)
    && score == ScoreAfter(|ws|, freqs, s[ws[0]..], |freqs|)
    && (forall k :: 0 <= k < |freqs| ==> Verdict(s, ws, freqs, k, correct[k]))
  }

  ghost predicate Verdict<T(!new)>(s: seq<T>, ws: seq<nat>, freqs: seq<seq<Option<T>>>, k: nat, c: nat)
    requires |ws| > 0 && k < |freqs| && ws[0] + k < |s| && ws[0] + |freqs| <= |s|
    requires forall i :: 0 <= i < |freqs| ==> |freqs[i]| == |ws|
  {
    var f := freqs[k][ScoreAfter(|ws|, freqs, s[ws[0]..], k).winner];
    f.Some? && c == if f.value == s[ws[0] + k] then 1 else 0
  }

  lemma VerdictKept<T(!new)>(s: seq<T>, ws: seq<nat>, freqs: seq<seq<Option<T>>>, fs: seq<Option<T>>, k: nat, c: nat)
    requires |ws| == |fs| > 0 && k < |freqs| && ws[0] + |freqs| < |s|
    requires forall i :: 0 <= i < |freqs| ==> |freqs[i]| == |ws|
    requires Verdict(s, ws, freqs, k, c)
    ensures Verdict(s, ws, freqs + [fs], k, c)
  {
    ScorePrefix(|ws|, freqs, fs, s[ws[0]..], k);
  }

  lemma RecordStep<T(!new)>(s: seq<T>, ws: seq<nat>, freqs: seq<seq<Option<T>>>, correct: seq<nat>, score: Score,
                            fs: seq<Option<T>>)
    requires |ws| > 0 && Recorded(s, ws, freqs, correct, score) && ws[0] + |freqs| < |s|
    requires AllPredict(s, ws[0] + |freqs|, ws, fs) && fs[score.winner].Some?
    ensures var x := s[ws[0] + |freqs|];
            Recorded(s, ws, freqs + [fs], correct + [if fs[score.winner] == Some(x) then 1 else 0],
                     MarkAll(score, fs, x, |fs|))
  {
    hide Predicts, MarkAll, Window, Verdict;
    var k0 := |freqs|;
    var x := s[ws[0] + k0];
    var c := if fs[score.winner] == Some(x) then 1 else 0;
    var freqs' := freqs + [fs];
    var xs := s[ws[0]..];
    ScorePrefix(|ws|, freqs, fs, xs, k0);
    assert ScoreAfter(|ws|, freqs', xs, k0 + 1) == MarkAll(score, fs, x, |fs|);
    assert Verdict(s, ws, freqs', k0, c) by {
      LastVerdict(s, ws, freqs, fs, score);
    }
    forall k | 0 <= k < k0
      ensures Verdict(s, ws, freqs', k, correct[k])
    {
      VerdictKept(s, ws, freqs, fs, k, correct[k]);
    }
  }

  lemma LastVerdict<T(!new)>(s: seq<T>, ws: seq<nat>, freqs: seq<seq<Option<T>>>, fs: seq<Option<T>>, score: Score)
    requires |ws| == |fs| > 0 && ws[0] + |freqs| < |s|
    requires forall i :: 0 <= i < |freqs| ==> |freqs[i]| == |ws|
    requires score == ScoreAfter(|ws|, freqs, s[ws[0]..], |freqs|) && fs[score.winner].Some?
    ensures Verdict(s, ws, freqs + [fs], |freqs|, if fs[score.winner] == Some(s[ws[0] + |freqs|]) then 1 else 0)
  {
    ScorePrefix(|ws|, freqs, fs, s[ws[0]..], |freqs|);
  }

  /**
   * The list of correct predictions. `freqs[k]` records, for the contract alone, what each window
   * predicted for sample `ws[0] + k`; `PredictionUnique` says it could be nothing else. Too short an
   * input gives no list at all.
   */
  method Correct<T(==, !new)>(s: seq<T>, ws: seq<nat>)
    returns (correct: Option<seq<nat>>, ghost freqs: seq<seq<Option<T>>>, score: Score)
    requires |ws| > 0 && forall j :: 0 <= j < |ws| ==> ws[j] > 0
    ensures correct.None? <==> |s| <= ws[0] + 1
    ensures correct.Some? ==> |correct.value| == |s| - ws[0] && Recorded(s, ws, freqs, correct.value, score)
  {
    hide Tracks, Remembers, Predicts, Window, MarkAll, ScoreAfter, Verdict;
    freqs := [];
    score := Score(seq(|ws|, _ => 0), 0);
    var w1 := ws[0];
    if |s| <= w1 + 1 {
      return None, [], score;
    }
    var list: seq<nat> := [];
    var counts: seq<map<T, nat>> := seq(|ws|, _ => map[]);
    var recent: seq<map<T, nat>> := seq(|ws|, _ => map[]);
    StartOk(s, ws, score, counts, recent);
    for p := 0 to |s|
      invariant Caught(s, p, ws, counts, recent)
      invariant |freqs| == if p >= w1 then p - w1 else 0
      invariant Recorded(s, ws, freqs, list, score)
      invariant score.Ok(|ws|) && (score.winner == 0 || p >= ws[score.winner])
    {
      if p >= w1 {
        var fs := PredictAll(s, p, ws, counts, recent);
        WinnerPredicts(s, p, ws, fs, score);
        RecordStep(s, ws, freqs, list, score, fs);
        var pred := fs[score.winner];
        list := list + [if pred == Some(s[p]) then 1 else 0];
        freqs := freqs + [fs];
        score := Tally(score, fs, s[p]);
      }
      counts, recent := SlideAll(s, p, ws, counts, recent);
    }
    return Some(list), freqs, score;
  }

  lemma StartOk<T(!new)>(s: seq<T>, ws: seq<nat>, score: Score, counts: seq<map<T, nat>>, recent: seq<map<T, nat>>)
    requires |ws| > 0 && ws[0] <= |s| && score == Score(seq(|ws|, _ => 0), 0)
    requires |counts| == |recent| == |ws| && forall j :: 0 <= j < |ws| ==> counts[j] == recent[j] == map[] && ws[j] > 0
    ensures Caught(s, 0, ws, counts, recent) && Recorded(s, ws, [], [], score)
  {
    forall j | 0 <= j < |ws|
      ensures Tracks(counts[j], Window(s, 0, ws[j])) && Remembers(recent[j], s[..0])
    {
      assert Window(s, 0, ws[j]) == [];
    }
  }

  /** The believed window is one that predicts, and stays so whatever the next sample is. */
  lemma WinnerPredicts<T(!new)>(s: seq<T>, p: nat, ws: seq<nat>, fs: seq<Option<T>>, score: Score)
    requires |ws| > 0 && ws[0] <= p < |s| && AllPredict(s, p, ws, fs) && score.Ok(|ws|)
    requires score.winner == 0 || p >= ws[score.winner]
    ensures fs[score.winner].Some?
    ensures var w := MarkAll(score, fs, s[p], |fs|).winner; w == 0 || p + 1 >= ws[w]
  {
    assert Predicts(s, p, ws[score.winner], fs[score.winner]);
    MarkAllWinner(score, fs, s[p], |fs|);
    assert Predicts(s, p, ws[MarkAll(score, fs, s[p], |fs|).winner], fs[MarkAll(score, fs, s[p], |fs|).winner]);
  }
}
