/**
 * What of an expression survives when calls are stripped from it: what is a call, what it takes with it,
 * and that nothing else is lost.
 */
module Survival {
  import opened Marks

  /** What stands last before `k`, spaces skipped: a character, or a call; and behind a group, what
      stands last in it, or before it if it is empty. */
  function Seen(cls: Classes, expr: string, k: nat): (o: Origin)
    requires k <= |expr|
    ensures !o.Blank? ==> o.at < k
    decreases k, 0
  {
    if k == 0 then Blank
    else if cls.space(expr[k - 1]) then Seen(cls, expr, k - 1)
    else if Pair(expr, k - 1) then
      var p := Partner(expr, k - 1);
      if IsCall(cls, expr, p) then Token(p)
      else if Seen(cls, expr, k - 1) == Of(p) then Seen(cls, expr, p)
      else Seen(cls, expr, k - 1)
    else Of(k - 1)
  }

  /** The parenthesis at `p` opens a call: a word stands before it, or another call. */
  predicate IsCall(cls: Classes, expr: string, p: nat)
    requires p <= |expr|
    decreases p, 1
  {
    match Seen(cls, expr, p)
    case Blank => false
    case Of(e) => cls.word(expr[e])
    case Token(_) => true
  }

  /** The name of the call that opens at `p`: the whole word before it, or the call before it. */
  ghost predicate Names(cls: Classes, expr: string, p: nat, o: Origin)
    requires p <= |expr|
  {
    match Seen(cls, expr, p)
    case Blank => false
    case Of(e) => o.Of? && o.at <= e && forall x :: o.at <= x <= e ==> cls.word(expr[x])
    case Token(c) => o == Token(c)
  }

  /** The call closed at `q` takes `o` with it: it stands between the parentheses, or is the name. */
  ghost predicate Erases(cls: Classes, expr: string, q: nat, o: Origin) {
    && Pair(expr, q) && !o.Blank?
    && var p := Partner(expr, q);
       IsCall(cls, expr, p) && (p < o.at < q || Names(cls, expr, p, o))
  }

  ghost predicate Gone(cls: Classes, expr: string, k: nat, o: Origin) {
    exists q :: 0 <= q < k && Erases(cls, expr, q, o)
  }

  /** A character that is neither parenthesis nor space. */
  predicate Visible(cls: Classes, c: char) {
    c != '(' && c != ')' && !cls.space(c)
  }

  /** What the first `k` characters can contribute: themselves, and a token for each call closed. */
  ghost predicate Born(cls: Classes, expr: string, k: nat, o: Origin) {
    match o
    case Blank => false
    case Of(i) => i < k && i < |expr| && Visible(cls, expr[i])
    case Token(p) => exists q :: 0 <= q < k && ClosesCall(cls, expr, q, p)
  }

  predicate ClosesCall(cls: Classes, expr: string, q: nat, p: nat) {
    Pair(expr, q) && Partner(expr, q) == p && IsCall(cls, expr, p)
  }

  /** No opening parenthesis follows a word or a closing one, spaces skipped. */
  ghost predicate CallFree(cls: Classes, expr: string) {
    forall p, e :: 0 <= e < p < |expr| && expr[p] == '(' && Spaces(cls, expr, e + 1, p) ==>
      !cls.word(expr[e]) && expr[e] != ')'
  }

  predicate Spaces(cls: Classes, s: string, i: nat, j: nat)
    requires i <= j <= |s|
  {
    forall k :: i <= k < j ==> cls.space(s[k])
  }

  function Plain(cls: Classes, s: string): string {
    if s == "" then ""
    else
      var c := s[|s| - 1];
      Plain(cls, s[..|s| - 1]) + if Visible(cls, c) then [c] else ""
  }

  // ---- what the pass keeps in order ------------------------------------------------------------------

  predicate Paren(c: char) {
    c == '(' || c == ')'
  }

  predicate Honest(expr: string, m: Mark) {
    match m.from
    case Of(i) => i < |expr| && m.ch == expr[i]
    case Token(_) => m.ch == '0'
    case Blank => m.ch == ' '
  }

  /** What may stand before what: a character only behind its neighbour, or behind a blank that took the
      place of a parenthesis; a token only behind a blank. */
  predicate Follows(expr: string, before: Origin, o: Origin) {
    match o
    case Of(i) => 0 < i <= |expr| && (before == Of(i - 1) || (before.Blank? && Paren(expr[i - 1])))
    case Token(_) => before.Blank?
    case Blank => true
  }

  ghost predicate Linked(expr: string, t: Text) {
    && (forall i :: 0 <= i < |t| ==> Honest(expr, t[i]))
    && (t != [] ==> t[0].from.Blank? || t[0].from == Of(0))
    && (forall i :: 0 < i < |t| ==> Follows(expr, t[i - 1].from, t[i].from))
  }

  /** Everything stands in the order of its places, all of them before `k`. */
  ghost predicate Ordered(k: nat, t: Text) {
    && (forall i :: 0 <= i < |t| && !t[i].from.Blank? ==> t[i].from.at < k)
    && (forall i, j :: 0 <= i < j < |t| && !t[i].from.Blank? && !t[j].from.Blank? ==> t[i].from.at < t[j].from.at)
  }

  predicate Ends(expr: string, k: nat, t: Text)
    requires k <= |expr|
  {
    if k == 0 then t == []
    else t != [] && var o := t[|t| - 1].from; o == Of(k - 1) || (o.Blank? && Paren(expr[k - 1]))
  }

  ghost predicate Sound(expr: string, k: nat, t: Text)
    requires k <= |expr|
  {
    Linked(expr, t) && Ordered(k, t) && Ends(expr, k, t)
  }

  lemma {:induction false} AfterSound(cls: Classes, expr: string, k: nat)
    requires cls.Sane() && k <= |expr|
    ensures Sound(expr, k, After(cls, expr, k))
  {
    if k > 0 {
      var q := k - 1;
      Frame(cls, expr, q);
      AfterSound(cls, expr, q);
      if Pair(expr, q) {
        AfterSound(cls, expr, Partner(expr, q));
        Reduced(cls, expr, q);
        hide *;
        ClosedSound(cls, expr, q, Partner(expr, q), After(cls, expr, Partner(expr, q)), After(cls, expr, q));
      } else {
        FrameAppended(cls, expr, q);
        hide *;
        AppendedSound(expr, q, After(cls, expr, q));
      }
    }
  }

  lemma AppendedSound(expr: string, k: nat, t: Text)
    requires k < |expr| && Sound(expr, k, t)
    ensures Sound(expr, k + 1, t + [Mark(expr[k], Of(k))])
  {
  }

  lemma ClosedSound(cls: Classes, expr: string, q: nat, p: nat, h: Text, t: Text)
    requires p < q < |expr| && expr[q] == ')' && Sound(expr, p, h) && Sound(expr, q, t)
    requires |h| < |t| && t[..|h|] == h && t[|h|] == Mark('(', Of(p))
    ensures Sound(expr, q + 1, Closed(cls, h, t, p))
  {
    var end := Trim(cls, h);
    var cut := NameStart(cls, h, end);
    if cut < end {
      CallSound(expr, q, p, h, cut);
    } else {
      GroupIs(h, t);
      GroupSound(expr, q, p, t, |h|);
    }
  }

  lemma CallSound(expr: string, q: nat, p: nat, h: Text, cut: nat)
    requires p < q < |expr| && expr[q] == ')' && Sound(expr, p, h) && cut < |h|
    ensures Sound(expr, q + 1, h[..cut] + [BLANK, Mark('0', Token(p)), BLANK])
  {
  }

  lemma GroupIs(h: Text, t: Text)
    requires |h| < |t| && t[..|h|] == h
    ensures h + [BLANK] + t[|h| + 1..] + [BLANK] == t[|h| := BLANK] + [BLANK]
  {
  }

  lemma GroupSound(expr: string, q: nat, p: nat, t: Text, a: nat)
    requires p < q < |expr| && expr[q] == ')' && Sound(expr, q, t)
    requires a < |t| && t[a] == Mark('(', Of(p)) && expr[p] == '('
    ensures Sound(expr, q + 1, t[a := BLANK] + [BLANK])
  {
  }

  // ---- what stands last --------------------------------------------------------------------------------

  function LastOf(cls: Classes, t: Text): Origin {
    if Trim(cls, t) == 0 then Blank else t[Trim(cls, t) - 1].from
  }

  lemma TrimIs(cls: Classes, t: Text, e: nat)
    requires e <= |t| && (forall k :: e <= k < |t| ==> cls.space(t[k].ch)) && (e > 0 ==> !cls.space(t[e - 1].ch))
    ensures Trim(cls, t) == e
  {
  }

  lemma NameStartIs(cls: Classes, t: Text, end: nat, cut: nat)
    requires cut <= end <= |t| && (forall k :: cut <= k < end ==> cls.word(t[k].ch))
    requires cut > 0 ==> !cls.word(t[cut - 1].ch)
    ensures NameStart(cls, t, end) == cut
  {
  }

  /** The last thing the pass has written is the one the expression says. */
  lemma {:induction false} SeenIs(cls: Classes, expr: string, k: nat)
    requires cls.Sane() && k <= |expr|
    ensures LastOf(cls, After(cls, expr, k)) == Seen(cls, expr, k)
    decreases k
  {
    hide *;
    if k == 0 {
      NothingSeen(cls, expr);
    } else {
      var q := k - 1;
      SeenIs(cls, expr, q);
      SeenStep(cls, expr, q);
      Frame(cls, expr, q);
      if Pair(expr, q) {
        AfterSound(cls, expr, q);
        var p := Partner(expr, q);
        SeenIs(cls, expr, p);
        AfterSound(cls, expr, p);
        Reduced(cls, expr, q);
        CallCuts(cls, expr, p);
        LastClosed(cls, expr, q, p, After(cls, expr, p), After(cls, expr, q));
      } else {
        AfterStep(cls, expr, q);
        FrameAppended(cls, expr, q);
        LastAppended(cls, After(cls, expr, q), Mark(expr[q], Of(q)));
      }
    }
  }

  lemma NothingSeen(cls: Classes, expr: string)
    ensures LastOf(cls, After(cls, expr, 0)) == Seen(cls, expr, 0)
  {
  }

  lemma SeenStep(cls: Classes, expr: string, q: nat)
    requires cls.Sane() && q < |expr|
    ensures Pair(expr, q) ==>
              var p := Partner(expr, q);
              Seen(cls, expr, q + 1) ==
                if IsCall(cls, expr, p) then Token(p)
                else if Seen(cls, expr, q) == Of(p) then Seen(cls, expr, p) else Seen(cls, expr, q)
    ensures !Pair(expr, q) ==> Seen(cls, expr, q + 1) == if cls.space(expr[q]) then Seen(cls, expr, q) else Of(q)
  {
    hide IsCall, Open;
  }

  lemma LastAppended(cls: Classes, t: Text, m: Mark)
    ensures LastOf(cls, t + [m]) == if cls.space(m.ch) then LastOf(cls, t) else m.from
  {
    if cls.space(m.ch) {
      TrimIs(cls, t + [m], Trim(cls, t));
    } else {
      TrimIs(cls, t + [m], |t| + 1);
    }
  }

  predicate Cuts(cls: Classes, h: Text) {
    NameStart(cls, h, Trim(cls, h)) < Trim(cls, h)
  }

  /** The pass takes for a call what is one. */
  lemma CallCuts(cls: Classes, expr: string, p: nat)
    requires cls.Sane() && p <= |expr| && LastOf(cls, After(cls, expr, p)) == Seen(cls, expr, p)
    requires Sound(expr, p, After(cls, expr, p))
    ensures IsCall(cls, expr, p) <==> Cuts(cls, After(cls, expr, p))
  {
    var h := After(cls, expr, p);
    var end := Trim(cls, h);
    CutsIff(cls, h);
    hide After, Seen, Cuts, Trim;
    assert end > 0 ==> Honest(expr, h[end - 1]);
  }

  lemma CutsIff(cls: Classes, h: Text)
    ensures Cuts(cls, h) <==> Trim(cls, h) > 0 && cls.word(h[Trim(cls, h) - 1].ch)
  {
  }

  lemma LastClosed(cls: Classes, expr: string, q: nat, p: nat, h: Text, t: Text)
    requires cls.Sane() && p < q < |expr| && Sound(expr, q, t)
    requires |h| < |t| && t[..|h|] == h && t[|h|] == Mark('(', Of(p))
    ensures LastOf(cls, Closed(cls, h, t, p)) ==
            if Cuts(cls, h) then Token(p)
            else if LastOf(cls, t) == Of(p) then LastOf(cls, h) else LastOf(cls, t)
  {
    var end := Trim(cls, h);
    var cut := NameStart(cls, h, end);
    if cut < end {
      assert !cls.space('0');
      TrimIs(cls, h[..cut] + [BLANK, Mark('0', Token(p)), BLANK], cut + 2);
    } else {
      GroupUnwraps(h, t);
      assert forall i :: |h| < i < |t| ==> t[i].from != Of(p);
      hide Sound;
      LastGroup(cls, p, h, t, Closed(cls, h, t, p));
    }
  }

  /** The one text is the other without the two parentheses. */
  ghost predicate Unwrapped(h: Text, t: Text, r: Text) {
    && |h| < |t| && |r| == |t| + 1 && r[|h|] == BLANK == r[|t|]
    && (forall k :: 0 <= k < |t| && k != |h| ==> r[k] == t[k])
    && (forall k :: 0 <= k < |h| ==> r[k] == h[k])
  }

  lemma GroupUnwraps(h: Text, t: Text)
    requires |h| < |t| && t[..|h|] == h
    ensures Unwrapped(h, t, h + [BLANK] + t[|h| + 1..] + [BLANK])
  {
    GroupIs(h, t);
  }

  lemma LastGroup(cls: Classes, p: nat, h: Text, t: Text, r: Text)
    requires cls.Sane() && Unwrapped(h, t, r) && t[|h|] == Mark('(', Of(p))
    requires forall i :: |h| < i < |t| ==> t[i].from != Of(p)
    ensures LastOf(cls, r) == if LastOf(cls, t) == Of(p) then LastOf(cls, h) else LastOf(cls, t)
  {
    hide Trim;
    TrimOpen(cls, t, |h|);
    if Trim(cls, t) == |h| + 1 {
      TrimBefore(cls, h, t, r);
    } else {
      TrimBehind(cls, t, r, |h|);
    }
  }

  lemma TrimOpen(cls: Classes, t: Text, a: nat)
    requires cls.Sane() && a < |t| && t[a].ch == '('
    ensures Trim(cls, t) > a
  {
    hide Trim;
    assert !cls.space(t[a].ch);
  }

  lemma TrimBefore(cls: Classes, h: Text, t: Text, r: Text)
    requires cls.Sane() && |h| < |t| && Trim(cls, t) == |h| + 1 && |r| == |t| + 1
    requires r[|h|] == BLANK == r[|t|] && (forall k :: |h| < k < |t| ==> r[k] == t[k])
    requires forall k :: 0 <= k < |h| ==> r[k] == h[k]
    ensures Trim(cls, r) == Trim(cls, h)
  {
    hide Trim;
    var end := Trim(cls, h);
    forall k | end <= k < |r|
      ensures cls.space(r[k].ch)
    {
      if k > |h| && k < |t| {
        assert cls.space(t[k].ch);
      }
    }
    TrimIs(cls, r, end);
  }

  lemma TrimBehind(cls: Classes, t: Text, r: Text, a: nat)
    requires cls.Sane() && Trim(cls, t) > a + 1 && |r| == |t| + 1 && r[|t|] == BLANK
    requires forall k :: a < k < |t| ==> r[k] == t[k]
    ensures Trim(cls, r) == Trim(cls, t)
  {
    hide Trim;
    var e := Trim(cls, t);
    forall k | e <= k < |r|
      ensures cls.space(r[k].ch)
    {
      if k < |t| {
        assert cls.space(t[k].ch);
      }
    }
    TrimIs(cls, r, e);
  }

  // ---- what survives -------------------------------------------------------------------------------------

  ghost predicate Has(t: Text, o: Origin) {
    exists i :: 0 <= i < |t| && t[i].from == o
  }

  /** A name ends before its call, which ends before `q`. */
  lemma ErasesBelow(cls: Classes, expr: string, q: nat, o: Origin)
    requires Erases(cls, expr, q, o)
    ensures o.at < q
  {
  }

  lemma GoneStep(cls: Classes, expr: string, k: nat, o: Origin)
    ensures Gone(cls, expr, k + 1, o) <==> Gone(cls, expr, k, o) || Erases(cls, expr, k, o)
  {
    hide Erases;
  }

  lemma BornStep(cls: Classes, expr: string, k: nat, o: Origin)
    requires k < |expr|
    ensures Born(cls, expr, k + 1, o) <==>
            || Born(cls, expr, k, o)
            || (o == Of(k) && Visible(cls, expr[k]))
            || (o.Token? && ClosesCall(cls, expr, k, o.at))
  {
    hide ClosesCall;
  }

  /** A visible character survives if and only if no call takes it along, and so does a call's token. */
  lemma {:induction false} Survives(cls: Classes, expr: string, k: nat, o: Origin)
    requires cls.Sane() && k <= |expr| && Tracked(cls, expr, o)
    ensures Has(After(cls, expr, k), o) <==> Born(cls, expr, k, o) && !Gone(cls, expr, k, o)
    decreases k
  {
    hide *;
    if k == 0 {
      NothingSurvives(cls, expr, o);
    } else if !Pair(expr, k - 1) {
      Survives(cls, expr, k - 1, o);
      SurvivesPlain(cls, expr, k - 1, o);
    } else if !IsCall(cls, expr, Partner(expr, k - 1)) {
      Survives(cls, expr, k - 1, o);
      SurvivesGroup(cls, expr, k - 1, o);
    } else {
      Survives(cls, expr, Partner(expr, k - 1), o);
      SurvivesCall(cls, expr, k - 1, o);
    }
  }

  /** Everything but blanks, spaces and parentheses. */
  predicate Tracked(cls: Classes, expr: string, o: Origin) {
    !o.Blank? && (o.Of? ==> o.at < |expr| && Visible(cls, expr[o.at]))
  }

  lemma NothingSurvives(cls: Classes, expr: string, o: Origin)
    ensures !Has(After(cls, expr, 0), o) && !Born(cls, expr, 0, o)
  {
  }

  lemma SurvivesPlain(cls: Classes, expr: string, q: nat, o: Origin)
    requires cls.Sane() && q < |expr| && Tracked(cls, expr, o) && !Pair(expr, q)
    requires Has(After(cls, expr, q), o) <==> Born(cls, expr, q, o) && !Gone(cls, expr, q, o)
    ensures Has(After(cls, expr, q + 1), o) <==> Born(cls, expr, q + 1, o) && !Gone(cls, expr, q + 1, o)
  {
    Frame(cls, expr, q);
    FrameAppended(cls, expr, q);
    GoneStep(cls, expr, q, o);
    BornStep(cls, expr, q, o);
    assert !Erases(cls, expr, q, o) && !(o.Token? && ClosesCall(cls, expr, q, o.at));
    HasAppended(After(cls, expr, q), Mark(expr[q], Of(q)), o);
    hide *;
    if Gone(cls, expr, q, o) {
      GoneBelow(cls, expr, q, o);
    }
    if o == Of(q) {
      assert Visible(cls, expr[q]) by {
        TrackedSees(cls, expr, q);
      }
    }
  }

  lemma TrackedSees(cls: Classes, expr: string, i: nat)
    requires Tracked(cls, expr, Of(i))
    ensures i < |expr| && Visible(cls, expr[i])
  {
  }

  lemma SurvivesGroup(cls: Classes, expr: string, q: nat, o: Origin)
    requires cls.Sane() && q < |expr| && Tracked(cls, expr, o)
    requires Pair(expr, q) && !IsCall(cls, expr, Partner(expr, q))
    requires Has(After(cls, expr, q), o) <==> Born(cls, expr, q, o) && !Gone(cls, expr, q, o)
    ensures Has(After(cls, expr, q + 1), o) <==> Born(cls, expr, q + 1, o) && !Gone(cls, expr, q + 1, o)
  {
    var p := Partner(expr, q);
    Opened(cls, expr, q);
    GoneStep(cls, expr, q, o);
    BornStep(cls, expr, q, o);
    assert !Erases(cls, expr, q, o) && !(o.Token? && ClosesCall(cls, expr, q, o.at));
    assert o != Of(p) && o != Of(q);
    hide After, Born, Gone, Erases, Has, Cuts, IsCall;
    HasGroup(After(cls, expr, p), After(cls, expr, q), p, o);
    GroupClosed(cls, After(cls, expr, p), After(cls, expr, q), p);
  }

  lemma GroupClosed(cls: Classes, h: Text, t: Text, p: nat)
    requires |h| < |t| && !Cuts(cls, h)
    ensures Closed(cls, h, t, p) == h + [BLANK] + t[|h| + 1..] + [BLANK]
  {
  }

  /** A pair, seen from its opening parenthesis. */
  lemma Opened(cls: Classes, expr: string, q: nat)
    requires cls.Sane() && Pair(expr, q)
    ensures var p := Partner(expr, q);
            var h, t := After(cls, expr, p), After(cls, expr, q);
            && |h| < |t| && t[..|h|] == h && t[|h|] == Mark('(', Of(p))
            && After(cls, expr, q + 1) == Closed(cls, h, t, p)
            && (IsCall(cls, expr, p) <==> Cuts(cls, h))
            && Sound(expr, p, h) && LastOf(cls, h) == Seen(cls, expr, p)
  {
    var p := Partner(expr, q);
    Frame(cls, expr, q);
    Reduced(cls, expr, q);
    hide *;
    SeenIs(cls, expr, p);
    AfterSound(cls, expr, p);
    CallCuts(cls, expr, p);
  }

  /** Between the parentheses of a pair nothing from before the pair stands last. */
  lemma {:induction false} SeenAbove(cls: Classes, expr: string, q: nat, j: nat)
    requires cls.Sane() && Pair(expr, q) && Partner(expr, q) < j <= q
    ensures var p, o := Partner(expr, q), Seen(cls, expr, j); o == Of(p) || (!o.Blank? && o.at > p)
    decreases j
  {
    var p := Partner(expr, q);
    if j > p + 1 {
      SeenAbove(cls, expr, q, j - 1);
      if Pair(expr, j - 1) {
        Nested(expr, q, j - 1);
        SeenAbove(cls, expr, q, Partner(expr, j - 1));
      }
    }
  }

  /** A call inside another takes nothing from outside it, nor its token. */
  lemma ErasesInside(cls: Classes, expr: string, q: nat, r: nat, o: Origin)
    requires cls.Sane() && Pair(expr, q) && Partner(expr, q) < r < q
    requires o.Blank? || o.at < Partner(expr, q) || o == Token(Partner(expr, q))
    ensures !Erases(cls, expr, r, o)
  {
    if Pair(expr, r) {
      Nested(expr, q, r);
      SeenAbove(cls, expr, q, Partner(expr, r));
      NamesAbove(cls, expr, Partner(expr, q), Partner(expr, r), o);
    }
  }

  lemma NamesAbove(cls: Classes, expr: string, p: nat, r: nat, o: Origin)
    requires cls.Sane() && p < r <= |expr| && expr[p] == '(' && (o.Blank? || o.at < p || o == Token(p))
    requires Seen(cls, expr, r) == Of(p) || (!Seen(cls, expr, r).Blank? && Seen(cls, expr, r).at > p)
    ensures !Names(cls, expr, r, o)
  {
    hide Seen;
    assert !cls.word(expr[p]);
  }

  /** For what stands before the pair, nothing happens until it is closed. */
  lemma GoneBefore(cls: Classes, expr: string, q: nat, o: Origin)
    requires cls.Sane() && Pair(expr, q) && !o.Blank? && o.at < Partner(expr, q)
    ensures Gone(cls, expr, q, o) <==> Gone(cls, expr, Partner(expr, q), o)
  {
    var p := Partner(expr, q);
    assert !Pair(expr, p);
    forall r | 0 <= r < q && Erases(cls, expr, r, o)
      ensures r < p
    {
      if r > p {
        ErasesInside(cls, expr, q, r, o);
      }
    }
    hide Erases, Open;
    if Gone(cls, expr, q, o) {
      var r :| 0 <= r < q && Erases(cls, expr, r, o);
      assert r < p;
    }
  }

  lemma BornBefore(cls: Classes, expr: string, q: nat, o: Origin)
    requires cls.Sane() && Pair(expr, q) && !o.Blank? && o.at < Partner(expr, q)
    ensures Born(cls, expr, q, o) <==> Born(cls, expr, Partner(expr, q), o)
  {
    var p := Partner(expr, q);
    assert !Pair(expr, p);
    if o.Token? {
      forall r | 0 <= r < q && ClosesCall(cls, expr, r, o.at)
        ensures r < p
      {
        if r > p {
          Nested(expr, q, r);
        }
      }
      hide ClosesCall, Open;
      if Born(cls, expr, q, o) {
        var r :| 0 <= r < q && ClosesCall(cls, expr, r, o.at);
        assert r < p;
      }
    }
  }

  lemma SurvivesCall(cls: Classes, expr: string, q: nat, o: Origin)
    requires cls.Sane() && q < |expr| && Tracked(cls, expr, o)
    requires Pair(expr, q) && IsCall(cls, expr, Partner(expr, q))
    requires var p := Partner(expr, q);
             Has(After(cls, expr, p), o) <==> Born(cls, expr, p, o) && !Gone(cls, expr, p, o)
    ensures Has(After(cls, expr, q + 1), o) <==> Born(cls, expr, q + 1, o) && !Gone(cls, expr, q + 1, o)
  {
    var p := Partner(expr, q);
    GoneStep(cls, expr, q, o);
    BornStep(cls, expr, q, o);
    Opened(cls, expr, q);
    var h := After(cls, expr, p);
    hide After, Closed;
    CallClosed(cls, h, After(cls, expr, q), p);
    HasCall(h, NameStart(cls, h, Trim(cls, h)), p, o);
    if o == Token(p) {
      TokenStays(cls, expr, q);
    } else if o.at < p {
      GoneBefore(cls, expr, q, o);
      BornBefore(cls, expr, q, o);
      assert Erases(cls, expr, q, o) <==> Names(cls, expr, p, o);
      assert !(o.Token? && ClosesCall(cls, expr, q, o.at)) && o != Of(q);
      hide Erases, Names, Gone, Born;
      NameCut(cls, expr, p, h, o);
    } else {
      InsideGoes(cls, expr, q, o);
      if Has(h[..NameStart(cls, h, Trim(cls, h))], o) {
        HasBelow(expr, p, h, NameStart(cls, h, Trim(cls, h)), o);
      }
    }
  }

  lemma GoneBelow(cls: Classes, expr: string, k: nat, o: Origin)
    requires Gone(cls, expr, k, o)
    ensures k > 0 && o.at < k - 1
  {
    var q :| 0 <= q < k && Erases(cls, expr, q, o);
    ErasesBelow(cls, expr, q, o);
  }

  lemma HasAppended(t: Text, m: Mark, o: Origin)
    ensures Has(t + [m], o) <==> Has(t, o) || o == m.from
  {
    var r := t + [m];
    if Has(t, o) {
      var i :| 0 <= i < |t| && t[i].from == o;
      assert r[i].from == o;
    }
    assert r[|t|] == m;
  }

  lemma HasGroup(h: Text, t: Text, p: nat, o: Origin)
    requires |h| < |t| && t[..|h|] == h && t[|h|] == Mark('(', Of(p))
    requires !o.Blank? && o != Of(p)
    ensures Has(h + [BLANK] + t[|h| + 1..] + [BLANK], o) <==> Has(t, o)
  {
    GroupIs(h, t);
    var r := t[|h| := BLANK] + [BLANK];
    if Has(t, o) {
      var i :| 0 <= i < |t| && t[i].from == o;
      assert r[i].from == o;
    }
    if Has(r, o) {
      var i :| 0 <= i < |r| && r[i].from == o;
      assert t[i].from == o;
    }
  }

  // ---- the cut before a call ---------------------------------------------------------------------------

  lemma CallClosed(cls: Classes, h: Text, t: Text, p: nat)
    requires |h| < |t| && Cuts(cls, h)
    ensures Closed(cls, h, t, p) == h[..NameStart(cls, h, Trim(cls, h))] + [BLANK, Mark('0', Token(p)), BLANK]
  {
  }

  lemma HasCall(h: Text, cut: nat, p: nat, o: Origin)
    requires cut <= |h| && !o.Blank?
    ensures Has(h[..cut] + [BLANK, Mark('0', Token(p)), BLANK], o) <==> Has(h[..cut], o) || o == Token(p)
  {
    var r := h[..cut] + [BLANK, Mark('0', Token(p)), BLANK];
    assert r[cut + 1].from == Token(p) && r[cut].from == Blank && r[cut + 2].from == Blank;
    if Has(h[..cut], o) {
      var i :| 0 <= i < cut && h[..cut][i].from == o;
      assert r[i].from == o;
    }
    if Has(r, o) && o != Token(p) {
      var i :| 0 <= i < |r| && r[i].from == o;
      assert i < cut && h[..cut][i].from == o;
    }
  }

  /** A call just closed has its token. */
  lemma TokenStays(cls: Classes, expr: string, q: nat)
    requires cls.Sane() && Pair(expr, q) && IsCall(cls, expr, Partner(expr, q))
    ensures var o := Token(Partner(expr, q)); Born(cls, expr, q + 1, o) && !Gone(cls, expr, q + 1, o)
  {
    var p := Partner(expr, q);
    assert ClosesCall(cls, expr, q, p);
    forall r | 0 <= r < q + 1
      ensures !Erases(cls, expr, r, Token(p))
    {
      if p < r < q {
        ErasesInside(cls, expr, q, r, Token(p));
      } else if Erases(cls, expr, r, Token(p)) {
        ErasesBelow(cls, expr, r, Token(p));
      }
    }
    hide Erases;
  }

  lemma HasBelow(expr: string, p: nat, h: Text, cut: nat, o: Origin)
    requires p <= |expr| && Sound(expr, p, h) && cut <= |h| && !o.Blank? && Has(h[..cut], o)
    ensures o.at < p
  {
    var i :| 0 <= i < cut && h[..cut][i].from == o;
    assert h[i].from == o;
  }

  /** What came up between the parentheses of a call goes with it. */
  lemma InsideGoes(cls: Classes, expr: string, q: nat, o: Origin)
    requires cls.Sane() && Tracked(cls, expr, o) && Pair(expr, q) && IsCall(cls, expr, Partner(expr, q))
    requires o.at >= Partner(expr, q) && o != Token(Partner(expr, q))
    ensures Born(cls, expr, q + 1, o) ==> Gone(cls, expr, q + 1, o)
  {
    var p := Partner(expr, q);
    if Born(cls, expr, q + 1, o) {
      if o.Token? {
        var r :| 0 <= r < q + 1 && ClosesCall(cls, expr, r, o.at);
      }
      assert Erases(cls, expr, q, o);
    }
  }

  /** The word that is cut off: neighbours in the expression, back from its last character. */
  lemma {:induction false} RunBack(cls: Classes, expr: string, p: nat, h: Text, end: nat, e: nat, i: nat)
    requires cls.Sane() && p <= |expr| && Linked(expr, h)
    requires 0 < end <= |h| && h[end - 1].from == Of(e) && i < end
    requires forall j :: i <= j < end ==> cls.word(h[j].ch)
    ensures e >= end - 1 - i && h[i].from == Of(e - (end - 1 - i))
    decreases end - i
  {
    if i < end - 1 {
      RunBack(cls, expr, p, h, end, e, i + 1);
      assert Follows(expr, h[i].from, h[i + 1].from) && Honest(expr, h[i]);
    }
  }

  /** What stands left of the cut is what is not the name. */
  lemma NameCut(cls: Classes, expr: string, p: nat, h: Text, o: Origin)
    requires cls.Sane() && p <= |expr| && Sound(expr, p, h) && LastOf(cls, h) == Seen(cls, expr, p) && Cuts(cls, h)
    requires Tracked(cls, expr, o)
    ensures Has(h[..NameStart(cls, h, Trim(cls, h))], o) <==> Has(h, o) && !Names(cls, expr, p, o)
  {
    var end := Trim(cls, h);
    var cut := NameStart(cls, h, end);
    SpacesUntracked(cls, expr, h, o);
    forall i | 0 <= i < |h| && h[i].from == o
      ensures Names(cls, expr, p, o) <==> i >= cut
    {
      if i >= cut {
        NamedRight(cls, expr, p, h, i, o);
      } else if Names(cls, expr, p, o) {
        NamedLeft(cls, expr, p, h, i, o);
      }
    }
    hide Sound, Names, Seen, Tracked, LastOf, Cuts, NameStart, Trim;
    if Has(h, o) {
      var i :| 0 <= i < |h| && h[i].from == o;
      assert i < cut ==> h[..cut][i].from == o;
    }
    if Has(h[..cut], o) {
      var i :| 0 <= i < cut && h[..cut][i].from == o;
      assert h[i].from == o;
    }
  }

  lemma SpacesUntracked(cls: Classes, expr: string, h: Text, o: Origin)
    requires cls.Sane() && Linked(expr, h) && Tracked(cls, expr, o)
    ensures forall i :: Trim(cls, h) <= i < |h| ==> h[i].from != o
  {
    forall i | Trim(cls, h) <= i < |h|
      ensures h[i].from != o
    {
      assert Honest(expr, h[i]) && cls.space(h[i].ch) && !cls.space('0');
    }
  }

  lemma NamedRight(cls: Classes, expr: string, p: nat, h: Text, i: nat, o: Origin)
    requires cls.Sane() && p <= |expr| && Sound(expr, p, h) && LastOf(cls, h) == Seen(cls, expr, p) && Cuts(cls, h)
    requires NameStart(cls, h, Trim(cls, h)) <= i < Trim(cls, h) && h[i].from == o && !o.Blank?
    ensures Names(cls, expr, p, o)
  {
    var end := Trim(cls, h);
    var last := h[end - 1].from;
    assert !cls.word(' ');
    if last.Of? {
      RunBack(cls, expr, p, h, end, last.at, i);
      forall x | o.at <= x <= last.at
        ensures cls.word(expr[x])
      {
        var j := end - 1 - (last.at - x);
        RunBack(cls, expr, p, h, end, last.at, j);
        assert Honest(expr, h[j]) && cls.word(h[j].ch);
      }
    } else {
      assert Honest(expr, h[end - 1]);
      assert i < end - 1 ==> Follows(expr, h[end - 2].from, last) && Honest(expr, h[end - 2]);
    }
  }

  /** No word character stands before the name in the expression either. */
  lemma NameWhole(cls: Classes, expr: string, p: nat, h: Text)
    requires cls.Sane() && p <= |expr| && Linked(expr, h) && Cuts(cls, h)
    requires NameStart(cls, h, Trim(cls, h)) > 0 && h[Trim(cls, h) - 1].from.Of?
    ensures var o := h[NameStart(cls, h, Trim(cls, h))].from;
            o.Of? && 0 < o.at <= h[Trim(cls, h) - 1].from.at && o.at <= |expr| && !cls.word(expr[o.at - 1])
  {
    var end := Trim(cls, h);
    var cut := NameStart(cls, h, end);
    RunBack(cls, expr, p, h, end, h[end - 1].from.at, cut);
    assert Follows(expr, h[cut - 1].from, h[cut].from) && Honest(expr, h[cut - 1]) && Honest(expr, h[cut]);
  }

  lemma NamedLeft(cls: Classes, expr: string, p: nat, h: Text, i: nat, o: Origin)
    requires cls.Sane() && p <= |expr| && Sound(expr, p, h) && LastOf(cls, h) == Seen(cls, expr, p) && Cuts(cls, h)
    requires i < NameStart(cls, h, Trim(cls, h)) && h[i].from == o && !o.Blank?
    ensures !Names(cls, expr, p, o)
  {
    var end := Trim(cls, h);
    var cut := NameStart(cls, h, end);
    assert !h[end - 1].from.Blank? && o.at < h[end - 1].from.at;
    if h[end - 1].from.Of? {
      NameWhole(cls, expr, p, h);
      assert o.at < h[cut].from.at;
      hide Sound, Seen;
    }
  }

  // ---- when nothing is lost ------------------------------------------------------------------------------

  /** A token stands for a call closed before. */
  lemma {:induction false} SeenToken(cls: Classes, expr: string, k: nat) returns (q: nat)
    requires k <= |expr| && Seen(cls, expr, k).Token?
    ensures q < k && ClosesCall(cls, expr, q, Seen(cls, expr, k).at)
    decreases k
  {
    if cls.space(expr[k - 1]) {
      q := SeenToken(cls, expr, k - 1);
    } else {
      var p := Partner(expr, k - 1);
      if IsCall(cls, expr, p) {
        q := k - 1;
      } else {
        q := SeenToken(cls, expr, k - 1);
      }
    }
  }

  /** The first of a row of calls has a word for a name. */
  lemma {:induction false} FirstName(cls: Classes, expr: string, q: nat) returns (r: nat, e: nat)
    requires cls.Sane() && Pair(expr, q) && IsCall(cls, expr, Partner(expr, q))
    ensures e < |expr| && Visible(cls, expr[e]) && Erases(cls, expr, r, Of(e)) && r < |expr|
    decreases q
  {
    var p := Partner(expr, q);
    if Seen(cls, expr, p).Token? {
      var s := SeenToken(cls, expr, p);
      r, e := FirstName(cls, expr, s);
    } else {
      r, e := q, Seen(cls, expr, p).at;
    }
  }

  ghost predicate NoCalls(cls: Classes, expr: string) {
    forall q :: 0 <= q < |expr| && Pair(expr, q) ==> !IsCall(cls, expr, Partner(expr, q))
  }

  ghost predicate Kept(cls: Classes, expr: string, i: nat) {
    Has(After(cls, expr, |expr|), Of(i))
  }

  /** Nothing but parentheses and spaces is lost if and only if there is no call. */
  lemma AllKeptIff(cls: Classes, expr: string)
    requires cls.Sane()
    ensures (forall i :: 0 <= i < |expr| && Visible(cls, expr[i]) ==> Kept(cls, expr, i)) <==> NoCalls(cls, expr)
  {
    hide *;
    if NoCalls(cls, expr) {
      forall i | 0 <= i < |expr| && Visible(cls, expr[i])
        ensures Kept(cls, expr, i)
      {
        KeptIff(cls, expr, i);
        NothingErased(cls, expr, Of(i));
      }
    } else {
      var r, e := SomeErased(cls, expr);
      KeptIff(cls, expr, e);
    }
  }

  /** A visible character survives if and only if no call takes it along. */
  lemma KeptIff(cls: Classes, expr: string, i: nat)
    requires cls.Sane() && i < |expr| && Visible(cls, expr[i])
    ensures Kept(cls, expr, i) <==> forall q :: 0 <= q < |expr| ==> !Erases(cls, expr, q, Of(i))
  {
    Survives(cls, expr, |expr|, Of(i));
    hide After, Erases, Has;
  }

  lemma NothingErased(cls: Classes, expr: string, o: Origin)
    requires NoCalls(cls, expr)
    ensures forall q :: 0 <= q < |expr| ==> !Erases(cls, expr, q, o)
  {
    hide Names, IsCall, Open, Seen;
  }

  lemma SomeErased(cls: Classes, expr: string) returns (r: nat, e: nat)
    requires cls.Sane() && !NoCalls(cls, expr)
    ensures e < |expr| && Visible(cls, expr[e]) && r < |expr| && Erases(cls, expr, r, Of(e))
  {
    var q :| 0 <= q < |expr| && Pair(expr, q) && IsCall(cls, expr, Partner(expr, q));
    r, e := FirstName(cls, expr, q);
  }

  /** What the pass leaves: characters as they were and tokens, in their order; a visible character if and
      only if no call takes it along, and a token for just the calls no other call takes along. */
  lemma Survivors(cls: Classes, expr: string)
    requires cls.Sane()
    ensures var t := After(cls, expr, |expr|);
            Ordered(|expr|, t) && forall i :: 0 <= i < |t| ==> Honest(expr, t[i])
    ensures forall i :: 0 <= i < |expr| && Visible(cls, expr[i]) ==>
              (Kept(cls, expr, i) <==> forall q :: 0 <= q < |expr| ==> !Erases(cls, expr, q, Of(i)))
    ensures forall p :: 0 <= p < |expr| ==>
              (Has(After(cls, expr, |expr|), Token(p)) <==>
               && (exists q :: 0 <= q < |expr| && ClosesCall(cls, expr, q, p))
               && (forall q :: 0 <= q < |expr| ==> !Erases(cls, expr, q, Token(p))))
  {
    AfterSound(cls, expr, |expr|);
    forall i | 0 <= i < |expr| && Visible(cls, expr[i])
      ensures Kept(cls, expr, i) <==> forall q :: 0 <= q < |expr| ==> !Erases(cls, expr, q, Of(i))
    {
      KeptIff(cls, expr, i);
    }
    hide After, Erases, Has, Kept, ClosesCall;
    forall p | 0 <= p < |expr|
      ensures Has(After(cls, expr, |expr|), Token(p)) <==>
              && (exists q :: 0 <= q < |expr| && ClosesCall(cls, expr, q, p))
              && (forall q :: 0 <= q < |expr| ==> !Erases(cls, expr, q, Token(p)))
    {
      Survives(cls, expr, |expr|, Token(p));
    }
  }

  /** Behind spaces one sees what stands before them. */
  lemma {:induction false} SeenSkips(cls: Classes, expr: string, k: nat)
    requires k <= |expr| && !Seen(cls, expr, k).Blank?
    ensures exists e :: 0 <= e < k && Spaces(cls, expr, e + 1, k) && !cls.space(expr[e])
                        && (Seen(cls, expr, k) == Of(e) || expr[e] == ')')
    decreases k
  {
    if cls.space(expr[k - 1]) {
      SeenSkips(cls, expr, k - 1);
      var e :| 0 <= e < k - 1 && Spaces(cls, expr, e + 1, k - 1) && !cls.space(expr[e])
               && (Seen(cls, expr, k - 1) == Of(e) || expr[e] == ')');
      assert Spaces(cls, expr, e + 1, k);
    } else {
      assert Spaces(cls, expr, k, k);
    }
  }

  lemma CallFreeIsNoCalls(cls: Classes, expr: string)
    requires CallFree(cls, expr)
    ensures NoCalls(cls, expr)
  {
    forall q | 0 <= q < |expr| && Pair(expr, q)
      ensures !IsCall(cls, expr, Partner(expr, q))
    {
      var p := Partner(expr, q);
      if !Seen(cls, expr, p).Blank? {
        SeenSkips(cls, expr, p);
      }
    }
  }

  lemma {:induction false} PlainAppend(cls: Classes, a: string, b: string)
    ensures Plain(cls, a + b) == Plain(cls, a) + Plain(cls, b)
    decreases |b|
  {
    if b == "" {
      assert a + b == a;
    } else {
      var n := |b| - 1;
      assert (a + b)[..|a + b| - 1] == a + b[..n];
      PlainAppend(cls, a, b[..n]);
    }
  }

  lemma PlainOne(cls: Classes, c: char)
    ensures Plain(cls, [c]) == if Visible(cls, c) then [c] else ""
  {
    assert [c][..0] == "";
  }

  /** Without calls only parentheses and spaces come and go. */
  lemma {:induction false} NoCallsKeep(cls: Classes, expr: string, k: nat)
    requires cls.Sane() && NoCalls(cls, expr) && k <= |expr|
    ensures Plain(cls, Chars(After(cls, expr, k))) == Plain(cls, expr[..k])
  {
    hide *;
    if k == 0 {
      NothingPlain(cls, expr);
    } else {
      var q := k - 1;
      NoCallsKeep(cls, expr, q);
      Snoc(expr, q);
      PlainAppend(cls, expr[..q], [expr[q]]);
      if Pair(expr, q) {
        NotThisCall(cls, expr, q);
        Opened(cls, expr, q);
        var p := Partner(expr, q);
        var h, t := After(cls, expr, p), After(cls, expr, q);
        GroupClosed(cls, h, t, p);
        PlainGroup(cls, h, t, p);
        PlainOne(cls, expr[q]);
        assert !Visible(cls, expr[q]) by {
          ClosingUnseen(cls, expr, q);
        }
      } else {
        Frame(cls, expr, q);
        AfterStep(cls, expr, q);
        FrameAppended(cls, expr, q);
        CharsAppend(After(cls, expr, q), [Mark(expr[q], Of(q))]);
        PlainAppend(cls, Chars(After(cls, expr, q)), [expr[q]]);
        OneChar(expr[q], Of(q));
      }
    }
  }

  lemma NothingPlain(cls: Classes, expr: string)
    ensures Plain(cls, Chars(After(cls, expr, 0))) == Plain(cls, expr[..0])
  {
  }

  lemma Snoc(s: string, q: nat)
    requires q < |s|
    ensures s[..q + 1] == s[..q] + [s[q]]
  {
  }

  lemma NotThisCall(cls: Classes, expr: string, q: nat)
    requires NoCalls(cls, expr) && Pair(expr, q)
    ensures q < |expr| && !IsCall(cls, expr, Partner(expr, q))
  {
  }

  lemma ClosingUnseen(cls: Classes, expr: string, q: nat)
    requires Pair(expr, q)
    ensures q < |expr| && !Visible(cls, expr[q])
  {
  }

  lemma CharsAppend(a: Text, b: Text)
    ensures Chars(a + b) == Chars(a) + Chars(b)
  {
  }

  lemma OneChar(c: char, o: Origin)
    ensures Chars([Mark(c, o)]) == [c]
  {
  }

  lemma PlainGroup(cls: Classes, h: Text, t: Text, p: nat)
    requires cls.Sane() && |h| < |t| && t[..|h|] == h && t[|h|] == Mark('(', Of(p))
    ensures Plain(cls, Chars(h + [BLANK] + t[|h| + 1..] + [BLANK])) == Plain(cls, Chars(t))
  {
    var inside := t[|h| + 1..];
    assert t == h + [t[|h|]] + inside;
    hide Plain, Chars;
    PlainMarks(cls, h + [BLANK] + inside, [BLANK]);
    PlainMarks(cls, h + [BLANK], inside);
    PlainMarks(cls, h, [BLANK]);
    PlainMarks(cls, h + [t[|h|]], inside);
    PlainMarks(cls, h, [t[|h|]]);
    OneChar(' ', Blank);
    OneChar('(', Of(p));
    PlainOne(cls, ' ');
    PlainOne(cls, '(');
  }

  lemma PlainMarks(cls: Classes, a: Text, b: Text)
    ensures Plain(cls, Chars(a + b)) == Plain(cls, Chars(a)) + Plain(cls, Chars(b))
  {
    CharsAppend(a, b);
    PlainAppend(cls, Chars(a), Chars(b));
  }

  // ---- a cast before a group -----------------------------------------------------------------------------

  /** Letters, digits and underscore; the space. */
  function Ascii(): (cls: Classes)
    ensures cls.Sane()
  {
    Classes(c => 'a' <= c <= 'z' || 'A' <= c <= 'Z' || '0' <= c <= '9' || c == '_', c => c == ' ')
  }

  const CAST := "(int)(sk & 1)"

  /** Without parentheses there is nothing to reduce. */
  lemma {:induction false} PlainRun(cls: Classes, expr: string, k: nat, j: nat)
    requires k <= j <= |expr| && forall i :: k <= i < j ==> !Paren(expr[i])
    ensures After(cls, expr, j) == After(cls, expr, k) + Marked(expr)[k..j]
    ensures Open(expr, j) == Open(expr, k)
    decreases j
  {
    if k < j {
      PlainRun(cls, expr, k, j - 1);
      AfterStep(cls, expr, j - 1);
      OpenStep(expr, j - 1);
      MarkedSnoc(expr, k, j - 1);
      PlainStep(cls, After(cls, expr, j - 1), Mark(expr[j - 1], Of(j - 1)));
      hide After, Marked, Open, Step;
      Assoc(After(cls, expr, k), Marked(expr)[k..j - 1], [Mark(expr[j - 1], Of(j - 1))]);
    } else {
      assert Marked(expr)[k..j] == [];
    }
  }

  lemma MarkedSnoc(expr: string, k: nat, j: nat)
    requires k <= j < |expr|
    ensures Marked(expr)[k..j + 1] == Marked(expr)[k..j] + [Mark(expr[j], Of(j))]
  {
  }

  lemma PlainStep(cls: Classes, t: Text, m: Mark)
    requires m.ch != ')'
    ensures Step(cls, t, m) == t + [m]
  {
  }

  lemma Assoc(a: Text, b: Text, c: Text)
    ensures a + b + c == a + (b + c)
  {
  }

  /** A group that ends in a word makes a call of the group behind it, and that loses all it holds. */
  lemma CastIsCall(cls: Classes, expr: string, q: nat, r: nat)
    requires cls.Sane() && Pair(expr, q) && !IsCall(cls, expr, Partner(expr, q))
    requires Seen(cls, expr, q).Of? && cls.word(expr[Seen(cls, expr, q).at])
    requires Pair(expr, r) && Partner(expr, r) == q + 1
    ensures IsCall(cls, expr, q + 1)
    ensures forall i :: q + 1 < i < r ==> Erases(cls, expr, r, Of(i))
  {
  }

  /** A cast loses its parentheses first; what it casts is then taken for the arguments of a call. */
  lemma CastSwallows()
    ensures Chars(After(Ascii(), CAST, |CAST|)) == "  0 "
    ensures Open(CAST, 12) == [5] && Pair(CAST, 12) && IsCall(Ascii(), CAST, 5)
  {
    CastStack(Ascii());
    var h := CastDropped(Ascii());
    hide After, Open, IsCall, Closed, Cuts;
    Opened(Ascii(), CAST, 12);
    CastCut(Ascii(), h, After(Ascii(), CAST, 12));
  }

  lemma CastStack(cls: Classes)
    ensures Open(CAST, 4) == [0] && Pair(CAST, 4) && Open(CAST, 12) == [5] && Pair(CAST, 12)
  {
    hide Open, After, Marked;
    NothingOpen(CAST);
    OpenStep(CAST, 0);
    PlainRun(cls, CAST, 1, 4);
    OpenStep(CAST, 4);
    OpenStep(CAST, 5);
    PlainRun(cls, CAST, 6, 12);
  }

  lemma NothingOpen(expr: string)
    ensures Open(expr, 0) == []
  {
  }

  lemma CastDropped(cls: Classes) returns (h: Text)
    requires cls == Ascii()
    ensures h == [BLANK, Mark('i', Of(1)), Mark('n', Of(2)), Mark('t', Of(3)), BLANK]
    ensures After(cls, CAST, 5) == h
  {
    CastStack(cls);
    CastRead(cls);
    NothingYet(cls, CAST);
    hide After, Open, Step, Ascii, Closed;
    Opened(cls, CAST, 4);
    h := CastGroup(cls, After(cls, CAST, 4));
  }

  lemma NothingYet(cls: Classes, expr: string)
    ensures After(cls, expr, 0) == []
  {
  }

  lemma CastGroup(cls: Classes, t: Text) returns (h: Text)
    requires t == [Mark('(', Of(0)), Mark('i', Of(1)), Mark('n', Of(2)), Mark('t', Of(3))]
    ensures h == [BLANK, Mark('i', Of(1)), Mark('n', Of(2)), Mark('t', Of(3)), BLANK] == Closed(cls, [], t, 0)
  {
    h := [BLANK, Mark('i', Of(1)), Mark('n', Of(2)), Mark('t', Of(3)), BLANK];
    assert t[1..] == [Mark('i', Of(1)), Mark('n', Of(2)), Mark('t', Of(3))];
  }

  lemma CastRead(cls: Classes)
    ensures After(cls, CAST, 4) == [Mark('(', Of(0)), Mark('i', Of(1)), Mark('n', Of(2)), Mark('t', Of(3))]
  {
    assert After(cls, CAST, 0) == [];
    hide After, Open, Step;
    AfterStep(cls, CAST, 0);
    PlainStep(cls, [], Mark('(', Of(0)));
    PlainRun(cls, CAST, 1, 4);
  }

  lemma CastCut(cls: Classes, h: Text, t: Text)
    requires cls == Ascii() && h == [BLANK, Mark('i', Of(1)), Mark('n', Of(2)), Mark('t', Of(3)), BLANK] && |h| < |t|
    ensures Cuts(cls, h) && Chars(Closed(cls, h, t, 5)) == "  0 "
  {
    hide Trim, NameStart;
    TrimIs(cls, h, 4);
    NameStartIs(cls, h, 4, 1);
    assert h[..1] == [BLANK];
  }
}
