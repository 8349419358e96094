/**
 * Stripping calls out of an expression from the inside out: the rewriting loop does what one pass does.
 */
module Calls {
  import opened Parens
  import opened Marks
  import opened Survival

  function Fold(cls: Classes, t: Text): Text {
    if t == [] then [] else Step(cls, Fold(cls, t[..|t| - 1]), t[|t| - 1])
  }

  lemma {:induction false} FoldAppend(cls: Classes, a: Text, b: Text, rest: Text)
    requires Fold(cls, a) == Fold(cls, b)
    ensures Fold(cls, a + rest) == Fold(cls, b + rest)
    decreases |rest|
  {
    if rest == [] {
      assert a + rest == a && b + rest == b;
    } else {
      var n := |rest| - 1;
      assert (a + rest)[..|a + rest| - 1] == a + rest[..n] && (b + rest)[..|b + rest| - 1] == b + rest[..n];
      FoldAppend(cls, a, b, rest[..n]);
    }
  }

  lemma FoldSnoc(cls: Classes, t: Text, m: Mark)
    ensures Fold(cls, t + [m]) == Step(cls, Fold(cls, t), m)
  {
    assert (t + [m])[..|t|] == t;
  }

  ghost predicate NoPair(t: Text) {
    forall x, y :: 0 <= x < y < |t| ==> !(t[x].ch == '(' && t[y].ch == ')')
  }

  /** No pair, nothing to do. */
  lemma {:induction false} FoldStripped(cls: Classes, t: Text)
    requires NoPair(t)
    ensures Fold(cls, t) == t
  {
    if t != [] {
      var n := |t| - 1;
      FoldStripped(cls, t[..n]);
      var l := LastOpen(t[..n]);
      assert l < 0 || (t[l].ch == '(' && t[n].ch != ')');
      assert t[..n] + [t[n]] == t;
    }
  }

  // ---- the rewriting loop -------------------------------------------------------------------------

  /** Up to the end of the leftmost innermost pair there is no other. */
  lemma FirstPair(s: string, a: nat, b: nat)
    requires Inner(s, a, b) && forall c: nat, d: nat :: Inner(s, c, d) ==> a <= c
    ensures Stripped(s[..b])
  {
    forall x, y | 0 <= x < y < b
      ensures !(s[x] == '(' && s[y] == ')')
    {
      if s[x] == '(' && s[y] == ')' {
        InnerExists(s, x, y);
      }
    }
  }

  /** One round of rewriting does what the pass does when it comes to the first pair. */
  lemma RoundFolds(cls: Classes, t: Text, a: nat, b: nat)
    requires cls.Sane() && Inner(Chars(t), a, b)
    requires forall c: nat, d: nat :: Inner(Chars(t), c, d) ==> a <= c
    ensures LastOpen(t[..b]) == a
    ensures b < |t| && Fold(cls, Rewritten(cls, t, b)) == Fold(cls, t)
  {
    var front := t[..b];
    FrontHasNoPair(t, a, b);
    var done := Reduce(cls, front);
    assert front + [t[b]] + t[b + 1..] == t;
    hide Reduce, NoPair, LastOpen, Inner, Fold;
    FoldStripped(cls, front);
    FoldSnoc(cls, front, t[b]);
    ReduceStripped(cls, front);
    FoldStripped(cls, done);
    FoldAppend(cls, done, front + [t[b]], t[b + 1..]);
  }

  lemma FrontHasNoPair(t: Text, a: nat, b: nat)
    requires Inner(Chars(t), a, b) && forall c: nat, d: nat :: Inner(Chars(t), c, d) ==> a <= c
    ensures b < |t| && t[b].ch == ')' && NoPair(t[..b]) && LastOpen(t[..b]) == a
  {
    var s, front := Chars(t), t[..b];
    FirstPair(s, a, b);
    forall x, y | 0 <= x < y < b
      ensures !(front[x].ch == '(' && front[y].ch == ')')
    {
      assert !(s[..b][x] == '(' && s[..b][y] == ')');
    }
    LastOpenIs(front, a);
  }

  lemma ReduceStripped(cls: Classes, t: Text)
    requires LastOpen(t) >= 0 && NoPair(t)
    ensures NoPair(Reduce(cls, t))
  {
    hide NoPair;
    var a := LastOpen(t);
    var h := t[..a];
    if Cuts(cls, h) {
      CutHasNoPair(t, NameStart(cls, h, Trim(cls, h)), Reduce(cls, t));
    } else {
      GroupIs(h, t);
      hide LastOpen, Trim, NameStart;
      assert Reduce(cls, t) == h + [BLANK] + t[|h| + 1..] + [BLANK];
      BlankHasNoPair(t, a);
    }
  }

  lemma CutHasNoPair(t: Text, cut: nat, r: Text)
    requires NoPair(t) && cut <= |t| && |r| >= cut && r[..cut] == t[..cut]
    requires forall i :: cut <= i < |r| ==> r[i].ch != ')'
    ensures NoPair(r)
  {
    assert forall i :: 0 <= i < cut ==> r[i] == r[..cut][i] == t[i];
  }

  lemma BlankHasNoPair(t: Text, a: nat)
    requires NoPair(t) && a < |t|
    ensures NoPair(t[a := BLANK] + [BLANK])
  {
  }

  /** Replace every call by a neutral token and drop grouping parentheses, from the inside out: what is
      left is what a single pass with a stack leaves. */
  method StripCalls(cls: Classes, expr: string) returns (r: string)
    requires cls.Sane()
    ensures r == Chars(After(cls, expr, |expr|))
    ensures CallFree(cls, expr) ==> Plain(cls, r) == Plain(cls, expr)
    ensures Stripped(r)
    ensures Depth(r) == Depth(expr)
    ensures Balanced(expr) ==> NoParens(r)
  {
    hide *;
    r := expr;
    ghost var t, whole := Marked(expr), Marked(expr);
    StripBegins(expr);
    while true
      invariant Depth(r) == Depth(expr)
      invariant Balanced(expr) ==> Balanced(r)
      invariant r == Chars(t) && Fold(cls, t) == Fold(cls, whole)
      decreases Opens(r)
    {
      var found, a, b := FindInner(r);
      if !found {
        if Balanced(r) {
          BalancedStripped(r);
        }
        StripEnds(cls, expr, t);
        return;
      }
      ghost var was := r;
      r, t := Rewrite(cls, r, a, b, t);
      Lowered(was, r);
    }
  }

  lemma StripBegins(expr: string)
    ensures expr == Chars(Marked(expr))
  {
  }

  /** Nothing left to rewrite: the pass over the whole is done. */
  lemma StripEnds(cls: Classes, expr: string, t: Text)
    requires cls.Sane() && Stripped(Chars(t)) && Fold(cls, t) == Fold(cls, Marked(expr))
    ensures Chars(t) == Chars(After(cls, expr, |expr|))
    ensures CallFree(cls, expr) ==> Plain(cls, Chars(t)) == Plain(cls, expr)
  {
    assert NoPair(t) by {
      StrippedMarks(t);
    }
    FoldStripped(cls, t);
    FoldMarked(cls, expr, |expr|);
    assert Marked(expr)[..|expr|] == Marked(expr) && expr[..|expr|] == expr;
    if CallFree(cls, expr) {
      CallFreeIsNoCalls(cls, expr);
      NoCallsKeep(cls, expr, |expr|);
    }
  }

  lemma StrippedMarks(t: Text)
    requires Stripped(Chars(t))
    ensures NoPair(t)
  {
    forall x, y | 0 <= x < y < |t|
      ensures !(t[x].ch == '(' && t[y].ch == ')')
    {
      assert !(Chars(t)[x] == '(' && Chars(t)[y] == ')');
    }
  }

  lemma {:induction false} FoldMarked(cls: Classes, expr: string, k: nat)
    requires k <= |expr|
    ensures Fold(cls, Marked(expr)[..k]) == After(cls, expr, k)
  {
    if k > 0 {
      FoldMarked(cls, expr, k - 1);
      assert Marked(expr)[..k][..k - 1] == Marked(expr)[..k - 1];
    }
  }

  /** One pair less. */
  ghost predicate Lowers(s: string, r: string) {
    Opens(r) < Opens(s) && Depth(r) == Depth(s) && (Balanced(s) ==> Balanced(r))
  }

  lemma Lowered(s: string, r: string)
    requires Lowers(s, r)
    ensures Opens(r) < Opens(s) && Depth(r) == Depth(s) && (Balanced(s) ==> Balanced(r))
  {
  }

  /** The loop body: one pair. */
  method Rewrite(cls: Classes, s: string, a: nat, b: nat, ghost t: Text) returns (r: string, ghost t': Text)
    requires cls.Sane() && s == Chars(t)
    requires Inner(s, a, b) && forall c: nat, d: nat :: Inner(s, c, d) ==> a <= c
    ensures Lowers(s, r) && r == Chars(t') && Fold(cls, t') == Fold(cls, t)
  {
    hide *;
    FrontHasNoPair(t, a, b);
    RoundFolds(cls, t, a, b);
    t' := Rewritten(cls, t, b);
    var inside := s[a + 1..b];
    var end := HeadEnd(cls, s, a);
    if end > 0 && cls.word(s[end - 1]) {
      var cut := NameBegin(cls, s, end);
      r := s[..cut] + " 0 " + s[b + 1..];
      CallRound(cls, s, t, a, b, end, cut);
    } else {
      r := s[..a] + (" " + inside + " ") + s[b + 1..];
      GroupRound(cls, s, t, a, b, end);
    }
  }

  ghost function Rewritten(cls: Classes, t: Text, b: nat): Text
    requires b < |t| && LastOpen(t[..b]) >= 0
  {
    Reduce(cls, t[..b]) + t[b + 1..]
  }

  /** Where the spaces before `a` begin. */
  method HeadEnd(cls: Classes, s: string, a: nat) returns (end: nat)
    requires a <= |s|
    ensures end <= a && (forall k :: end <= k < a ==> cls.space(s[k])) && (end > 0 ==> !cls.space(s[end - 1]))
  {
    end := a;
    while end > 0 && cls.space(s[end - 1])
      invariant 0 <= end <= a && forall k :: end <= k < a ==> cls.space(s[k])
    {
      end := end - 1;
    }
  }

  /** Where the word that ends at `end` begins. */
  method NameBegin(cls: Classes, s: string, end: nat) returns (cut: nat)
    requires end <= |s|
    ensures cut <= end && (forall k :: cut <= k < end ==> cls.word(s[k])) && (cut > 0 ==> !cls.word(s[cut - 1]))
  {
    cut := end;
    while cut > 0 && cls.word(s[cut - 1])
      invariant 0 <= cut <= end && forall k :: cut <= k < end ==> cls.word(s[k])
    {
      cut := cut - 1;
    }
  }

  lemma CallRound(cls: Classes, s: string, t: Text, a: nat, b: nat, end: nat, cut: nat)
    requires cls.Sane() && s == Chars(t) && Inner(s, a, b) && LastOpen(t[..b]) == a
    requires cut < end <= a && (forall k :: end <= k < a ==> cls.space(s[k])) && !cls.space(s[end - 1])
    requires (forall k :: cut <= k < end ==> cls.word(s[k])) && (cut > 0 ==> !cls.word(s[cut - 1]))
    ensures var r := s[..cut] + " 0 " + s[b + 1..];
            r == Chars(Rewritten(cls, t, b)) && Lowers(s, r)
  {
    NameHasNoParens(cls, s, cut, end, a);
    CallLowers(s, cut, a, b);
    var front := t[..b];
    assert front[..a] == t[..a];
    TrimIs(cls, t[..a], end);
    NameStartIs(cls, t[..a], end, cut);
    hide LastOpen, Trim, NameStart, Lowers, Inner;
    CallChars(cls, front, cut, end);
    CharsAppend(Reduce(cls, front), t[b + 1..]);
    assert Chars(front)[..cut] == s[..cut] && Chars(t[b + 1..]) == s[b + 1..];
  }

  lemma GroupRound(cls: Classes, s: string, t: Text, a: nat, b: nat, end: nat)
    requires cls.Sane() && s == Chars(t) && Inner(s, a, b) && LastOpen(t[..b]) == a
    requires end <= a && (forall k :: end <= k < a ==> cls.space(s[k]))
    requires end > 0 ==> !cls.space(s[end - 1]) && !cls.word(s[end - 1])
    ensures var r := s[..a] + (" " + s[a + 1..b] + " ") + s[b + 1..];
            r == Chars(Rewritten(cls, t, b)) && Lowers(s, r)
  {
    GroupLowers(s, a, b);
    var front := t[..b];
    assert front[..a] == t[..a];
    TrimIs(cls, t[..a], end);
    NameStartIs(cls, t[..a], end, end);
    hide LastOpen, Trim, NameStart, Lowers, Inner;
    GroupChars(cls, front, a);
    CharsAppend(Reduce(cls, front), t[b + 1..]);
    assert Chars(front)[..a] == s[..a] && Chars(front)[a + 1..] == s[a + 1..b] && Chars(t[b + 1..]) == s[b + 1..];
  }

  lemma CallLowers(s: string, cut: nat, a: nat, b: nat)
    requires Inner(s, a, b) && cut <= a && NoParens(s[cut..a])
    ensures Lowers(s, s[..cut] + " 0 " + s[b + 1..])
  {
    CallReplaced(s, cut, a, b);
    Round(s, cut, b + 1, " 0 ", s[..cut] + " 0 " + s[b + 1..]);
  }

  lemma GroupLowers(s: string, a: nat, b: nat)
    requires Inner(s, a, b)
    ensures Lowers(s, s[..a] + (" " + s[a + 1..b] + " ") + s[b + 1..])
  {
    GroupReplaced(s, a, b);
    Round(s, a, b + 1, " " + s[a + 1..b] + " ", s[..a] + (" " + s[a + 1..b] + " ") + s[b + 1..]);
  }

  lemma CallChars(cls: Classes, t: Text, cut: nat, end: nat)
    requires LastOpen(t) >= 0 && Trim(cls, t[..LastOpen(t)]) == end
    requires NameStart(cls, t[..LastOpen(t)], end) == cut < end
    ensures Chars(Reduce(cls, t)) == Chars(t)[..cut] + " 0 "
  {
    hide LastOpen, Trim, NameStart;
  }

  lemma GroupChars(cls: Classes, t: Text, a: nat)
    requires LastOpen(t) == a && !Cuts(cls, t[..a])
    ensures Chars(Reduce(cls, t)) == Chars(t)[..a] + (" " + Chars(t)[a + 1..] + " ")
  {
    hide LastOpen, Trim, NameStart;
  }

  lemma NameHasNoParens(cls: Classes, s: string, cut: nat, end: nat, a: nat)
    requires cls.Sane() && cut <= end <= a <= |s|
    requires forall k :: cut <= k < end ==> cls.word(s[k])
    requires forall k :: end <= k < a ==> cls.space(s[k])
    ensures NoParens(s[cut..a])
  {
  }
}
