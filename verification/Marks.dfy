/**
 * An expression whose characters remember where they come from, and one pass over it with a stack: a
 * closing parenthesis reduces what has come since its partner.
 */
module Marks {

  /** The character classes of the regular expressions in play. */
  datatype Classes = Classes(word: char -> bool, space: char -> bool) {
    ghost predicate Sane() {
      && !word('(') && !word(')') && !space('(') && !space(')')
      && word('0') && space(' ') && forall c :: !(word(c) && space(c))
    }
  }

  /** Where a character comes from: a place in the expression, the call whose parenthesis is there, or
      the blanks around what was put in. */
  datatype Origin = Of(at: nat) | Token(at: nat) | Blank

  datatype Mark = Mark(ch: char, from: Origin)

  type Text = seq<Mark>

  const BLANK := Mark(' ', Blank)

  function Chars(t: Text): (s: string)
    ensures |s| == |t| && forall i :: 0 <= i < |t| ==> s[i] == t[i].ch
  {
    seq(|t|, i requires 0 <= i < |t| => t[i].ch)
  }

  function Marked(expr: string): (t: Text)
    ensures |t| == |expr| && forall i :: 0 <= i < |t| ==> t[i] == Mark(expr[i], Of(i))
  {
    seq(|expr|, i requires 0 <= i < |expr| => Mark(expr[i], Of(i)))
  }

  // ---- one pass from left to right ---------------------------------------------------------------

  function LastOpen(t: Text): (r: int)
    ensures -1 <= r < |t|
    ensures r >= 0 ==> t[r].ch == '('
    ensures forall j :: r < j < |t| ==> t[j].ch != '('
  {
    if t == [] then -1
    else if t[|t| - 1].ch == '(' then |t| - 1
    else LastOpen(t[..|t| - 1])
  }

  /** Where the spaces at the end begin. */
  function Trim(cls: Classes, t: Text): (r: nat)
    ensures r <= |t| && forall j :: r <= j < |t| ==> cls.space(t[j].ch)
    ensures r > 0 ==> !cls.space(t[r - 1].ch)
  {
    if t == [] || !cls.space(t[|t| - 1].ch) then |t| else Trim(cls, t[..|t| - 1])
  }

  /** Where the word that ends at `end` begins. */
  function NameStart(cls: Classes, t: Text, end: nat): (r: nat)
    requires end <= |t|
    ensures r <= end && forall j :: r <= j < end ==> cls.word(t[j].ch)
    ensures r > 0 ==> !cls.word(t[r - 1].ch)
  {
    if end == 0 || !cls.word(t[end - 1].ch) then end else NameStart(cls, t, end - 1)
  }

  /** A closing parenthesis after `t`: a call, name and all, becomes a token, a group loses its
      parentheses. */
  function Reduce(cls: Classes, t: Text): Text
    requires LastOpen(t) >= 0
  {
    var a := LastOpen(t);
    var end := Trim(cls, t[..a]);
    var cut := NameStart(cls, t, end);
    if cut < end then t[..cut] + [BLANK, Mark('0', Token(if t[a].from.Blank? then 0 else t[a].from.at)), BLANK]
    else t[..a] + [BLANK] + t[a + 1..] + [BLANK]
  }

  function Step(cls: Classes, t: Text, m: Mark): Text {
    if m.ch == ')' && LastOpen(t) >= 0 then Reduce(cls, t) else t + [m]
  }

  /** The pass over the first `k` characters. */
  function After(cls: Classes, expr: string, k: nat): Text
    requires k <= |expr|
  {
    if k == 0 then [] else Step(cls, After(cls, expr, k - 1), Mark(expr[k - 1], Of(k - 1)))
  }

  /** The opening parenthesis without a partner so far. */
  function Open(expr: string, k: nat): (o: seq<nat>)
    requires k <= |expr|
    ensures forall i :: 0 <= i < |o| ==> o[i] < k && expr[o[i]] == '('
    ensures forall i, j :: 0 <= i < j < |o| ==> o[i] < o[j]
  {
    if k == 0 then []
    else
      var o := Open(expr, k - 1);
      if expr[k - 1] == '(' then o + [k - 1]
      else if expr[k - 1] == ')' && o != [] then o[..|o| - 1]
      else o
  }

  /** A closing parenthesis with a partner. */
  predicate Pair(expr: string, q: nat) {
    q < |expr| && expr[q] == ')' && Open(expr, q) != []
  }

  function Partner(expr: string, q: nat): (p: nat)
    requires Pair(expr, q)
    ensures p < q && expr[p] == '('
  {
    var o := Open(expr, q);
    o[|o| - 1]
  }

  // ---- the stack ------------------------------------------------------------------------------------

  lemma AfterStep(cls: Classes, expr: string, k: nat)
    requires k < |expr|
    ensures After(cls, expr, k + 1) == Step(cls, After(cls, expr, k), Mark(expr[k], Of(k)))
  {
  }

  lemma OpenStep(expr: string, k: nat)
    requires k < |expr|
    ensures expr[k] == '(' ==> Open(expr, k + 1) == Open(expr, k) + [k]
    ensures Pair(expr, k) ==> Open(expr, k + 1) == Open(expr, k)[..|Open(expr, k)| - 1]
    ensures expr[k] != '(' && !Pair(expr, k) ==> Open(expr, k + 1) == Open(expr, k)
  {
  }

  /** Who is on the stack has been there since it was pushed, with the same ones below. */
  lemma {:induction false} Stays(expr: string, q: nat, j: nat, i: nat)
    requires q <= |expr| && i < |Open(expr, q)| && Open(expr, q)[i] < j <= q
    ensures i < |Open(expr, j)| && Open(expr, j)[..i + 1] == Open(expr, q)[..i + 1]
    decreases q
  {
    if j < q {
      OpenStep(expr, q - 1);
      assert Open(expr, q - 1)[..i + 1] == Open(expr, q)[..i + 1];
      assert Open(expr, q - 1)[i] == Open(expr, q - 1)[..i + 1][i] == Open(expr, q)[i];
      Stays(expr, q - 1, j, i);
    }
  }

  /** Pairs are nested: one that is closed inside another was opened inside it. */
  lemma Nested(expr: string, q: nat, r: nat)
    requires Pair(expr, q) && Pair(expr, r) && Partner(expr, q) < r < q
    ensures Partner(expr, q) < Partner(expr, r)
  {
    var n := |Open(expr, q)| - 1;
    Stays(expr, q, r, n);
    Stays(expr, q, r + 1, n);
    OpenStep(expr, r);
    assert Open(expr, r)[..n + 1][n] == Open(expr, r)[n];
  }

  /** What the pass has written since the last open parenthesis begins with what it had written there. */
  ghost predicate Framed(cls: Classes, expr: string, k: nat)
    requires k <= |expr|
  {
    var t, o := After(cls, expr, k), Open(expr, k);
    if o == [] then LastOpen(t) == -1
    else
      var p := o[|o| - 1];
      var h := After(cls, expr, p);
      && Open(expr, p) == o[..|o| - 1]
      && LastOpen(t) == |h| && t[..|h|] == h && t[|h|] == Mark('(', Of(p))
  }

  lemma LastOpenIs(t: Text, i: int)
    requires -1 <= i < |t| && (i >= 0 ==> t[i].ch == '(') && forall j :: i < j < |t| ==> t[j].ch != '('
    ensures LastOpen(t) == i
  {
  }

  /** The reduction, written out. */
  function Closed(cls: Classes, h: Text, t: Text, p: nat): Text
    requires |h| < |t|
  {
    var end := Trim(cls, h);
    var cut := NameStart(cls, h, end);
    if cut < end then h[..cut] + [BLANK, Mark('0', Token(p)), BLANK] else h + [BLANK] + t[|h| + 1..] + [BLANK]
  }

  /** It leaves the last open parenthesis before, and all that comes before that, alone. */
  lemma ClosedFrame(cls: Classes, h: Text, t: Text, p: nat)
    requires cls.Sane() && |h| < |t| && LastOpen(t) == |h|
    ensures LastOpen(Closed(cls, h, t, p)) == LastOpen(h)
    ensures var l := LastOpen(h);
            l >= 0 ==> Closed(cls, h, t, p)[..l] == h[..l] && Closed(cls, h, t, p)[l] == h[l]
  {
    var l, end := LastOpen(h), Trim(cls, h);
    var cut := NameStart(cls, h, end);
    assert l >= 0 ==> end > l && cut > l;
    LastOpenIs(Closed(cls, h, t, p), l);
  }

  lemma ReduceClosed(cls: Classes, h: Text, t: Text, p: nat)
    requires |h| < |t| && t[..|h|] == h && t[|h|] == Mark('(', Of(p)) && LastOpen(t) == |h|
    ensures Reduce(cls, t) == Closed(cls, h, t, p)
  {
    hide LastOpen, Trim, NameStart;
  }

  /** A pair is reduced to what stood before it and a token, or to all but its parentheses. */
  lemma Reduced(cls: Classes, expr: string, q: nat)
    requires cls.Sane() && Pair(expr, q) && Framed(cls, expr, q)
    ensures var p := Partner(expr, q);
            var h, t := After(cls, expr, p), After(cls, expr, q);
            && |h| < |t| && t[..|h|] == h && t[|h|] == Mark('(', Of(p)) && LastOpen(t) == |h|
            && After(cls, expr, q + 1) == Closed(cls, h, t, p)
  {
    AfterStep(cls, expr, q);
    var p := Partner(expr, q);
    hide After, LastOpen, Closed, Reduce;
    ReduceClosed(cls, After(cls, expr, p), After(cls, expr, q), p);
  }

  lemma FrameReduced(cls: Classes, expr: string, q: nat)
    requires cls.Sane() && Pair(expr, q) && Framed(cls, expr, q) && Framed(cls, expr, Partner(expr, q))
    requires After(cls, expr, q + 1) == Step(cls, After(cls, expr, q), Mark(expr[q], Of(q)))
    ensures Framed(cls, expr, q + 1)
  {
    Reduced(cls, expr, q);
    var p := Partner(expr, q);
    ClosedFrame(cls, After(cls, expr, p), After(cls, expr, q), p);
    OpenStep(expr, q);
    hide After, Open, Closed, Step;
  }

  lemma {:induction false} Frame(cls: Classes, expr: string, k: nat)
    requires cls.Sane() && k <= |expr|
    ensures Framed(cls, expr, k)
  {
    if k > 0 {
      AfterStep(cls, expr, k - 1);
      OpenStep(expr, k - 1);
      Frame(cls, expr, k - 1);
      if Pair(expr, k - 1) {
        Frame(cls, expr, Partner(expr, k - 1));
        FrameReduced(cls, expr, k - 1);
      } else {
        FrameAppended(cls, expr, k - 1);
      }
    }
  }

  lemma FrameAppended(cls: Classes, expr: string, k: nat)
    requires k < |expr| && Framed(cls, expr, k) && !Pair(expr, k)
    requires After(cls, expr, k + 1) == Step(cls, After(cls, expr, k), Mark(expr[k], Of(k)))
    ensures After(cls, expr, k + 1) == After(cls, expr, k) + [Mark(expr[k], Of(k))]
    ensures Framed(cls, expr, k + 1)
  {
    OpenStep(expr, k);
    var t, t', m := After(cls, expr, k), After(cls, expr, k + 1), Mark(expr[k], Of(k));
    StepPlain(cls, expr, k, t);
    hide After, Open, Step;
    LastOpenAppend(t, m);
    hide LastOpen;
    var o := Open(expr, k);
    if expr[k] == '(' {
      assert (o + [k])[..|o|] == o && t'[..|t|] == t;
    } else if o != [] {
      var n := |After(cls, expr, o[|o| - 1])|;
      assert t'[..n] == t[..n];
    }
  }

  lemma StepPlain(cls: Classes, expr: string, k: nat, t: Text)
    requires k < |expr| && (Open(expr, k) == [] ==> LastOpen(t) == -1) && !Pair(expr, k)
    ensures Step(cls, t, Mark(expr[k], Of(k))) == t + [Mark(expr[k], Of(k))]
  {
  }

  lemma LastOpenAppend(t: Text, m: Mark)
    ensures LastOpen(t + [m]) == if m.ch == '(' then |t| else LastOpen(t)
  {
    LastOpenIs(t + [m], if m.ch == '(' then |t| else LastOpen(t));
  }
}
