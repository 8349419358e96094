/**
 * Parentheses in expressions: counting them, finding a match, finding an innermost pair.
 */
module Parens {

  /** Opening minus closing parentheses. */
  function Depth(s: string): int {
    if s == "" then 0
    else Depth(s[..|s| - 1]) + if s[|s| - 1] == '(' then 1 else if s[|s| - 1] == ')' then -1 else 0
  }

  lemma {:induction false} DepthAppend(a: string, b: string)
    ensures Depth(a + b) == Depth(a) + Depth(b)
    decreases |b|
  {
    if b == "" {
      assert a + b == a;
    } else {
      var n := |b| - 1;
      assert (a + b)[..|a + b| - 1] == a + b[..n];
      DepthAppend(a, b[..n]);
    }
  }

  ghost predicate NoParens(s: string) {
    forall k :: 0 <= k < |s| ==> s[k] != '(' && s[k] != ')'
  }

  lemma {:induction false} DepthNoParens(s: string)
    requires NoParens(s)
    ensures Depth(s) == 0
  {
    if s != "" {
      DepthNoParens(s[..|s| - 1]);
    }
  }

  /** Well nested: no prefix closes more than it opened, and all that opened is closed. */
  ghost predicate Balanced(s: string) {
    Depth(s) == 0 && forall k :: 0 <= k <= |s| ==> Depth(s[..k]) >= 0
  }

  // ---- matching one parenthesis ------------------------------------------------------------------------

  lemma DepthSnoc(s: string, i: nat, j: nat)
    requires i <= j < |s|
    ensures Depth(s[i..j + 1]) == Depth(s[i..j]) + if s[j] == '(' then 1 else if s[j] == ')' then -1 else 0
  {
    assert s[i..j + 1][..j - i] == s[i..j];
  }

  /** The closing partner of the parenthesis at `open`: the first position at which the depth is back to
      where it was. */
  method MatchParen(text: string, open: nat) returns (r: int)
    requires open < |text| && text[open] == '('
    ensures r == -1 || open < r < |text|
    ensures r >= 0 ==> text[r] == ')' && Depth(text[open..r + 1]) == 0
    ensures forall k :: open < k <= |text| && (r < 0 || k <= r) ==> Depth(text[open..k]) > 0
  {
    var depth := 0;
    assert text[open..open] == "" && Depth("") == 0;
    hide Depth;
    for i := open to |text|
      invariant depth == Depth(text[open..i]) && (i > open ==> depth > 0)
      invariant forall k :: open < k <= i ==> Depth(text[open..k]) > 0
    {
      DepthSnoc(text, open, i);
      if text[i] == '(' {
        depth := depth + 1;
      } else if text[i] == ')' {
        depth := depth - 1;
        if depth == 0 {
          return i;
        }
      }
    }
    return -1;
  }

  // ---- innermost pairs -----------------------------------------------------------------------------------

  /** An innermost pair: nothing but other characters between the two. */
  predicate Inner(s: string, a: nat, b: nat) {
    a < b < |s| && s[a] == '(' && s[b] == ')' && forall k :: a < k < b ==> s[k] != '(' && s[k] != ')'
  }

  /** No opening parenthesis anywhere before a closing one. */
  ghost predicate Stripped(s: string) {
    forall x, y :: 0 <= x < y < |s| ==> !(s[x] == '(' && s[y] == ')')
  }

  /** An opening parenthesis before a closing one always encloses an innermost pair. */
  lemma {:induction false} InnerExists(s: string, x: nat, y: nat)
    requires x < y < |s| && s[x] == '(' && s[y] == ')'
    ensures exists a, b :: x <= a < b <= y && Inner(s, a, b)
    decreases y - x
  {
    if k :| x < k < y && s[k] == '(' {
      InnerExists(s, k, y);
    } else if k :| x < k < y && s[k] == ')' {
      InnerExists(s, x, k);
    } else {
      assert Inner(s, x, y);
    }
  }

  /** The leftmost match of the innermost-parenthesis pattern. */
  method FindInner(s: string) returns (found: bool, a: nat, b: nat)
    ensures found ==> Inner(s, a, b) && forall c: nat, d: nat :: Inner(s, c, d) ==> a <= c
    ensures !found ==> Stripped(s)
  {
    var last := -1;
    for k := 0 to |s|
      invariant -1 <= last < k
      invariant last >= 0 ==> s[last] == '(' && forall j :: last < j < k ==> s[j] != '(' && s[j] != ')'
      invariant last < 0 ==> forall j :: 0 <= j < k ==> s[j] != '('
      invariant forall c: nat, d: nat :: Inner(s, c, d) ==> d >= k
    {
      if s[k] == '(' {
        last := k;
      } else if s[k] == ')' && last >= 0 {
        return true, last, k;
      }
    }
    forall x, y | 0 <= x < y < |s|
      ensures !(s[x] == '(' && s[y] == ')')
    {
      if s[x] == '(' && s[y] == ')' {
        InnerExists(s, x, y);
      }
    }
    return false, 0, 0;
  }

  function Opens(s: string): nat {
    if s == "" then 0 else Opens(s[..|s| - 1]) + if s[|s| - 1] == '(' then 1 else 0
  }

  lemma {:induction false} OpensAppend(a: string, b: string)
    ensures Opens(a + b) == Opens(a) + Opens(b)
    decreases |b|
  {
    if b == "" {
      assert a + b == a;
    } else {
      var n := |b| - 1;
      assert (a + b)[..|a + b| - 1] == a + b[..n];
      OpensAppend(a, b[..n]);
    }
  }

  lemma {:induction false} OpensNoParens(s: string)
    requires NoParens(s)
    ensures Opens(s) == 0
  {
    if s != "" {
      OpensNoParens(s[..|s| - 1]);
    }
  }

  /** `s[i..j]`, a stretch of depth zero with a parenthesis in it, replaced by parenthesis-free text. */
  ghost predicate Replaced(s: string, i: nat, j: nat, mid: string, s': string) {
    && i <= j <= |s| && s' == s[..i] + mid + s[j..]
    && NoParens(mid) && Depth(s[i..j]) == 0 && Opens(s[i..j]) == 1
  }

  lemma ReplacedCounts(s: string, i: nat, j: nat, mid: string, s': string)
    requires Replaced(s, i, j, mid, s')
    ensures Opens(s') == Opens(s) - 1 && Depth(s') == Depth(s)
  {
    assert s == s[..i] + s[i..j] + s[j..];
    OpensAppend(s[..i] + s[i..j], s[j..]);
    OpensAppend(s[..i], s[i..j]);
    OpensAppend(s[..i] + mid, s[j..]);
    OpensAppend(s[..i], mid);
    OpensNoParens(mid);
    DepthAppend(s[..i] + s[i..j], s[j..]);
    DepthAppend(s[..i], s[i..j]);
    DepthAppend(s[..i] + mid, s[j..]);
    DepthAppend(s[..i], mid);
    DepthNoParens(mid);
  }

  lemma ReplacedBalanced(s: string, i: nat, j: nat, mid: string, s': string)
    requires Replaced(s, i, j, mid, s') && Balanced(s)
    ensures Balanced(s')
  {
    ReplacedCounts(s, i, j, mid, s');
    forall k | 0 <= k <= |s'|
      ensures Depth(s'[..k]) >= 0
    {
      if k <= i {
        assert s'[..k] == s[..k];
      } else if k <= i + |mid| {
        assert s'[..k] == s[..i] + mid[..k - i];
        DepthAppend(s[..i], mid[..k - i]);
        DepthNoParens(mid[..k - i]);
      } else {
        var m := j + (k - i - |mid|);
        assert s'[..k] == s[..i] + mid + s[j..m] && s[..m] == s[..i] + s[i..j] + s[j..m];
        DepthAppend(s[..i] + mid, s[j..m]);
        DepthAppend(s[..i], mid);
        DepthNoParens(mid);
        DepthAppend(s[..i] + s[i..j], s[j..m]);
        DepthAppend(s[..i], s[i..j]);
      }
    }
  }

  lemma {:induction false} OpensInside(s: string, x: nat)
    requires x < |s| && s[x] == '('
    ensures Opens(s) > 0
    decreases |s|
  {
    if x < |s| - 1 {
      OpensInside(s[..|s| - 1], x);
    }
  }

  lemma {:induction false} DepthNoClose(s: string)
    requires forall k :: 0 <= k < |s| ==> s[k] != ')'
    ensures Depth(s) == Opens(s)
  {
    if s != "" {
      DepthNoClose(s[..|s| - 1]);
    }
  }

  lemma {:induction false} DepthNoOpen(s: string)
    requires forall k :: 0 <= k < |s| ==> s[k] != '('
    ensures Depth(s) <= 0
  {
    if s != "" {
      DepthNoOpen(s[..|s| - 1]);
    }
  }

  lemma ClosesEarly(s: string, y: nat)
    requires y < |s| && s[y] == ')' && forall k :: 0 <= k < y ==> s[k] != '('
    ensures Depth(s[..y + 1]) < 0
  {
    DepthNoOpen(s[..y]);
    assert s[..y + 1][..y] == s[..y];
  }

  /** What is balanced and stripped has no parentheses left at all. */
  lemma BalancedStripped(s: string)
    requires Balanced(s) && Stripped(s)
    ensures NoParens(s)
  {
    forall y | 0 <= y < |s|
      ensures s[y] != ')'
    {
      if s[y] == ')' {
        ClosesEarly(s, y);
      }
    }
    DepthNoClose(s);
    forall x | 0 <= x < |s|
      ensures s[x] != '('
    {
      if s[x] == '(' {
        OpensInside(s, x);
      }
    }
  }

  /** `( ... )` with parenthesis-free text before and inside it. */
  lemma PairCounts(before: string, inside: string)
    requires NoParens(before) && NoParens(inside)
    ensures Depth(before + "(" + inside + ")") == 0 && Opens(before + "(" + inside + ")") == 1
  {
    DepthAppend(before + "(" + inside, ")");
    DepthAppend(before + "(", inside);
    DepthAppend(before, "(");
    OpensAppend(before + "(" + inside, ")");
    OpensAppend(before + "(", inside);
    OpensAppend(before, "(");
    DepthNoParens(before);
    DepthNoParens(inside);
    OpensNoParens(before);
    OpensNoParens(inside);
    assert Depth("(") == 1 && Depth(")") == -1 && Opens("(") == 1 && Opens(")") == 0;
  }

  lemma CallReplaced(s: string, cut: nat, a: nat, b: nat)
    requires Inner(s, a, b) && cut <= a && NoParens(s[cut..a])
    ensures Replaced(s, cut, b + 1, " 0 ", s[..cut] + " 0 " + s[b + 1..])
  {
    PairSplit(s, cut, a, b);
    PairCounts(s[cut..a], s[a + 1..b]);
  }

  lemma GroupReplaced(s: string, a: nat, b: nat)
    requires Inner(s, a, b)
    ensures var mid := " " + s[a + 1..b] + " "; Replaced(s, a, b + 1, mid, s[..a] + mid + s[b + 1..])
  {
    PairSplit(s, a, a, b);
    PairCounts(s[a..a], s[a + 1..b]);
  }

  lemma PairSplit(s: string, cut: nat, a: nat, b: nat)
    requires cut <= a && Inner(s, a, b)
    ensures s[cut..b + 1] == s[cut..a] + "(" + s[a + 1..b] + ")"
    ensures NoParens(s[a + 1..b])
  {
  }

  lemma Round(s: string, i: nat, j: nat, mid: string, s': string)
    requires Replaced(s, i, j, mid, s')
    ensures Opens(s') < Opens(s) && Depth(s') == Depth(s) && (Balanced(s) ==> Balanced(s'))
  {
    ReplacedCounts(s, i, j, mid, s');
    if Balanced(s) {
      ReplacedBalanced(s, i, j, mid, s');
    }
  }
}
