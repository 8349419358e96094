/**
 * The lexical preparation of the constant-time audit: comments and literals blanked out of C source
 * without moving anything, and calls stripped out of expressions.
 *
 * `Kind` is the reference: a character automaton with one character of lookahead. The scanner that
 * jumps from token to token by substring search is proved to agree with it.
 */
module Lexer {

  // ---- the automaton -----------------------------------------------------------------------------

  datatype Kind = Code | Comment | Literal

  datatype Mode =
    | Plain
    | BlockOpened            // between the two characters of an opener
    | Block
    | BlockClosing           // between the two characters of a closer
    | Line
    | Quoted(q: char)
    | Escaped(q: char)       // the next character is taken as it stands

  /** The character after position `i`, or NUL at the end. */
  function Next(src: string, i: nat): char {
    if i + 1 < |src| then src[i + 1] else '\0'
  }

  function Step(m: Mode, c: char, next: char): (Kind, Mode) {
    match m
    case Plain =>
      if c == '/' && next == '*' then (Comment, BlockOpened)
      else if c == '/' && next == '/' then (Comment, Line)
      else if c == '"' || c == '\'' then (Literal, Quoted(c))
      else (Code, Plain)
    case BlockOpened => (Comment, Block)
    case Block => (Comment, if c == '*' && next == '/' then BlockClosing else Block)
    case BlockClosing => (Comment, Plain)
    case Line => if c == '\n' then (Code, Plain) else (Comment, Line)
    case Quoted(q) => (Literal, if c == q then Plain else if c == '\\' then Escaped(q) else Quoted(q))
    case Escaped(q) => (Literal, Quoted(q))
  }

  /** The mode before character `i`. */
  function ModeAt(src: string, i: nat): Mode
    requires i <= |src|
  {
    if i == 0 then Plain else Step(ModeAt(src, i - 1), src[i - 1], Next(src, i - 1)).1
  }

  function KindAt(src: string, i: nat): Kind
    requires i < |src|
  {
    Step(ModeAt(src, i), src[i], Next(src, i)).0
  }

  /** What becomes of character `i`: newlines and code stay, everything else turns into a space. */
  function BlankAt(src: string, i: nat): char
    requires i < |src|
  {
    if src[i] == '\n' || KindAt(src, i) == Code then src[i] else ' '
  }

  function Blanked(src: string): (out: string)
    ensures |out| == |src|
  {
    seq(|src|, i requires 0 <= i < |src| => BlankAt(src, i))
  }

  /** Newlines before position `i`. */
  function LineOf(src: string, i: nat): (l: nat)
    requires i <= |src|
  {
    if i == 0 then 0 else LineOf(src, i - 1) + if src[i - 1] == '\n' then 1 else 0
  }

  /** The comment characters of the first `k` characters, each under the line it stands on. */
  function CommentLines(src: string, k: nat): (r: seq<string>)
    requires k <= |src|
    ensures |r| == LineOf(src, |src|) + 1
  {
    if k == 0 then seq(LineOf(src, |src|) + 1, _ => "")
    else
      var before := CommentLines(src, k - 1);
      LineGrows(src, k - 1, |src|);
      if KindAt(src, k - 1) == Comment && src[k - 1] != '\n'
      then Put(before, LineOf(src, k - 1), src[k - 1])
      else before
  }

  function Put(lines: seq<string>, at: nat, c: char): seq<string>
    requires at < |lines|
  {
    lines[at := lines[at] + [c]]
  }

  lemma {:induction false} LineGrows(src: string, i: nat, j: nat)
    requires i <= j <= |src|
    ensures LineOf(src, i) <= LineOf(src, j)
    decreases j
  {
    if i < j {
      LineGrows(src, i, j - 1);
    }
  }

  // ---- what blanking guarantees -------------------------------------------------------------------

  predicate OpensAt(s: string, i: nat)
    requires i < |s|
  {
    s[i] == '"' || s[i] == '\'' || (s[i] == '/' && (Next(s, i) == '*' || Next(s, i) == '/'))
  }

  /** The inside of a literal quoted by `q`: plain characters and backslash pairs. */
  predicate IsBody(s: string, q: char) {
    s == "" ||
    (if s[0] == '\\' then |s| > 1 && IsBody(s[2..], q) else s[0] != q && IsBody(s[1..], q))
  }

  /** A quoted body is blanked from the opening to the closing quote, escaped quotes included, and behind
      it there is code again. */
  lemma LiteralBlanked(src: string, i: nat, j: nat)
    requires i < j < |src| && ModeAt(src, i) == Plain
    requires (src[i] == '"' || src[i] == '\'') && src[j] == src[i] && IsBody(src[i + 1..j], src[i])
    ensures forall x :: i <= x <= j ==> KindAt(src, x) == Literal
    ensures ModeAt(src, j + 1) == Plain
  {
    BodyQuoted(src, i + 1, j, src[i]);
  }

  lemma {:induction false} BodyQuoted(src: string, i: nat, j: nat, q: char)
    requires i <= j < |src| && ModeAt(src, i) == Quoted(q) && q != '\\' && IsBody(src[i..j], q)
    ensures forall x :: i <= x < j ==> KindAt(src, x) == Literal
    ensures ModeAt(src, j) == Quoted(q)
    decreases j - i
  {
    if i < j {
      var n := if src[i] == '\\' then 2 else 1;
      assert src[i..j][n..] == src[i + n..j];
      if n == 2 {
        assert ModeAt(src, i + 1) == Escaped(q) && ModeAt(src, i + 2) == Quoted(q);
      } else {
        assert ModeAt(src, i + 1) == Quoted(q);
      }
      BodyQuoted(src, i + n, j, q);
    }
  }

  /** A code character that opens nothing is all that gets through. */
  lemma NothingOpens(src: string, i: nat)
    requires i < |src|
    ensures !OpensAt(Blanked(src), i)
  {
    var out := Blanked(src);
    if i + 1 < |src| {
      assert out[i + 1] == BlankAt(src, i + 1);
    }
  }

  lemma {:induction false} PlainThroughout(s: string, i: nat)
    requires i <= |s| && forall k :: 0 <= k < |s| ==> !OpensAt(s, k)
    ensures ModeAt(s, i) == Plain
    ensures i < |s| ==> KindAt(s, i) == Code
  {
    if i < |s| {
      assert !OpensAt(s, i);
    }
    if i > 0 {
      PlainThroughout(s, i - 1);
    }
  }

  /** Blanking a blanked text changes nothing. */
  lemma BlankedIdempotent(src: string)
    ensures Blanked(Blanked(src)) == Blanked(src)
  {
    var out := Blanked(src);
    forall k | 0 <= k < |out|
      ensures !OpensAt(out, k)
    {
      NothingOpens(src, k);
    }
    forall k | 0 <= k < |out|
      ensures Blanked(out)[k] == out[k]
    {
      PlainThroughout(out, k);
    }
  }

  /** Offsets still name the same lines. */
  lemma {:induction false} LinesKept(src: string, i: nat)
    requires i <= |src|
    ensures LineOf(Blanked(src), i) == LineOf(src, i)
  {
    if i > 0 {
      LinesKept(src, i - 1);
      assert Blanked(src)[i - 1] == BlankAt(src, i - 1);
      if src[i - 1] != '\n' && KindAt(src, i - 1) == Code {
        assert Blanked(src)[i - 1] == src[i - 1];
      }
    }
  }

  // ---- tokens as runs of the automaton ----------------------------------------------------------------

  /** Between tokens: plain text, or the newline that ends a line comment. */
  ghost predicate Between(src: string, i: nat) {
    i < |src| ==> ModeAt(src, i) == Plain || (ModeAt(src, i) == Line && src[i] == '\n')
  }

  /** Characters `i` to `j` are all of one kind, and a new token can start at `j`. */
  ghost predicate Token(src: string, i: nat, j: nat, k: Kind)
  {
    i < j <= |src| && (forall x :: i <= x < j ==> KindAt(src, x) == k) && Between(src, j)
  }

  predicate OccursAt(s: string, pat: string, x: nat) {
    x + |pat| <= |s| && s[x..x + |pat|] == pat
  }

  /** `find(pat, from)`: the first occurrence at or after `from`, -1 if there is none. */
  method Find(s: string, pat: string, from: nat) returns (j: int)
    requires pat != ""
    ensures j == -1 || (from <= j && OccursAt(s, pat, j))
    ensures forall x :: from <= x && (j < 0 || x < j) ==> !OccursAt(s, pat, x)
  {
    j := from;
    while j + |pat| <= |s|
      invariant from <= j
      invariant forall x :: from <= x < j ==> !OccursAt(s, pat, x)
    {
      if s[j..j + |pat|] == pat {
        return;
      }
      j := j + 1;
    }
    return -1;
  }

  lemma {:induction false} InBlock(src: string, i: nat, x: nat)
    requires i + 2 <= x <= |src| && ModeAt(src, i) == Plain && src[i] == '/' && src[i + 1] == '*'
    requires forall y :: i + 2 <= y < x - 1 ==> !(src[y] == '*' && src[y + 1] == '/')
    ensures KindAt(src, i) == KindAt(src, i + 1) == Comment
    ensures forall y :: i <= y < x ==> KindAt(src, y) == Comment
    ensures ModeAt(src, x) == if x > i + 2 && src[x - 1] == '*' && Next(src, x - 1) == '/' then BlockClosing else Block
    decreases x
  {
    if x == i + 2 {
      assert ModeAt(src, i + 1) == BlockOpened;
    } else {
      InBlock(src, i, x - 1);
    }
  }

  lemma BlockToken(src: string, i: nat, end: int)
    requires i + 1 < |src| && ModeAt(src, i) == Plain && src[i] == '/' && src[i + 1] == '*'
    requires end == -1 || i + 2 <= end <= |src| - 2
    requires end >= 0 ==> src[end] == '*' && src[end + 1] == '/'
    requires forall y :: i + 2 <= y && y + 2 <= |src| && (end < 0 || y < end) ==> !(src[y] == '*' && src[y + 1] == '/')
    ensures Token(src, i, if end < 0 then |src| else end + 2, Comment)
  {
    if end < 0 {
      InBlock(src, i, |src|);
    } else {
      InBlock(src, i, end + 1);
      assert ModeAt(src, end + 1) == BlockClosing;
    }
  }

  lemma {:induction false} InLine(src: string, i: nat, x: nat)
    requires i + 1 <= x <= |src| && i + 1 < |src| && ModeAt(src, i) == Plain && src[i] == '/' && src[i + 1] == '/'
    requires forall y :: i <= y < x ==> src[y] != '\n'
    ensures forall y :: i <= y < x ==> KindAt(src, y) == Comment
    ensures ModeAt(src, x) == Line
    decreases x
  {
    if x > i + 1 {
      InLine(src, i, x - 1);
    }
  }

  // ---- the scanner ----------------------------------------------------------------------------------------

  /** `text` filed under consecutive lines from `at` on; lines past the end are dropped. */
  function FileText(lines: seq<string>, text: string, at: nat): (r: seq<string>)
    ensures |r| == |lines|
    decreases |text|
  {
    if text == "" then lines
    else if text[0] == '\n' then FileText(lines, text[1..], at + 1)
    else FileText(if at < |lines| then Put(lines, at, text[0]) else lines, text[1..], at)
  }

  /** Filing the text of a comment is filing its characters one by one. */
  lemma {:induction false} FileComment(src: string, i: nat, j: nat)
    requires i <= j <= |src| && forall x :: i <= x < j ==> KindAt(src, x) == Comment
    ensures FileText(CommentLines(src, i), src[i..j], LineOf(src, i)) == CommentLines(src, j)
    decreases j - i
  {
    if i < j {
      assert src[i..j][1..] == src[i + 1..j];
      LineGrows(src, i, |src|);
      FileComment(src, i + 1, j);
    }
  }

  lemma {:induction false} NothingFiled(src: string, i: nat, j: nat)
    requires i <= j <= |src| && forall x :: i <= x < j ==> KindAt(src, x) != Comment
    ensures CommentLines(src, j) == CommentLines(src, i)
    decreases j
  {
    if i < j {
      NothingFiled(src, i, j - 1);
    }
  }

  /** `text.split("\n")`. */
  method Split(text: string) returns (pieces: seq<string>)
    ensures |pieces| > 0 && forall p :: p in pieces ==> '\n' !in p
    ensures Joined(pieces) == text
  {
    pieces := [""];
    for k := 0 to |text|
      invariant |pieces| > 0 && forall p :: p in pieces ==> '\n' !in p
      invariant Joined(pieces) == text[..k]
    {
      var last := |pieces| - 1;
      assert pieces == pieces[..last] + [pieces[last]];
      assert text[..k + 1] == text[..k] + [text[k]];
      JoinedLast(pieces[..last], pieces[last]);
      if text[k] == '\n' {
        JoinedLast(pieces, "");
        pieces := pieces + [""];
      } else {
        JoinedLast(pieces[..last], pieces[last] + [text[k]]);
        pieces := pieces[..last] + [pieces[last] + [text[k]]];
      }
    }
    assert text[..|text|] == text;
  }

  function Joined(pieces: seq<string>): string {
    if pieces == [] then "" else if |pieces| == 1 then pieces[0] else pieces[0] + "\n" + Joined(pieces[1..])
  }

  lemma {:induction false} JoinedLast(pieces: seq<string>, p: string)
    ensures Joined(pieces + [p]) == if pieces == [] then p else Joined(pieces) + "\n" + p
    decreases |pieces|
  {
    if pieces != [] {
      assert (pieces + [p])[1..] == pieces[1..] + [p];
      JoinedLast(pieces[1..], p);
    }
  }

  /** File a comment piece by piece. */
  method Record(lines: seq<string>, text: string, at: nat) returns (r: seq<string>)
    ensures r == FileText(lines, text, at)
  {
    var pieces := Split(text);
    r := lines;
    for k := 0 to |pieces|
      invariant |r| == |lines|
      invariant FileText(lines, text, at) == FileText(r, Joined(pieces[k..]), at + k)
    {
      hide FileText, Joined;
      NextPiece(r, pieces, k, at + k);
      if at + k < |r| {
        r := r[at + k := r[at + k] + pieces[k]];
      }
    }
  }

  /** The first piece left goes to its line, if there is such a line, and the next one a line down. */
  lemma NextPiece(lines: seq<string>, pieces: seq<string>, k: nat, at: nat)
    requires k < |pieces| && '\n' !in pieces[k]
    ensures FileText(lines, Joined(pieces[k..]), at)
         == FileText(if at < |lines| then lines[at := lines[at] + pieces[k]] else lines,
                     Joined(pieces[k + 1..]), at + 1)
  {
    var rest := if k + 1 < |pieces| then "\n" + Joined(pieces[k + 1..]) else "";
    assert pieces[k..][1..] == pieces[k + 1..];
    assert Joined(pieces[k..]) == pieces[k] + rest;
    if at < |lines| {
      FilePiece(lines, pieces[k], rest, at);
    } else {
      DropPiece(lines, pieces[k], rest, at);
    }
    assert k + 1 < |pieces| ==> rest[0] == '\n' && rest[1..] == Joined(pieces[k + 1..]);
  }

  lemma {:induction false} FilePiece(lines: seq<string>, p: string, rest: string, at: nat)
    requires '\n' !in p && at < |lines|
    ensures FileText(lines, p + rest, at) == FileText(lines[at := lines[at] + p], rest, at)
    decreases |p|
  {
    if p == "" {
      assert p + rest == rest && lines[at] + p == lines[at];
      assert lines[at := lines[at] + p] == lines;
    } else {
      var lines' := Put(lines, at, p[0]);
      assert (p + rest)[1..] == p[1..] + rest;
      FilePiece(lines', p[1..], rest, at);
      assert lines'[at] + p[1..] == lines[at] + p;
      assert lines'[at := lines'[at] + p[1..]] == lines[at := lines[at] + p];
    }
  }

  lemma {:induction false} DropPiece(lines: seq<string>, p: string, rest: string, at: nat)
    requires '\n' !in p && at >= |lines|
    ensures FileText(lines, p + rest, at) == FileText(lines, rest, at)
    decreases |p|
  {
    if p == "" {
      assert p + rest == rest;
    } else {
      assert (p + rest)[1..] == p[1..] + rest;
      DropPiece(lines, p[1..], rest, at);
    }
  }

  /** Overwrite characters `i` to `j` with spaces, newlines excepted. */
  method BlankRange(out: array<char>, i: nat, j: nat)
    requires i <= j <= out.Length
    modifies out
    ensures forall x :: 0 <= x < out.Length ==>
              out[x] == if i <= x < j && old(out[x]) != '\n' then ' ' else old(out[x])
  {
    for k := i to j
      invariant forall x :: 0 <= x < out.Length ==>
                  out[x] == if i <= x < k && old(out[x]) != '\n' then ' ' else old(out[x])
    {
      if out[k] != '\n' {
        out[k] := ' ';
      }
    }
  }

  /** The end of the literal that starts at `i`. */
  method LiteralEnd(src: string, i: nat) returns (j: nat)
    requires i < |src| && ModeAt(src, i) == Plain && (src[i] == '"' || src[i] == '\'')
    ensures Token(src, i, j, Literal)
  {
    var c, n := src[i], |src|;
    j := i + 1;
    while j < n && src[j] != c
      invariant i < j <= n + 1
      invariant j <= n ==> ModeAt(src, j) == Quoted(c)
      invariant forall x :: i <= x < j && x < n ==> KindAt(src, x) == Literal
      decreases n - j
    {
      if src[j] == '\\' {
        assert ModeAt(src, j + 1) == Escaped(c);
        j := j + 2;
      } else {
        j := j + 1;
      }
    }
    j := if j + 1 < n then j + 1 else n;
  }

  lemma CloserAt(src: string, y: nat)
    ensures OccursAt(src, "*/", y) <==> y + 2 <= |src| && src[y] == '*' && src[y + 1] == '/'
  {
    if y + 2 <= |src| {
      assert src[y..y + 2] == [src[y], src[y + 1]];
      assert "*/"[0] == '*' && "*/"[1] == '/';
    }
  }

  lemma NewlineAt(src: string, y: nat)
    ensures OccursAt(src, "\n", y) <==> y < |src| && src[y] == '\n'
  {
    if y < |src| {
      assert src[y..y + 1] == [src[y]];
      assert "\n"[0] == '\n';
    }
  }

  /** The end of the comment that starts at `i`. */
  method CommentEnd(src: string, i: nat) returns (j: nat)
    requires i + 1 < |src| && ModeAt(src, i) == Plain && src[i] == '/' && (src[i + 1] == '*' || src[i + 1] == '/')
    ensures Token(src, i, j, Comment)
  {
    var n := |src|;
    var e: int;
    if src[i + 1] == '*' {
      e := Find(src, "*/", i + 2);
      forall y | i + 2 <= y <= n
        ensures OccursAt(src, "*/", y) <==> y + 2 <= n && src[y] == '*' && src[y + 1] == '/'
      {
        CloserAt(src, y);
      }
      BlockToken(src, i, e);
      j := if e < 0 then n else e + 2;
    } else {
      e := Find(src, "\n", i);
      forall y | i <= y <= n
        ensures OccursAt(src, "\n", y) <==> y < n && src[y] == '\n'
      {
        NewlineAt(src, y);
      }
      j := if e < 0 then n else e;
      InLine(src, i, j);
    }
  }

  /** Everything the scanner has settled when it stands at `i`. */
  ghost predicate Settled(src: string, out: string, comments: seq<string>, i: nat, line: nat) {
    && i <= |src| && |out| == |src| && Between(src, i)
    && (forall x :: 0 <= x < |src| ==> out[x] == if x < i then BlankAt(src, x) else src[x])
    && comments == CommentLines(src, i) && line == LineOf(src, i)
  }

  lemma SettledStart(src: string, comments: seq<string>)
    requires |comments| == LineOf(src, |src|) + 1 && forall l :: 0 <= l < |comments| ==> comments[l] == ""
    ensures Settled(src, src, comments, 0, 0)
  {
  }

  /** One character of code, a newline perhaps. */
  lemma SettledCode(src: string, out: string, comments: seq<string>, i: nat, line: nat)
    requires Settled(src, out, comments, i, line) && i < |src|
    requires src[i] == '\n' || !OpensAt(src, i)
    ensures Settled(src, out, comments, i + 1, line + if src[i] == '\n' then 1 else 0)
  {
  }

  /** One comment or literal. */
  lemma SettledToken(src: string, out: string, out': string, comments: seq<string>, i: nat, j: nat, line: nat, k: Kind)
    requires Settled(src, out, comments, i, line) && Token(src, i, j, k) && k != Code && |out'| == |out|
    requires forall x :: 0 <= x < |out| ==> out'[x] == if i <= x < j && out[x] != '\n' then ' ' else out[x]
    ensures Settled(src, out', if k == Comment then FileText(comments, src[i..j], line) else comments,
                    j, line + Newlines(src, i, j))
  {
    if k == Comment {
      FileComment(src, i, j);
    } else {
      NothingFiled(src, i, j);
    }
  }

  lemma SettledFinish(src: string, out: string, comments: seq<string>, line: nat)
    requires Settled(src, out, comments, |src|, line)
    ensures out == Blanked(src) && comments == CommentLines(src, |src|)
  {
  }

  lemma SettledPlain(src: string, out: string, comments: seq<string>, i: nat, line: nat)
    requires Settled(src, out, comments, i, line) && i < |src| && src[i] != '\n'
    ensures ModeAt(src, i) == Plain
  {
  }

  /** Blank comments and literals; collect the comments line by line. */
  method BlankOut(src: string) returns (text: string, comments: seq<string>)
    ensures text == Blanked(src)
    ensures comments == CommentLines(src, |src|)
  {
    hide Settled, KindAt, ModeAt, BlankAt, CommentLines, LineOf, FileText, Token, Newlines, Blanked;
    var out := new char[|src|](k requires 0 <= k < |src| => src[k]);
    assert out[..] == src;
    comments := seq(Newlines(src, 0, |src|) + 1, _ => "");
    LineOfZero(src);
    SettledStart(src, comments);
    var i: nat, line: nat := 0, 0;
    while i < |src|
      invariant i <= |src| == out.Length && Settled(src, out[..], comments, i, line)
    {
      var c := src[i];
      ghost var before, filed := out[..], comments;
      if c == '\n' {
        SettledCode(src, before, comments, i, line);
        line := line + 1;
        i := i + 1;
        continue;
      }
      SettledPlain(src, before, comments, i, line);
      if c == '/' && i + 1 < |src| && (src[i + 1] == '*' || src[i + 1] == '/') {
        var j := CommentEnd(src, i);
        TokenFits(src, i, j, Comment);
        comments := Record(comments, src[i..j], line);
        BlankRange(out, i, j);
        SettledToken(src, before, out[..], filed, i, j, line, Comment);
        line := line + Newlines(src, i, j);
        i := j;
      } else if c == '"' || c == '\'' {
        var j := LiteralEnd(src, i);
        TokenFits(src, i, j, Literal);
        BlankRange(out, i, j);
        SettledToken(src, before, out[..], filed, i, j, line, Literal);
        line := line + Newlines(src, i, j);
        i := j;
      } else {
        SettledCode(src, before, comments, i, line);
        i := i + 1;
      }
    }
    SettledFinish(src, out[..], comments, line);
    text := out[..];
  }

  lemma TokenFits(src: string, i: nat, j: nat, k: Kind)
    requires Token(src, i, j, k)
    ensures i < j <= |src|
  {
  }

  lemma LineOfZero(src: string)
    ensures Newlines(src, 0, |src|) == LineOf(src, |src|)
  {
  }

  /** `src.count("\n", i, j)`. */
  function Newlines(src: string, i: nat, j: nat): (n: nat)
    requires i <= j <= |src|
    ensures n == LineOf(src, j) - LineOf(src, i)
    decreases j
  {
    if i == j then 0 else Newlines(src, i, j - 1) + if src[j - 1] == '\n' then 1 else 0
  }
}
