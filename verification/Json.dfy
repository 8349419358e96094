/**
 * The gateway's JSON writer and its flat-object field reader, and exactly when the reader gets back
 * what the writer wrote. Strings are C strings: no NUL inside, NUL past the end.
 */
module Json {
  import opened Options

  // ---- writing --------------------------------------------------------------------------------------

  /** Two lower-case hexadecimal digits. */
  function Hex2(c: char): (r: string)
    requires c < ' '
    ensures |r| == 2
  {
    var n := c as int;
    [if n >= 16 then '1' else '0', "0123456789abcdef"[n % 16]]
  }

  /** The value of a hexadecimal digit, by its code. */
  function HexValue(c: char): int {
    var n := c as int;
    if 48 <= n <= 57 then n - 48 else if 97 <= n <= 102 then n - 87 else if 65 <= n <= 70 then n - 55 else -1
  }

  /** The two digits, read in base 16, give the character. */
  lemma Hex2Value(c: char)
    requires c < ' '
    ensures var h := Hex2(c);
            && 0 <= HexValue(h[0]) < 16 && 0 <= HexValue(h[1]) < 16
            && 16 * HexValue(h[0]) + HexValue(h[1]) == c as int
  {
    var digits := "0123456789abcdef";
    assert forall k :: 0 <= k < 16 ==> HexValue(digits[k]) == k;
  }

  /** The code of the character an escape sequence stands for (section 7 of RFC 8259); -1 if it is none.
      34 is the quotation mark, 92 the backslash. */
  function Meaning(e: string): int {
    if |e| == 1 then (if e[0] as int == 34 || e[0] as int == 92 || (e[0] as int) < 32 then -1 else e[0] as int)
    else if |e| == 2 && e[0] as int == 92 then
      (match e[1] as int
       case 34 => 34
       case 92 => 92
       case 47 => 47
       case 98 => 8
       case 102 => 12
       case 110 => 10
       case 114 => 13
       case 116 => 9
       case _ => -1)
    else if |e| == 6 && e[0] as int == 92 && e[1] as int == 117 && forall k :: 2 <= k < 6 ==> HexValue(e[k]) >= 0
    then 4096 * HexValue(e[2]) + 256 * HexValue(e[3]) + 16 * HexValue(e[4]) + HexValue(e[5])
    else -1
  }

  /** Every character is written in a way that means this character. */
  lemma EscapeMeans(c: char)
    ensures Meaning(EscapeChar(c)) == c as int
  {
    if c < ' ' {
      Hex2Value(c);
    }
  }

  function EscapeChar(c: char): string {
    if c == '"' then "\\\""
    else if c == '\\' then "\\\\"
    else if c == '\n' then "\\n"
    else if c == '\r' then "\\r"
    else if c == '\t' then "\\t"
    else if c < ' ' then "\\u00" + Hex2(c)
    else [c]
  }

  function Escape(s: string): string {
    if s == "" then "" else EscapeChar(s[0]) + Escape(s[1..])
  }

  function Quote(s: string): string {
    "\"" + Escape(s) + "\""
  }

  datatype Value = Text(s: string) | Number(digits: string)

  datatype Field = Field(key: string, value: Value)

  function Render(v: Value): string {
    match v
    case Text(s) => Quote(s)
    case Number(d) => d
  }

  /** One member: quoted key, colon, value. */
  function Member(f: Field): string {
    Quote(f.key) + ":" + Render(f.value)
  }

  function Comma(more: bool): string {
    if more then "," else ""
  }

  /** The members from the first on, commas between them, and the closing brace. */
  function Members(fs: seq<Field>): string {
    if fs == [] then "}"
    else Member(fs[0]) + Comma(|fs| > 1) + Members(fs[1..])
  }

  function Object(fs: seq<Field>): string {
    "{" + Members(fs)
  }

  lemma Regroup(a: string, b: string, c: string, d: string)
    ensures a + (b + c + d) == a + b + (c + d)
    ensures a + b + c == a + (b + c)
  {
  }

  lemma EscapeAt(s: string, i: nat)
    requires i < |s|
    ensures Escape(s[i..]) == EscapeChar(s[i]) + Escape(s[i + 1..])
  {
    assert s[i..][1..] == s[i + 1..];
  }

  lemma MembersAt(fs: seq<Field>, i: nat)
    requires i < |fs|
    ensures Members(fs[i..]) == Member(fs[i]) + Comma(i + 1 < |fs|) + Members(fs[i + 1..])
  {
    assert fs[i..][1..] == fs[i + 1..];
  }

  lemma MemberPlaced(before: string, c: string, f: Field, d: string, rest: string)
    ensures before + c + Quote(f.key) + ":" + Render(f.value) + (d + rest) == before + (c + (Member(f) + d + rest))
  {
    hide Quote, Render;
    var k, v := Quote(f.key), Render(f.value);
    assert before + c + k + ":" + v == before + c + (k + ":" + v);
    assert before + (c + (Member(f) + d + rest)) == before + c + Member(f) + (d + rest);
  }

  lemma ObjectStart(before: string, fs: seq<Field>)
    ensures before + "{" + (Comma(false) + Members(fs[0..])) == before + Object(fs)
  {
    assert fs[0..] == fs && Comma(false) + Members(fs) == Members(fs);
  }

  lemma ObjectEnd(fs: seq<Field>)
    ensures Comma(false) + Members(fs[|fs|..]) == "}"
  {
  }

  // ---- the growing buffer ---------------------------------------------------------------------------

  class Buf {
    var p: array<char>
    var n: nat
    ghost var text: string

    /** `text` is what has been appended; a NUL follows it unless nothing ever was. */
    ghost predicate Valid()
      reads this, p
    {
      && n == |text| <= p.Length && p[..n] == text
      && (p.Length > 0 ==> n < p.Length && p[n] == '\0')
    }

    constructor ()
      ensures Valid() && text == "" && fresh(p)
    {
      p := new char[0];
      n := 0;
      text := "";
    }

    /** Append, growing by doubling. */
    method Put(s: string)
      requires Valid()
      modifies this, p
      ensures Valid() && (p == old(p) || fresh(p))
      ensures text == old(text) + s
    {
      if n + |s| + 1 > p.Length {
        var cap := if p.Length > 0 then p.Length * 2 else 4096;
        while cap < n + |s| + 1
          invariant cap > 0
          decreases n + |s| + 1 - cap
        {
          cap := cap * 2;
        }
        var q := new char[cap];
        forall i | 0 <= i < n {
          q[i] := p[i];
        }
        assert q[..n] == p[..n];
        p := q;
      }
      forall i | 0 <= i < |s| {
        p[n + i] := s[i];
      }
      text := text + s;
      assert p[..n + |s|] == text;
      n := n + |s|;
      p[n] := '\0';
      assert p[..n] == text;
    }

    /** A quoted, escaped string. */
    method PutString(s: string)
      requires Valid()
      modifies this, p
      ensures Valid() && (p == old(p) || fresh(p))
      ensures text == old(text) + Quote(s)
    {
      ghost var goal := text + Quote(s);
      Put("\"");
      assert s[0..] == s && s[|s|..] == "" && Escape("") == "";
      Regroup(old(text), "\"", Escape(s), "\"");
      hide Escape, EscapeChar, Valid;
      for i := 0 to |s|
        invariant Valid() && (p == old(p) || fresh(p))
        invariant text + (Escape(s[i..]) + "\"") == goal
      {
        EscapeAt(s, i);
        Regroup(text, EscapeChar(s[i]), Escape(s[i + 1..]), "\"");
        Put(EscapeChar(s[i]));
      }
      assert "" + "\"" == "\"";
      Put("\"");
    }

    /** A key with its colon, a comma before it unless it is the first. */
    method PutKey(k: string, first: bool)
      requires Valid()
      modifies this, p
      ensures Valid() && (p == old(p) || fresh(p))
      ensures text == old(text) + Comma(!first) + Quote(k) + ":"
    {
      if !first {
        Put(",");
      }
      PutString(k);
      Put(":");
    }

    /** A whole flat object. */
    method PutObject(fs: seq<Field>)
      requires Valid()
      modifies this, p
      ensures Valid() && (p == old(p) || fresh(p))
      ensures text == old(text) + Object(fs)
    {
      ghost var goal := text + Object(fs);
      Put("{");
      ObjectStart(old(text), fs);
      hide Members, Quote, Valid, Member, Object, Comma;
      for i := 0 to |fs|
        invariant Valid() && (p == old(p) || fresh(p))
        invariant text + (Comma(0 < i < |fs|) + Members(fs[i..])) == goal
      {
        MembersAt(fs, i);
        PutMember(fs[i], i == 0, i + 1 == |fs|, Members(fs[i + 1..]), goal);
      }
      ObjectEnd(fs);
      Put("}");
    }

    /** One member; `goal` is what the buffer is to hold once `rest` has been appended too. */
    method PutMember(f: Field, first: bool, last: bool, ghost rest: string, ghost goal: string)
      requires Valid()
      requires text + (Comma(!first) + (Member(f) + Comma(!last) + rest)) == goal
      modifies this, p
      ensures Valid() && (p == old(p) || fresh(p))
      ensures text + (Comma(!last) + rest) == goal
    {
      hide Quote, Valid, Comma, Member;
      ghost var start := text;
      PutKey(f.key, first);
      match f.value {
        case Text(s) => PutString(s);
        case Number(d) => Put(d);
      }
      MemberPlaced(start, Comma(!first), f, Comma(!last), rest);
    }
  }

  // ---- reading ----------------------------------------------------------------------------------------

  predicate IsWs(c: char) {
    c == ' ' || c == '\t' || c == '\n' || c == '\r'
  }

  function SkipWs(s: string): string {
    if s != "" && IsWs(s[0]) then SkipWs(s[1..]) else s
  }

  predicate IsNum(c: char) {
    '0' <= c <= '9' || c == '-'
  }

  /** The longest run of digits and signs at the front. */
  function NumRun(s: string): string {
    if s != "" && IsNum(s[0]) then [s[0]] + NumRun(s[1..]) else ""
  }

  function Unescape(c: char): char {
    if c == 'n' then '\n' else if c == 't' then '\t' else if c == 'r' then '\r' else c
  }

  /** The string up to the closing quote, backslash pairs undone; none if there is no closing quote. */
  function Unquote(s: string): Option<string> {
    if s == "" then None
    else if s[0] == '"' then Some("")
    else
      var two := s[0] == '\\' && |s| > 1;
      var c := if two then Unescape(s[1]) else s[0];
      match Unquote(if two then s[2..] else s[1..])
      case None => None
      case Some(r) => Some([c] + r)
  }

  /** What follows the first occurrence of `pat`. */
  function After(s: string, pat: string): Option<string> {
    if pat <= s then Some(s[|pat|..])
    else if s == "" then None
    else After(s[1..], pat)
  }

  /** The value that stands after a matched key. */
  function ValueAfter(rest: string): Option<string> {
    var s := SkipWs(rest);
    if s == "" || s[0] != ':' then None
    else
      var v := SkipWs(s[1..]);
      if v != "" && v[0] == '"' then Unquote(v[1..])
      else if NumRun(v) == "" then None
      else Some(NumRun(v))
  }

  /** The search pattern, cut to the size of the buffer it is printed into. */
  function Pattern(key: string): string {
    var pat := "\"" + key + "\"";
    if |pat| > 79 then pat[..79] else pat
  }

  function Get(body: string, key: string): Option<string> {
    match After(body, Pattern(key))
    case None => None
    case Some(rest) => ValueAfter(rest)
  }

  /** The character a pointer into a C string sees. */
  function At(s: string, i: nat): char {
    if i < |s| then s[i] else '\0'
  }

  /** `strstr`, then past the match; -1 when there is none. */
  method SkipPast(body: string, pat: string) returns (p: int)
    ensures p == -1 || 0 <= p <= |body|
    ensures After(body, pat) == if p < 0 then None else Some(body[p..])
  {
    p := 0;
    assert body[0..] == body;
    while p + |pat| <= |body| && body[p..p + |pat|] != pat
      invariant 0 <= p <= |body| && After(body, pat) == After(body[p..], pat)
    {
      assert body[p..][1..] == body[p + 1..] && body[p..p + |pat|] == body[p..][..|pat|];
      p := p + 1;
    }
    if p + |pat| > |body| {
      TooShort(body[p..], pat);
      return -1;
    }
    assert body[p..][..|pat|] == pat && body[p..][|pat|..] == body[p + |pat|..];
    p := p + |pat|;
  }

  /** The reader, walking a pointer through the body. */
  method GetField(body: string, key: string) returns (r: Option<string>)
    requires '\0' !in body
    ensures r == Get(body, key)
  {
    var p := SkipPast(body, Pattern(key));
    if p < 0 {
      return None;
    }
    hide After, SkipWs, NumRun, Unquote;
    p := SkipSpace(body, p);
    if At(body, p) != ':' {
      return None;
    }
    assert body[p..][1..] == body[p + 1..];
    p := SkipSpace(body, p + 1);
    if At(body, p) != '"' {
      var q := SkipNumber(body, p);
      return if q == p then None else Some(body[p..q]);
    }
    assert body[p..][1..] == body[p + 1..];
    r := ReadString(body, p + 1);
  }

  method SkipNumber(body: string, p: nat) returns (q: nat)
    requires p <= |body|
    ensures p <= q <= |body| && NumRun(body[p..]) == body[p..q]
  {
    q := p;
    while IsNum(At(body, q))
      invariant p <= q <= |body| && NumRun(body[p..]) == body[p..q] + NumRun(body[q..])
      decreases |body| - q
    {
      NumRunStep(body, p, q);
      q := q + 1;
    }
  }

  lemma NumRunStep(body: string, p: nat, q: nat)
    requires p <= q < |body| && IsNum(body[q])
    ensures body[p..q] + NumRun(body[q..]) == body[p..q + 1] + NumRun(body[q + 1..])
  {
    assert body[q..][1..] == body[q + 1..];
  }

  lemma {:induction false} TooShort(s: string, pat: string)
    requires |s| < |pat|
    ensures After(s, pat) == None
  {
    if s != "" {
      TooShort(s[1..], pat);
    }
  }

  method SkipSpace(body: string, from: nat) returns (p: nat)
    requires from <= |body|
    ensures from <= p <= |body| && body[p..] == SkipWs(body[from..])
  {
    p := from;
    while IsWs(At(body, p))
      invariant from <= p <= |body| && SkipWs(body[p..]) == SkipWs(body[from..])
      decreases |body| - p
    {
      assert body[p..][1..] == body[p + 1..];
      p := p + 1;
    }
  }

  /** The copy loop: backslash pairs undone, up to the closing quote. */
  method ReadString(body: string, from: nat) returns (r: Option<string>)
    requires from <= |body| && '\0' !in body
    ensures r == Unquote(body[from..])
  {
    var q, o := from, "";
    PrependTwice("", "", Unquote(body[from..]));
    while At(body, q) != '\0' && At(body, q) != '"'
      invariant from <= q <= |body|
      invariant Unquote(body[from..]) == Prepend(o, Unquote(body[q..]))
      decreases |body| - q
    {
      ghost var here := q;
      var c: char;
      if At(body, q) == '\\' && At(body, q + 1) != '\0' {
        q := q + 1;
        c := Unescape(body[q]);
      } else {
        c := body[q];
      }
      q := q + 1;
      UnquoteStep(body, here);
      PrependTwice(o, [c], Unquote(body[q..]));
      o := o + [c];
    }
    if q == |body| {
      assert body[q..] == "";
    } else {
      assert body[q] in body && body[q..][0] == '"' && o + "" == o;
    }
    return if At(body, q) != '"' then None else Some(o);
  }

  /** One turn of the copy loop. */
  lemma UnquoteStep(body: string, q: nat)
    requires q < |body| && body[q] != '"' && '\0' !in body
    ensures Unquote(body[q..]) ==
              if body[q] == '\\' && At(body, q + 1) != '\0'
              then Prepend([Unescape(body[q + 1])], Unquote(body[q + 2..]))
              else Prepend([body[q]], Unquote(body[q + 1..]))
  {
    if q + 1 < |body| {
      assert body[q + 1] in body;
      assert body[q..][2..] == body[q + 2..];
    }
    assert body[q..][1..] == body[q + 1..];
  }

  function Prepend(o: string, r: Option<string>): Option<string> {
    match r case None => None case Some(t) => Some(o + t)
  }

  // ---- what comes back -----------------------------------------------------------------------------------

  predicate IsIdentChar(c: char) {
    'a' <= c <= 'z' || 'A' <= c <= 'Z' || '0' <= c <= '9' || c == '_'
  }

  predicate IsIdent(s: string) {
    s != "" && forall c :: c in s ==> IsIdentChar(c)
  }

  /** No control characters but the three that have an escape of their own. */
  predicate CleanChar(c: char) {
    c >= ' ' || c == '\n' || c == '\r' || c == '\t'
  }

  predicate Clean(s: string) {
    forall i :: 0 <= i < |s| ==> CleanChar(s[i])
  }

  /** What reading back makes of one written character: a control character without an escape of its
      own loses the backslash and keeps the rest of its escape. */
  function MangleChar(c: char): string {
    if CleanChar(c) then [c] else "u00" + Hex2(c)
  }

  function Mangle(s: string): string {
    if s == "" then "" else MangleChar(s[0]) + Mangle(s[1..])
  }

  /** A string value that contains the quoted key once it is written. */
  predicate Confuses(v: string, key: string) {
    v == key || EndsWithQuoted(v, key)
  }

  predicate EndsWithQuoted(v: string, key: string) {
    |v| > |key| && v[|v| - |key| - 1..] == "\"" + key
  }

  predicate WellFormed(f: Field) {
    IsIdent(f.key) && (f.value.Number? ==> f.value.digits != "" && forall c :: c in f.value.digits ==> IsNum(c))
  }

  /** What the reader finds in a written object, member by member. */
  function Lookup(fs: seq<Field>, key: string): Option<string> {
    if fs == [] then None
    else if fs[0].key == key then Some(match fs[0].value case Text(s) => Mangle(s) case Number(d) => d)
    else if fs[0].value.Text? && Confuses(fs[0].value.s, key) then None
    else Lookup(fs[1..], key)
  }

  lemma {:induction false} MangleIff(s: string)
    ensures |Mangle(s)| >= |s| && (Mangle(s) == s <==> Clean(s))
  {
    if s != "" {
      MangleIff(s[1..]);
      assert s == [s[0]] + s[1..];
      assert Clean(s) <==> CleanChar(s[0]) && Clean(s[1..]);
      if CleanChar(s[0]) {
        assert Mangle(s)[1..] == Mangle(s[1..]);
      }
    }
  }

  lemma PrependTwice(a: string, b: string, r: Option<string>)
    ensures Prepend(a, Prepend(b, r)) == Prepend(a + b, r)
    ensures Prepend("", r) == r
  {
    if r.Some? {
      assert a + b + r.value == a + (b + r.value) && "" + r.value == r.value;
    }
  }

  lemma UnquotePlain(c: char, tail: string)
    requires c != '"' && c != '\\'
    ensures Unquote([c] + tail) == Prepend([c], Unquote(tail))
  {
    assert ([c] + tail)[1..] == tail;
  }

  lemma UnquotePair(c: char, tail: string)
    ensures Unquote(['\\', c] + tail) == Prepend([Unescape(c)], Unquote(tail))
  {
    assert (['\\', c] + tail)[2..] == tail;
  }

  lemma {:induction false} UnquotePlainRun(s: string, tail: string)
    requires forall i :: 0 <= i < |s| ==> s[i] != '"' && s[i] != '\\'
    ensures Unquote(s + tail) == Prepend(s, Unquote(tail))
  {
    if s == "" {
      assert s + tail == tail;
      PrependTwice("", "", Unquote(tail));
    } else {
      assert s + tail == [s[0]] + (s[1..] + tail) && s == [s[0]] + s[1..];
      UnquotePlain(s[0], s[1..] + tail);
      UnquotePlainRun(s[1..], tail);
      PrependTwice([s[0]], s[1..], Unquote(tail));
    }
  }

  lemma UnquoteOne(c: char, tail: string)
    ensures Unquote(EscapeChar(c) + tail) == Prepend(MangleChar(c), Unquote(tail))
  {
    if c == '"' || c == '\\' {
      UnquotePair(c, tail);
    } else if c == '\n' {
      UnquotePair('n', tail);
    } else if c == '\r' {
      UnquotePair('r', tail);
    } else if c == '\t' {
      UnquotePair('t', tail);
    } else if c >= ' ' {
      UnquotePlain(c, tail);
    } else {
      var h := "00" + Hex2(c);
      assert "\\u00" + Hex2(c) + tail == ['\\', 'u'] + (h + tail);
      UnquotePair('u', h + tail);
      UnquotePlainRun(h, tail);
      PrependTwice("u", h, Unquote(tail));
      assert "u" + h == "u00" + Hex2(c);
    }
  }

  lemma {:induction false} UnquoteEscaped(v: string, rest: string)
    ensures Unquote(Escape(v) + "\"" + rest) == Some(Mangle(v))
  {
    if v == "" {
      assert Escape(v) + "\"" + rest == "\"" + rest;
    } else {
      var tail := Escape(v[1..]) + "\"" + rest;
      UnquoteEscaped(v[1..], rest);
      assert Escape(v) + "\"" + rest == EscapeChar(v[0]) + tail;
      UnquoteOne(v[0], tail);
    }
  }

  // ---- where the key is found -------------------------------------------------------------------------------

  /** The quoted key as the reader searches for it. */
  function Quoted(key: string): string {
    "\"" + key + "\""
  }

  lemma AfterSkip(c: char, s: string, pat: string)
    requires !(pat <= [c] + s)
    ensures After([c] + s, pat) == After(s, pat)
  {
    assert ([c] + s)[1..] == s;
  }

  /** Only a quote can start a match. */
  lemma AfterPlain(c: char, s: string, key: string)
    requires c != '"'
    ensures After([c] + s, Quoted(key)) == After(s, Quoted(key))
  {
    assert Quoted(key)[0] == '"';
    AfterSkip(c, s, Quoted(key));
  }

  /** A quote starts a match exactly when the key and a quote follow it. */
  lemma AfterQuote(s: string, key: string)
    ensures After(['"'] + s, Quoted(key)) == if key + "\"" <= s then Some(s[|key| + 1..]) else After(s, Quoted(key))
  {
    var t := ['"'] + s;
    assert Quoted(key)[1..] == key + "\"" && t[1..] == s;
    PrefixCons(Quoted(key), t);
    if key + "\"" <= s {
      assert s == key + "\"" + s[|key| + 1..];
      assert t == Quoted(key) + s[|key| + 1..];
    }
  }

  /** The text of a written string begins with an identifier and a quote exactly when it is one. */
  lemma {:induction false} IdentThenQuote(k: string, w: string, rest: string)
    requires forall c :: c in k ==> IsIdentChar(c)
    ensures k + "\"" <= Escape(w) + "\"" + rest <==> w == k
  {
    var t := Escape(w) + "\"" + rest;
    if w == "" {
      assert t == "\"" + rest;
      if k != "" {
        assert k[0] in k && (k + "\"")[0] == k[0] && t[0] == '"';
      }
    } else if k == "" {
      assert (k + "\"")[0] == '"' && t[0] == EscapeChar(w[0])[0];
    } else if EscapeChar(w[0]) == [w[0]] {
      var t' := Escape(w[1..]) + "\"" + rest;
      assert t == [w[0]] + t' && k + "\"" == [k[0]] + (k[1..] + "\"");
      IdentThenQuote(k[1..], w[1..], rest);
      assert k == [k[0]] + k[1..] && w == [w[0]] + w[1..];
      assert t[1..] == t' && (k + "\"")[1..] == k[1..] + "\"";
      PrefixCons(k + "\"", t);
    } else {
      assert k[0] in k && t[0] == '\\' && (k + "\"")[0] == k[0];
      assert w[0] == '"' || w[0] == '\\' || w[0] < ' ';
    }
  }

  lemma PrefixCons(a: string, b: string)
    requires a != "" && b != ""
    ensures a <= b <==> a[0] == b[0] && a[1..] <= b[1..]
  {
    if a[0] == b[0] && a[1..] <= b[1..] {
      assert a == [a[0]] + a[1..] && b == [b[0]] + b[1..];
    }
  }

  /** Searching on from inside a written string: its own end may be taken for the end of the key. */
  lemma {:induction false} AfterEscaped(v: string, rest: string, key: string)
    requires IsIdent(key) && rest != "" && !IsIdentChar(rest[0])
    ensures After(Escape(v) + "\"" + rest, Quoted(key))
         == if EndsWithQuoted(v, key) then Some(rest) else After(rest, Quoted(key))
  {
    if v == "" {
      assert Escape(v) + "\"" + rest == ['"'] + rest;
      AfterQuote(rest, key);
      assert key[0] in key && (key + "\"")[0] == key[0];
    } else {
      var tail := Escape(v[1..]) + "\"" + rest;
      AfterEscaped(v[1..], rest, key);
      assert Escape(v) + "\"" + rest == EscapeChar(v[0]) + tail;
      hide Escape, EscapeChar, After, EndsWithQuoted, IsIdent;
      AfterEscapeChar(v[0], tail, key);
      KeyStart(key);
      EndsWithQuotedStep(v, key);
      IdentThenQuote(key, v[1..], rest);
      if v[1..] == key {
        KeyCut(key, rest);
      }
    }
  }

  lemma KeyStart(key: string)
    requires IsIdent(key)
    ensures key != "" && key[0] != '"' && forall c :: c in key ==> IsIdentChar(c)
  {
    assert key[0] in key;
  }

  lemma KeyCut(key: string, rest: string)
    requires IsIdent(key)
    ensures Escape(key) == key && (key + "\"" + rest)[|key| + 1..] == rest
  {
    EscapeIdent(key);
  }

  lemma EndsWithQuotedStep(v: string, key: string)
    requires v != "" && key != "" && key[0] != '"'
    ensures EndsWithQuoted(v, key) <==> (v[0] == '"' && v[1..] == key) || EndsWithQuoted(v[1..], key)
    ensures v[1..] == key ==> !EndsWithQuoted(v[1..], key)
  {
    var n := |v| - |key| - 1;
    if n >= 1 {
      assert v[n..] == v[1..][n - 1..];
    } else if n == 0 {
      assert v == [v[0]] + v[1..];
      assert v[0..] == v;
      assert ("\"" + key)[1..] == key;
    }
  }

  lemma {:induction false} EscapeIdent(k: string)
    requires forall c :: c in k ==> IsIdentChar(c)
    ensures Escape(k) == k
  {
    if k != "" {
      assert k[0] in k && k == [k[0]] + k[1..];
      EscapeIdent(k[1..]);
    }
  }

  /** Over one escaped character: a match can start only at an escaped quote. */
  lemma AfterEscapeChar(c: char, tail: string, key: string)
    ensures After(EscapeChar(c) + tail, Quoted(key))
         == if c == '"' && key + "\"" <= tail then Some(tail[|key| + 1..]) else After(tail, Quoted(key))
  {
    if c == '"' {
      assert EscapeChar(c) + tail == ['\\'] + (['"'] + tail);
      AfterPlain('\\', ['"'] + tail, key);
      AfterQuote(tail, key);
    } else {
      AfterPlainRun(EscapeChar(c), tail, key);
    }
  }

  lemma {:induction false} AfterPlainRun(s: string, tail: string, key: string)
    requires forall i :: 0 <= i < |s| ==> s[i] != '"'
    ensures After(s + tail, Quoted(key)) == After(tail, Quoted(key))
  {
    if s == "" {
      assert s + tail == tail;
    } else {
      assert s + tail == [s[0]] + (s[1..] + tail);
      AfterPlain(s[0], s[1..] + tail, key);
      AfterPlainRun(s[1..], tail, key);
    }
  }

  /** Over a whole written string. */
  lemma AfterString(v: string, rest: string, key: string)
    requires IsIdent(key) && rest != "" && !IsIdentChar(rest[0])
    ensures After(Quote(v) + rest, Quoted(key)) == if Confuses(v, key) then Some(rest) else After(rest, Quoted(key))
  {
    var t := Escape(v) + "\"" + rest;
    assert Quote(v) + rest == ['"'] + t;
    AfterQuote(t, key);
    IdentThenQuote(key, v, rest);
    AfterEscaped(v, rest, key);
    if v == key {
      EscapeIdent(key);
      assert t[|key| + 1..] == rest;
    }
  }

  lemma NoQuoteInIdent(v: string, key: string)
    requires IsIdent(v)
    ensures !EndsWithQuoted(v, key)
  {
    if |v| > |key| {
      var i := |v| - |key| - 1;
      assert v[i] in v && v[i..][0] == v[i] && ("\"" + key)[0] == '"';
    }
  }

  // ---- the reader against the writer -----------------------------------------------------------------------

  /** What follows a member's value: a comma and more members, or the closing brace. */
  function Tail(fs: seq<Field>): string
    requires fs != []
  {
    Comma(|fs| > 1) + Members(fs[1..])
  }

  lemma TailStart(fs: seq<Field>)
    requires fs != []
    ensures Tail(fs) != "" && Tail(fs)[0] in {',', '}'}
  {
  }

  lemma {:induction false} NumRunOf(d: string, rest: string)
    requires forall c :: c in d ==> IsNum(c)
    requires rest != "" && !IsNum(rest[0])
    ensures NumRun(d + rest) == d
  {
    if d == "" {
      assert d + rest == rest;
    } else {
      assert d[0] in d && (d + rest)[1..] == d[1..] + rest && d == [d[0]] + d[1..];
      NumRunOf(d[1..], rest);
    }
  }

  /** Past a matched key the value is read; past anything else nothing is. */
  lemma ValueRead(f: Field, rest: string)
    requires WellFormed(f) && rest != "" && rest[0] in {',', '}'}
    ensures ValueAfter(":" + Render(f.value) + rest)
         == Some(match f.value case Text(s) => Mangle(s) case Number(d) => d)
    ensures ValueAfter(rest) == None
  {
    var t := Render(f.value) + rest;
    assert ":" + Render(f.value) + rest == [':'] + t;
    match f.value {
      case Text(s) => StringRead(s, rest);
      case Number(d) => NumberRead(d, rest);
    }
    AfterColon(t);
  }

  lemma AfterColon(t: string)
    requires t != "" && !IsWs(t[0])
    ensures ValueAfter([':'] + t)
         == if t[0] == '"' then Unquote(t[1..]) else if NumRun(t) == "" then None else Some(NumRun(t))
  {
    assert ([':'] + t)[1..] == t && SkipWs(t) == t;
  }

  lemma StringRead(s: string, rest: string)
    ensures Quote(s) + rest != "" && (Quote(s) + rest)[0] == '"'
    ensures Unquote((Quote(s) + rest)[1..]) == Some(Mangle(s))
  {
    assert Quote(s) + rest == ['"'] + (Escape(s) + "\"" + rest);
    assert (Quote(s) + rest)[1..] == Escape(s) + "\"" + rest;
    UnquoteEscaped(s, rest);
  }

  lemma NumberRead(d: string, rest: string)
    requires d != "" && forall c :: c in d ==> IsNum(c)
    requires rest != "" && !IsNum(rest[0])
    ensures d + rest != "" && NumRun(d + rest) == d && IsNum((d + rest)[0])
  {
    assert d[0] in d && (d + rest)[0] == d[0];
    NumRunOf(d, rest);
  }

  /** The exact answer of the reader on any written object: member by member from the front, the first
      that has the key or a value that looks like it decides. */
  lemma {:induction false} MembersFound(fs: seq<Field>, key: string)
    requires IsIdent(key) && forall f :: f in fs ==> WellFormed(f)
    ensures var a := After(Members(fs), Quoted(key));
            (if a.None? then None else ValueAfter(a.value)) == Lookup(fs, key)
  {
    if fs == [] {
      assert Members(fs) == ['}'] + "";
      AfterPlain('}', "", key);
      assert After("", Quoted(key)) == None;
    } else {
      assert fs[0] in fs && forall g :: g in fs[1..] ==> g in fs;
      MembersFound(fs[1..], key);
      hide WellFormed, Members, After, ValueAfter;
      MembersSplit(fs, key);
      TailStart(fs);
      AfterValue(fs[0].value, Tail(fs), key);
      AfterComma(fs, key);
      ValueRead(fs[0], Tail(fs));
    }
  }

  /** Over the key of the first member. */
  lemma MembersSplit(fs: seq<Field>, key: string)
    requires fs != [] && IsIdent(key) && WellFormed(fs[0])
    ensures After(Members(fs), Quoted(key))
         == if fs[0].key == key then Some(":" + Render(fs[0].value) + Tail(fs))
            else After(Render(fs[0].value) + Tail(fs), Quoted(key))
    ensures fs[0].value.Number? ==> forall c :: c in fs[0].value.digits ==> IsNum(c)
  {
    var f, rest := fs[0], Tail(fs);
    var v := Render(f.value) + rest;
    MembersOpen(fs);
    hide Quote, Render, Tail, Members, After, IsIdent, WellFormed;
    AfterMemberKey(f, v, key);
    assert ":" + Render(f.value) + rest == [':'] + v;
    AfterPlain(':', v, key);
  }

  lemma MembersOpen(fs: seq<Field>)
    requires fs != []
    ensures Members(fs) == Quote(fs[0].key) + ([':'] + (Render(fs[0].value) + Tail(fs)))
  {
    hide Quote, Render, Comma;
    var q, r, c, m := Quote(fs[0].key), Render(fs[0].value), Comma(|fs| > 1), Members(fs[1..]);
    assert q + ":" + r + c + m == q + ([':'] + (r + (c + m)));
  }

  lemma AfterMemberKey(f: Field, v: string, key: string)
    requires IsIdent(key) && WellFormed(f)
    ensures After(Quote(f.key) + ([':'] + v), Quoted(key))
         == if f.key == key then Some([':'] + v) else After([':'] + v, Quoted(key))
    ensures f.value.Number? ==> forall c :: c in f.value.digits ==> IsNum(c)
  {
    AfterString(f.key, [':'] + v, key);
    NoQuoteInIdent(f.key, key);
  }

  lemma AfterValue(v: Value, rest: string, key: string)
    requires IsIdent(key) && rest != "" && rest[0] in {',', '}'}
    requires v.Number? ==> forall c :: c in v.digits ==> IsNum(c)
    ensures After(Render(v) + rest, Quoted(key))
         == if v.Text? && Confuses(v.s, key) then Some(rest) else After(rest, Quoted(key))
  {
    match v {
      case Text(s) => AfterString(s, rest, key);
      case Number(d) =>
        forall i | 0 <= i < |d|
          ensures d[i] != '"'
        {
          assert d[i] in d;
        }
        AfterPlainRun(d, rest, key);
    }
  }

  lemma AfterComma(fs: seq<Field>, key: string)
    requires fs != []
    ensures After(Tail(fs), Quoted(key)) == After(Members(fs[1..]), Quoted(key))
  {
    AfterPlainRun(Comma(|fs| > 1), Members(fs[1..]), key);
  }

  lemma ObjectFound(fs: seq<Field>, key: string)
    requires IsIdent(key) && |key| <= 77 && forall f :: f in fs ==> WellFormed(f)
    ensures Get(Object(fs), key) == Lookup(fs, key)
  {
    assert Object(fs) == ['{'] + Members(fs);
    AfterPlain('{', Members(fs), key);
    MembersFound(fs, key);
  }

  lemma {:induction false} LookupAt(fs: seq<Field>, key: string, m: nat)
    requires m < |fs| && fs[m].key == key && forall i :: 0 <= i < m ==> fs[i].key != key
    ensures Lookup(fs, key) ==
              if exists i :: 0 <= i < m && fs[i].value.Text? && Confuses(fs[i].value.s, key) then None
              else Some(match fs[m].value case Text(s) => Mangle(s) case Number(d) => d)
  {
    if m > 0 {
      LookupAt(fs[1..], key, m - 1);
      var rest := fs[1..];
      if fs[0].value.Text? && Confuses(fs[0].value.s, key) {
      } else {
        assert forall i :: 0 <= i < m - 1 ==> rest[i] == fs[i + 1];
        assert forall i :: 1 <= i < m ==> fs[i] == rest[i - 1];
      }
    }
  }

  /**
   * The reader returns what was written under a key exactly when the value has no control character
   * without an escape of its own, and no earlier string value is the key or ends in a quote and the key.
   */
  lemma RoundTripIff(fs: seq<Field>, key: string, m: nat)
    requires IsIdent(key) && |key| <= 77 && forall f :: f in fs ==> WellFormed(f)
    requires m < |fs| && fs[m].key == key && forall i :: 0 <= i < m ==> fs[i].key != key
    ensures Get(Object(fs), key) == Some(match fs[m].value case Text(s) => s case Number(d) => d)
       <==> && (fs[m].value.Text? ==> Clean(fs[m].value.s))
            && forall i :: 0 <= i < m && fs[i].value.Text? ==> !Confuses(fs[i].value.s, key)
  {
    ObjectFound(fs, key);
    LookupAt(fs, key, m);
    if fs[m].value.Text? {
      MangleIff(fs[m].value.s);
    }
  }
}
