/** The regular expression matcher and the line loop of grep.c, against a declarative language
    of patterns: a match is a cutting of the text into one piece for each pattern element. */
module Grep {
  /** What a pattern means, element by element. '.' in One and Star stands for any character. */
  datatype Atom = One(c: char) | Star(c: char) | End

  predicate Ok(c: char, x: char) { c == '.' || c == x }

  /** How the pattern text reads: c* first, then a final $, and everything else stands for
      itself, a leading * and an inner $ included. */
  function Atoms(re: string): (atoms: seq<Atom>) {
    if re == "" then []
    else if |re| > 1 && re[1] == '*' then [Star(re[0])] + Atoms(re[2..])
    else if re == "$" then [End]
    else [One(re[0])] + Atoms(re[1..])
  }

  predicate Piece(a: Atom, w: string) {
    match a
    case One(c) => |w| == 1 && Ok(c, w[0])
    case Star(c) => forall i :: 0 <= i < |w| ==> Ok(c, w[i])
    case End => w == ""
  }

  function Flat(ws: seq<string>): string { if ws == [] then "" else ws[0] + Flat(ws[1..]) }

  /** The pieces fit the atoms, one by one. */
  ghost predicate Fits(atoms: seq<Atom>, ws: seq<string>) {
    |ws| == |atoms| && forall i :: 0 <= i < |atoms| ==> Piece(atoms[i], ws[i])
  }

  /** Some beginning of the text, or all of it if the pattern ends in $, can be cut to fit. */
  ghost predicate Begins(atoms: seq<Atom>, text: string) {
    exists ws: seq<string> :: Fits(atoms, ws) && Flat(ws) <= text && (End in atoms ==> Flat(ws) == text)
  }

  /** The language of whole patterns: ^ ties the match to the beginning. */
  ghost predicate InLanguage(re: string, text: string) {
    if re != "" && re[0] == '^' then Begins(Atoms(re[1..]), text)
    else exists i :: 0 <= i <= |text| && Begins(Atoms(re), text[i..])
  }

  // ---- how cuttings begin --------------------------------------------------------------------

  lemma BeginsNil(text: string)
    ensures Begins([], text)
  {
    assert Fits([], []) && Flat([]) <= text;
  }

  lemma BeginsEnd(text: string)
    ensures Begins([End], text) <==> text == ""
  {
    if text == "" {
      var ws := [""];
      assert ws[1..] == [] && Flat(ws) == ws[0] + Flat(ws[1..]);
      assert Fits([End], ws) && Flat(ws) <= text;
    }
    if Begins([End], text) {
      var ws :| Fits([End], ws) && Flat(ws) <= text && (End in [End] ==> Flat(ws) == text);
      assert [End][0] in [End] && ws[1..] == [] && Piece([End][0], ws[0]);
      assert Flat(ws) == ws[0] + Flat(ws[1..]);
    }
  }

  /** The first piece takes n characters, the rest of the atoms fit what follows. */
  lemma BeginsCons(a: Atom, rest: seq<Atom>, text: string, n: nat)
    requires a != End && n <= |text| && Piece(a, text[..n]) && Begins(rest, text[n..])
    ensures Begins([a] + rest, text)
  {
    var ws :| Fits(rest, ws) && Flat(ws) <= text[n..] && (End in rest ==> Flat(ws) == text[n..]);
    var vs := [text[..n]] + ws;
    assert vs[1..] == ws && Fits([a] + rest, vs);
    assert text == text[..n] + text[n..];
  }

  lemma BeginsFirst(a: Atom, rest: seq<Atom>, text: string) returns (n: nat)
    requires a != End && Begins([a] + rest, text)
    ensures n <= |text| && Piece(a, text[..n]) && Begins(rest, text[n..])
  {
    var ws :| Fits([a] + rest, ws) && Flat(ws) <= text && (End in [a] + rest ==> Flat(ws) == text);
    n := |ws[0]|;
    assert Flat(ws) == ws[0] + Flat(ws[1..]);
    assert text[..n] == ws[0] && ([a] + rest)[0] == a;
    assert forall i :: 0 <= i < |rest| ==> rest[i] == ([a] + rest)[i + 1];
    assert Fits(rest, ws[1..]) && Flat(ws[1..]) <= text[n..];
  }

  lemma BeginsOne(c: char, rest: seq<Atom>, text: string)
    ensures Begins([One(c)] + rest, text) <==> text != "" && Ok(c, text[0]) && Begins(rest, text[1..])
  {
    if Begins([One(c)] + rest, text) { var n := BeginsFirst(One(c), rest, text); }
    if text != "" && Ok(c, text[0]) && Begins(rest, text[1..]) { BeginsCons(One(c), rest, text, 1); }
  }

  lemma BeginsStar(c: char, rest: seq<Atom>, text: string)
    ensures Begins([Star(c)] + rest, text) <==>
      exists n :: 0 <= n <= |text| && Piece(Star(c), text[..n]) && Begins(rest, text[n..])
  {
    if Begins([Star(c)] + rest, text) { var n := BeginsFirst(Star(c), rest, text); }
    if exists n :: 0 <= n <= |text| && Piece(Star(c), text[..n]) && Begins(rest, text[n..]) {
      var n :| 0 <= n <= |text| && Piece(Star(c), text[..n]) && Begins(rest, text[n..]);
      BeginsCons(Star(c), rest, text, n);
    }
  }

  // ---- the matcher ---------------------------------------------------------------------------

  /** matchhere: search for re at the beginning of text. */
  method MatchHere(re: string, text: string) returns (found: bool)
    ensures found <==> Begins(Atoms(re), text)
    decreases |re|, 0
  {
    if re == "" {
      BeginsNil(text);
      return true;
    }
    if |re| > 1 && re[1] == '*' {
      BeginsStar(re[0], Atoms(re[2..]), text);
      found := MatchStar(re[0], re[2..], text);
      return;
    }
    if re[0] == '$' && |re| == 1 {
      BeginsEnd(text);
      return text == "";
    }
    BeginsOne(re[0], Atoms(re[1..]), text);
    if text != "" && (re[0] == '.' || re[0] == text[0]) {
      found := MatchHere(re[1..], text[1..]);
      return;
    }
    return false;
  }

  /** matchstar: search for c*re at the beginning of text. */
  method MatchStar(c: char, re: string, text: string) returns (found: bool)
    ensures found <==>
      exists n :: 0 <= n <= |text| && Piece(Star(c), text[..n]) && Begins(Atoms(re), text[n..])
    decreases |re|, 1
  {
    var k := 0;
    while true
      invariant 0 <= k <= |text| && Piece(Star(c), text[..k])
      invariant forall j :: 0 <= j < k ==> !Begins(Atoms(re), text[j..])
      decreases |text| - k
    {
      found := MatchHere(re, text[k..]);
      if found { return true; }
      if k == |text| { return false; }
      if text[k] == c || c == '.' {
        k := k + 1;
      } else {
        assert forall n :: k < n <= |text| ==> text[..n][k] == text[k];
        return false;
      }
    }
  }

  /** match: soundness and completeness for every pattern and text. */
  method Match(re: string, text: string) returns (found: bool)
    ensures found <==> InLanguage(re, text)
  {
    if re != "" && re[0] == '^' {
      found := MatchHere(re[1..], text);
      return;
    }
    var k := 0;
    while true
      invariant 0 <= k <= |text|
      invariant forall j :: 0 <= j < k ==> !Begins(Atoms(re), text[j..])
      decreases |text| - k
    {
      found := MatchHere(re, text[k..]);
      if found { return true; }
      if k == |text| { return false; }
      k := k + 1;
    }
  }

  // ---- the line loop ---------------------------------------------------------------------------

  const BUF := 1024

  function FirstLine(s: string): (n: nat)
    ensures n <= |s| && '\n' !in s[..n] && (n < |s| ==> s[n] == '\n')
  {
    if s == "" || s[0] == '\n' then 0 else
      var n := FirstLine(s[1..]);
      assert s[..n + 1] == [s[0]] + s[1..][..n];
      n + 1
  }

  /** What grep prints for the input s: the complete lines in the language, up to the first
      line that is too long for the buffer. */
  ghost function Output(re: string, s: string): string
    decreases |s|
  {
    var n := FirstLine(s);
    if n == |s| || n >= BUF - 1 then ""
    else (if InLanguage(re, s[..n]) then s[..n + 1] else "") + Output(re, s[n + 1..])
  }

  /** One line at the front of the input is dealt with. */
  lemma OutputLine(re: string, s: string, n: nat)
    requires n < |s| && n < BUF - 1 && '\n' !in s[..n] && s[n] == '\n'
    ensures Output(re, s) == (if InLanguage(re, s[..n]) then s[..n + 1] else "") + Output(re, s[n + 1..])
  {
  }

  /** A beginning without newline that fills the buffer, or is all there is, prints nothing. */
  lemma OutputStuck(re: string, s: string, n: nat)
    requires n <= |s| && '\n' !in s[..n] && (n == |s| || n == BUF - 1)
    ensures Output(re, s) == ""
  {
  }

  /** strchr(p, '\n') in buf[p..m]. */
  method FindNewline(buf: array<char>, p: nat, m: nat) returns (q: nat)
    requires p <= m <= buf.Length
    ensures p <= q <= m && '\n' !in buf[p..q] && (q < m ==> buf[q] == '\n')
  {
    q := p;
    while q < m && buf[q] != '\n'
      invariant p <= q <= m && '\n' !in buf[p..q]
    {
      q := q + 1;
    }
  }

  /** memmove(buf, buf + p, m - p) */
  method MoveDown(buf: array<char>, p: nat, m: nat)
    requires p <= m <= buf.Length
    modifies buf
    ensures buf[..m - p] == old(buf[p..m])
  {
    var i := 0;
    while i < m - p
      invariant 0 <= i <= m - p
      invariant buf[..i] == old(buf[p..p + i])
      invariant forall j :: i <= j < buf.Length ==> buf[j] == old(buf[j])
    {
      buf[i] := buf[p + i];
      i := i + 1;
    }
  }

  lemma SameTail(piece: string, all: string, p: nat, q: nat)
    requires p <= q < |all| && piece == all[p..]
    ensures piece[..q - p] == all[p..q] && piece[q - p] == all[q]
  {
  }

  lemma LaterTail(s: string, all: string, p: nat, q: nat)
    requires p <= q < |all| == |s| && s[p..] == all[p..]
    ensures s[q + 1..] == all[q + 1..]
  {
  }

  /** One line of the buffer, with what is still to be read behind it. */
  lemma OneLine(re: string, all: string, rest: string, p: nat, q: nat)
    requires p <= q < |all| && '\n' !in all[p..q] && all[q] == '\n' && q - p + 1 < BUF
    ensures Output(re, all[p..] + rest)
         == (if InLanguage(re, all[p..q]) then all[p..q] + "\n" else "") + Output(re, all[q + 1..] + rest)
  {
    hide Output, InLanguage;
    var tail := all[p..] + rest;
    assert tail[..q - p] == all[p..q] && tail[q - p] == '\n';
    OutputLine(re, tail, q - p);
    assert tail[q - p + 1..] == all[q + 1..] + rest;
    assert tail[..q - p + 1] == all[p..q] + "\n";
  }

  /** The lines of buf[..m]: those in the language go to the output, the last incomplete one
      moves to the front of the buffer. */
  method DoLines(re: string, buf: array<char>, m: nat, ghost rest: string) returns (out: string, left: nat)
    requires m < BUF == buf.Length
    modifies buf
    ensures left <= m && '\n' !in buf[..left]
    ensures Output(re, old(buf[..m]) + rest) == out + Output(re, buf[..left] + rest)
  {
    hide Output, InLanguage;
    var p := 0;
    out := "";
    ghost var all := buf[..m];
    var q := FindNewline(buf, p, m);
    while q < m
      invariant p <= q <= m && '\n' !in buf[p..q] && (q < m ==> buf[q] == '\n')
      invariant buf[p..m] == all[p..]
      invariant Output(re, all + rest) == out + Output(re, all[p..] + rest)
    {
      var s := buf[p..q];
      assert buf[p..m][..q - p] == s && buf[p..m][q - p] == buf[q];
      SameTail(buf[p..m], all, p, q);
      OneLine(re, all, rest, p, q);
      ghost var before := buf[..m];
      buf[q] := '\0';
      var found := Match(re, s);
      if found {
        buf[q] := '\n';
        out := out + s + [buf[q]];
      }
      assert buf[q + 1..m] == before[q + 1..];
      assert before[q + 1..] == all[q + 1..] by { LaterTail(before, all, p, q); }
      p := q + 1;
      q := FindNewline(buf, p, m);
    }
    left := m - p;
    MoveDown(buf, p, m);
  }

  /** read puts n bytes of the input behind the m in the buffer. */
  method Read(buf: array<char>, m: nat, input: string, pos: nat, n: nat)
    requires m + n <= buf.Length && pos + n <= |input|
    modifies buf
    ensures buf[..m + n] == old(buf[..m]) + input[pos..pos + n]
  {
    forall i | 0 <= i < n { buf[m + i] := input[pos + i]; }
  }

  lemma Regroup(before: string, input: string, pos: nat, n: nat)
    requires pos + n <= |input|
    ensures before + input[pos..] == before + input[pos..pos + n] + input[pos + n..]
  {
    assert input[pos..] == input[pos..pos + n] + input[pos + n..];
  }

  /** grep on one file. However read cuts the input into pieces, the output is the same. */
  method GrepFile(re: string, input: string) returns (out: string)
    ensures out == Output(re, input)
  {
    hide Output;
    var buf := new char[BUF];
    var m, pos := 0, 0;
    out := "";
    assert buf[..0] + input[0..] == input;
    while pos < |input| && m < BUF - 1
      invariant 0 <= pos <= |input| && 0 <= m <= BUF - 1 && '\n' !in buf[..m]
      invariant Output(re, input) == out + Output(re, buf[..m] + input[pos..])
      decreases |input| - pos
    {
      // read: any number of bytes up to the room in the buffer
      var n :| 1 <= n <= BUF - 1 - m && n <= |input| - pos;
      Regroup(buf[..m], input, pos, n);
      Read(buf, m, input, pos, n);
      pos := pos + n;
      var more;
      more, m := DoLines(re, buf, m + n, input[pos..]);
      out := out + more;
    }
    ghost var s := buf[..m] + input[pos..];
    assert s[..m] == buf[..m];
    OutputStuck(re, s, m);
  }

  /** What every line of the input, whole or not, asks grep to print. */
  ghost function Matching(re: string, s: string): string
    decreases |s|
  {
    var n := FirstLine(s);
    if n == |s| then if s != "" && InLanguage(re, s) then s else ""
    else (if InLanguage(re, s[..n]) then s[..n + 1] else "") + Matching(re, s[n + 1..])
  }

  /** What grep never gets to: the input from the first line on that is too long for the buffer,
      or else the last line if it has no newline. */
  function Unread(s: string): string
    decreases |s|
  {
    var n := FirstLine(s);
    if n == |s| || n >= BUF - 1 then s else Unread(s[n + 1..])
  }

  /** No line is in the language. */
  ghost predicate NoneMatch(re: string, s: string)
    decreases |s|
  {
    var n := FirstLine(s);
    if n == |s| then s == "" || !InLanguage(re, s) else !InLanguage(re, s[..n]) && NoneMatch(re, s[n + 1..])
  }

  lemma {:induction false} NoneMatchIs(re: string, s: string)
    ensures NoneMatch(re, s) <==> Matching(re, s) == ""
    decreases |s|
  {
    hide InLanguage;
    var n := FirstLine(s);
    if n < |s| { NoneMatchIs(re, s[n + 1..]); }
  }

  /** The output is short of the matching lines by exactly those that grep never gets to. */
  lemma {:induction false} OutputAndUnread(re: string, s: string)
    ensures Matching(re, s) == Output(re, s) + Matching(re, Unread(s))
    decreases |s|
  {
    hide Output, Matching, Unread;
    var n := FirstLine(s);
    if n < |s| && n < BUF - 1 {
      var x := FirstPart(re, s);
      OutputAndUnread(re, s[n + 1..]);
    } else {
      AllUnread(re, s);
    }
  }

  lemma FirstPart(re: string, s: string) returns (x: string)
    requires FirstLine(s) < |s| && FirstLine(s) < BUF - 1
    ensures var t := s[FirstLine(s) + 1..];
      Output(re, s) == x + Output(re, t) && Matching(re, s) == x + Matching(re, t) && Unread(s) == Unread(t)
  {
    hide InLanguage, FirstLine;
    var n := FirstLine(s);
    x := if InLanguage(re, s[..n]) then s[..n + 1] else "";
  }

  lemma AllUnread(re: string, s: string)
    requires FirstLine(s) == |s| || FirstLine(s) >= BUF - 1
    ensures Output(re, s) == "" && Unread(s) == s
  {
    hide InLanguage, FirstLine;
  }

  /** So the output is the matching lines if and only if no line that is too long, or comes
      after one, or lacks its newline, matches. */
  lemma OutputIsMatching(re: string, s: string)
    ensures Output(re, s) == Matching(re, s) <==> NoneMatch(re, Unread(s))
  {
    hide Output, Matching, NoneMatch, Unread;
    OutputAndUnread(re, s);
    NoneMatchIs(re, Unread(s));
  }

  /** Two inputs that it fails on: every line is in the language of the empty pattern. */
  lemma AnyLine(text: string)
    ensures InLanguage("", text)
  {
    BeginsNil(text);
    assert text[0..] == text;
  }

  /** A line of BUF - 1 characters stops grep, and what follows is lost too. */
  lemma LongLineLost(c: char)
    requires c != '\n'
    ensures var s := seq(BUF - 1, _ => c) + "\nb\n";
      Output("", s) == "" && Matching("", s) == s && Unread(s) == s
  {
    var line := seq(BUF - 1, _ => c);
    var s := line + "\nb\n";
    assert s[..BUF - 1] == line && s[BUF - 1] == '\n' && '\n' !in line;
    FirstLineAt(s, BUF - 1);
    AnyLine(line);
    var rest := s[BUF..];
    assert rest == "b\n" && rest[..1] == "b" && rest[2..] == "" && rest[..2] == rest;
    FirstLineAt(rest, 1);
    AnyLine("b");
    assert s[..BUF] + rest == s;
    hide InLanguage;
    assert Matching("", rest) == rest;
  }

  /** So is a last line without its newline. */
  lemma LastLineLost(c: char)
    requires c != '\n'
    ensures Output("", [c]) == "" && Matching("", [c]) == [c] && Unread([c]) == [c]
  {
    AnyLine([c]);
  }

  lemma {:induction false} FirstLineAt(s: string, n: nat)
    requires n <= |s| && '\n' !in s[..n] && (n < |s| ==> s[n] == '\n')
    ensures FirstLine(s) == n
  {
    var k := FirstLine(s);
    assert forall i :: 0 <= i < n ==> s[..n][i] == s[i];
    assert forall i :: 0 <= i < k ==> s[..k][i] == s[i];
  }
}
