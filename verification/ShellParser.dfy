/** The parser of sh.c as it runs: a cursor advanced along the line, loops where the C has
    loops, and nulterminate writing a NUL over the character after each word. */
module ShellParser {
  import opened ShellGrammar
  import opened ShellRoundTrip

  // ---- a second peek or skip changes nothing ---------------------------------------------------

  lemma SkipTwice(s: string, i: nat)
    requires i <= |s|
    ensures SkipWhite(s, SkipWhite(s, i)) == SkipWhite(s, i)
    ensures GetToken(s, SkipWhite(s, i)) == GetToken(s, i)
    ensures forall toks :: Peek(s, SkipWhite(s, i), toks) == Peek(s, i, toks)
  {
  }

  lemma RedirsSkip(s: string, i: nat)
    requires i <= |s|
    ensures ParseRedirs(s, SkipWhite(s, i)) == ParseRedirs(s, i)
  {
    SkipTwice(s, i);
    hide GetToken, Peek, SkipWhite;
  }

  lemma ArgsSkip(s: string, i: nat, argc: nat)
    requires i <= |s|
    ensures ParseArgs(s, SkipWhite(s, i), argc) == ParseArgs(s, i, argc)
  {
    SkipTwice(s, i);
    hide GetToken, Peek, SkipWhite, ParseRedirs;
  }

  lemma BackSkip(s: string, i: nat, c: Cmd)
    requires i <= |s|
    ensures ParseBack(s, SkipWhite(s, i), c) == ParseBack(s, i, c)
  {
  }

  // ---- every word in a parsed command is a whole word of the text ------------------------------

  predicate WordSpan(s: string, w: Span) {
    && w.q < w.eq <= |s|
    && (forall k :: w.q <= k < w.eq ==> !White(s[k]) && !Symbol(s[k]))
    && (w.eq < |s| ==> White(s[w.eq]) || Symbol(s[w.eq]))
  }

  function Spans(c: Cmd): set<Span> {
    match c
    case Exec(argv) => set w | w in argv
    case Redir(d, f, _) => Spans(d) + {f}
    case Pipe(l, r) => Spans(l) + Spans(r)
    case List(l, r) => Spans(l) + Spans(r)
    case Back(d) => Spans(d)
  }

  predicate AllWords(s: string, c: Cmd) { forall w :: w in Spans(c) ==> WordSpan(s, w) }

  predicate FilesWords(s: string, rs: seq<Redirection>) { forall i :: 0 <= i < |rs| ==> WordSpan(s, rs[i].file) }

  lemma TokenWord(s: string, i: nat)
    requires i <= |s| && GetToken(s, i).kind == 'a'
    ensures WordSpan(s, Span(GetToken(s, i).q, GetToken(s, i).eq))
  {
  }

  lemma {:induction false} WrapWords(s: string, c: Cmd, rs: seq<Redirection>)
    requires AllWords(s, c) && FilesWords(s, rs)
    ensures AllWords(s, Wrap(c, rs))
    decreases |rs|
  {
    hide WordSpan;
    if rs != [] { WrapWords(s, c, rs[..|rs| - 1]); }
  }

  lemma {:induction false} RedirsWords(s: string, i: nat)
    requires i <= |s|
    ensures ParseRedirs(s, i).Redirs? ==> FilesWords(s, ParseRedirs(s, i).list)
    decreases |s| - i
  {
    hide GetToken, Peek, SkipWhite, WordSpan;
    if Peek(s, i, "<>") {
      var f := GetToken(s, GetToken(s, i).next);
      if f.kind == 'a' {
        PeekMoves(s, i, "<>");
        TokenWord(s, GetToken(s, i).next);
        RedirsWords(s, f.next);
      }
    }
  }

  lemma PeekMoves(s: string, i: nat, toks: string)
    requires i <= |s| && Peek(s, i, toks)
    ensures i < GetToken(s, i).next
  {
  }

  lemma ExecCons(s: string, w: Span, argv: seq<Span>)
    requires WordSpan(s, w) && AllWords(s, Exec(argv))
    ensures AllWords(s, Exec([w] + argv))
  {
  }

  lemma {:induction false} ArgsWords(s: string, i: nat, argc: nat)
    requires i <= |s|
    ensures var a := ParseArgs(s, i, argc);
      a.Args? ==> FilesWords(s, a.list) && AllWords(s, Exec(a.argv))
    decreases |s| - i
  {
    hide GetToken, Peek, SkipWhite, WordSpan, ParseRedirs, AllWords;
    var t := GetToken(s, i);
    assert AllWords(s, Exec([])) by { NoWords(s); }
    if !Peek(s, i, "|)&;") && t.kind == 'a' && argc + 1 < MAXARGS {
      TokenWord(s, i);
      TokenMoves(s, i);
      RedirsWords(s, t.next);
      var r := ParseRedirs(s, t.next);
      if r.Redirs? {
        ArgsWords(s, r.pos, argc + 1);
        var rest := ParseArgs(s, r.pos, argc + 1);
        if rest.Args? { ExecCons(s, Span(t.q, t.eq), rest.argv); }
      }
    }
  }

  lemma NoWords(s: string)
    ensures AllWords(s, Exec([]))
  {
  }

  lemma {:induction false} LineWords(s: string, i: nat)
    requires i <= |s|
    ensures ParseLine(s, i).Ok? ==> AllWords(s, ParseLine(s, i).cmd)
    decreases |s| - i, 4
  {
    hide GetToken, Peek, SkipWhite, WordSpan, ParsePipe, ParseBack;
    PipeWords(s, i);
    var p := ParsePipe(s, i);
    if p.Ok? {
      BackWords(s, p.pos, p.cmd);
      var b := ParseBack(s, p.pos, p.cmd);
      if Peek(s, b.pos, ";") {
        PeekMoves(s, b.pos, ";");
        LineWords(s, GetToken(s, b.pos).next);
      }
    }
  }

  lemma {:induction false} BackWords(s: string, i: nat, c: Cmd)
    requires i <= |s| && AllWords(s, c)
    ensures AllWords(s, ParseBack(s, i, c).cmd)
    decreases |s| - i, 0
  {
    hide GetToken, Peek, SkipWhite, WordSpan;
    if Peek(s, i, "&") {
      PeekMoves(s, i, "&");
      BackWords(s, GetToken(s, i).next, Back(c));
    }
  }

  lemma {:induction false} PipeWords(s: string, i: nat)
    requires i <= |s|
    ensures ParsePipe(s, i).Ok? ==> AllWords(s, ParsePipe(s, i).cmd)
    decreases |s| - i, 3
  {
    hide GetToken, Peek, SkipWhite, WordSpan, ParseExec;
    ExecWords(s, i);
    var e := ParseExec(s, i);
    if e.Ok? && Peek(s, e.pos, "|") {
      PeekMoves(s, e.pos, "|");
      PipeWords(s, GetToken(s, e.pos).next);
    }
  }

  lemma {:induction false} ExecWords(s: string, i: nat)
    requires i <= |s|
    ensures ParseExec(s, i).Ok? ==> AllWords(s, ParseExec(s, i).cmd)
    decreases |s| - i, 2
  {
    hide GetToken, Peek, SkipWhite, WordSpan, ParseRedirs, ParseArgs, ParseLine, Wrap, AllWords;
    if Peek(s, i, "(") {
      PeekMoves(s, i, "(");
      var j := GetToken(s, i).next;
      LineWords(s, j);
      var l := ParseLine(s, j);
      if l.Ok? && Peek(s, l.pos, ")") {
        var k := GetToken(s, l.pos).next;
        RedirsWords(s, k);
        if ParseRedirs(s, k).Redirs? { WrapWords(s, l.cmd, ParseRedirs(s, k).list); }
      }
    } else {
      RedirsWords(s, i);
      var r0 := ParseRedirs(s, i);
      if r0.Redirs? {
        ArgsWords(s, r0.pos, 0);
        var a := ParseArgs(s, r0.pos, 0);
        if a.Args? { WrapWords(s, Exec(a.argv), r0.list + a.list); }
      }
    }
  }

  // ---- the parser --------------------------------------------------------------------------------

  /** What the argument loop still has to produce, put behind what it has read. */
  function Prepend(argv: seq<Span>, rs: seq<Redirection>, a: Args): Args {
    if a.ArgsPanic? then a else Args(argv + a.argv, rs + a.list, a.pos)
  }

  function PrependRedirs(rs: seq<Redirection>, r: Redirs): Redirs {
    if r.RedirPanic? then r else Redirs(rs + r.list, r.pos)
  }

  /** The variables ps and es of the C: text runs up to es, pos is *ps. */
  class Cursor {
    const text: string
    var pos: nat

    ghost predicate Valid() reads this { pos <= |text| }

    constructor (s: string)
      ensures Valid() && text == s && pos == 0
    {
      text, pos := s, 0;
    }

    method Skip()
      requires Valid()
      modifies this
      ensures Valid() && pos == SkipWhite(text, old(pos))
    {
      while pos < |text| && White(text[pos])
        invariant Valid() && SkipWhite(text, pos) == SkipWhite(text, old(pos))
      {
        pos := pos + 1;
      }
    }

    /** The default case of gettoken's switch: on to the end of the word. */
    method Scan()
      requires Valid()
      modifies this
      ensures Valid() && pos == WordEnd(text, old(pos))
    {
      while pos < |text| && !White(text[pos]) && !Symbol(text[pos])
        invariant Valid() && WordEnd(text, pos) == WordEnd(text, old(pos))
      {
        pos := pos + 1;
      }
    }

    method Next() returns (t: Token)
      requires Valid()
      modifies this
      ensures Valid() && t == GetToken(text, old(pos)) && pos == t.next
    {
      hide SkipWhite, WordEnd, White;
      Skip();
      var q, kind := pos, '\0';
      if pos < |text| {
        if text[pos] == '>' {
          kind, pos := '>', pos + 1;
          if pos < |text| && text[pos] == '>' { kind, pos := '+', pos + 1; }
        } else if Symbol(text[pos]) {
          kind, pos := text[pos], pos + 1;
        } else {
          kind, pos := 'a', pos + 1;
          Scan();
        }
      }
      var eq := pos;
      if kind == '\0' { SkipTwice(text, old(pos)); }
      Skip();
      t := Token(kind, q, eq, pos);
    }

    method Peeks(toks: string) returns (yes: bool)
      requires Valid()
      modifies this
      ensures Valid() && pos == SkipWhite(text, old(pos)) && yes == Peek(text, old(pos), toks)
    {
      Skip();
      yes := pos < |text| && text[pos] in toks;
    }

    method Redirections() returns (r: Redirs)
      requires Valid()
      modifies this
      ensures Valid() && r == ParseRedirs(text, old(pos)) && (r.Redirs? ==> pos == r.pos)
    {
      hide GetToken, Peek, SkipWhite, ParseRedirs;
      var rs: seq<Redirection> := [];
      var more := Peeks("<>");
      RedirsSkip(text, old(pos));
      SkipTwice(text, old(pos));
      while more
        invariant Valid() && more == Peek(text, pos, "<>") && pos == SkipWhite(text, pos)
        invariant ParseRedirs(text, old(pos)) == PrependRedirs(rs, ParseRedirs(text, pos))
        decreases |text| - pos
      {
        ghost var i := pos;
        PeekMoves(text, i, "<>");
        RedirsRound(text, i, rs);
        var t := Next();
        var f := Next();
        if f.kind != 'a' { return RedirPanic; }
        rs := rs + [Redirection(ModeOf(t.kind), Span(f.q, f.eq))];
        ghost var j := pos;
        RedirsSkip(text, j);
        SkipTwice(text, j);
        more := Peeks("<>");
      }
      RedirsRound(text, pos, rs);
      r := Redirs(rs, pos);
    }

    method Line() returns (r: Parsed)
      requires Valid()
      modifies this
      ensures Valid() && r == ParseLine(text, old(pos)) && (r.Ok? ==> pos == r.pos)
      decreases |text| - pos, 4
    {
      hide GetToken, Peek, SkipWhite, ParsePipe;
      r := PipeLine();
      if r.Panic? { return; }
      ghost var p, first := pos, r.cmd;
      var cmd := r.cmd;
      var more := Peeks("&");
      BackSkip(text, p, cmd);
      SkipTwice(text, p);
      while more
        invariant Valid() && p <= pos && more == Peek(text, pos, "&") && pos == SkipWhite(text, pos)
        invariant ParseBack(text, p, first) == ParseBack(text, pos, cmd)
        decreases |text| - pos
      {
        PeekMoves(text, pos, "&");
        var t := Next();
        cmd := Back(cmd);
        ghost var j := pos;
        BackSkip(text, j, cmd);
        SkipTwice(text, j);
        more := Peeks("&");
      }
      SkipTwice(text, pos);
      var semi := Peeks(";");
      if semi {
        PeekMoves(text, pos, ";");
        var t := Next();
        r := Line();
        if r.Panic? { return; }
        cmd := List(cmd, r.cmd);
      }
      r := Ok(cmd, pos);
    }

    method PipeLine() returns (r: Parsed)
      requires Valid()
      modifies this
      ensures Valid() && r == ParsePipe(text, old(pos)) && (r.Ok? ==> pos == r.pos)
      decreases |text| - pos, 3
    {
      hide GetToken, Peek, SkipWhite, ParseExec;
      r := Command();
      if r.Panic? { return; }
      var cmd := r.cmd;
      SkipTwice(text, pos);
      var bar := Peeks("|");
      if bar {
        PeekMoves(text, pos, "|");
        var t := Next();
        r := PipeLine();
        if r.Panic? { return; }
        cmd := Pipe(cmd, r.cmd);
      }
      r := Ok(cmd, pos);
    }

    method Block() returns (r: Parsed)
      requires Valid() && Peek(text, pos, "(")
      modifies this
      ensures Valid() && r == ParseBlock(text, old(pos)) && (r.Ok? ==> pos == r.pos)
      decreases |text| - pos, 1
    {
      hide GetToken, Peek, SkipWhite, ParseLine, ParseRedirs, Wrap;
      PeekMoves(text, pos, "(");
      var t := Next();
      r := Line();
      if r.Panic? { return; }
      SkipTwice(text, pos);
      var closed := Peeks(")");
      if !closed { return Panic(MissingParen); }
      t := Next();
      var rs := Redirections();
      if rs.RedirPanic? { return Panic(MissingFile); }
      r := Ok(Wrap(r.cmd, rs.list), pos);
    }

    /** argv[] is filled as the words are read, and the command node is wrapped as the
        redirections are. */
    method Command() returns (r: Parsed)
      requires Valid()
      modifies this
      ensures Valid() && r == ParseExec(text, old(pos)) && (r.Ok? ==> pos == r.pos)
      decreases |text| - pos, 2
    {
      hide GetToken, Peek, SkipWhite, ParseBlock, ParseRedirs, Wrap;
      SkipTwice(text, pos);
      RedirsSkip(text, pos);
      var open := Peeks("(");
      if open {
        BlockSkip(text, old(pos));
        r := Block();
        return;
      }
      var r0 := Redirections();
      if r0.RedirPanic? { return Panic(MissingFile); }
      var a := Arguments();
      r := if a.ArgsPanic? then Panic(a.error) else Ok(Wrap(Exec(a.argv), r0.list + a.list), a.pos);
    }

    /** The argument loop of parseexec. */
    method Arguments() returns (a: Args)
      requires Valid()
      modifies this
      ensures Valid() && a == ParseArgs(text, old(pos), 0) && (a.Args? ==> pos == a.pos)
    {
      hide GetToken, Peek, SkipWhite, ParseRedirs;
      var argv, rs: seq<Redirection> := [], [];
      ghost var p := pos;
      ArgsSkip(text, p, 0);
      SkipTwice(text, p);
      var stop := Peeks("|)&;");
      Nothing(ParseArgs(text, p, 0));
      hide Prepend, ParseArgs;
      while !stop
        invariant Valid() && p <= pos && stop == Peek(text, pos, "|)&;") && pos == SkipWhite(text, pos)
        invariant |argv| < MAXARGS && ParseArgs(text, p, 0) == Prepend(argv, rs, ParseArgs(text, pos, |argv|))
        decreases |text| - pos
      {
        ghost var i, was, had := pos, argv, rs;
        TokenMoves(text, i);
        ArgsFate(text, i, argv, rs);
        var t := Next();
        if t.kind == '\0' { return Args(argv, rs, pos); }
        if t.kind != 'a' { return ArgsPanic(Syntax); }
        argv := argv + [Span(t.q, t.eq)];
        if |argv| >= MAXARGS { return ArgsPanic(TooManyArgs); }
        var r1 := Redirections();
        if r1.RedirPanic? { return ArgsPanic(MissingFile); }
        rs := rs + r1.list;
        ghost var j := pos;
        ArgsSkip(text, j, |argv|);
        SkipTwice(text, j);
        stop := Peeks("|)&;");
        Continue(text, i, was, had, j);
      }
      ArgsFate(text, pos, argv, rs);
      a := Args(argv, rs, pos);
    }
  }

  lemma Nothing(a: Args)
    ensures Prepend([], [], a) == a
  {
  }

  /** Where the argument loop stops, and what it then has. */
  lemma ArgsFate(s: string, i: nat, argv: seq<Span>, rs: seq<Redirection>)
    requires i <= |s|
    ensures var t := GetToken(s, i); var a := Prepend(argv, rs, ParseArgs(s, i, |argv|));
      if Peek(s, i, "|)&;") then a == Args(argv, rs, SkipWhite(s, i))
      else if t.kind == '\0' then a == Args(argv, rs, t.next)
      else if t.kind != 'a' then a == ArgsPanic(Syntax)
      else if |argv| + 1 >= MAXARGS then a == ArgsPanic(TooManyArgs)
      else ParseRedirs(s, t.next).RedirPanic? ==> a == ArgsPanic(MissingFile)
  {
  }

  /** One round of the loop over redirections, or its end. */
  lemma RedirsRound(s: string, i: nat, rs: seq<Redirection>)
    requires i <= |s|
    ensures var t := GetToken(s, i); var f := GetToken(s, t.next); var r := PrependRedirs(rs, ParseRedirs(s, i));
      if !Peek(s, i, "<>") then r == Redirs(rs, SkipWhite(s, i))
      else if f.kind != 'a' then r == RedirPanic
      else r == PrependRedirs(rs + [Redirection(ModeOf(t.kind), Span(f.q, f.eq))], ParseRedirs(s, f.next))
  {
    hide GetToken, Peek, SkipWhite;
  }

  lemma BlockSkip(s: string, i: nat)
    requires i <= |s| && Peek(s, i, "(")
    ensures SkipWhite(s, i) <= |s| && Peek(s, SkipWhite(s, i), "(")
    ensures ParseBlock(s, SkipWhite(s, i)) == ParseBlock(s, i)
  {
    hide GetToken, Peek, SkipWhite, ParseLine, ParseRedirs, Wrap;
    SkipTwice(s, i);
  }

  lemma TokenMoves(s: string, i: nat)
    requires i <= |s|
    ensures GetToken(s, i).kind != '\0' ==> i < GetToken(s, i).next
  {
  }

  /** One round of the argument loop. */
  lemma Continue(s: string, i: nat, argv: seq<Span>, rs: seq<Redirection>, j: nat)
    requires i <= |s| && !Peek(s, i, "|)&;") && GetToken(s, i).kind == 'a' && |argv| + 1 < MAXARGS
    requires ParseRedirs(s, GetToken(s, i).next).Redirs? && j == ParseRedirs(s, GetToken(s, i).next).pos
    ensures var t := GetToken(s, i);
      Prepend(argv, rs, ParseArgs(s, i, |argv|))
      == Prepend(argv + [Span(t.q, t.eq)], rs + ParseRedirs(s, t.next).list, ParseArgs(s, j, |argv| + 1))
  {
    hide GetToken, Peek, SkipWhite, ParseRedirs;
    var t := GetToken(s, i);
    var a, l := ParseArgs(s, j, |argv| + 1), ParseRedirs(s, t.next).list;
    if a.Args? {
      assert argv + ([Span(t.q, t.eq)] + a.argv) == argv + [Span(t.q, t.eq)] + a.argv;
      assert rs + (l + a.list) == rs + l + a.list;
    }
  }

  // ---- nulterminate --------------------------------------------------------------------------------

  function Ends(c: Cmd): (r: set<nat>)
  {
    set w | w in Spans(c) :: w.eq
  }

  /** Writes a NUL at the end of every word of c, and nowhere else. */
  method NulTerminate(buf: array<char>, c: Cmd)
    requires forall w :: w in Spans(c) ==> w.eq < buf.Length
    modifies buf
    ensures forall k :: 0 <= k < buf.Length ==> buf[k] == if k in Ends(c) then '\0' else old(buf[k])
    decreases c
  {
    match c
    case Exec(argv) =>
      var i := 0;
      while i < |argv|
        invariant i <= |argv|
        invariant forall k :: 0 <= k < buf.Length ==>
          buf[k] == if (exists m :: 0 <= m < i && argv[m].eq == k) then '\0' else old(buf[k])
      {
        assert argv[i] in Spans(c);
        buf[argv[i].eq] := '\0';
        i := i + 1;
      }
      EndsExec(argv);
    case Redir(d, f, m) =>
      NulTerminate(buf, d);
      buf[f.eq] := '\0';
    case Pipe(l, r) =>
      NulTerminate(buf, l);
      NulTerminate(buf, r);
    case List(l, r) =>
      NulTerminate(buf, l);
      NulTerminate(buf, r);
    case Back(d) =>
      NulTerminate(buf, d);
  }

  lemma EndsExec(argv: seq<Span>)
    ensures forall k: nat :: k in Ends(Exec(argv)) <==> exists m :: 0 <= m < |argv| && argv[m].eq == k
  {
  }

  /** The C string at q: the characters up to the first NUL. */
  function CString(b: string, q: nat): string
    requires q <= |b|
    decreases |b| - q
  {
    if q == |b| || b[q] == '\0' then "" else [b[q]] + CString(b, q + 1)
  }

  lemma {:induction false} CStringIs(b: string, q: nat, e: nat)
    requires q <= e < |b| && b[e] == '\0' && forall k :: q <= k < e ==> b[k] != '\0'
    ensures CString(b, q) == b[q..e]
    decreases e - q
  {
    if q < e {
      CStringIs(b, q + 1, e);
      assert b[q..e] == [b[q]] + b[q + 1..e];
    }
  }

  /** b is text with its NUL, terminated for command c. */
  predicate Terminated(b: string, text: string, c: Cmd) {
    |b| == |text| + 1 && forall k :: 0 <= k < |b| ==>
      b[k] == if k in Ends(c) || k == |text| then '\0' else text[k]
  }

  predicate NoNul(s: string) { forall k :: 0 <= k < |s| ==> s[k] != '\0' }

  /** A word ends where no word has a character. */
  lemma EndsOutside(text: string, c: Cmd)
    requires AllWords(text, c)
    ensures forall k :: k in Ends(c) && k < |text| ==> White(text[k]) || Symbol(text[k])
  {
  }

  /** No word ends inside another, so each word reads back whole as a C string. */
  lemma ReadsBack(b: string, text: string, c: Cmd, w: Span)
    requires NoNul(text) && AllWords(text, c) && Terminated(b, text, c) && w in Spans(c)
    ensures w.q <= |b| && w.q <= w.eq <= |text| && CString(b, w.q) == text[w.q..w.eq]
  {
    assert WordSpan(text, w) && w.eq in Ends(c);
    EndsOutside(text, c);
    assert forall k :: w.q <= k < w.eq ==> b[k] == text[k];
    CStringIs(b, w.q, w.eq);
    assert b[w.q..w.eq] == text[w.q..w.eq];
  }

  /** The tree a caller sees through the C pointers. */
  function CWord(b: string, w: Span): string { if w.q <= |b| then CString(b, w.q) else "" }

  function CWords(b: string, ws: seq<Span>): (r: seq<string>)
    ensures |r| == |ws| && forall i :: 0 <= i < |ws| ==> r[i] == CWord(b, ws[i])
  {
    if ws == [] then [] else [CWord(b, ws[0])] + CWords(b, ws[1..])
  }

  function CView(b: string, c: Cmd): Tree {
    match c
    case Exec(argv) => TExec(CWords(b, argv))
    case Redir(d, f, m) => TRedir(CView(b, d), CWord(b, f), m)
    case Pipe(l, r) => TPipe(CView(b, l), CView(b, r))
    case List(l, r) => TList(CView(b, l), CView(b, r))
    case Back(d) => TBack(CView(b, d))
  }

  lemma {:induction false} WordsAt(s: string, ws: seq<Span>)
    ensures forall i :: 0 <= i < |ws| ==> Words(s, ws)[i] == Word(s, ws[i])
  {
    if ws != [] { WordsAt(s, ws[1..]); }
  }

  lemma {:induction false} CViewIs(b: string, text: string, c: Cmd, d: Cmd)
    requires NoNul(text) && AllWords(text, c) && Terminated(b, text, c) && Spans(d) <= Spans(c)
    ensures CView(b, d) == View(text, d)
    decreases d
  {
    hide Terminated, AllWords, NoNul;
    match d
    case Exec(argv) =>
      WordsAt(text, argv);
      forall i | 0 <= i < |argv| ensures CWords(b, argv)[i] == Words(text, argv)[i] {
        assert argv[i] in Spans(d);
        ReadsBack(b, text, c, argv[i]);
      }
      assert CWords(b, argv) == Words(text, argv);
    case Redir(e, f, m) =>
      CViewIs(b, text, c, e);
      assert f in Spans(d);
      ReadsBack(b, text, c, f);
    case Pipe(l, r) => CViewIs(b, text, c, l); CViewIs(b, text, c, r);
    case List(l, r) => CViewIs(b, text, c, l); CViewIs(b, text, c, r);
    case Back(e) => CViewIs(b, text, c, e);
  }

  // ---- parsecmd ------------------------------------------------------------------------------------

  /** parsecmd on a line ending in a NUL: it parses what ParseCmd says, and the C strings it
      leaves in the buffer are the words of the tree, each as it stood in the line. */
  method Parse(buf: array<char>) returns (r: Parsed)
    requires buf.Length > 0 && buf[buf.Length - 1] == '\0' && NoNul(buf[..buf.Length - 1])
    modifies buf
    ensures r == ParseCmd(old(buf[..buf.Length - 1]))
    ensures r.Ok? ==> CView(buf[..], r.cmd) == View(old(buf[..buf.Length - 1]), r.cmd)
    ensures r.Ok? ==> Terminated(buf[..], old(buf[..buf.Length - 1]), r.cmd)
    ensures r.Panic? ==> buf[..] == old(buf[..])
  {
    var n := buf.Length - 1;
    var text := buf[..n];
    var c := new Cursor(text);
    r := c.Line();
    if r.Panic? { return; }
    LineWords(text, 0);
    assert AllWords(text, r.cmd);
    hide ParseLine, GetToken, Peek;
    var none := c.Peeks("");
    if c.pos != |text| { return Panic(Leftovers); }
    r := Ok(r.cmd, c.pos);
    NulTerminate(buf, r.cmd);
    assert Terminated(buf[..], text, r.cmd);
    CViewIs(buf[..], text, r.cmd, r.cmd);
  }

  /** Reading a printed tree through the pointers that parsing left gives the tree, or the
      panic when a simple command has more than nine words. */
  method ParsePrinted(t: Tree) returns (buf: array<char>, r: Parsed)
    requires WordTree(t)
    ensures if ShortTree(t) then r.Ok? && CView(buf[..], r.cmd) == t else r == Panic(TooManyArgs)
  {
    var text := Render(t);
    RenderNoNul(t);
    ArgLimit(t);
    hide Render, ParseCmd;
    buf := new char[|text| + 1](i requires 0 <= i <= |text| => if i < |text| then text[i] else '\0');
    assert buf[..|text|] == text;
    r := Parse(buf);
  }

  lemma {:induction false} TextNoNul(ts: seq<Tk>)
    requires ValidTks(ts)
    ensures NoNul(Text(ts))
  {
    if ts != [] {
      assert ValidTk(ts[0]);
      TextNoNul(ts[1..]);
    }
  }

  lemma RenderNoNul(t: Tree)
    requires WordTree(t)
    ensures NoNul(Render(t))
  {
    PrintValid(3, t);
    TextNoNul(Print(3, t));
  }
}
