/** The command language of sh.c: what each parsing function makes of the text from a
    position on. A command holds its words as spans of the text, as the C nodes do. */
module ShellGrammar {
  const MAXARGS := 10

  datatype Span = Span(q: nat, eq: nat)
  datatype Mode = In | Out | Append

  datatype Cmd =
    | Exec(argv: seq<Span>)
    | Redir(cmd: Cmd, file: Span, mode: Mode)
    | Pipe(left: Cmd, right: Cmd)
    | List(left: Cmd, right: Cmd)
    | Back(cmd: Cmd)

  datatype Error = MissingFile | TooManyArgs | Syntax | MissingParen | Leftovers

  datatype Parsed = Ok(cmd: Cmd, pos: nat) | Panic(error: Error)

  // ---- characters and tokens -----------------------------------------------------------------

  predicate White(c: char) { c == ' ' || c == '\t' || c == '\r' || c == '\n' || c == '\U{0b}' }

  predicate Symbol(c: char) { c == '<' || c == '|' || c == '>' || c == '&' || c == ';' || c == '(' || c == ')' }

  predicate WordChar(c: char) { !White(c) && !Symbol(c) && c != '\0' }

  function SkipWhite(s: string, i: nat): (j: nat)
    requires i <= |s|
    ensures i <= j <= |s| && (j < |s| ==> !White(s[j]))
    ensures forall k :: i <= k < j ==> White(s[k])
    decreases |s| - i
  {
    if i < |s| && White(s[i]) then SkipWhite(s, i + 1) else i
  }

  function WordEnd(s: string, i: nat): (j: nat)
    requires i <= |s|
    ensures i <= j <= |s| && (j < |s| ==> White(s[j]) || Symbol(s[j]))
    ensures forall k :: i <= k < j ==> !White(s[k]) && !Symbol(s[k])
    decreases |s| - i
  {
    if i < |s| && !White(s[i]) && !Symbol(s[i]) then WordEnd(s, i + 1) else i
  }

  /** kind is '\0' at the end, 'a' for a word, '+' for >>, else the symbol. */
  datatype Token = Token(kind: char, q: nat, eq: nat, next: nat)

  function GetToken(s: string, i: nat): (t: Token)
    requires i <= |s|
    ensures i <= t.q <= t.eq <= t.next <= |s|
    ensures t.q < |s| ==> i < t.next
    ensures t.kind == '\0' ==> t.q == |s|
  {
    var q := SkipWhite(s, i);
    if q == |s| then Token('\0', q, q, q)
    else if s[q] == '>' && q + 1 < |s| && s[q + 1] == '>' then Token('+', q, q + 2, SkipWhite(s, q + 2))
    else if Symbol(s[q]) then Token(s[q], q, q + 1, SkipWhite(s, q + 1))
    else Token('a', q, WordEnd(s, q + 1), SkipWhite(s, WordEnd(s, q + 1)))
  }

  /** peek: the next character after white space is one of toks. */
  predicate Peek(s: string, i: nat, toks: string)
    requires i <= |s|
  {
    var j := SkipWhite(s, i);
    j < |s| && s[j] in toks
  }

  // ---- the parsing functions -------------------------------------------------------------------

  datatype Redirection = Redirection(mode: Mode, file: Span)
  datatype Redirs = Redirs(list: seq<Redirection>, pos: nat) | RedirPanic

  function ModeOf(kind: char): Mode { if kind == '<' then In else if kind == '>' then Out else Append }

  /** parseredirs wraps cmd in each redirection, the last one outermost. */
  function Wrap(cmd: Cmd, rs: seq<Redirection>): Cmd {
    if rs == [] then cmd else Redir(Wrap(cmd, rs[..|rs| - 1]), rs[|rs| - 1].file, rs[|rs| - 1].mode)
  }

  function ParseRedirs(s: string, i: nat): (r: Redirs)
    requires i <= |s|
    ensures r.Redirs? ==> i <= r.pos <= |s|
    decreases |s| - i
  {
    if Peek(s, i, "<>") then
      var t := GetToken(s, i);
      var f := GetToken(s, t.next);
      if f.kind != 'a' then RedirPanic else
        var r := ParseRedirs(s, f.next);
        if r.RedirPanic? then r
        else Redirs([Redirection(ModeOf(t.kind), Span(f.q, f.eq))] + r.list, r.pos)
    else Redirs([], SkipWhite(s, i))
  }

  datatype Args = Args(argv: seq<Span>, list: seq<Redirection>, pos: nat) | ArgsPanic(error: Error)

  /** The loop of parseexec, when argc words have been read. */
  function ParseArgs(s: string, i: nat, argc: nat): (r: Args)
    requires i <= |s|
    ensures r.Args? ==> i <= r.pos <= |s|
    decreases |s| - i
  {
    var t := GetToken(s, i);
    if Peek(s, i, "|)&;") then Args([], [], SkipWhite(s, i))
    else if t.kind == '\0' then Args([], [], t.next)
    else if t.kind != 'a' then ArgsPanic(Syntax)
    else if argc + 1 >= MAXARGS then ArgsPanic(TooManyArgs)
    else
      var r := ParseRedirs(s, t.next);
      if r.RedirPanic? then ArgsPanic(MissingFile) else
        var rest := ParseArgs(s, r.pos, argc + 1);
        if rest.ArgsPanic? then rest
        else Args([Span(t.q, t.eq)] + rest.argv, r.list + rest.list, rest.pos)
  }

  function ParseLine(s: string, i: nat): (r: Parsed)
    requires i <= |s|
    ensures r.Ok? ==> i <= r.pos <= |s|
    decreases |s| - i, 4
  {
    var p := ParsePipe(s, i);
    if p.Panic? then p else
      var b := ParseBack(s, p.pos, p.cmd);
      if Peek(s, b.pos, ";") then
        var r := ParseLine(s, GetToken(s, b.pos).next);
        if r.Panic? then r else Ok(List(b.cmd, r.cmd), r.pos)
      else Ok(b.cmd, SkipWhite(s, b.pos))
  }

  /** The while loop of parseline. */
  function ParseBack(s: string, i: nat, cmd: Cmd): (r: Parsed)
    requires i <= |s|
    ensures r.Ok? && i <= r.pos <= |s|
    decreases |s| - i, 0
  {
    if Peek(s, i, "&") then ParseBack(s, GetToken(s, i).next, Back(cmd))
    else Ok(cmd, SkipWhite(s, i))
  }

  function ParsePipe(s: string, i: nat): (r: Parsed)
    requires i <= |s|
    ensures r.Ok? ==> i <= r.pos <= |s|
    decreases |s| - i, 3
  {
    var e := ParseExec(s, i);
    if e.Panic? then e
    else if Peek(s, e.pos, "|") then
      var r := ParsePipe(s, GetToken(s, e.pos).next);
      if r.Panic? then r else Ok(Pipe(e.cmd, r.cmd), r.pos)
    else Ok(e.cmd, SkipWhite(s, e.pos))
  }

  function ParseExec(s: string, i: nat): (r: Parsed)
    requires i <= |s|
    ensures r.Ok? ==> i <= r.pos <= |s|
    decreases |s| - i, 2
  {
    if Peek(s, i, "(") then ParseBlock(s, i) else
      var r0 := ParseRedirs(s, i);
      if r0.RedirPanic? then Panic(MissingFile) else
        var a := ParseArgs(s, r0.pos, 0);
        if a.ArgsPanic? then Panic(a.error) else Ok(Wrap(Exec(a.argv), r0.list + a.list), a.pos)
  }

  function ParseBlock(s: string, i: nat): (r: Parsed)
    requires i <= |s| && Peek(s, i, "(")
    ensures r.Ok? ==> i <= r.pos <= |s|
    decreases |s| - i, 1
  {
    var l := ParseLine(s, GetToken(s, i).next);
    if l.Panic? then l
    else if !Peek(s, l.pos, ")") then Panic(MissingParen)
    else
      var r := ParseRedirs(s, GetToken(s, l.pos).next);
      if r.RedirPanic? then Panic(MissingFile) else Ok(Wrap(l.cmd, r.list), r.pos)
  }

  /** parsecmd before nulterminate. */
  function ParseCmd(s: string): Parsed {
    var r := ParseLine(s, 0);
    if r.Panic? then r
    else if SkipWhite(s, r.pos) != |s| then Panic(Leftovers)
    else Ok(r.cmd, |s|)
  }
}
