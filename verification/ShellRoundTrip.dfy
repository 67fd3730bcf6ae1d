/** Printing a command tree and parsing the text gives the tree back. The printer writes
    parentheses only where the grammar needs them, and one space after every token. */
module ShellRoundTrip {
  import opened ShellGrammar

  /** A command with its words as strings. */
  datatype Tree =
    | TExec(argv: seq<string>)
    | TRedir(cmd: Tree, file: string, mode: Mode)
    | TPipe(left: Tree, right: Tree)
    | TList(left: Tree, right: Tree)
    | TBack(cmd: Tree)

  predicate ValidWord(w: string) { w != "" && forall i :: 0 <= i < |w| ==> WordChar(w[i]) }

  /** Its words are words. An empty command is a command. */
  predicate WordTree(t: Tree) {
    match t
    case TExec(argv) => forall i :: 0 <= i < |argv| ==> ValidWord(argv[i])
    case TRedir(c, f, _) => WordTree(c) && ValidWord(f)
    case TPipe(l, r) => WordTree(l) && WordTree(r)
    case TList(l, r) => WordTree(l) && WordTree(r)
    case TBack(c) => WordTree(c)
  }

  /** No simple command has more than 9 words. */
  predicate ShortTree(t: Tree) {
    match t
    case TExec(argv) => |argv| < MAXARGS
    case TRedir(c, _, _) => ShortTree(c)
    case TPipe(l, r) => ShortTree(l) && ShortTree(r)
    case TList(l, r) => ShortTree(l) && ShortTree(r)
    case TBack(c) => ShortTree(c)
  }

  predicate ValidTree(t: Tree) { WordTree(t) && ShortTree(t) }

  function Word(s: string, w: Span): string { if w.q <= w.eq <= |s| then s[w.q..w.eq] else "" }

  function Words(s: string, ws: seq<Span>): (r: seq<string>)
    ensures |r| == |ws|
  {
    if ws == [] then [] else [Word(s, ws[0])] + Words(s, ws[1..])
  }

  /** The tree that a parsed command stands for in its text. */
  function View(s: string, c: Cmd): Tree {
    match c
    case Exec(argv) => TExec(Words(s, argv))
    case Redir(d, f, m) => TRedir(View(s, d), Word(s, f), m)
    case Pipe(l, r) => TPipe(View(s, l), View(s, r))
    case List(l, r) => TList(View(s, l), View(s, r))
    case Back(d) => TBack(View(s, d))
  }

  // ---- printing ----------------------------------------------------------------------------

  datatype Tk = W(w: string) | S(c: char) | More

  function Str(t: Tk): string {
    match t
    case W(w) => w
    case S(c) => [c]
    case More => ">>"
  }

  predicate ValidTk(t: Tk) { (t.W? ==> ValidWord(t.w)) && (t.S? ==> Symbol(t.c)) }

  predicate ValidTks(ts: seq<Tk>) { forall i :: 0 <= i < |ts| ==> ValidTk(ts[i]) }

  function Text(ts: seq<Tk>): string {
    if ts == [] then "" else Str(ts[0]) + " " + Text(ts[1..])
  }

  function OpOf(m: Mode): Tk { match m case In => S('<') case Out => S('>') case Append => More }

  function Rank(t: Tree): nat {
    match t
    case TList(_, _) => 3
    case TBack(_) => 2
    case TPipe(_, _) => 1
    case _ => 0
  }

  function WordTks(ws: seq<string>): seq<Tk> { if ws == [] then [] else [W(ws[0])] + WordTks(ws[1..]) }

  /** The tokens of t in a place that takes constructs up to this level of the grammar. */
  function Print(level: nat, t: Tree): seq<Tk>
    requires level <= 3
    decreases t, if Rank(t) > level then 1 else 0
  {
    if Rank(t) > level then [S('(')] + Print(3, t) + [S(')')] else
    match t
    case TExec(argv) => WordTks(argv)
    case TRedir(c, f, m) => Print(0, c) + [OpOf(m), W(f)]
    case TPipe(l, r) => Print(0, l) + [S('|')] + Print(1, r)
    case TBack(c) => Print(2, c) + [S('&')]
    case TList(l, r) => Print(2, l) + [S(';')] + Print(3, r)
  }

  function Render(t: Tree): string { Text(Print(3, t)) }

  lemma {:induction false} WordTksValid(ws: seq<string>)
    requires forall i :: 0 <= i < |ws| ==> ValidWord(ws[i])
    ensures ValidTks(WordTks(ws))
  {
    if ws != [] { WordTksValid(ws[1..]); }
  }

  lemma {:induction false} PrintValid(level: nat, t: Tree)
    requires level <= 3 && WordTree(t)
    ensures ValidTks(Print(level, t))
    decreases t, if Rank(t) > level then 1 else 0
  {
    if Rank(t) > level {
      PrintValid(3, t);
    } else {
      match t
      case TExec(argv) => WordTksValid(argv);
      case TRedir(c, f, m) => PrintValid(0, c);
      case TPipe(l, r) => PrintValid(0, l); PrintValid(1, r);
      case TBack(c) => PrintValid(2, c);
      case TList(l, r) => PrintValid(2, l); PrintValid(3, r);
    }
  }

  // ---- reading tokens ------------------------------------------------------------------------

  /** From position i on, the text is these tokens. */
  predicate At(s: string, i: nat, ts: seq<Tk>) { i <= |s| && s[i..] == Text(ts) && ValidTks(ts) }

  function Kind(t: Tk): char { match t case W(_) => 'a' case S(c) => c case More => '+' }

  lemma TextCons(t: Tk, ts: seq<Tk>)
    ensures Text([t] + ts) == Str(t) + " " + Text(ts)
  {
  }

  /** The first token's characters stand at i, a space after them, and the rest after that. */
  lemma AtCons(s: string, i: nat, t: Tk, ts: seq<Tk>)
    requires At(s, i, [t] + ts)
    ensures var n := |Str(t)|;
      && i + n + 1 <= |s| && s[i..i + n] == Str(t) && s[i + n] == ' ' && At(s, i + n + 1, ts) && ValidTk(t)
  {
    hide Text, Str, ValidTk;
    var n, x := |Str(t)|, s[i..];
    TextCons(t, ts);
    assert x == Str(t) + (" " + Text(ts));
    assert x[..n] == Str(t) && x[n] == ' ' && x[n + 1..] == Text(ts);
    assert s[i + n + 1..] == x[n + 1..] && s[i + n] == x[n] && s[i..i + n] == x[..n];
    assert ([t] + ts)[0] == t;
    forall k | 0 <= k < |ts| ensures ValidTk(ts[k]) { assert ([t] + ts)[k + 1] == ts[k]; }
  }

  predicate Starts(t: Tk, c: char) {
    match t
    case W(_) => WordChar(c)
    case S(x) => c == x && Symbol(c)
    case More => c == '>'
  }

  /** The first token on the text begins at i, and no white space comes before it. */
  lemma AtStart(s: string, i: nat, ts: seq<Tk>)
    requires At(s, i, ts)
    ensures i <= |s| && SkipWhite(s, i) == i && (ts == [] <==> i == |s|)
    ensures ts != [] ==> i < |s| && Starts(ts[0], s[i]) && !White(s[i])
  {
  }

  lemma SkipWhiteIs(s: string, i: nat, j: nat)
    requires i <= j <= |s| && (j < |s| ==> !White(s[j])) && forall k :: i <= k < j ==> White(s[k])
    ensures SkipWhite(s, i) == j
  {
  }

  lemma WordEndIs(s: string, i: nat, j: nat)
    requires i <= j < |s| && White(s[j]) && forall k :: i <= k < j ==> WordChar(s[k])
    ensures WordEnd(s, i) == j
  {
  }

  /** gettoken reads the next token, and leaves the rest. */
  lemma NextToken(s: string, i: nat, t: Tk, ts: seq<Tk>)
    requires At(s, i, [t] + ts)
    ensures var n := |Str(t)|;
      && i + n + 1 <= |s| && At(s, i + n + 1, ts)
      && GetToken(s, i) == Token(Kind(t), i, i + n, i + n + 1)
      && s[i..i + n] == Str(t)
  {
    hide At, Text;
    var n := |Str(t)|;
    AtCons(s, i, t, ts);
    AtStart(s, i, [t] + ts);
    AtStart(s, i + n + 1, ts);
    SkipWhiteIs(s, i + n, i + n + 1);
    forall k | 0 <= k < n ensures s[i + k] == Str(t)[k] { assert s[i..i + n][k] == s[i + k]; }
    match t
    case W(w) =>
      forall k | i <= k < i + n ensures WordChar(s[k]) { assert s[i + (k - i)] == w[k - i]; }
      WordEndIs(s, i + 1, i + n);
    case S(c) =>
      assert s[i..i + n][0] == s[i] == c && s[i + 1] == ' ';
    case More =>
      assert s[i..i + n][0] == s[i] == '>' && s[i..i + n][1] == s[i + 1] == '>';
  }

  predicate Opens(ts: seq<Tk>, toks: string) {
    ts != [] && match ts[0]
                case W(_) => false
                case S(c) => c in toks
                case More => '>' in toks
  }

  predicate Symbols(toks: string) { forall i :: 0 <= i < |toks| ==> Symbol(toks[i]) }

  /** peek sees the next token's symbol. */
  lemma PeekAt(s: string, i: nat, ts: seq<Tk>, toks: string)
    requires At(s, i, ts) && Symbols(toks)
    ensures i <= |s| && (Peek(s, i, toks) <==> Opens(ts, toks))
  {
  }

  /** The next token is one of these symbols, or there is none. */
  predicate Follow(ts: seq<Tk>, cs: string) { ts == [] || (ts[0].S? && ts[0].c in cs) }

  // ---- redirections ----------------------------------------------------------------------------

  function RedirTks(rs: seq<(Mode, string)>): seq<Tk> {
    if rs == [] then [] else [OpOf(rs[0].0), W(rs[0].1)] + RedirTks(rs[1..])
  }

  function RedirViews(s: string, rs: seq<Redirection>): (r: seq<(Mode, string)>)
    ensures |r| == |rs|
  {
    if rs == [] then [] else [(rs[0].mode, Word(s, rs[0].file))] + RedirViews(s, rs[1..])
  }

  predicate AfterRedirs(ts: seq<Tk>) { ts == [] || ts[0].W? || Follow(ts, "|)&;") }

  lemma RedirsStep(s: string, i: nat)
    requires i <= |s| && Peek(s, i, "<>") && GetToken(s, GetToken(s, i).next).kind == 'a'
    requires ParseRedirs(s, GetToken(s, GetToken(s, i).next).next).Redirs?
    ensures var t := GetToken(s, i); var f := GetToken(s, t.next); var r := ParseRedirs(s, f.next);
      && ParseRedirs(s, i).Redirs? && ParseRedirs(s, i).pos == r.pos
      && RedirViews(s, ParseRedirs(s, i).list) == [(ModeOf(t.kind), Word(s, Span(f.q, f.eq)))] + RedirViews(s, r.list)
  {
  }

  lemma RedirsNone(s: string, i: nat, rest: seq<Tk>)
    requires At(s, i, rest) && AfterRedirs(rest)
    ensures i <= |s| && ParseRedirs(s, i).Redirs? && At(s, ParseRedirs(s, i).pos, rest)
    ensures ParseRedirs(s, i).list == []
  {
    hide At, GetToken, Peek;
    PeekAt(s, i, rest, "<>");
    AtStart(s, i, rest);
  }

  lemma RedirTksHead(rs: seq<(Mode, string)>, rest: seq<Tk>)
    requires rs != []
    ensures RedirTks(rs) + rest == [OpOf(rs[0].0)] + ([W(rs[0].1)] + (RedirTks(rs[1..]) + rest))
  {
  }

  /** An operator and its file come next. */
  lemma OneRedir(s: string, i: nat, r: (Mode, string), more: seq<Tk>)
    requires At(s, i, [OpOf(r.0)] + ([W(r.1)] + more))
    ensures i <= |s| && Peek(s, i, "<>")
    ensures var t := GetToken(s, i); var w := GetToken(s, t.next);
      && t.next <= |s| && w.kind == 'a' && ModeOf(t.kind) == r.0 && At(s, w.next, more)
      && Word(s, Span(w.q, w.eq)) == r.1
  {
    hide At, GetToken, Peek;
    var op, f := OpOf(r.0), W(r.1);
    PeekAt(s, i, [op] + ([f] + more), "<>");
    AtStart(s, i, [op] + ([f] + more));
    NextToken(s, i, op, [f] + more);
    NextToken(s, GetToken(s, i).next, f, more);
  }

  lemma {:induction false} RedirsBack(s: string, i: nat, rs: seq<(Mode, string)>, rest: seq<Tk>)
    requires At(s, i, RedirTks(rs) + rest) && AfterRedirs(rest)
    ensures i <= |s| && ParseRedirs(s, i).Redirs? && At(s, ParseRedirs(s, i).pos, rest)
    ensures RedirViews(s, ParseRedirs(s, i).list) == rs
    decreases |rs|
  {
    NoTks(s);
    hide At, GetToken, Peek, ParseRedirs, RedirViews, RedirTks, AfterRedirs, Word;
    if rs == [] {
      assert RedirTks(rs) + rest == rest;
      RedirsNone(s, i, rest);
    } else {
      RedirTksHead(rs, rest);
      OneRedir(s, i, rs[0], RedirTks(rs[1..]) + rest);
      RedirsBack(s, GetToken(s, GetToken(s, i).next).next, rs[1..], rest);
      RedirsStep(s, i);
      assert rs == [rs[0]] + rs[1..];
    }
  }

  // ---- simple commands -------------------------------------------------------------------------

  /** The command under the redirections, and the redirections, innermost first. */
  function Core(t: Tree): Tree { if t.TRedir? then Core(t.cmd) else t }

  function RedirsOf(t: Tree): seq<(Mode, string)> {
    if t.TRedir? then RedirsOf(t.cmd) + [(t.mode, t.file)] else []
  }

  lemma {:induction false} RedirTksAppend(rs: seq<(Mode, string)>, r: (Mode, string))
    ensures RedirTks(rs + [r]) == RedirTks(rs) + [OpOf(r.0), W(r.1)]
  {
    if rs != [] {
      RedirTksAppend(rs[1..], r);
      assert (rs + [r])[1..] == rs[1..] + [r];
    } else {
      assert rs + [r] == [r];
    }
  }

  lemma {:induction false} PrintCore(t: Tree)
    ensures Print(0, t) == Print(0, Core(t)) + RedirTks(RedirsOf(t))
    ensures ValidTree(t) ==> ValidTree(Core(t))
    ensures WordTree(t) ==> WordTree(Core(t)) && (ShortTree(Core(t)) <==> ShortTree(t))
    ensures !Core(t).TRedir? && (Core(t) == t || Core(t) < t)
  {
    if t.TRedir? {
      PrintCore(t.cmd);
      RedirTksAppend(RedirsOf(t.cmd), (t.mode, t.file));
    }
  }

  function WrapTree(t: Tree, rs: seq<(Mode, string)>): Tree {
    if rs == [] then t else TRedir(WrapTree(t, rs[..|rs| - 1]), rs[|rs| - 1].1, rs[|rs| - 1].0)
  }

  lemma {:induction false} WrapCore(t: Tree)
    ensures WrapTree(Core(t), RedirsOf(t)) == t
  {
    if t.TRedir? {
      WrapCore(t.cmd);
      var rs := RedirsOf(t);
      assert rs[..|rs| - 1] == RedirsOf(t.cmd);
    }
  }

  lemma RedirViewsHead(s: string, rs: seq<Redirection>)
    ensures RedirViews(s, rs) ==
      if rs == [] then [] else [(rs[0].mode, Word(s, rs[0].file))] + RedirViews(s, rs[1..])
  {
  }

  lemma {:induction false} RedirViewsCat(s: string, a: seq<Redirection>, b: seq<Redirection>)
    ensures RedirViews(s, a + b) == RedirViews(s, a) + RedirViews(s, b)
  {
    hide RedirViews, Word;
    RedirViewsHead(s, a);
    RedirViewsHead(s, a + b);
    if a == [] { assert a + b == b; } else {
      RedirViewsCat(s, a[1..], b);
      assert (a + b)[1..] == a[1..] + b;
    }
  }

  lemma {:induction false} ViewWrap(s: string, c: Cmd, rs: seq<Redirection>)
    ensures View(s, Wrap(c, rs)) == WrapTree(View(s, c), RedirViews(s, rs))
    decreases |rs|
  {
    if rs != [] {
      var init, last := rs[..|rs| - 1], rs[|rs| - 1];
      ViewWrap(s, c, init);
      RedirViewsCat(s, init, [last]);
      assert rs == init + [last];
      var vs := RedirViews(s, rs);
      assert vs[..|vs| - 1] == RedirViews(s, init);
    }
  }

  lemma ArgsStep(s: string, i: nat, argc: nat)
    requires i <= |s| && !Peek(s, i, "|)&;") && GetToken(s, i).kind == 'a' && argc + 1 < MAXARGS
    requires ParseRedirs(s, GetToken(s, i).next).Redirs?
    requires ParseArgs(s, ParseRedirs(s, GetToken(s, i).next).pos, argc + 1).Args?
    ensures var t := GetToken(s, i); var r := ParseRedirs(s, t.next); var a := ParseArgs(s, r.pos, argc + 1);
      && ParseArgs(s, i, argc).Args? && ParseArgs(s, i, argc).pos == a.pos
      && Words(s, ParseArgs(s, i, argc).argv) == [Word(s, Span(t.q, t.eq))] + Words(s, a.argv)
      && RedirViews(s, ParseArgs(s, i, argc).list) == RedirViews(s, r.list) + RedirViews(s, a.list)
  {
    hide GetToken, Peek, ParseRedirs, Word, RedirViews;
    var t := GetToken(s, i);
    var r := ParseRedirs(s, t.next);
    var a := ParseArgs(s, r.pos, argc + 1);
    assert ([Span(t.q, t.eq)] + a.argv)[1..] == a.argv;
    RedirViewsCat(s, r.list, a.list);
  }

  lemma WordTksHead(ws: seq<string>)
    requires ws != []
    ensures WordTks(ws) == [W(ws[0])] + WordTks(ws[1..])
  {
  }

  /** The tokens after the first of the words: the redirections come after the last. */
  lemma SplitTks(ws: seq<string>, rs: seq<(Mode, string)>, rest: seq<Tk>)
    returns (mid: seq<(Mode, string)>, later: seq<(Mode, string)>)
    requires ws != [] && Follow(rest, "|)&;")
    ensures mid + later == rs && (|ws| == 1 ==> later == [])
    ensures var more := WordTks(ws[1..]) + RedirTks(later) + rest;
      && WordTks(ws) + RedirTks(rs) + rest == [W(ws[0])] + (RedirTks(mid) + more)
      && AfterRedirs(more)
  {
    WordTksHead(ws);
    assert RedirTks([]) == [];
    if |ws| == 1 {
      mid, later := rs, [];
      assert WordTks(ws[1..]) == [];
    } else {
      mid, later := [], rs;
      WordTksHead(ws[1..]);
    }
    hide RedirTks, WordTks;
    CatTks(W(ws[0]), WordTks(ws[1..]), RedirTks(rs), RedirTks(mid), RedirTks(later), rest);
  }

  lemma CatTks(w: Tk, ws: seq<Tk>, rs: seq<Tk>, mid: seq<Tk>, later: seq<Tk>, rest: seq<Tk>)
    requires (ws == [] && mid == rs && later == []) || (mid == [] && later == rs)
    ensures ([w] + ws) + rs + rest == [w] + (mid + (ws + later + rest))
    ensures ws != [] ==> (ws + later + rest)[0] == ws[0]
    ensures ws == [] && later == [] ==> ws + later + rest == rest
  {
  }

  lemma NoTks(s: string)
    ensures WordTks([]) == [] && RedirTks([]) == [] && Words(s, []) == [] && RedirViews(s, []) == []
  {
  }

  /** The argument loop ends at once where no word follows. */
  lemma ArgsNone(s: string, i: nat, rest: seq<Tk>, argc: nat)
    requires At(s, i, rest) && Follow(rest, "|)&;")
    ensures i <= |s| && ParseArgs(s, i, argc).Args? && At(s, ParseArgs(s, i, argc).pos, rest)
    ensures ParseArgs(s, i, argc).argv == [] && ParseArgs(s, i, argc).list == []
  {
    hide At, GetToken, Peek, ParseRedirs, SkipWhite, White, Starts;
    PeekAt(s, i, rest, "|)&;");
    AtStart(s, i, rest);
    if rest == [] { EndToken(s, i); }
  }

  /** The argument loop reads the words, then whatever redirections follow the last of them. */
  lemma {:induction false} ArgsBack(s: string, i: nat, ws: seq<string>, rs: seq<(Mode, string)>, rest: seq<Tk>,
                                    argc: nat)
    requires At(s, i, WordTks(ws) + RedirTks(rs) + rest) && Follow(rest, "|)&;")
    requires argc + |ws| < MAXARGS && (ws == [] ==> rs == [])
    ensures i <= |s| && ParseArgs(s, i, argc).Args? && At(s, ParseArgs(s, i, argc).pos, rest)
    ensures Words(s, ParseArgs(s, i, argc).argv) == ws
    ensures RedirViews(s, ParseArgs(s, i, argc).list) == rs
    decreases |ws|
  {
    NoTks(s);
    hide At, GetToken, Peek, ParseRedirs, SkipWhite, White, Starts, ParseArgs, Words, RedirViews, WordTks, RedirTks;
    var ts := WordTks(ws) + RedirTks(rs) + rest;
    if ws == [] {
      assert ts == rest;
      ArgsNone(s, i, rest, argc);
    } else {
      var mid, later := SplitTks(ws, rs, rest);
      PeekAt(s, i, ts, "|)&;");
      AtStart(s, i, ts);
      var more := WordTks(ws[1..]) + RedirTks(later) + rest;
      NextToken(s, i, W(ws[0]), RedirTks(mid) + more);
      var t := GetToken(s, i);
      RedirsBack(s, t.next, mid, more);
      ArgsBack(s, ParseRedirs(s, t.next).pos, ws[1..], later, rest, argc + 1);
      ArgsStep(s, i, argc);
      assert ws == [ws[0]] + ws[1..];
    }
  }

  lemma EndToken(s: string, i: nat)
    requires i == |s|
    ensures GetToken(s, i) == Token('\0', i, i, i)
  {
  }

  lemma ExecStep(s: string, i: nat)
    requires i <= |s| && !Peek(s, i, "(") && ParseRedirs(s, i).Redirs?
    requires ParseArgs(s, ParseRedirs(s, i).pos, 0).Args?
    ensures var r := ParseRedirs(s, i); var a := ParseArgs(s, r.pos, 0);
      && ParseExec(s, i).Ok? && ParseExec(s, i).pos == a.pos
      && View(s, ParseExec(s, i).cmd)
           == WrapTree(TExec(Words(s, a.argv)), RedirViews(s, r.list) + RedirViews(s, a.list))
  {
    hide Peek, ParseRedirs, ParseArgs, RedirViews, Words, WrapTree, Wrap;
    var r := ParseRedirs(s, i);
    var a := ParseArgs(s, r.pos, 0);
    RedirViewsCat(s, r.list, a.list);
    ViewWrap(s, Exec(a.argv), r.list + a.list);
  }

  lemma SimpleBack(s: string, i: nat, ws: seq<string>, rs: seq<(Mode, string)>, rest: seq<Tk>)
    requires At(s, i, WordTks(ws) + RedirTks(rs) + rest) && Follow(rest, "|)&;") && |ws| < MAXARGS
    ensures i <= |s| && ParseExec(s, i).Ok? && At(s, ParseExec(s, i).pos, rest)
    ensures View(s, ParseExec(s, i).cmd) == WrapTree(TExec(ws), rs)
  {
    hide At, GetToken, Peek, ParseRedirs, ParseArgs, ParseExec, View, WrapTree, RedirViews;
    var ts := WordTks(ws) + RedirTks(rs) + rest;
    PeekAt(s, i, ts, "(");
    assert RedirTks([]) == [] && WordTks([]) == [];
    var first, later := if ws == [] then rs else [], if ws == [] then [] else rs;
    var more := WordTks(ws) + RedirTks(later) + rest;
    assert ts == RedirTks(first) + more;
    assert AfterRedirs(more) && !Opens(ts, "(") by {
      if ws != [] { assert more[0] == ts[0] == W(ws[0]); } else {
        assert more == rest;
        if rs == [] { assert ts == rest; } else { assert ts[0] == OpOf(rs[0].0); }
      }
    }
    hide WordTks, RedirTks;
    RedirsBack(s, i, first, more);
    ArgsBack(s, ParseRedirs(s, i).pos, ws, later, rest, 0);
    ExecStep(s, i);
    assert first + later == rs;
  }

  // ---- the grammar, level by level ---------------------------------------------------------------

  lemma BlockStep(s: string, i: nat)
    requires i <= |s| && Peek(s, i, "(") && ParseLine(s, GetToken(s, i).next).Ok?
    requires Peek(s, ParseLine(s, GetToken(s, i).next).pos, ")")
    requires ParseRedirs(s, GetToken(s, ParseLine(s, GetToken(s, i).next).pos).next).Redirs?
    ensures var l := ParseLine(s, GetToken(s, i).next); var r := ParseRedirs(s, GetToken(s, l.pos).next);
      && ParseExec(s, i).Ok? && ParseExec(s, i).pos == r.pos
      && View(s, ParseExec(s, i).cmd) == WrapTree(View(s, l.cmd), RedirViews(s, r.list))
  {
    hide GetToken, Peek, ParseRedirs, ParseLine, View, WrapTree, RedirViews, Wrap;
    var l := ParseLine(s, GetToken(s, i).next);
    ViewWrap(s, l.cmd, ParseRedirs(s, GetToken(s, l.pos).next).list);
  }

  /** What is printed for a group: parentheses around the command, then the redirections. */
  lemma PrintGroup(t: Tree, rest: seq<Tk>)
    requires !Core(t).TExec?
    ensures Print(0, t) + rest
         == [S('(')] + (Print(3, Core(t)) + ([S(')')] + (RedirTks(RedirsOf(t)) + rest)))
  {
    PrintCore(t);
    var core := Core(t);
    assert Print(0, core) == [S('(')] + Print(3, core) + [S(')')];
    hide Print, RedirTks, RedirsOf, Core;
  }

  lemma {:induction false} ExecBack(s: string, i: nat, t: Tree, rest: seq<Tk>)
    requires ValidTree(t) && At(s, i, Print(0, t) + rest) && Follow(rest, "|)&;")
    ensures i <= |s| && ParseExec(s, i).Ok? && At(s, ParseExec(s, i).pos, rest) && View(s, ParseExec(s, i).cmd) == t
    decreases t, if Rank(t) > 0 then 10 else 0
  {
    hide At, GetToken, Peek, ParseRedirs, ParseExec, ParseLine, View, WrapTree, RedirViews, RedirTks, ValidTree, Print;
    hide Core, RedirsOf, WordTks, Follow;
    var core, rs := Core(t), RedirsOf(t);
    PrintCore(t);
    WrapCore(t);
    if core.TExec? {
      assert Print(0, t) + rest == WordTks(core.argv) + RedirTks(rs) + rest by { PrintSimple(core); }
      assert |core.argv| < MAXARGS by { ValidSimple(core); }
      SimpleBack(s, i, core.argv, rs, rest);
    } else {
      var after := RedirTks(rs) + rest;
      var inner := [S(')')] + after;
      PrintGroup(t, rest);
      FollowParen(after);
      FollowRedirs(rest);
      PeekAt(s, i, Print(0, t) + rest, "(");
      hide Opens;
      NextToken(s, i, S('('), Print(3, core) + inner);
      var j := GetToken(s, i).next;
      LineBack(s, j, core, inner);
      var l := ParseLine(s, j);
      assert Opens(inner, ")") by { ParenOpens(after); }
      PeekAt(s, l.pos, inner, ")");
      NextToken(s, l.pos, S(')'), after);
      RedirsBack(s, GetToken(s, l.pos).next, rs, rest);
      BlockStep(s, i);
    }
  }

  lemma FollowParen(after: seq<Tk>)
    ensures Follow([S(')')] + after, ")")
  {
  }

  lemma ParenOpens(after: seq<Tk>)
    ensures Opens([S(')')] + after, ")")
  {
  }

  lemma FollowRedirs(rest: seq<Tk>)
    ensures Follow(rest, "|)&;") ==> AfterRedirs(rest)
  {
  }

  lemma PrintSimple(t: Tree)
    requires t.TExec?
    ensures Print(0, t) == WordTks(t.argv)
  {
  }

  lemma ValidSimple(t: Tree)
    requires t.TExec? && ValidTree(t)
    ensures |t.argv| < MAXARGS
  {
  }

  lemma PipeStep(s: string, i: nat)
    requires i <= |s| && ParseExec(s, i).Ok?
    ensures var e := ParseExec(s, i);
      if !Peek(s, e.pos, "|") then ParsePipe(s, i) == Ok(e.cmd, SkipWhite(s, e.pos)) else
        var r := ParsePipe(s, GetToken(s, e.pos).next);
        r.Ok? ==> ParsePipe(s, i) == Ok(Pipe(e.cmd, r.cmd), r.pos)
  {
  }

  lemma {:induction false} PipeBack(s: string, i: nat, t: Tree, rest: seq<Tk>)
    requires ValidTree(t) && At(s, i, Print(1, t) + rest) && Follow(rest, ")&;")
    ensures i <= |s| && ParsePipe(s, i).Ok? && At(s, ParsePipe(s, i).pos, rest) && View(s, ParsePipe(s, i).cmd) == t
    decreases t, if Rank(t) > 1 then 11 else 1
  {
    hide At, GetToken, Peek, SkipWhite, ParseExec, ParsePipe;
    if t.TPipe? {
      var more := [S('|')] + (Print(1, t.right) + rest);
      assert Print(1, t) + rest == Print(0, t.left) + more;
      ExecBack(s, i, t.left, more);
      var e := ParseExec(s, i);
      PeekAt(s, e.pos, more, "|");
      NextToken(s, e.pos, S('|'), Print(1, t.right) + rest);
      PipeBack(s, GetToken(s, e.pos).next, t.right, rest);
    } else {
      assert Print(1, t) == Print(0, t);
      ExecBack(s, i, t, rest);
      var e := ParseExec(s, i);
      PeekAt(s, e.pos, rest, "|");
      AtStart(s, e.pos, rest);
    }
    PipeStep(s, i);
  }

  lemma AmpStep(s: string, i: nat, c: Cmd)
    requires i <= |s|
    ensures ParseBack(s, i, c) ==
      if Peek(s, i, "&") then ParseBack(s, GetToken(s, i).next, Back(c)) else Ok(c, SkipWhite(s, i))
  {
  }

  /** The loop of parseline over the & after a pipe: it reaches the command t at a position j. */
  lemma {:induction false} AmpBack(s: string, i: nat, t: Tree, rest: seq<Tk>) returns (c: Cmd, j: nat)
    requires ValidTree(t) && At(s, i, Print(2, t) + rest) && Follow(rest, ")&;")
    ensures i <= |s| && j <= |s| && At(s, j, rest) && View(s, c) == t && ParsePipe(s, i).Ok?
    ensures ParseBack(s, ParsePipe(s, i).pos, ParsePipe(s, i).cmd) == ParseBack(s, j, c)
    decreases t, if Rank(t) > 2 then 12 else 2
  {
    hide At, GetToken, Peek, SkipWhite, ParsePipe, ParseBack;
    if t.TBack? {
      var more := [S('&')] + rest;
      assert Print(2, t) + rest == Print(2, t.cmd) + more;
      c, j := AmpBack(s, i, t.cmd, more);
      PeekAt(s, j, more, "&");
      NextToken(s, j, S('&'), rest);
      AmpStep(s, j, c);
      c, j := Back(c), GetToken(s, j).next;
    } else {
      assert Print(2, t) == Print(1, t);
      PipeBack(s, i, t, rest);
      c, j := ParsePipe(s, i).cmd, ParsePipe(s, i).pos;
      AtStart(s, j, rest);
    }
  }

  lemma LineStep(s: string, i: nat)
    requires i <= |s| && ParsePipe(s, i).Ok?
    ensures var b := ParseBack(s, ParsePipe(s, i).pos, ParsePipe(s, i).cmd);
      if !Peek(s, b.pos, ";") then ParseLine(s, i) == Ok(b.cmd, SkipWhite(s, b.pos)) else
        var r := ParseLine(s, GetToken(s, b.pos).next);
        r.Ok? ==> ParseLine(s, i) == Ok(List(b.cmd, r.cmd), r.pos)
  {
  }

  lemma {:induction false} LineBack(s: string, i: nat, t: Tree, rest: seq<Tk>)
    requires ValidTree(t) && At(s, i, Print(3, t) + rest) && Follow(rest, ")")
    ensures i <= |s| && ParseLine(s, i).Ok? && At(s, ParseLine(s, i).pos, rest) && View(s, ParseLine(s, i).cmd) == t
    decreases t, 3
  {
    hide At, GetToken, Peek, SkipWhite, ParsePipe, ParseBack, ParseLine;
    var c, j, more;
    if t.TList? {
      more := [S(';')] + (Print(3, t.right) + rest);
      assert Print(3, t) + rest == Print(2, t.left) + more;
      c, j := AmpBack(s, i, t.left, more);
      NextToken(s, j, S(';'), Print(3, t.right) + rest);
      LineBack(s, GetToken(s, j).next, t.right, rest);
    } else {
      more := rest;
      assert Print(3, t) == Print(2, t);
      c, j := AmpBack(s, i, t, rest);
    }
    PeekAt(s, j, more, "&");
    PeekAt(s, j, more, ";");
    AtStart(s, j, more);
    AmpStep(s, j, c);
    LineStep(s, i);
  }

  /** Parsing the printed form of any command tree gives that tree. */
  lemma RoundTrip(t: Tree)
    requires ValidTree(t)
    ensures ParseCmd(Render(t)).Ok? && View(Render(t), ParseCmd(Render(t)).cmd) == t
  {
    var s, ts := Render(t), Print(3, t);
    PrintValid(3, t);
    assert ts + [] == ts && s[0..] == s;
    LineBack(s, 0, t, []);
    AtStart(s, ParseLine(s, 0).pos, []);
  }

  // ---- too many words ------------------------------------------------------------------------------

  /** The tenth word makes the argument loop panic, whatever comes after the last. */
  lemma {:induction false} ArgsOver(s: string, i: nat, ws: seq<string>, rest: seq<Tk>, argc: nat)
    requires At(s, i, WordTks(ws) + rest) && argc < MAXARGS <= argc + |ws|
    ensures i <= |s| && ParseArgs(s, i, argc) == ArgsPanic(TooManyArgs)
    decreases |ws|
  {
    hide At, GetToken, Peek, ParseRedirs, SkipWhite, White, Starts, WordTks, RedirTks, Words, RedirViews;
    NoTks(s);
    WordTksHead(ws);
    var more := WordTks(ws[1..]) + rest;
    assert WordTks(ws) + rest == [W(ws[0])] + more;
    PeekAt(s, i, WordTks(ws) + rest, "|)&;");
    NextToken(s, i, W(ws[0]), more);
    if argc + 1 < MAXARGS {
      var t := GetToken(s, i);
      WordTksHead(ws[1..]);
      assert more[0] == W(ws[1]) && RedirTks([]) + more == more;
      RedirsBack(s, t.next, [], more);
      ArgsOver(s, ParseRedirs(s, t.next).pos, ws[1..], rest, argc + 1);
    }
  }

  lemma ArgsPanics(s: string, i: nat, e: Error)
    requires i <= |s| && !Peek(s, i, "(") && ParseRedirs(s, i).Redirs?
    requires ParseArgs(s, ParseRedirs(s, i).pos, 0) == ArgsPanic(e)
    ensures ParseExec(s, i) == Panic(e)
  {
    hide Peek, ParseRedirs, ParseArgs, GetToken, SkipWhite;
  }

  lemma SimpleOver(s: string, i: nat, ws: seq<string>, rest: seq<Tk>)
    requires At(s, i, WordTks(ws) + rest) && |ws| >= MAXARGS
    ensures i <= |s| && ParseExec(s, i) == Panic(TooManyArgs)
  {
    var ts := WordTks(ws) + rest;
    assert ts[0] == W(ws[0]) && RedirTks([]) + ts == ts;
    hide At, GetToken, ParseRedirs, ParseArgs, ParseExec, Peek, Text, WordTks, RedirTks;
    PeekAt(s, i, ts, "(");
    RedirsBack(s, i, [], ts);
    ArgsOver(s, ParseRedirs(s, i).pos, ws, rest, 0);
    ArgsPanics(s, i, TooManyArgs);
  }

  lemma BlockPanics(s: string, i: nat)
    requires i <= |s| && Peek(s, i, "(") && ParseLine(s, GetToken(s, i).next).Panic?
    ensures ParseExec(s, i) == ParseLine(s, GetToken(s, i).next)
  {
    hide GetToken, Peek, ParseLine;
  }

  /** A tree of words with a simple command that is too long. */
  predicate Over(t: Tree) { WordTree(t) && !ShortTree(t) }

  lemma OverParts(t: Tree)
    requires Over(t)
    ensures t.TExec? ==> |t.argv| >= MAXARGS
    ensures t.TRedir? || t.TBack? ==> Over(t.cmd)
    ensures t.TPipe? || t.TList? ==> Over(t.left) || (ValidTree(t.left) && Over(t.right))
  {
  }

  lemma {:induction false} ExecOver(s: string, i: nat, t: Tree, rest: seq<Tk>)
    requires Over(t) && At(s, i, Print(0, t) + rest) && Follow(rest, "|)&;")
    ensures i <= |s| && ParseExec(s, i) == Panic(TooManyArgs)
    decreases t, if Rank(t) > 0 then 10 else 0
  {
    hide At, GetToken, Peek, ParseExec, ParseLine, RedirTks, Print, Core, RedirsOf, WordTks, Follow, ShortTree,
      WordTree;
    var core, rs := Core(t), RedirsOf(t);
    PrintCore(t);
    OverParts(core);
    if core.TExec? {
      assert Print(0, t) + rest == WordTks(core.argv) + (RedirTks(rs) + rest) by { PrintSimple(core); }
      SimpleOver(s, i, core.argv, RedirTks(rs) + rest);
    } else {
      var inner := [S(')')] + (RedirTks(rs) + rest);
      PrintGroup(t, rest);
      FollowParen(RedirTks(rs) + rest);
      PeekAt(s, i, Print(0, t) + rest, "(");
      NextToken(s, i, S('('), Print(3, core) + inner);
      LineOver(s, GetToken(s, i).next, core, inner);
      BlockPanics(s, i);
    }
  }

  lemma PipePanics(s: string, i: nat)
    requires i <= |s|
    ensures var e := ParseExec(s, i);
      if e.Panic? then ParsePipe(s, i) == e else
        Peek(s, e.pos, "|") && ParsePipe(s, GetToken(s, e.pos).next).Panic? ==>
          ParsePipe(s, i) == ParsePipe(s, GetToken(s, e.pos).next)
  {
  }

  lemma {:induction false} PipeOver(s: string, i: nat, t: Tree, rest: seq<Tk>)
    requires Over(t) && At(s, i, Print(1, t) + rest) && Follow(rest, ")&;")
    ensures i <= |s| && ParsePipe(s, i) == Panic(TooManyArgs)
    decreases t, if Rank(t) > 1 then 11 else 1
  {
    hide At, GetToken, Peek, SkipWhite, ParseExec, ParsePipe, Over, ValidTree;
    OverParts(t);
    if t.TPipe? {
      var more := [S('|')] + (Print(1, t.right) + rest);
      assert Print(1, t) + rest == Print(0, t.left) + more;
      if Over(t.left) { ExecOver(s, i, t.left, more); } else {
        ExecBack(s, i, t.left, more);
        var e := ParseExec(s, i);
        PeekAt(s, e.pos, more, "|");
        NextToken(s, e.pos, S('|'), Print(1, t.right) + rest);
        PipeOver(s, GetToken(s, e.pos).next, t.right, rest);
      }
    } else {
      assert Print(1, t) == Print(0, t);
      ExecOver(s, i, t, rest);
    }
    PipePanics(s, i);
  }

  lemma {:induction false} AmpOver(s: string, i: nat, t: Tree, rest: seq<Tk>)
    requires Over(t) && At(s, i, Print(2, t) + rest) && Follow(rest, ")&;")
    ensures i <= |s| && ParsePipe(s, i) == Panic(TooManyArgs)
    decreases t, if Rank(t) > 2 then 12 else 2
  {
    hide At, ParsePipe, Over;
    OverParts(t);
    if t.TBack? {
      assert Print(2, t) + rest == Print(2, t.cmd) + ([S('&')] + rest);
      AmpOver(s, i, t.cmd, [S('&')] + rest);
    } else {
      assert Print(2, t) == Print(1, t);
      PipeOver(s, i, t, rest);
    }
  }

  lemma LinePanics(s: string, i: nat)
    requires i <= |s|
    ensures ParsePipe(s, i).Panic? ==> ParseLine(s, i) == ParsePipe(s, i)
    ensures ParsePipe(s, i).Ok? ==>
      var b := ParseBack(s, ParsePipe(s, i).pos, ParsePipe(s, i).cmd);
      Peek(s, b.pos, ";") && ParseLine(s, GetToken(s, b.pos).next).Panic? ==>
        ParseLine(s, i) == ParseLine(s, GetToken(s, b.pos).next)
  {
  }

  lemma {:induction false} LineOver(s: string, i: nat, t: Tree, rest: seq<Tk>)
    requires Over(t) && At(s, i, Print(3, t) + rest) && Follow(rest, ")")
    ensures i <= |s| && ParseLine(s, i) == Panic(TooManyArgs)
    decreases t, 3
  {
    hide At, GetToken, Peek, SkipWhite, ParsePipe, ParseBack, ParseLine, Over, ValidTree;
    OverParts(t);
    if t.TList? {
      var more := [S(';')] + (Print(3, t.right) + rest);
      assert Print(3, t) + rest == Print(2, t.left) + more;
      if Over(t.left) { AmpOver(s, i, t.left, more); } else {
        var c, j := AmpBack(s, i, t.left, more);
        PeekAt(s, j, more, "&");
        PeekAt(s, j, more, ";");
        AtStart(s, j, more);
        AmpStep(s, j, c);
        NextToken(s, j, S(';'), Print(3, t.right) + rest);
        LineOver(s, GetToken(s, j).next, t.right, rest);
      }
    } else {
      assert Print(3, t) == Print(2, t);
      AmpOver(s, i, t, rest);
    }
    LinePanics(s, i);
  }

  /** A command tree comes back exactly when no simple command in it has more than nine words. */
  lemma ArgLimit(t: Tree)
    requires WordTree(t)
    ensures var r := ParseCmd(Render(t));
      if ShortTree(t) then r.Ok? && View(Render(t), r.cmd) == t else r == Panic(TooManyArgs)
  {
    if ShortTree(t) {
      RoundTrip(t);
    } else {
      var s, ts := Render(t), Print(3, t);
      PrintValid(3, t);
      assert ts + [] == ts && s[0..] == s;
      hide Text, Print, WordTree, ShortTree;
      LineOver(s, 0, t, []);
    }
  }

  /** No two trees print alike. */
  lemma PrintInjective(t: Tree, u: Tree)
    requires ValidTree(t) && ValidTree(u) && Render(t) == Render(u)
    ensures t == u
  {
    RoundTrip(t);
    RoundTrip(u);
  }
}
