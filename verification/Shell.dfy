/** The shell's parser, sh.c: tokens, recursive descent with a cursor, and the
    termination of words in the line buffer.  A grammar over token lists is the
    reference the parser is proved against.
 */
module Shell {
  datatype Result<T> = Ok(value: T) | Err(message: string)

  const MAXARGS := 10
  const O_RDONLY := 0x000
  const O_CREATE_WRONLY := 0x201

  // ----- Characters -----

  predicate IsSpace(c: char) {
    c == ' ' || c == '\t' || c == '\r' || c == '\n' || c == '\U{000B}'
  }

  predicate IsSymbol(c: char) {
    c in "<|>&;()"
  }

  predicate IsWord(c: char) {
    !IsSpace(c) && !IsSymbol(c) && c != '\0'
  }

  /** A C string: the characters before the terminator. */
  predicate IsText(s: string) {
    forall k :: 0 <= k < |s| ==> s[k] != '\0'
  }

  /** The character at a position, the terminator included. */
  function At(s: string, i: nat): char {
    if i < |s| then s[i] else '\0'
  }

  // ----- Tokens -----

  /** kind is a symbol, '+' for >> or 'a' for a word; the text is s[q..eq]. */
  datatype Tok = Tok(kind: char, q: nat, eq: nat)

  function Skip(s: string, i: nat): (j: nat)
    requires i <= |s|
    ensures i <= j <= |s| && (j < |s| ==> !IsSpace(s[j])) && forall k :: i <= k < j ==> IsSpace(s[k])
    decreases |s| - i
  {
    if i < |s| && IsSpace(s[i]) then Skip(s, i + 1) else i
  }

  function WordEnd(s: string, i: nat): (j: nat)
    requires i <= |s|
    ensures i <= j <= |s| && (forall k :: i <= k < j ==> !IsSpace(s[k]) && !IsSymbol(s[k]))
    ensures j < |s| ==> IsSpace(s[j]) || IsSymbol(s[j])
    decreases |s| - i
  {
    if i < |s| && !IsSpace(s[i]) && !IsSymbol(s[i]) then WordEnd(s, i + 1) else i
  }

  /** The token that starts at j. */
  function TokenAt(s: string, j: nat): (t: Tok)
    requires j < |s| && !IsSpace(s[j])
    ensures t.q == j < t.eq <= |s|
  {
    if s[j] == '>' then
      if At(s, j + 1) == '>' then Tok('+', j, j + 2) else Tok('>', j, j + 1)
    else if IsSymbol(s[j]) then Tok(s[j], j, j + 1)
    else Tok('a', j, WordEnd(s, j))
  }

  ghost function Lex(s: string, i: nat): seq<Tok>
    requires i <= |s|
    decreases |s| - i
  {
    var j := Skip(s, i);
    if j == |s| then [] else [TokenAt(s, j)] + Lex(s, TokenAt(s, j).eq)
  }

  lemma LexSkip(s: string, i: nat)
    requires i <= |s|
    ensures Lex(s, Skip(s, i)) == Lex(s, i)
    ensures Lex(s, i) == if Skip(s, i) == |s| then [] else [TokenAt(s, Skip(s, i))] + Lex(s, TokenAt(s, Skip(s, i)).eq)
  {
    assert Skip(s, Skip(s, i)) == Skip(s, i);
  }

  method SkipSpace(s: string, i: nat) returns (j: nat)
    requires i <= |s|
    ensures j == Skip(s, i)
  {
    j := i;
    while j < |s| && IsSpace(s[j])
      invariant i <= j <= |s| && Skip(s, j) == Skip(s, i)
    {
      j := j + 1;
    }
  }

  /** The switch in gettoken. */
  method OneToken(s: string, q: nat) returns (kind: char, eq: nat)
    requires IsText(s) && q <= |s| && (q < |s| ==> !IsSpace(s[q]))
    ensures kind == '\0' <==> q == |s|
    ensures if q == |s| then eq == q else Tok(kind, q, eq) == TokenAt(s, q)
  {
    kind := At(s, q);
    eq := q;
    if kind == '\0' {
    } else if kind == '|' || kind == '(' || kind == ')' || kind == ';' || kind == '&' || kind == '<' {
      eq := eq + 1;
    } else if kind == '>' {
      eq := eq + 1;
      if At(s, eq) == '>' {
        kind := '+';
        eq := eq + 1;
      }
    } else {
      kind := 'a';
      while eq < |s| && !IsSpace(s[eq]) && !IsSymbol(s[eq])
        invariant q <= eq <= |s| && WordEnd(s, eq) == WordEnd(s, q)
      {
        eq := eq + 1;
      }
    }
  }

  /** gettoken.  Its kind is NUL at the end of the line. */
  method GetToken(s: string, i: nat) returns (kind: char, q: nat, eq: nat, next: nat)
    requires IsText(s) && i <= |s|
    ensures i <= q <= eq <= next <= |s|
    ensures kind == '\0' <==> Lex(s, i) == []
    ensures kind == '\0' ==> next == |s|
    ensures kind != '\0' ==> Lex(s, i) == [Tok(kind, q, eq)] + Lex(s, next) && next > i
    ensures kind != '\0' ==> q < |s| && !IsSpace(s[q]) && Tok(kind, q, eq) == TokenAt(s, q)
  {
    hide Lex, Skip, TokenAt;
    q := SkipSpace(s, i);
    kind, eq := OneToken(s, q);
    next := SkipSpace(s, eq);
    LexSkip(s, i);
    LexSkip(s, eq);
  }

  /** The first character of a token tells its kind. */
  lemma KindOf(s: string, j: nat)
    requires j < |s| && !IsSpace(s[j])
    ensures s[j] in "<>" <==> TokenAt(s, j).kind in "<>+"
    ensures forall c :: c in "|&;()" ==> (s[j] == c <==> TokenAt(s, j).kind == c)
  {
  }

  /** The next token is of one of these kinds. */
  predicate Next(ts: seq<Tok>, kinds: string) {
    ts != [] && ts[0].kind in kinds
  }

  /** peek. */
  method Peek(s: string, i: nat, toks: string) returns (hit: bool, next: nat)
    requires IsText(s) && i <= |s|
    ensures i <= next <= |s| && Lex(s, next) == Lex(s, i)
    ensures hit <==> next < |s| && s[next] in toks
    ensures Lex(s, i) == [] <==> next == |s|
    ensures next < |s| ==> !IsSpace(s[next]) && Lex(s, i)[0] == TokenAt(s, next)
    ensures toks == "<>" ==> (hit <==> Next(Lex(s, i), "<>+"))
    ensures (forall k :: 0 <= k < |toks| ==> toks[k] in "|&;()") ==> (hit <==> Next(Lex(s, i), toks))
  {
    hide Lex, Skip, TokenAt;
    next := SkipSpace(s, i);
    LexSkip(s, i);
    if next < |s| { KindOf(s, next); }
    hit := At(s, next) != '\0' && At(s, next) in toks;
  }

  // ----- Commands -----

  datatype Span = Span(q: nat, eq: nat)

  datatype Cmd =
    | Exec(argv: seq<Span>)
    | Redir(cmd: Cmd, file: Span, mode: int, fd: int)
    | Pipe(left: Cmd, right: Cmd)
    | List(left: Cmd, right: Cmd)
    | Back(cmd: Cmd)

  predicate RedirKind(c: char) { c == '<' || c == '>' || c == '+' }

  /** redircmd for one redirection. */
  function Redirected(cmd: Cmd, kind: char, file: Span): Cmd {
    if kind == '<' then Redir(cmd, file, O_RDONLY, 0) else Redir(cmd, file, O_CREATE_WRONLY, 1)
  }

  /** argv is filled in after redirections have been wrapped around the command. */
  function AddArg(cmd: Cmd, word: Span): Cmd {
    match cmd
    case Exec(argv) => Exec(argv + [word])
    case Redir(c, file, mode, fd) => Redir(AddArg(c, word), file, mode, fd)
    case _ => cmd
  }

  /** The arguments of a command that is an EXEC inside redirections. */
  function Argv(cmd: Cmd): seq<Span> {
    match cmd
    case Exec(argv) => argv
    case Redir(c, _, _, _) => Argv(c)
    case _ => []
  }

  predicate ExecShape(cmd: Cmd) {
    cmd.Exec? || (cmd.Redir? && ExecShape(cmd.cmd))
  }

  // ----- The grammar, on token lists -----

  /** The last two tokens are a redirection. */
  predicate EndsInRedir(ts: seq<Tok>) {
    |ts| >= 2 && RedirKind(ts[|ts| - 2].kind) && ts[|ts| - 1].kind == 'a'
  }

  function SpanOf(t: Tok): Span { Span(t.q, t.eq) }

  /** ts is words and redirections, in any order. */
  predicate WellSimple(ts: seq<Tok>) {
    || ts == []
    || (if EndsInRedir(ts) then WellSimple(ts[..|ts| - 2]) else ts[|ts| - 1].kind == 'a' && WellSimple(ts[..|ts| - 1]))
  }

  /** The command they make: arguments in order, redirections outside, the last outermost. */
  function SimpleOf(ts: seq<Tok>): Cmd {
    if ts == [] then Exec([])
    else if EndsInRedir(ts) then Redirected(SimpleOf(ts[..|ts| - 2]), ts[|ts| - 2].kind, SpanOf(ts[|ts| - 1]))
    else AddArg(SimpleOf(ts[..|ts| - 1]), SpanOf(ts[|ts| - 1]))
  }

  ghost predicate IsSimple(ts: seq<Tok>, cmd: Cmd) {
    WellSimple(ts) && cmd == SimpleOf(ts)
  }

  /** A line in parentheses, then redirections. */
  ghost predicate IsBlock(ts: seq<Tok>, cmd: Cmd)
    decreases |ts|, 0
  {
    || (EndsInRedir(ts) && cmd.Redir? && IsBlock(ts[..|ts| - 2], cmd.cmd)
        && cmd == Redirected(cmd.cmd, ts[|ts| - 2].kind, SpanOf(ts[|ts| - 1])))
    || (|ts| >= 2 && ts[0].kind == '(' && ts[|ts| - 1].kind == ')' && IsLine(ts[1..|ts| - 1], cmd))
  }

  /** Simple commands or blocks joined by bars. */
  ghost predicate IsPipe(ts: seq<Tok>, cmd: Cmd)
    decreases |ts|, 1
  {
    || IsSimple(ts, cmd) || IsBlock(ts, cmd)
    || (cmd.Pipe? && exists i :: 0 <= i < |ts| && ts[i].kind == '|'
                             && (IsSimple(ts[..i], cmd.left) || IsBlock(ts[..i], cmd.left)) && IsPipe(ts[i + 1..], cmd.right))
  }

  ghost predicate IsBacked(ts: seq<Tok>, cmd: Cmd)
    decreases |ts|, 2
  {
    || IsPipe(ts, cmd)
    || (cmd.Back? && ts != [] && ts[|ts| - 1].kind == '&' && IsBacked(ts[..|ts| - 1], cmd.cmd))
  }

  /** Pipelines, each with its ampersands, joined by semicolons. */
  ghost predicate IsLine(ts: seq<Tok>, cmd: Cmd)
    decreases |ts|, 3
  {
    || IsBacked(ts, cmd)
    || (cmd.List? && exists i :: 0 <= i < |ts| && ts[i].kind == ';' && IsBacked(ts[..i], cmd.left) && IsLine(ts[i + 1..], cmd.right))
  }

  // ----- Where a command's words are -----

  /** Every word of a command, in its order of termination. */
  function Words(cmd: Cmd): seq<Span> {
    match cmd
    case Exec(argv) => argv
    case Redir(c, file, _, _) => Words(c) + [file]
    case Pipe(l, r) => Words(l) + Words(r)
    case List(l, r) => Words(l) + Words(r)
    case Back(c) => Words(c)
  }

  /** A word of the line between lo and hi, ended by a character that is in no word. */
  predicate GoodSpan(s: string, w: Span, lo: nat, hi: nat) {
    && lo <= w.q < w.eq <= hi <= |s|
    && (forall k :: w.q <= k < w.eq ==> IsWord(s[k]))
    && !IsWord(At(s, w.eq))
  }

  ghost predicate GoodWords(s: string, ws: seq<Span>, lo: nat, hi: nat) {
    && (forall a :: 0 <= a < |ws| ==> GoodSpan(s, ws[a], lo, hi))
    && (forall a, b :: 0 <= a < b < |ws| ==> ws[a].eq <= ws[b].q || ws[b].eq <= ws[a].q)
  }

  lemma GoodConcat(s: string, x: seq<Span>, y: seq<Span>, lo: nat, mid: nat, hi: nat)
    requires GoodWords(s, x, lo, mid) && GoodWords(s, y, mid, hi) && lo <= mid <= hi <= |s|
    ensures GoodWords(s, x + y, lo, hi)
  {
  }

  lemma WordToken(s: string, j: nat)
    requires IsText(s) && j < |s| && !IsSpace(s[j]) && TokenAt(s, j).kind == 'a'
    ensures GoodSpan(s, SpanOf(TokenAt(s, j)), j, TokenAt(s, j).eq)
  {
  }

  // ----- The parser on token lists -----

  /** What recursive descent makes of a token list: a command and the tokens left. */
  datatype Parsed = Fail | Got(cmd: Cmd, rest: seq<Tok>)

  function ReadRedirs(c: Cmd, ts: seq<Tok>): (p: Parsed)
    ensures p.Got? ==> |p.rest| <= |ts|
    decreases |ts|
  {
    if !Next(ts, "<>+") then Got(c, ts)
    else if |ts| < 2 || ts[1].kind != 'a' then Fail
    else ReadRedirs(Redirected(c, ts[0].kind, SpanOf(ts[1])), ts[2..])
  }

  function ReadArgs(c: Cmd, argc: nat, ts: seq<Tok>): (p: Parsed)
    ensures p.Got? ==> |p.rest| <= |ts|
    decreases |ts|, 0
  {
    if ts == [] || Next(ts, "|)&;") then Got(c, ts)
    else if ts[0].kind != 'a' || argc + 1 >= MAXARGS then Fail
    else ReadSimple(AddArg(c, SpanOf(ts[0])), argc + 1, ts[1..])
  }

  /** Redirections, then arguments and redirections. */
  function ReadSimple(c: Cmd, argc: nat, ts: seq<Tok>): (p: Parsed)
    ensures p.Got? ==> |p.rest| <= |ts|
    decreases |ts|, 1
  {
    match ReadRedirs(c, ts)
    case Fail => Fail
    case Got(d, rest) => ReadArgs(d, argc, rest)
  }

  function ReadExec(ts: seq<Tok>): (p: Parsed)
    ensures p.Got? ==> |p.rest| <= |ts|
    decreases |ts|, 1
  {
    if Next(ts, "(") then ReadBlock(ts) else ReadSimple(Exec([]), 0, ts)
  }

  function ReadBlock(ts: seq<Tok>): (p: Parsed)
    ensures p.Got? ==> |p.rest| < |ts|
    decreases |ts|, 0
  {
    if !Next(ts, "(") then Fail
    else
      match ReadLine(ts[1..])
      case Fail => Fail
      case Got(c, rest) => if Next(rest, ")") then ReadRedirs(c, rest[1..]) else Fail
  }

  function ReadPipe(ts: seq<Tok>): (p: Parsed)
    ensures p.Got? ==> |p.rest| <= |ts|
    decreases |ts|, 2
  {
    match ReadExec(ts)
    case Fail => Fail
    case Got(l, rest) =>
      if !Next(rest, "|") then Got(l, rest)
      else
        match ReadPipe(rest[1..])
        case Fail => Fail
        case Got(r, rest2) => Got(Pipe(l, r), rest2)
  }

  function ReadAmps(c: Cmd, ts: seq<Tok>): (p: Parsed)
    ensures p.Got? && |p.rest| <= |ts|
    decreases |ts|
  {
    if Next(ts, "&") then ReadAmps(Back(c), ts[1..]) else Got(c, ts)
  }

  /** The list after a command, if a semicolon follows. */
  function ReadRest(l: Cmd, ts: seq<Tok>): (p: Parsed)
    ensures p.Got? ==> |p.rest| <= |ts|
    decreases |ts|, 0
  {
    if !Next(ts, ";") then Got(l, ts)
    else
      match ReadLine(ts[1..])
      case Fail => Fail
      case Got(r, rest) => Got(List(l, r), rest)
  }

  function ReadLine(ts: seq<Tok>): (p: Parsed)
    ensures p.Got? ==> |p.rest| <= |ts|
    decreases |ts|, 3
  {
    match ReadPipe(ts)
    case Fail => Fail
    case Got(c, rest) =>
      var p := ReadAmps(c, rest);
      ReadRest(p.cmd, p.rest)
  }

  // ----- Everything in the grammar is read -----

  /** Words and redirections, from the front. */
  predicate FrontSimple(ts: seq<Tok>)
    decreases |ts|
  {
    || ts == []
    || (ts[0].kind == 'a' && FrontSimple(ts[1..]))
    || (RedirKind(ts[0].kind) && |ts| >= 2 && ts[1].kind == 'a' && FrontSimple(ts[2..]))
  }

  lemma {:induction false} FrontMore(ts: seq<Tok>, more: seq<Tok>)
    requires FrontSimple(ts) && FrontSimple(more)
    ensures FrontSimple(ts + more)
    decreases |ts|
  {
    if ts == [] {
      assert ts + more == more;
    } else if ts[0].kind == 'a' {
      FrontMore(ts[1..], more);
      assert (ts + more)[1..] == ts[1..] + more;
    } else {
      FrontMore(ts[2..], more);
      assert (ts + more)[2..] == ts[2..] + more;
    }
  }

  lemma {:induction false} SimpleFront(ts: seq<Tok>)
    requires WellSimple(ts)
    ensures FrontSimple(ts)
    decreases |ts|
  {
    var n := |ts|;
    if ts == [] {
    } else if EndsInRedir(ts) {
      SimpleFront(ts[..n - 2]);
      assert FrontSimple([]) && ts[n - 2..][2..] == [];
      FrontMore(ts[..n - 2], ts[n - 2..]);
      assert ts == ts[..n - 2] + ts[n - 2..];
    } else {
      SimpleFront(ts[..n - 1]);
      assert ts[n - 1..][1..] == [];
      FrontMore(ts[..n - 1], ts[n - 1..]);
      assert ts == ts[..n - 1] + ts[n - 1..];
    }
  }

  lemma {:induction false} ArgsFitArgv(c: Cmd)
    requires ExecShape(c)
    ensures ArgsFit(c) <==> |Argv(c)| < MAXARGS
    decreases c
  {
    if c.Redir? {
      ArgsFitArgv(c.cmd);
    }
  }

  lemma ReadArg(c: Cmd, argc: nat, w: Tok, rest: seq<Tok>)
    requires w.kind == 'a' && argc + 1 < MAXARGS
    ensures ReadSimple(c, argc, [w] + rest) == ReadSimple(AddArg(c, SpanOf(w)), argc + 1, rest)
  {
    assert ([w] + rest)[1..] == rest;
    assert ReadRedirs(c, [w] + rest) == Got(c, [w] + rest);
  }

  lemma ReadRedir(c: Cmd, argc: nat, t: Tok, w: Tok, rest: seq<Tok>)
    requires RedirKind(t.kind) && w.kind == 'a'
    ensures ReadSimple(c, argc, [t, w] + rest) == ReadSimple(Redirected(c, t.kind, SpanOf(w)), argc, rest)
  {
    RedirsNext(c, t, w, rest);
  }

  lemma ArgOf(p: seq<Tok>, w: Tok)
    requires WellSimple(p) && w.kind == 'a'
    ensures WellSimple(p + [w]) && SimpleOf(p + [w]) == AddArg(SimpleOf(p), SpanOf(w))
    ensures Argv(SimpleOf(p + [w])) == Argv(SimpleOf(p)) + [SpanOf(w)]
  {
    MoreArg(p, SimpleOf(p), w);
    SimpleShape(p);
    AddArgShape(SimpleOf(p), SpanOf(w));
  }

  lemma RedirOf(p: seq<Tok>, t: Tok, w: Tok)
    requires WellSimple(p) && RedirKind(t.kind) && w.kind == 'a'
    ensures WellSimple(p + [t, w]) && SimpleOf(p + [t, w]) == Redirected(SimpleOf(p), t.kind, SpanOf(w))
    ensures Argv(SimpleOf(p + [t, w])) == Argv(SimpleOf(p))
  {
    MoreRedir(p, SimpleOf(p), t, w);
  }

  /** The parser in the middle of a simple command: p is behind it, x before it. */
  lemma {:induction false} SimpleRead(p: seq<Tok>, x: seq<Tok>, rest: seq<Tok>)
    requires WellSimple(p) && FrontSimple(x) && |Argv(SimpleOf(p + x))| < MAXARGS
    ensures ReadSimple(SimpleOf(p), |Argv(SimpleOf(p))|, x + rest) == ReadSimple(SimpleOf(p + x), |Argv(SimpleOf(p + x))|, rest)
    decreases |x|
  {
    hide ReadSimple, SimpleOf, WellSimple, Argv;
    if x == [] {
      assert p + x == p && x + rest == rest;
    } else if x[0].kind == 'a' {
      var p', x' := p + [x[0]], x[1..];
      assert p' + x' == p + x && x + rest == [x[0]] + (x' + rest);
      ArgOf(p, x[0]);
      ArgvGrows(p', x');
      ReadArg(SimpleOf(p), |Argv(SimpleOf(p))|, x[0], x' + rest);
      SimpleRead(p', x', rest);
    } else {
      var p', x' := p + [x[0], x[1]], x[2..];
      assert p' + x' == p + x && x + rest == [x[0], x[1]] + (x' + rest);
      RedirOf(p, x[0], x[1]);
      ReadRedir(SimpleOf(p), |Argv(SimpleOf(p))|, x[0], x[1], x' + rest);
      SimpleRead(p', x', rest);
    }
  }

  lemma {:induction false} ArgvGrows(p: seq<Tok>, x: seq<Tok>)
    requires WellSimple(p) && FrontSimple(x)
    ensures |Argv(SimpleOf(p))| <= |Argv(SimpleOf(p + x))|
    decreases |x|
  {
    hide SimpleOf, WellSimple, Argv;
    if x == [] {
      assert p + x == p;
    } else if x[0].kind == 'a' {
      ArgOf(p, x[0]);
      assert p + [x[0]] + x[1..] == p + x;
      ArgvGrows(p + [x[0]], x[1..]);
    } else {
      RedirOf(p, x[0], x[1]);
      assert p + [x[0], x[1]] + x[2..] == p + x;
      ArgvGrows(p + [x[0], x[1]], x[2..]);
    }
  }

  predicate Ends(ts: seq<Tok>, kinds: string) {
    ts == [] || ts[0].kind in kinds
  }

  lemma NoOpen(ts: seq<Tok>, rest: seq<Tok>)
    requires FrontSimple(ts) && Ends(rest, "|)&;")
    ensures !Next(ts + rest, "(")
  {
  }

  lemma SimpleComplete(ts: seq<Tok>, cmd: Cmd, rest: seq<Tok>)
    requires IsSimple(ts, cmd) && ArgsFit(cmd) && Ends(rest, "|)&;")
    ensures ReadExec(ts + rest) == Got(cmd, rest)
  {
    hide ReadSimple, ReadRedirs, ReadArgs, ReadBlock, FrontSimple;
    SimpleFront(ts);
    SimpleShape(ts);
    ArgsFitArgv(cmd);
    assert [] + ts == ts && SimpleOf([]) == Exec([]);
    SimpleRead([], ts, rest);
    SimpleIs(cmd, |Argv(cmd)|, rest);
    RedirsDone(cmd, rest);
    ArgsDone(cmd, |Argv(cmd)|, rest);
    NoOpen(ts, rest);
  }

  lemma RedirsNext(c: Cmd, t: Tok, w: Tok, rest: seq<Tok>)
    requires RedirKind(t.kind) && w.kind == 'a'
    ensures ReadRedirs(c, [t, w] + rest) == ReadRedirs(Redirected(c, t.kind, SpanOf(w)), rest)
  {
    assert ([t, w] + rest)[2..] == rest;
  }

  lemma RedirsBad(c: Cmd, t: Tok, rest: seq<Tok>)
    requires RedirKind(t.kind) && (rest == [] || rest[0].kind != 'a')
    ensures ReadRedirs(c, [t] + rest) == Fail
  {
    assert rest != [] ==> ([t] + rest)[1] == rest[0];
  }

  lemma RedirsDone(c: Cmd, ts: seq<Tok>)
    requires !Next(ts, "<>+")
    ensures ReadRedirs(c, ts) == Got(c, ts)
  {
  }

  lemma ArgsNext(c: Cmd, argc: nat, t: Tok, rest: seq<Tok>)
    requires t.kind !in "|)&;"
    ensures ReadArgs(c, argc, [t] + rest) ==
            if t.kind != 'a' || argc + 1 >= MAXARGS then Fail else ReadSimple(AddArg(c, SpanOf(t)), argc + 1, rest)
  {
    assert ([t] + rest)[1..] == rest;
  }

  lemma ArgsDone(c: Cmd, argc: nat, ts: seq<Tok>)
    requires ts == [] || Next(ts, "|)&;")
    ensures ReadArgs(c, argc, ts) == Got(c, ts)
  {
  }

  lemma SimpleIs(c: Cmd, argc: nat, ts: seq<Tok>)
    ensures ReadSimple(c, argc, ts) ==
            if ReadRedirs(c, ts).Fail? then Fail else ReadArgs(ReadRedirs(c, ts).cmd, argc, ReadRedirs(c, ts).rest)
  {
  }

  lemma NoBlock(ts: seq<Tok>)
    requires !Next(ts, "(")
    ensures ReadBlock(ts) == Fail
  {
  }

  lemma BlockReads(t: Tok, rest: seq<Tok>)
    requires t.kind == '('
    ensures ReadBlock([t] + rest) == var p := ReadLine(rest); if p.Fail? then Fail else CloseOf(p.cmd, p.rest)
  {
    assert ([t] + rest)[1..] == rest;
  }

  /** The closing parenthesis and what is after it. */
  function CloseOf(c: Cmd, ts: seq<Tok>): (p: Parsed)
    ensures p.Got? ==> |p.rest| < |ts|
  {
    if Next(ts, ")") then ReadRedirs(c, ts[1..]) else Fail
  }

  lemma CloseReads(c: Cmd, t: Tok, rest: seq<Tok>)
    requires t.kind == ')'
    ensures CloseOf(c, [t] + rest) == ReadRedirs(c, rest)
  {
    assert ([t] + rest)[1..] == rest;
  }

  lemma PipeReads(ts: seq<Tok>)
    ensures ReadPipe(ts) == var p := ReadExec(ts); if p.Fail? then Fail else BarOf(p.cmd, p.rest)
  {
  }

  function BarOf(l: Cmd, ts: seq<Tok>): Parsed {
    if !Next(ts, "|") then Got(l, ts)
    else match ReadPipe(ts[1..]) case Fail => Fail case Got(r, rest) => Got(Pipe(l, r), rest)
  }

  lemma BarReads(l: Cmd, t: Tok, rest: seq<Tok>)
    requires t.kind == '|'
    ensures BarOf(l, [t] + rest) == var p := ReadPipe(rest); if p.Fail? then Fail else Got(Pipe(l, p.cmd), p.rest)
  {
    assert ([t] + rest)[1..] == rest;
  }

  lemma AmpReads(c: Cmd, t: Tok, rest: seq<Tok>)
    requires t.kind == '&'
    ensures ReadAmps(c, [t] + rest) == ReadAmps(Back(c), rest)
  {
    assert ([t] + rest)[1..] == rest;
  }

  lemma AmpsDone(c: Cmd, ts: seq<Tok>)
    requires !Next(ts, "&")
    ensures ReadAmps(c, ts) == Got(c, ts)
  {
  }

  lemma RestDone(c: Cmd, ts: seq<Tok>)
    requires !Next(ts, ";")
    ensures ReadRest(c, ts) == Got(c, ts)
  {
  }

  lemma LineReads(ts: seq<Tok>)
    ensures ReadLine(ts) == if ReadPipe(ts).Fail? then Fail
                            else var p := ReadAmps(ReadPipe(ts).cmd, ReadPipe(ts).rest); ReadRest(p.cmd, p.rest)
  {
  }

  lemma RestReads(l: Cmd, t: Tok, rest: seq<Tok>)
    requires t.kind == ';'
    ensures ReadRest(l, [t] + rest) == var p := ReadLine(rest); if p.Fail? then Fail else Got(List(l, p.cmd), p.rest)
  {
    assert ([t] + rest)[1..] == rest;
  }

  /** A block is read up to its redirections, whatever follows. */
  lemma {:induction false} BlockComplete(ts: seq<Tok>, cmd: Cmd, rest: seq<Tok>)
    requires IsBlock(ts, cmd) && ArgsFit(cmd)
    ensures Next(ts + rest, "(") && ReadBlock(ts + rest) == ReadRedirs(cmd, rest)
    decreases |ts|, 0
  {
    hide IsLine, ReadLine, ReadBlock, ReadRedirs, CloseOf;
    var n := |ts|;
    if n >= 2 && ts[0].kind == '(' && ts[n - 1].kind == ')' && IsLine(ts[1..n - 1], cmd) {
      var after := [ts[n - 1]] + rest;
      LineComplete(ts[1..n - 1], cmd, after);
      assert ts + rest == [ts[0]] + (ts[1..n - 1] + after);
      BlockReads(ts[0], ts[1..n - 1] + after);
      CloseReads(cmd, ts[n - 1], rest);
    } else {
      var t, w := ts[n - 2], ts[n - 1];
      BlockComplete(ts[..n - 2], cmd.cmd, [t, w] + rest);
      assert ts + rest == ts[..n - 2] + ([t, w] + rest);
      RedirsNext(cmd.cmd, t, w, rest);
    }
  }

  lemma {:induction false} ExecComplete(ts: seq<Tok>, cmd: Cmd, rest: seq<Tok>)
    requires (IsSimple(ts, cmd) || IsBlock(ts, cmd)) && ArgsFit(cmd) && Ends(rest, "|)&;")
    ensures ReadExec(ts + rest) == Got(cmd, rest)
    decreases |ts|, 1
  {
    if IsSimple(ts, cmd) {
      SimpleComplete(ts, cmd, rest);
    } else {
      BlockComplete(ts, cmd, rest);
    }
  }

  lemma PipeParts(ts: seq<Tok>, cmd: Cmd) returns (i: nat)
    requires IsPipe(ts, cmd) && !IsSimple(ts, cmd) && !IsBlock(ts, cmd)
    ensures cmd.Pipe? && i < |ts| && ts[i].kind == '|'
    ensures (IsSimple(ts[..i], cmd.left) || IsBlock(ts[..i], cmd.left)) && IsPipe(ts[i + 1..], cmd.right)
  {
    hide IsSimple, IsBlock;
    i :| 0 <= i < |ts| && ts[i].kind == '|' && (IsSimple(ts[..i], cmd.left) || IsBlock(ts[..i], cmd.left)) && IsPipe(ts[i + 1..], cmd.right);
  }

  lemma {:induction false} PipeComplete(ts: seq<Tok>, cmd: Cmd, rest: seq<Tok>)
    requires IsPipe(ts, cmd) && ArgsFit(cmd) && Ends(rest, ")&;")
    ensures ReadPipe(ts + rest) == Got(cmd, rest)
    decreases |ts|, 2
  {
    hide IsSimple, IsBlock, IsPipe, ReadExec, ReadPipe;
    PipeReads(ts + rest);
    if IsSimple(ts, cmd) || IsBlock(ts, cmd) {
      ExecComplete(ts, cmd, rest);
    } else {
      var i := PipeParts(ts, cmd);
      var after := ts[i + 1..] + rest;
      ExecComplete(ts[..i], cmd.left, [ts[i]] + after);
      assert ts + rest == ts[..i] + ([ts[i]] + after);
      BarReads(cmd.left, ts[i], after);
      PipeComplete(ts[i + 1..], cmd.right, rest);
    }
  }

  /** A pipeline and its ampersands are read, whatever follows. */
  lemma {:induction false} BackedComplete(ts: seq<Tok>, cmd: Cmd, rest: seq<Tok>)
    requires IsBacked(ts, cmd) && ArgsFit(cmd) && Ends(rest, ")&;")
    ensures ReadPipe(ts + rest).Got?
    ensures ReadAmps(ReadPipe(ts + rest).cmd, ReadPipe(ts + rest).rest) == ReadAmps(cmd, rest)
    decreases |ts|, 3
  {
    hide IsPipe, ReadPipe, ReadAmps;
    if IsPipe(ts, cmd) {
      PipeComplete(ts, cmd, rest);
    } else {
      var n := |ts| - 1;
      BackedComplete(ts[..n], cmd.cmd, [ts[n]] + rest);
      assert ts + rest == ts[..n] + ([ts[n]] + rest);
      AmpReads(cmd.cmd, ts[n], rest);
    }
  }

  lemma LineParts(ts: seq<Tok>, cmd: Cmd) returns (i: nat)
    requires IsLine(ts, cmd) && !IsBacked(ts, cmd)
    ensures cmd.List? && i < |ts| && ts[i].kind == ';' && IsBacked(ts[..i], cmd.left) && IsLine(ts[i + 1..], cmd.right)
  {
    hide IsBacked;
    i :| 0 <= i < |ts| && ts[i].kind == ';' && IsBacked(ts[..i], cmd.left) && IsLine(ts[i + 1..], cmd.right);
  }

  lemma {:induction false} LineComplete(ts: seq<Tok>, cmd: Cmd, rest: seq<Tok>)
    requires IsLine(ts, cmd) && ArgsFit(cmd) && Ends(rest, ")")
    ensures ReadLine(ts + rest) == Got(cmd, rest)
    decreases |ts|, 4
  {
    hide IsBacked, IsLine, ReadPipe, ReadLine, ReadAmps, ReadRest;
    LineReads(ts + rest);
    if IsBacked(ts, cmd) {
      BackedComplete(ts, cmd, rest);
      AmpsDone(cmd, rest);
      RestDone(cmd, rest);
    } else {
      var i := LineParts(ts, cmd);
      var after := ts[i + 1..] + rest;
      BackedComplete(ts[..i], cmd.left, [ts[i]] + after);
      assert ts + rest == ts[..i] + ([ts[i]] + after);
      AmpsDone(cmd.left, [ts[i]] + after);
      RestReads(cmd.left, ts[i], after);
      LineComplete(ts[i + 1..], cmd.right, rest);
    }
  }

  /** So a line has at most one tree that fits. */
  lemma Unambiguous(ts: seq<Tok>, a: Cmd, b: Cmd)
    requires IsLine(ts, a) && IsLine(ts, b) && ArgsFit(a) && ArgsFit(b)
    ensures a == b
  {
    assert ts + [] == ts;
    LineComplete(ts, a, []);
    LineComplete(ts, b, []);
  }

  // ----- The parser -----

  /** argv has room for its null. */
  predicate ArgsFit(cmd: Cmd) {
    match cmd
    case Exec(argv) => |argv| < MAXARGS
    case Redir(c, _, _, _) => ArgsFit(c)
    case Pipe(l, r) => ArgsFit(l) && ArgsFit(r)
    case List(l, r) => ArgsFit(l) && ArgsFit(r)
    case Back(c) => ArgsFit(c)
  }

  /** What a parse of s from i to j gives: its tokens ts, and words in place. */
  ghost predicate Consumed(s: string, i: nat, j: nat, ts: seq<Tok>, cmd: Cmd) {
    && i <= j <= |s| && Lex(s, i) == ts + Lex(s, j) && GoodWords(s, Words(cmd), i, j) && ArgsFit(cmd)
  }

  /** A method's result is what the same parser on tokens gives. */
  ghost predicate Same(r: Result<Cmd>, s: string, j: nat, p: Parsed)
    requires j <= |s|
  {
    if r.Ok? then p == Got(r.value, Lex(s, j)) else p == Fail
  }

  /** One more redirection. */
  lemma MoreRedir(ts: seq<Tok>, cmd: Cmd, t: Tok, w: Tok)
    requires RedirKind(t.kind) && w.kind == 'a'
    ensures IsBlock(ts, cmd) ==> IsBlock(ts + [t, w], Redirected(cmd, t.kind, SpanOf(w)))
    ensures IsSimple(ts, cmd) ==> IsSimple(ts + [t, w], Redirected(cmd, t.kind, SpanOf(w)))
    ensures Argv(Redirected(cmd, t.kind, SpanOf(w))) == Argv(cmd)
  {
    assert (ts + [t, w])[..|ts|] == ts;
  }

  /** parseredirs. */
  method ParseRedirs(cmd: Cmd, s: string, i: nat, ghost start: nat, ghost ts0: seq<Tok>)
    returns (r: Result<Cmd>, j: nat, ghost ts: seq<Tok>)
    requires IsText(s) && Consumed(s, start, i, ts0, cmd)
    ensures i <= j <= |s|
    ensures r.Ok? ==> Consumed(s, start, j, ts, r.value)
    ensures r.Ok? && IsBlock(ts0, cmd) ==> IsBlock(ts, r.value)
    ensures r.Ok? && IsSimple(ts0, cmd) ==> IsSimple(ts, r.value)
    ensures r.Ok? ==> Argv(r.value) == Argv(cmd)
    ensures r.Ok? && j < |s| ==> !IsSpace(s[j]) && s[j] !in "<>"
    ensures Same(r, s, j, ReadRedirs(cmd, Lex(s, i)))
  {
    hide IsBlock, IsSimple, Lex, Redirected, ReadRedirs;
    var c := cmd;
    ts := ts0;
    var hit;
    hit, j := Peek(s, i, "<>");
    while hit
      invariant i <= j <= |s| && Consumed(s, start, j, ts, c)
      invariant IsBlock(ts0, cmd) ==> IsBlock(ts, c)
      invariant IsSimple(ts0, cmd) ==> IsSimple(ts, c)
      invariant Argv(c) == Argv(cmd)
      invariant ReadRedirs(c, Lex(s, j)) == ReadRedirs(cmd, Lex(s, i)) && (hit <==> Next(Lex(s, j), "<>+"))
      invariant hit <==> j < |s| && s[j] in "<>"
      invariant j < |s| ==> !IsSpace(s[j]) && Lex(s, j) != [] && Lex(s, j)[0] == TokenAt(s, j)
      decreases |s| - j
    {
      var tok, q0, eq0, k := GetToken(s, j);
      var kind, q, eq, next := GetToken(s, k);
      if kind != 'a' {
        RedirsBad(c, Tok(tok, q0, eq0), Lex(s, k));
        return Err("missing file for redirection"), next, ts;
      }
      RedirConsumed(s, start, j, k, next, ts, c, Tok(tok, q0, eq0), Tok(kind, q, eq));
      MoreRedir(ts, c, Tok(tok, q0, eq0), Tok(kind, q, eq));
      assert Lex(s, j) == [Tok(tok, q0, eq0), Tok(kind, q, eq)] + Lex(s, next);
      RedirsNext(c, Tok(tok, q0, eq0), Tok(kind, q, eq), Lex(s, next));
      c := Redirected(c, tok, Span(q, eq));
      ts := ts + [Tok(tok, q0, eq0), Tok(kind, q, eq)];
      hit, j := Peek(s, next, "<>");
      assert Consumed(s, start, j, ts, c);
    }
    RedirsDone(c, Lex(s, j));
    r := Ok(c);
  }

  lemma RedirConsumed(s: string, start: nat, j: nat, k: nat, next: nat, ts: seq<Tok>, c: Cmd, t: Tok, w: Tok)
    requires IsText(s) && Consumed(s, start, j, ts, c) && j <= k <= next <= |s|
    requires Lex(s, j) == [t] + Lex(s, k) && Lex(s, k) == [w] + Lex(s, next)
    requires k <= w.q < |s| && !IsSpace(s[w.q]) && w == TokenAt(s, w.q) && w.kind == 'a' && w.eq <= next
    ensures Consumed(s, start, next, ts + [t, w], Redirected(c, t.kind, SpanOf(w)))
  {
    hide Lex, TokenAt;
    WordToken(s, w.q);
    var file := SpanOf(w);
    assert GoodWords(s, [file], j, next);
    GoodConcat(s, Words(c), [file], start, j, next);
    assert ts + [t, w] + Lex(s, next) == ts + ([t] + ([w] + Lex(s, next)));
  }

  lemma SimpleShape(ts: seq<Tok>)
    requires WellSimple(ts)
    ensures ExecShape(SimpleOf(ts)) && (ts != [] ==> ts[|ts| - 1].kind == 'a')
  {
    if ts == [] {
    } else if EndsInRedir(ts) {
      SimpleShape(ts[..|ts| - 2]);
    } else {
      SimpleShape(ts[..|ts| - 1]);
      AddArgShape(SimpleOf(ts[..|ts| - 1]), SpanOf(ts[|ts| - 1]));
    }
  }

  lemma {:induction false} AddArgShape(c: Cmd, w: Span)
    requires ExecShape(c)
    ensures ExecShape(AddArg(c, w)) && Argv(AddArg(c, w)) == Argv(c) + [w]
    ensures |Argv(c)| + 1 < MAXARGS ==> ArgsFit(AddArg(c, w))
    decreases c
  {
    if c.Redir? {
      AddArgShape(c.cmd, w);
    }
  }

  lemma MoreArg(ts: seq<Tok>, cmd: Cmd, w: Tok)
    requires IsSimple(ts, cmd) && w.kind == 'a'
    ensures IsSimple(ts + [w], AddArg(cmd, SpanOf(w)))
  {
    var all, n := ts + [w], |ts|;
    SimpleShape(ts);
    assert all[..n] == ts && all[n] == w;
    assert n > 0 ==> all[n - 1] == ts[n - 1];
    assert !EndsInRedir(all);
  }

  /** A new argument comes before the files of the redirections around it. */
  lemma {:induction false} AddArgWords(c: Cmd, w: Span) returns (x: seq<Span>, y: seq<Span>)
    requires ExecShape(c)
    ensures Words(c) == x + y && Words(AddArg(c, w)) == x + [w] + y
    decreases c
  {
    if c.Exec? {
      x, y := c.argv, [];
    } else {
      x, y := AddArgWords(c.cmd, w);
      assert Words(c) == x + (y + [c.file]) && Words(AddArg(c, w)) == x + [w] + (y + [c.file]);
      y := y + [c.file];
    }
  }

  lemma GoodInsert(s: string, x: seq<Span>, y: seq<Span>, w: Span, lo: nat, mid: nat, hi: nat)
    requires GoodWords(s, x + y, lo, mid) && GoodSpan(s, w, mid, hi) && lo <= mid <= hi <= |s|
    ensures GoodWords(s, x + [w] + y, lo, hi)
  {
    var all, was := x + [w] + y, x + y;
    forall a | 0 <= a < |all| ensures GoodSpan(s, all[a], lo, hi) {
      if a != |x| {
        assert all[a] == was[if a < |x| then a else a - 1];
      }
    }
    forall a, b | 0 <= a < b < |all| ensures all[a].eq <= all[b].q || all[b].eq <= all[a].q {
      assert a != |x| ==> all[a] == was[if a < |x| then a else a - 1];
      assert b != |x| ==> all[b] == was[if b < |x| then b else b - 1];
    }
  }

  lemma ArgConsumed(s: string, start: nat, j: nat, next: nat, ts: seq<Tok>, c: Cmd, w: Tok)
    requires IsText(s) && Consumed(s, start, j, ts, c) && ExecShape(c) && |Argv(c)| + 1 < MAXARGS && j <= next <= |s|
    requires Lex(s, j) == [w] + Lex(s, next) && j <= w.q < |s| && !IsSpace(s[w.q]) && w == TokenAt(s, w.q)
    requires w.kind == 'a' && w.eq <= next
    ensures Consumed(s, start, next, ts + [w], AddArg(c, SpanOf(w)))
  {
    hide Lex, TokenAt, GoodWords, GoodSpan;
    WordToken(s, w.q);
    var x, y := AddArgWords(c, SpanOf(w));
    Narrow(s, SpanOf(w), w.q, w.eq, j, next);
    GoodInsert(s, x, y, SpanOf(w), start, j, next);
    AddArgShape(c, SpanOf(w));
    assert ts + [w] + Lex(s, next) == ts + ([w] + Lex(s, next));
  }

  lemma Narrow(s: string, w: Span, lo: nat, hi: nat, lo': nat, hi': nat)
    requires GoodSpan(s, w, lo, hi) && lo' <= lo && hi <= hi' <= |s|
    ensures GoodSpan(s, w, lo', hi')
  {
  }

  lemma Wider(s: string, i: nat, j: nat, k: nat, ts: seq<Tok>, cmd: Cmd)
    requires Consumed(s, i, j, ts, cmd) && j <= k <= |s| && Lex(s, k) == Lex(s, j)
    ensures Consumed(s, i, k, ts, cmd)
  {
  }

  // Cutting and joining stretches of the line.

  lemma Head(s: string, i: nat, k: nat, j: nat, ts: seq<Tok>, cmd: Cmd, t: Tok)
    requires Consumed(s, k, j, ts, cmd) && i <= k && Lex(s, i) == [t] + Lex(s, k)
    ensures Consumed(s, i, j, [t] + ts, cmd)
  {
    assert [t] + ts + Lex(s, j) == [t] + (ts + Lex(s, j));
  }

  lemma Tail(s: string, i: nat, m: nat, k: nat, ts: seq<Tok>, cmd: Cmd, t: Tok)
    requires Consumed(s, i, m, ts, cmd) && m <= k <= |s| && Lex(s, m) == [t] + Lex(s, k)
    ensures Consumed(s, i, k, ts + [t], cmd)
  {
    assert ts + [t] + Lex(s, k) == ts + ([t] + Lex(s, k));
  }

  lemma Earlier(s: string, i: nat, k: nat, j: nat, ts: seq<Tok>, cmd: Cmd)
    requires Consumed(s, k, j, ts, cmd) && i <= k && Lex(s, i) == Lex(s, k)
    ensures Consumed(s, i, j, ts, cmd)
  {
  }

  lemma Join(s: string, i: nat, m: nat, j: nat, tl: seq<Tok>, tr: seq<Tok>, l: Cmd, r: Cmd)
    requires Consumed(s, i, m, tl, l) && Consumed(s, m, j, tr, r)
    ensures Consumed(s, i, j, tl + tr, Pipe(l, r)) && Consumed(s, i, j, tl + tr, List(l, r))
  {
    GoodConcat(s, Words(l), Words(r), i, m, j);
    assert tl + tr + Lex(s, j) == tl + (tr + Lex(s, j));
  }

  lemma BlockIs(ts: seq<Tok>, cmd: Cmd, open: Tok, close: Tok)
    requires IsLine(ts, cmd) && open.kind == '(' && close.kind == ')'
    ensures IsBlock([open] + ts + [close], cmd)
  {
    var all := [open] + ts + [close];
    assert all[1..|all| - 1] == ts;
  }

  lemma PipeIs(tl: seq<Tok>, l: Cmd, bar: Tok, tr: seq<Tok>, r: Cmd)
    requires (IsSimple(tl, l) || IsBlock(tl, l)) && bar.kind == '|' && IsPipe(tr, r)
    ensures IsPipe(tl + [bar] + tr, Pipe(l, r))
  {
    var all := tl + [bar] + tr;
    assert all[..|tl|] == tl && all[|tl| + 1..] == tr && all[|tl|].kind == '|';
  }

  lemma BackIs(ts: seq<Tok>, cmd: Cmd, amp: Tok)
    requires IsBacked(ts, cmd) && amp.kind == '&'
    ensures IsBacked(ts + [amp], Back(cmd))
  {
    assert (ts + [amp])[..|ts|] == ts;
  }

  lemma ListIs(tl: seq<Tok>, l: Cmd, semi: Tok, tr: seq<Tok>, r: Cmd)
    requires IsBacked(tl, l) && semi.kind == ';' && IsLine(tr, r)
    ensures IsLine(tl + [semi] + tr, List(l, r))
  {
    var all := tl + [semi] + tr;
    assert all[..|tl|] == tl && all[|tl| + 1..] == tr && all[|tl|].kind == ';';
  }

  lemma NoArgs(s: string, i: nat, j: nat)
    requires i <= j <= |s| && Lex(s, i) == Lex(s, j)
    ensures Consumed(s, i, j, [], Exec([])) && IsSimple([], Exec([]))
  {
  }

  /** The loop of parseexec over arguments and redirections. */
  method ParseArgs(s: string, i: nat) returns (r: Result<Cmd>, j: nat, ghost ts: seq<Tok>)
    requires IsText(s) && i <= |s|
    ensures i <= j <= |s|
    ensures r.Ok? ==> Consumed(s, i, j, ts, r.value) && IsSimple(ts, r.value)
    ensures Same(r, s, j, ReadSimple(Exec([]), 0, Lex(s, i)))
  {
    hide Lex, TokenAt, AddArg, Consumed, IsSimple, Words, ReadSimple, ReadArgs, ReadRedirs;
    SimpleIs(Exec([]), 0, Lex(s, i));
    NoArgs(s, i, i);
    var argc := 0;
    r, j, ts := ParseRedirs(Exec([]), s, i, i, []);
    if r.Err? {
      return;
    }
    var hit;
    ghost var was := j;
    hit, j := Peek(s, j, "|)&;");
    Wider(s, i, was, j, ts, r.value);
    while !hit
      invariant i <= j <= |s| && r.Ok? && Consumed(s, i, j, ts, r.value) && IsSimple(ts, r.value)
      invariant argc == |Argv(r.value)| < MAXARGS
      invariant ReadArgs(r.value, argc, Lex(s, j)) == ReadSimple(Exec([]), 0, Lex(s, i)) && (hit <==> Next(Lex(s, j), "|)&;"))
      decreases |s| - j
    {
      var tok, q, eq, next := GetToken(s, j);
      if tok == '\0' {
        break;
      }
      ArgsNext(r.value, argc, Tok(tok, q, eq), Lex(s, next));
      if tok != 'a' {
        return Err("syntax"), next, ts;
      }
      argc := argc + 1;
      if argc >= MAXARGS {
        return Err("too many args"), next, ts;
      }
      var c := AddArg(r.value, Span(q, eq));
      IsExecShape(ts, r.value);
      ArgConsumed(s, i, j, next, ts, r.value, Tok(tok, q, eq));
      AddArgShape(r.value, Span(q, eq));
      MoreArg(ts, r.value, Tok(tok, q, eq));
      SimpleIs(c, argc, Lex(s, next));
      r, j, ts := ParseRedirs(c, s, next, i, ts + [Tok(tok, q, eq)]);
      if r.Err? {
        return;
      }
      was := j;
      hit, j := Peek(s, j, "|)&;");
      Wider(s, i, was, j, ts, r.value);
    }
    ArgsDone(r.value, argc, Lex(s, j));
  }

  lemma IsExecShape(ts: seq<Tok>, cmd: Cmd)
    requires IsSimple(ts, cmd)
    ensures ExecShape(cmd)
  {
    SimpleShape(ts);
  }

  /** parseexec. */
  method ParseExec(s: string, i: nat) returns (r: Result<Cmd>, j: nat, ghost ts: seq<Tok>)
    requires IsText(s) && i <= |s|
    ensures i <= j <= |s|
    ensures r.Ok? ==> Consumed(s, i, j, ts, r.value) && (IsSimple(ts, r.value) || IsBlock(ts, r.value))
    ensures Same(r, s, j, ReadExec(Lex(s, i)))
    decreases |s| - i, 1
  {
    hide Lex, TokenAt, Consumed, IsSimple, IsBlock, ReadBlock, ReadSimple;
    var hit, k := Peek(s, i, "(");
    if hit {
      r, j, ts := ParseBlock(s, k);
    } else {
      r, j, ts := ParseArgs(s, k);
    }
    if r.Ok? {
      Earlier(s, i, k, j, ts, r.value);
    }
  }

  /** parseblock. */
  method ParseBlock(s: string, i: nat) returns (r: Result<Cmd>, j: nat, ghost ts: seq<Tok>)
    requires IsText(s) && i <= |s|
    ensures i <= j <= |s|
    ensures r.Ok? ==> Consumed(s, i, j, ts, r.value) && IsBlock(ts, r.value)
    ensures Same(r, s, j, ReadBlock(Lex(s, i)))
    decreases |s| - i, 0
  {
    hide Lex, Consumed, IsSimple, IsBlock, IsLine, ReadBlock, ReadLine, ReadRedirs;
    ts := [];
    var hit, p := Peek(s, i, "(");
    if !hit {
      NoBlock(Lex(s, i));
      return Err("parseblock"), p, ts;
    }
    var open, q0, eq0, k := GetToken(s, p);
    BlockReads(Tok(open, q0, eq0), Lex(s, k));
    r, j, ts := ParseLine(s, k);
    if r.Err? {
      return;
    }
    ghost var was := j;
    hit, j := Peek(s, j, ")");
    if !hit {
      return Err("syntax - missing )"), j, ts;
    }
    Wider(s, k, was, j, ts, r.value);
    var close, q1, eq1, next := GetToken(s, j);
    CloseReads(r.value, Tok(close, q1, eq1), Lex(s, next));
    BlockIs(ts, r.value, Tok(open, q0, eq0), Tok(close, q1, eq1));
    Head(s, i, k, j, ts, r.value, Tok(open, q0, eq0));
    Tail(s, i, j, next, [Tok(open, q0, eq0)] + ts, r.value, Tok(close, q1, eq1));
    r, j, ts := ParseRedirs(r.value, s, next, i, [Tok(open, q0, eq0)] + ts + [Tok(close, q1, eq1)]);
  }

  /** parsepipe. */
  method ParsePipe(s: string, i: nat) returns (r: Result<Cmd>, j: nat, ghost ts: seq<Tok>)
    requires IsText(s) && i <= |s|
    ensures i <= j <= |s|
    ensures r.Ok? ==> Consumed(s, i, j, ts, r.value) && IsPipe(ts, r.value)
    ensures Same(r, s, j, ReadPipe(Lex(s, i)))
    decreases |s| - i, 2
  {
    hide Lex, Consumed, IsSimple, IsBlock, ReadPipe, ReadExec;
    PipeReads(Lex(s, i));
    r, j, ts := ParseExec(s, i);
    if r.Err? {
      return;
    }
    ghost var was := j;
    var hit;
    hit, j := Peek(s, j, "|");
    Wider(s, i, was, j, ts, r.value);
    if hit {
      var bar, q, eq, k := GetToken(s, j);
      ghost var t := Tok(bar, q, eq);
      BarReads(r.value, t, Lex(s, k));
      Tail(s, i, j, k, ts, r.value, t);
      var right, next;
      ghost var tr;
      right, next, tr := ParsePipe(s, k);
      if right.Err? {
        return right, next, ts;
      }
      Join(s, i, k, next, ts + [t], tr, r.value, right.value);
      PipeIs(ts, r.value, t, tr, right.value);
      r, j, ts := Ok(Pipe(r.value, right.value)), next, ts + [t] + tr;
    }
  }

  /** parseline. */
  method ParseLine(s: string, i: nat) returns (r: Result<Cmd>, j: nat, ghost ts: seq<Tok>)
    requires IsText(s) && i <= |s|
    ensures i <= j <= |s|
    ensures r.Ok? ==> Consumed(s, i, j, ts, r.value) && IsLine(ts, r.value)
    ensures Same(r, s, j, ReadLine(Lex(s, i)))
    decreases |s| - i, 3
  {
    hide Lex, Consumed, IsPipe, ReadPipe, ReadAmps;
    r, j, ts := ParsePipe(s, i);
    if r.Err? {
      return;
    }
    ghost var was := j;
    var hit;
    hit, j := Peek(s, j, "&");
    Wider(s, i, was, j, ts, r.value);
    while hit
      invariant i <= j <= |s| && r.Ok? && Consumed(s, i, j, ts, r.value) && IsBacked(ts, r.value)
      invariant hit ==> j < |s| && s[j] == '&' && Lex(s, j) != [] && Lex(s, j)[0] == TokenAt(s, j)
      invariant ReadPipe(Lex(s, i)).Got? && (hit <==> Next(Lex(s, j), "&"))
      invariant ReadAmps(r.value, Lex(s, j)) == ReadAmps(ReadPipe(Lex(s, i)).cmd, ReadPipe(Lex(s, i)).rest)
      decreases |s| - j
    {
      var amp, q, eq, k := GetToken(s, j);
      Tail(s, i, j, k, ts, r.value, Tok(amp, q, eq));
      BackIs(ts, r.value, Tok(amp, q, eq));
      AmpReads(r.value, Tok(amp, q, eq), Lex(s, k));
      BackConsumed(s, i, k, ts + [Tok(amp, q, eq)], r.value);
      r, ts := Ok(Back(r.value)), ts + [Tok(amp, q, eq)];
      hit, j := Peek(s, k, "&");
      Wider(s, i, k, j, ts, r.value);
    }
    AmpsDone(r.value, Lex(s, j));
    was := j;
    hit, j := Peek(s, j, ";");
    Wider(s, i, was, j, ts, r.value);
    if hit {
      var semi, q, eq, k := GetToken(s, j);
      ghost var t := Tok(semi, q, eq);
      RestReads(r.value, t, Lex(s, k));
      Tail(s, i, j, k, ts, r.value, t);
      var right, next;
      ghost var tr;
      right, next, tr := ParseLine(s, k);
      if right.Err? {
        return right, next, ts;
      }
      Join(s, i, k, next, ts + [t], tr, r.value, right.value);
      ListIs(ts, r.value, t, tr, right.value);
      r, j, ts := Ok(List(r.value, right.value)), next, ts + [t] + tr;
    }
  }

  lemma BackConsumed(s: string, i: nat, j: nat, ts: seq<Tok>, cmd: Cmd)
    requires Consumed(s, i, j, ts, cmd)
    ensures Consumed(s, i, j, ts, Back(cmd))
  {
  }

  // ----- Terminating the words -----

  ghost predicate Ended(ws: seq<Span>, k: nat) {
    exists a :: 0 <= a < |ws| && ws[a].eq == k
  }

  /** b is a with a NUL at the end of every word. */
  ghost predicate Cut(a: seq<char>, b: seq<char>, ws: seq<Span>) {
    |b| == |a| && forall k :: 0 <= k < |b| ==> b[k] == if Ended(ws, k) then '\0' else a[k]
  }

  lemma CutTwice(a: seq<char>, b: seq<char>, c: seq<char>, x: seq<Span>, y: seq<Span>)
    requires Cut(a, b, x) && Cut(b, c, y)
    ensures Cut(a, c, x + y)
  {
    var all := x + y;
    forall k | 0 <= k < |a| ensures Ended(all, k) <==> Ended(x, k) || Ended(y, k) {
      if Ended(x, k) {
        var i :| 0 <= i < |x| && x[i].eq == k;
        assert all[i].eq == k;
      }
      if Ended(y, k) {
        var i :| 0 <= i < |y| && y[i].eq == k;
        assert all[|x| + i].eq == k;
      }
    }
  }

  lemma CutOne(a: seq<char>, b: seq<char>, w: Span)
    requires w.eq < |a| && b == a[w.eq := '\0']
    ensures Cut(a, b, [w])
  {
    assert [w][0].eq == w.eq;
  }

  /** nulterminate. */
  method NulTerminate(buf: array<char>, cmd: Cmd)
    requires forall a :: 0 <= a < |Words(cmd)| ==> Words(cmd)[a].eq < buf.Length
    modifies buf
    ensures Cut(old(buf[..]), buf[..], Words(cmd))
    decreases cmd
  {
    match cmd
    case Exec(argv) =>
      var i := 0;
      assert Words(cmd) == argv && argv[..0] == [];
      while i < |argv|
        invariant 0 <= i <= |argv|
        invariant Cut(old(buf[..]), buf[..], argv[..i])
      {
        ghost var was := buf[..];
        buf[argv[i].eq] := '\0';
        CutOne(was, buf[..], argv[i]);
        CutTwice(old(buf[..]), was, buf[..], argv[..i], [argv[i]]);
        assert argv[..i] + [argv[i]] == argv[..i + 1];
        i := i + 1;
      }
      assert argv[..|argv|] == argv;
    case Redir(c, file, _, _) =>
      assert Words(cmd) == Words(c) + [file];
      assert forall a :: 0 <= a < |Words(c)| ==> Words(cmd)[a] == Words(c)[a];
      assert Words(cmd)[|Words(c)|] == file;
      NulTerminate(buf, c);
      ghost var was := buf[..];
      buf[file.eq] := '\0';
      CutOne(was, buf[..], file);
      CutTwice(old(buf[..]), was, buf[..], Words(c), [file]);
    case Pipe(l, r) =>
      TerminateBoth(buf, l, r, cmd);
    case List(l, r) =>
      TerminateBoth(buf, l, r, cmd);
    case Back(c) =>
      assert Words(cmd) == Words(c);
      NulTerminate(buf, c);
  }

  /** The same for the two sides of a pipe or list. */
  method TerminateBoth(buf: array<char>, l: Cmd, r: Cmd, ghost cmd: Cmd)
    requires Words(cmd) == Words(l) + Words(r) && l < cmd && r < cmd
    requires forall a :: 0 <= a < |Words(cmd)| ==> Words(cmd)[a].eq < buf.Length
    modifies buf
    ensures Cut(old(buf[..]), buf[..], Words(cmd))
    decreases cmd, 0
  {
    assert forall a :: 0 <= a < |Words(l)| ==> Words(cmd)[a] == Words(l)[a];
    assert forall a :: 0 <= a < |Words(r)| ==> Words(cmd)[|Words(l)| + a] == Words(r)[a];
    NulTerminate(buf, l);
    ghost var was := buf[..];
    NulTerminate(buf, r);
    CutTwice(old(buf[..]), was, buf[..], Words(l), Words(r));
  }

  /** What a C program reads from position q. */
  ghost function CString(b: seq<char>, q: nat): string
    decreases |b| - q
  {
    if q < |b| && b[q] != '\0' then [b[q]] + CString(b, q + 1) else []
  }

  lemma {:induction false} ReadsAs(b: seq<char>, q: nat, eq: nat)
    requires q <= eq < |b| && b[eq] == '\0' && forall k :: q <= k < eq ==> b[k] != '\0'
    ensures CString(b, q) == b[q..eq]
    decreases eq - q
  {
    if q < eq {
      ReadsAs(b, q + 1, eq);
      assert b[q..eq] == [b[q]] + b[q + 1..eq];
    }
  }

  /** No terminator lands inside a word: each reads back as it was. */
  lemma WordsReadBack(s: string, a: seq<char>, b: seq<char>, ws: seq<Span>, i: nat)
    requires |s| < |a| && a[..|s|] == s && GoodWords(s, ws, 0, |s|) && Cut(a, b, ws) && i < |ws|
    ensures CString(b, ws[i].q) == s[ws[i].q..ws[i].eq]
  {
    var w := ws[i];
    assert GoodSpan(s, w, 0, |s|);
    assert Ended(ws, w.eq);
    assert forall j :: 0 <= j < |ws| ==> GoodSpan(s, ws[j], 0, |s|) && !IsWord(At(s, ws[j].eq));
    forall k | w.q <= k < w.eq ensures b[k] == s[k] && b[k] != '\0' {
      assert IsWord(s[k]) && a[k] == a[..|s|][k];
      assert !Ended(ws, k);
    }
    ReadsAs(b, w.q, w.eq);
    assert b[w.q..w.eq] == s[w.q..w.eq];
  }

  method Strlen(buf: array<char>) returns (n: nat)
    requires exists k :: 0 <= k < buf.Length && buf[k] == '\0'
    ensures n < buf.Length && buf[n] == '\0' && IsText(buf[..n])
  {
    n := 0;
    while buf[n] != '\0'
      invariant n < buf.Length && IsText(buf[..n])
      invariant exists k :: n <= k < buf.Length && buf[k] == '\0'
      decreases buf.Length - n
    {
      n := n + 1;
    }
  }

  /** parsecmd: on success the tree is a parse of the whole line, its words are
      disjoint pieces of the line, and each reads back, terminated, as it was.
      Otherwise the line is untouched, and no tree for it fits MAXARGS. */
  method ParseCmd(buf: array<char>) returns (r: Result<Cmd>, ghost s: string)
    requires exists k :: 0 <= k < buf.Length && buf[k] == '\0'
    modifies buf
    ensures IsText(s) && |s| < buf.Length && old(buf[..|s|]) == s && old(buf[|s|]) == '\0'
    ensures r.Ok? ==> IsLine(Lex(s, 0), r.value) && ArgsFit(r.value) && GoodWords(s, Words(r.value), 0, |s|)
    ensures r.Ok? ==> Cut(old(buf[..]), buf[..], Words(r.value))
    ensures r.Ok? ==> forall i :: 0 <= i < |Words(r.value)| ==>
                        var w := Words(r.value)[i]; w.eq <= |s| && CString(buf[..], w.q) == s[w.q..w.eq]
    ensures r.Err? ==> buf[..] == old(buf[..])
    ensures forall cmd :: IsLine(Lex(s, 0), cmd) && ArgsFit(cmd) ==> r == Ok(cmd)
  {
    hide Lex, IsLine, CString, Cut, ReadLine;
    var n := Strlen(buf);
    s := buf[..n];
    var j;
    ghost var ts;
    r, j, ts := ParseLine(buf[..n], 0);
    forall cmd | IsLine(Lex(s, 0), cmd) && ArgsFit(cmd) ensures ReadLine(Lex(s, 0)) == Got(cmd, []) {
      assert Lex(s, 0) + [] == Lex(s, 0);
      LineComplete(Lex(s, 0), cmd, []);
    }
    if r.Err? {
      return;
    }
    var hit;
    hit, j := Peek(buf[..n], j, "");
    if j != n {
      return Err("syntax"), s;
    }
    assert ts + [] == ts;
    ghost var words := Words(r.value);
    assert forall i :: 0 <= i < |words| ==> GoodSpan(s, words[i], 0, n);
    ghost var was := buf[..];
    NulTerminate(buf, r.value);
    forall i | 0 <= i < |words| ensures words[i].eq <= |s| && CString(buf[..], words[i].q) == s[words[i].q..words[i].eq] {
      WordsReadBack(s, was, buf[..], words, i);
    }
  }
}
