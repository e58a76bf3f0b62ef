/** What the parser's trees say about the line: the tokens of a line by their
    text, and each node of a tree by the tokens it was made from.
 */
module ShellTree {
  import opened Shell

  // ----- The tokens of a line -----

  /** A token is its text: a symbol, ">>", or a longest stretch of other
      characters that are not blank. */
  predicate HasText(s: string, t: Tok) {
    && t.q < t.eq <= |s|
    && if t.kind == 'a' then
         && (forall p :: t.q <= p < t.eq ==> s[p] !in " \t\r\n\U{000B}<|>&;()")
         && (t.eq < |s| ==> s[t.eq] in " \t\r\n\U{000B}<|>&;()")
       else if t.kind == '+' then s[t.q..t.eq] == ">>"
       else if t.kind == '>' then s[t.q..t.eq] == ">" && (t.eq < |s| ==> s[t.eq] != '>')
       else t.kind in "<|&;()" && s[t.q..t.eq] == [t.kind]
  }

  predicate Ordered(ts: seq<Tok>) {
    && (forall a :: 0 <= a < |ts| ==> ts[a].q < ts[a].eq)
    && (forall a, b :: 0 <= a < b < |ts| ==> ts[a].eq <= ts[b].q)
  }

  /** Nothing but blanks is outside the tokens. */
  ghost predicate Covers(s: string, i: nat, ts: seq<Tok>) {
    forall p :: i <= p < |s| && s[p] !in " \t\r\n\U{000B}" ==> InSome(ts, p)
  }

  ghost predicate InSome(ts: seq<Tok>, p: nat) {
    exists k :: 0 <= k < |ts| && ts[k].q <= p < ts[k].eq
  }

  lemma TokenText(s: string, j: nat)
    requires IsText(s) && j < |s| && !IsSpace(s[j])
    ensures HasText(s, TokenAt(s, j))
  {
  }

  /** The tokens of a line have their texts, are in order, and leave out only blanks. */
  lemma {:induction false} LexIs(s: string, i: nat)
    requires IsText(s) && i <= |s|
    ensures forall k :: 0 <= k < |Lex(s, i)| ==> i <= Lex(s, i)[k].q && HasText(s, Lex(s, i)[k])
    ensures Ordered(Lex(s, i)) && Covers(s, i, Lex(s, i))
    decreases |s| - i
  {
    hide TokenAt, HasText;
    var j := Skip(s, i);
    if j < |s| {
      var t := TokenAt(s, j);
      var rest := Lex(s, t.eq);
      TokenText(s, j);
      LexIs(s, t.eq);
      assert Lex(s, i) == [t] + rest;
      CoversMore(s, i, t, rest);
    }
  }

  lemma CoversMore(s: string, i: nat, t: Tok, rest: seq<Tok>)
    requires i <= t.q <= t.eq <= |s| && Covers(s, t.eq, rest) && forall p :: i <= p < t.q ==> IsSpace(s[p])
    ensures Covers(s, i, [t] + rest)
  {
    var ts := [t] + rest;
    forall p | i <= p < |s| && s[p] !in " \t\r\n\U{000B}" ensures InSome(ts, p) {
      if p < t.eq {
        assert ts[0] == t;
      } else {
        var k :| 0 <= k < |rest| && rest[k].q <= p < rest[k].eq;
        assert ts[k + 1] == rest[k];
      }
    }
  }

  // ----- The nodes of a tree -----

  /** Each word of the token list, once. */
  ghost function WordsOf(ts: seq<Tok>): multiset<Span> {
    if ts == [] then multiset{}
    else WordsOf(ts[..|ts| - 1]) + WordOf(ts[|ts| - 1])
  }

  ghost function WordOf(t: Tok): multiset<Span> {
    if t.kind == 'a' then multiset{Span(t.q, t.eq)} else multiset{}
  }

  /** An argument is a word that no redirection stands before. */
  ghost predicate ArgAt(ts: seq<Tok>, w: Span) {
    exists j :: 0 <= j < |ts| && ts[j] == Tok('a', w.q, w.eq) && (j > 0 ==> ts[j - 1].kind !in "<>+")
  }

  /** The file of a redirection is the word after its symbol: '<' opens it to
      read as 0, '>' and '>>' to write and create as 1. */
  ghost predicate FileAt(ts: seq<Tok>, w: Span, mode: int, fd: int) {
    exists j :: 0 < j < |ts| && ts[j] == Tok('a', w.q, w.eq)
      && ((ts[j - 1].kind == '<' && mode == 0 && fd == 0) || (ts[j - 1].kind in ">+" && mode == 0x201 && fd == 1))
  }

  /** The symbol stands between the words of the one and those of the other. */
  ghost predicate Between(ts: seq<Tok>, kind: char, l: seq<Span>, r: seq<Span>) {
    exists j :: 0 <= j < |ts| && ts[j].kind == kind && Before(l, ts[j].q) && After(r, ts[j].eq)
  }

  ghost predicate Before(ws: seq<Span>, q: nat) { forall k :: 0 <= k < |ws| ==> ws[k].eq <= q }

  ghost predicate After(ws: seq<Span>, q: nat) { forall k :: 0 <= k < |ws| ==> q <= ws[k].q }

  /** Every node of the tree is what its tokens say. */
  ghost predicate Tells(ts: seq<Tok>, cmd: Cmd) {
    match cmd
    case Exec(argv) =>
      && (forall k :: 0 <= k < |argv| ==> ArgAt(ts, argv[k]))
      && (forall k, l :: 0 <= k < l < |argv| ==> argv[k].eq <= argv[l].q)
    case Redir(c, file, mode, fd) => FileAt(ts, file, mode, fd) && Tells(ts, c)
    case Pipe(l, r) => Between(ts, '|', Words(l), Words(r)) && Tells(ts, l) && Tells(ts, r)
    case List(l, r) => Between(ts, ';', Words(l), Words(r)) && Tells(ts, l) && Tells(ts, r)
    case Back(c) => Between(ts, '&', Words(c), []) && Tells(ts, c)
  }

  // ----- From parts to the whole -----

  /** ts[a..b] does not start behind a redirection symbol. */
  predicate Part(ts: seq<Tok>, a: nat, b: nat) {
    a <= b <= |ts| && (a > 0 ==> ts[a - 1].kind !in "<>+")
  }

  lemma ArgWider(ts: seq<Tok>, a: nat, b: nat, w: Span)
    requires Part(ts, a, b) && ArgAt(ts[a..b], w)
    ensures ArgAt(ts, w)
  {
    var p := ts[a..b];
    var j :| 0 <= j < |p| && p[j] == Tok('a', w.q, w.eq) && (j > 0 ==> p[j - 1].kind !in "<>+");
    assert ts[a + j] == p[j] && (j > 0 ==> ts[a + j - 1] == p[j - 1]);
  }

  lemma FileWider(ts: seq<Tok>, a: nat, b: nat, w: Span, mode: int, fd: int)
    requires Part(ts, a, b) && FileAt(ts[a..b], w, mode, fd)
    ensures FileAt(ts, w, mode, fd)
  {
    var p := ts[a..b];
    var j :| 0 < j < |p| && p[j] == Tok('a', w.q, w.eq)
      && ((p[j - 1].kind == '<' && mode == 0 && fd == 0) || (p[j - 1].kind in ">+" && mode == 0x201 && fd == 1));
    assert ts[a + j] == p[j] && ts[a + j - 1] == p[j - 1];
  }

  lemma BetweenWider(ts: seq<Tok>, a: nat, b: nat, kind: char, l: seq<Span>, r: seq<Span>)
    requires Part(ts, a, b) && Between(ts[a..b], kind, l, r)
    ensures Between(ts, kind, l, r)
  {
    var p := ts[a..b];
    var j :| 0 <= j < |p| && p[j].kind == kind && Before(l, p[j].q) && After(r, p[j].eq);
    assert ts[a + j] == p[j];
  }

  lemma {:induction false} TellsWider(ts: seq<Tok>, a: nat, b: nat, cmd: Cmd)
    requires Part(ts, a, b) && Tells(ts[a..b], cmd)
    ensures Tells(ts, cmd)
  {
    hide ArgAt, FileAt, Between;
    match cmd
    case Exec(argv) =>
      forall k | 0 <= k < |argv| ensures ArgAt(ts, argv[k]) {
        ArgWider(ts, a, b, argv[k]);
      }
    case Redir(c, file, mode, fd) =>
      FileWider(ts, a, b, file, mode, fd);
      TellsWider(ts, a, b, c);
    case Pipe(l, r) =>
      BetweenWider(ts, a, b, '|', Words(l), Words(r));
      TellsWider(ts, a, b, l);
      TellsWider(ts, a, b, r);
    case List(l, r) =>
      BetweenWider(ts, a, b, ';', Words(l), Words(r));
      TellsWider(ts, a, b, l);
      TellsWider(ts, a, b, r);
    case Back(c) =>
      BetweenWider(ts, a, b, '&', Words(c), []);
      TellsWider(ts, a, b, c);
  }

  lemma {:induction false} WordsJoin(x: seq<Tok>, y: seq<Tok>)
    ensures WordsOf(x + y) == WordsOf(x) + WordsOf(y)
    decreases |y|
  {
    if y == [] {
      assert x + y == x;
    } else {
      var n := |y| - 1;
      assert (x + y)[..|x + y| - 1] == x + y[..n] && (x + y)[|x + y| - 1] == y[n];
      WordsJoin(x, y[..n]);
    }
  }

  lemma WordsOne(t: Tok)
    ensures WordsOf([t]) == WordOf(t)
  {
    assert [t][..0] == [];
    assert WordsOf([t]) == WordsOf([]) + WordOf(t);
  }

  /** A word of a token list is one of its tokens. */
  lemma {:induction false} WordIsToken(ts: seq<Tok>, w: Span) returns (j: nat)
    requires w in WordsOf(ts)
    ensures j < |ts| && ts[j] == Tok('a', w.q, w.eq)
  {
    var n := |ts| - 1;
    if w in WordOf(ts[n]) {
      j := n;
    } else {
      j := WordIsToken(ts[..n], w);
    }
  }

  /** The tree of a token list has its words, each once, and its nodes tell of it. */
  ghost predicate TreeOf(ts: seq<Tok>, cmd: Cmd) {
    multiset(Words(cmd)) == WordsOf(ts) && Tells(ts, cmd)
  }

  lemma WordsWithin(ts: seq<Tok>, a: nat, b: nat, cmd: Cmd)
    requires Ordered(ts) && a <= b <= |ts| && multiset(Words(cmd)) == WordsOf(ts[a..b])
    ensures forall i :: b <= i < |ts| ==> Before(Words(cmd), ts[i].q)
    ensures forall i :: 0 <= i < a ==> After(Words(cmd), ts[i].eq)
  {
    var ws := Words(cmd);
    forall k | 0 <= k < |ws|
      ensures (forall i :: b <= i < |ts| ==> ws[k].eq <= ts[i].q) && forall i :: 0 <= i < a ==> ts[i].eq <= ws[k].q
    {
      assert ws[k] in multiset(ws);
      var j := WordIsToken(ts[a..b], ws[k]);
      assert ts[a + j] == Tok('a', ws[k].q, ws[k].eq);
    }
  }

  // ----- Rule by rule -----

  lemma {:induction false} AddArgTells(ts: seq<Tok>, c: Cmd, w: Span)
    requires ExecShape(c) && Tells(ts, c) && ArgAt(ts, w) && Before(Words(c), w.q)
    ensures Tells(ts, AddArg(c, w))
    decreases c
  {
    hide ArgAt, FileAt;
    if c.Redir? {
      assert forall k :: 0 <= k < |Words(c.cmd)| ==> Words(c.cmd)[k] == Words(c)[k];
      AddArgTells(ts, c.cmd, w);
    }
  }

  lemma Front(ts: seq<Tok>, n: nat)
    requires Ordered(ts) && n <= |ts|
    ensures Ordered(ts[..n]) && Ordered(ts[n..]) && ts[0..n] == ts[..n] && ts[n..|ts|] == ts[n..]
  {
  }

  lemma ArgTree(ts: seq<Tok>, c: Cmd)
    requires Ordered(ts) && ts != [] && ts[|ts| - 1].kind == 'a' && !EndsInRedir(ts)
    requires TreeOf(ts[..|ts| - 1], c) && ExecShape(c)
    ensures TreeOf(ts, AddArg(c, SpanOf(ts[|ts| - 1])))
  {
    hide Tells, WordsOf;
    var n := |ts| - 1;
    var w := SpanOf(ts[n]);
    Front(ts, n);
    TellsWider(ts, 0, n, c);
    assert ts[n] == Tok('a', w.q, w.eq);
    WordsWithin(ts, 0, n, c);
    AddArgTells(ts, c, w);
    var x, y := AddArgWords(c, w);
    WordsJoin(ts[..n], [ts[n]]);
    WordsOne(ts[n]);
    assert ts == ts[..n] + [ts[n]];
  }

  lemma RedirTree(ts: seq<Tok>, c: Cmd)
    requires Ordered(ts) && EndsInRedir(ts) && TreeOf(ts[..|ts| - 2], c)
    ensures TreeOf(ts, Redirected(c, ts[|ts| - 2].kind, SpanOf(ts[|ts| - 1])))
  {
    hide Tells, WordsOf;
    var n := |ts| - 2;
    var t, w := ts[n], ts[n + 1];
    Front(ts, n);
    TellsWider(ts, 0, n, c);
    WordsJoin(ts[..n], [t]);
    WordsJoin(ts[..n] + [t], [w]);
    WordsOne(t);
    WordsOne(w);
    assert ts == ts[..n] + [t] + [w];
    var cmd := Redirected(c, t.kind, SpanOf(w));
    assert w == Tok('a', w.q, w.eq);
    assert FileAt(ts, cmd.file, cmd.mode, cmd.fd);
    RedirTells(ts, cmd);
  }

  lemma RedirTells(ts: seq<Tok>, cmd: Cmd)
    requires cmd.Redir? && FileAt(ts, cmd.file, cmd.mode, cmd.fd) && Tells(ts, cmd.cmd)
    ensures Tells(ts, cmd)
  {
  }

  lemma {:induction false} SimpleTree(ts: seq<Tok>)
    requires WellSimple(ts) && Ordered(ts)
    ensures TreeOf(ts, SimpleOf(ts))
    decreases |ts|
  {
    if ts == [] {
      assert Words(SimpleOf(ts)) == [];
    } else if EndsInRedir(ts) {
      Front(ts, |ts| - 2);
      SimpleTree(ts[..|ts| - 2]);
      RedirTree(ts, SimpleOf(ts[..|ts| - 2]));
    } else {
      Front(ts, |ts| - 1);
      SimpleTree(ts[..|ts| - 1]);
      SimpleShape(ts[..|ts| - 1]);
      ArgTree(ts, SimpleOf(ts[..|ts| - 1]));
    }
  }

  /** Two parts with a symbol between them. */
  lemma JoinTree(ts: seq<Tok>, i: nat, l: Cmd, r: Cmd)
    requires Ordered(ts) && i < |ts| && ts[i].kind in "|;" && TreeOf(ts[..i], l) && TreeOf(ts[i + 1..], r)
    ensures Between(ts, ts[i].kind, Words(l), Words(r)) && Tells(ts, l) && Tells(ts, r)
    ensures multiset(Words(l) + Words(r)) == WordsOf(ts)
  {
    hide Tells, WordsOf;
    Front(ts, i);
    Front(ts, i + 1);
    TellsWider(ts, 0, i, l);
    TellsWider(ts, i + 1, |ts|, r);
    WordsWithin(ts, 0, i, l);
    WordsWithin(ts, i + 1, |ts|, r);
    WordsJoin(ts[..i], [ts[i]]);
    WordsJoin(ts[..i] + [ts[i]], ts[i + 1..]);
    WordsOne(ts[i]);
    assert ts == ts[..i] + [ts[i]] + ts[i + 1..];
  }

  lemma BackTree(ts: seq<Tok>, c: Cmd)
    requires Ordered(ts) && ts != [] && ts[|ts| - 1].kind == '&' && TreeOf(ts[..|ts| - 1], c)
    ensures TreeOf(ts, Back(c))
  {
    hide Tells, WordsOf;
    var n := |ts| - 1;
    Front(ts, n);
    TellsWider(ts, 0, n, c);
    WordsWithin(ts, 0, n, c);
    WordsJoin(ts[..n], [ts[n]]);
    WordsOne(ts[n]);
    assert ts == ts[..n] + [ts[n]];
    BackTells(ts, c);
  }

  lemma BackTells(ts: seq<Tok>, c: Cmd)
    requires ts != [] && ts[|ts| - 1].kind == '&' && Before(Words(c), ts[|ts| - 1].q) && Tells(ts, c)
    ensures Tells(ts, Back(c)) && Words(Back(c)) == Words(c)
  {
    assert Between(ts, '&', Words(c), []);
  }

  lemma ParenTree(ts: seq<Tok>, cmd: Cmd)
    requires |ts| >= 2 && ts[0].kind == '(' && ts[|ts| - 1].kind == ')' && TreeOf(ts[1..|ts| - 1], cmd)
    ensures TreeOf(ts, cmd)
  {
    hide Tells, WordsOf;
    var n := |ts| - 1;
    TellsWider(ts, 1, n, cmd);
    WordsJoin([ts[0]], ts[1..n]);
    WordsJoin([ts[0]] + ts[1..n], [ts[n]]);
    WordsOne(ts[0]);
    WordsOne(ts[n]);
    assert ts == [ts[0]] + ts[1..n] + [ts[n]];
  }

  lemma {:induction false} BlockTree(ts: seq<Tok>, cmd: Cmd)
    requires IsBlock(ts, cmd) && Ordered(ts)
    ensures TreeOf(ts, cmd)
    decreases |ts|, 0
  {
    hide IsLine, Tells, WordsOf;
    var n := |ts|;
    if n >= 2 && ts[0].kind == '(' && ts[n - 1].kind == ')' && IsLine(ts[1..n - 1], cmd) {
      Front(ts, n - 1);
      Front(ts[..n - 1], 1);
      assert ts[..n - 1][1..] == ts[1..n - 1];
      LineTree(ts[1..n - 1], cmd);
      ParenTree(ts, cmd);
    } else {
      Front(ts, n - 2);
      BlockTree(ts[..n - 2], cmd.cmd);
      RedirTree(ts, cmd.cmd);
    }
  }

  lemma {:induction false} PipeTree(ts: seq<Tok>, cmd: Cmd)
    requires IsPipe(ts, cmd) && Ordered(ts)
    ensures TreeOf(ts, cmd)
    decreases |ts|, 1
  {
    hide IsBlock, WordsOf;
    if IsSimple(ts, cmd) {
      SimpleTree(ts);
    } else if IsBlock(ts, cmd) {
      BlockTree(ts, cmd);
    } else {
      var i := PipeParts(ts, cmd);
      Front(ts, i);
      Front(ts, i + 1);
      PartTree(ts[..i], cmd.left);
      PipeTree(ts[i + 1..], cmd.right);
      JoinTree(ts, i, cmd.left, cmd.right);
    }
  }

  lemma {:induction false} PartTree(ts: seq<Tok>, cmd: Cmd)
    requires (IsSimple(ts, cmd) || IsBlock(ts, cmd)) && Ordered(ts)
    ensures TreeOf(ts, cmd)
    decreases |ts|, 1
  {
    if IsSimple(ts, cmd) {
      SimpleTree(ts);
    } else {
      BlockTree(ts, cmd);
    }
  }

  lemma {:induction false} BackedTree(ts: seq<Tok>, cmd: Cmd)
    requires IsBacked(ts, cmd) && Ordered(ts)
    ensures TreeOf(ts, cmd)
    decreases |ts|, 2
  {
    hide IsPipe, Tells, WordsOf;
    if IsPipe(ts, cmd) {
      PipeTree(ts, cmd);
    } else {
      Front(ts, |ts| - 1);
      BackedTree(ts[..|ts| - 1], cmd.cmd);
      BackTree(ts, cmd.cmd);
    }
  }

  lemma {:induction false} LineTree(ts: seq<Tok>, cmd: Cmd)
    requires IsLine(ts, cmd) && Ordered(ts)
    ensures TreeOf(ts, cmd)
    decreases |ts|, 3
  {
    hide IsBacked, WordsOf;
    if IsBacked(ts, cmd) {
      BackedTree(ts, cmd);
    } else {
      var i := LineParts(ts, cmd);
      Front(ts, i);
      Front(ts, i + 1);
      BackedTree(ts[..i], cmd.left);
      LineTree(ts[i + 1..], cmd.right);
      JoinTree(ts, i, cmd.left, cmd.right);
    }
  }

  /** A tree for a line holds every word of the line once.  Each argument is a
      word with no redirection before it, in the order of the line; each file
      the word after its symbol, opened as the symbol says; and each bar,
      semicolon or ampersand stands between the words it separates. */
  lemma TreeOfLine(s: string, cmd: Cmd)
    requires IsText(s) && IsLine(Lex(s, 0), cmd)
    ensures multiset(Words(cmd)) == WordsOf(Lex(s, 0)) && Tells(Lex(s, 0), cmd)
  {
    LexIs(s, 0);
    LineTree(Lex(s, 0), cmd);
  }
}
