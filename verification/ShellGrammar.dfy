/** The grammar of the shell's command lines as derivation trees over tokens. The parser of sh.c accepts exactly the
    lines that have a derivation, with the command that derivation stands for. */
module ShellGrammar {
  import opened ShellSyntax
  import opened ShellPrint

  // ---------------------------------------------------------------- tokens

  /** A word of the line, a symbol, or `>>`. */
  datatype Tok = W(w: Span) | P(c: char) | AA

  /** The tokens of the line from p on. */
  function Toks(s: string, p: nat): (r: seq<Tok>)
    requires p <= |s|
    decreases |s| - p
  {
    var q := Skip(s, p);
    var (tok, e) := Scan(s, q);
    match tok
    case Eof => []
    case Word => [W(Span(q, e))] + Toks(s, e)
    case Punct(c) => [P(c)] + Toks(s, e)
    case Append => [AA] + Toks(s, e)
  }

  function TokOf(tok: Token, q: nat, e: nat): Tok
    requires !tok.Eof?
  {
    if tok.Word? then W(Span(q, e)) else if tok.Append? then AA else P(tok.c)
  }

  /** The first token, and the character it starts with. */
  lemma Head(s: string, p: nat)
    requires Line(s) && p <= |s|
    ensures var q, ts := Skip(s, p), Toks(s, p); var (tok, e) := Scan(s, q);
      && (ts == [] <==> tok.Eof?) && (ts == [] <==> q == |s|) && (ts == [] <==> At(s, q) == NUL)
      && (ts != [] ==>
            && ts[0] == TokOf(tok, q, e) && ts[1..] == Toks(s, e) && q < e
            && (ts[0].P? ==> At(s, q) == ts[0].c && Symbol(ts[0].c) && e == q + 1)
            && (ts[0].AA? ==> At(s, q) == '>')
            && (ts[0].W? ==> WordChar(At(s, q)))
            && (Symbol(At(s, q)) && At(s, q) != '>' ==> ts[0] == P(At(s, q))))
  {
  }

  lemma ToksSkip(s: string, p: nat)
    requires p <= |s|
    ensures Toks(s, Skip(s, p)) == Toks(s, p)
  {
    SkipSkip(s, p);
    hide Skip, Scan;
  }

  // ---------------------------------------------------------------- derivations

  /** A piece of a command without parentheses: an argument or a redirection. */
  datatype Item = Arg(w: Span) | File(a: Arrow, w: Span)

  datatype CmdTree = Simple(items: seq<Item>) | Block(body: LineTree, files: seq<Item>)
  datatype PipeTree = One(cmd: CmdTree) | Join(cmd: CmdTree, more: PipeTree)
  datatype LineTree = Last(pipe: PipeTree, backs: nat) | Then(pipe: PipeTree, backs: nat, more: LineTree)

  function ArrowTok(a: Arrow): Tok
  {
    match a
    case Less => P('<')
    case Greater => P('>')
    case Double => AA
  }

  function ItemToks(items: seq<Item>): (r: seq<Tok>)
  {
    if items == [] then []
    else (if items[0].Arg? then [W(items[0].w)] else [ArrowTok(items[0].a), W(items[0].w)]) + ItemToks(items[1..])
  }

  function Backs(n: nat): (r: seq<Tok>)
  {
    if n == 0 then [] else [P('&')] + Backs(n - 1)
  }

  function CmdToks(t: CmdTree): (r: seq<Tok>)
  {
    match t
    case Simple(items) => ItemToks(items)
    case Block(body, files) => [P('(')] + LineToks(body) + [P(')')] + ItemToks(files)
  }

  function PipeToks(t: PipeTree): (r: seq<Tok>)
  {
    match t
    case One(c) => CmdToks(c)
    case Join(c, more) => CmdToks(c) + [P('|')] + PipeToks(more)
  }

  function LineToks(t: LineTree): (r: seq<Tok>)
  {
    match t
    case Last(p, n) => PipeToks(p) + Backs(n)
    case Then(p, n, more) => PipeToks(p) + Backs(n) + [P(';')] + LineToks(more)
  }

  function Args(items: seq<Item>): (r: seq<Span>)
  {
    if items == [] then [] else (if items[0].Arg? then [items[0].w] else []) + Args(items[1..])
  }

  function Redirections(items: seq<Item>): (r: seq<Redirection>)
  {
    if items == [] then []
    else (if items[0].Arg? then [] else [Redirection(items[0].w, ModeOf(items[0].a))]) + Redirections(items[1..])
  }

  predicate AllFiles(items: seq<Item>) { forall i :: 0 <= i < |items| ==> items[i].File? }

  /** No command has more than nine arguments; only redirections follow a parenthesis. */
  predicate LegalCmd(t: CmdTree)
  {
    match t
    case Simple(items) => |Args(items)| < MAXARGS
    case Block(body, files) => LegalLine(body) && AllFiles(files)
  }

  predicate LegalPipe(t: PipeTree)
  {
    match t
    case One(c) => LegalCmd(c)
    case Join(c, more) => LegalCmd(c) && LegalPipe(more)
  }

  predicate LegalLine(t: LineTree)
  {
    match t
    case Last(p, _) => LegalPipe(p)
    case Then(p, _, more) => LegalPipe(p) && LegalLine(more)
  }

  function Behind(c: Cmd, n: nat): (r: Cmd)
    decreases n
  {
    if n == 0 then c else Behind(Back(c), n - 1)
  }

  /** The command a derivation stands for. */
  function CmdOf(t: CmdTree): (c: Cmd)
  {
    match t
    case Simple(items) => Wrap(Exec(Args(items)), Redirections(items))
    case Block(body, files) => Wrap(LineOf(body), Redirections(files))
  }

  function PipeOf(t: PipeTree): (c: Cmd)
  {
    match t
    case One(c) => CmdOf(c)
    case Join(c, more) => Pipe(CmdOf(c), PipeOf(more))
  }

  function LineOf(t: LineTree): (c: Cmd)
  {
    match t
    case Last(p, n) => Behind(PipeOf(p), n)
    case Then(p, n, more) => List(Behind(PipeOf(p), n), LineOf(more))
  }

  /** t derives the whole line. */
  ghost predicate Derives(t: LineTree, s: string) { LegalLine(t) && LineToks(t) == Toks(s, 0) }

  // ---------------------------------------------------------------- what is wrong with a line

  predicate Ends(ts: seq<Tok>, stops: string) { ts == [] || (ts[0].P? && ts[0].c in stops) }

  /** The fault e, right at the start of these tokens. */
  ghost predicate FaultHere(ts: seq<Tok>, e: Err)
  {
    match e
    // An arrow without a file name.
    case MissingFile => ts != [] && (ts[0] == P('<') || ts[0] == P('>') || ts[0] == AA) && !(|ts| > 1 && ts[1].W?)
    // A parenthesis and a whole line, but no closing one.
    case MissingParen =>
      exists l ::
        var text := [P('(')] + LineToks(l);
        LegalLine(l) && text <= ts && !(text < ts && ts[|text|] == P(')'))
    // A parenthesis in a command that has begun.
    case Syntax => exists items :: items != [] && ItemToks(items) < ts && ts[|ItemToks(items)|] == P('(')
    // A tenth argument.
    case TooManyArgs => exists items :: ItemToks(items) <= ts && |Args(items)| == MAXARGS
    case _ => false
  }

  ghost predicate Fault(ts: seq<Tok>, e: Err)
  {
    exists k :: 0 <= k <= |ts| && FaultHere(ts[k..], e)
  }

  lemma FaultLater(pre: seq<Tok>, ts: seq<Tok>, e: Err)
    requires Fault(ts, e)
    ensures Fault(pre + ts, e)
  {
    var k :| 0 <= k <= |ts| && FaultHere(ts[k..], e);
    assert (pre + ts)[|pre| + k..] == ts[k..];
  }

  lemma FaultNow(ts: seq<Tok>, e: Err)
    requires FaultHere(ts, e)
    ensures Fault(ts, e)
  {
    assert ts[0..] == ts;
  }

  // ---------------------------------------------------------------- items

  lemma FirstItem(i: Item, rest: seq<Item>)
    ensures ItemToks([i] + rest) == (if i.Arg? then [W(i.w)] else [ArrowTok(i.a), W(i.w)]) + ItemToks(rest)
    ensures Args([i] + rest) == (if i.Arg? then [i.w] else []) + Args(rest)
    ensures Redirections([i] + rest) == (if i.Arg? then [] else [Redirection(i.w, ModeOf(i.a))]) + Redirections(rest)
  {
    assert ([i] + rest)[1..] == rest;
  }

  lemma {:induction false} ItemsApart(a: seq<Item>, b: seq<Item>)
    ensures ItemToks(a + b) == ItemToks(a) + ItemToks(b)
    ensures Args(a + b) == Args(a) + Args(b)
    ensures Redirections(a + b) == Redirections(a) + Redirections(b)
    decreases |a|
  {
    if a == [] {
      assert a + b == b;
    } else {
      hide ItemToks, Args, Redirections;
      assert a == [a[0]] + a[1..] && a + b == [a[0]] + (a[1..] + b);
      FirstItem(a[0], a[1..]);
      FirstItem(a[0], a[1..] + b);
      ItemsApart(a[1..], b);
    }
  }

  lemma {:induction false} FilesOnly(items: seq<Item>)
    requires AllFiles(items)
    ensures Args(items) == []
    decreases |items|
  {
    if items != [] {
      FilesOnly(items[1..]);
    }
  }
}
