/** The parser of sh.c against the grammar: every derivation is read, so it accepts exactly the lines that have one. */
module ShellAccept {
  import opened ShellSyntax
  import opened ShellPrint
  import opened ShellGrammar
  import opened ShellSound
  import opened ShellParse

  // ---------------------------------------------------------------- every derivation is read

  /** The parse ended with command c and left these tokens. */
  predicate Took(s: string, r: Parsed, c: Cmd, rest: seq<Tok>)
  {
    r.Ok? && r.cmd == c && r.pos <= |s| && Toks(s, r.pos) == rest
  }

  /** The character under the cursor, by the first token. */
  lemma Under(s: string, p: nat)
    requires Line(s) && p <= |s|
    ensures var c, ts := At(s, Skip(s, p)), Toks(s, p);
      && (ts == [] <==> c == NUL)
      && (ts != [] && ts[0].W? ==> WordChar(c))
      && (ts != [] && ts[0].AA? ==> c == '>')
      && (ts != [] && ts[0].P? ==> c == ts[0].c && Symbol(c))
  {
    Head(s, p);
  }

  lemma ArgAt(s: string, p: nat, w: Span, rest: seq<Tok>)
    requires Line(s) && p <= |s| && Toks(s, p) == [W(w)] + rest
    ensures var q := Skip(s, p); var (tok, eq) := Scan(s, q);
      && WordChar(At(s, q)) && tok.Word? && w == Span(q, eq) && p < eq && Toks(s, Skip(s, eq)) == rest
  {
    Head(s, p);
    ToksSkip(s, Scan(s, Skip(s, p)).1);
    hide Scan, Skip, Toks;
    assert ([W(w)] + rest)[1..] == rest;
  }

  lemma ArrowFirst(s: string, p: nat, a: Arrow, rest: seq<Tok>)
    requires Line(s) && p <= |s| && Toks(s, p) == [ArrowTok(a)] + rest
    ensures var p1 := Skip(s, p); var (tok, e1) := Scan(s, p1);
      (At(s, p1) == '<' || At(s, p1) == '>') && p < e1 && Toks(s, e1) == rest && (tok == Punct('<') <==> a.Less?)
  {
    Head(s, p);
    hide Scan, Skip, Toks;
    assert ([ArrowTok(a)] + rest)[1..] == rest;
  }

  lemma OneRedirection(s: string, p: nat, a: Arrow, w: Span, rest: seq<Tok>)
    requires Line(s) && p <= |s| && Toks(s, p) == [ArrowTok(a), W(w)] + rest
    ensures var p1 := Skip(s, p); var (tok, e1) := Scan(s, p1); var q := Skip(s, e1); var (tok2, eq) := Scan(s, q);
      && (At(s, p1) == '<' || At(s, p1) == '>') && tok2.Word? && w == Span(q, eq) && p < Skip(s, eq)
      && Toks(s, Skip(s, eq)) == rest && (tok == Punct('<') <==> a.Less?)
  {
    hide Scan, Skip, Toks;
    assert [ArrowTok(a), W(w)] + rest == [ArrowTok(a)] + ([W(w)] + rest);
    ArrowFirst(s, p, a, [W(w)] + rest);
    ArgAt(s, Scan(s, Skip(s, p)).1, w, rest);
  }

  lemma {:induction false} TakeRedirs(s: string, p: nat, items: seq<Item>, rest: seq<Tok>) returns (k: nat)
    requires Line(s) && p <= |s| && Toks(s, p) == ItemToks(items) + rest && Ends(rest, "|)&;(")
    ensures k <= |items| && AllFiles(items[..k]) && (k < |items| ==> items[k].Arg?)
    ensures var r := ParseRedirs(s, p);
      && r.RedirsOk? && r.rs == Redirections(items[..k]) && p <= r.pos <= |s|
      && Toks(s, r.pos) == ItemToks(items[k..]) + rest
    decreases |items|
  {
    hide Skip, Scan, Toks;
    if items != [] && items[0].File? {
      var a, w, more := items[0].a, items[0].w, ItemToks(items[1..]) + rest;
      assert Toks(s, p) == [ArrowTok(a), W(w)] + more;
      OneRedirection(s, p, a, w, more);
      var (tok, e1) := Scan(s, Skip(s, p));
      var (tok2, eq) := Scan(s, Skip(s, e1));
      var m := TakeRedirs(s, Skip(s, eq), items[1..], rest);
      k := m + 1;
      assert items[..k] == [items[0]] + items[1..][..m] && items[k..] == items[1..][m..];
      FirstItem(items[0], items[1..][..m]);
    } else {
      k := 0;
      Under(s, p);
      ToksSkip(s, p);
      assert items != [] ==> Toks(s, p)[0] == W(items[0].w);
      assert items[..0] == [] && items[0..] == items;
    }
  }

  /** The loop of parseexec stops at the end of the command. */
  lemma ArgsStop(s: string, p: nat, rest: seq<Tok>, argv: seq<Span>, rs: seq<Redirection>)
    requires Line(s) && p <= |s| && Toks(s, p) == rest && Ends(rest, "|)&;")
    ensures Took(s, ParseArgs(s, p, argv, rs), Wrap(Exec(argv), rs), rest)
  {
    Under(s, p);
    Head(s, p);
    ToksSkip(s, p);
    hide Toks, Skip, Scan, ParseRedirs, Wrap;
  }

  lemma {:induction false} TakeArgs(s: string, p: nat, items: seq<Item>, rest: seq<Tok>, argv: seq<Span>,
                                    rs: seq<Redirection>)
    requires Line(s) && p <= |s| && Toks(s, p) == ItemToks(items) + rest && Ends(rest, "|)&;")
    requires (items != [] ==> items[0].Arg?) && |argv| + |Args(items)| < MAXARGS
    ensures Took(s, ParseArgs(s, p, argv, rs), Wrap(Exec(argv + Args(items)), rs + Redirections(items)), rest)
    decreases |items|
  {
    hide Skip, Scan, Toks, ParseRedirs, Wrap, Took;
    if items == [] {
      assert [] + rest == rest && argv + [] == argv && rs + [] == rs;
      ArgsStop(s, p, rest, argv, rs);
    } else {
      var w, more := items[0].w, items[1..];
      assert Toks(s, p) == [W(w)] + (ItemToks(more) + rest);
      ArgAt(s, p, w, ItemToks(more) + rest);
      var p2 := Skip(s, Scan(s, Skip(s, p)).1);
      var k := TakeRedirs(s, p2, more, rest);
      var files, tail := more[..k], more[k..];
      ItemSplit(items, k);
      TakeArgs(s, ParseRedirs(s, p2).pos, tail, rest, argv + [w], rs + Redirections(files));
      assert argv + [w] + Args(tail) == argv + Args(items);
      assert rs + Redirections(files) + Redirections(tail) == rs + Redirections(items);
    }
  }

  /** An argument, the redirections after it, and the rest of the items. */
  lemma ItemSplit(items: seq<Item>, k: nat)
    requires items != [] && items[0].Arg? && k < |items| && AllFiles(items[1..][..k])
    ensures Args(items) == [items[0].w] + Args(items[1..][k..])
    ensures Redirections(items) == Redirections(items[1..][..k]) + Redirections(items[1..][k..])
  {
    hide ItemToks, Args, Redirections;
    var files, tail := items[1..][..k], items[1..][k..];
    assert items[1..] == files + tail;
    assert items == [items[0]] + items[1..];
    FirstItem(items[0], items[1..]);
    ItemsApart(files, tail);
    FilesOnly(files);
    assert [] + Args(tail) == Args(tail) && [] + Redirections(items[1..]) == Redirections(items[1..]);
  }

  lemma TakeSimple(s: string, p: nat, items: seq<Item>, rest: seq<Tok>)
    requires Line(s) && p <= |s| && Toks(s, p) == ItemToks(items) + rest && Ends(rest, "|)&;")
    requires |Args(items)| < MAXARGS
    ensures Took(s, ParseExec(s, p), Wrap(Exec(Args(items)), Redirections(items)), rest)
  {
    hide Skip, Scan, Toks, ParseRedirs, ParseArgs, ParseBlock, Wrap, Took;
    var p1 := Skip(s, p);
    Under(s, p);
    assert items != [] ==> Toks(s, p)[0] == if items[0].Arg? then W(items[0].w) else ArrowTok(items[0].a);
    ToksSkip(s, p);
    var k := TakeRedirs(s, p1, items, rest);
    var files, tail := items[..k], items[k..];
    assert items == files + tail;
    ItemsApart(files, tail);
    FilesOnly(files);
    TakeArgs(s, ParseRedirs(s, p1).pos, tail, rest, [], Redirections(files));
    assert [] + Args(tail) == Args(tail);
  }

  /** A symbol under the cursor, and what follows it. */
  lemma SymbolAt(s: string, p: nat, c: char, rest: seq<Tok>)
    requires Line(s) && p <= |s| && Toks(s, p) == [P(c)] + rest
    ensures var q := Skip(s, p); q < |s| && s[q] == c && Toks(s, Skip(s, q + 1)) == rest
  {
    Head(s, p);
    assert ([P(c)] + rest)[1..] == rest;
    ToksSkip(s, Skip(s, p) + 1);
  }

  lemma TakeBlock(s: string, p: nat, body: LineTree, files: seq<Item>, rest: seq<Tok>)
    requires Line(s) && p <= |s| && Ends(rest, "|)&;") && AllFiles(files)
    requires Toks(s, p) == [P('(')] + (LineToks(body) + ([P(')')] + (ItemToks(files) + rest)))
    requires Skip(s, p) < |s|
    requires Took(s, ParseLine(s, Skip(s, Skip(s, p) + 1)), LineOf(body), [P(')')] + (ItemToks(files) + rest))
    ensures Took(s, ParseExec(s, p), Wrap(LineOf(body), Redirections(files)), rest)
  {
    hide Skip, Scan, Toks, ParseRedirs, ParseArgs, ParseLine, Wrap, LineToks, LineOf;
    var after := ItemToks(files) + rest;
    SymbolAt(s, p, '(', LineToks(body) + ([P(')')] + after));
    var inner := ParseLine(s, Skip(s, Skip(s, p) + 1));
    SymbolAt(s, inner.pos, ')', after);
    var p3 := Skip(s, Skip(s, inner.pos) + 1);
    var k := TakeRedirs(s, p3, files, rest);
    assert k == |files| && files[..k] == files && files[k..] == [];
    assert ItemToks([]) + rest == rest;
  }

  lemma {:induction false} TakeCmd(s: string, p: nat, t: CmdTree, rest: seq<Tok>)
    requires Line(s) && p <= |s| && LegalCmd(t) && Toks(s, p) == CmdToks(t) + rest && Ends(rest, "|)&;")
    ensures Took(s, ParseExec(s, p), CmdOf(t), rest)
    decreases t
  {
    hide Skip, Scan, Toks, ParseExec, Took, Wrap, LineToks, LineOf;
    match t
    case Simple(items) => TakeSimple(s, p, items, rest);
    case Block(body, files) =>
      var after := [P(')')] + (ItemToks(files) + rest);
      assert CmdToks(t) + rest == [P('(')] + (LineToks(body) + after);
      SymbolAt(s, p, '(', LineToks(body) + after);
      TakeLine(s, Skip(s, Skip(s, p) + 1), body, after);
      TakeBlock(s, p, body, files, rest);
  }

  lemma {:induction false} TakePipe(s: string, p: nat, t: PipeTree, rest: seq<Tok>)
    requires Line(s) && p <= |s| && LegalPipe(t) && Toks(s, p) == PipeToks(t) + rest && Ends(rest, ")&;")
    ensures Took(s, ParsePipe(s, p), PipeOf(t), rest)
    decreases t
  {
    hide Skip, Scan, Toks, ParseExec, CmdToks, CmdOf, LegalCmd;
    match t
    case One(c) =>
      TakeCmd(s, p, c, rest);
      var left := ParseExec(s, p);
      Under(s, left.pos);
      ToksSkip(s, left.pos);
    case Join(c, more) =>
      var after := [P('|')] + (PipeToks(more) + rest);
      assert PipeToks(t) + rest == CmdToks(c) + after;
      TakeCmd(s, p, c, after);
      var left := ParseExec(s, p);
      SymbolAt(s, left.pos, '|', PipeToks(more) + rest);
      TakePipe(s, Skip(s, Skip(s, left.pos) + 1), more, rest);
  }

  lemma {:induction false} TakeBacks(s: string, p: nat, c: Cmd, n: nat, rest: seq<Tok>)
    requires Line(s) && p <= |s| && Toks(s, p) == Backs(n) + rest && Ends(rest, ");")
    ensures var r := ParseBacks(s, p, c); r.0 == Behind(c, n) && r.1 == Skip(s, r.1) && Toks(s, r.1) == rest
    decreases n
  {
    hide Skip, Scan, Toks;
    if n == 0 {
      assert [] + rest == rest;
      Under(s, p);
      ToksSkip(s, p);
      SkipSkip(s, p);
    } else {
      assert Backs(n) + rest == [P('&')] + (Backs(n - 1) + rest);
      SymbolAt(s, p, '&', Backs(n - 1) + rest);
      TakeBacks(s, Skip(s, Skip(s, p) + 1), Back(c), n - 1, rest);
    }
  }

  lemma BacksEnd(n: nat, rest: seq<Tok>)
    requires Ends(rest, ");")
    ensures Ends(Backs(n) + rest, ")&;")
  {
  }

  /** A pipe and its `&`s. */
  lemma TakeBacked(s: string, p: nat, pipe: PipeTree, n: nat, rest: seq<Tok>)
    requires Line(s) && p <= |s| && Toks(s, p) == PipeToks(pipe) + Backs(n) + rest && Ends(rest, ");")
    requires Took(s, ParsePipe(s, p), PipeOf(pipe), Backs(n) + rest)
    ensures var first := ParsePipe(s, p); var r := ParseBacks(s, first.pos, first.cmd);
      && r.0 == Behind(PipeOf(pipe), n) && r.1 == Skip(s, r.1) && Toks(s, r.1) == rest
      && (At(s, r.1) == ';' <==> rest != [] && rest[0] == P(';'))
  {
    hide Skip, Scan, Toks, ParsePipe, ParseBacks, PipeOf, PipeToks, Backs, Behind;
    var first := ParsePipe(s, p);
    TakeBacks(s, first.pos, first.cmd, n, rest);
    Under(s, ParseBacks(s, first.pos, first.cmd).1);
  }

  lemma {:induction false} TakeLine(s: string, p: nat, t: LineTree, rest: seq<Tok>)
    requires Line(s) && p <= |s| && LegalLine(t) && Toks(s, p) == LineToks(t) + rest && Ends(rest, ")")
    ensures Took(s, ParseLine(s, p), LineOf(t), rest)
    decreases t
  {
    hide Skip, Scan, Toks, ParsePipe, ParseBacks, PipeOf, PipeToks, Backs, Behind, LegalPipe;
    match t
    case Last(pipe, n) =>
      BacksEnd(n, rest);
      assert PipeToks(pipe) + Backs(n) + rest == PipeToks(pipe) + (Backs(n) + rest);
      TakePipe(s, p, pipe, Backs(n) + rest);
      TakeBacked(s, p, pipe, n, rest);
    case Then(pipe, n, more) =>
      var after := [P(';')] + (LineToks(more) + rest);
      BacksEnd(n, after);
      assert LineToks(t) + rest == PipeToks(pipe) + (Backs(n) + after);
      assert PipeToks(pipe) + Backs(n) + after == PipeToks(pipe) + (Backs(n) + after);
      TakePipe(s, p, pipe, Backs(n) + after);
      TakeBacked(s, p, pipe, n, after);
      var first := ParsePipe(s, p);
      var p1 := ParseBacks(s, first.pos, first.cmd).1;
      SymbolAt(s, p1, ';', LineToks(more) + rest);
      TakeLine(s, Skip(s, p1 + 1), more, rest);
  }

  // ---------------------------------------------------------------- the parser against the grammar

  lemma Whole(s: string, p: nat)
    requires Line(s) && p <= |s|
    ensures Toks(s, p) == [] <==> Skip(s, p) == |s|
  {
    Head(s, p);
  }

  /** parsecmd accepts exactly the lines that have a derivation, with the command it stands for. */
  lemma AcceptedIffDerived(s: string, c: Cmd)
    requires Line(s)
    ensures ParseCmd(s).Ok? && ParseCmd(s).cmd == c <==> exists t :: Derives(t, s) && LineOf(t) == c
  {
    hide Toks, ParseLine, Skip, LineToks, LineOf, LegalLine;
    var t := ReadLine(s, 0);
    var r := ParseLine(s, 0);
    if r.Ok? {
      Whole(s, r.pos);
      assert Skip(s, r.pos) == |s| ==> LineToks(t) + [] == LineToks(t);
      assert ParseCmd(s).Ok? ==> Derives(t, s);
    }
    forall u | Derives(u, s)
      ensures ParseCmd(s).Ok? && ParseCmd(s).cmd == LineOf(u)
    {
      assert LineToks(u) + [] == LineToks(u);
      TakeLine(s, 0, u, []);
      Whole(s, r.pos);
    }
  }

  /** Why a line is rejected: at some token an arrow has no file, a parenthesis stays open or stands inside a command,
      or a command has a tenth argument; or a whole line has been read and tokens are left. */
  lemma RejectedForAReason(s: string)
    requires Line(s) && ParseCmd(s).Fail?
    ensures var e := ParseCmd(s).e;
      || Fault(Toks(s, 0), e)
      || (e == Leftovers && exists t :: LegalLine(t) && LineToks(t) < Toks(s, 0))
    ensures !exists t :: Derives(t, s)
  {
    hide Toks, ParseLine, Skip, LineToks, LineOf, LegalLine, Fault;
    var t := ReadLine(s, 0);
    var r := ParseLine(s, 0);
    if r.Ok? {
      Whole(s, r.pos);
      assert LineToks(t) < Toks(s, 0);
    }
    forall u | Derives(u, s)
      ensures false
    {
      AcceptedIffDerived(s, LineOf(u));
    }
  }

  /** The grammar's verdict on a line. */
  lemma Judged(s: string)
    requires Line(s)
    ensures ParseCmd(s).Ok? <==> exists t :: Derives(t, s)
    ensures forall t :: Derives(t, s) ==> ParseCmd(s).Ok? && ParseCmd(s).cmd == LineOf(t)
    ensures ParseCmd(s).Fail? ==>
      || Fault(Toks(s, 0), ParseCmd(s).e)
      || (ParseCmd(s).e == Leftovers && exists t :: LegalLine(t) && LineToks(t) < Toks(s, 0))
  {
    hide ParseCmd, Derives, LineOf, LineToks, LegalLine, Fault, Toks;
    forall t | Derives(t, s)
      ensures ParseCmd(s).Ok? && ParseCmd(s).cmd == LineOf(t)
    {
      AcceptedIffDerived(s, LineOf(t));
    }
    if ParseCmd(s).Fail? {
      RejectedForAReason(s);
    } else {
      AcceptedIffDerived(s, ParseCmd(s).cmd);
    }
  }

  /** parsecmd on a whole line: it returns a command exactly when the line has a derivation, and then the one that
      derivation stands for; when it panics, the line shows why. */
  method ReadCommand(s: string) returns (r: Outcome<Cmd>)
    requires Line(s)
    ensures r.Done? <==> exists t :: Derives(t, s)
    ensures forall t :: Derives(t, s) ==> r == Done(LineOf(t))
    ensures r.Panic? ==>
      || Fault(Toks(s, 0), r.e)
      || (r.e == Leftovers && exists t :: LegalLine(t) && LineToks(t) < Toks(s, 0))
  {
    hide ParseCmd, Derives, LineOf, LineToks, LegalLine, Fault, Toks;
    Judged(s);
    var parser := new Parser(s);
    r := parser.Command();
  }
}
