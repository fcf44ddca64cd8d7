/** What the parser of sh.c accepts has a derivation, and when it panics there is a fault at some token. */
module ShellSound {
  import opened ShellSyntax
  import opened ShellPrint
  import opened ShellGrammar

  // ---------------------------------------------------------------- the parser reads a derivation

  /** The tokens from p on are `text` and then those from p' on. */
  predicate Spans(s: string, p: nat, text: seq<Tok>, p': nat)
  {
    p <= |s| && p' <= |s| && Toks(s, p) == text + Toks(s, p')
  }

  lemma SpansJoin(s: string, p: nat, a: seq<Tok>, m: nat, b: seq<Tok>, e: nat)
    requires Spans(s, p, a, m) && Spans(s, m, b, e)
    ensures Spans(s, p, a + b, e)
  {
    hide Toks;
    assert a + (b + Toks(s, e)) == (a + b) + Toks(s, e);
  }

  /** One symbol. */
  lemma SpansSymbol(s: string, p: nat, c: char)
    requires Line(s) && p <= |s| && At(s, Skip(s, p)) == c && Symbol(c) && c != '>'
    ensures Skip(s, p) < |s| && Spans(s, p, [P(c)], Skip(s, p) + 1)
    ensures Spans(s, p, [P(c)], Skip(s, Skip(s, p) + 1))
  {
    Head(s, p);
    ToksSkip(s, Skip(s, p) + 1);
    var ts := Toks(s, p);
    assert ts == [ts[0]] + ts[1..];
  }

  lemma SpansSkip(s: string, p: nat)
    requires p <= |s|
    ensures Spans(s, p, [], Skip(s, p)) && Spans(s, Skip(s, p), [], p)
  {
    ToksSkip(s, p);
    assert [] + Toks(s, p) == Toks(s, p);
  }

  /** A redirection, its two tokens. */
  lemma RedirToks(s: string, p: nat) returns (a: Arrow)
    requires Line(s) && p <= |s| && (At(s, Skip(s, p)) == '<' || At(s, Skip(s, p)) == '>')
    ensures var p1 := Skip(s, p); var (tok, e1) := Scan(s, p1); var q := Skip(s, e1); var (tok2, eq) := Scan(s, q);
      && (!tok2.Word? ==> FaultHere(Toks(s, p), MissingFile))
      && (tok2.Word? ==>
            && ModeOf(a) == (if tok == Punct('<') then In else Out)
            && Spans(s, p, [ArrowTok(a), W(Span(q, eq))], Skip(s, eq)))
  {
    var p1 := Skip(s, p);
    var (tok, e1) := Scan(s, p1);
    Head(s, p);
    Head(s, e1);
    var ts := Toks(s, p);
    a := if tok == Punct('<') then Less else if tok == Append then Double else Greater;
    assert ts[0] == ArrowTok(a) by { ArrowAt(s, p1); }
    hide Scan, Skip;
    var (tok2, eq) := Scan(s, Skip(s, e1));
    if tok2.Word? {
      ToksSkip(s, eq);
      assert ts[1..] == Toks(s, e1) && Toks(s, e1)[1..] == Toks(s, eq);
      assert ts == [ts[0], ts[1..][0]] + ts[1..][1..];
    }
  }

  lemma ArrowAt(s: string, p: nat)
    requires p < |s| && (s[p] == '<' || s[p] == '>')
    ensures Scan(s, p).0 == Punct('<') || Scan(s, p).0 == Punct('>') || Scan(s, p).0 == Append
  {
  }

  /** parseredirs reads redirections, or meets an arrow without a file. */
  lemma {:induction false} ReadRedirs(s: string, p: nat) returns (items: seq<Item>)
    requires Line(s) && p <= |s|
    ensures match ParseRedirs(s, p)
      case RedirsOk(rs, pos) =>
        && AllFiles(items) && Redirections(items) == rs && Spans(s, p, ItemToks(items), pos)
        && Skip(s, pos) == pos && At(s, pos) != '<' && At(s, pos) != '>'
      case RedirsFail(e) => e == MissingFile && Fault(Toks(s, p), e)
    decreases |s| - p
  {
    hide Skip, Scan, Toks;
    var p1 := Skip(s, p);
    items := [];
    if At(s, p1) != '<' && At(s, p1) != '>' {
      SpansSkip(s, p);
      SkipSkip(s, p);
    } else {
      var a := RedirToks(s, p);
      var (tok, e1) := Scan(s, p1);
      var q := Skip(s, e1);
      var (tok2, eq) := Scan(s, q);
      if !tok2.Word? {
        FaultNow(Toks(s, p), MissingFile);
      } else {
        var p2 := Skip(s, eq);
        var rest := ReadRedirs(s, p2);
        items := [File(a, Span(q, eq))] + rest;
        FirstItem(File(a, Span(q, eq)), rest);
        if ParseRedirs(s, p2).RedirsOk? {
          SpansJoin(s, p, [ArrowTok(a), W(Span(q, eq))], p2, ItemToks(rest), ParseRedirs(s, p2).pos);
        } else {
          FaultLater([ArrowTok(a), W(Span(q, eq))], Toks(s, p2), MissingFile);
        }
      }
    }
  }

  /** What stopped parseexec's loop, n arguments into the command, after these items. */
  ghost predicate ArgsFault(ts: seq<Tok>, items: seq<Item>, n: nat, e: Err)
  {
    match e
    case MissingFile => Fault(ts, e)
    case Syntax => ItemToks(items) < ts && ts[|ItemToks(items)|] == P('(')
    case TooManyArgs => ItemToks(items) <= ts && n + |Args(items)| == MAXARGS
    case _ => false
  }

  lemma ArgsFaultLater(pre: seq<Item>, ts: seq<Tok>, items: seq<Item>, n: nat, e: Err)
    requires ArgsFault(ts, items, n + |Args(pre)|, e)
    ensures ArgsFault(ItemToks(pre) + ts, pre + items, n, e)
  {
    ItemsApart(pre, items);
    hide ItemToks, Args, Fault;
    if e.MissingFile? {
      FaultLater(ItemToks(pre), ts, e);
    }
  }

  /** A word where an argument is expected. */
  lemma WordTok(s: string, p: nat)
    requires Line(s) && p <= |s| && Scan(s, Skip(s, p)).0.Word?
    ensures var q := Skip(s, p); var eq := Scan(s, q).1;
      q < eq && Spans(s, p, [W(Span(q, eq))], eq) && Spans(s, p, [W(Span(q, eq))], Skip(s, eq))
  {
    Head(s, p);
    var eq := Scan(s, Skip(s, p)).1;
    ToksSkip(s, eq);
    var ts := Toks(s, p);
    assert ts == [ts[0]] + ts[1..];
  }

  lemma ParenTok(s: string, p: nat)
    requires Line(s) && p <= |s| && At(s, Skip(s, p)) != '<' && At(s, Skip(s, p)) != '>'
    requires At(s, Skip(s, p)) !in "|)&;" && !Scan(s, Skip(s, p)).0.Word? && !Scan(s, Skip(s, p)).0.Eof?
    ensures Toks(s, p) != [] && Toks(s, p)[0] == P('(')
  {
    Head(s, p);
  }

  lemma TenthArg(s: string, p: nat, argv: seq<Span>)
    requires Line(s) && p <= |s| && Scan(s, Skip(s, p)).0.Word? && |argv| + 1 == MAXARGS
    ensures ArgsFault(Toks(s, p), [Arg(Span(Skip(s, p), Scan(s, Skip(s, p)).1))], |argv|, TooManyArgs)
  {
    hide Toks, Skip, Scan;
    var q := Skip(s, p);
    var w := Span(q, Scan(s, q).1);
    WordTok(s, p);
    FirstItem(Arg(w), []);
    assert [Arg(w)] + [] == [Arg(w)];
    assert ItemToks([]) == [] && Args([]) == [];
    assert [W(w)] + [] == [W(w)] && [w] + [] == [w];
  }

  /** parseexec's loop, at p with argv and rs already read, has read these items or stopped in them. */
  ghost predicate ArgsRead(s: string, p: nat, argv: seq<Span>, rs: seq<Redirection>, items: seq<Item>, r: Parsed)
    requires p <= |s|
  {
    match r
    case Ok(c, pos) =>
      && c == Wrap(Exec(argv + Args(items)), rs + Redirections(items)) && |argv| + |Args(items)| < MAXARGS
      && Spans(s, p, ItemToks(items), pos)
    case Fail(e) => ArgsFault(Toks(s, p), items, |argv|, e)
  }

  /** parseexec's loop reads items; the redirections already at p have been read. */
  lemma {:induction false} ReadArguments(s: string, p: nat, argv: seq<Span>, rs: seq<Redirection>)
    returns (items: seq<Item>)
    requires Line(s) && p <= |s| && |argv| < MAXARGS && At(s, Skip(s, p)) != '<' && At(s, Skip(s, p)) != '>'
    ensures ArgsRead(s, p, argv, rs, items, ParseArgs(s, p, argv, rs))
    decreases |s| - p
  {
    hide Skip, Scan, Toks, ParseRedirs, ArgsFault, Wrap;
    var q := Skip(s, p);
    var (tok, eq) := Scan(s, q);
    items := [];
    if At(s, q) in "|)&;" || tok.Eof? {
      SpansSkip(s, p);
      assert argv + [] == argv && rs + [] == rs;
    } else if !tok.Word? {
      ParenTok(s, p);
      ParenFault(Toks(s, p), |argv|);
    } else if |argv| + 1 >= MAXARGS {
      TenthArg(s, p, argv);
      items := [Arg(Span(q, eq))];
    } else {
      WordTok(s, p);
      var w, p2 := Span(q, eq), Skip(s, eq);
      var files := ReadRedirs(s, p2);
      var more := ParseRedirs(s, p2);
      var first := [Arg(w)] + files;
      FirstItem(Arg(w), files);
      if more.RedirsFail? {
        FaultLater([W(w)], Toks(s, p2), more.e);
        FileFault(Toks(s, p), |argv|);
      } else {
        FilesOnly(files);
        SpansJoin(s, p, [W(w)], p2, ItemToks(files), more.pos);
        var rest := ReadArguments(s, more.pos, argv + [w], rs + more.rs);
        items := first + rest;
        ItemsApart(first, rest);
        assert Args(first) == [w] && Redirections(first) == more.rs;
        ArgumentsJoin(s, p, argv, rs, w, first, more.pos, rest, ParseArgs(s, more.pos, argv + [w], rs + more.rs));
      }
    }
  }

  lemma ParenFault(ts: seq<Tok>, n: nat)
    requires ts != [] && ts[0] == P('(')
    ensures ArgsFault(ts, [], n, Syntax)
  {
    assert ts == ItemToks([]) + ts;
  }

  lemma FileFault(ts: seq<Tok>, n: nat)
    requires Fault(ts, MissingFile)
    ensures ArgsFault(ts, [], n, MissingFile)
  {
  }

  /** One argument with its redirections, then the rest of the command. */
  lemma ArgumentsJoin(s: string, p: nat, argv: seq<Span>, rs: seq<Redirection>, w: Span, first: seq<Item>, m: nat,
                      rest: seq<Item>, r: Parsed)
    requires Spans(s, p, ItemToks(first), m) && Args(first) == [w]
    requires m <= |s| && ArgsRead(s, m, argv + [w], rs + Redirections(first), rest, r)
    ensures ArgsRead(s, p, argv, rs, first + rest, r)
  {
    hide Toks, Wrap, ArgsFault;
    ItemsApart(first, rest);
    match r
    case Ok(c, pos) =>
      SpansJoin(s, p, ItemToks(first), m, ItemToks(rest), pos);
      assert argv + [w] + Args(rest) == argv + Args(first + rest);
      assert rs + Redirections(first) + Redirections(rest) == rs + Redirections(first + rest);
    case Fail(e) => ArgsFaultLater(first, Toks(s, m), rest, |argv|, e);
  }

  // ---------------------------------------------------------------- commands, pipes, lines

  ghost predicate CmdRead(s: string, p: nat, t: CmdTree, r: Parsed)
    requires p <= |s|
  {
    match r
    case Ok(c, pos) => LegalCmd(t) && CmdOf(t) == c && Spans(s, p, CmdToks(t), pos)
    case Fail(e) => Fault(Toks(s, p), e)
  }

  ghost predicate PipeRead(s: string, p: nat, t: PipeTree, r: Parsed)
    requires p <= |s|
  {
    match r
    case Ok(c, pos) => LegalPipe(t) && PipeOf(t) == c && Spans(s, p, PipeToks(t), pos)
    case Fail(e) => Fault(Toks(s, p), e)
  }

  ghost predicate LineRead(s: string, p: nat, t: LineTree, r: Parsed)
    requires p <= |s|
  {
    match r
    case Ok(c, pos) => LegalLine(t) && LineOf(t) == c && Spans(s, p, LineToks(t), pos)
    case Fail(e) => Fault(Toks(s, p), e)
  }

  /** A fault after some tokens that were read. */
  lemma FaultAfter(s: string, p: nat, text: seq<Tok>, m: nat, e: Err)
    requires Spans(s, p, text, m) && Fault(Toks(s, m), e)
    ensures Fault(Toks(s, p), e)
  {
    FaultLater(text, Toks(s, m), e);
  }

  lemma Unclosed(s: string, p: nat, l: LineTree, m: nat)
    requires Line(s) && LegalLine(l) && Spans(s, p, [P('(')] + LineToks(l), m) && At(s, Skip(s, m)) != ')'
    ensures Fault(Toks(s, p), MissingParen)
  {
    Head(s, m);
    hide Toks, Skip, Scan, LineToks;
    var text := [P('(')] + LineToks(l);
    assert text <= Toks(s, p) && !(text < Toks(s, p) && Toks(s, p)[|text|] == P(')'));
    assert FaultHere(Toks(s, p), MissingParen);
    FaultNow(Toks(s, p), MissingParen);
  }

  lemma {:induction false} ReadBlock(s: string, p: nat) returns (t: CmdTree)
    requires Line(s) && p < |s| && s[p] == '('
    ensures CmdRead(s, p, t, ParseBlock(s, p))
    decreases |s| - p, 0
  {
    hide Skip, Scan, Toks, ParseLine, ParseRedirs, Fault, Wrap, LineToks, LineOf, LegalLine;
    NoSkip(s, p);
    SpansSymbol(s, p, '(');
    var p1 := Skip(s, p + 1);
    var l := ReadLine(s, p1);
    var inner := ParseLine(s, p1);
    t := Block(l, []);
    if inner.Fail? {
      FaultAfter(s, p, [P('(')], p1, inner.e);
    } else {
      SpansJoin(s, p, [P('(')], p1, LineToks(l), inner.pos);
      var p2 := Skip(s, inner.pos);
      if At(s, p2) != ')' {
        Unclosed(s, p, l, inner.pos);
      } else {
        SpansSymbol(s, inner.pos, ')');
        var p3 := Skip(s, p2 + 1);
        SpansJoin(s, p, [P('(')] + LineToks(l), inner.pos, [P(')')], p3);
        var files := ReadRedirs(s, p3);
        var more := ParseRedirs(s, p3);
        if more.RedirsFail? {
          FaultAfter(s, p, [P('(')] + LineToks(l) + [P(')')], p3, more.e);
        } else {
          SpansJoin(s, p, [P('(')] + LineToks(l) + [P(')')], p3, ItemToks(files), more.pos);
          t := Block(l, files);
        }
      }
    }
  }

  /** What stopped a command that does not begin with a parenthesis. */
  lemma CommandFault(s: string, p: nat, items: seq<Item>, e: Err)
    requires Line(s) && p <= |s| && At(s, Skip(s, p)) != '(' && ArgsFault(Toks(s, p), items, 0, e)
    ensures Fault(Toks(s, p), e)
  {
    Head(s, p);
    hide Toks, Skip, Scan;
    var ts := Toks(s, p);
    if !e.MissingFile? {
      assert items == [] ==> ItemToks(items) == [];
      assert FaultHere(ts, e);
      FaultNow(ts, e);
    }
  }

  lemma {:induction false} ReadExec(s: string, p: nat) returns (t: CmdTree)
    requires Line(s) && p <= |s|
    ensures CmdRead(s, p, t, ParseExec(s, p))
    decreases |s| - p, 1
  {
    hide Skip, Scan, Toks, ParseBlock, ParseRedirs, ParseArgs, Fault, Wrap, ArgsFault;
    var p1 := Skip(s, p);
    SpansSkip(s, p);
    if At(s, p1) == '(' {
      t := ReadBlock(s, p1);
      CmdFrom(s, p, p1, t, ParseBlock(s, p1));
    } else {
      var files := ReadRedirs(s, p1);
      var first := ParseRedirs(s, p1);
      t := Simple(files);
      if first.RedirsFail? {
        FaultAfter(s, p, [], p1, first.e);
      } else {
        var rest := ReadArguments(s, first.pos, [], first.rs);
        t := Simple(files + rest);
        FilesOnly(files);
        SimpleRead(s, p1, files, first.pos, rest, ParseArgs(s, first.pos, [], first.rs));
        CmdFrom(s, p, p1, t, ParseArgs(s, first.pos, [], first.rs));
      }
    }
  }

  lemma CmdFrom(s: string, p: nat, p1: nat, t: CmdTree, r: Parsed)
    requires Spans(s, p, [], p1) && CmdRead(s, p1, t, r)
    ensures CmdRead(s, p, t, r)
  {
    hide Toks, CmdToks, CmdOf, LegalCmd, Fault;
    match r
    case Ok(c, pos) =>
      SpansJoin(s, p, [], p1, CmdToks(t), pos);
      assert [] + CmdToks(t) == CmdToks(t);
    case Fail(e) => FaultAfter(s, p, [], p1, e);
  }

  /** The redirections before the first argument, then the rest of the command. */
  lemma SimpleRead(s: string, p: nat, files: seq<Item>, m: nat, rest: seq<Item>, r: Parsed)
    requires Line(s) && p <= |s| && Skip(s, p) == p && At(s, p) != '(' && Args(files) == []
    requires Spans(s, p, ItemToks(files), m) && ArgsRead(s, m, [], Redirections(files), rest, r)
    ensures CmdRead(s, p, Simple(files + rest), r)
  {
    hide Toks, Skip, Wrap, ArgsFault, Fault, ItemToks, Args, Redirections;
    ItemsApart(files, rest);
    match r
    case Ok(c, pos) =>
      SpansJoin(s, p, ItemToks(files), m, ItemToks(rest), pos);
      assert [] + Args(rest) == Args(rest);
    case Fail(e) =>
      ArgsFaultLater(files, Toks(s, m), rest, 0, e);
      CommandFault(s, p, files + rest, e);
  }

  lemma {:induction false} ReadPipe(s: string, p: nat) returns (t: PipeTree)
    requires Line(s) && p <= |s|
    ensures PipeRead(s, p, t, ParsePipe(s, p))
    decreases |s| - p, 2
  {
    hide Skip, Scan, Toks, ParseExec, Fault, CmdToks, CmdOf, LegalCmd;
    var c := ReadExec(s, p);
    var left := ParseExec(s, p);
    t := One(c);
    if left.Ok? {
      var p1 := Skip(s, left.pos);
      if At(s, p1) != '|' {
        SpansSkip(s, left.pos);
        SpansJoin(s, p, CmdToks(c), left.pos, [], p1);
        assert CmdToks(c) + [] == CmdToks(c);
      } else {
        SpansSymbol(s, left.pos, '|');
        var p2 := Skip(s, p1 + 1);
        SpansJoin(s, p, CmdToks(c), left.pos, [P('|')], p2);
        var more := ReadPipe(s, p2);
        t := Join(c, more);
        JoinRead(s, p, c, p2, more, ParsePipe(s, p2));
      }
    }
  }

  lemma JoinRead(s: string, p: nat, c: CmdTree, m: nat, more: PipeTree, r: Parsed)
    requires LegalCmd(c) && Spans(s, p, CmdToks(c) + [P('|')], m) && PipeRead(s, m, more, r)
    ensures PipeRead(s, p, Join(c, more), if r.Ok? then Ok(Pipe(CmdOf(c), r.cmd), r.pos) else r)
  {
    hide Toks, Fault, CmdToks, CmdOf, LegalCmd;
    match r
    case Ok(_, pos) => SpansJoin(s, p, CmdToks(c) + [P('|')], m, PipeToks(more), pos);
    case Fail(e) => FaultAfter(s, p, CmdToks(c) + [P('|')], m, e);
  }

  lemma {:induction false} ReadBacks(s: string, p: nat, c: Cmd) returns (n: nat)
    requires Line(s) && p <= |s|
    ensures var r := ParseBacks(s, p, c); r.0 == Behind(c, n) && Spans(s, p, Backs(n), r.1) && Skip(s, r.1) == r.1
    decreases |s| - p
  {
    hide Skip, Scan, Toks;
    var p1 := Skip(s, p);
    if At(s, p1) == '&' {
      SpansSymbol(s, p, '&');
      var p2 := Skip(s, p1 + 1);
      var m := ReadBacks(s, p2, Back(c));
      n := m + 1;
      SpansJoin(s, p, [P('&')], p2, Backs(m), ParseBacks(s, p2, Back(c)).1);
    } else {
      n := 0;
      SpansSkip(s, p);
      SkipSkip(s, p);
    }
  }

  lemma {:induction false} ReadLine(s: string, p: nat) returns (t: LineTree)
    requires Line(s) && p <= |s|
    ensures LineRead(s, p, t, ParseLine(s, p))
    decreases |s| - p, 3
  {
    hide Skip, Scan, Toks, ParsePipe, ParseBacks, Fault, PipeToks, PipeOf, LegalPipe, Behind, Backs;
    var pipe := ReadPipe(s, p);
    var first := ParsePipe(s, p);
    t := Last(pipe, 0);
    if first.Ok? {
      var n := ReadBacks(s, first.pos, first.cmd);
      var (c, p1) := ParseBacks(s, first.pos, first.cmd);
      SpansJoin(s, p, PipeToks(pipe), first.pos, Backs(n), p1);
      t := Last(pipe, n);
      if At(s, p1) == ';' {
        SpansSymbol(s, p1, ';');
        var p2 := Skip(s, p1 + 1);
        SpansJoin(s, p, PipeToks(pipe) + Backs(n), p1, [P(';')], p2);
        var more := ReadLine(s, p2);
        t := Then(pipe, n, more);
        ThenRead(s, p, pipe, n, p2, more, ParseLine(s, p2));
      }
    }
  }

  lemma ThenRead(s: string, p: nat, pipe: PipeTree, n: nat, m: nat, more: LineTree, r: Parsed)
    requires LegalPipe(pipe) && Spans(s, p, PipeToks(pipe) + Backs(n) + [P(';')], m) && LineRead(s, m, more, r)
    ensures LineRead(s, p, Then(pipe, n, more),
                     if r.Ok? then Ok(List(Behind(PipeOf(pipe), n), r.cmd), r.pos) else r)
  {
    hide Toks, Fault, PipeToks, PipeOf, LegalPipe, Behind, Backs;
    match r
    case Ok(_, pos) => SpansJoin(s, p, PipeToks(pipe) + Backs(n) + [P(';')], m, LineToks(more), pos);
    case Fail(e) => FaultAfter(s, p, PipeToks(pipe) + Backs(n) + [P(';')], m, e);
  }
}
