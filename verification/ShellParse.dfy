/** The parser of sh.c as it runs: a cursor that each procedure advances, proved to compute the grammar. */
module ShellParse {
  import opened ShellSyntax

  /** A panic ends the shell's child; otherwise the procedure returns. */
  datatype Outcome<T> = Done(value: T) | Panic(e: Err)

  /** Returning r with the cursor at p is what the grammar says. */
  predicate Is(want: Parsed, r: Outcome<Cmd>, p: nat)
  {
    match want
    case Ok(c, pos) => r == Done(c) && p == pos
    case Fail(e) => r == Panic(e)
  }

  /** The redirections still to come complete the ones already read. */
  predicate Continues(want: Redirs, done: seq<Redirection>, rest: Redirs)
  {
    match rest
    case RedirsOk(rs, pos) => want == RedirsOk(done + rs, pos)
    case RedirsFail(e) => want == RedirsFail(e)
  }

  // ---------------------------------------------------------------- one turn of each loop

  lemma FromNothing(want: Redirs)
    ensures Continues(want, [], want)
  {
    assert want.RedirsOk? ==> [] + want.rs == want.rs;
  }

  lemma RedirsTurn(s: string, p: nat, want: Redirs, done: seq<Redirection>)
    requires p <= |s| && Skip(s, p) == p && (At(s, p) == '<' || At(s, p) == '>')
    requires Continues(want, done, ParseRedirs(s, p))
    ensures var (tok, e1) := Scan(s, p); var q := Skip(s, e1); var (tok2, eq) := Scan(s, q);
      if !tok2.Word? then want == RedirsFail(MissingFile)
      else
        var one := Redirection(Span(q, eq), if tok == Punct('<') then In else Out);
        Continues(want, done + [one], ParseRedirs(s, Skip(s, eq)))
  {
    hide Skip, Scan;
    var (tok, e1) := Scan(s, p);
    var q := Skip(s, e1);
    var (tok2, eq) := Scan(s, q);
    if tok2.Word? {
      var one := [Redirection(Span(q, eq), if tok == Punct('<') then In else Out)];
      var rest := ParseRedirs(s, Skip(s, eq));
      if rest.RedirsOk? {
        assert done + (one + rest.rs) == (done + one) + rest.rs;
      }
    }
  }

  lemma ArgsTurn(s: string, p: nat, argv: seq<Span>, rs: seq<Redirection>)
    requires p <= |s| && Skip(s, p) == p
    ensures var (tok, eq) := Scan(s, p); var want := ParseArgs(s, p, argv, rs);
      if At(s, p) in "|)&;" || tok.Eof? then want == Ok(Wrap(Exec(argv), rs), p)
      else if !tok.Word? then want == Fail(Syntax)
      else if |argv| + 1 >= MAXARGS then want == Fail(TooManyArgs)
      else
        var more := ParseRedirs(s, Skip(s, eq));
        if more.RedirsFail? then want == Fail(more.e)
        else want == ParseArgs(s, more.pos, argv + [Span(p, eq)], rs + more.rs)
  {
    hide Skip, Scan, ParseRedirs;
  }

  /** The token at a symbol that is not an arrow. */
  lemma ScanSymbol(s: string, p: nat)
    requires p < |s| && s[p] in "|()&;"
    ensures Skip(s, p) == p && Scan(s, p) == (Punct(s[p]), p + 1)
  {
  }

  lemma BacksTurn(s: string, p: nat, c: Cmd)
    requires p <= |s| && Skip(s, p) == p
    ensures if At(s, p) == '&' then ParseBacks(s, p, c) == ParseBacks(s, p + 1, Back(c))
            else ParseBacks(s, p, c) == (c, p)
  {
    if At(s, p) == '&' {
      SkipBacks(s, p + 1, Back(c));
    }
  }

  lemma {:induction false} BacksSkip(s: string, p: nat, c: Cmd)
    requires p <= |s|
    ensures var p1 := ParseBacks(s, p, c).1; Skip(s, p1) == p1
    decreases |s| - p
  {
    hide Skip;
    SkipSkip(s, p);
    var p1 := Skip(s, p);
    if At(s, p1) == '&' {
      BacksSkip(s, Skip(s, p1 + 1), Back(c));
    }
  }

  class Parser {
    const line: string
    var ps: nat

    constructor (s: string)
      ensures line == s && ps == 0
    {
      line, ps := s, 0;
    }

    ghost predicate Valid()
      reads this
    {
      Line(line) && ps <= |line|
    }

    method SkipSpace()
      requires Valid()
      modifies this
      ensures Valid() && ps == Skip(line, old(ps))
    {
      while ps < |line| && Space(line[ps])
        invariant old(ps) <= ps <= |line| && Skip(line, ps) == Skip(line, old(ps))
      {
        ps := ps + 1;
      }
    }

    method GetToken() returns (tok: Token, q: nat, eq: nat)
      requires Valid()
      modifies this
      ensures q == Skip(line, old(ps)) && (tok, eq) == Scan(line, q)
      ensures Valid() && ps == Skip(line, eq)
      ensures Blanks(line, old(ps), q) && TokenIs(line, q, tok, eq) && Blanks(line, eq, ps)
    {
      SkipSpace();
      q := ps;
      ScanIs(line, q);
      var c := At(line, ps);
      if c == NUL {
        tok := Eof;
      } else if c == '>' {
        ps := ps + 1;
        tok := Punct('>');
        if At(line, ps) == '>' {
          tok := Append;
          ps := ps + 1;
        }
      } else if Symbol(c) {
        ps := ps + 1;
        tok := Punct(c);
      } else {
        tok := Word;
        while ps < |line| && !Space(line[ps]) && !Symbol(line[ps])
          invariant q <= ps <= |line| && WordEnd(line, ps) == WordEnd(line, q)
        {
          ps := ps + 1;
        }
      }
      eq := ps;
      SkipSpace();
    }

    method Peek(toks: string) returns (found: bool)
      requires Valid()
      modifies this
      ensures Valid() && ps == Skip(line, old(ps))
      ensures found <==> At(line, ps) != NUL && At(line, ps) in toks
    {
      SkipSpace();
      found := At(line, ps) != NUL && At(line, ps) in toks;
    }

    method Redirs() returns (r: Outcome<seq<Redirection>>)
      requires Valid()
      modifies this
      ensures Valid()
      ensures match ShellSyntax.ParseRedirs(line, old(ps))
        case RedirsOk(rs, pos) => r == Done(rs) && ps == pos
        case RedirsFail(e) => r == Panic(e)
    {
      hide Skip, Scan, ParseRedirs, TokenIs, Blanks;
      var done: seq<Redirection> := [];
      SkipRedirs(line, ps);
      SkipSkip(line, ps);
      var more := Peek("<>");
      assert Continues(ParseRedirs(line, ps), done, ParseRedirs(line, ps)) by { FromNothing(ParseRedirs(line, ps)); }
      while more
        invariant Valid() && ps == Skip(line, ps)
        invariant more <==> At(line, ps) == '<' || At(line, ps) == '>'
        invariant Continues(ParseRedirs(line, old(ps)), done, ParseRedirs(line, ps))
        decreases |line| - ps
      {
        RedirsTurn(line, ps, ParseRedirs(line, old(ps)), done);
        var tok, _, e1 := GetToken();
        SkipSkip(line, e1);
        var tok2, q, eq := GetToken();
        if !tok2.Word? {
          return Panic(MissingFile);
        }
        SkipSkip(line, eq);
        var mode := if tok == Punct('<') then In else Out;
        done := done + [Redirection(Span(q, eq), mode)];
        more := Peek("<>");
      }
      NoRedirs(line, ps);
      assert done + [] == done;
      r := Done(done);
    }

    method Exec() returns (r: Outcome<Cmd>)
      requires Valid()
      modifies this
      ensures Valid() && Is(ParseExec(line, old(ps)), r, ps)
      decreases |line| - ps, 1
    {
      hide Skip, Scan, ParseRedirs, ParseArgs, ParseBlock;
      SkipSkip(line, ps);
      var block := Peek("(");
      if block {
        r := Block();
        return;
      }
      var first := Redirs();
      if first.Panic? {
        return Panic(first.e);
      }
      r := Arguments(first.value);
    }

    /** The loop of parseexec; the redirections are put around the command once its arguments are known. */
    method Arguments(first: seq<Redirection>) returns (r: Outcome<Cmd>)
      requires Valid()
      modifies this
      ensures Valid() && Is(ParseArgs(line, old(ps), [], first), r, ps)
    {
      hide Skip, Scan, ParseRedirs, ParseArgs, Wrap, Line, TokenIs, Blanks;
      ghost var want := ParseArgs(line, ps, [], first);
      var argv: seq<Span>, rs := [], first;
      SkipSkip(line, ps);
      SkipArgs(line, ps, Skip(line, ps), argv, rs);
      var stop := Peek("|)&;");
      while !stop
        invariant Valid() && ps == Skip(line, ps)
        invariant stop <==> At(line, ps) in "|)&;"
        invariant want == ParseArgs(line, ps, argv, rs)
        decreases |line| - ps
      {
        ArgsTurn(line, ps, argv, rs);
        SkipSkip(line, ps);
        var tok, q, eq := GetToken();
        SkipRedirs(line, eq);
        if tok.Eof? {
          return Done(Wrap(Cmd.Exec(argv), rs));
        }
        if !tok.Word? {
          return Panic(Syntax);
        }
        argv := argv + [Span(q, eq)];
        if |argv| >= MAXARGS {
          return Panic(TooManyArgs);
        }
        var more := Redirs();
        if more.Panic? {
          return Panic(more.e);
        }
        rs := rs + more.value;
        SkipSkip(line, ps);
        SkipArgs(line, ps, Skip(line, ps), argv, rs);
        stop := Peek("|)&;");
      }
      ArgsTurn(line, ps, argv, rs);
      r := Done(Wrap(Cmd.Exec(argv), rs));
    }

    method Block() returns (r: Outcome<Cmd>)
      requires Valid()
      modifies this
      ensures Valid()
      ensures var p := Skip(line, old(ps));
        if At(line, p) == '(' then Is(ParseBlock(line, p), r, ps) else r == Panic(NoBlock)
      decreases |line| - ps, 0
    {
      hide Skip, Scan, ParseLine, ParseRedirs, Wrap, TokenIs, Blanks;
      var open := Peek("(");
      if !open {
        return Panic(NoBlock);
      }
      ScanSymbol(line, ps);
      var _, _, _ := GetToken();
      var inner := CommandLine();
      if inner.Panic? {
        return inner;
      }
      var close := Peek(")");
      if !close {
        return Panic(MissingParen);
      }
      ScanSymbol(line, ps);
      var _, _, _ := GetToken();
      var more := Redirs();
      if more.Panic? {
        return Panic(more.e);
      }
      r := Done(Wrap(inner.value, more.value));
    }

    method Pipeline() returns (r: Outcome<Cmd>)
      requires Valid()
      modifies this
      ensures Valid() && Is(ParsePipe(line, old(ps)), r, ps)
      decreases |line| - ps, 2
    {
      hide Skip, Scan, ParseExec, TokenIs, Blanks;
      SkipSkip(line, ps);
      r := Exec();
      if r.Panic? {
        return;
      }
      var more := Peek("|");
      if more {
        ScanSymbol(line, ps);
        var _, _, _ := GetToken();
        var right := Pipeline();
        if right.Panic? {
          return right;
        }
        r := Done(Pipe(r.value, right.value));
      }
    }

    /** parseline's loop over `&`. */
    method Background(cmd: Cmd) returns (c: Cmd)
      requires Valid()
      modifies this
      ensures Valid() && (c, ps) == ParseBacks(line, old(ps), cmd)
    {
      hide Skip, Scan, ParseBacks, TokenIs, Blanks, Line;
      c := cmd;
      SkipBacks(line, ps, c);
      SkipSkip(line, ps);
      var back := Peek("&");
      while back
        invariant Valid() && ps == Skip(line, ps)
        invariant back <==> At(line, ps) == '&'
        invariant ParseBacks(line, old(ps), cmd) == ParseBacks(line, ps, c)
        decreases |line| - ps
      {
        BacksTurn(line, ps, c);
        ScanSymbol(line, ps);
        var _, _, eq := GetToken();
        c := Back(c);
        SkipSkip(line, eq);
        SkipBacks(line, eq, c);
        back := Peek("&");
      }
      BacksTurn(line, ps, c);
    }

    method CommandLine() returns (r: Outcome<Cmd>)
      requires Valid()
      modifies this
      ensures Valid() && Is(ParseLine(line, old(ps)), r, ps)
      decreases |line| - ps, 3
    {
      hide Skip, Scan, ParsePipe, ParseBacks, TokenIs, Blanks, Line;
      r := Pipeline();
      if r.Panic? {
        return;
      }
      var c := Background(r.value);
      BacksSkip(line, ParsePipe(line, old(ps)).pos, r.value);
      var semi := Peek(";");
      if semi {
        ScanSymbol(line, ps);
        var _, _, _ := GetToken();
        var rest := CommandLine();
        if rest.Panic? {
          return rest;
        }
        c := List(c, rest.value);
      }
      r := Done(c);
    }

    /** parsecmd, up to nulterminate. */
    method Command() returns (r: Outcome<Cmd>)
      requires Valid() && ps == 0
      modifies this
      ensures match ParseCmd(line) case Ok(c, _) => r == Done(c) case Fail(e) => r == Panic(e)
    {
      r := CommandLine();
      if r.Panic? {
        return;
      }
      var _ := Peek("");
      if ps != |line| {
        return Panic(Leftovers);
      }
    }
  }
}
