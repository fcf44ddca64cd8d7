/** The grammar of sh.c: tokens and the recursive-descent parser, as functions of the command line. */
module ShellSyntax {

  const MAXARGS := 10
  const NUL := '\U{0}'

  /** `whitespace` and `symbols` of sh.c. */
  predicate Space(c: char) { c == ' ' || c == '\t' || c == '\r' || c == '\n' || c == '\U{b}' }
  predicate Symbol(c: char) { c == '<' || c == '|' || c == '>' || c == '&' || c == ';' || c == '(' || c == ')' }
  predicate WordChar(c: char) { !Space(c) && !Symbol(c) && c != NUL }

  /** A line as parsecmd sees it: strlen stops at the first NUL. */
  predicate Line(s: string) { forall i :: 0 <= i < |s| ==> s[i] != NUL }

  /** The character at p, with the terminating NUL after the last. */
  function At(s: string, p: nat): char { if p < |s| then s[p] else NUL }

  // ---------------------------------------------------------------- commands

  /** A token: the interval q..eq of the line. */
  datatype Span = Span(q: nat, eq: nat)

  /** O_RDONLY on descriptor 0, or O_WRONLY|O_CREATE on descriptor 1 (`>>` included). */
  datatype Mode = In | Out

  datatype Redirection = Redirection(file: Span, mode: Mode)

  datatype Cmd =
    | Exec(argv: seq<Span>)
    | Redir(cmd: Cmd, file: Span, mode: Mode)
    | Pipe(left: Cmd, right: Cmd)
    | List(left: Cmd, right: Cmd)
    | Back(cmd: Cmd)

  /** The redirections, first one innermost. */
  function Wrap(c: Cmd, rs: seq<Redirection>): (r: Cmd)
  {
    if rs == [] then c else Redir(Wrap(c, rs[..|rs| - 1]), rs[|rs| - 1].file, rs[|rs| - 1].mode)
  }

  // ---------------------------------------------------------------- tokens

  function Skip(s: string, p: nat): (r: nat)
    requires p <= |s|
    ensures p <= r <= |s| && (r < |s| ==> !Space(s[r]))
    ensures forall i :: p <= i < r ==> Space(s[i])
    decreases |s| - p
  {
    if p < |s| && Space(s[p]) then Skip(s, p + 1) else p
  }

  function WordEnd(s: string, p: nat): (r: nat)
    requires p <= |s|
    ensures p <= r <= |s| && (r < |s| ==> Space(s[r]) || Symbol(s[r]))
    ensures forall i :: p <= i < r ==> !Space(s[i]) && !Symbol(s[i])
    decreases |s| - p
  {
    if p < |s| && !Space(s[p]) && !Symbol(s[p]) then WordEnd(s, p + 1) else p
  }

  lemma SkipSkip(s: string, p: nat)
    requires p <= |s|
    ensures Skip(s, Skip(s, p)) == Skip(s, p)
  {
  }

  datatype Token = Eof | Punct(c: char) | Append | Word

  /** What gettoken returns, and where the token ends, when it starts at p. */
  function Scan(s: string, p: nat): (r: (Token, nat))
    requires p <= |s|
    ensures p <= r.1 <= |s| && (r.0.Eof? <==> p == |s| || s[p] == NUL) && (!r.0.Eof? ==> !Space(s[p]) ==> p < r.1)
    ensures r.0.Eof? ==> r.1 == p
  {
    var c := At(s, p);
    if c == NUL then (Eof, p)
    else if c == '>' then if At(s, p + 1) == '>' then (Append, p + 2) else (Punct('>'), p + 1)
    else if Symbol(c) then (Punct(c), p + 1)
    else (Word, WordEnd(s, p))
  }

  /** The blanks from p on end at q. */
  predicate Blanks(s: string, p: nat, q: nat)
  {
    p <= q <= |s| && (forall i :: p <= i < q ==> Space(s[i])) && (q < |s| ==> !Space(s[q]))
  }

  /** Each token by its characters: `>>` and only that is Append, a symbol is itself, anything else is a word, up to
      the next blank or symbol. */
  predicate TokenIs(s: string, p: nat, tok: Token, e: nat)
    requires p <= |s|
  {
    && (tok.Eof? <==> p == |s|) && (tok.Eof? ==> e == p)
    && (tok.Append? <==> p + 1 < |s| && s[p] == '>' && s[p + 1] == '>') && (tok.Append? ==> e == p + 2)
    && (tok == Punct('>') <==> p < |s| && s[p] == '>' && !(p + 1 < |s| && s[p + 1] == '>'))
    && (forall c :: c in "<|&;()" ==> (tok == Punct(c) <==> p < |s| && s[p] == c))
    && (tok.Punct? ==> tok.c in "<|>&;()" && e == p + 1)
    && (tok.Word? <==> p < |s| && s[p] !in "<|>&;()")
    && (tok.Word? ==>
          && p < e <= |s| && (e < |s| ==> Space(s[e]) || s[e] in "<|>&;()")
          && forall i :: p <= i < e ==> !Space(s[i]) && s[i] !in "<|>&;()")
  }

  lemma ScanIs(s: string, p: nat)
    requires Line(s) && p <= |s| && (p < |s| ==> !Space(s[p]))
    ensures TokenIs(s, p, Scan(s, p).0, Scan(s, p).1)
  {
  }

  // ---------------------------------------------------------------- the parser

  datatype Err = MissingFile | MissingParen | NoBlock | Syntax | TooManyArgs | Leftovers

  datatype Redirs = RedirsOk(rs: seq<Redirection>, pos: nat) | RedirsFail(e: Err)

  datatype Parsed = Ok(cmd: Cmd, pos: nat) | Fail(e: Err)

  function ParseRedirs(s: string, p: nat): (r: Redirs)
    requires p <= |s|
    ensures r.RedirsOk? ==> p <= r.pos <= |s|
    decreases |s| - p
  {
    var p1 := Skip(s, p);
    if At(s, p1) != '<' && At(s, p1) != '>' then RedirsOk([], p1)
    else
      var (tok, e1) := Scan(s, p1);
      var q := Skip(s, e1);
      var (tok2, eq) := Scan(s, q);
      if !tok2.Word? then RedirsFail(MissingFile)
      else
        var rest := ParseRedirs(s, Skip(s, eq));
        if rest.RedirsFail? then rest
        else RedirsOk([Redirection(Span(q, eq), if tok == Punct('<') then In else Out)] + rest.rs, rest.pos)
  }

  /** parseexec's loop, after argv.. have been collected inside the redirections rs. */
  function ParseArgs(s: string, p: nat, argv: seq<Span>, rs: seq<Redirection>): (r: Parsed)
    requires p <= |s|
    ensures r.Ok? ==> p <= r.pos <= |s|
    decreases |s| - p
  {
    var q := Skip(s, p);
    var c := At(s, q);
    if c == '|' || c == ')' || c == '&' || c == ';' then Ok(Wrap(Exec(argv), rs), q)
    else
      var (tok, eq) := Scan(s, q);
      if tok.Eof? then Ok(Wrap(Exec(argv), rs), q)
      else if !tok.Word? then Fail(Syntax)
      else if |argv| + 1 >= MAXARGS then Fail(TooManyArgs)
      else
        var more := ParseRedirs(s, Skip(s, eq));
        if more.RedirsFail? then Fail(more.e)
        else ParseArgs(s, more.pos, argv + [Span(q, eq)], rs + more.rs)
  }

  function ParseBlock(s: string, p: nat): (r: Parsed)
    requires p < |s|
    ensures r.Ok? ==> p <= r.pos <= |s|
    decreases |s| - p, 0
  {
    var inner := ParseLine(s, Skip(s, p + 1));
    if inner.Fail? then inner
    else
      var p2 := Skip(s, inner.pos);
      if At(s, p2) != ')' then Fail(MissingParen)
      else
        var more := ParseRedirs(s, Skip(s, p2 + 1));
        if more.RedirsFail? then Fail(more.e) else Ok(Wrap(inner.cmd, more.rs), more.pos)
  }

  function ParseExec(s: string, p: nat): (r: Parsed)
    requires p <= |s|
    ensures r.Ok? ==> p <= r.pos <= |s|
    decreases |s| - p, 1
  {
    var p1 := Skip(s, p);
    if At(s, p1) == '(' then ParseBlock(s, p1)
    else
      var first := ParseRedirs(s, p1);
      if first.RedirsFail? then Fail(first.e) else ParseArgs(s, first.pos, [], first.rs)
  }

  function ParsePipe(s: string, p: nat): (r: Parsed)
    requires p <= |s|
    ensures r.Ok? ==> p <= r.pos <= |s|
    decreases |s| - p, 2
  {
    var left := ParseExec(s, p);
    if left.Fail? then left
    else
      var p1 := Skip(s, left.pos);
      if At(s, p1) != '|' then Ok(left.cmd, p1)
      else
        var right := ParsePipe(s, Skip(s, p1 + 1));
        if right.Fail? then right else Ok(Pipe(left.cmd, right.cmd), right.pos)
  }

  /** parseline's loop over `&`. */
  function ParseBacks(s: string, p: nat, c: Cmd): (r: (Cmd, nat))
    requires p <= |s|
    ensures p <= r.1 <= |s|
    decreases |s| - p
  {
    var p1 := Skip(s, p);
    if At(s, p1) == '&' then ParseBacks(s, Skip(s, p1 + 1), Back(c)) else (c, p1)
  }

  function ParseLine(s: string, p: nat): (r: Parsed)
    requires p <= |s|
    ensures r.Ok? ==> p <= r.pos <= |s|
    decreases |s| - p, 3
  {
    var first := ParsePipe(s, p);
    if first.Fail? then first
    else
      var (c, p1) := ParseBacks(s, first.pos, first.cmd);
      if At(s, p1) != ';' then Ok(c, p1)
      else
        var rest := ParseLine(s, Skip(s, p1 + 1));
        if rest.Fail? then rest else Ok(List(c, rest.cmd), rest.pos)
  }

  /** parsecmd, up to nulterminate. */
  function ParseCmd(s: string): (r: Parsed)
  {
    var line := ParseLine(s, 0);
    if line.Fail? then line
    else if Skip(s, line.pos) != |s| then Fail(Leftovers)
    else line
  }

  // ---------------------------------------------------------------- leading blanks do not matter

  /** A character that is not a space is not skipped. */
  lemma NoSkip(s: string, p: nat)
    requires p <= |s| && (p < |s| ==> !Space(s[p]))
    ensures Skip(s, p) == p
  {
  }

  lemma SkipRedirs(s: string, p: nat)
    requires p <= |s|
    ensures ParseRedirs(s, Skip(s, p)) == ParseRedirs(s, p)
  {
    SkipSkip(s, p);
    hide Skip, Scan;
  }

  lemma SkipExec(s: string, p: nat)
    requires p <= |s|
    ensures ParseExec(s, Skip(s, p)) == ParseExec(s, p)
  {
    SkipSkip(s, p);
    hide Skip, ParseBlock, ParseRedirs, ParseArgs;
  }

  lemma SkipLine(s: string, p: nat)
    requires p <= |s|
    ensures ParsePipe(s, Skip(s, p)) == ParsePipe(s, p)
    ensures ParseLine(s, Skip(s, p)) == ParseLine(s, p)
  {
    hide Skip, ParsePipe, ParseBacks;
    SkipPipe(s, p);
  }

  lemma SkipPipe(s: string, p: nat)
    requires p <= |s|
    ensures ParsePipe(s, Skip(s, p)) == ParsePipe(s, p)
  {
    hide Skip, ParseExec, ParseLine;
    SkipExec(s, p);
  }

  lemma SkipArgs(s: string, p: nat, p': nat, argv: seq<Span>, rs: seq<Redirection>)
    requires p <= |s| && p' <= |s| && Skip(s, p) == Skip(s, p')
    ensures ParseArgs(s, p, argv, rs) == ParseArgs(s, p', argv, rs)
  {
  }

  lemma SkipBacks(s: string, p: nat, c: Cmd)
    requires p <= |s|
    ensures ParseBacks(s, Skip(s, p), c) == ParseBacks(s, p, c)
  {
    NoSkip(s, Skip(s, p));
  }

  lemma NoRedirs(s: string, p: nat)
    requires p <= |s| && Skip(s, p) == p && At(s, p) != '<' && At(s, p) != '>'
    ensures ParseRedirs(s, p) == RedirsOk([], p)
  {
  }
}
