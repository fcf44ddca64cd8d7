/** nulterminate of sh.c: after it, every argument and file name in the line buffer reads back as its token. */
module ShellBuffer {
  import opened ShellSyntax

  /** A token made of word characters and followed by none. */
  predicate IsWord(s: string, w: Span)
  {
    && w.q < w.eq <= |s|
    && (forall i :: w.q <= i < w.eq ==> WordChar(s[i]))
    && (w.eq < |s| ==> !WordChar(s[w.eq]))
  }

  predicate AllWords(s: string, ws: seq<Span>) { forall i :: 0 <= i < |ws| ==> IsWord(s, ws[i]) }

  predicate AllFiles(s: string, rs: seq<Redirection>) { forall i :: 0 <= i < |rs| ==> IsWord(s, rs[i].file) }

  /** Every token of the command is a word of the line, and no command has more than nine arguments. */
  predicate WordsOf(s: string, c: Cmd)
  {
    match c
    case Exec(argv) => |argv| < MAXARGS && AllWords(s, argv)
    case Redir(c1, file, _) => WordsOf(s, c1) && IsWord(s, file)
    case Pipe(l, r) => WordsOf(s, l) && WordsOf(s, r)
    case List(l, r) => WordsOf(s, l) && WordsOf(s, r)
    case Back(c1) => WordsOf(s, c1)
  }

  // ---------------------------------------------------------------- the parser yields words

  lemma ScanWord(s: string, p: nat)
    requires Line(s) && p <= |s| && Skip(s, p) == p && Scan(s, p).0.Word?
    ensures IsWord(s, Span(p, Scan(s, p).1))
  {
  }

  lemma {:induction false} RedirsWords(s: string, p: nat)
    requires Line(s) && p <= |s|
    ensures ParseRedirs(s, p).RedirsOk? ==> AllFiles(s, ParseRedirs(s, p).rs)
    decreases |s| - p
  {
    var p1 := Skip(s, p);
    if At(s, p1) == '<' || At(s, p1) == '>' {
      var e1 := Scan(s, p1).1;
      var q := Skip(s, e1);
      SkipSkip(s, e1);
      if Scan(s, q).0.Word? {
        ScanWord(s, q);
        RedirsWords(s, Skip(s, Scan(s, q).1));
      }
    }
  }

  lemma {:induction false} WrapWords(s: string, c: Cmd, rs: seq<Redirection>)
    requires WordsOf(s, c) && AllFiles(s, rs)
    ensures WordsOf(s, Wrap(c, rs))
    decreases |rs|
  {
    if rs != [] {
      WrapWords(s, c, rs[..|rs| - 1]);
    }
  }

  lemma {:induction false} ArgsWords(s: string, p: nat, argv: seq<Span>, rs: seq<Redirection>)
    requires Line(s) && p <= |s| && |argv| < MAXARGS && AllWords(s, argv) && AllFiles(s, rs)
    ensures ParseArgs(s, p, argv, rs).Ok? ==> WordsOf(s, ParseArgs(s, p, argv, rs).cmd)
    decreases |s| - p
  {
    hide Scan;
    WrapWords(s, Exec(argv), rs);
    var q := Skip(s, p);
    var (tok, eq) := Scan(s, q);
    SkipSkip(s, p);
    if tok.Word? && |argv| + 1 < MAXARGS {
      ScanWord(s, q);
      var more := ParseRedirs(s, Skip(s, eq));
      RedirsWords(s, Skip(s, eq));
      if more.RedirsOk? {
        ArgsWords(s, more.pos, argv + [Span(q, eq)], rs + more.rs);
      }
    }
  }

  lemma {:induction false} BlockWords(s: string, p: nat)
    requires Line(s) && p < |s|
    ensures ParseBlock(s, p).Ok? ==> WordsOf(s, ParseBlock(s, p).cmd)
    decreases |s| - p, 0
  {
    hide IsWord, ParseLine, ParseRedirs, Wrap;
    var inner := ParseLine(s, Skip(s, p + 1));
    LineWords(s, Skip(s, p + 1));
    if inner.Ok? {
      var p2 := Skip(s, inner.pos);
      if At(s, p2) == ')' {
        RedirsWords(s, Skip(s, p2 + 1));
        var more := ParseRedirs(s, Skip(s, p2 + 1));
        if more.RedirsOk? {
          WrapWords(s, inner.cmd, more.rs);
        }
      }
    }
  }

  lemma {:induction false} ExecWords(s: string, p: nat)
    requires Line(s) && p <= |s|
    ensures ParseExec(s, p).Ok? ==> WordsOf(s, ParseExec(s, p).cmd)
    decreases |s| - p, 1
  {
    hide IsWord, ParseBlock, ParseRedirs, ParseArgs, Wrap;
    var p1 := Skip(s, p);
    if At(s, p1) == '(' {
      BlockWords(s, p1);
    } else {
      RedirsWords(s, p1);
      var first := ParseRedirs(s, p1);
      if first.RedirsOk? {
        ArgsWords(s, first.pos, [], first.rs);
      }
    }
  }

  lemma {:induction false} PipeWords(s: string, p: nat)
    requires Line(s) && p <= |s|
    ensures ParsePipe(s, p).Ok? ==> WordsOf(s, ParsePipe(s, p).cmd)
    decreases |s| - p, 2
  {
    hide IsWord, ParseExec;
    ExecWords(s, p);
    var left := ParseExec(s, p);
    if left.Ok? {
      var p1 := Skip(s, left.pos);
      if At(s, p1) == '|' {
        PipeWords(s, Skip(s, p1 + 1));
      }
    }
  }

  lemma {:induction false} BacksWords(s: string, p: nat, c: Cmd)
    requires p <= |s| && WordsOf(s, c)
    ensures WordsOf(s, ParseBacks(s, p, c).0)
    decreases |s| - p
  {
    var p1 := Skip(s, p);
    if At(s, p1) == '&' {
      BacksWords(s, Skip(s, p1 + 1), Back(c));
    }
  }

  lemma {:induction false} LineWords(s: string, p: nat)
    requires Line(s) && p <= |s|
    ensures ParseLine(s, p).Ok? ==> WordsOf(s, ParseLine(s, p).cmd)
    decreases |s| - p, 3
  {
    hide IsWord, ParsePipe;
    PipeWords(s, p);
    var first := ParsePipe(s, p);
    if first.Ok? {
      BacksWords(s, first.pos, first.cmd);
      var p1 := ParseBacks(s, first.pos, first.cmd).1;
      if At(s, p1) == ';' {
        LineWords(s, Skip(s, p1 + 1));
      }
    }
  }

  // ---------------------------------------------------------------- terminating them

  /** Where nulterminate writes. */
  function Ends(c: Cmd): (e: set<nat>)
  {
    match c
    case Exec(argv) => set i | 0 <= i < |argv| :: argv[i].eq
    case Redir(c1, file, _) => Ends(c1) + {file.eq}
    case Pipe(l, r) => Ends(l) + Ends(r)
    case List(l, r) => Ends(l) + Ends(r)
    case Back(c1) => Ends(c1)
  }

  /** The tokens of a command. */
  function Tokens(c: Cmd): (t: set<Span>)
  {
    match c
    case Exec(argv) => set i | 0 <= i < |argv| :: argv[i]
    case Redir(c1, file, _) => Tokens(c1) + {file}
    case Pipe(l, r) => Tokens(l) + Tokens(r)
    case List(l, r) => Tokens(l) + Tokens(r)
    case Back(c1) => Tokens(c1)
  }

  lemma {:induction false} EndsAreWordEnds(s: string, c: Cmd)
    requires WordsOf(s, c)
    ensures forall e :: e in Ends(c) ==> e <= |s| && (e < |s| ==> !WordChar(s[e]))
    ensures forall w :: w in Tokens(c) ==> IsWord(s, w) && w.eq in Ends(c)
  {
    match c
    case Exec(argv) =>
    case Redir(c1, _, _) => EndsAreWordEnds(s, c1);
    case Pipe(l, r) => EndsAreWordEnds(s, l); EndsAreWordEnds(s, r);
    case List(l, r) => EndsAreWordEnds(s, l); EndsAreWordEnds(s, r);
    case Back(c1) => EndsAreWordEnds(s, c1);
  }

  /** The buffer with a NUL at each of these positions. */
  function Cut(b: seq<char>, at: set<nat>): (r: seq<char>)
    ensures |r| == |b|
    ensures forall i :: 0 <= i < |b| ==> r[i] == if i in at then NUL else b[i]
  {
    seq(|b|, i requires 0 <= i < |b| => if i in at then NUL else b[i])
  }

  /** The C string that starts at p. */
  function CString(b: seq<char>, p: nat): (r: string)
    requires p <= |b|
    decreases |b| - p
  {
    if p == |b| || b[p] == NUL then [] else [b[p]] + CString(b, p + 1)
  }

  lemma {:induction false} CStringIs(b: seq<char>, p: nat, e: nat)
    requires p <= e < |b| && b[e] == NUL && forall i :: p <= i < e ==> b[i] != NUL
    ensures CString(b, p) == b[p..e]
    decreases e - p
  {
    if p < e {
      CStringIs(b, p + 1, e);
      assert b[p..e] == [b[p]] + b[p + 1..e];
    }
  }

  /** After nulterminate, each token of a parsed line reads back from the buffer as exactly its text: no
      terminator lands inside another word. */
  lemma TokensReadBack(s: string, w: Span)
    requires Line(s) && ParseCmd(s).Ok? && w in Tokens(ParseCmd(s).cmd)
    ensures w.q < w.eq <= |s| && CString(Cut(s + [NUL], Ends(ParseCmd(s).cmd)), w.q) == s[w.q..w.eq]
  {
    hide ParseLine;
    LineWords(s, 0);
    var c := ParseCmd(s).cmd;
    EndsAreWordEnds(s, c);
    var b := Cut(s + [NUL], Ends(c));
    assert IsWord(s, w);
    CStringIs(b, w.q, w.eq);
    assert b[w.q..w.eq] == s[w.q..w.eq];
  }

  /** nulterminate. */
  method Nulterminate(b: array<char>, c: Cmd)
    requires forall e :: e in Ends(c) ==> e < b.Length
    modifies b
    ensures b[..] == Cut(old(b[..]), Ends(c))
    decreases c
  {
    match c
    case Exec(argv) =>
      var i := 0;
      while i < |argv|
        invariant 0 <= i <= |argv|
        invariant b[..] == Cut(old(b[..]), set k | 0 <= k < i :: argv[k].eq)
      {
        assert argv[i].eq in Ends(c);
        b[argv[i].eq] := NUL;
        i := i + 1;
      }
    case Redir(c1, file, _) =>
      assert Ends(c1) <= Ends(c) && file.eq in Ends(c);
      Nulterminate(b, c1);
      b[file.eq] := NUL;
    case Pipe(l, r) =>
      assert Ends(l) <= Ends(c) && Ends(r) <= Ends(c);
      Nulterminate(b, l);
      Nulterminate(b, r);
    case List(l, r) =>
      assert Ends(l) <= Ends(c) && Ends(r) <= Ends(c);
      Nulterminate(b, l);
      Nulterminate(b, r);
    case Back(c1) =>
      assert Ends(c1) <= Ends(c);
      Nulterminate(b, c1);
  }
}
