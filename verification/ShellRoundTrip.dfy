/** Parsing what ShellPrint prints gives the printed tree back, with `>` for `>>`. */
module ShellRoundTrip {
  import opened ShellSyntax
  import opened ShellPrint
  import opened ShellBuffer

  // ---------------------------------------------------------------- one command

  predicate GoodArgs(args: seq<string>) { forall i :: 0 <= i < |args| ==> GoodWord(args[i]) }

  predicate ArgsNamed(s: string, argv: seq<Span>, args: seq<string>)
  {
    && |argv| == |args|
    && forall i :: 0 <= i < |args| ==> InLine(s, argv[i]) && s[argv[i].q..argv[i].eq] == args[i]
  }

  lemma ArgsEnd(s: string, p: nat, post: string, argv: seq<Span>, rs: seq<Redirection>)
    requires Reads(s, p, [], post) && Stop(post, "|)&;")
    ensures ParseArgs(s, p, argv, rs) == Ok(Wrap(Exec(argv), rs), p)
  {
    ReadsAt(s, p, [], post);
    NoSkip(s, p);
  }

  lemma ArgWord(s: string, p: nat, w: string, rest: string, post: string)
    requires Reads(s, p, " " + w + rest, post) && GoodWord(w)
    requires rest + post != [] ==> Space((rest + post)[0]) || Symbol((rest + post)[0])
    ensures var eq := p + 1 + |w|;
      && eq <= |s| && Skip(s, p) == p + 1 && At(s, p + 1) == w[0] && Scan(s, p + 1) == (Word, eq)
      && s[p + 1..eq] == w && Reads(s, eq, rest, post)
  {
    hide Scan;
    assert " " + w + rest == " " + (w + rest);
    ReadsAt(s, p, " " + w + rest, post);
    ReadsSplit(s, p, " ", w + rest, post);
    ReadsSplit(s, p + 1, w, rest, post);
    ScanWordText(s, p + 1, w, rest + post);
    ReadsAt(s, p + 1, w, rest + post);
    ReadsAt(s, p + 1 + |w|, rest, post);
  }

  lemma ArgStep(s: string, p: nat, eq: nat, argv: seq<Span>, rs: seq<Redirection>)
    requires p <= |s| && eq <= |s| && WordChar(At(s, Skip(s, p))) && Scan(s, Skip(s, p)) == (Word, eq)
    requires |argv| + 1 < MAXARGS && ParseRedirs(s, Skip(s, eq)).RedirsOk?
    ensures var more := ParseRedirs(s, Skip(s, eq));
      ParseArgs(s, p, argv, rs) == ParseArgs(s, more.pos, argv + [Span(Skip(s, p), eq)], rs + more.rs)
  {
    hide Skip, Scan, ParseRedirs;
  }

  lemma AfterWord(s: string, p: nat, args: seq<string>, f: seq<(string, Arrow)>, post: string)
    requires args != [] && GoodArgs(args) && Stop(post, "|)&;")
    requires Reads(s, p, Words(args) + FileText(f), post)
    ensures var eq := p + 1 + |args[0]|; var rest := Words(args[1..]) + FileText(f);
      && eq <= |s| && Skip(s, p) == p + 1 && WordChar(At(s, p + 1)) && Scan(s, p + 1) == (Word, eq)
      && s[p + 1..eq] == args[0] && Reads(s, eq, rest, post) && |Words(args) + FileText(f)| == 1 + |args[0]| + |rest|
  {
    hide Skip, Scan, Reads;
    var rest := Words(args[1..]) + FileText(f);
    assert Words(args) + FileText(f) == " " + args[0] + rest;
    FileTextStarts(f, post, "|)&;");
    if args[1..] == [] {
      assert rest + post == FileText(f) + post;
    }
    ArgWord(s, p, args[0], rest, post);
  }

  /** Between two words there is no redirection. */
  lemma BetweenWords(s: string, p: nat, args: seq<string>, f: seq<(string, Arrow)>, post: string)
    requires args != [] && GoodArgs(args) && Stop(post, "|)&;")
    requires Reads(s, p, Words(args) + FileText(f), post)
    ensures Skip(s, p) == p + 1 && ParseRedirs(s, p + 1) == RedirsOk([], p + 1)
  {
    AfterWord(s, p, args, f, post);
    hide Reads, Words, FileText, Scan;
    NoSkip(s, p + 1);
    NoRedirs(s, p + 1);
  }

  /** parseexec's loop reads the words, then the redirections. */
  lemma {:induction false} ReadArgs(s: string, p: nat, args: seq<string>, f: seq<(string, Arrow)>, post: string,
                                    argv: seq<Span>)
    returns (av: seq<Span>, rs: seq<Redirection>)
    requires args != [] && GoodArgs(args) && GoodFiles(f) && Stop(post, "|)&;") && |argv| + |args| < MAXARGS
    requires Reads(s, p, Words(args) + FileText(f), post)
    ensures ParseArgs(s, p, argv, []) == Ok(Wrap(Exec(argv + av), rs), p + |Words(args) + FileText(f)|)
    ensures ArgsNamed(s, av, args) && Named(s, rs, f)
    decreases |args|
  {
    hide Skip, Scan, Reads, ParseArgs, ParseRedirs, Stop, Words, FileText, Wrap, At, GoodWord;
    AfterWord(s, p, args, f, post);
    var eq, w, rest := p + 1 + |args[0]|, Span(p + 1, p + 1 + |args[0]|), args[1..];
    var none: seq<Redirection> := [];
    SkipRedirs(s, eq);
    if rest == [] {
      WordsNone();
      assert Words([]) + FileText(f) == FileText(f);
      ReadFiles(s, eq, f, post);
      var more := ParseRedirs(s, eq);
      assert FileText(f) + [] == FileText(f) && [] + post == post;
      ReadsSplit(s, eq, FileText(f), [], post);
      ArgStep(s, p, eq, argv, none);
      assert none + more.rs == more.rs;
      ArgsEnd(s, more.pos, post, argv + [w], more.rs);
      av, rs := [w], more.rs;
      assert ParseArgs(s, p, argv, none) == Ok(Wrap(Exec(argv + av), rs), more.pos);
    } else {
      BetweenWords(s, eq, rest, f, post);
      ArgStep(s, p, eq, argv, none);
      assert none + none == none;
      SkipSkip(s, eq);
      SkipArgs(s, eq, eq + 1, argv + [w], none);
      assert ParseArgs(s, p, argv, none) == ParseArgs(s, eq, argv + [w], none);
      var av';
      av', rs := ReadArgs(s, eq, rest, f, post, argv + [w]);
      av := [w] + av';
      assert argv + [w] + av' == argv + av;
    }
  }

  lemma WordsNone()
    ensures Words([]) == []
  {
  }

  lemma ExecUnfold(s: string, p: nat)
    requires p <= |s| && At(s, Skip(s, p)) != '(' && ParseRedirs(s, Skip(s, p)).RedirsOk?
    ensures ParseExec(s, p) == ParseArgs(s, ParseRedirs(s, Skip(s, p)).pos, [], ParseRedirs(s, Skip(s, p)).rs)
  {
    hide Skip, ParseRedirs, ParseArgs, ParseBlock;
  }

  /** A command without parentheses, its redirections last. */
  lemma ReadCommand(s: string, p: nat, args: seq<string>, f: seq<(string, Arrow)>, post: string)
    requires GoodArgs(args) && GoodFiles(f) && Stop(post, "|)&;") && |args| < MAXARGS
    requires Reads(s, p, Words(args) + FileText(f), post)
    ensures Yields(s, ParseExec(s, p), Tower(TExec(args), f), p + |Words(args) + FileText(f)|)
  {
    hide Skip, Scan, Reads, ParseArgs, ParseRedirs, ParseExec, Stop, Wrap, GoodWord, FileText, Words, Tower;
    var av, rs := [], [];
    if args == [] {
      WordsNone();
      assert Words(args) + FileText(f) == FileText(f);
      NoSkipFiles(s, p, f, post);
      if f != [] {
        ArrowIsNotParen(f[0].1);
      } else {
        NoFilesNoParen(s, p, post);
      }
      ReadFiles(s, p, f, post);
      rs := ParseRedirs(s, p).rs;
      assert FileText(f) + [] == FileText(f) && [] + post == post;
      ReadsSplit(s, p, FileText(f), [], post);
      ArgsEnd(s, p + |FileText(f)|, post, [], rs);
      ExecUnfold(s, p);
    } else {
      AfterWord(s, p, args, f, post);
      BetweenWords(s, p, args, f, post);
      ExecUnfold(s, p);
      SkipSkip(s, p);
      SkipArgs(s, p, p + 1, [], []);
      av, rs := ReadArgs(s, p, args, f, post, []);
      assert [] + av == av;
    }
    ExecText(s, av, args);
    WrapText(s, Exec(av), TExec(args), rs, f);
  }

  lemma ArrowIsNotParen(a: Arrow)
    ensures ArrowText(a)[0] != '('
  {
  }

  lemma NoFilesNoParen(s: string, p: nat, post: string)
    requires Reads(s, p, FileText([]), post) && Stop(post, "|)&;")
    ensures At(s, p) != '('
  {
    ReadsAt(s, p, [], post);
  }

  lemma ExecText(s: string, av: seq<Span>, args: seq<string>)
    requires ArgsNamed(s, av, args)
    ensures Inside(s, Exec(av)) && Text(s, Exec(av)) == TExec(args)
  {
    assert Text(s, Exec(av)).args == args;
  }

  /** A parenthesised command and its redirections, once the inside is read. */
  lemma ReadBlock(s: string, p: nat, c: Tree, f: seq<(string, Arrow)>, post: string)
    requires GoodFiles(f) && Stop(post, "|)&;") && Reads(s, p, "(" + Form(c) + ")" + FileText(f), post)
    requires p < |s| && Yields(s, ParseLine(s, p + 1), c, p + 1 + |Form(c)|)
    ensures Yields(s, ParseExec(s, p), Tower(c, f), p + |"(" + Form(c) + ")" + FileText(f)|)
  {
    hide Form, FileText, Stop, ParseLine, ParseExec, ParseRedirs, Wrap, Tower, Skip, Text, Inside;
    BlockPieces(s, p, Form(c), FileText(f), post);
    hide Reads;
    var p2 := p + 1 + |Form(c)|;
    ReadFiles(s, p2 + 1, f, post);
    BlockUnfold(s, p, p2);
    WrapText(s, ParseLine(s, p + 1).cmd, c, ParseRedirs(s, p2 + 1).rs, f);
  }

  lemma BlockUnfold(s: string, p: nat, p2: nat)
    requires p < p2 < |s| && s[p] == '(' && s[p2] == ')' && ParseLine(s, p + 1).Ok? && ParseLine(s, p + 1).pos == p2
    requires ParseRedirs(s, p2 + 1).RedirsOk?
    ensures ParseExec(s, p) == Ok(Wrap(ParseLine(s, p + 1).cmd, ParseRedirs(s, p2 + 1).rs), ParseRedirs(s, p2 + 1).pos)
  {
    hide Skip, ParseExec, ParseBlock, ParseLine, ParseRedirs, Wrap;
    ExecIsBlock(s, p);
    NoSkip(s, p2);
    SkipLine(s, p + 1);
    SkipRedirs(s, p2 + 1);
    BlockIs(s, p, p2);
  }

  lemma BlockIs(s: string, p: nat, p2: nat)
    requires p < p2 < |s| && s[p2] == ')' && Skip(s, p2) == p2 && ParseRedirs(s, Skip(s, p2 + 1)).RedirsOk?
    requires ParseLine(s, Skip(s, p + 1)).Ok? && ParseLine(s, Skip(s, p + 1)).pos == p2
    ensures var more := ParseRedirs(s, Skip(s, p2 + 1));
      ParseBlock(s, p) == Ok(Wrap(ParseLine(s, Skip(s, p + 1)).cmd, more.rs), more.pos)
  {
    hide Skip, ParseLine, ParseRedirs, Wrap;
  }

  lemma ExecIsBlock(s: string, p: nat)
    requires p < |s| && s[p] == '('
    ensures ParseExec(s, p) == ParseBlock(s, p)
  {
    hide Skip, ParseBlock, ParseRedirs, ParseArgs;
    NoSkip(s, p);
  }

  lemma BlockPieces(s: string, p: nat, inner: string, files: string, post: string)
    requires Reads(s, p, "(" + inner + ")" + files, post)
    ensures p < |s| && s[p] == '(' && Reads(s, p + 1, inner, ")" + files + post)
    ensures p + 1 + |inner| < |s| && s[p + 1 + |inner|] == ')' && Reads(s, p + 2 + |inner|, files, post)
  {
    assert "(" + inner + ")" + files == "(" + (inner + (")" + files));
    ReadsSplit(s, p, "(", inner + (")" + files), post);
    ReadsSplit(s, p + 1, inner, ")" + files, post);
    ReadsSplit(s, p + 1 + |inner|, ")", files, post);
    ReadsAt(s, p, "(" + inner + ")" + files, post);
    ReadsAt(s, p + 1 + |inner|, ")", files + post);
    assert (")" + files) + post == ")" + files + post;
  }

  // ---------------------------------------------------------------- joining commands

  predicate Solid(s: string, p: nat) { p <= |s| && !Space(At(s, p)) }

  lemma PipeOne(s: string, p: nat, t: Tree, m: nat)
    requires p <= |s| && Yields(s, ParseExec(s, p), t, m) && Solid(s, m) && At(s, m) != '|'
    ensures Yields(s, ParsePipe(s, p), t, m)
  {
    hide ParseExec, Text, Inside;
    NoSkip(s, m);
  }

  lemma PipeTwo(s: string, p: nat, l: Tree, m: nat, r: Tree, e: nat)
    requires p <= |s| && Yields(s, ParseExec(s, p), l, m) && m < |s| && s[m] == '|'
    requires Yields(s, ParsePipe(s, m + 1), r, e)
    ensures Yields(s, ParsePipe(s, p), TPipe(l, r), e)
  {
    hide ParseExec, ParsePipe, Skip;
    PipeUnfold(s, p, m);
  }

  lemma PipeUnfold(s: string, p: nat, m: nat)
    requires p <= |s| && ParseExec(s, p).Ok? && ParseExec(s, p).pos == m < |s| && s[m] == '|' && ParsePipe(s, m + 1).Ok?
    ensures ParsePipe(s, p) == Ok(Pipe(ParseExec(s, p).cmd, ParsePipe(s, m + 1).cmd), ParsePipe(s, m + 1).pos)
  {
    hide ParseExec, Skip;
    NoSkip(s, m);
    SkipLine(s, m + 1);
  }

  lemma BackMore(s: string, p: nat, c: Cmd)
    requires p < |s| && s[p] == '&'
    ensures ParseBacks(s, p, c) == ParseBacks(s, p + 1, Back(c))
  {
    NoSkip(s, p);
    SkipBacks(s, p + 1, Back(c));
  }

  lemma BackEnd(s: string, p: nat, c: Cmd)
    requires Solid(s, p) && At(s, p) != '&'
    ensures ParseBacks(s, p, c) == (c, p)
  {
    NoSkip(s, p);
  }

  /** After parsepipe and the loop over `&` the text of t is consumed, with c for it. */
  predicate Backed(s: string, p: nat, c: Cmd, t: Tree, e: nat)
    requires p <= |s|
  {
    var first := ParsePipe(s, p);
    && first.Ok? && e <= |s| && Inside(s, c) && Text(s, c) == Plain(t)
    && ParseBacks(s, first.pos, first.cmd) == ParseBacks(s, e, c)
  }

  lemma LineOne(s: string, p: nat, c: Cmd, t: Tree, e: nat)
    requires p <= |s| && Backed(s, p, c, t, e) && Solid(s, e) && At(s, e) != '&' && At(s, e) != ';'
    ensures Yields(s, ParseLine(s, p), t, e)
  {
    hide ParsePipe, ParseBacks, Text, Inside;
    BackEnd(s, e, c);
  }

  lemma LineTwo(s: string, p: nat, c: Cmd, l: Tree, m: nat, r: Tree, e: nat)
    requires p <= |s| && Backed(s, p, c, l, m) && m < |s| && s[m] == ';' && Yields(s, ParseLine(s, m + 1), r, e)
    ensures Yields(s, ParseLine(s, p), TList(l, r), e)
  {
    hide ParsePipe, ParseBacks, Skip;
    BackEnd(s, m, c);
    SkipLine(s, m + 1);
  }

  // ---------------------------------------------------------------- the four levels

  /** parseexec, parsepipe, parseline before `;`, parseline: which comes first depends on the tree. */
  function Rank(kind: nat, t: Tree): nat { (kind + Level(t) + 1) % 4 }

  lemma CommandText(t: Tree)
    ensures var c, f := Core(t), Files(t);
      Print(3, t) == if c.TExec? then Words(c.args) + FileText(f) else "(" + Form(c) + ")" + FileText(f)
  {
    var c := Core(t);
    if t.TRedir? {
      assert Level(t) == 3;
      assert c.TExec? ==> Form(c) == Words(c.args);
    } else {
      assert c == t && FileText(Files(t)) == [];
      assert t.TExec? ==> Words(t.args) + [] == Words(t.args);
      assert "(" + Form(t) + ")" + [] == "(" + Form(t) + ")";
    }
  }

  lemma StopMore(post: string)
    ensures Stop(post, ")") ==> Stop(post, ")&;")
    ensures Stop(post, ")&;") ==> Stop(post, "|)&;")
  {
  }

  lemma StopAt(s: string, p: nat, text: string, post: string, stops: string)
    requires Reads(s, p, text, post) && Stop(post, stops) && Stop(post, "|)&;")
    ensures Solid(s, p + |text|) && At(s, p + |text|) in stops + [NUL]
  {
    assert text + [] == text && [] + post == post;
    ReadsSplit(s, p, text, [], post);
    ReadsAt(s, p + |text|, [], post);
  }

  /** Two pieces around one character. */
  lemma Around(s: string, p: nat, a: string, x: char, b: string, post: string)
    requires Reads(s, p, a + [x] + b, post)
    ensures Reads(s, p, a, [x] + b + post) && p + |a| < |s| && s[p + |a|] == x && Reads(s, p + |a| + 1, b, post)
  {
    assert a + [x] + b == a + ([x] + b) && ([x] + b) + post == [x] + b + post;
    ReadsSplit(s, p, a, [x] + b, post);
    ReadsSplit(s, p + |a|, [x], b, post);
    ReadsAt(s, p + |a|, [x], b + post);
  }

  lemma {:induction false} ReadExec(s: string, p: nat, t: Tree, post: string)
    requires Good(t) && Reads(s, p, Print(3, t), post) && Stop(post, "|)&;")
    ensures Yields(s, ParseExec(s, p), t, p + |Print(3, t)|)
    decreases t, Rank(0, t)
  {
    hide Print, Form, Reads, Stop, Yields, ParseExec, Words, FileText, Tower, GoodWord, Skip, Scan;
    var c, f := Core(t), Files(t);
    CommandText(t);
    GoodCore(t);
    TowerOf(t);
    if c.TExec? {
      ReadCommand(s, p, c.args, f, post);
    } else {
      BlockPieces(s, p, Form(c), FileText(f), post);
      PrintLine(c);
      CloseStops(FileText(f), post);
      ReadLine(s, p + 1, c, ")" + FileText(f) + post);
      ReadBlock(s, p, c, f, post);
    }
  }

  lemma PrintLine(t: Tree)
    ensures Print(0, t) == Form(t)
  {
  }

  lemma CloseStops(files: string, post: string)
    ensures Stop(")" + files + post, ")")
  {
    assert (")" + files + post)[0] == ')';
  }

  lemma {:induction false} ReadPipe(s: string, p: nat, t: Tree, post: string)
    requires Good(t) && Reads(s, p, Print(2, t), post) && Stop(post, ")&;")
    ensures Yields(s, ParsePipe(s, p), t, p + |Print(2, t)|)
    decreases t, Rank(1, t)
  {
    hide Reads, Stop, Yields, ParsePipe, ParseExec, GoodWord, Skip, Solid;
    StopMore(post);
    if t.TPipe? {
      var a, b := Print(3, t.left), Print(2, t.right);
      assert Print(2, t) == a + ['|'] + b;
      hide Print, Form;
      Around(s, p, a, '|', b, post);
      FirstStops('|', b, post, "|)&;");
      ReadExec(s, p, t.left, ['|'] + b + post);
      ReadPipe(s, p + |a| + 1, t.right, post);
      PipeTwo(s, p, t.left, p + |a|, t.right, p + |a| + 1 + |b|);
    } else {
      assert Print(2, t) == Print(3, t);
      hide Print, Form;
      StopAt(s, p, Print(2, t), post, ")&;");
      ReadExec(s, p, t, post);
      PipeOne(s, p, t, p + |Print(2, t)|);
    }
  }

  lemma FirstStops(x: char, b: string, post: string, stops: string)
    requires x in stops
    ensures Stop([x] + b + post, stops)
  {
    assert ([x] + b + post)[0] == x;
  }

  lemma {:induction false} ReadBack(s: string, p: nat, t: Tree, post: string) returns (c: Cmd)
    requires Good(t) && Reads(s, p, Print(1, t), post) && Stop(post, ")&;")
    ensures Backed(s, p, c, t, p + |Print(1, t)|)
    decreases t, Rank(2, t)
  {
    hide Reads, Stop, ParsePipe, ParseBacks, GoodWord;
    if t.TBack? {
      var a := Print(1, t.t);
      assert Print(1, t) == a + ['&'] + [];
      hide Print, Form;
      Around(s, p, a, '&', [], post);
      FirstStops('&', [], post, ")&;");
      c := ReadBack(s, p, t.t, ['&'] + [] + post);
      BackMore(s, p + |a|, c);
      c := Back(c);
    } else {
      assert Print(1, t) == Print(2, t);
      hide Print, Form;
      ReadPipe(s, p, t, post);
      c := ParsePipe(s, p).cmd;
    }
  }

  lemma {:induction false} ReadLine(s: string, p: nat, t: Tree, post: string)
    requires Good(t) && Reads(s, p, Print(0, t), post) && Stop(post, ")")
    ensures Yields(s, ParseLine(s, p), t, p + |Print(0, t)|)
    decreases t, Rank(3, t)
  {
    hide Reads, Stop, Yields, ParseLine, Backed, GoodWord, Solid;
    StopMore(post);
    if t.TList? {
      var a, b := Print(1, t.left), Print(0, t.right);
      assert Print(0, t) == a + [';'] + b;
      hide Print, Form;
      Around(s, p, a, ';', b, post);
      FirstStops(';', b, post, ")&;");
      var c := ReadBack(s, p, t.left, [';'] + b + post);
      ReadLine(s, p + |a| + 1, t.right, post);
      LineTwo(s, p, c, t.left, p + |a|, t.right, p + |a| + 1 + |b|);
    } else {
      assert Print(0, t) == Print(1, t);
      hide Print, Form;
      StopAt(s, p, Print(0, t), post, ")");
      var c := ReadBack(s, p, t, post);
      LineOne(s, p, c, t, p + |Print(0, t)|);
    }
  }

  /** Every tree of good words, printed with any arrow at each redirection and parsed, comes back. */
  lemma PrintedParsesBack(t: Tree)
    requires Good(t)
    ensures ParseCmd(Print(0, t)).Ok? && Inside(Print(0, t), ParseCmd(Print(0, t)).cmd)
    ensures Text(Print(0, t), ParseCmd(Print(0, t)).cmd) == Plain(t)
  {
    hide Print, ParseLine, Text, Inside, Good;
    var s := Print(0, t);
    assert s[0..] == s + [];
    ReadLine(s, 0, t, []);
  }

  // ---------------------------------------------------------------- exactly the good trees

  lemma {:induction false} WordsAreGood(s: string, c: Cmd)
    requires WordsOf(s, c)
    ensures Inside(s, c) && Good(Text(s, c))
  {
    match c
    case Exec(argv) =>
      forall i | 0 <= i < |argv|
        ensures GoodWord(s[argv[i].q..argv[i].eq])
      {
        assert IsWord(s, argv[i]);
      }
    case Redir(c1, file, _) => WordsAreGood(s, c1);
    case Pipe(l, r) => WordsAreGood(s, l); WordsAreGood(s, r);
    case List(l, r) => WordsAreGood(s, l); WordsAreGood(s, r);
    case Back(c1) => WordsAreGood(s, c1);
  }

  lemma {:induction false} WordsLine(args: seq<string>)
    requires GoodArgs(args)
    ensures Line(Words(args))
  {
    if args != [] {
      WordsLine(args[1..]);
    }
  }

  lemma {:induction false} FilesLine(f: seq<(string, Arrow)>)
    requires GoodFiles(f)
    ensures Line(FileText(f))
  {
    if f != [] {
      FilesLine(f[1..]);
    }
  }

  lemma {:induction false} PrintedIsLine(lv: nat, t: Tree)
    requires Good(t)
    ensures Line(Form(t)) && Line(Print(lv, t))
    decreases t
  {
    hide FileText, Words;
    match t
    case TExec(args) => WordsLine(args);
    case TRedir(_, _, _) =>
      GoodCore(t);
      PrintedIsLine(0, Core(t));
      FilesLine(Files(t));
    case TPipe(l, r) => PrintedIsLine(3, l); PrintedIsLine(2, r);
    case TList(l, r) => PrintedIsLine(1, l); PrintedIsLine(0, r);
    case TBack(t1) => PrintedIsLine(1, t1);
  }

  /** s is a line the shell accepts as t, read with `>` for every `>>`. */
  predicate Accepts(s: string, t: Tree)
  {
    Line(s) && ParseCmd(s).Ok? && Inside(s, ParseCmd(s).cmd) && Text(s, ParseCmd(s).cmd) == Plain(t)
  }

  /** The shell accepts some line as t exactly when t is good; then the printed form is such a line. */
  lemma AcceptedIffGood(t: Tree)
    ensures Good(t) <==> exists s :: Accepts(s, t)
    ensures Good(t) ==> Accepts(Print(0, t), t)
  {
    hide Print, Good, ParseLine, Text, Inside, Line;
    if Good(t) {
      PrintedParsesBack(t);
      PrintedIsLine(0, t);
      assert Accepts(Print(0, t), t);
    }
    forall s | Accepts(s, t)
      ensures Good(t)
    {
      LineWords(s, 0);
      WordsAreGood(s, ParseCmd(s).cmd);
      PlainGood(t);
    }
  }

  lemma {:induction false} PlainGood(t: Tree)
    ensures Good(Plain(t)) <==> Good(t)
  {
    match t
    case TExec(_) =>
    case TRedir(t1, _, _) => PlainGood(t1);
    case TPipe(l, r) => PlainGood(l); PlainGood(r);
    case TList(l, r) => PlainGood(l); PlainGood(r);
    case TBack(t1) => PlainGood(t1);
  }
}
