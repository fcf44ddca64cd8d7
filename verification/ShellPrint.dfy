/** Every command tree can be written as a line that the shell parses back to the same tree, whichever
    arrow stands at each redirection. */
module ShellPrint {
  import opened ShellSyntax

  /** How a redirection is written: `<`, `>` or `>>`. */
  datatype Arrow = Less | Greater | Double

  function ModeOf(a: Arrow): Mode { if a.Less? then In else Out }

  /** A command with the words themselves instead of intervals. */
  datatype Tree =
    | TExec(args: seq<string>)
    | TRedir(t: Tree, file: string, arrow: Arrow)
    | TPipe(left: Tree, right: Tree)
    | TList(left: Tree, right: Tree)
    | TBack(t: Tree)

  predicate GoodWord(w: string) { w != [] && forall i :: 0 <= i < |w| ==> WordChar(w[i]) }

  /** Words are words, and no command has more than nine of them. */
  predicate Good(t: Tree)
  {
    match t
    case TExec(args) => |args| < MAXARGS && forall i :: 0 <= i < |args| ==> GoodWord(args[i])
    case TRedir(t1, file, _) => Good(t1) && GoodWord(file)
    case TPipe(l, r) => Good(l) && Good(r)
    case TList(l, r) => Good(l) && Good(r)
    case TBack(t1) => Good(t1)
  }

  /** The shell opens the file of `>>` as that of `>`. */
  function Plain(t: Tree): (r: Tree)
  {
    match t
    case TExec(_) => t
    case TRedir(t1, file, a) => TRedir(Plain(t1), file, if a.Less? then Less else Greater)
    case TPipe(l, r) => TPipe(Plain(l), Plain(r))
    case TList(l, r) => TList(Plain(l), Plain(r))
    case TBack(t1) => TBack(Plain(t1))
  }

  // ---------------------------------------------------------------- printing

  /** Where a tree fits without parentheses: a line, before `&`, a pipe, or one command. */
  function Level(t: Tree): nat
  {
    match t
    case TList(_, _) => 0
    case TBack(_) => 1
    case TPipe(_, _) => 2
    case _ => 3
  }

  function Words(args: seq<string>): (s: string)
  {
    if args == [] then [] else " " + args[0] + Words(args[1..])
  }

  function ArrowText(a: Arrow): (s: string)
    ensures 1 <= |s| <= 2
  {
    match a
    case Less => "<"
    case Greater => ">"
    case Double => ">>"
  }

  /** The tree without its outermost redirections, and those redirections. */
  function Core(t: Tree): (c: Tree)
    ensures !c.TRedir?
    ensures c == t || c < t
  {
    if t.TRedir? then Core(t.t) else t
  }

  function Files(t: Tree): (f: seq<(string, Arrow)>)
  {
    if t.TRedir? then Files(t.t) + [(t.file, t.arrow)] else []
  }

  function FileText(f: seq<(string, Arrow)>): (s: string)
  {
    if f == [] then [] else ArrowText(f[0].1) + f[0].0 + FileText(f[1..])
  }

  function Form(t: Tree): (s: string)
    decreases t, 0
  {
    match t
    case TExec(args) => Words(args)
    case TRedir(_, _, _) =>
      var c := Core(t);
      (if c.TExec? then Form(c) else "(" + Form(c) + ")") + FileText(Files(t))
    case TPipe(l, r) => Print(3, l) + "|" + Print(2, r)
    case TList(l, r) => Print(1, l) + ";" + Print(0, r)
    case TBack(t1) => Print(1, t1) + "&"
  }

  /** A tree where level `lv` is expected. */
  function Print(lv: nat, t: Tree): (s: string)
    decreases t, 1
  {
    if Level(t) >= lv then Form(t) else "(" + Form(t) + ")"
  }

  // ---------------------------------------------------------------- reading back

  predicate InLine(s: string, w: Span) { w.q <= w.eq <= |s| }

  predicate Inside(s: string, c: Cmd)
  {
    match c
    case Exec(argv) => forall i :: 0 <= i < |argv| ==> InLine(s, argv[i])
    case Redir(c1, file, _) => Inside(s, c1) && InLine(s, file)
    case Pipe(l, r) => Inside(s, l) && Inside(s, r)
    case List(l, r) => Inside(s, l) && Inside(s, r)
    case Back(c1) => Inside(s, c1)
  }

  /** The tree a parsed command stands for. */
  function Text(s: string, c: Cmd): (t: Tree)
    requires Inside(s, c)
  {
    match c
    case Exec(argv) => TExec(seq(|argv|, i requires 0 <= i < |argv| => s[argv[i].q..argv[i].eq]))
    case Redir(c1, file, mode) => TRedir(Text(s, c1), s[file.q..file.eq], if mode.In? then Less else Greater)
    case Pipe(l, r) => TPipe(Text(s, l), Text(s, r))
    case List(l, r) => TList(Text(s, l), Text(s, r))
    case Back(c1) => TBack(Text(s, c1))
  }

  /** The parse ended at p' with a command that stands for t, read with `>` for every `>>`. */
  predicate Yields(s: string, r: Parsed, t: Tree, p': nat)
  {
    r.Ok? && r.pos == p' && Inside(s, r.cmd) && Text(s, r.cmd) == Plain(t)
  }

  // ---------------------------------------------------------------- positions

  /** From p on, the line reads `text` and then `post`. */
  predicate Reads(s: string, p: nat, text: string, post: string) { p <= |s| && s[p..] == text + post }

  /** What may follow a command: nothing, or a symbol that ends it. */
  predicate Stop(post: string, symbols: string) { post == [] || post[0] in symbols }

  lemma ReadsSplit(s: string, p: nat, a: string, b: string, post: string)
    requires Reads(s, p, a + b, post)
    ensures Reads(s, p, a, b + post) && Reads(s, p + |a|, b, post)
  {
    assert (a + b) + post == a + (b + post);
    assert s[p + |a|..] == s[p..][|a|..];
  }

  lemma ReadsAt(s: string, p: nat, text: string, post: string)
    requires Reads(s, p, text, post)
    ensures text != [] ==> At(s, p) == text[0]
    ensures text == [] && post != [] ==> At(s, p) == post[0]
    ensures text == [] && post == [] ==> p == |s|
    ensures p + |text| + |post| == |s|
  {
    assert |s[p..]| == |s| - p;
    if p < |s| {
      assert s[p] == s[p..][0];
    }
  }

  lemma ReadsChar(s: string, p: nat, text: string, post: string, i: nat)
    requires Reads(s, p, text, post) && i < |text|
    ensures p + i < |s| && s[p + i] == text[i]
  {
    assert s[p + i] == s[p..][i];
  }

  /** A word, and where it ends. */
  lemma ScanWordText(s: string, p: nat, w: string, post: string)
    requires Reads(s, p, w, post) && GoodWord(w) && (post != [] ==> Space(post[0]) || Symbol(post[0]))
    ensures Skip(s, p) == p && Scan(s, p) == (Word, p + |w|) && s[p..p + |w|] == w
  {
    ReadsAt(s, p, w, post);
    ReadsChar(s, p, w, post, 0);
    forall i | 0 <= i < |w|
      ensures s[p + i] == w[i]
    {
      ReadsChar(s, p, w, post, i);
    }
    var e := WordEnd(s, p);
    if post != [] {
      assert s[p + |w|] == s[p..][|w|] == post[0];
    }
  }

  // ---------------------------------------------------------------- redirections

  predicate GoodFiles(f: seq<(string, Arrow)>) { forall i :: 0 <= i < |f| ==> GoodWord(f[i].0) }

  /** These redirections name these files. */
  predicate Named(s: string, rs: seq<Redirection>, f: seq<(string, Arrow)>)
  {
    && |rs| == |f|
    && forall i :: 0 <= i < |f| ==>
         InLine(s, rs[i].file) && s[rs[i].file.q..rs[i].file.eq] == f[i].0 && rs[i].mode == ModeOf(f[i].1)
  }

  lemma FileTextStarts(f: seq<(string, Arrow)>, post: string, stops: string)
    requires Stop(post, stops) && forall i :: 0 <= i < |stops| ==> Symbol(stops[i])
    ensures FileText(f) + post != [] ==> Symbol((FileText(f) + post)[0])
  {
  }

  lemma ScanArrow(s: string, p: nat, a: Arrow)
    requires p + |ArrowText(a)| <= |s| && s[p..p + |ArrowText(a)|] == ArrowText(a) && At(s, p + |ArrowText(a)|) != '>'
    ensures Scan(s, p) == (if a.Double? then Append else Punct(ArrowText(a)[0]), p + |ArrowText(a)|)
  {
    assert s[p] == s[p..p + |ArrowText(a)|][0];
    if a.Double? {
      assert s[p + 1] == s[p..p + 2][1];
    }
  }

  /** The first redirection of a list, token by token. */
  lemma ReadFile(s: string, p: nat, f: seq<(string, Arrow)>, post: string)
    requires f != [] && Reads(s, p, FileText(f), post) && GoodWord(f[0].0) && Stop(post, "|)&;")
    ensures var (w, a) := f[0]; var q := p + |ArrowText(a)|; var eq := q + |w|;
      && eq <= |s| && Scan(s, p) == (if a.Double? then Append else Punct(ArrowText(a)[0]), q) && Skip(s, q) == q
      && Scan(s, q) == (Word, eq) && s[q..eq] == w && Reads(s, eq, FileText(f[1..]), post)
  {
    hide Skip, Scan, Reads, FileText, Stop, ArrowText;
    var (w, a) := f[0];
    var rest := FileText(f[1..]);
    FilePieces(s, p, f, post);
    FileTextStarts(f[1..], post, "|)&;");
    ScanWordText(s, p + |ArrowText(a)|, w, rest + post);
    ScanArrow(s, p, a);
  }

  lemma FilePieces(s: string, p: nat, f: seq<(string, Arrow)>, post: string)
    requires f != [] && Reads(s, p, FileText(f), post) && GoodWord(f[0].0)
    ensures var (w, a) := f[0]; var rest := FileText(f[1..]); var q := p + |ArrowText(a)|;
      && q + |w| <= |s| && s[p..q] == ArrowText(a) && At(s, q) != '>'
      && Reads(s, q, w, rest + post) && Reads(s, q + |w|, rest, post)
  {
    var (w, a) := f[0];
    var rest := FileText(f[1..]);
    var q := p + |ArrowText(a)|;
    assert FileText(f) == ArrowText(a) + (w + rest);
    hide FileText, ArrowText;
    ReadsSplit(s, p, ArrowText(a), w + rest, post);
    assert s[p..q] == s[p..][..|ArrowText(a)|];
    hide Reads;
    ReadsSplit(s, q, w, rest, post);
    ReadsAt(s, q, w, rest + post);
    ReadsAt(s, q + |w|, rest, post);
  }

  lemma OneRedir(s: string, p: nat, eq: nat, a: Arrow)
    requires var q := p + |ArrowText(a)|;
      && q <= eq <= |s| && Skip(s, p) == p && Skip(s, q) == q && Skip(s, eq) == eq && At(s, p) == ArrowText(a)[0]
      && Scan(s, p) == (if a.Double? then Append else Punct(ArrowText(a)[0]), q) && Scan(s, q) == (Word, eq)
    requires ParseRedirs(s, eq).RedirsOk?
    ensures ParseRedirs(s, p)
         == RedirsOk([Redirection(Span(p + |ArrowText(a)|, eq), ModeOf(a))] + ParseRedirs(s, eq).rs,
                     ParseRedirs(s, eq).pos)
  {
    hide Scan;
  }

  lemma NoSkipFiles(s: string, p: nat, f: seq<(string, Arrow)>, post: string)
    requires Reads(s, p, FileText(f), post) && Stop(post, "|)&;")
    ensures Skip(s, p) == p
    ensures f == [] ==> At(s, p) != '<' && At(s, p) != '>'
    ensures f != [] ==> At(s, p) == ArrowText(f[0].1)[0]
  {
    ReadsAt(s, p, FileText(f), post);
    FileTextStarts(f, post, "|)&;");
    hide Reads;
    NoSkip(s, p);
  }

  /** parseredirs reads a list of redirections back. */
  lemma {:induction false} ReadFiles(s: string, p: nat, f: seq<(string, Arrow)>, post: string)
    requires Reads(s, p, FileText(f), post) && GoodFiles(f) && Stop(post, "|)&;")
    ensures ParseRedirs(s, p).RedirsOk? && ParseRedirs(s, p).pos == p + |FileText(f)|
    ensures Named(s, ParseRedirs(s, p).rs, f)
    decreases |f|
  {
    hide Skip, Scan, ParseRedirs, Reads, At, Stop, ArrowText, GoodWord;
    NoSkipFiles(s, p, f, post);
    if f == [] {
      NoRedirs(s, p);
    } else {
      ReadFile(s, p, f, post);
      var eq := p + |ArrowText(f[0].1)| + |f[0].0|;
      NoSkipFiles(s, eq, f[1..], post);
      ReadFiles(s, eq, f[1..], post);
      OneRedir(s, p, eq, f[0].1);
      assert FileText(f) == ArrowText(f[0].1) + f[0].0 + FileText(f[1..]);
    }
  }

  // ---------------------------------------------------------------- towers of redirections

  function Tower(t: Tree, f: seq<(string, Arrow)>): (r: Tree)
  {
    if f == [] then t else TRedir(Tower(t, f[..|f| - 1]), f[|f| - 1].0, f[|f| - 1].1)
  }

  lemma {:induction false} TowerOf(t: Tree)
    ensures Tower(Core(t), Files(t)) == t
  {
    if t.TRedir? {
      TowerOf(t.t);
      var f := Files(t);
      assert f[..|f| - 1] == Files(t.t);
    }
  }

  lemma {:induction false} GoodCore(t: Tree)
    requires Good(t)
    ensures Good(Core(t)) && GoodFiles(Files(t))
  {
    if t.TRedir? {
      GoodCore(t.t);
    }
  }

  lemma {:induction false} WrapText(s: string, c: Cmd, t: Tree, rs: seq<Redirection>, f: seq<(string, Arrow)>)
    requires Inside(s, c) && Text(s, c) == Plain(t) && Named(s, rs, f)
    ensures Inside(s, Wrap(c, rs)) && Text(s, Wrap(c, rs)) == Plain(Tower(t, f))
    decreases |rs|
  {
    if rs != [] {
      WrapText(s, c, t, rs[..|rs| - 1], f[..|f| - 1]);
    }
  }
}
