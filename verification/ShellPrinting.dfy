/** The parser undoes a fully parenthesised printing of any command. */
module ShellPrinting {
  import opened ShellParser

  /** A word the shell can read back. */
  predicate IsWord(w: string)
  {
    w != [] && forall i :: 0 <= i < |w| ==> IsWordChar(w[i])
  }

  /** The redirections the syntax can express. */
  predicate IsRedirection(mode: int, fd: int)
  {
    (mode == Mode('<') && fd == 0) || (mode == Mode('>') && fd == 1) || (mode == Mode('+') && fd == 1)
  }

  /** Commands that have a printing: valid words, at most MAXARGS - 1 of them in each simple command. */
  predicate Printable(c: Cmd<string>)
  {
    match c
    case Exec(argv) => |argv| < MAXARGS && forall i :: 0 <= i < |argv| ==> IsWord(argv[i])
    case Redir(inner, file, mode, fd) => Printable(inner) && IsWord(file) && IsRedirection(mode, fd)
    case Pipe(l, r) => Printable(l) && Printable(r)
    case List(l, r) => Printable(l) && Printable(r)
    case Back(inner) => Printable(inner)
  }

  function Words(argv: seq<string>): string
  {
    if argv == [] then "" else if |argv| == 1 then argv[0] else argv[0] + " " + Words(argv[1..])
  }

  function Arrow(mode: int): string
  {
    if mode == Mode('<') then "<" else if mode == Mode('>') then ">" else ">>"
  }

  function Print(c: Cmd<string>): string
  {
    match c
    case Exec(argv) => Words(argv)
    case Redir(inner, file, mode, fd) => "(" + Print(inner) + ")" + Arrow(mode) + file
    case Pipe(l, r) => "(" + Print(l) + ")|(" + Print(r) + ")"
    case List(l, r) => "(" + Print(l) + ");(" + Print(r) + ")"
    case Back(inner) => "(" + Print(inner) + ")&"
  }

  /** What a parsed command means: each piece of the input replaced by the text it covers. */
  function Meaning(s: string, c: Cmd<Span>): Cmd<string>
  {
    match c
    case Exec(argv) => Exec(seq(|argv|, i requires 0 <= i < |argv| => Text(s, argv[i])))
    case Redir(inner, file, mode, fd) => Redir(Meaning(s, inner), Text(s, file), mode, fd)
    case Pipe(l, r) => Pipe(Meaning(s, l), Meaning(s, r))
    case List(l, r) => List(Meaning(s, l), Meaning(s, r))
    case Back(inner) => Back(Meaning(s, inner))
  }

  function Text(s: string, t: Span): string
  {
    if t.q <= t.eq <= |s| then s[t.q..t.eq] else ""
  }

  /** `t` stands in `s` at `p`. */
  predicate Stands(s: string, p: nat, t: string)
  {
    p + |t| <= |s| && s[p..p + |t|] == t
  }

  lemma StandsPart(s: string, p: nat, a: string, b: string)
    requires Stands(s, p, a + b)
    ensures Stands(s, p, a) && Stands(s, p + |a|, b)
  {
    var t := s[p..p + |a| + |b|];
    assert s[p..p + |a|] == t[..|a|] && s[p + |a|..p + |a| + |b|] == t[|a|..];
  }

  lemma StandsChar(s: string, p: nat, c: char, b: string)
    requires Stands(s, p, [c] + b)
    ensures At(s, p) == c && p < |s| && Stands(s, p + 1, b)
  {
    StandsPart(s, p, [c], b);
    assert s[p..p + 1] == [c];
  }

  // ------------------------------------------------------- tokens where we know them

  lemma NoSpace(s: string, p: nat)
    requires p <= |s| && !IsSpace(At(s, p))
    ensures SkipSpace(s, p) == p
  {
  }

  /** A symbol is a token of its own. */
  lemma SymbolToken(s: string, p: nat)
    requires p < |s| && NUL !in s && IsSymbol(s[p]) && s[p] != '>'
    ensures var t := TokenAt(s, p); t.kind == s[p] && t.next == SkipSpace(s, p + 1)
  {
    NoSpace(s, p);
    assert s[p] in s;
  }

  lemma {:induction false} WordEnds(s: string, p: nat, n: nat)
    requires p + n <= |s| && (forall i :: p <= i < p + n ==> IsWordChar(s[i])) && !IsWordChar(At(s, p + n)) && NUL !in s
    ensures EndWord(s, p) == p + n
    decreases n
  {
    if n > 0 {
      WordEnds(s, p + 1, n - 1);
    } else if p < |s| {
      assert s[p] in s;
    }
  }

  lemma WordToken(s: string, p: nat, w: string)
    requires p <= |s| && NUL !in s && IsWord(w) && Stands(s, p, w) && !IsWordChar(At(s, p + |w|))
    ensures var t := TokenAt(s, p);
            t.kind == 'a' && t.q == p && t.eq == p + |w| && t.next == SkipSpace(s, p + |w|) && Text(s, Span(t.q, t.eq)) == w
    ensures !PeekAt(s, p, "|)&;") && !PeekAt(s, p, "<>") && !PeekAt(s, p, "(")
  {
    forall i | p <= i < p + |w|
      ensures IsWordChar(s[i])
    {
      assert s[i] == w[i - p];
    }
    NoSpace(s, p);
    WordEnds(s, p, |w|);
  }

  /** The character at `p` is `c`, so peek sees it and nothing else. */
  lemma PeekIs(s: string, p: nat, toks: string)
    requires p <= |s| && !IsSpace(At(s, p))
    ensures PeekAt(s, p, toks) == (At(s, p) != NUL && At(s, p) in toks)
  {
    NoSpace(s, p);
  }

  /** What may follow a command: a closing parenthesis or the end. */
  predicate Closed(s: string, p: nat)
  {
    p <= |s| && (p == |s| || s[p] == ')')
  }

  // ------------------------------------------------------------- simple commands

  lemma NoRedirs(s: string, p: nat)
    requires p <= |s| && NUL !in s && !IsSpace(At(s, p)) && At(s, p) != '<' && At(s, p) != '>'
    ensures Redirs(s, p) == Ok(([], p))
  {
    NoSpace(s, p);
    PeekIs(s, p, "<>");
  }

  lemma NoArgs(s: string, p: nat, n: nat)
    requires NUL !in s && Closed(s, p)
    ensures Args(s, p, n) == Ok(([], [], p))
  {
    NoSpace(s, p);
    PeekIs(s, p, "|)&;");
  }

  /** The words of a simple command come back one by one. */
  lemma {:induction false} ArgsBack(s: string, p: nat, argv: seq<string>, n: nat)
    requires p <= |s| && NUL !in s && Stands(s, p, Words(argv)) && Closed(s, p + |Words(argv)|)
    requires n + |argv| < MAXARGS && forall i :: 0 <= i < |argv| ==> IsWord(argv[i])
    ensures var r := Args(s, p, n);
            && r.Ok? && r.value.1 == [] && r.value.2 == p + |Words(argv)| && |r.value.0| == |argv|
            && forall i :: 0 <= i < |argv| ==> Text(s, r.value.0[i]) == argv[i]
    decreases |argv|
  {
    hide Args, SkipSpace, TokenAt, PeekAt, Redirs, Text, EndWord, Words, Stands, IsWord;
    WordsAre(argv);
    if argv == [] {
      NoArgs(s, p, n);
    } else {
      var w, rest := argv[0], argv[1..];
      var end := p + |w|;
      if |argv| == 1 {
        WordAt(s, p, w, end);
        NoSpace(s, end);
        NoRedirs(s, end);
        WordsAre(rest);
        StandsPart(s, p, w, "") by { assert w + "" == w; }
        ArgsBack(s, end, rest, n + 1);
        ArgsStep(s, p, w, n, end);
      } else {
        StandsPart(s, p, w, " " + Words(rest));
        StandsChar(s, end, ' ', Words(rest));
        WordAt(s, p, w, end);
        FirstWord(s, end + 1, rest);
        SkipOne(s, end);
        NoRedirs(s, end + 1);
        ArgsBack(s, end + 1, rest, n + 1);
        ArgsStep(s, p, w, n, end + 1);
      }
    }
  }

  lemma WordsAre(argv: seq<string>)
    ensures argv == [] ==> Words(argv) == ""
    ensures |argv| == 1 ==> Words(argv) == argv[0]
    ensures |argv| > 1 ==> Words(argv) == argv[0] + (" " + Words(argv[1..]))
  {
    if |argv| > 1 {
      assert argv[0] + " " + Words(argv[1..]) == argv[0] + (" " + Words(argv[1..]));
    }
  }

  lemma WordAt(s: string, p: nat, w: string, end: nat)
    requires p <= |s| && NUL !in s && IsWord(w) && Stands(s, p, w) && end == p + |w|
    requires end == |s| || s[end] == ')' || s[end] == ' '
    ensures var t := TokenAt(s, p); t.kind == 'a' && t.q == p && t.eq == end && t.next == SkipSpace(s, end) && Text(s, Span(p, end)) == w
    ensures !PeekAt(s, p, "|)&;") && SkipSpace(s, p) == p
  {
    WordToken(s, p, w);
    assert s[p] == w[0];
    NoSpace(s, p);
  }

  lemma SkipOne(s: string, p: nat)
    requires p < |s| && s[p] == ' ' && !IsSpace(At(s, p + 1))
    ensures SkipSpace(s, p) == p + 1
  {
    NoSpace(s, p + 1);
  }

  lemma FirstWord(s: string, p: nat, argv: seq<string>)
    requires argv != [] && IsWord(argv[0]) && Stands(s, p, Words(argv))
    ensures p < |s| && IsWordChar(s[p])
  {
    assert Words(argv)[0] == argv[0][0];
    assert s[p] == s[p..p + |Words(argv)|][0];
  }

  /** One word read, no redirection after it, and the rest from `next`. */
  lemma ArgsStep(s: string, p: nat, w: string, n: nat, next: nat)
    requires p <= |s| && NUL !in s && next <= |s| && SkipSpace(s, p) == p && !PeekAt(s, p, "|)&;")
    requires var t := TokenAt(s, p); t.kind == 'a' && t.next == next && t.q == p && t.eq == p + |w|
    requires n + 1 < MAXARGS && Redirs(s, next) == Ok(([], next)) && Args(s, next, n + 1).Ok?
    ensures var r, rest := Args(s, p, n), Args(s, next, n + 1);
            && r.Ok? && r.value.0 == [Span(p, p + |w|)] + rest.value.0 && r.value.1 == rest.value.1 && r.value.2 == rest.value.2
  {
    hide TokenAt, SkipSpace, PeekAt, Redirs;
    var rest := Args(s, next, n + 1);
    assert [] + rest.value.1 == rest.value.1;
  }

  /** A simple command comes back. */
  lemma SimpleBack(s: string, p: nat, argv: seq<string>)
    requires p <= |s| && NUL !in s && Stands(s, p, Words(argv)) && Closed(s, p + |Words(argv)|)
    requires |argv| < MAXARGS && forall i :: 0 <= i < |argv| ==> IsWord(argv[i])
    ensures var r := Command(s, p); r.Ok? && Meaning(s, r.value.0) == Exec(argv) && r.value.1 == p + |Words(argv)|
  {
    hide Args, TokenAt, PeekAt, Redirs, EndWord;
    if argv != [] {
      FirstWord(s, p, argv);
    }
    NoSpace(s, p);
    NoRedirs(s, p);
    PeekIs(s, p, "(");
    ArgsBack(s, p, argv, 0);
    var a := Args(s, p, 0).value;
    assert [] + a.1 == [];
    assert Meaning(s, Exec(a.0)) == Exec(argv);
  }

  // ------------------------------------------------------------------- blocks

  /** After a command at `p` that is followed by something that continues nothing, the line ends there. */
  lemma LineIs(s: string, p: nat, c: Cmd<Span>, end: nat)
    requires p <= |s| && NUL !in s && Command(s, p) == Ok((c, end)) && Closed(s, end)
    ensures Line(s, p) == Ok((c, end))
  {
    hide Command, TokenAt;
    NoSpace(s, end);
    PeekIs(s, end, "|");
    PeekIs(s, end, "&");
    PeekIs(s, end, ";");
  }

  /** `c` comes back from its printing at `p`, whatever closed context it stands in. */
  ghost predicate ComesBack(s: string, p: nat, c: Cmd<string>)
    requires p <= |s| && NUL !in s
  {
    var r := Line(s, p); r.Ok? && Meaning(s, r.value.0) == c && r.value.1 == p + |Print(c)|
  }

  /** A block whose inside and redirections are known. */
  lemma BlockIs(s: string, p: nat, c: Cmd<Span>, e: nat, rs: seq<Redirection<Span>>, end: nat)
    requires p < |s| && NUL !in s && s[p] == '(' && !IsSpace(At(s, p + 1)) && Line(s, p + 1) == Ok((c, e))
    requires e < |s| && s[e] == ')' && Redirs(s, e + 1) == Ok((rs, end))
    ensures Command(s, p) == Ok((Wrap(c, rs), end))
  {
    hide Line, Redirs, TokenAt, Simple;
    NoSpace(s, p);
    NoSpace(s, p + 1);
    NoSpace(s, e);
    PeekIs(s, p, "(");
    PeekIs(s, e, ")");
    SymbolToken(s, p);
    SymbolToken(s, e);
    RedirsSkips(s, e + 1);
  }

  /** A printing does not start with a space. */
  lemma PrintStarts(c: Cmd<string>)
    requires Printable(c) && Print(c) != []
    ensures !IsSpace(Print(c)[0])
  {
    match c
    case Exec(argv) => assert Words(argv)[0] == argv[0][0];
    case _ =>
  }

  /** Where the parentheses around `c` are. */
  lemma Parens(s: string, p: nat, c: Cmd<string>, after: string)
    requires Printable(c) && Stands(s, p, "(" + Print(c) + ")" + after)
    ensures p + |Print(c)| + 2 <= |s| && s[p] == '(' && Stands(s, p + 1, Print(c)) && s[p + 1 + |Print(c)|] == ')'
    ensures !IsSpace(At(s, p + 1)) && Stands(s, p + |Print(c)| + 2, after)
  {
    hide Print, Printable, Stands, IsSpace;
    var inside := Print(c);
    Bracketed(inside, after);
    StandsChar(s, p, '(', inside + ([')'] + after));
    StandsPart(s, p + 1, inside, [')'] + after);
    StandsChar(s, p + 1 + |inside|, ')', after);
    if inside != [] {
      PrintStarts(c);
      StandsFirst(s, p + 1, inside);
    } else {
      NotSpace();
    }
  }

  lemma NotSpace()
    ensures !IsSpace(')')
  {
  }

  lemma Bracketed(inside: string, after: string)
    ensures "(" + inside + ")" + after == ['('] + (inside + ([')'] + after))
  {
  }

  lemma StandsFirst(s: string, p: nat, t: string)
    requires Stands(s, p, t) && t != []
    ensures p < |s| && s[p] == t[0]
  {
    assert s[p] == s[p..p + |t|][0];
  }

  /** A parenthesised command with no redirection after it. */
  lemma BlockBack(s: string, p: nat, c: Cmd<string>, after: string)
    requires NUL !in s && Printable(c) && Stands(s, p, "(" + Print(c) + ")" + after) && p < |s| && ComesBack(s, p + 1, c)
    requires var end := p + |Print(c)| + 2; !IsSpace(At(s, end)) && At(s, end) != '<' && At(s, end) != '>'
    ensures var r := Command(s, p); r.Ok? && Meaning(s, r.value.0) == c && r.value.1 == p + |Print(c)| + 2 <= |s|
  {
    hide Line, Redirs, Command, Print;
    Parens(s, p, c, after);
    var inner := Line(s, p + 1).value;
    NoRedirs(s, inner.1 + 1);
    BlockIs(s, p, inner.0, inner.1, [], inner.1 + 1);
  }

  /** A redirection after a block. */
  lemma RedirBack(s: string, p: nat, c: Cmd<string>, file: string, mode: int, fd: int)
    requires p <= |s| && NUL !in s && Printable(Redir(c, file, mode, fd)) && Stands(s, p, Print(Redir(c, file, mode, fd)))
    requires p < |s| && ComesBack(s, p + 1, c) && Closed(s, p + |Print(Redir(c, file, mode, fd))|)
    ensures ComesBack(s, p, Redir(c, file, mode, fd))
  {
    hide Line, Redirs, Command, Print, Stands, Text, Arrow, IsWord, IsRedirection, Wrap;
    var end := p + |Print(Redir(c, file, mode, fd))|;
    PrintIs(c, file, mode, fd);
    Parens(s, p, c, Arrow(mode) + file);
    var inner := Line(s, p + 1).value;
    var at := inner.1 + 1;
    ArrowBack(s, at, file, mode, fd);
    var r := Redirs(s, at).value.0[0];
    assert Redirs(s, at).value.0 == [r];
    BlockIs(s, p, inner.0, inner.1, [r], end);
    WrapOne(inner.0, r);
    LineIs(s, p, Wrap(inner.0, [r]), end);
  }

  lemma WrapOne(c: Cmd<Span>, r: Redirection<Span>)
    ensures Wrap(c, [r]) == Redir(c, r.file, r.mode, r.fd)
  {
    assert [r][..0] == [];
  }

  /** The printings of a redirection and of a command in the background. */
  lemma PrintIs(c: Cmd<string>, file: string, mode: int, fd: int)
    ensures Print(Redir(c, file, mode, fd)) == "(" + Print(c) + ")" + (Arrow(mode) + file)
    ensures |Print(Redir(c, file, mode, fd))| == |Print(c)| + |Arrow(mode)| + |file| + 2
    ensures Print(Back(c)) == "(" + Print(c) + ")" + "&" && |Print(Back(c))| == |Print(c)| + 3
  {
  }

  lemma ArrowBack(s: string, p: nat, file: string, mode: int, fd: int)
    requires p <= |s| && NUL !in s && IsWord(file) && IsRedirection(mode, fd) && Stands(s, p, Arrow(mode) + file)
    requires Closed(s, p + |Arrow(mode)| + |file|)
    ensures var r := Redirs(s, p);
            && r.Ok? && r.value.1 == p + |Arrow(mode)| + |file| && |r.value.0| == 1
            && r.value.0[0].mode == mode && r.value.0[0].fd == fd && Text(s, r.value.0[0].file) == file
  {
    hide TokenAt, SkipSpace, PeekAt, Redirs, EndWord, Text, Arrow;
    var q, end := p + |Arrow(mode)|, p + |Arrow(mode)| + |file|;
    StandsPart(s, p, Arrow(mode), file);
    assert s[q] == s[q..end][0] == file[0];
    ArrowToken(s, p, mode, fd);
    WordToken(s, q, file);
    NoSpace(s, end);
    NoRedirs(s, end);
    NoSpace(s, p);
    PeekIs(s, p, "<>");
    RedirsOne(s, p);
  }

  lemma ArrowToken(s: string, p: nat, mode: int, fd: int)
    requires p <= |s| && NUL !in s && IsRedirection(mode, fd) && Stands(s, p, Arrow(mode))
    requires At(s, p + |Arrow(mode)|) != '>' && !IsSpace(At(s, p + |Arrow(mode)|))
    ensures var t := TokenAt(s, p); t.next == p + |Arrow(mode)| && Mode(t.kind) == mode && Fd(t.kind) == fd
    ensures p < |s| && (s[p] == '<' || s[p] == '>')
  {
    var a := Arrow(mode);
    assert s[p] == s[p..p + |a|][0];
    NoSpace(s, p);
    NoSpace(s, p + |a|);
    if |a| == 2 {
      assert s[p + 1] == s[p..p + |a|][1];
    }
  }

  lemma RedirsOne(s: string, p: nat)
    requires p <= |s| && NUL !in s && SkipSpace(s, p) == p && PeekAt(s, p, "<>")
    requires var t := TokenAt(s, p); var f := TokenAt(s, t.next); f.kind == 'a' && Redirs(s, f.next) == Ok(([], f.next))
    ensures var t := TokenAt(s, p);
            var f := TokenAt(s, t.next);
            Redirs(s, p) == Ok(([Redirection(Span(f.q, f.eq), Mode(t.kind), Fd(t.kind))], f.next))
  {
    hide TokenAt, SkipSpace, PeekAt;
    var t := TokenAt(s, p);
    var f := TokenAt(s, t.next);
    var r := Redirection(Span(f.q, f.eq), Mode(t.kind), Fd(t.kind));
    assert [r] + [] == [r];
  }

  // ------------------------------------------------------------------ the theorem

  /** What a bar, a semicolon and an ampersand do after a block. */
  lemma PipeIs(s: string, p: nat, l: Cmd<Span>, e: nat, r: Cmd<Span>, end: nat)
    requires p <= |s| && NUL !in s && Command(s, p) == Ok((l, e)) && e < |s| && s[e] == '|' && !IsSpace(At(s, e + 1))
    requires Command(s, e + 1) == Ok((r, end)) && Closed(s, end)
    ensures Line(s, p) == Ok((Pipe(l, r), end))
  {
    hide Command, TokenAt;
    NoSpace(s, e);
    NoSpace(s, e + 1);
    NoSpace(s, end);
    SymbolToken(s, e);
    PeekIs(s, e, "|");
    PeekIs(s, end, "|");
    PeekIs(s, end, "&");
    PeekIs(s, end, ";");
    assert Pipeline(s, e + 1) == Ok((r, end));
  }

  lemma ListIs(s: string, p: nat, l: Cmd<Span>, e: nat, r: Cmd<Span>, end: nat)
    requires p <= |s| && NUL !in s && Command(s, p) == Ok((l, e)) && e < |s| && s[e] == ';' && !IsSpace(At(s, e + 1))
    requires Line(s, e + 1) == Ok((r, end))
    ensures Line(s, p) == Ok((List(l, r), end))
  {
    hide Command, TokenAt;
    NoSpace(s, e);
    NoSpace(s, e + 1);
    SymbolToken(s, e);
    PeekIs(s, e, "|");
    PeekIs(s, e, "&");
    PeekIs(s, e, ";");
  }

  lemma BackIs(s: string, p: nat, c: Cmd<Span>, e: nat)
    requires p <= |s| && NUL !in s && Command(s, p) == Ok((c, e)) && e < |s| && s[e] == '&' && Closed(s, e + 1)
    ensures Line(s, p) == Ok((Back(c), e + 1))
  {
    hide Command, TokenAt;
    NoSpace(s, e);
    NoSpace(s, e + 1);
    SymbolToken(s, e);
    PeekIs(s, e, "|");
    PeekIs(s, e, "&");
    PeekIs(s, e + 1, "&");
    PeekIs(s, e + 1, ";");
    assert Pipeline(s, p) == Ok((c, e));
    assert Backs(s, Back(c), e + 1) == (Back(c), e + 1);
    assert Backs(s, c, e) == Backs(s, Back(c), e + 1);
  }

  /** Two blocks with a symbol between them. */
  function Joined(l: Cmd<string>, sep: char, r: Cmd<string>): string
  {
    "(" + Print(l) + ")" + ([sep] + ("(" + Print(r) + ")" + ""))
  }

  /** Where the two blocks and the symbol are. */
  predicate Apart(s: string, p: nat, l: Cmd<string>, sep: char, r: Cmd<string>)
  {
    var e := p + |Print(l)| + 2;
    && e + 1 < |s| && Stands(s, p + 1, Print(l)) && Closed(s, p + 1 + |Print(l)|)
    && s[e] == sep && s[e + 1] == '(' && Stands(s, e + 1, "(" + Print(r) + ")" + "")
    && Stands(s, e + 2, Print(r)) && Closed(s, e + 2 + |Print(r)|)
  }

  lemma JoinedParts(s: string, p: nat, l: Cmd<string>, sep: char, r: Cmd<string>)
    requires Printable(l) && Printable(r) && Stands(s, p, Joined(l, sep, r))
    ensures Apart(s, p, l, sep, r)
  {
    hide Print, Stands;
    var last := "(" + Print(r) + ")" + "";
    Parens(s, p, l, [sep] + last);
    var e := p + |Print(l)| + 2;
    StandsChar(s, e, sep, last);
    Parens(s, e + 1, r, "");
  }

  /** The two blocks are read as commands. */
  ghost predicate BothBack(s: string, p: nat, l: Cmd<string>, sep: char, r: Cmd<string>)
    requires NUL !in s
  {
    var e := p + |Print(l)| + 2;
    && e + 1 < |s| && s[e] == sep && s[e + 1] == '('
    && Command(s, p).Ok? && Meaning(s, Command(s, p).value.0) == l && Command(s, p).value.1 == e
    && Command(s, e + 1).Ok? && Meaning(s, Command(s, e + 1).value.0) == r && Command(s, e + 1).value.1 == e + |Print(r)| + 3
  }

  lemma JoinedBack(s: string, p: nat, l: Cmd<string>, sep: char, r: Cmd<string>)
    requires NUL !in s && Printable(l) && Printable(r) && (sep == '|' || sep == ';') && Stands(s, p, Joined(l, sep, r))
    requires p < |s| && ComesBack(s, p + 1, l) && p + |Print(l)| + 4 <= |s| && ComesBack(s, p + |Print(l)| + 4, r)
    requires Closed(s, p + |Print(l)| + |Print(r)| + 5)
    ensures BothBack(s, p, l, sep, r)
  {
    hide Line, Command, Redirs, Print, ComesBack, Stands, Printable, Meaning;
    var e := p + |Print(l)| + 2;
    JoinedParts(s, p, l, sep, r);
    BlockBack(s, p, l, [sep] + ("(" + Print(r) + ")" + ""));
    BlockBack(s, e + 1, r, "");
  }

  lemma PipeBack(s: string, p: nat, l: Cmd<string>, r: Cmd<string>)
    requires NUL !in s && Printable(l) && Printable(r) && Stands(s, p, Joined(l, '|', r))
    requires p < |s| && ComesBack(s, p + 1, l) && p + |Print(l)| + 4 <= |s| && ComesBack(s, p + |Print(l)| + 4, r)
    requires Closed(s, p + |Print(l)| + |Print(r)| + 5)
    ensures ComesBack(s, p, Pipe(l, r))
  {
    hide Line, Command, Redirs, Stands, Print, Joined;
    JoinedBack(s, p, l, '|', r);
    var e := p + |Print(l)| + 2;
    PipeIs(s, p, Command(s, p).value.0, e, Command(s, e + 1).value.0, e + |Print(r)| + 3);
    PrintJoined(l, r);
  }

  lemma ListBack(s: string, p: nat, l: Cmd<string>, r: Cmd<string>)
    requires NUL !in s && Printable(l) && Printable(r) && Stands(s, p, Joined(l, ';', r))
    requires p < |s| && ComesBack(s, p + 1, l) && p + |Print(l)| + 4 <= |s| && ComesBack(s, p + |Print(l)| + 4, r)
    requires Closed(s, p + |Print(l)| + |Print(r)| + 5)
    ensures ComesBack(s, p, List(l, r))
  {
    hide Line, Command, Redirs, Stands, Print, Joined;
    JoinedBack(s, p, l, ';', r);
    var e := p + |Print(l)| + 2;
    LineIs(s, e + 1, Command(s, e + 1).value.0, e + |Print(r)| + 3);
    ListIs(s, p, Command(s, p).value.0, e, Command(s, e + 1).value.0, e + |Print(r)| + 3);
    PrintJoined(l, r);
  }

  lemma PrintJoined(l: Cmd<string>, r: Cmd<string>)
    ensures Print(Pipe(l, r)) == Joined(l, '|', r) && Print(List(l, r)) == Joined(l, ';', r)
    ensures |Joined(l, '|', r)| == |Joined(l, ';', r)| == |Print(l)| + |Print(r)| + 5
  {
    Glued(Print(l), Print(r), '|', ")|(");
    Glued(Print(l), Print(r), ';', ");(");
  }

  lemma Glued(a: string, b: string, sep: char, middle: string)
    requires middle == [')', sep, '(']
    ensures "(" + a + middle + b + ")" == "(" + a + ")" + ([sep] + ("(" + b + ")" + ""))
  {
    var last := "(" + b + ")" + "";
    assert middle + (b + ")") == ")" + ([sep] + last);
    assert "(" + a + (middle + (b + ")")) == "(" + a + middle + b + ")";
    assert "(" + a + (")" + ([sep] + last)) == "(" + a + ")" + ([sep] + last);
  }

  lemma BackBack(s: string, p: nat, c: Cmd<string>)
    requires NUL !in s && Printable(c) && Stands(s, p, "(" + Print(c) + ")" + "&") && p < |s| && ComesBack(s, p + 1, c)
    requires Closed(s, p + |Print(c)| + 3)
    ensures ComesBack(s, p, Back(c))
  {
    hide Line, Command, Redirs, Print, Stands;
    PrintIs(c, "", 0, 0);
    Parens(s, p, c, "&");
    StandsChar(s, p + |Print(c)| + 2, '&', "") by { assert "&" == ['&'] + ""; }
    BlockBack(s, p, c, "&");
    BackIs(s, p, Command(s, p).value.0, p + |Print(c)| + 2);
  }

  lemma ExecBack(s: string, p: nat, argv: seq<string>)
    requires p <= |s| && NUL !in s && Printable(Exec(argv)) && Stands(s, p, Words(argv)) && Closed(s, p + |Words(argv)|)
    ensures ComesBack(s, p, Exec(argv))
  {
    hide Line, Command, Redirs;
    SimpleBack(s, p, argv);
    LineIs(s, p, Command(s, p).value.0, p + |Words(argv)|);
  }

  lemma PrintExec(argv: seq<string>)
    ensures Print(Exec(argv)) == Words(argv)
  {
  }

  /** In any closed context, the printing of a command comes back as the command. */
  lemma {:induction false} PrintComesBack(s: string, p: nat, c: Cmd<string>)
    requires p <= |s| && NUL !in s && Printable(c) && Stands(s, p, Print(c)) && Closed(s, p + |Print(c)|)
    ensures ComesBack(s, p, c)
    decreases c
  {
    hide ComesBack, Joined, Words, Stands, Print, Arrow, IsWord, IsRedirection;
    match c
    case Exec(argv) =>
      PrintExec(argv);
      ExecBack(s, p, argv);
    case Redir(inner, file, mode, fd) =>
      PrintIs(inner, file, mode, fd);
      Parens(s, p, inner, Arrow(mode) + file);
      PrintComesBack(s, p + 1, inner);
      RedirBack(s, p, inner, file, mode, fd);
    case Back(inner) =>
      PrintIs(inner, "", 0, 0);
      Parens(s, p, inner, "&");
      PrintComesBack(s, p + 1, inner);
      BackBack(s, p, inner);
    case Pipe(l, r) =>
      PrintJoined(l, r);
      JoinedParts(s, p, l, '|', r);
      PrintComesBack(s, p + 1, l);
      PrintComesBack(s, p + |Print(l)| + 4, r);
      PipeBack(s, p, l, r);
    case List(l, r) =>
      PrintJoined(l, r);
      JoinedParts(s, p, l, ';', r);
      PrintComesBack(s, p + 1, l);
      PrintComesBack(s, p + |Print(l)| + 4, r);
      ListBack(s, p, l, r);
  }

  /** Parsing the printing of a command gives the command back. */
  lemma RoundTrip(c: Cmd<string>)
    requires Printable(c)
    ensures NUL !in Print(c) && Parse(Print(c)).Ok? && Meaning(Print(c), Parse(Print(c)).value) == c
  {
    hide Line, Print;
    var s := Print(c);
    PrintHasNoNul(c);
    assert s[0..0 + |s|] == s;
    PrintComesBack(s, 0, c);
    NoSpace(s, |s|);
  }

  lemma {:induction false} PrintHasNoNul(c: Cmd<string>)
    requires Printable(c)
    ensures NUL !in Print(c)
  {
    match c
    case Exec(argv) => WordsHaveNoNul(argv);
    case Redir(inner, file, mode, fd) =>
      PrintHasNoNul(inner);
      assert NUL !in file && NUL !in Arrow(mode);
    case Back(inner) => PrintHasNoNul(inner);
    case Pipe(l, r) => PrintHasNoNul(l); PrintHasNoNul(r);
    case List(l, r) => PrintHasNoNul(l); PrintHasNoNul(r);
  }

  lemma {:induction false} WordsHaveNoNul(argv: seq<string>)
    requires forall i :: 0 <= i < |argv| ==> IsWord(argv[i])
    ensures NUL !in Words(argv)
  {
    if argv != [] {
      assert NUL !in argv[0];
      WordsHaveNoNul(argv[1..]);
    }
  }
}
