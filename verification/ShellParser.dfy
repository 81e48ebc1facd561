/** The shell's parser: tokens of the input line, and the recursive descent over them. */
module ShellParser {

  datatype Result<+T> = Ok(value: T) | Err(error: Error)

  /** The ways the parser panics. */
  datatype Error = MissingFile | MissingParen | Syntax | TooManyArgs | Leftovers

  /** A piece of the input, from `q` up to `eq`. */
  datatype Span = Span(q: nat, eq: nat)

  /** Commands, with words of type W: pieces of the input for the parser, strings for what it means. */
  datatype Cmd<W> =
    | Exec(argv: seq<W>)
    | Redir(cmd: Cmd<W>, file: W, mode: int, fd: int)
    | Pipe(left: Cmd<W>, right: Cmd<W>)
    | List(left: Cmd<W>, right: Cmd<W>)
    | Back(cmd: Cmd<W>)

  /** A redirection waiting for its command. */
  datatype Redirection<W> = Redirection(file: W, mode: int, fd: int)

  const MAXARGS := 10
  const O_RDONLY := 0x000
  const O_WRONLY := 0x001
  const O_CREATE := 0x200
  const O_TRUNC := 0x400
  const NUL: char := '\0'

  // ------------------------------------------------------------------ tokens

  predicate IsSpace(c: char)
  {
    c == ' ' || c == '\t' || c == '\r' || c == '\n' || c == '\U{0B}'
  }

  predicate IsSymbol(c: char)
  {
    c == '<' || c == '|' || c == '>' || c == '&' || c == ';' || c == '(' || c == ')'
  }

  predicate IsWordChar(c: char)
  {
    !IsSpace(c) && !IsSymbol(c) && c != NUL
  }

  /** The character at `p`, the terminating NUL at the end. */
  function At(s: string, p: nat): char
  {
    if p < |s| then s[p] else NUL
  }

  function SkipSpace(s: string, p: nat): (r: nat)
    requires p <= |s|
    ensures p <= r <= |s| && !IsSpace(At(s, r)) && forall i :: p <= i < r ==> IsSpace(s[i])
    decreases |s| - p
  {
    if p < |s| && IsSpace(s[p]) then SkipSpace(s, p + 1) else p
  }

  function EndWord(s: string, p: nat): (r: nat)
    requires p <= |s|
    ensures p <= r <= |s| && (forall i :: p <= i < r ==> !IsSpace(s[i]) && !IsSymbol(s[i]))
    ensures r < |s| ==> IsSpace(s[r]) || IsSymbol(s[r])
    decreases |s| - p
  {
    if p < |s| && !IsSpace(s[p]) && !IsSymbol(s[p]) then EndWord(s, p + 1) else p
  }

  /** A token: its kind, where it starts and ends, and where the next one begins.  The kind is the symbol itself, '+' for
      two '>', 'a' for a word, NUL at the end. */
  datatype Token = Token(kind: char, q: nat, eq: nat, next: nat)

  function TokenAt(s: string, p: nat): (t: Token)
    requires p <= |s| && NUL !in s
    ensures p <= t.q <= t.eq <= t.next <= |s|
    ensures t.kind == NUL <==> t.q == |s|
    ensures t.kind != NUL ==> t.q < t.eq
    ensures t.kind == 'a' ==> IsToken(s, Span(t.q, t.eq))
  {
    var q := SkipSpace(s, p);
    var c := At(s, q);
    var (kind, eq) :=
      if c == NUL then (NUL, q)
      else if c == '>' then (if At(s, q + 1) == '>' then ('+', q + 2) else ('>', q + 1))
      else if IsSymbol(c) then (c, q + 1)
      else ('a', EndWord(s, q));
    Token(kind, q, eq, SkipSpace(s, eq))
  }

  /** A word of the input: as long as it can be, and followed by something no word contains. */
  predicate IsToken(s: string, t: Span)
  {
    && t.q < t.eq <= |s| && (forall i :: t.q <= i < t.eq ==> IsWordChar(s[i])) && !IsWordChar(At(s, t.eq))
  }

  /** Whether the next character after spaces is one of `toks`. */
  function PeekAt(s: string, p: nat, toks: string): bool
    requires p <= |s|
  {
    At(s, SkipSpace(s, p)) != NUL && At(s, SkipSpace(s, p)) in toks
  }

  // ------------------------------------------------------------------ grammar

  function Mode(kind: char): int
  {
    if kind == '<' then O_RDONLY else if kind == '>' then O_WRONLY + O_CREATE + O_TRUNC else O_WRONLY + O_CREATE
  }

  function Fd(kind: char): int
  {
    if kind == '<' then 0 else 1
  }

  /** The command inside its redirections, the first innermost. */
  function Wrap<W>(c: Cmd<W>, rs: seq<Redirection<W>>): Cmd<W>
  {
    if rs == [] then c else
      var r := rs[|rs| - 1];
      Redir(Wrap(c, rs[..|rs| - 1]), r.file, r.mode, r.fd)
  }

  function Redirs(s: string, p: nat): (r: Result<(seq<Redirection<Span>>, nat)>)
    requires p <= |s| && NUL !in s
    ensures r.Ok? ==> p <= r.value.1 <= |s|
    decreases |s| - p
  {
    var p := SkipSpace(s, p);
    if !PeekAt(s, p, "<>") then Ok(([], p)) else
      var t := TokenAt(s, p);
      var f := TokenAt(s, t.next);
      if f.kind != 'a' then Err(MissingFile) else
        var rest := Redirs(s, f.next);
        if rest.Err? then Err(rest.error)
        else Ok(([Redirection(Span(f.q, f.eq), Mode(t.kind), Fd(t.kind))] + rest.value.0, rest.value.1))
  }

  /** The words and redirections of a simple command that already has `n` words. */
  function Args(s: string, p: nat, n: nat): (r: Result<(seq<Span>, seq<Redirection<Span>>, nat)>)
    requires p <= |s| && NUL !in s
    ensures r.Ok? ==> p <= r.value.2 <= |s|
    decreases |s| - p
  {
    var p := SkipSpace(s, p);
    if PeekAt(s, p, "|)&;") then Ok(([], [], p)) else
      var t := TokenAt(s, p);
      if t.kind == NUL then Ok(([], [], t.next))
      else if t.kind != 'a' then Err(Syntax)
      else if n + 1 >= MAXARGS then Err(TooManyArgs)
      else
        var rs := Redirs(s, t.next);
        if rs.Err? then Err(rs.error) else
          var rest := Args(s, rs.value.1, n + 1);
          if rest.Err? then Err(rest.error)
          else Ok(([Span(t.q, t.eq)] + rest.value.0, rs.value.0 + rest.value.1, rest.value.2))
  }

  function Simple(s: string, p: nat): (r: Result<(Cmd<Span>, nat)>)
    requires p <= |s| && NUL !in s
    ensures r.Ok? ==> p <= r.value.1 <= |s|
  {
    var rs := Redirs(s, p);
    if rs.Err? then Err(rs.error) else
      var rest := Args(s, rs.value.1, 0);
      if rest.Err? then Err(rest.error) else Ok((Wrap(Exec(rest.value.0), rs.value.0 + rest.value.1), rest.value.2))
  }

  function Backs(s: string, c: Cmd<Span>, p: nat): (r: (Cmd<Span>, nat))
    requires p <= |s| && NUL !in s
    ensures p <= r.1 <= |s|
    decreases |s| - p
  {
    var p := SkipSpace(s, p);
    if PeekAt(s, p, "&") then Backs(s, Back(c), TokenAt(s, p).next) else (c, p)
  }

  function Line(s: string, p: nat): (r: Result<(Cmd<Span>, nat)>)
    requires p <= |s| && NUL !in s
    ensures r.Ok? ==> p <= r.value.1 <= |s|
    decreases |s| - p, 3
  {
    var first := Pipeline(s, p);
    if first.Err? then first else
      var (c, p1) := Backs(s, first.value.0, first.value.1);
      if !PeekAt(s, p1, ";") then Ok((c, p1)) else
        var rest := Line(s, TokenAt(s, p1).next);
        if rest.Err? then rest else Ok((List(c, rest.value.0), rest.value.1))
  }

  function Pipeline(s: string, p: nat): (r: Result<(Cmd<Span>, nat)>)
    requires p <= |s| && NUL !in s
    ensures r.Ok? ==> p <= r.value.1 <= |s|
    decreases |s| - p, 2
  {
    var first := Command(s, p);
    if first.Err? then first else
      var p1 := SkipSpace(s, first.value.1);
      if !PeekAt(s, p1, "|") then Ok((first.value.0, p1)) else
        var rest := Pipeline(s, TokenAt(s, p1).next);
        if rest.Err? then rest else Ok((Pipe(first.value.0, rest.value.0), rest.value.1))
  }

  function Command(s: string, p: nat): (r: Result<(Cmd<Span>, nat)>)
    requires p <= |s| && NUL !in s
    ensures r.Ok? ==> p <= r.value.1 <= |s|
    decreases |s| - p, 1
  {
    if PeekAt(s, p, "(") then Block(s, SkipSpace(s, p)) else Simple(s, SkipSpace(s, p))
  }

  function Block(s: string, p: nat): (r: Result<(Cmd<Span>, nat)>)
    requires p <= |s| && NUL !in s && PeekAt(s, p, "(")
    ensures r.Ok? ==> p <= r.value.1 <= |s|
    decreases |s| - p, 0
  {
    var inner := Line(s, TokenAt(s, p).next);
    if inner.Err? then inner else
      var p1 := SkipSpace(s, inner.value.1);
      if !PeekAt(s, p1, ")") then Err(MissingParen) else
        var rs := Redirs(s, TokenAt(s, p1).next);
        if rs.Err? then Err(rs.error) else Ok((Wrap(inner.value.0, rs.value.0), rs.value.1))
  }

  /** The whole input as a command. */
  function Parse(s: string): Result<Cmd<Span>>
    requires NUL !in s
  {
    var r := Line(s, 0);
    if r.Err? then Err(r.error)
    else if SkipSpace(s, r.value.1) != |s| then Err(Leftovers) else Ok(r.value.0)
  }

  // ------------------------------------------------------------ the C functions

  /** The loop over whitespace in gettoken and peek. */
  method Spaces(s: string, ps: nat) returns (p: nat)
    requires ps <= |s|
    ensures p == SkipSpace(s, ps)
  {
    p := ps;
    while p < |s| && IsSpace(s[p])
      invariant ps <= p <= |s| && SkipSpace(s, ps) == SkipSpace(s, p)
    {
      p := p + 1;
    }
  }

  /** gettoken. */
  method GetToken(s: string, ps: nat) returns (kind: char, q: nat, eq: nat, next: nat)
    requires ps <= |s| && NUL !in s
    ensures Token(kind, q, eq, next) == TokenAt(s, ps)
  {
    hide SkipSpace, IsToken;
    var p := Spaces(s, ps);
    q, kind := p, At(s, p);
    match kind {
      case '\0' =>
      case '|' | '(' | ')' | ';' | '&' | '<' => p := p + 1;
      case '>' =>
        p := p + 1;
        if At(s, p) == '>' {
          kind := '+';
          p := p + 1;
        }
      case _ =>
        kind := 'a';
        while p < |s| && !IsSpace(s[p]) && !IsSymbol(s[p])
          invariant q <= p <= |s| && EndWord(s, q) == EndWord(s, p)
        {
          p := p + 1;
        }
    }
    eq := p;
    next := Spaces(s, p);
  }

  /** peek. */
  method Peek(s: string, ps: nat, toks: string) returns (p: nat, yes: bool)
    requires ps <= |s|
    ensures p == SkipSpace(s, ps) && yes == PeekAt(s, ps, toks)
  {
    p := Spaces(s, ps);
    yes := At(s, p) != NUL && At(s, p) in toks;
  }

  /** Skipping spaces twice is skipping them once. */
  lemma SkipTwice(s: string, p: nat)
    requires p <= |s|
    ensures SkipSpace(s, SkipSpace(s, p)) == SkipSpace(s, p)
  {
  }

  lemma WrapMore<W>(c: Cmd<W>, rs: seq<Redirection<W>>, r: Redirection<W>)
    ensures Wrap(c, rs + [r]) == Redir(Wrap(c, rs), r.file, r.mode, r.fd)
  {
    assert (rs + [r])[..|rs|] == rs;
  }

  lemma {:induction false} WrapTwice<W>(c: Cmd<W>, rs: seq<Redirection<W>>, rs': seq<Redirection<W>>)
    ensures Wrap(Wrap(c, rs), rs') == Wrap(c, rs + rs')
    decreases |rs'|
  {
    if rs' == [] {
      assert rs + rs' == rs;
    } else {
      var n := |rs'| - 1;
      WrapTwice(c, rs, rs'[..n]);
      assert (rs + rs')[..|rs + rs'| - 1] == rs + rs'[..n];
    }
  }

  /** What is left of Redirs after `rs` has been read. */
  function After(rs: seq<Redirection<Span>>, r: Result<(seq<Redirection<Span>>, nat)>): Result<(seq<Redirection<Span>>, nat)>
  {
    if r.Err? then r else Ok((rs + r.value.0, r.value.1))
  }

  lemma AfterMore(rs: seq<Redirection<Span>>, x: Redirection<Span>, r: Result<(seq<Redirection<Span>>, nat)>)
    ensures After(rs, After([x], r)) == After(rs + [x], r)
  {
    if r.Ok? {
      assert rs + ([x] + r.value.0) == rs + [x] + r.value.0;
    }
  }

  lemma AfterEnds(rs: seq<Redirection<Span>>, r: Result<(seq<Redirection<Span>>, nat)>, p: nat)
    ensures After([], r) == r && After(rs, Ok(([], p))) == Ok((rs, p))
  {
    assert rs + [] == rs;
    if r.Ok? {
      assert [] + r.value.0 == r.value.0;
    }
  }

  /** parseredirs: the command wrapped in every redirection that follows. */
  method ParseRedirs(cmd: Cmd<Span>, s: string, ps: nat) returns (r: Result<(Cmd<Span>, nat)>)
    requires ps <= |s| && NUL !in s
    ensures var rs := Redirs(s, ps);
            r == if rs.Err? then Err(rs.error) else Ok((Wrap(cmd, rs.value.0), rs.value.1))
  {
    hide TokenAt, SkipSpace;
    var c := cmd;
    ghost var rs: seq<Redirection<Span>> := [];
    var p, more := Peek(s, ps, "<>");
    SkipTwice(s, ps);
    RedirsSkips(s, ps);
    AfterEnds([], Redirs(s, ps), p);
    while more
      invariant p <= |s| && more == PeekAt(s, p, "<>") && p == SkipSpace(s, p)
      invariant c == Wrap(cmd, rs) && Redirs(s, ps) == After(rs, Redirs(s, p))
      decreases |s| - p
    {
      var tok, _, _, p1 := GetToken(s, p);
      var kind, q, eq, p2 := GetToken(s, p1);
      if kind != 'a' { return Err(MissingFile); }
      c := Redir(c, Span(q, eq), Mode(tok), Fd(tok));
      ghost var x := Redirection(Span(q, eq), Mode(tok), Fd(tok));
      WrapMore(cmd, rs, x);
      assert Redirs(s, p) == After([x], Redirs(s, p2));
      AfterMore(rs, x, Redirs(s, p2));
      RedirsSkips(s, p2);
      SkipTwice(s, p2);
      rs := rs + [x];
      p, more := Peek(s, p2, "<>");
    }
    AfterEnds(rs, Redirs(s, p), p);
    return Ok((c, p));
  }

  lemma RedirsSkips(s: string, p: nat)
    requires p <= |s| && NUL !in s
    ensures Redirs(s, SkipSpace(s, p)) == Redirs(s, p) && PeekAt(s, SkipSpace(s, p), "<>") == PeekAt(s, p, "<>")
  {
    SkipTwice(s, p);
  }

  /** The word added to the simple command inside its redirections. */
  function WithArg<W>(c: Cmd<W>, w: W): Cmd<W>
  {
    match c
    case Exec(argv) => Exec(argv + [w])
    case Redir(inner, file, mode, fd) => Redir(WithArg(inner, w), file, mode, fd)
    case _ => c
  }

  lemma {:induction false} WithArgWrap<W>(argv: seq<W>, rs: seq<Redirection<W>>, w: W)
    ensures WithArg(Wrap(Exec(argv), rs), w) == Wrap(Exec(argv + [w]), rs)
    decreases |rs|
  {
    if rs != [] {
      WithArgWrap(argv, rs[..|rs| - 1], w);
    }
  }

  /** What is left of Args after `argv` and `rs` have been read. */
  function AfterArgs(argv: seq<Span>, rs: seq<Redirection<Span>>, r: Result<(seq<Span>, seq<Redirection<Span>>, nat)>)
    : Result<(seq<Span>, seq<Redirection<Span>>, nat)>
  {
    if r.Err? then r else Ok((argv + r.value.0, rs + r.value.1, r.value.2))
  }

  lemma AfterArgsMore(argv: seq<Span>, rs: seq<Redirection<Span>>, w: Span, rs': seq<Redirection<Span>>,
                      r: Result<(seq<Span>, seq<Redirection<Span>>, nat)>)
    ensures AfterArgs(argv, rs, AfterArgs([w], rs', r)) == AfterArgs(argv + [w], rs + rs', r)
  {
    if r.Ok? {
      assert argv + ([w] + r.value.0) == argv + [w] + r.value.0;
      assert rs + (rs' + r.value.1) == rs + rs' + r.value.1;
    }
  }

  lemma AfterArgsEnds(argv: seq<Span>, rs: seq<Redirection<Span>>, r: Result<(seq<Span>, seq<Redirection<Span>>, nat)>, p: nat)
    ensures AfterArgs([], [], r) == r && AfterArgs(argv, rs, Ok(([], [], p))) == Ok((argv, rs, p))
  {
    assert argv + [] == argv && rs + [] == rs;
    if r.Ok? {
      assert [] + r.value.0 == r.value.0 && [] + r.value.1 == r.value.1;
    }
  }

  lemma ArgsSkips(s: string, p: nat, n: nat)
    requires p <= |s| && NUL !in s
    ensures Args(s, SkipSpace(s, p), n) == Args(s, p, n) && PeekAt(s, SkipSpace(s, p), "|)&;") == PeekAt(s, p, "|)&;")
  {
    SkipTwice(s, p);
  }

  /** One turn of parseexec's loop. */
  lemma ArgsTurn(s: string, p: nat, n: nat)
    requires p <= |s| && NUL !in s
    ensures var t := TokenAt(s, p);
            Args(s, p, n) ==
              if PeekAt(s, p, "|)&;") then Ok(([], [], SkipSpace(s, p)))
              else if t.kind == NUL then Ok(([], [], t.next))
              else if t.kind != 'a' then Err(Syntax)
              else if n + 1 >= MAXARGS then Err(TooManyArgs)
              else
                var rs := Redirs(s, t.next);
                if rs.Err? then Err(rs.error)
                else AfterArgs([Span(t.q, t.eq)], rs.value.0, Args(s, rs.value.1, n + 1))
  {
    hide EndWord, Redirs, Mode, Fd;
    SkipTwice(s, p);
  }

  /** parseexec has come to `p`, with the words `argv` and the redirections `rs0` (before any word) and `more`. */
  ghost predicate Collected(s: string, p0: nat, p: nat, argv: seq<Span>, rs0: seq<Redirection<Span>>,
                            more: seq<Redirection<Span>>, ret: Cmd<Span>)
    requires p0 <= |s| && p <= |s| && NUL !in s
  {
    ret == Wrap(Exec(argv), rs0 + more) && Args(s, p0, 0) == AfterArgs(argv, more, Args(s, p, |argv|))
  }

  lemma CollectStarts(s: string, p0: nat, rs0: seq<Redirection<Span>>)
    requires p0 <= |s| && NUL !in s
    ensures Collected(s, p0, SkipSpace(s, p0), [], rs0, [], Wrap(Exec([]), rs0))
  {
    ArgsSkips(s, p0, 0);
    AfterArgsEnds([], [], Args(s, p0, 0), p0);
    assert rs0 + [] == rs0;
  }

  /** One more word, with the redirections after it. */
  lemma CollectMore(s: string, p0: nat, p: nat, argv: seq<Span>, rs0: seq<Redirection<Span>>, more: seq<Redirection<Span>>, ret: Cmd<Span>)
    requires p0 <= |s| && p <= |s| && NUL !in s && Collected(s, p0, p, argv, rs0, more, ret)
    requires p == SkipSpace(s, p) && !PeekAt(s, p, "|)&;") && TokenAt(s, p).kind == 'a' && |argv| + 1 < MAXARGS
    requires Redirs(s, TokenAt(s, p).next).Ok?
    ensures var t := TokenAt(s, p);
            var rs, w := Redirs(s, t.next).value, Span(t.q, t.eq);
            Collected(s, p0, SkipSpace(s, rs.1), argv + [w], rs0, more + rs.0, Wrap(WithArg(ret, w), rs.0))
  {
    hide Args, AfterArgs, Wrap, WithArg, Redirs, TokenAt, SkipSpace, PeekAt;
    var t := TokenAt(s, p);
    var rs, w := Redirs(s, t.next).value, Span(t.q, t.eq);
    ArgsTurn(s, p, |argv|);
    WithArgWrap(argv, rs0 + more, w);
    WrapTwice(Exec(argv + [w]), rs0 + more, rs.0);
    assert rs0 + more + rs.0 == rs0 + (more + rs.0);
    AfterArgsMore(argv, more, w, rs.0, Args(s, rs.1, |argv| + 1));
    ArgsSkips(s, rs.1, |argv| + 1);
  }

  /** The words end at a symbol or the end of the input, or there is an error. */
  lemma CollectEnds(s: string, p0: nat, p: nat, argv: seq<Span>, rs0: seq<Redirection<Span>>, more: seq<Redirection<Span>>, ret: Cmd<Span>)
    requires p0 <= |s| && p <= |s| && NUL !in s && Collected(s, p0, p, argv, rs0, more, ret) && p == SkipSpace(s, p)
    ensures PeekAt(s, p, "|)&;") ==> Args(s, p0, 0) == Ok((argv, more, p))
    ensures !PeekAt(s, p, "|)&;") ==>
              var t := TokenAt(s, p);
              && (t.kind == NUL ==> Args(s, p0, 0) == Ok((argv, more, t.next)))
              && (t.kind != NUL && t.kind != 'a' ==> Args(s, p0, 0) == Err(Syntax))
              && (t.kind == 'a' && |argv| + 1 >= MAXARGS ==> Args(s, p0, 0) == Err(TooManyArgs))
              && (t.kind == 'a' && |argv| + 1 < MAXARGS && Redirs(s, t.next).Err? ==> Args(s, p0, 0) == Err(Redirs(s, t.next).error))
  {
    hide Args, Wrap, Redirs, TokenAt, SkipSpace, PeekAt;
    ArgsTurn(s, p, |argv|);
    AfterArgsEnds(argv, more, Args(s, p, |argv|), p);
    AfterArgsEnds(argv, more, Args(s, p, |argv|), TokenAt(s, p).next);
  }

  /** The rest of parseexec once it is known not to be a block. */
  method ParseSimple(s: string, ps: nat) returns (r: Result<(Cmd<Span>, nat)>)
    requires ps <= |s| && NUL !in s
    ensures r == Simple(s, ps)
  {
    hide TokenAt, SkipSpace, Redirs, PeekAt, Args, Wrap, WithArg, Collected;
    var argc := 0;
    var first := ParseRedirs(Exec([]), s, ps);
    if first.Err? { return first; }
    ghost var argv: seq<Span>, rs0, more: seq<Redirection<Span>> := [], Redirs(s, ps).value.0, [];
    ghost var p0 := first.value.1;
    CollectStarts(s, p0, rs0);
    SkipTwice(s, p0);
    var ret := first.value.0;
    var p, stop := Peek(s, first.value.1, "|)&;");
    PeekSkips(s, p0);
    while !stop
      invariant p <= |s| && stop == PeekAt(s, p, "|)&;") && p == SkipSpace(s, p) && argc == |argv| < MAXARGS
      invariant Collected(s, p0, p, argv, rs0, more, ret)
      decreases |s| - p
    {
      CollectEnds(s, p0, p, argv, rs0, more, ret);
      var tok, q, eq, p1 := GetToken(s, p);
      if tok == NUL {
        CollectedIs(s, p0, p, argv, rs0, more, ret);
        return Ok((ret, p1));
      }
      if tok != 'a' { return Err(Syntax); }
      argc := argc + 1;
      if argc >= MAXARGS { return Err(TooManyArgs); }
      var wrapped := ParseRedirs(WithArg(ret, Span(q, eq)), s, p1);
      if wrapped.Err? { return wrapped; }
      CollectMore(s, p0, p, argv, rs0, more, ret);
      argv, more := argv + [Span(q, eq)], more + Redirs(s, p1).value.0;
      ret := wrapped.value.0;
      SkipTwice(s, wrapped.value.1);
      PeekSkips(s, wrapped.value.1);
      p, stop := Peek(s, wrapped.value.1, "|)&;");
    }
    CollectEnds(s, p0, p, argv, rs0, more, ret);
    CollectedIs(s, p0, p, argv, rs0, more, ret);
    return Ok((ret, p));
  }

  lemma CollectedIs(s: string, p0: nat, p: nat, argv: seq<Span>, rs0: seq<Redirection<Span>>, more: seq<Redirection<Span>>, ret: Cmd<Span>)
    requires p0 <= |s| && p <= |s| && NUL !in s && Collected(s, p0, p, argv, rs0, more, ret)
    ensures ret == Wrap(Exec(argv), rs0 + more)
  {
  }

  lemma PeekSkips(s: string, p: nat)
    requires p <= |s|
    ensures forall toks :: PeekAt(s, SkipSpace(s, p), toks) == PeekAt(s, p, toks)
  {
    SkipTwice(s, p);
  }

  /** parseline: pipelines put in the background by '&' and strung together by ';'. */
  method ParseLine(s: string, ps: nat) returns (r: Result<(Cmd<Span>, nat)>)
    requires ps <= |s| && NUL !in s
    ensures r == Line(s, ps)
    decreases |s| - ps, 3
  {
    hide TokenAt, SkipSpace, PeekAt, Pipeline;
    var first := ParsePipe(s, ps);
    if first.Err? { return first; }
    var cmd := first.value.0;
    var p, more := Peek(s, first.value.1, "&");
    PeekSkips(s, first.value.1);
    SkipTwice(s, first.value.1);
    BacksSkips(s, cmd, first.value.1);
    while more
      invariant ps <= p <= |s| && p == SkipSpace(s, p) && more == PeekAt(s, p, "&")
      invariant Backs(s, first.value.0, first.value.1) == Backs(s, cmd, p)
      decreases |s| - p
    {
      var _, _, _, p1 := GetToken(s, p);
      PeekedToken(s, p, "&");
      cmd := Back(cmd);
      PeekSkips(s, p1);
      SkipTwice(s, p1);
      BacksSkips(s, cmd, p1);
      p, more := Peek(s, p1, "&");
    }
    var semi;
    p, semi := Peek(s, p, ";");
    if semi {
      PeekedToken(s, p, ";");
      var _, _, _, p1 := GetToken(s, p);
      var rest := ParseLine(s, p1);
      if rest.Err? { return rest; }
      return Ok((List(cmd, rest.value.0), rest.value.1));
    }
    return Ok((cmd, p));
  }

  lemma BacksSkips(s: string, c: Cmd<Span>, p: nat)
    requires p <= |s| && NUL !in s
    ensures Backs(s, c, SkipSpace(s, p)) == Backs(s, c, p)
  {
    SkipTwice(s, p);
  }

  /** A token that peek has seen is there to be taken. */
  lemma PeekedToken(s: string, p: nat, toks: string)
    requires p <= |s| && NUL !in s && PeekAt(s, p, toks)
    ensures TokenAt(s, p).next > p && TokenAt(s, p).kind != NUL
  {
  }

  /** parsepipe. */
  method ParsePipe(s: string, ps: nat) returns (r: Result<(Cmd<Span>, nat)>)
    requires ps <= |s| && NUL !in s
    ensures r == Pipeline(s, ps)
    decreases |s| - ps, 2
  {
    hide TokenAt, SkipSpace, PeekAt, Command;
    var first := ParseExec(s, ps);
    if first.Err? { return first; }
    var p, bar := Peek(s, first.value.1, "|");
    PeekSkips(s, first.value.1);
    if bar {
      PeekedToken(s, p, "|");
      var _, _, _, p1 := GetToken(s, p);
      var rest := ParsePipe(s, p1);
      if rest.Err? { return rest; }
      return Ok((Pipe(first.value.0, rest.value.0), rest.value.1));
    }
    return Ok((first.value.0, p));
  }

  /** parseexec. */
  method ParseExec(s: string, ps: nat) returns (r: Result<(Cmd<Span>, nat)>)
    requires ps <= |s| && NUL !in s
    ensures r == Command(s, ps)
    decreases |s| - ps, 1
  {
    hide TokenAt, SkipSpace, PeekAt, Block, Simple;
    var p, open := Peek(s, ps, "(");
    PeekSkips(s, ps);
    if open {
      r := ParseBlock(s, p);
    } else {
      r := ParseSimple(s, p);
    }
  }

  /** parseblock. */
  method ParseBlock(s: string, ps: nat) returns (r: Result<(Cmd<Span>, nat)>)
    requires ps <= |s| && NUL !in s && PeekAt(s, ps, "(")
    ensures r == Block(s, ps)
    decreases |s| - ps, 0
  {
    hide TokenAt, SkipSpace, PeekAt, Line, Redirs;
    PeekedToken(s, ps, "(");
    var _, _, _, p := GetToken(s, ps);
    var inner := ParseLine(s, p);
    if inner.Err? { return inner; }
    var p1, close := Peek(s, inner.value.1, ")");
    PeekSkips(s, inner.value.1);
    if !close { return Err(MissingParen); }
    var _, _, _, p2 := GetToken(s, p1);
    r := ParseRedirs(inner.value.0, s, p2);
  }

  /** parsecmd, up to the NUL termination: the whole line or an error, for every input. */
  method ParseCmd(s: string) returns (r: Result<Cmd<Span>>)
    requires NUL !in s
    ensures r == Parse(s)
  {
    hide Line, SkipSpace;
    var line := ParseLine(s, 0);
    if line.Err? { return Err(line.error); }
    var p, _ := Peek(s, line.value.1, "");
    if p != |s| { return Err(Leftovers); }
    return Ok(line.value.0);
  }
}
