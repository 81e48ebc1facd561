/** nulterminate: the words of a parsed line become C strings in place. */
module ShellStrings {
  import opened ShellParser
  import opened ShellPrinting

  /** Every word of the command is a token of the input. */
  ghost predicate Tokens(s: string, c: Cmd<Span>)
  {
    match c
    case Exec(argv) => forall i :: 0 <= i < |argv| ==> IsToken(s, argv[i])
    case Redir(inner, file, _, _) => Tokens(s, inner) && IsToken(s, file)
    case Pipe(l, r) => Tokens(s, l) && Tokens(s, r)
    case List(l, r) => Tokens(s, l) && Tokens(s, r)
    case Back(inner) => Tokens(s, inner)
  }

  // ------------------------------------------------- the parser yields tokens

  lemma {:induction false} WrapTokens(s: string, c: Cmd<Span>, rs: seq<Redirection<Span>>)
    requires Tokens(s, c) && forall i :: 0 <= i < |rs| ==> IsToken(s, rs[i].file)
    ensures Tokens(s, Wrap(c, rs))
    decreases |rs|
  {
    if rs != [] {
      WrapTokens(s, c, rs[..|rs| - 1]);
    }
  }

  lemma {:induction false} RedirsTokens(s: string, p: nat)
    requires p <= |s| && NUL !in s && Redirs(s, p).Ok?
    ensures forall i :: 0 <= i < |Redirs(s, p).value.0| ==> IsToken(s, Redirs(s, p).value.0[i].file)
    decreases |s| - p
  {
    hide TokenAt, IsToken;
    var p1 := SkipSpace(s, p);
    if PeekAt(s, p1, "<>") {
      PeekedToken(s, p1, "<>");
      RedirsTokens(s, TokenAt(s, TokenAt(s, p1).next).next);
    }
  }

  lemma {:induction false} ArgsTokens(s: string, p: nat, n: nat)
    requires p <= |s| && NUL !in s && Args(s, p, n).Ok?
    ensures var r := Args(s, p, n).value;
            && (forall i :: 0 <= i < |r.0| ==> IsToken(s, r.0[i]))
            && (forall i :: 0 <= i < |r.1| ==> IsToken(s, r.1[i].file))
    decreases |s| - p
  {
    hide TokenAt, IsToken, Redirs;
    var p1 := SkipSpace(s, p);
    if !PeekAt(s, p1, "|)&;") && TokenAt(s, p1).kind == 'a' && n + 1 < MAXARGS {
      var t := TokenAt(s, p1);
      RedirsTokens(s, t.next);
      ArgsTokens(s, Redirs(s, t.next).value.1, n + 1);
    }
  }

  lemma {:induction false} BacksTokens(s: string, c: Cmd<Span>, p: nat)
    requires p <= |s| && NUL !in s && Tokens(s, c)
    ensures Tokens(s, Backs(s, c, p).0)
    decreases |s| - p
  {
    hide TokenAt;
    var p1 := SkipSpace(s, p);
    if PeekAt(s, p1, "&") {
      PeekedToken(s, p1, "&");
      BacksTokens(s, Back(c), TokenAt(s, p1).next);
    }
  }

  lemma {:induction false} LineTokens(s: string, p: nat)
    requires p <= |s| && NUL !in s && Line(s, p).Ok?
    ensures Tokens(s, Line(s, p).value.0)
    decreases |s| - p, 3
  {
    hide TokenAt, PeekAt, Pipeline, Backs;
    PipelineTokens(s, p);
    var first := Pipeline(s, p).value;
    BacksTokens(s, first.0, first.1);
    var p1 := Backs(s, first.0, first.1).1;
    if PeekAt(s, p1, ";") {
      PeekedToken(s, p1, ";");
      LineTokens(s, TokenAt(s, p1).next);
    }
  }

  lemma {:induction false} PipelineTokens(s: string, p: nat)
    requires p <= |s| && NUL !in s && Pipeline(s, p).Ok?
    ensures Tokens(s, Pipeline(s, p).value.0)
    decreases |s| - p, 2
  {
    hide TokenAt, PeekAt, Command;
    CommandTokens(s, p);
    var p1 := SkipSpace(s, Command(s, p).value.1);
    if PeekAt(s, p1, "|") {
      PeekedToken(s, p1, "|");
      PipelineTokens(s, TokenAt(s, p1).next);
    }
  }

  lemma {:induction false} CommandTokens(s: string, p: nat)
    requires p <= |s| && NUL !in s && Command(s, p).Ok?
    ensures Tokens(s, Command(s, p).value.0)
    decreases |s| - p, 1
  {
    hide TokenAt, PeekAt, Line, Redirs, Args, IsToken;
    var p1 := SkipSpace(s, p);
    if PeekAt(s, p, "(") {
      PeekSkips(s, p);
      PeekedToken(s, p1, "(");
      var inner := Line(s, TokenAt(s, p1).next);
      LineTokens(s, TokenAt(s, p1).next);
      var p2 := SkipSpace(s, inner.value.1);
      RedirsTokens(s, TokenAt(s, p2).next);
      WrapTokens(s, inner.value.0, Redirs(s, TokenAt(s, p2).next).value.0);
    } else {
      RedirsTokens(s, p1);
      var rs := Redirs(s, p1).value;
      ArgsTokens(s, rs.1, 0);
      var a := Args(s, rs.1, 0).value;
      WrapTokens(s, Exec(a.0), rs.0 + a.1);
    }
  }

  /** Every word of every command the parser accepts is a token of its input. */
  lemma ParseTokens(s: string)
    requires NUL !in s && Parse(s).Ok?
    ensures Tokens(s, Parse(s).value)
  {
    hide Line;
    LineTokens(s, 0);
  }

  // ------------------------------------------------------------- termination in place

  /** The C string at `q`. */
  function CString(b: seq<char>, q: nat): string
    decreases |b| - q
  {
    if q >= |b| || b[q] == NUL then "" else [b[q]] + CString(b, q + 1)
  }

  /** The buffer is the input with NULs written only where no word has a character. */
  ghost predicate Marked(s: string, b: seq<char>)
  {
    && |b| == |s| + 1
    && forall i :: 0 <= i <= |s| ==> b[i] == At(s, i) || (b[i] == NUL && !IsWordChar(At(s, i)))
  }

  /** Every word of the command has its NUL. */
  ghost predicate Ended(b: seq<char>, c: Cmd<Span>)
  {
    match c
    case Exec(argv) => forall i :: 0 <= i < |argv| ==> argv[i].eq < |b| && b[argv[i].eq] == NUL
    case Redir(inner, file, _, _) => Ended(b, inner) && file.eq < |b| && b[file.eq] == NUL
    case Pipe(l, r) => Ended(b, l) && Ended(b, r)
    case List(l, r) => Ended(b, l) && Ended(b, r)
    case Back(inner) => Ended(b, inner)
  }

  lemma {:induction false} EndedStays(b: seq<char>, b': seq<char>, c: Cmd<Span>)
    requires Ended(b, c) && |b'| == |b| && forall i :: 0 <= i < |b| && b[i] == NUL ==> b'[i] == NUL
    ensures Ended(b', c)
  {
    match c
    case Exec(argv) =>
    case Redir(inner, file, _, _) => EndedStays(b, b', inner);
    case Pipe(l, r) => EndedStays(b, b', l); EndedStays(b, b', r);
    case List(l, r) => EndedStays(b, b', l); EndedStays(b, b', r);
    case Back(inner) => EndedStays(b, b', inner);
  }

  /** A terminated token is a C string with the token's text: no other word's terminator fell inside it. */
  lemma {:induction false} TokenString(s: string, b: seq<char>, t: Span)
    requires IsToken(s, t) && Marked(s, b) && b[t.eq] == NUL
    ensures CString(b, t.q) == Text(s, t)
    decreases t.eq - t.q
  {
    assert b[t.q] == s[t.q] != NUL;
    if t.q + 1 < t.eq {
      TokenString(s, b, Span(t.q + 1, t.eq));
      assert s[t.q..t.eq] == [s[t.q]] + s[t.q + 1..t.eq];
    } else {
      assert s[t.q..t.eq] == [s[t.q]];
    }
  }

  /** The strings argv and file point at, once the buffer has been marked. */
  function Strings(b: seq<char>, c: Cmd<Span>): Cmd<string>
  {
    match c
    case Exec(argv) => Exec(seq(|argv|, i requires 0 <= i < |argv| => CString(b, argv[i].q)))
    case Redir(inner, file, mode, fd) => Redir(Strings(b, inner), CString(b, file.q), mode, fd)
    case Pipe(l, r) => Pipe(Strings(b, l), Strings(b, r))
    case List(l, r) => List(Strings(b, l), Strings(b, r))
    case Back(inner) => Back(Strings(b, inner))
  }

  /** The command's strings are its words, all of them, however many terminators were written. */
  lemma {:induction false} StringsAreWords(s: string, b: seq<char>, c: Cmd<Span>)
    requires Tokens(s, c) && Marked(s, b) && Ended(b, c)
    ensures Strings(b, c) == Meaning(s, c)
  {
    match c
    case Exec(argv) =>
      forall i | 0 <= i < |argv|
        ensures CString(b, argv[i].q) == Text(s, argv[i])
      {
        TokenString(s, b, argv[i]);
      }
    case Redir(inner, file, _, _) =>
      StringsAreWords(s, b, inner);
      TokenString(s, b, file);
    case Pipe(l, r) => StringsAreWords(s, b, l); StringsAreWords(s, b, r);
    case List(l, r) => StringsAreWords(s, b, l); StringsAreWords(s, b, r);
    case Back(inner) => StringsAreWords(s, b, inner);
  }

  /** nulterminate. */
  method NulTerminate(c: Cmd<Span>, buf: array<char>, ghost s: string)
    requires Tokens(s, c) && Marked(s, buf[..])
    modifies buf
    ensures Marked(s, buf[..]) && Ended(buf[..], c)
    ensures forall i :: 0 <= i < buf.Length && old(buf[i]) == NUL ==> buf[i] == NUL
    decreases c
  {
    match c {
      case Exec(argv) =>
        for i := 0 to |argv|
          invariant Marked(s, buf[..]) && forall j :: 0 <= j < i ==> argv[j].eq < buf.Length && buf[argv[j].eq] == NUL
          invariant forall k :: 0 <= k < buf.Length && old(buf[k]) == NUL ==> buf[k] == NUL
        {
          assert IsToken(s, argv[i]);
          buf[argv[i].eq] := NUL;
        }
      case Redir(inner, file, _, _) =>
        NulTerminate(inner, buf, s);
        ghost var b := buf[..];
        buf[file.eq] := NUL;
        EndedStays(b, buf[..], inner);
      case Pipe(l, r) =>
        NulTerminate(l, buf, s);
        ghost var b := buf[..];
        NulTerminate(r, buf, s);
        EndedStays(b, buf[..], l);
      case List(l, r) =>
        NulTerminate(l, buf, s);
        ghost var b := buf[..];
        NulTerminate(r, buf, s);
        EndedStays(b, buf[..], l);
      case Back(inner) =>
        NulTerminate(inner, buf, s);
    }
  }

  /** parsecmd on a NUL-terminated line: when it succeeds, the strings the command points at in the buffer are exactly the
      words it was parsed from. */
  method ParseLineBuffer(buf: array<char>) returns (r: Result<Cmd<Span>>)
    requires buf.Length > 0 && buf[buf.Length - 1] == NUL && NUL !in buf[..buf.Length - 1]
    modifies buf
    ensures r == Parse(old(buf[..buf.Length - 1]))
    ensures r.Ok? ==> Strings(buf[..], r.value) == Meaning(old(buf[..buf.Length - 1]), r.value)
    ensures r.Err? ==> buf[..] == old(buf[..])
  {
    hide Parse;
    var s := buf[..buf.Length - 1];
    r := ParseCmd(s);
    if r.Ok? {
      ParseTokens(s);
      NulTerminate(r.value, buf, s);
      StringsAreWords(s, buf[..], r.value);
    }
  }
}
