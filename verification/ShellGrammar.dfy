/** The shell's language as a grammar, apart from any parser: syntax trees, the tokens each spells out and the command each
    stands for.  The parser accepts exactly the lines that some tree spells out, with the command of that tree. */
module ShellGrammar {
  import opened ShellParser

  // ------------------------------------------------------------------- tokens

  /** A symbol, '+' standing for two '>', or a word. */
  datatype Tok = Sym(kind: char) | Name(span: Span)

  /** The tokens of the input from `p` on. */
  function Toks(s: string, p: nat): seq<Tok>
    requires p <= |s| && NUL !in s
    decreases |s| - p
  {
    var t := TokenAt(s, p);
    if t.kind == NUL then [] else [if t.kind == 'a' then Name(Span(t.q, t.eq)) else Sym(t.kind)] + Toks(s, t.next)
  }

  predicate IsArrow(t: Tok)
  {
    t == Sym('<') || t == Sym('>') || t == Sym('+')
  }

  /** The tokens begin with one of these symbols. */
  predicate Begins(ts: seq<Tok>, kinds: string)
  {
    ts != [] && ts[0].Sym? && ts[0].kind in kinds
  }

  /** No redirection comes next. */
  predicate NoArrow(ts: seq<Tok>)
  {
    ts == [] || !IsArrow(ts[0])
  }

  // -------------------------------------------------------------------- trees

  datatype Arrowed = Arrowed(kind: char, file: Span)
  datatype Word = Word(span: Span, rs: seq<Arrowed>)

  /** line: pipeline '&'* [';' line];  pipeline: command ['|' pipeline];
      command: redirection* (word redirection*)*  or  '(' line ')' redirection* */
  datatype LineTree = LineTree(first: PipeTree, ands: nat, rest: Rest)
  datatype Rest = End | More(line: LineTree)
  datatype PipeTree = One(cmd: CmdTree) | Piped(cmd: CmdTree, rest: PipeTree)
  datatype CmdTree = SimpleTree(rs: seq<Arrowed>, words: seq<Word>) | BlockTree(line: LineTree, rs: seq<Arrowed>)

  predicate ArrowsOk(rs: seq<Arrowed>)
  {
    forall k :: 0 <= k < |rs| ==> IsArrow(Sym(rs[k].kind))
  }

  predicate LineOk(t: LineTree)
  {
    PipeOk(t.first) && (t.rest.More? ==> LineOk(t.rest.line))
  }

  predicate PipeOk(t: PipeTree)
  {
    CmdOk(t.cmd) && (t.Piped? ==> PipeOk(t.rest))
  }

  /** A simple command has fewer than MAXARGS words. */
  predicate CmdOk(t: CmdTree)
  {
    && ArrowsOk(t.rs)
    && match t
       case SimpleTree(_, words) => |words| < MAXARGS && forall k :: 0 <= k < |words| ==> ArrowsOk(words[k].rs)
       case BlockTree(line, _) => LineOk(line)
  }

  // --------------------------------------------------- what a tree spells out

  function ArrowsYield(rs: seq<Arrowed>): seq<Tok>
  {
    if rs == [] then [] else [Sym(rs[0].kind), Name(rs[0].file)] + ArrowsYield(rs[1..])
  }

  function WordsYield(ws: seq<Word>): seq<Tok>
  {
    if ws == [] then [] else [Name(ws[0].span)] + ArrowsYield(ws[0].rs) + WordsYield(ws[1..])
  }

  function Ands(n: nat): seq<Tok>
  {
    if n == 0 then [] else [Sym('&')] + Ands(n - 1)
  }

  function LineYield(t: LineTree): seq<Tok>
  {
    PipeYield(t.first) + Ands(t.ands) + (if t.rest.More? then [Sym(';')] + LineYield(t.rest.line) else [])
  }

  function PipeYield(t: PipeTree): seq<Tok>
  {
    CmdYield(t.cmd) + (if t.Piped? then [Sym('|')] + PipeYield(t.rest) else [])
  }

  function CmdYield(t: CmdTree): seq<Tok>
  {
    match t
    case SimpleTree(rs, words) => ArrowsYield(rs) + WordsYield(words)
    case BlockTree(line, rs) => [Sym('(')] + LineYield(line) + [Sym(')')] + ArrowsYield(rs)
  }

  // --------------------------------------------------- what a tree stands for

  function ArrowsValue(rs: seq<Arrowed>): seq<Redirection<Span>>
  {
    if rs == [] then [] else [Redirection(rs[0].file, Mode(rs[0].kind), Fd(rs[0].kind))] + ArrowsValue(rs[1..])
  }

  function WordSpans(ws: seq<Word>): seq<Span>
  {
    if ws == [] then [] else [ws[0].span] + WordSpans(ws[1..])
  }

  function WordArrows(ws: seq<Word>): seq<Redirection<Span>>
  {
    if ws == [] then [] else ArrowsValue(ws[0].rs) + WordArrows(ws[1..])
  }

  function InBack(c: Cmd<Span>, n: nat): Cmd<Span>
    decreases n
  {
    if n == 0 then c else InBack(Back(c), n - 1)
  }

  function LineValue(t: LineTree): Cmd<Span>
  {
    var c := InBack(PipeValue(t.first), t.ands);
    if t.rest.More? then List(c, LineValue(t.rest.line)) else c
  }

  function PipeValue(t: PipeTree): Cmd<Span>
  {
    if t.Piped? then Pipe(CmdValue(t.cmd), PipeValue(t.rest)) else CmdValue(t.cmd)
  }

  function CmdValue(t: CmdTree): Cmd<Span>
  {
    match t
    case SimpleTree(rs, words) => Wrap(Exec(WordSpans(words)), ArrowsValue(rs) + WordArrows(words))
    case BlockTree(line, rs) => Wrap(LineValue(line), ArrowsValue(rs))
  }

  /** The line is spelled out by a tree that stands for `c`. */
  ghost predicate Derives(s: string, c: Cmd<Span>)
    requires NUL !in s
  {
    exists t: LineTree :: LineOk(t) && LineYield(t) == Toks(s, 0) && LineValue(t) == c
  }

  // -------------------------------------------------------- tokens and peeking

  lemma SkipTwice(s: string, p: nat)
    requires p <= |s| && NUL !in s
    ensures SkipSpace(s, SkipSpace(s, p)) == SkipSpace(s, p)
    ensures TokenAt(s, SkipSpace(s, p)) == TokenAt(s, p) && Toks(s, SkipSpace(s, p)) == Toks(s, p)
    ensures forall toks :: PeekAt(s, SkipSpace(s, p), toks) == PeekAt(s, p, toks)
  {
    var q := SkipSpace(s, p);
    assert SkipSpace(s, q) == q;
  }

  /** Peeking at the next character is looking at the next token. */
  lemma Peeks(s: string, p: nat)
    requires p <= |s| && NUL !in s
    ensures var ts, t := Toks(s, p), TokenAt(s, p);
            && (ts == [] <==> t.kind == NUL) && (ts == [] <==> SkipSpace(s, p) == |s|)
            && (PeekAt(s, p, "<>") <==> !NoArrow(ts)) && (PeekAt(s, p, "(") <==> Begins(ts, "("))
            && (PeekAt(s, p, ")") <==> Begins(ts, ")")) && (PeekAt(s, p, "|") <==> Begins(ts, "|"))
            && (PeekAt(s, p, "&") <==> Begins(ts, "&")) && (PeekAt(s, p, ";") <==> Begins(ts, ";"))
            && (PeekAt(s, p, "|)&;") <==> Begins(ts, "|)&;"))
            && (ts != [] ==> ts[1..] == Toks(s, t.next) && ts[0] == if t.kind == 'a' then Name(Span(t.q, t.eq)) else Sym(t.kind))
  {
    hide TokenAt, SkipSpace;
    KindIs(s, p);
    ToksAre(s, p);
  }

  /** The kind of a token, from the character it starts with. */
  lemma KindIs(s: string, p: nat)
    requires p <= |s| && NUL !in s
    ensures var c, k := At(s, SkipSpace(s, p)), TokenAt(s, p).kind;
            && (c == NUL <==> SkipSpace(s, p) == |s|)
            && if c == NUL then k == NUL else if c == '>' then k == '>' || k == '+' else if IsSymbol(c) then k == c else k == 'a'
  {
    hide SkipSpace, EndWord;
    var q := SkipSpace(s, p);
    if q < |s| { assert s[q] in s; }
  }

  lemma ToksAre(s: string, p: nat)
    requires p <= |s| && NUL !in s
    ensures var ts, t := Toks(s, p), TokenAt(s, p);
            && (ts == [] <==> t.kind == NUL)
            && (ts != [] ==> ts[1..] == Toks(s, t.next) && ts[0] == if t.kind == 'a' then Name(Span(t.q, t.eq)) else Sym(t.kind))
  {
    hide TokenAt, SkipSpace;
  }

  // ---------------------------------------------------- what parses has a tree

  lemma {:induction false} ArrowsSound(s: string, p: nat) returns (rs: seq<Arrowed>)
    requires p <= |s| && NUL !in s && Redirs(s, p).Ok?
    ensures ArrowsOk(rs) && Toks(s, p) == ArrowsYield(rs) + Toks(s, Redirs(s, p).value.1)
    ensures ArrowsValue(rs) == Redirs(s, p).value.0 && NoArrow(Toks(s, Redirs(s, p).value.1))
    decreases |s| - p
  {
    hide TokenAt, SkipSpace, PeekAt, Toks, Mode, Fd, Redirs;
    SkipTwice(s, p);
    Peeks(s, p);
    RedirsStep(s, p);
    if !PeekAt(s, p, "<>") {
      rs := [];
    } else {
      hide ArrowsYield, ArrowsValue, ArrowsOk;
      var t := TokenAt(s, p);
      Peeks(s, t.next);
      var f := TokenAt(s, t.next);
      var rest := ArrowsSound(s, f.next);
      var a := Arrowed(t.kind, Span(f.q, f.eq));
      rs := [a] + rest;
      MoreArrows(a, rest, Toks(s, f.next), Toks(s, Redirs(s, f.next).value.1));
      TwoFirst(Toks(s, p), Toks(s, t.next), Toks(s, f.next));
    }
  }

  /** What a redirection adds to those after it. */
  lemma MoreArrows(a: Arrowed, rs: seq<Arrowed>, b: seq<Tok>, c: seq<Tok>)
    requires b == ArrowsYield(rs) + c
    ensures [Sym(a.kind), Name(a.file)] + b == ArrowsYield([a] + rs) + c
    ensures ArrowsValue([a] + rs) == [Redirection(a.file, Mode(a.kind), Fd(a.kind))] + ArrowsValue(rs)
    ensures ArrowsOk([a] + rs) <==> IsArrow(Sym(a.kind)) && ArrowsOk(rs)
  {
    hide Mode, Fd;
    assert ([a] + rs)[1..] == rs;
    if ArrowsOk([a] + rs) {
      assert IsArrow(Sym(([a] + rs)[0].kind));
      assert forall k :: 0 <= k < |rs| ==> rs[k] == ([a] + rs)[k + 1];
    }
  }

  lemma TwoFirst(a: seq<Tok>, b: seq<Tok>, c: seq<Tok>)
    requires a != [] && a[1..] == b && b != [] && b[1..] == c
    ensures a == [a[0], b[0]] + c
  {
    assert a == [a[0]] + b && b == [b[0]] + c;
  }

  lemma {:induction false} WordsSound(s: string, p: nat, n: nat) returns (ws: seq<Word>)
    requires p <= |s| && NUL !in s && Args(s, p, n).Ok? && n < MAXARGS
    ensures n + |ws| < MAXARGS && (forall k :: 0 <= k < |ws| ==> ArrowsOk(ws[k].rs))
    ensures Toks(s, p) == WordsYield(ws) + Toks(s, Args(s, p, n).value.2)
    ensures WordSpans(ws) == Args(s, p, n).value.0 && WordArrows(ws) == Args(s, p, n).value.1
    ensures Ends(Toks(s, Args(s, p, n).value.2))
    decreases |s| - p
  {
    hide TokenAt, SkipSpace, PeekAt, Toks, Redirs, Args, ArrowsOk, ArrowsYield, ArrowsValue;
    SkipTwice(s, p);
    Peeks(s, p);
    ArgsTurn(s, p, n);
    var t := TokenAt(s, p);
    if PeekAt(s, p, "|)&;") {
      ws := [];
    } else if t.kind == NUL {
      NothingAfter(s, p);
      ws := [];
    } else {
      hide WordsYield, WordSpans, WordArrows;
      var rs := ArrowsSound(s, t.next);
      var next := Redirs(s, t.next).value.1;
      var rest := WordsSound(s, next, n + 1);
      var w := Word(Span(t.q, t.eq), rs);
      ws := [w] + rest;
      MoreWords(w, rest, Toks(s, t.next), Toks(s, next), Toks(s, Args(s, next, n + 1).value.2));
      OneFirst(Toks(s, p), Toks(s, t.next));
    }
  }

  /** What a word and its redirections add to the words after it. */
  lemma MoreWords(w: Word, ws: seq<Word>, a: seq<Tok>, b: seq<Tok>, c: seq<Tok>)
    requires a == ArrowsYield(w.rs) + b && b == WordsYield(ws) + c
    ensures [Name(w.span)] + a == WordsYield([w] + ws) + c
    ensures WordSpans([w] + ws) == [w.span] + WordSpans(ws) && WordArrows([w] + ws) == ArrowsValue(w.rs) + WordArrows(ws)
  {
    hide ArrowsYield, ArrowsValue;
    assert ([w] + ws)[1..] == ws;
  }

  lemma OneFirst(a: seq<Tok>, b: seq<Tok>)
    requires a != [] && a[1..] == b
    ensures a == [a[0]] + b
  {
  }

  /** Where a command may end. */
  predicate Ends(ts: seq<Tok>)
  {
    ts == [] || Begins(ts, "|)&;")
  }

  lemma NothingAfter(s: string, p: nat)
    requires p <= |s| && NUL !in s && TokenAt(s, p).kind == NUL
    ensures Toks(s, TokenAt(s, p).next) == [] == Toks(s, p)
  {
    var t := TokenAt(s, p);
    assert t.next == |s|;
  }

  lemma SimpleSound(s: string, p: nat) returns (t: CmdTree)
    requires p <= |s| && NUL !in s && Simple(s, p).Ok?
    ensures CmdOk(t) && Toks(s, p) == CmdYield(t) + Toks(s, Simple(s, p).value.1)
    ensures CmdValue(t) == Simple(s, p).value.0 && Ends(Toks(s, Simple(s, p).value.1))
  {
    hide Toks, Redirs, Args, Wrap, ArrowsOk, ArrowsYield, WordsYield, ArrowsValue, WordArrows, WordSpans;
    var rs := ArrowsSound(s, p);
    var next := Redirs(s, p).value.1;
    var ws := WordsSound(s, next, 0);
    t := SimpleTree(rs, ws);
    Regroup(ArrowsYield(rs), WordsYield(ws), Toks(s, Args(s, next, 0).value.2));
  }

  lemma Regroup(a: seq<Tok>, b: seq<Tok>, c: seq<Tok>)
    ensures a + (b + c) == a + b + c
  {
  }

  lemma {:induction false} BacksSound(s: string, c: Cmd<Span>, p: nat) returns (n: nat)
    requires p <= |s| && NUL !in s
    ensures Toks(s, p) == Ands(n) + Toks(s, Backs(s, c, p).1) && InBack(c, n) == Backs(s, c, p).0
    ensures !Begins(Toks(s, Backs(s, c, p).1), "&")
    decreases |s| - p
  {
    hide TokenAt, SkipSpace, PeekAt, Toks;
    SkipTwice(s, p);
    Peeks(s, p);
    if PeekAt(s, p, "&") {
      var next := TokenAt(s, p).next;
      n := BacksSound(s, Back(c), next);
      assert Toks(s, p) == [Toks(s, p)[0]] + Toks(s, next);
      n := n + 1;
    } else {
      n := 0;
    }
  }

  lemma {:induction false} LineSound(s: string, p: nat) returns (t: LineTree)
    requires p <= |s| && NUL !in s && Line(s, p).Ok?
    ensures LineOk(t) && Toks(s, p) == LineYield(t) + Toks(s, Line(s, p).value.1) && LineValue(t) == Line(s, p).value.0
    decreases |s| - p, 3
  {
    hide TokenAt, SkipSpace, PeekAt, Toks, Pipeline, Backs, Line, LineYield, LineValue, PipeYield, PipeValue, PipeOk, InBack, Ands;
    LineErr(s, p);
    var first := PipeSound(s, p);
    var p0 := Pipeline(s, p).value.1;
    var n := BacksSound(s, Pipeline(s, p).value.0, p0);
    var p1 := Backs(s, Pipeline(s, p).value.0, p0).1;
    Peeks(s, p1);
    LineTurn(s, p);
    if PeekAt(s, p1, ";") {
      var next := TokenAt(s, p1).next;
      var rest := LineSound(s, next);
      t := LineTree(first, n, More(rest));
      OneFirst(Toks(s, p1), Toks(s, next));
      Regroup([Sym(';')], LineYield(rest), Toks(s, Line(s, next).value.1));
      LineIs(t, Toks(s, Line(s, next).value.1));
    } else {
      t := LineTree(first, n, End);
      LineIs(t, Toks(s, p1));
    }
  }

  lemma LineErr(s: string, p: nat)
    requires p <= |s| && NUL !in s
    ensures Pipeline(s, p).Err? ==> Line(s, p).Err?
  {
    hide Pipeline, Backs, TokenAt;
  }

  lemma {:induction false} PipeSound(s: string, p: nat) returns (t: PipeTree)
    requires p <= |s| && NUL !in s && Pipeline(s, p).Ok?
    ensures PipeOk(t) && Toks(s, p) == PipeYield(t) + Toks(s, Pipeline(s, p).value.1) && PipeValue(t) == Pipeline(s, p).value.0
    decreases |s| - p, 2
  {
    hide TokenAt, SkipSpace, PeekAt, Toks, Command, CmdYield, CmdValue, CmdOk;
    var first := CommandSound(s, p);
    var p0 := Command(s, p).value.1;
    SkipTwice(s, p0);
    var p1 := SkipSpace(s, p0);
    Peeks(s, p1);
    if PeekAt(s, p1, "|") {
      var next := TokenAt(s, p1).next;
      var rest := PipeSound(s, next);
      t := Piped(first, rest);
      OneFirst(Toks(s, p1), Toks(s, next));
      Regroup([Sym('|')], PipeYield(rest), Toks(s, Pipeline(s, next).value.1));
      Regroup(CmdYield(first), [Sym('|')] + PipeYield(rest), Toks(s, Pipeline(s, next).value.1));
    } else {
      t := One(first);
    }
  }

  lemma {:induction false} CommandSound(s: string, p: nat) returns (t: CmdTree)
    requires p <= |s| && NUL !in s && Command(s, p).Ok?
    ensures CmdOk(t) && Toks(s, p) == CmdYield(t) + Toks(s, Command(s, p).value.1) && CmdValue(t) == Command(s, p).value.0
    decreases |s| - p, 1
  {
    hide TokenAt, SkipSpace, PeekAt, Toks, Simple, Block;
    SkipTwice(s, p);
    if PeekAt(s, p, "(") {
      t := BlockSound(s, SkipSpace(s, p));
    } else {
      t := SimpleSound(s, SkipSpace(s, p));
    }
  }

  lemma {:induction false} BlockSound(s: string, p: nat) returns (t: CmdTree)
    requires p <= |s| && NUL !in s && PeekAt(s, p, "(") && Block(s, p).Ok?
    ensures CmdOk(t) && Toks(s, p) == CmdYield(t) + Toks(s, Block(s, p).value.1) && CmdValue(t) == Block(s, p).value.0
    decreases |s| - p, 0
  {
    hide TokenAt, SkipSpace, PeekAt, Toks, Line, Redirs, LineYield, LineValue, LineOk, ArrowsOk, ArrowsYield, ArrowsValue, Wrap;
    Peeks(s, p);
    var p0 := TokenAt(s, p).next;
    var line := LineSound(s, p0);
    var p1 := Line(s, p0).value.1;
    SkipTwice(s, p1);
    var p2 := SkipSpace(s, p1);
    Peeks(s, p2);
    var p3 := TokenAt(s, p2).next;
    var rs := ArrowsSound(s, p3);
    t := BlockTree(line, rs);
    OneFirst(Toks(s, p), Toks(s, p0));
    OneFirst(Toks(s, p2), Toks(s, p3));
    Enclosed(LineYield(line), ArrowsYield(rs), Toks(s, Redirs(s, p3).value.1));
  }

  lemma Enclosed(a: seq<Tok>, b: seq<Tok>, c: seq<Tok>)
    ensures [Sym('(')] + a + [Sym(')')] + b + c == [Sym('(')] + (a + ([Sym(')')] + (b + c)))
  {
  }

  // ---------------------------------------------------- what has a tree parses

  lemma {:induction false} ArrowsComplete(s: string, p: nat, rs: seq<Arrowed>, rest: seq<Tok>)
    requires p <= |s| && NUL !in s && ArrowsOk(rs) && Toks(s, p) == ArrowsYield(rs) + rest && NoArrow(rest)
    ensures Redirs(s, p).Ok? && Redirs(s, p).value.0 == ArrowsValue(rs) && Toks(s, Redirs(s, p).value.1) == rest
    decreases |rs|
  {
    hide TokenAt, SkipSpace, PeekAt, Toks, Mode, Fd, Redirs;
    SkipTwice(s, p);
    Peeks(s, p);
    RedirsStep(s, p);
    if rs != [] {
      var t := TokenAt(s, p);
      var tail := ArrowsYield(rs[1..]) + rest;
      assert Toks(s, p) == [Sym(rs[0].kind), Name(rs[0].file)] + tail;
      Peeks(s, t.next);
      var f := TokenAt(s, t.next);
      assert Toks(s, t.next) == [Name(rs[0].file)] + tail;
      assert Toks(s, f.next) == tail;
      ArrowsComplete(s, f.next, rs[1..], rest);
    }
  }

  /** One turn of parseredirs. */
  lemma RedirsStep(s: string, p: nat)
    requires p <= |s| && NUL !in s
    ensures var p1, t := SkipSpace(s, p), TokenAt(s, p);
            if !PeekAt(s, p, "<>") then Redirs(s, p) == Ok(([], p1)) else
              var f := TokenAt(s, t.next);
              if f.kind != 'a' then Redirs(s, p).Err? else
                var rest := Redirs(s, f.next);
                if rest.Err? then Redirs(s, p).Err?
                else Redirs(s, p) == Ok(([Redirection(Span(f.q, f.eq), Mode(t.kind), Fd(t.kind))] + rest.value.0, rest.value.1))
  {
    hide TokenAt, SkipSpace, PeekAt, Mode, Fd;
    SkipTwice(s, p);
  }

  lemma {:induction false} WordsComplete(s: string, p: nat, ws: seq<Word>, n: nat, rest: seq<Tok>)
    requires p <= |s| && NUL !in s && n + |ws| < MAXARGS && (forall k :: 0 <= k < |ws| ==> ArrowsOk(ws[k].rs))
    requires Toks(s, p) == WordsYield(ws) + rest && Ends(rest)
    ensures Args(s, p, n).Ok? && Args(s, p, n).value.0 == WordSpans(ws) && Args(s, p, n).value.1 == WordArrows(ws)
    ensures Toks(s, Args(s, p, n).value.2) == rest
    decreases |ws|
  {
    hide TokenAt, SkipSpace, PeekAt, Toks, Redirs, Args, ArrowsOk, ArrowsYield, ArrowsValue;
    SkipTwice(s, p);
    Peeks(s, p);
    ArgsTurn(s, p, n);
    if ws == [] {
      if rest == [] { NothingAfter(s, p); }
    } else {
      var t := TokenAt(s, p);
      var tail := WordsYield(ws[1..]) + rest;
      assert Toks(s, p) == [Name(ws[0].span)] + (ArrowsYield(ws[0].rs) + tail);
      assert Toks(s, t.next) == ArrowsYield(ws[0].rs) + tail;
      WordsNoArrow(ws[1..], rest);
      ArrowsComplete(s, t.next, ws[0].rs, tail);
      WordsComplete(s, Redirs(s, t.next).value.1, ws[1..], n + 1, rest);
    }
  }

  lemma WordsNoArrow(ws: seq<Word>, rest: seq<Tok>)
    requires Ends(rest)
    ensures NoArrow(WordsYield(ws) + rest)
  {
  }

  lemma SimpleComplete(s: string, p: nat, t: CmdTree, rest: seq<Tok>)
    requires p <= |s| && NUL !in s && t.SimpleTree? && CmdOk(t) && Toks(s, p) == CmdYield(t) + rest && Ends(rest)
    ensures Simple(s, p).Ok? && Simple(s, p).value.0 == CmdValue(t) && Toks(s, Simple(s, p).value.1) == rest
  {
    hide Toks, Redirs, Args, ArrowsYield, WordsYield, ArrowsValue, WordArrows, WordSpans, Wrap;
    var tail := WordsYield(t.words) + rest;
    assert CmdYield(t) + rest == ArrowsYield(t.rs) + tail;
    WordsNoArrow(t.words, rest);
    ArrowsComplete(s, p, t.rs, tail);
    WordsComplete(s, Redirs(s, p).value.1, t.words, 0, rest);
  }

  lemma {:induction false} BacksComplete(s: string, c: Cmd<Span>, p: nat, n: nat, rest: seq<Tok>)
    requires p <= |s| && NUL !in s && Toks(s, p) == Ands(n) + rest && !Begins(rest, "&")
    ensures Backs(s, c, p).0 == InBack(c, n) && Toks(s, Backs(s, c, p).1) == rest
    decreases n
  {
    hide TokenAt, SkipSpace, PeekAt, Toks;
    SkipTwice(s, p);
    Peeks(s, p);
    if n > 0 {
      assert Toks(s, p) == [Sym('&')] + (Ands(n - 1) + rest);
      BacksComplete(s, Back(c), TokenAt(s, p).next, n - 1, rest);
    }
  }

  /** Where a line may end. */
  predicate LineEnds(ts: seq<Tok>)
  {
    ts == [] || Begins(ts, ")")
  }

  lemma {:induction false} LineComplete(s: string, p: nat, t: LineTree, rest: seq<Tok>)
    requires p <= |s| && NUL !in s && LineOk(t) && Toks(s, p) == LineYield(t) + rest && LineEnds(rest)
    ensures Line(s, p).Ok? && Line(s, p).value.0 == LineValue(t) && Toks(s, Line(s, p).value.1) == rest
    decreases t
  {
    hide TokenAt, SkipSpace, PeekAt, Toks, Pipeline, Backs, Line, LineYield, LineValue, PipeYield, PipeValue, InBack, Ands;
    LineIs(t, rest);
    var more := if t.rest.More? then [Sym(';')] + LineYield(t.rest.line) else [];
    var tail := Ands(t.ands) + (more + rest);
    AndsEnd(t.ands, more + rest);
    PipeComplete(s, p, t.first, tail);
    LineTurn(s, p);
    var c, p0 := Pipeline(s, p).value.0, Pipeline(s, p).value.1;
    BacksComplete(s, c, p0, t.ands, more + rest);
    var p1 := Backs(s, c, p0).1;
    Peeks(s, p1);
    if t.rest.More? {
      Regroup([Sym(';')], LineYield(t.rest.line), rest);
      assert Toks(s, p1)[1..] == LineYield(t.rest.line) + rest;
      LineComplete(s, TokenAt(s, p1).next, t.rest.line, rest);
    }
  }

  /** What a line spells out and stands for. */
  lemma LineIs(t: LineTree, rest: seq<Tok>)
    ensures var more := if t.rest.More? then [Sym(';')] + LineYield(t.rest.line) else [];
            LineYield(t) + rest == PipeYield(t.first) + (Ands(t.ands) + (more + rest))
    ensures var c := InBack(PipeValue(t.first), t.ands);
            LineValue(t) == if t.rest.More? then List(c, LineValue(t.rest.line)) else c
  {
    hide PipeYield, PipeValue, Ands, InBack;
  }

  /** One turn of parseline. */
  lemma LineTurn(s: string, p: nat)
    requires p <= |s| && NUL !in s && Pipeline(s, p).Ok?
    ensures var first := Pipeline(s, p).value;
            var (c, p1) := Backs(s, first.0, first.1);
            if !PeekAt(s, p1, ";") then Line(s, p) == Ok((c, p1)) else
              var rest := Line(s, TokenAt(s, p1).next);
              if rest.Err? then Line(s, p).Err? else Line(s, p) == Ok((List(c, rest.value.0), rest.value.1))
  {
    hide TokenAt, SkipSpace, PeekAt, Pipeline, Backs;
  }

  /** What may follow a pipeline. */
  predicate PipeEnds(ts: seq<Tok>)
  {
    ts == [] || Begins(ts, ")&;")
  }

  lemma AndsEnd(n: nat, ts: seq<Tok>)
    requires ts == [] || Begins(ts, ");")
    ensures PipeEnds(Ands(n) + ts) && !Begins(ts, "&")
  {
  }

  lemma {:induction false} PipeComplete(s: string, p: nat, t: PipeTree, rest: seq<Tok>)
    requires p <= |s| && NUL !in s && PipeOk(t) && Toks(s, p) == PipeYield(t) + rest && PipeEnds(rest)
    ensures Pipeline(s, p).Ok? && Pipeline(s, p).value.0 == PipeValue(t) && Toks(s, Pipeline(s, p).value.1) == rest
    decreases t
  {
    hide TokenAt, SkipSpace, PeekAt, Toks, Command;
    var more := if t.Piped? then [Sym('|')] + PipeYield(t.rest) else [];
    assert PipeYield(t) + rest == CmdYield(t.cmd) + (more + rest);
    CommandComplete(s, p, t.cmd, more + rest);
    var p0 := Command(s, p).value.1;
    SkipTwice(s, p0);
    var p1 := SkipSpace(s, p0);
    Peeks(s, p1);
    if t.Piped? {
      assert Toks(s, p1) == [Sym('|')] + (PipeYield(t.rest) + rest);
      PipeComplete(s, TokenAt(s, p1).next, t.rest, rest);
    }
  }

  lemma {:induction false} CommandComplete(s: string, p: nat, t: CmdTree, rest: seq<Tok>)
    requires p <= |s| && NUL !in s && CmdOk(t) && Toks(s, p) == CmdYield(t) + rest && Ends(rest)
    ensures Command(s, p).Ok? && Command(s, p).value.0 == CmdValue(t) && Toks(s, Command(s, p).value.1) == rest
    decreases t, 1
  {
    hide TokenAt, SkipSpace, PeekAt, Toks, Simple, Block;
    SkipTwice(s, p);
    Peeks(s, p);
    if t.SimpleTree? {
      SimpleStarts(t, rest);
      SimpleComplete(s, SkipSpace(s, p), t, rest);
    } else {
      BlockComplete(s, SkipSpace(s, p), t, rest);
    }
  }

  lemma SimpleStarts(t: CmdTree, rest: seq<Tok>)
    requires t.SimpleTree? && CmdOk(t) && Ends(rest)
    ensures !Begins(CmdYield(t) + rest, "(")
  {
    if t.rs != [] {
      assert IsArrow(Sym(t.rs[0].kind));
    } else if t.words != [] {
      assert (CmdYield(t) + rest)[0] == Name(t.words[0].span);
    }
  }

  lemma {:induction false} BlockComplete(s: string, p: nat, t: CmdTree, rest: seq<Tok>)
    requires p <= |s| && NUL !in s && t.BlockTree? && CmdOk(t) && Toks(s, p) == CmdYield(t) + rest && Ends(rest)
    ensures PeekAt(s, p, "(") && Block(s, p).Ok? && Block(s, p).value.0 == CmdValue(t) && Toks(s, Block(s, p).value.1) == rest
    decreases t, 0
  {
    hide TokenAt, SkipSpace, PeekAt, Toks, Line, Redirs, LineYield, LineValue, ArrowsYield, ArrowsValue, ArrowsOk, LineOk, Wrap;
    var tail := ArrowsYield(t.rs) + rest;
    Enclosed(LineYield(t.line), ArrowsYield(t.rs), rest);
    Peeks(s, p);
    var p0 := TokenAt(s, p).next;
    LineComplete(s, p0, t.line, [Sym(')')] + tail);
    var p1 := Line(s, p0).value.1;
    SkipTwice(s, p1);
    var p2 := SkipSpace(s, p1);
    Peeks(s, p2);
    ArrowsComplete(s, TokenAt(s, p2).next, t.rs, rest);
  }

  // ---------------------------------------------------------------- the theorem

  /** The parser answers a command exactly when the line is spelled out by a tree that stands for it. */
  lemma ParseExactly(s: string, c: Cmd<Span>)
    requires NUL !in s
    ensures Parse(s) == Ok(c) <==> Derives(s, c)
  {
    hide Line, Toks, SkipSpace;
    if Parse(s) == Ok(c) {
      var t := LineSound(s, 0);
      Peeks(s, Line(s, 0).value.1);
      assert LineYield(t) + [] == LineYield(t);
    }
    if Derives(s, c) {
      var t: LineTree :| LineOk(t) && LineYield(t) == Toks(s, 0) && LineValue(t) == c;
      assert LineYield(t) + [] == LineYield(t);
      LineComplete(s, 0, t, []);
      Peeks(s, Line(s, 0).value.1);
    }
  }

  /** No line stands for two commands. */
  lemma OneMeaning(s: string, c: Cmd<Span>, d: Cmd<Span>)
    requires NUL !in s && Derives(s, c) && Derives(s, d)
    ensures c == d
  {
    hide Parse, Derives;
    ParseExactly(s, c);
    ParseExactly(s, d);
  }
}
