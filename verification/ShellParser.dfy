/**
 The parser of user/sh.c: a cursor over the line, command nodes that point into it, and
 nulterminate, which ends every string of the tree in place.
 */
module ShellParser {
  import opened ShellGrammar

  /** A string of the tree: line[q..eq]. */
  datatype Span = Span(q: nat, eq: nat)

  /** A parser's outcome: a tree and the cursor, or panic. */
  datatype Outcome = Done(cmd: Cmd<Span>, ps: nat) | Panic(message: string)

  function Cut(line: string, w: Span): string {
    if w.q <= w.eq <= |line| then line[w.q..w.eq] else ""
  }

  function CutAll(line: string, ws: seq<Span>): (r: seq<string>)
    ensures |r| == |ws| && forall i :: 0 <= i < |r| ==> r[i] == Cut(line, ws[i])
  {
    seq(|ws|, i requires 0 <= i < |ws| => Cut(line, ws[i]))
  }

  function CutRedir(line: string, x: Redirection<Span>): Redirection<string> {
    Redirection(Cut(line, x.file), x.output)
  }

  function CutRedirs(line: string, xs: seq<Redirection<Span>>): (r: seq<Redirection<string>>)
    ensures |r| == |xs| && forall i :: 0 <= i < |r| ==> r[i] == CutRedir(line, xs[i])
  {
    seq(|xs|, i requires 0 <= i < |xs| => CutRedir(line, xs[i]))
  }

  /** The tree with its strings as texts. */
  function Texts(line: string, c: Cmd<Span>): Cmd<string> {
    match c
    case Exec(argv) => Exec(CutAll(line, argv))
    case Redir(d, x) => Redir(Texts(line, d), CutRedir(line, x))
    case Pipe(l, r) => Pipe(Texts(line, l), Texts(line, r))
    case List(l, r) => List(Texts(line, l), Texts(line, r))
    case Back(d) => Back(Texts(line, d))
  }

  /** A whole word of the line. */
  predicate WordSpan(line: string, w: Span) {
    && w.q < w.eq <= |line|
    && (forall k :: w.q <= k < w.eq ==> WordChar(line[k]))
    && (w.eq < |line| ==> !WordChar(line[w.eq]))
  }

  /** Every string of the tree is a whole word, and no command has MAXARGS arguments. */
  predicate Good(line: string, c: Cmd<Span>) {
    match c
    case Exec(argv) => |argv| < MAXARGS && forall i :: 0 <= i < |argv| ==> WordSpan(line, argv[i])
    case Redir(d, x) => Good(line, d) && WordSpan(line, x.file)
    case Pipe(l, r) => Good(line, l) && Good(line, r)
    case List(l, r) => Good(line, l) && Good(line, r)
    case Back(d) => Good(line, d)
  }

  /** The parser did at ps what the grammar says of the rest of the line. */
  ghost predicate Agrees(line: string, ps: nat, o: Outcome, x: Result<Cmd<string>>) {
    match x
    case Err(m) => o == Panic(m)
    case Ok(c, rest) =>
      o.Done? && ps <= o.ps <= |line| && line[o.ps..] == rest && Texts(line, o.cmd) == c && Good(line, o.cmd)
  }

  // ----- tokens

  method Skip(line: string, ps: nat) returns (s: nat)
    requires ps <= |line|
    ensures ps <= s <= |line| && line[s..] == SkipWs(line[ps..])
    ensures (forall k :: ps <= k < s ==> Ws(line[k])) && (s < |line| ==> !Ws(line[s]))
  {
    s := ps;
    while s < |line| && Ws(line[s])
      invariant ps <= s <= |line| && SkipWs(line[s..]) == SkipWs(line[ps..])
      invariant forall k :: ps <= k < s ==> Ws(line[k])
    {
      assert line[s..][1..] == line[s + 1..];
      s := s + 1;
    }
  }

  method WordEnd(line: string, q: nat) returns (s: nat)
    requires q <= |line| && Clean(line)
    ensures q <= s <= |line| && s - q == WordLen(line[q..])
    ensures (forall k :: q <= k < s ==> WordChar(line[k])) && (s < |line| ==> !WordChar(line[s]))
  {
    s := q;
    while s < |line| && !Ws(line[s]) && !Sym(line[s])
      invariant q <= s <= |line| && s - q + WordLen(line[s..]) == WordLen(line[q..])
      invariant forall k :: q <= k < s ==> WordChar(line[k])
    {
      assert line[s..][1..] == line[s + 1..];
      s := s + 1;
    }
  }

  /** What gettoken finds at q, on the characters of the line. */
  predicate TokenAt(line: string, q: nat, tok: char, eq: nat)
    requires q <= |line|
  {
    if q == |line| then tok == NUL && eq == q
    else if line[q] == '>' then
      if q + 1 < |line| && line[q + 1] == '>' then tok == '+' && eq == q + 2 else tok == '>' && eq == q + 1
    else if line[q] in {'<', '|', '&', ';', '(', ')'} then tok == line[q] && eq == q + 1
    else tok == 'a' && WordSpan(line, Span(q, eq))
  }

  /** gettoken: the token past white space, and the white space behind it. */
  method Gettoken(line: string, ps: nat) returns (tok: char, w: Span, ps': nat)
    requires ps <= |line| && Clean(line)
    ensures ps <= w.q <= w.eq <= ps' <= |line| && TokenAt(line, w.q, tok, w.eq)
    ensures forall k :: ps <= k < w.q || w.eq <= k < ps' ==> Ws(line[k])
    ensures (w.q < |line| ==> !Ws(line[w.q])) && (ps' < |line| ==> !Ws(line[ps'])) && (tok != NUL ==> ps < ps')
    ensures tok == GetToken(line[ps..]).kind && line[ps'..] == GetToken(line[ps..]).rest
    ensures tok == 'a' ==> WordSpan(line, w) && Cut(line, w) == GetToken(line[ps..]).text
  {
    hide SkipWs, WordLen, WordChar;
    var s := Skip(line, ps);
    var q := s;
    ghost var r := line[s..];
    assert s < |line| ==> r[0] == line[s];
    if s == |line| {
      tok := NUL;
    } else if line[s] == '>' {
      tok := '>';
      s := s + 1;
      assert line[s..] == r[1..] && (s < |line| ==> r[1] == line[s]);
      if s < |line| && line[s] == '>' {
        tok := '+';
        s := s + 1;
        assert line[s..] == r[2..];
      }
    } else if Sym(line[s]) {
      tok := line[s];
      s := s + 1;
      assert line[s..] == r[1..];
    } else {
      tok := 'a';
      s := WordEnd(line, q);
      Longer(line, q);
      assert line[s..] == r[s - q..] && line[q..s] == r[..s - q];
    }
    w := Span(q, s);
    ps' := Skip(line, s);
  }

  lemma Longer(line: string, q: nat)
    requires q < |line| && !Ws(line[q]) && !Sym(line[q])
    ensures WordLen(line[q..]) > 0
  {
  }

  /** peek */
  method PeekAt(line: string, ps: nat, toks: set<char>) returns (yes: bool, ps': nat)
    requires ps <= |line|
    ensures ps <= ps' <= |line| && line[ps'..] == SkipWs(line[ps..]) == SkipWs(line[ps'..])
    ensures yes == Peek(line[ps..], toks) == Peek(line[ps'..], toks)
    ensures (yes <==> ps' < |line| && line[ps'] in toks) && forall k :: ps <= k < ps' ==> Ws(line[k])
    ensures (yes <==> ps' < |line| && line[ps'] in toks) && forall k :: ps <= k < ps' ==> Ws(line[k])
  {
    ps' := Skip(line, ps);
    SkipTwice(line[ps..]);
    yes := ps' < |line| && line[ps'] in toks;
    assert ps' < |line| ==> line[ps'..][0] == line[ps'];
  }

  // ----- redirections

  function Prepend(rs: seq<Redirection<string>>, x: Result<seq<Redirection<string>>>)
    : Result<seq<Redirection<string>>>
  {
    if x.Ok? then Ok(rs + x.value, x.rest) else x
  }

  lemma {:induction false} WrapLast<W>(c: Cmd<W>, rs: seq<Redirection<W>>, x: Redirection<W>)
    ensures Wrap(c, rs + [x]) == Redir(Wrap(c, rs), x)
    decreases |rs|
  {
    if rs == [] {
      assert rs + [x] == [x] && [x][1..] == [];
    } else {
      assert (rs + [x])[1..] == rs[1..] + [x];
      WrapLast(Redir(c, rs[0]), rs[1..], x);
    }
  }

  /** One step of Redirs. */
  lemma RedirsStep(r: string, rs: seq<Redirection<string>>)
    requires Peek(r, {'<', '>'})
    ensures var op := GetToken(r); var file := GetToken(op.rest);
            if file.kind != 'a' then Redirs(r) == Err(MISSINGFILE)
            else Prepend(rs, Redirs(r)) == Prepend(rs + [Redirection(file.text, op.kind != '<')], Redirs(file.rest))
  {
    hide GetToken, Peek;
    var op := GetToken(r);
    var file := GetToken(op.rest);
    if file.kind == 'a' {
      var x := Redirection(file.text, op.kind != '<');
      match Redirs(file.rest)
      case Err(m) =>
      case Ok(more, rest) => assert rs + ([x] + more) == rs + [x] + more;
    }
  }

  /** parseredirs: cmd wrapped in the redirections that follow; xs lists them. */
  method ParseRedirs(line: string, cmd0: Cmd<Span>, ps: nat) returns (o: Outcome, ghost xs: seq<Redirection<Span>>)
    requires ps <= |line| && Clean(line) && Good(line, cmd0)
    ensures match Redirs(line[ps..])
            case Err(m) => o == Panic(m)
            case Ok(rs, rest) => o.Done? && ps <= o.ps <= |line| && line[o.ps..] == rest && CutRedirs(line, xs) == rs
                                 && o.cmd == Wrap(cmd0, xs) && Good(line, o.cmd)
  {
    hide GetToken, Peek, Redirs, SkipWs, Wrap, WordSpan;
    var cmd, s := cmd0, ps;
    xs := [];
    assert Wrap(cmd0, []) == cmd0 by { WrapNone(cmd0); }
    ghost var x0 := Redirs(line[ps..]);
    PrependNone(x0);
    SameRedirs(line[ps..]);
    var more;
    more, s := PeekAt(line, s, {'<', '>'});
    while more
      invariant ps <= s <= |line| && more == Peek(line[s..], {'<', '>'}) && SkipWs(line[s..]) == line[s..]
      invariant Prepend(CutRedirs(line, xs), Redirs(line[s..])) == x0
      invariant cmd == Wrap(cmd0, xs) && Good(line, cmd)
      decreases |line| - s
    {
      RedirsStep(line[s..], CutRedirs(line, xs));
      var tok, w, tok2;
      tok, w, s := Gettoken(line, s);
      tok2, w, s := Gettoken(line, s);
      if tok2 != 'a' { o := Panic(MISSINGFILE); return; }
      ghost var ys := xs;
      WrapLast(cmd0, xs, Redirection(w, tok != '<'));
      cmd := Redir(cmd, Redirection(w, tok != '<'));
      xs := xs + [Redirection(w, tok != '<')];
      assert CutRedirs(line, xs) == CutRedirs(line, ys) + [Redirection(Cut(line, w), tok != '<')];
      SameRedirs(line[s..]);
      more, s := PeekAt(line, s, {'<', '>'});
    }
    o := Done(cmd, s);
    RedirsNone(line[s..]);
  }

  lemma PrependNone(x: Result<seq<Redirection<string>>>)
    ensures Prepend([], x) == x
  {
    if x.Ok? {
      assert [] + x.value == x.value;
    }
  }

  lemma WrapNone<W>(c: Cmd<W>)
    ensures Wrap(c, []) == c
  {
  }

  lemma RedirsNone(r: string)
    requires !Peek(r, {'<', '>'})
    ensures Redirs(r) == Ok([], SkipWs(r))
  {
  }

  // ----- simple commands

  lemma {:induction false} WrapWrap<W>(c: Cmd<W>, xs: seq<Redirection<W>>, ys: seq<Redirection<W>>)
    ensures Wrap(Wrap(c, xs), ys) == Wrap(c, xs + ys)
    decreases |xs|
  {
    if xs == [] {
      assert xs + ys == ys;
    } else {
      assert (xs + ys)[1..] == xs[1..] + ys;
      WrapWrap(Redir(c, xs[0]), xs[1..], ys);
    }
  }

  lemma {:induction false} TextsWrap(line: string, c: Cmd<Span>, xs: seq<Redirection<Span>>)
    ensures Texts(line, Wrap(c, xs)) == Wrap(Texts(line, c), CutRedirs(line, xs))
    decreases |xs|
  {
    if xs == [] {
      assert CutRedirs(line, xs) == [];
    } else {
      assert CutRedirs(line, xs)[1..] == CutRedirs(line, xs[1..]);
      TextsWrap(line, Redir(c, xs[0]), xs[1..]);
    }
  }

  /** The Exec node under redirections gets the arguments argv; the nodes above keep pointing to it. */
  function SetArgv(c: Cmd<Span>, argv: seq<Span>): Cmd<Span> {
    match c
    case Exec(_) => Exec(argv)
    case Redir(d, x) => Redir(SetArgv(d, argv), x)
    case _ => c
  }

  lemma {:induction false} SetArgvLast(xs: seq<Redirection<Span>>, a: seq<Span>, b: seq<Span>)
    ensures SetArgv(Wrap(Exec(a), xs), b) == Wrap(Exec(b), xs)
    decreases |xs|
  {
    if xs != [] {
      var n := |xs| - 1;
      assert xs == xs[..n] + [xs[n]];
      WrapLast(Exec(a), xs[..n], xs[n]);
      WrapLast(Exec(b), xs[..n], xs[n]);
      SetArgvLast(xs[..n], a, b);
    }
  }

  lemma {:induction false} GoodSet(line: string, c: Cmd<Span>, argv: seq<Span>)
    requires Good(line, c) && Good(line, Exec(argv))
    ensures Good(line, SetArgv(c, argv))
  {
    match c
    case Redir(d, x) => GoodSet(line, d, argv);
    case _ =>
  }

  function PrependArgs(argv: seq<string>, rs: seq<Redirection<string>>,
                       x: Result<(seq<string>, seq<Redirection<string>>)>)
    : Result<(seq<string>, seq<Redirection<string>>)>
  {
    if x.Ok? then Ok((argv + x.value.0, rs + x.value.1), x.rest) else x
  }

  /** One step of Args. */
  lemma ArgsStep(r: string, argc: nat, argv: seq<string>, rs: seq<Redirection<string>>)
    requires !Peek(r, {'|', ')', '&', ';'})
    ensures var t := GetToken(r);
            if t.kind == NUL then Args(r, argc) == Ok(([], []), t.rest)
            else if t.kind != 'a' then Args(r, argc) == Err(SYNTAX)
            else if argc + 1 >= MAXARGS then Args(r, argc) == Err(TOOMANYARGS)
            else match Redirs(t.rest)
                 case Err(m) => Args(r, argc) == Err(m)
                 case Ok(more, rest) =>
                   PrependArgs(argv, rs, Args(r, argc)) ==
                   PrependArgs(argv + [t.text], rs + more, Args(rest, argc + 1))
  {
    hide GetToken, Peek, Redirs;
    var t := GetToken(r);
    if t.kind == 'a' && argc + 1 < MAXARGS && Redirs(t.rest).Ok? {
      var more := Redirs(t.rest);
      match Args(more.rest, argc + 1)
      case Err(m) =>
      case Ok(v, rest) =>
        assert argv + ([t.text] + v.0) == argv + [t.text] + v.0;
        assert rs + (more.value + v.1) == rs + more.value + v.1;
    }
  }

  /** What Simple makes of its arguments and redirections. */
  function MakeSimple(x: Result<(seq<string>, seq<Redirection<string>>)>): Result<Cmd<string>> {
    match x
    case Err(m) => Err(m)
    case Ok(v, rest) => Ok(Wrap(Exec(v.0), v.1), rest)
  }

  lemma SimpleErr(argv: seq<string>, rs: seq<Redirection<string>>)
    ensures forall m: string :: MakeSimple(PrependArgs(argv, rs, Err(m))) == Err(m)
  {
  }

  lemma SimpleIs(r: string, rs: seq<Redirection<string>>, rest: string)
    requires Redirs(r) == Ok(rs, rest)
    ensures Simple(r) == MakeSimple(PrependArgs([], rs, Args(rest, 0)))
  {
    hide Args, Redirs;
    match Args(rest, 0)
    case Err(m) =>
    case Ok(v, rest2) => assert [] + v.0 == v.0;
  }

  /** parseexec for a simple command */
  method ParseSimple(line: string, ps: nat) returns (o: Outcome)
    requires ps <= |line| && Clean(line)
    ensures Agrees(line, ps, o, Simple(line[ps..]))
  {
    hide GetToken, Peek, Redirs, Args, SkipWs, Wrap, WordSpan, Simple, Good, Texts, CutAll, CutRedirs, SetArgv;
    hide MakeSimple, PrependArgs;
    NoArgs(line);
    ghost var xs;
    o, xs := ParseRedirs(line, Exec([]), ps);
    if o.Panic? {
      SimpleFails(line[ps..]);
      return;
    }
    ghost var x0 := Simple(line[ps..]);
    SimpleIs(line[ps..], CutRedirs(line, xs), line[o.ps..]);
    var ret, s := o.cmd, o.ps;
    var argv: seq<Span> := [];
    var stop;
    ghost var before := line[s..];
    stop, s := PeekAt(line, s, {'|', ')', '&', ';'});
    SameArgs(before, 0);
    while !stop
      invariant ps <= s <= |line| && |argv| < MAXARGS && stop == Peek(line[s..], {'|', ')', '&', ';'}) &&
                  SkipWs(line[s..]) == line[s..]
      invariant MakeSimple(PrependArgs(CutAll(line, argv), CutRedirs(line, xs), Args(line[s..], |argv|))) == x0
      invariant ret == Wrap(Exec(argv), xs) && Good(line, ret) && Good(line, Exec(argv))
      decreases |line| - s
    {
      ArgsStep(line[s..], |argv|, CutAll(line, argv), CutRedirs(line, xs));
      var tok, w;
      tok, w, s := Gettoken(line, s);
      if tok == NUL {
        SimpleDone(line, argv, xs, line[s..]);
        return Done(ret, s);
      }
      SimpleErr(CutAll(line, argv), CutRedirs(line, xs));
      if tok != 'a' { o := Panic(SYNTAX); return; }
      if |argv| + 1 >= MAXARGS { o := Panic(TOOMANYARGS); return; }
      ghost var given := argv;
      argv := argv + [w];
      OneMore(line, given, w);
      SetArgvLast(xs, given, argv);
      GoodSet(line, ret, argv);
      ret := SetArgv(ret, argv);
      ghost var ys;
      o, ys := ParseRedirs(line, ret, s);
      if o.Panic? { return; }
      WrapWrap(Exec(argv), xs, ys);
      CutRedirsMore(line, xs, ys);
      xs := xs + ys;
      ret, s := o.cmd, o.ps;
      SameArgs(line[s..], |argv|);
      stop, s := PeekAt(line, s, {'|', ')', '&', ';'});
    }
    ArgsNone(line[s..], |argv|);
    SimpleDone(line, argv, xs, line[s..]);
    o := Done(ret, s);
  }

  lemma NoArgs(line: string)
    ensures Good(line, Exec([])) && CutAll(line, []) == []
  {
  }

  lemma OneMore(line: string, argv: seq<Span>, w: Span)
    requires Good(line, Exec(argv)) && WordSpan(line, w) && |argv| + 1 < MAXARGS
    ensures Good(line, Exec(argv + [w])) && CutAll(line, argv + [w]) == CutAll(line, argv) + [Cut(line, w)]
  {
    hide WordSpan;
  }

  lemma CutRedirsMore(line: string, xs: seq<Redirection<Span>>, ys: seq<Redirection<Span>>)
    ensures CutRedirs(line, xs + ys) == CutRedirs(line, xs) + CutRedirs(line, ys)
  {
  }

  lemma ArgsNone(r: string, argc: nat)
    requires Peek(r, {'|', ')', '&', ';'})
    ensures Args(r, argc) == Ok(([], []), SkipWs(r))
  {
  }

  lemma SimpleDone(line: string, argv: seq<Span>, xs: seq<Redirection<Span>>, rest: string)
    ensures MakeSimple(PrependArgs(CutAll(line, argv), CutRedirs(line, xs), Ok(([], []), rest)))
            == Ok(Texts(line, Wrap(Exec(argv), xs)), rest)
  {
    TextsWrap(line, Exec(argv), xs);
    assert CutAll(line, argv) + [] == CutAll(line, argv) && CutRedirs(line, xs) + [] == CutRedirs(line, xs);
  }

  lemma SimpleFails(r: string)
    requires Redirs(r).Err?
    ensures Simple(r) == Err(Redirs(r).message)
  {
  }

  // ----- the recursive parsers

  /** parseblock, the cursor at a parenthesis. */
  method ParseBlock(line: string, ps: nat) returns (o: Outcome)
    requires ps <= |line| && Clean(line) && Peek(line[ps..], {'('})
    ensures Agrees(line, ps, o, Executable(line[ps..]))
    decreases |line| - ps, 0
  {
    hide GetToken, Redirs, SkipWs, Wrap, WordSpan, Line, Executable, Good, Texts, CutRedirs;
    Unfolds(line[ps..]);
    var tok, w, s, yes;
    ghost var r := line[ps..];
    OpensToken(r);
    tok, w, s := Gettoken(line, ps);
    hide Peek;
    o := ParseLine(line, s);
    if o.Panic? { return; }
    var cmd := o.cmd;
    ghost var before := line[o.ps..];
    yes, s := PeekAt(line, o.ps, {')'});
    if !yes { return Panic(MISSINGPAREN); }
    SameToken(before);
    tok, w, s := Gettoken(line, s);
    ghost var xs;
    o, xs := ParseRedirs(line, cmd, s);
    TextsWrap(line, cmd, xs);
  }

  lemma OpensToken(r: string)
    requires Peek(r, {'('})
    ensures GetToken(r).kind != NUL
  {
  }

  lemma SameToken(r: string)
    ensures GetToken(SkipWs(r)) == GetToken(r)
  {
    SkipTwice(r);
    hide WordLen;
  }

  /** Executable behind a parenthesis. */
  lemma Unfolds(r: string)
    ensures Executable(r) ==
            if !Peek(r, {'('}) then Simple(r) else
            match Line(GetToken(r).rest)
            case Err(m) => Err(m)
            case Ok(c, rest) =>
              if !Peek(rest, {')'}) then Err(MISSINGPAREN) else
              match Redirs(GetToken(rest).rest)
              case Err(m) => Err(m)
              case Ok(rs, rest2) => Ok(Wrap(c, rs), rest2)
  {
  }

  /** parseexec */
  method ParseExec(line: string, ps: nat) returns (o: Outcome)
    requires ps <= |line| && Clean(line)
    ensures Agrees(line, ps, o, Executable(line[ps..]))
    decreases |line| - ps, 1
  {
    hide GetToken, Redirs, SkipWs, Peek, Line, Executable, Simple, Good, Texts;
    var yes, s := PeekAt(line, ps, {'('});
    SameExecutable(line[ps..]);
    Unfolds(line[s..]);
    if yes {
      o := ParseBlock(line, s);
    } else {
      o := ParseSimple(line, s);
    }
  }

  lemma SameExecutable(r: string)
    ensures Executable(SkipWs(r)) == Executable(r)
  {
    SameRedirs(r);
    assert Simple(SkipWs(r)) == Simple(r);
    SameToken(r);
    hide Redirs, Simple, GetToken;
  }

  /** parsepipe */
  method ParsePipe(line: string, ps: nat) returns (o: Outcome)
    requires ps <= |line| && Clean(line)
    ensures Agrees(line, ps, o, Pipeline(line[ps..]))
    decreases |line| - ps, 2
  {
    hide GetToken, SkipWs, Executable, Pipeline;
    UnfoldsPipe(line[ps..]);
    var cmd, yes, s, tok, w;
    o := ParseExec(line, ps);
    if o.Panic? { return; }
    cmd := o.cmd;
    ghost var before := line[o.ps..];
    yes, s := PeekAt(line, o.ps, {'|'});
    if yes {
      SameToken(before);
      BarToken(before, '|');
      tok, w, s := Gettoken(line, s);
      o := ParsePipe(line, s);
      if o.Panic? { return; }
      cmd, s := Pipe(cmd, o.cmd), o.ps;
    }
    o := Done(cmd, s);
  }

  lemma BarToken(r: string, c: char)
    requires Peek(r, {c}) && Sym(c)
    ensures GetToken(r).kind != NUL
  {
  }

  lemma UnfoldsPipe(r: string)
    ensures Pipeline(r) ==
            match Executable(r)
            case Err(m) => Err(m)
            case Ok(c, rest) =>
              if !Peek(rest, {'|'}) then Ok(c, SkipWs(rest)) else
              match Pipeline(GetToken(rest).rest)
              case Err(m) => Err(m)
              case Ok(d, rest2) => Ok(Pipe(c, d), rest2)
  {
  }

  /** parseline */
  method ParseLine(line: string, ps: nat) returns (o: Outcome)
    requires ps <= |line| && Clean(line)
    ensures Agrees(line, ps, o, Line(line[ps..]))
    decreases |line| - ps, 3
  {
    hide GetToken, SkipWs, Pipeline, Line, Backs;
    UnfoldsLine(line[ps..]);
    var cmd, yes, s, tok, w;
    o := ParsePipe(line, ps);
    if o.Panic? { return; }
    cmd, s := ParseBacks(line, o.cmd, o.ps);
    ghost var before := line[s..];
    yes, s := PeekAt(line, s, {';'});
    if yes {
      SameToken(before);
      BarToken(before, ';');
      tok, w, s := Gettoken(line, s);
      o := ParseLine(line, s);
      if o.Panic? { return; }
      cmd, s := List(cmd, o.cmd), o.ps;
    }
    o := Done(cmd, s);
  }

  lemma UnfoldsLine(r: string)
    ensures Line(r) ==
            match Pipeline(r)
            case Err(m) => Err(m)
            case Ok(c0, rest0) =>
              var b := Backs(c0, rest0);
              if !Peek(b.rest, {';'}) then Ok(b.value, SkipWs(b.rest)) else
              match Line(GetToken(b.rest).rest)
              case Err(m) => Err(m)
              case Ok(d, rest2) => Ok(List(b.value, d), rest2)
  {
  }

  /** parseline's loop over & */
  method ParseBacks(line: string, cmd0: Cmd<Span>, ps: nat) returns (cmd: Cmd<Span>, s: nat)
    requires ps <= |line| && Clean(line) && Good(line, cmd0)
    ensures ps <= s <= |line| && Good(line, cmd)
    ensures Backs(Texts(line, cmd0), line[ps..]) == Ok(Texts(line, cmd), line[s..])
  {
    hide GetToken, SkipWs, Peek;
    cmd := cmd0;
    ghost var before := line[ps..];
    var yes, tok, w;
    yes, s := PeekAt(line, ps, {'&'});
    SameBacks(Texts(line, cmd), before);
    while yes
      invariant ps <= s <= |line| && Good(line, cmd) && yes == Peek(line[s..], {'&'}) && SkipWs(line[s..]) == line[s..]
      invariant Backs(Texts(line, cmd), line[s..]) == Backs(Texts(line, cmd0), line[ps..])
      decreases |line| - s
    {
      BarToken(line[s..], '&');
      tok, w, s := Gettoken(line, s);
      cmd := Back(cmd);
      before := line[s..];
      SameBacks(Texts(line, cmd), before);
      yes, s := PeekAt(line, s, {'&'});
    }
  }

  lemma SameBacks(c: Cmd<string>, r: string)
    ensures Backs(c, SkipWs(r)) == Backs(c, r)
  {
    SameToken(r);
    SkipTwice(r);
    hide GetToken;
  }

  // ----- nulterminate and parsecmd

  function ArgEnds(argv: seq<Span>): set<int> { set i | 0 <= i < |argv| :: argv[i].eq }

  /** Where the strings of the tree end. */
  function Ends(c: Cmd<Span>): set<int> {
    match c
    case Exec(argv) => ArgEnds(argv)
    case Redir(d, x) => Ends(d) + {x.file.eq}
    case Pipe(l, r) => Ends(l) + Ends(r)
    case List(l, r) => Ends(l) + Ends(r)
    case Back(d) => Ends(d)
  }

  /** The C string at w.q in b is the word w of the line. */
  predicate Terminated(line: string, b: seq<char>, w: Span) {
    && w.q <= w.eq < |b| && w.eq <= |line| && b[w.eq] == NUL
    && b[w.q..w.eq] == Cut(line, w) && forall k :: w.q <= k < w.eq ==> b[k] != NUL
  }

  /** Every string of the tree reads as its word. */
  predicate AllTerminated(line: string, b: seq<char>, c: Cmd<Span>) {
    match c
    case Exec(argv) => forall i :: 0 <= i < |argv| ==> Terminated(line, b, argv[i])
    case Redir(d, x) => AllTerminated(line, b, d) && Terminated(line, b, x.file)
    case Pipe(l, r) => AllTerminated(line, b, l) && AllTerminated(line, b, r)
    case List(l, r) => AllTerminated(line, b, l) && AllTerminated(line, b, r)
    case Back(d) => AllTerminated(line, b, d)
  }

  /** b is the line and its NUL, with NULs put at the places in ends. */
  ghost predicate Cleared(line: string, b: seq<char>, ends: set<int>) {
    |line| < |b| && b[|line|] == NUL && forall k {:trigger b[k]} :: 0 <= k < |line| ==>
        b[k] == if k in ends then NUL else line[k]
  }

  lemma {:induction false} EndsBetween(line: string, c: Cmd<Span>, e: int)
    requires Good(line, c) && e in Ends(c)
    ensures 0 <= e <= |line| && (e < |line| ==> !WordChar(line[e]))
  {
    match c
    case Exec(argv) =>
    case Redir(d, x) => if e != x.file.eq { EndsBetween(line, d, e); }
    case Pipe(l, r) => if e in Ends(l) { EndsBetween(line, l, e); } else { EndsBetween(line, r, e); }
    case List(l, r) => if e in Ends(l) { EndsBetween(line, l, e); } else { EndsBetween(line, r, e); }
    case Back(d) => EndsBetween(line, d, e);
  }

  /** No terminator of the tree lands inside another of its words. */
  lemma WordKept(line: string, b: seq<char>, all: Cmd<Span>, w: Span)
    requires Good(line, all) && Cleared(line, b, Ends(all)) && WordSpan(line, w) && w.eq in Ends(all)
    ensures Terminated(line, b, w)
  {
    forall k | w.q <= k < w.eq
      ensures b[k] == line[k] != NUL
    {
      if k in Ends(all) {
        EndsBetween(line, all, k);
      }
    }
    hide WordSpan, Ends, Good;
    assert b[w.q..w.eq] == line[w.q..w.eq];
  }

  lemma {:induction false} TreeKept(line: string, b: seq<char>, all: Cmd<Span>, c: Cmd<Span>)
    requires Good(line, all) && Cleared(line, b, Ends(all)) && Good(line, c) && Ends(c) <= Ends(all)
    ensures AllTerminated(line, b, c)
  {
    hide Cleared, WordSpan, Terminated;
    match c
    case Exec(argv) =>
      forall i | 0 <= i < |argv|
        ensures Terminated(line, b, argv[i])
      {
        assert argv[i].eq in Ends(c);
        WordKept(line, b, all, argv[i]);
      }
    case Redir(d, x) =>
      TreeKept(line, b, all, d);
      WordKept(line, b, all, x.file);
    case Pipe(l, r) =>
      TreeKept(line, b, all, l);
      TreeKept(line, b, all, r);
    case List(l, r) =>
      TreeKept(line, b, all, l);
      TreeKept(line, b, all, r);
    case Back(d) =>
      TreeKept(line, b, all, d);
  }

  /** nulterminate: a NUL at the end of every string of the tree, and nothing else changed. */
  method Nulterminate(buf: array<char>, ghost line: string, c: Cmd<Span>)
    requires |line| < buf.Length && Good(line, c)
    modifies buf
    ensures forall k {:trigger buf[k]} :: 0 <= k < buf.Length ==> buf[k] == if k in Ends(c) then NUL else old(buf[k])
    decreases c
  {
    match c
    case Exec(argv) =>
      var i := 0;
      while i < |argv|
        invariant 0 <= i <= |argv|
        invariant forall k {:trigger buf[k]} :: 0 <= k < buf.Length ==>
                    buf[k] == if k in ArgEnds(argv[..i]) then NUL else old(buf[k])
      {
        assert ArgEnds(argv[..i + 1]) == ArgEnds(argv[..i]) + {argv[i].eq};
        buf[argv[i].eq] := NUL;
        i := i + 1;
      }
      assert argv[..i] == argv;
    case Redir(d, x) =>
      Nulterminate(buf, line, d);
      buf[x.file.eq] := NUL;
    case Pipe(l, r) =>
      Nulterminate(buf, line, l);
      Nulterminate(buf, line, r);
    case List(l, r) =>
      Nulterminate(buf, line, l);
      Nulterminate(buf, line, r);
    case Back(d) =>
      Nulterminate(buf, line, d);
  }

  method Strlen(buf: array<char>, ghost m: nat) returns (n: nat)
    requires m < buf.Length && buf[m] == NUL
    ensures n <= m && buf[n] == NUL && forall k :: 0 <= k < n ==> buf[k] != NUL
  {
    n := 0;
    while buf[n] != NUL
      invariant 0 <= n <= m && forall k :: 0 <= k < n ==> buf[k] != NUL
      decreases m - n
    {
      n := n + 1;
    }
  }

  /**
   parsecmd on a line that ends in NUL: it dies with the message the grammar gives, leaving
   the line as it was, or returns the tree the grammar gives, and then every string of the
   tree reads as exactly its word.
   */
  method ParseCmd(buf: array<char>, ghost m: nat) returns (o: Outcome, n: nat)
    requires m < buf.Length && buf[m] == NUL
    modifies buf
    ensures n <= m && Clean(old(buf[..n])) && old(buf[n]) == NUL
    ensures match Command(old(buf[..n]))
            case Err(msg) => o == Panic(msg) && buf[..] == old(buf[..])
            case Ok(c, _) => o.Done? && Texts(old(buf[..n]), o.cmd) == c && Good(old(buf[..n]), o.cmd)
                             && AllTerminated(old(buf[..n]), buf[..], o.cmd)
  {
    hide Line, Good, Texts, AllTerminated, Ends, SkipWs;
    n := Strlen(buf, m);
    var line := buf[..n];
    assert line[0..] == line;
    o := ParseLine(line, 0);
    if o.Panic? { return; }
    var yes, s := PeekAt(line, o.ps, {});
    assert |line[s..]| == n - s;
    if s != n { return Panic(SYNTAX), n; }
    Nulterminate(buf, line, o.cmd);
    TreeKept(line, buf[..], o.cmd, o.cmd);
  }
}
