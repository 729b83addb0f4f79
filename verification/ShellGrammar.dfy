/**
 The grammar that user/sh.c parses, as functions on the rest of the line, and the writing
 out of a command tree. An error is the message the parser dies with.
 */
module ShellGrammar {
  const NUL := 0 as char
  const MAXARGS := 10
  const MISSINGFILE := "missing file for redirection"
  const SYNTAX := "syntax"
  const MISSINGPAREN := "syntax - missing )"
  const TOOMANYARGS := "too many args"

  /** A redirection of file: for output as fd 1, or else for input as fd 0. > and >> open alike. */
  datatype Redirection<W> = Redirection(file: W, output: bool)

  datatype Cmd<W> =
    | Exec(argv: seq<W>)
    | Redir(cmd: Cmd<W>, redirection: Redirection<W>)
    | Pipe(left: Cmd<W>, right: Cmd<W>)
    | List(left: Cmd<W>, right: Cmd<W>)
    | Back(cmd: Cmd<W>)

  datatype Result<T> = Ok(value: T, rest: string) | Err(message: string)

  /** whitespace[] */
  predicate Ws(c: char) { c == ' ' || c == '\t' || c == '\r' || c == '\n' || c == '\U{0B}' }

  /** symbols[] */
  predicate Sym(c: char) { c == '<' || c == '|' || c == '>' || c == '&' || c == ';' || c == '(' || c == ')' }

  /** A C string. */
  predicate Clean(line: string) { forall k :: 0 <= k < |line| ==> line[k] != NUL }

  predicate WordChar(c: char) { !Ws(c) && !Sym(c) && c != NUL }

  // ----- tokens

  function SkipWs(r: string): (t: string)
    ensures |t| <= |r| && (t == "" || !Ws(t[0]))
  {
    if r != "" && Ws(r[0]) then SkipWs(r[1..]) else r
  }

  function WordLen(r: string): (n: nat)
    ensures n <= |r|
  {
    if r == "" || Ws(r[0]) || Sym(r[0]) then 0 else 1 + WordLen(r[1..])
  }

  /** kind is the symbol, '+' for >>, 'a' for a word, NUL at the end of the line. */
  datatype Token = Token(kind: char, text: string, rest: string)

  function GetToken(r: string): (t: Token)
    ensures |t.rest| <= |r| && (t.kind != NUL ==> |t.rest| < |r|)
    ensures t.rest == "" || !Ws(t.rest[0])
  {
    var s := SkipWs(r);
    if s == "" then Token(NUL, "", "")
    else if s[0] == '>' then
      if |s| > 1 && s[1] == '>' then Token('+', s[..2], SkipWs(s[2..])) else Token('>', s[..1], SkipWs(s[1..]))
    else if Sym(s[0]) then Token(s[0], s[..1], SkipWs(s[1..]))
    else Token('a', s[..WordLen(s)], SkipWs(s[WordLen(s)..]))
  }

  predicate Peek(r: string, toks: set<char>) {
    var s := SkipWs(r);
    s != "" && s[0] in toks
  }

  // ----- the grammar

  /** c with the redirections rs, the first innermost. */
  function Wrap<W>(c: Cmd<W>, rs: seq<Redirection<W>>): Cmd<W>
    decreases |rs|
  {
    if rs == [] then c else Wrap(Redir(c, rs[0]), rs[1..])
  }

  /** parseredirs */
  function Redirs(r: string): (x: Result<seq<Redirection<string>>>)
    ensures x.Ok? ==> |x.rest| <= |r|
    decreases |r|
  {
    if !Peek(r, {'<', '>'}) then Ok([], SkipWs(r)) else
    var op := GetToken(r);
    var file := GetToken(op.rest);
    if file.kind != 'a' then Err(MISSINGFILE) else
    match Redirs(file.rest)
    case Err(m) => Err(m)
    case Ok(rs, rest) => Ok([Redirection(file.text, op.kind != '<')] + rs, rest)
  }

  /** The loop of parseexec, with argc arguments so far: the other arguments, and the redirections among them. */
  function Args(r: string, argc: nat): (x: Result<(seq<string>, seq<Redirection<string>>)>)
    ensures x.Ok? ==> |x.rest| <= |r|
    decreases |r|
  {
    if Peek(r, {'|', ')', '&', ';'}) then Ok(([], []), SkipWs(r)) else
    var t := GetToken(r);
    if t.kind == NUL then Ok(([], []), t.rest)
    else if t.kind != 'a' then Err(SYNTAX)
    else if argc + 1 >= MAXARGS then Err(TOOMANYARGS)
    else
      match Redirs(t.rest)
      case Err(m) => Err(m)
      case Ok(rs, rest) =>
        match Args(rest, argc + 1)
        case Err(m) => Err(m)
        case Ok(more, rest2) => Ok(([t.text] + more.0, rs + more.1), rest2)
  }

  /** parseexec for a simple command */
  function Simple(r: string): (x: Result<Cmd<string>>)
    ensures x.Ok? ==> |x.rest| <= |r|
  {
    match Redirs(r)
    case Err(m) => Err(m)
    case Ok(rs, rest) =>
      match Args(rest, 0)
      case Err(m) => Err(m)
      case Ok(more, rest2) => Ok(Wrap(Exec(more.0), rs + more.1), rest2)
  }

  /** parseexec, and parseblock behind a parenthesis */
  function Executable(r: string): (x: Result<Cmd<string>>)
    ensures x.Ok? ==> |x.rest| <= |r|
    decreases |r|, 0
  {
    if !Peek(r, {'('}) then Simple(r) else
    match Line(GetToken(r).rest)
    case Err(m) => Err(m)
    case Ok(c, rest) =>
      if !Peek(rest, {')'}) then Err(MISSINGPAREN) else
      match Redirs(GetToken(rest).rest)
      case Err(m) => Err(m)
      case Ok(rs, rest2) => Ok(Wrap(c, rs), rest2)
  }

  /** parsepipe */
  function Pipeline(r: string): (x: Result<Cmd<string>>)
    ensures x.Ok? ==> |x.rest| <= |r|
    decreases |r|, 1
  {
    match Executable(r)
    case Err(m) => Err(m)
    case Ok(c, rest) =>
      if !Peek(rest, {'|'}) then Ok(c, SkipWs(rest)) else
      match Pipeline(GetToken(rest).rest)
      case Err(m) => Err(m)
      case Ok(d, rest2) => Ok(Pipe(c, d), rest2)
  }

  /** parseline's loop over & */
  function Backs<W>(c: Cmd<W>, r: string): (x: Result<Cmd<W>>)
    ensures x.Ok? && |x.rest| <= |r|
    decreases |r|
  {
    if Peek(r, {'&'}) then Backs(Back(c), GetToken(r).rest) else Ok(c, SkipWs(r))
  }

  /** parseline */
  function Line(r: string): (x: Result<Cmd<string>>)
    ensures x.Ok? ==> |x.rest| <= |r|
    decreases |r|, 2
  {
    match Pipeline(r)
    case Err(m) => Err(m)
    case Ok(c0, rest0) =>
      var Ok(c, rest) := Backs(c0, rest0);
      if !Peek(rest, {';'}) then Ok(c, SkipWs(rest)) else
      match Line(GetToken(rest).rest)
      case Err(m) => Err(m)
      case Ok(d, rest2) => Ok(List(c, d), rest2)
  }

  /** parsecmd */
  function Command(r: string): Result<Cmd<string>> {
    match Line(r)
    case Err(m) => Err(m)
    case Ok(c, rest) => if SkipWs(rest) == "" then Ok(c, "") else Err(SYNTAX)
  }

  // ----- writing a command out

  predicate IsWord(w: string) { w != "" && forall i :: 0 <= i < |w| ==> WordChar(w[i]) }

  /** What a command tree can hold: words, and fewer arguments than MAXARGS. */
  predicate Writable(c: Cmd<string>) {
    match c
    case Exec(argv) => |argv| < MAXARGS && forall i :: 0 <= i < |argv| ==> IsWord(argv[i])
    case Redir(d, x) => Writable(d) && IsWord(x.file)
    case Pipe(l, r) => Writable(l) && Writable(r)
    case List(l, r) => Writable(l) && Writable(r)
    case Back(d) => Writable(d)
  }

  function Words(argv: seq<string>): string {
    if argv == [] then "" else " " + argv[0] + Words(argv[1..])
  }

  function Op(x: Redirection<string>): string { if x.output then ">" else "<" }

  /** The command with the shell's symbols, every part in parentheses. */
  function Write(c: Cmd<string>): string {
    match c
    case Exec(argv) => Words(argv)
    case Redir(d, x) => "(" + Write(d) + ")" + Op(x) + x.file
    case Pipe(l, r) => "(" + Write(l) + ")|(" + Write(r) + ")"
    case List(l, r) => "(" + Write(l) + ");(" + Write(r) + ")"
    case Back(d) => "(" + Write(d) + ")&"
  }

  /** Ends a word. */
  predicate Stops(tail: string) { tail == "" || Ws(tail[0]) || Sym(tail[0]) }

  lemma {:induction false} WordIs(w: string, tail: string)
    requires (forall i :: 0 <= i < |w| ==> WordChar(w[i])) && Stops(tail)
    ensures WordLen(w + tail) == |w|
  {
    if w == "" {
      assert w + tail == tail;
    } else {
      assert (w + tail)[1..] == w[1..] + tail;
      WordIs(w[1..], tail);
    }
  }

  lemma WordToken(w: string, tail: string)
    requires IsWord(w) && Stops(tail)
    ensures SkipWs(w + tail) == w + tail && GetToken(w + tail) == Token('a', w, SkipWs(tail))
  {
    WordIs(w, tail);
    var s := w + tail;
    assert s[0] == w[0] && s[..|w|] == w && s[|w|..] == tail;
    hide WordLen;
  }

  lemma SpaceSkipped(r: string)
    ensures SkipWs(" " + r) == SkipWs(r)
  {
    assert (" " + r)[1..] == r;
  }

  lemma SymbolToken(c: char, tail: string)
    requires Sym(c) && (c != '>' || tail == "" || tail[0] != '>')
    ensures SkipWs([c] + tail) == [c] + tail && GetToken([c] + tail) == Token(c, [c], SkipWs(tail))
  {
    assert ([c] + tail)[1..] == tail;
  }

  /** Where a written command may stop: at the end or before a parenthesis. */
  predicate Closed(tail: string) { tail == "" || tail[0] == ')' }

  // The parsers depend on what follows the whitespace only.

  lemma SameRedirs(r: string)
    ensures Redirs(SkipWs(r)) == Redirs(r)
  {
    SkipTwice(r);
    assert Peek(SkipWs(r), {'<', '>'}) == Peek(r, {'<', '>'}) && GetToken(SkipWs(r)) == GetToken(r);
    hide SkipWs, Peek, GetToken;
  }

  lemma SameArgs(r: string, argc: nat)
    ensures Args(SkipWs(r), argc) == Args(r, argc)
  {
  }

  lemma SameLine(r: string)
    ensures Line(SkipWs(r)) == Line(r)
  {
    SameRedirs(r);
    assert Simple(SkipWs(r)) == Simple(r);
    hide Redirs, Simple;
    assert Executable(SkipWs(r)) == Executable(r);
    hide Executable;
    assert Pipeline(SkipWs(r)) == Pipeline(r);
  }

  /** What the parser sees of " w..." */
  lemma SeesWord(w: string, rest: string)
    requires IsWord(w)
    ensures SkipWs(" " + (w + rest)) == w + rest == SkipWs(w + rest)
    ensures forall toks {:trigger Peek(" " + (w + rest), toks)} :: Peek(" " + (w + rest), toks) <==> w[0] in toks
  {
    SpaceSkipped(w + rest);
    assert (w + rest)[0] == w[0];
  }

  lemma Unseen(w: string)
    requires IsWord(w)
    ensures w[0] !in {'(', '|', '&', ';', ')', '<', '>'}
  {
  }

  /** What Args and the parsers before it see of written words. */
  ghost predicate WordsOk(argv: seq<string>, argc: nat, r: string, tail: string) {
    && Args(r, argc) == Ok((argv, []), tail)
    && !Peek(r, {'<', '>'}) && !Peek(r, {'('}) && Stops(r)
  }

  lemma NoWords(argc: nat, tail: string)
    requires Closed(tail) && argc < MAXARGS
    ensures WordsOk([], argc, tail, tail)
  {
  }

  lemma MoreWords(w: string, argv: seq<string>, argc: nat, rest: string, tail: string)
    requires IsWord(w) && argc + 1 < MAXARGS && WordsOk(argv, argc + 1, rest, tail)
    ensures WordsOk([w] + argv, argc, " " + (w + rest), tail)
  {
    var r := " " + (w + rest);
    SeesWord(w, rest);
    Unseen(w);
    WordToken(w, rest);
    SameArgs(rest, argc + 1);
    hide Args, WordLen, IsWord;
    assert GetToken(r) == GetToken(w + rest);
    hide GetToken, Peek;
    OneArg(r, argc, w, rest, argv, tail);
  }

  lemma {:induction false} WordsParse(argv: seq<string>, argc: nat, tail: string)
    requires argc + |argv| < MAXARGS && (forall i :: 0 <= i < |argv| ==> IsWord(argv[i])) && Closed(tail)
    ensures WordsOk(argv, argc, Words(argv) + tail, tail)
    decreases |argv|
  {
    hide WordsOk, IsWord, Closed;
    if argv == [] {
      NoWords(argc, tail);
      assert Words(argv) + tail == tail;
    } else {
      WordsParse(argv[1..], argc + 1, tail);
      MoreWords(argv[0], argv[1..], argc, Words(argv[1..]) + tail, tail);
      assert [argv[0]] + argv[1..] == argv;
      assert Words(argv) + tail == " " + (argv[0] + (Words(argv[1..]) + tail));
    }
  }

  lemma OneArg(r: string, argc: nat, w: string, rest: string, argv: seq<string>, tail: string)
    requires !Peek(r, {'|', ')', '&', ';'}) && GetToken(r) == Token('a', w, SkipWs(rest)) && argc + 1 < MAXARGS
    requires !Peek(rest, {'<', '>'}) && Args(SkipWs(rest), argc + 1) == Ok((argv, []), tail)
    ensures Args(r, argc) == Ok(([w] + argv, []), tail)
  {
    SameRedirs(rest);
    SkipTwice(rest);
    hide GetToken, Peek;
    var none: seq<Redirection<string>> := [];
    assert none + none == none;
  }

  lemma SkipTwice(r: string)
    ensures SkipWs(SkipWs(r)) == SkipWs(r)
  {
  }

  /** After a closing parenthesis. */
  predicate Follows(more: string) { more == "" || more[0] in {'|', '&', ';', ')'} }

  /** A command in parentheses, with redirections behind them. */
  lemma Block(c: Cmd<string>, more: string, rs: seq<Redirection<string>>, rest: string)
    requires Line(Write(c) + (")" + more)) == Ok(c, ")" + more) && Redirs(more) == Ok(rs, rest)
    ensures Executable("(" + Write(c) + ")" + more) == Ok(Wrap(c, rs), rest)
  {
    var inner := Write(c) + (")" + more);
    assert "(" + Write(c) + ")" + more == "(" + inner;
    SymbolToken('(', inner);
    SymbolToken(')', more);
    SameLine(inner);
    SameRedirs(more);
    hide Line, GetToken, Redirs, Simple;
  }

  lemma Plain(r: string, c: Cmd<string>, tail: string)
    requires Executable(r) == Ok(c, tail) && Closed(tail)
    ensures Line(r) == Ok(c, tail)
  {
    hide Executable;
  }

  lemma PlainBlock(c: Cmd<string>, more: string)
    requires Line(Write(c) + (")" + more)) == Ok(c, ")" + more) && Follows(more)
    ensures Executable("(" + Write(c) + ")" + more) == Ok(c, more)
  {
    hide Line, Executable;
    assert Redirs(more) == Ok([], more);
    Block(c, more, [], more);
  }

  lemma WrittenExec(argv: seq<string>, tail: string)
    requires Writable(Exec(argv)) && Closed(tail)
    ensures Line(Write(Exec(argv)) + tail) == Ok(Exec(argv), tail)
  {
    var r := Words(argv) + tail;
    WordsParse(argv, 0, tail);
    SameArgs(r, 0);
    hide Args, Words, SkipWs;
    assert Redirs(r) == Ok([], SkipWs(r));
    assert Simple(r) == Ok(Exec(argv), tail);
    hide Simple;
    Plain(r, Exec(argv), tail);
  }

  lemma OneRedir(x: Redirection<string>, tail: string)
    requires IsWord(x.file) && Closed(tail)
    ensures Redirs(Op(x) + x.file + tail) == Ok([x], tail)
  {
    var op := if x.output then '>' else '<';
    var after := x.file + tail;
    var r := [op] + after;
    assert Op(x) + x.file + tail == r;
    SymbolToken(op, after);
    WordToken(x.file, tail);
    NoneLeft(tail);
    hide Redirs, GetToken, WordLen, IsWord;
    RedirStep(r, op, after, x, tail);
  }

  lemma NoneLeft(tail: string)
    requires Closed(tail)
    ensures Redirs(tail) == Ok([], tail) && SkipWs(tail) == tail
  {
  }

  lemma RedirStep(r: string, op: char, after: string, x: Redirection<string>, tail: string)
    requires Peek(r, {'<', '>'}) && GetToken(r) == Token(op, [op], after) && GetToken(after) == Token('a', x.file, tail)
    requires Redirs(tail) == Ok([], tail) && x.output == (op != '<')
    ensures Redirs(r) == Ok([x], tail)
  {
    hide GetToken, Peek;
    assert [x] + [] == [x];
  }

  lemma WrittenPipe(l: Cmd<string>, r: Cmd<string>, s: string, second: string, tail: string)
    requires Executable(s) == Ok(l, "|" + second) && Executable(second) == Ok(r, tail) && Closed(tail)
    ensures Line(s) == Ok(Pipe(l, r), tail)
  {
    SymbolToken('|', second);
    SamePipeline(second);
    hide Executable;
    assert Pipeline(second) == Ok(r, tail);
    assert Pipeline(s) == Ok(Pipe(l, r), tail);
    hide Pipeline;
    assert Backs(Pipe(l, r), tail) == Ok(Pipe(l, r), tail);
  }

  lemma SamePipeline(r: string)
    ensures Pipeline(SkipWs(r)) == Pipeline(r)
  {
    SameRedirs(r);
    assert Simple(SkipWs(r)) == Simple(r);
    hide Redirs, Simple;
    assert Executable(SkipWs(r)) == Executable(r);
    hide Executable;
  }

  lemma WrittenList(l: Cmd<string>, r: Cmd<string>, s: string, second: string, tail: string)
    requires Executable(s) == Ok(l, ";" + second) && Executable(second) == Ok(r, tail) && Closed(tail)
    ensures Line(s) == Ok(List(l, r), tail)
  {
    SymbolToken(';', second);
    SameLine(second);
    Plain(second, r, tail);
    hide Executable;
    assert Pipeline(s) == Ok(l, ";" + second);
    hide Pipeline;
    assert Backs(l, ";" + second) == Ok(l, ";" + second);
  }

  lemma WrittenBack(d: Cmd<string>, s: string, tail: string)
    requires Executable(s) == Ok(d, "&" + tail) && Closed(tail)
    ensures Line(s) == Ok(Back(d), tail)
  {
    SymbolToken('&', tail);
    hide Executable;
    assert Pipeline(s) == Ok(d, "&" + tail);
    hide Pipeline;
    assert Backs(Back(d), tail) == Ok(Back(d), tail);
  }

  lemma RedirParses(d: Cmd<string>, x: Redirection<string>, tail: string)
    requires IsWord(x.file) && Closed(tail)
    requires var more := Op(x) + x.file + tail; Line(Write(d) + (")" + more)) == Ok(d, ")" + more)
    ensures Line(Write(Redir(d, x)) + tail) == Ok(Redir(d, x), tail)
  {
    hide Line, Executable, Redirs, IsWord;
    var more := Op(x) + x.file + tail;
    OneRedir(x, tail);
    Block(d, more, [x], tail);
    assert Write(Redir(d, x)) + tail == "(" + Write(d) + ")" + more;
    assert [x][1..] == [];
    Plain(Write(Redir(d, x)) + tail, Redir(d, x), tail);
  }

  lemma PipeParses(l: Cmd<string>, r: Cmd<string>, tail: string)
    requires Closed(tail) && Line(Write(r) + (")" + tail)) == Ok(r, ")" + tail)
    requires var more := "|" + ("(" + Write(r) + ")" + tail); Line(Write(l) + (")" + more)) == Ok(l, ")" + more)
    ensures Line(Write(Pipe(l, r)) + tail) == Ok(Pipe(l, r), tail)
  {
    hide Line, Executable;
    var second := "(" + Write(r) + ")" + tail;
    PlainBlock(l, "|" + second);
    PlainBlock(r, tail);
    assert Write(Pipe(l, r)) + tail == "(" + Write(l) + ")" + ("|" + second);
    WrittenPipe(l, r, Write(Pipe(l, r)) + tail, second, tail);
  }

  lemma ListParses(l: Cmd<string>, r: Cmd<string>, tail: string)
    requires Closed(tail) && Line(Write(r) + (")" + tail)) == Ok(r, ")" + tail)
    requires var more := ";" + ("(" + Write(r) + ")" + tail); Line(Write(l) + (")" + more)) == Ok(l, ")" + more)
    ensures Line(Write(List(l, r)) + tail) == Ok(List(l, r), tail)
  {
    hide Line, Executable;
    var second := "(" + Write(r) + ")" + tail;
    PlainBlock(l, ";" + second);
    PlainBlock(r, tail);
    assert Write(List(l, r)) + tail == "(" + Write(l) + ")" + (";" + second);
    WrittenList(l, r, Write(List(l, r)) + tail, second, tail);
  }

  lemma BackParses(d: Cmd<string>, tail: string)
    requires Closed(tail) && Line(Write(d) + (")" + ("&" + tail))) == Ok(d, ")" + ("&" + tail))
    ensures Line(Write(Back(d)) + tail) == Ok(Back(d), tail)
  {
    hide Line, Executable;
    PlainBlock(d, "&" + tail);
    assert Write(Back(d)) + tail == "(" + Write(d) + ")" + ("&" + tail);
    WrittenBack(d, Write(Back(d)) + tail, tail);
  }

  /** A written command parses as itself, up to the end or the next closing parenthesis. */
  lemma {:induction false} WrittenParses(c: Cmd<string>, tail: string)
    requires Writable(c) && Closed(tail)
    ensures Line(Write(c) + tail) == Ok(c, tail)
    decreases c
  {
    hide Line, IsWord, Write;
    match c
    case Exec(argv) =>
      WrittenExec(argv, tail);
    case Redir(d, x) =>
      WrittenParses(d, ")" + (Op(x) + x.file + tail));
      RedirParses(d, x, tail);
    case Pipe(l, r) =>
      WrittenParses(l, ")" + ("|" + ("(" + Write(r) + ")" + tail)));
      WrittenParses(r, ")" + tail);
      PipeParses(l, r, tail);
    case List(l, r) =>
      WrittenParses(l, ")" + (";" + ("(" + Write(r) + ")" + tail)));
      WrittenParses(r, ")" + tail);
      ListParses(l, r, tail);
    case Back(d) =>
      WrittenParses(d, ")" + ("&" + tail));
      BackParses(d, tail);
  }

  /** Writing a command tree out and parsing it gives the same tree. */
  lemma RoundTrip(c: Cmd<string>)
    requires Writable(c)
    ensures Command(Write(c)) == Ok(c, "")
  {
    hide Line, Write;
    WrittenParses(c, "");
    assert Write(c) + "" == Write(c);
  }
}
