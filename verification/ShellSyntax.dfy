/**
 What the lines of user/sh.c look like, said without its parser: a concrete syntax, with
 redirections anywhere among the arguments, > and >>, any white space, and parentheses only
 where they are written; and which lines spell it.
 */
module ShellSyntax {
  import opened ShellGrammar

  /** op is <, > or >>. */
  datatype Redirect = Redirect(op: string, file: string)

  /** An argument and the redirections behind it. */
  datatype Arg = Arg(word: string, redirs: seq<Redirect>)

  datatype Part = Bare(first: seq<Redirect>, args: seq<Arg>) | Group(line: Syntax, redirs: seq<Redirect>)

  datatype Piped = Single(part: Part) | Into(part: Part, next: Piped)

  /** A pipeline with some & behind it, and perhaps ; and another line. */
  datatype Syntax = Last(pipe: Piped, backs: nat) | Then(pipe: Piped, backs: nat, next: Syntax)

  // ----- the tree it stands for

  function RedirTrees(xs: seq<Redirect>): (r: seq<Redirection<string>>)
    ensures |r| == |xs| && forall k :: 0 <= k < |r| ==> r[k] == Redirection(xs[k].file, xs[k].op != "<")
  {
    seq(|xs|, k requires 0 <= k < |xs| => Redirection(xs[k].file, xs[k].op != "<"))
  }

  function ArgWords(args: seq<Arg>): (r: seq<string>)
    ensures |r| == |args| && forall k :: 0 <= k < |r| ==> r[k] == args[k].word
  {
    seq(|args|, k requires 0 <= k < |args| => args[k].word)
  }

  /** The redirections among the arguments, in order. */
  function ArgRedirs(args: seq<Arg>): seq<Redirection<string>> {
    if args == [] then [] else RedirTrees(args[0].redirs) + ArgRedirs(args[1..])
  }

  function PartTree(x: Part): Cmd<string> {
    match x
    case Bare(first, args) => Wrap(Exec(ArgWords(args)), RedirTrees(first) + ArgRedirs(args))
    case Group(line, redirs) => Wrap(Tree(line), RedirTrees(redirs))
  }

  function PipeTree(x: Piped): Cmd<string> {
    match x
    case Single(part) => PartTree(part)
    case Into(part, next) => Pipe(PartTree(part), PipeTree(next))
  }

  function InBack<W>(c: Cmd<W>, n: nat): Cmd<W>
    decreases n
  {
    if n == 0 then c else InBack(Back(c), n - 1)
  }

  function Tree(x: Syntax): Cmd<string> {
    match x
    case Last(pipe, backs) => InBack(PipeTree(pipe), backs)
    case Then(pipe, backs, next) => List(InBack(PipeTree(pipe), backs), Tree(next))
  }

  // ----- what is allowed

  predicate ProperRedirs(xs: seq<Redirect>) {
    forall k :: 0 <= k < |xs| ==> (xs[k].op == "<" || xs[k].op == ">" || xs[k].op == ">>") && IsWord(xs[k].file)
  }

  predicate ProperArgs(args: seq<Arg>) {
    forall k :: 0 <= k < |args| ==> IsWord(args[k].word) && ProperRedirs(args[k].redirs)
  }

  predicate ProperPart(x: Part) {
    match x
    case Bare(first, args) => ProperRedirs(first) && ProperArgs(args) && |args| < MAXARGS
    case Group(line, redirs) => Proper(line) && ProperRedirs(redirs)
  }

  predicate ProperPipe(x: Piped) {
    match x
    case Single(part) => ProperPart(part)
    case Into(part, next) => ProperPart(part) && ProperPipe(next)
  }

  predicate Proper(x: Syntax) {
    match x
    case Last(pipe, _) => ProperPipe(pipe)
    case Then(pipe, _, next) => ProperPipe(pipe) && Proper(next)
  }

  // ----- how it is spelled: r is the spelling, and rest behind it

  /** White space, and then rest. */
  predicate Gap(r: string, rest: string) {
    |rest| <= |r| && r[|r| - |rest|..] == rest && forall k :: 0 <= k < |r| - |rest| ==> Ws(r[k])
  }

  /** A word goes on to white space, a symbol or the end; > is not the half of >>. */
  predicate Parted(text: string, tail: string) {
    (IsWord(text) ==> Stops(tail)) && (text == ">" ==> tail == "" || tail[0] != '>')
  }

  /** The text with white space around it. */
  ghost predicate Spells(text: string, r: string, rest: string) {
    exists tail :: Gap(r, text + tail) && Parted(text, tail) && Gap(tail, rest)
  }

  ghost predicate SpelledRedir(x: Redirect, r: string, rest: string) {
    exists m :: Spells(x.op, r, m) && Spells(x.file, m, rest)
  }

  ghost predicate SpelledRedirs(xs: seq<Redirect>, r: string, rest: string)
    decreases |xs|
  {
    if xs == [] then Gap(r, rest) else exists m :: SpelledRedir(xs[0], r, m) && SpelledRedirs(xs[1..], m, rest)
  }

  ghost predicate SpelledArg(x: Arg, r: string, rest: string) {
    exists m :: Spells(x.word, r, m) && SpelledRedirs(x.redirs, m, rest)
  }

  ghost predicate SpelledArgs(args: seq<Arg>, r: string, rest: string)
    decreases |args|
  {
    if args == [] then Gap(r, rest) else exists m :: SpelledArg(args[0], r, m) && SpelledArgs(args[1..], m, rest)
  }

  ghost predicate SpelledPart(x: Part, r: string, rest: string) {
    match x
    case Bare(first, args) => exists m :: SpelledRedirs(first, r, m) && SpelledArgs(args, m, rest)
    case Group(line, redirs) =>
      exists m1, m2, m3 ::
        Spells("(", r, m1) && Spelled(line, m1, m2) && Spells(")", m2, m3) && SpelledRedirs(redirs, m3, rest)
  }

  ghost predicate SpelledPipe(x: Piped, r: string, rest: string) {
    match x
    case Single(part) => SpelledPart(part, r, rest)
    case Into(part, next) =>
      exists m1, m2 :: SpelledPart(part, r, m1) && Spells("|", m1, m2) && SpelledPipe(next, m2, rest)
  }

  ghost predicate SpelledBacks(n: nat, r: string, rest: string) {
    if n == 0 then Gap(r, rest) else exists m :: Spells("&", r, m) && SpelledBacks(n - 1, m, rest)
  }

  ghost predicate Spelled(x: Syntax, r: string, rest: string) {
    match x
    case Last(pipe, backs) => exists m :: SpelledPipe(pipe, r, m) && SpelledBacks(backs, m, rest)
    case Then(pipe, backs, next) =>
      exists m1, m2, m3 ::
        SpelledPipe(pipe, r, m1) && SpelledBacks(backs, m1, m2) && Spells(";", m2, m3) && Spelled(next, m3, rest)
  }

  // ----- what the parser makes of a spelling

  lemma {:induction false} GapSkips(r: string, m: string)
    requires Gap(r, m)
    ensures SkipWs(r) == SkipWs(m)
    decreases |r|
  {
    if |r| > |m| {
      assert r[1..][|r[1..]| - |m|..] == m;
      GapSkips(r[1..], m);
    } else {
      assert r == m;
    }
  }

  predicate Text(text: string) { text in {"<", ">", ">>", "(", ")", "|", "&", ";"} || IsWord(text) }

  function Kind(text: string): char
    requires text != ""
  {
    if text == ">>" then '+' else if IsWord(text) then 'a' else text[0]
  }

  lemma SameToken(r: string, m: string)
    requires SkipWs(r) == SkipWs(m)
    ensures GetToken(r) == GetToken(m) && forall toks :: Peek(r, toks) == Peek(m, toks)
  {
  }

  lemma AppendToken(tail: string)
    ensures SkipWs(">>" + tail) == ">>" + tail && GetToken(">>" + tail) == Token('+', ">>", SkipWs(tail))
  {
    var s := ">>" + tail;
    assert s[..2] == ">>" && s[2..] == tail;
  }

  lemma TextToken(text: string, tail: string)
    requires Text(text) && Parted(text, tail)
    ensures text != "" && SkipWs(text + tail) == text + tail
    ensures GetToken(text + tail) == Token(Kind(text), text, SkipWs(tail))
  {
    if IsWord(text) {
      WordToken(text, tail);
    } else if text == ">>" {
      AppendToken(tail);
    } else {
      SymbolToken(text[0], tail);
      assert text == [text[0]];
    }
  }

  /** The token of a spelling, on the characters of the line. */
  lemma TokenOf(text: string, r: string, rest: string)
    requires Text(text) && Spells(text, r, rest)
    ensures text != "" && GetToken(r) == Token(Kind(text), text, SkipWs(rest)) && |rest| < |r|
    ensures forall toks :: Peek(r, toks) <==> text[0] in toks
  {
    hide GetToken, SkipWs, Text, Parted;
    var tail :| Gap(r, text + tail) && Parted(text, tail) && Gap(tail, rest);
    TextToken(text, tail);
    GapSkips(r, text + tail);
    GapSkips(tail, rest);
    SameToken(r, text + tail);
    assert (text + tail)[0] == text[0];
  }

  /** The end, or one of the characters, past white space. */
  predicate Behind(rest: string, toks: set<char>) { SkipWs(rest) == "" || SkipWs(rest)[0] in toks }

  lemma GapKeeps(r: string, m: string)
    requires Gap(r, m)
    ensures GetToken(r) == GetToken(m) && Redirs(r) == Redirs(m) && forall toks :: Peek(r, toks) == Peek(m, toks)
  {
    GapSkips(r, m);
    SameToken(r, m);
    SameRedirs(r);
    SameRedirs(m);
  }

  lemma OpKind(op: string)
    requires op == "<" || op == ">" || op == ">>"
    ensures Text(op) && (Kind(op) != '<' <==> op != "<") && op[0] in {'<', '>'} && op[0] !in {'('}
  {
    assert !WordChar(op[0]) && !IsWord(op);
  }

  lemma FileText(w: string)
    requires IsWord(w)
    ensures Text(w) && Kind(w) == 'a' && w[0] !in {'<', '>', '(', ')', '|', '&', ';'}
  {
    assert WordChar(w[0]);
    assert w != ">>";
  }

  lemma RedirAt(x: Redirect, r: string, m: string)
    requires SpelledRedir(x, r, m) && ProperRedirs([x])
    ensures Peek(r, {'<', '>'}) && !Peek(r, {'('}) && |m| < |r| && (GetToken(r).kind != '<' <==> x.op != "<")
    ensures GetToken(GetToken(r).rest) == Token('a', x.file, SkipWs(m))
  {
    hide GetToken, Peek, SkipWs, IsWord, Kind, Text, Spells;
    assert [x][0] == x;
    OpKind(x.op);
    FileText(x.file);
    var k :| Spells(x.op, r, k) && Spells(x.file, k, m);
    TokenOf(x.op, r, k);
    TokenOf(x.file, k, m);
    SkipTwice(k);
    SameToken(SkipWs(k), k);
  }

  lemma RedirsCons(r: string, f: string, m: string, rs: seq<Redirection<string>>, t: string)
    requires Peek(r, {'<', '>'}) && GetToken(GetToken(r).rest) == Token('a', f, SkipWs(m)) && Redirs(m) == Ok(rs, t)
    ensures Redirs(r) == Ok([Redirection(f, GetToken(r).kind != '<')] + rs, t)
  {
    SameRedirs(m);
    hide GetToken, Peek, SkipWs;
  }

  lemma TreesCons(xs: seq<Redirect>)
    requires xs != []
    ensures RedirTrees(xs) == [Redirection(xs[0].file, xs[0].op != "<")] + RedirTrees(xs[1..])
  {
  }

  lemma {:induction false} RedirsOf(xs: seq<Redirect>, r: string, rest: string)
    requires SpelledRedirs(xs, r, rest) && ProperRedirs(xs) && !Peek(rest, {'<', '>'})
    ensures Redirs(r) == Ok(RedirTrees(xs), SkipWs(rest)) && |rest| <= |r|
    ensures xs == [] ==> forall toks :: Peek(r, toks) == Peek(rest, toks)
    ensures xs != [] ==> Peek(r, {'<', '>'}) && !Peek(r, {'('})
    decreases |xs|
  {
    hide GetToken, Peek, SkipWs, IsWord, Redirs, RedirTrees, SpelledRedir;
    if xs == [] {
      NoRedirs(r, rest);
    } else {
      var m :| SpelledRedir(xs[0], r, m) && SpelledRedirs(xs[1..], m, rest);
      RedirAt(xs[0], r, m);
      RedirsOf(xs[1..], m, rest);
      RedirsCons(r, xs[0].file, m, RedirTrees(xs[1..]), SkipWs(rest));
      TreesCons(xs);
    }
  }

  lemma NoRedirs(r: string, rest: string)
    requires Gap(r, rest) && !Peek(rest, {'<', '>'})
    ensures Redirs(r) == Ok(RedirTrees([]), SkipWs(rest)) && forall toks :: Peek(r, toks) == Peek(rest, toks)
  {
    GapKeeps(r, rest);
    GapSkips(r, rest);
    assert RedirTrees([]) == [];
    hide Peek, SkipWs;
  }

  // ----- arguments

  lemma ArgAt(x: Arg, r: string, m: string)
    requires SpelledArg(x, r, m) && ProperArgs([x]) && !Peek(m, {'<', '>'})
    ensures GetToken(r).kind == 'a' && GetToken(r).text == x.word && |m| < |r|
    ensures Redirs(GetToken(r).rest) == Ok(RedirTrees(x.redirs), SkipWs(m))
    ensures forall toks :: Peek(r, toks) ==> exists c :: c in toks && c !in {'<', '>', '(', ')', '|', '&', ';'}
  {
    hide GetToken, Peek, SkipWs, IsWord, Kind, Text, Spells, Redirs, RedirTrees, SpelledRedirs;
    assert [x][0] == x;
    FileText(x.word);
    var k :| Spells(x.word, r, k) && SpelledRedirs(x.redirs, k, m);
    TokenOf(x.word, r, k);
    RedirsOf(x.redirs, k, m);
    SameRedirs(k);
    assert x.word[0] !in {'<', '>', '(', ')', '|', '&', ';'};
  }

  lemma ArgsCons(r: string, argc: nat, m: string, w: string, rs: seq<Redirection<string>>,
                 ws: seq<string>, more: seq<Redirection<string>>, t: string)
    requires !Peek(r, {'|', ')', '&', ';'}) && GetToken(r).kind == 'a' && GetToken(r).text == w && argc + 1 < MAXARGS
    requires Redirs(GetToken(r).rest) == Ok(rs, SkipWs(m)) && Args(m, argc + 1) == Ok((ws, more), t)
    ensures Args(r, argc) == Ok(([w] + ws, rs + more), t)
  {
    SameArgs(m, argc + 1);
    hide GetToken, Peek, SkipWs, Redirs;
  }

  lemma ArgTreesCons(args: seq<Arg>)
    requires args != []
    ensures ArgWords(args) == [args[0].word] + ArgWords(args[1..])
    ensures ArgRedirs(args) == RedirTrees(args[0].redirs) + ArgRedirs(args[1..])
  {
  }

  lemma NoArgTrees()
    ensures ArgWords([]) == [] && ArgRedirs([]) == []
  {
  }

  /** The end of the arguments of a command. */
  predicate Stop(rest: string) { Behind(rest, {'|', ')', '&', ';'}) }

  predicate StopPipe(rest: string) { Behind(rest, {')', '&', ';'}) }

  predicate StopBacks(rest: string) { Behind(rest, {')', ';'}) }

  predicate StopLine(rest: string) { Behind(rest, {')'}) }

  lemma StopsNest(rest: string)
    ensures StopLine(rest) ==> StopBacks(rest)
    ensures StopBacks(rest) ==> StopPipe(rest) && !Peek(rest, {'&'})
    ensures StopPipe(rest) ==> Stop(rest) && !Peek(rest, {'|'})
    ensures StopLine(rest) ==> !Peek(rest, {';'})
    ensures Peek(rest, {'|'}) ==> Stop(rest)
    ensures Peek(rest, {'&'}) ==> StopPipe(rest)
    ensures Peek(rest, {';'}) ==> StopBacks(rest)
    ensures Peek(rest, {')'}) ==> StopLine(rest)
  {
  }

  lemma StopHere(r: string)
    requires Stop(r)
    ensures Peek(r, {'|', ')', '&', ';'}) || GetToken(r) == Token(NUL, "", "")
    ensures !Peek(r, {'<', '>'}) && !Peek(r, {'('})
    ensures !Peek(r, {'|', ')', '&', ';'}) ==> SkipWs(r) == ""
  {
  }

  lemma ArgsEnd(r: string, argc: nat)
    requires Peek(r, {'|', ')', '&', ';'}) || (GetToken(r) == Token(NUL, "", "") && SkipWs(r) == "")
    ensures Args(r, argc) == Ok(([], []), SkipWs(r))
  {
    hide GetToken, Peek, SkipWs, Redirs;
  }

  lemma NoArgs(r: string, argc: nat, rest: string)
    requires Gap(r, rest) && Stop(rest)
    ensures Args(r, argc) == Ok((ArgWords([]), ArgRedirs([])), SkipWs(rest)) && |rest| <= |r|
    ensures !Peek(r, {'<', '>'}) && !Peek(r, {'('})
  {
    hide GetToken, Peek, SkipWs, Redirs, Args;
    GapKeeps(r, rest);
    GapSkips(r, rest);
    StopHere(rest);
    ArgsEnd(rest, argc);
    SameArgs(r, argc);
    SameArgs(rest, argc);
    assert ArgWords([]) == [] && ArgRedirs([]) == [];
  }

  lemma {:induction false} ArgsOf(args: seq<Arg>, r: string, argc: nat, rest: string)
    requires SpelledArgs(args, r, rest) && ProperArgs(args) && argc + |args| < MAXARGS && Stop(rest)
    ensures Args(r, argc) == Ok((ArgWords(args), ArgRedirs(args)), SkipWs(rest)) && |rest| <= |r|
    ensures !Peek(r, {'<', '>'}) && !Peek(r, {'('})
    decreases |args|
  {
    hide GetToken, Peek, SkipWs, IsWord, Args, Redirs, RedirTrees, ArgWords, ArgRedirs, SpelledArg, Stop, Gap;
    if args == [] {
      NoArgs(r, argc, rest);
    } else {
      var m :| SpelledArg(args[0], r, m) && SpelledArgs(args[1..], m, rest);
      ArgsOf(args[1..], m, argc + 1, rest);
      ArgAt(args[0], r, m);
      ArgsCons(r, argc, m, args[0].word, RedirTrees(args[0].redirs), ArgWords(args[1..]), ArgRedirs(args[1..]),
        SkipWs(rest));
      ArgTreesCons(args);
    }
  }

  // ----- parts, pipelines and lines

  lemma SimpleCons(r: string, m: string, rs: seq<Redirection<string>>, ws: seq<string>,
                   more: seq<Redirection<string>>, t: string)
    requires !Peek(r, {'('}) && Redirs(r) == Ok(rs, SkipWs(m)) && Args(m, 0) == Ok((ws, more), t)
    ensures Executable(r) == Ok(Wrap(Exec(ws), rs + more), t)
  {
    SameArgs(m, 0);
    hide GetToken, Peek, SkipWs, Redirs, Args;
  }

  lemma BlockCons(r: string, m1: string, m2: string, m3: string, c: Cmd<string>,
                  rs: seq<Redirection<string>>, t: string)
    requires Peek(r, {'('}) && GetToken(r).rest == SkipWs(m1) && Line(m1) == Ok(c, SkipWs(m2))
    requires Peek(m2, {')'}) && GetToken(m2).rest == SkipWs(m3) && Redirs(m3) == Ok(rs, t)
    ensures Executable(r) == Ok(Wrap(c, rs), t)
  {
    SameLine(m1);
    SameRedirs(m3);
    SkipTwice(m2);
    SameToken(SkipWs(m2), m2);
    hide GetToken, Peek, SkipWs, Redirs, Line;
  }

  lemma SimpleOf(first: seq<Redirect>, args: seq<Arg>, r: string, rest: string)
    requires SpelledPart(Bare(first, args), r, rest) && ProperPart(Bare(first, args)) && Stop(rest)
    ensures Executable(r) == Ok(PartTree(Bare(first, args)), SkipWs(rest)) && |rest| <= |r|
  {
    hide GetToken, Peek, SkipWs, Redirs, Args, Executable, Wrap, Stop, SpelledRedirs, SpelledArgs, IsWord;
    hide RedirTrees, ArgWords, ArgRedirs;
    var m :| SpelledRedirs(first, r, m) && SpelledArgs(args, m, rest);
    ArgsOf(args, m, 0, rest);
    RedirsOf(first, r, m);
    SimpleCons(r, m, RedirTrees(first), ArgWords(args), ArgRedirs(args), SkipWs(rest));
  }

  lemma SymbolOf(text: string, r: string, rest: string)
    requires text in {"(", ")", "|", "&", ";"} && Spells(text, r, rest)
    ensures GetToken(r).rest == SkipWs(rest) && |rest| < |r| && forall toks :: Peek(r, toks) <==> text[0] in toks
  {
    TokenOf(text, r, rest);
    hide GetToken, Peek, SkipWs, Spells;
  }

  lemma {:induction false} PartOf(x: Part, r: string, rest: string)
    requires SpelledPart(x, r, rest) && ProperPart(x) && Stop(rest)
    ensures Executable(r) == Ok(PartTree(x), SkipWs(rest)) && |rest| <= |r|
    decreases x
  {
    hide GetToken, Peek, SkipWs, Redirs, Args, Executable, Wrap, Stop, Line, SpelledRedirs, SpelledArgs, IsWord, Spells;
    hide RedirTrees, ArgWords, ArgRedirs, Spelled, Proper, StopLine, StopBacks, StopPipe, ProperRedirs, ProperArgs;
    match x
    case Bare(first, args) => SimpleOf(first, args, r, rest);
    case Group(line, redirs) =>
      var m1, m2, m3 :|
        Spells("(", r, m1) && Spelled(line, m1, m2) && Spells(")", m2, m3) && SpelledRedirs(redirs, m3, rest);
      SymbolOf("(", r, m1);
      SymbolOf(")", m2, m3);
      StopsNest(m2);
      LineOf(line, m1, m2);
      StopHere(rest);
      RedirsOf(redirs, m3, rest);
      BlockCons(r, m1, m2, m3, Tree(line), RedirTrees(redirs), SkipWs(rest));
  }

  lemma SingleCons(r: string, c: Cmd<string>, rest: string)
    requires Executable(r) == Ok(c, SkipWs(rest)) && !Peek(rest, {'|'})
    ensures Pipeline(r) == Ok(c, SkipWs(rest))
  {
    SkipTwice(rest);
    SameToken(SkipWs(rest), rest);
    hide GetToken, Peek, SkipWs, Executable;
  }

  lemma IntoCons(r: string, c: Cmd<string>, m1: string, m2: string, d: Cmd<string>, t: string)
    requires Executable(r) == Ok(c, SkipWs(m1)) && Peek(m1, {'|'}) && GetToken(m1).rest == SkipWs(m2)
    requires Pipeline(m2) == Ok(d, t)
    ensures Pipeline(r) == Ok(Pipe(c, d), t)
  {
    SkipTwice(m1);
    SameToken(SkipWs(m1), m1);
    SamePipeline(m2);
    hide GetToken, Peek, SkipWs, Executable;
  }

  lemma {:induction false} PipeOf(x: Piped, r: string, rest: string)
    requires SpelledPipe(x, r, rest) && ProperPipe(x) && StopPipe(rest)
    ensures Pipeline(r) == Ok(PipeTree(x), SkipWs(rest)) && |rest| <= |r|
    decreases x
  {
    hide GetToken, Peek, SkipWs, Executable, Pipeline, Stop, StopLine, StopBacks, StopPipe, SpelledPart, ProperPart;
    hide PartTree, Spells;
    StopsNest(rest);
    match x
    case Single(part) =>
      PartOf(part, r, rest);
      SingleCons(r, PartTree(part), rest);
    case Into(part, next) =>
      var m1, m2 :| SpelledPart(part, r, m1) && Spells("|", m1, m2) && SpelledPipe(next, m2, rest);
      SymbolOf("|", m1, m2);
      StopsNest(m1);
      PartOf(part, r, m1);
      PipeOf(next, m2, rest);
      IntoCons(r, PartTree(part), m1, m2, PipeTree(next), SkipWs(rest));
  }

  lemma BacksEnd<W>(c: Cmd<W>, r: string, rest: string)
    requires Gap(r, rest) && !Peek(rest, {'&'})
    ensures Backs(c, r) == Ok(c, SkipWs(rest)) && forall toks :: Peek(r, toks) == Peek(rest, toks)
    ensures SkipWs(r) == SkipWs(rest)
  {
    GapKeeps(r, rest);
    GapSkips(r, rest);
    hide GetToken, Peek, SkipWs;
  }

  lemma BacksCons<W>(c: Cmd<W>, r: string, m: string)
    requires Peek(r, {'&'}) && GetToken(r).rest == SkipWs(m)
    ensures Backs(c, r) == Backs(Back(c), m)
  {
    SkipTwice(m);
    SameToken(SkipWs(m), m);
    hide GetToken, Peek, SkipWs;
  }

  lemma {:induction false} BacksOf<W>(n: nat, c: Cmd<W>, r: string, rest: string)
    requires SpelledBacks(n, r, rest) && StopBacks(rest)
    ensures Backs(c, r) == Ok(InBack(c, n), SkipWs(rest)) && |rest| <= |r| && StopPipe(r)
    decreases n
  {
    hide GetToken, Peek, SkipWs, Backs, StopBacks, StopPipe, StopLine, Spells;
    StopsNest(rest);
    if n == 0 {
      BacksEnd(c, r, rest);
      StopsSame(r, rest);
    } else {
      var m :| Spells("&", r, m) && SpelledBacks(n - 1, m, rest);
      SymbolOf("&", r, m);
      BacksOf(n - 1, Back(c), m, rest);
      BacksCons(c, r, m);
      StopsNest(r);
    }
  }

  lemma StopsSame(r: string, rest: string)
    requires SkipWs(r) == SkipWs(rest)
    ensures StopPipe(r) == StopPipe(rest)
  {
  }

  lemma SameBacks<W>(c: Cmd<W>, r: string)
    ensures Backs(c, SkipWs(r)) == Backs(c, r)
  {
    SkipTwice(r);
    SameToken(SkipWs(r), r);
    hide GetToken, Peek, SkipWs;
  }

  lemma LastCons(r: string, m: string, c: Cmd<string>, d: Cmd<string>, rest: string)
    requires Pipeline(r) == Ok(c, SkipWs(m)) && Backs(c, m) == Ok(d, SkipWs(rest)) && !Peek(rest, {';'})
    ensures Line(r) == Ok(d, SkipWs(rest))
  {
    SameBacks(c, m);
    SkipTwice(rest);
    SameToken(SkipWs(rest), rest);
    hide GetToken, Peek, SkipWs, Pipeline, Backs;
  }

  lemma ThenCons(r: string, m1: string, m2: string, m3: string, c: Cmd<string>, d: Cmd<string>,
                 e: Cmd<string>, t: string)
    requires Pipeline(r) == Ok(c, SkipWs(m1)) && Backs(c, m1) == Ok(d, SkipWs(m2))
    requires Peek(m2, {';'}) && GetToken(m2).rest == SkipWs(m3) && Line(m3) == Ok(e, t)
    ensures Line(r) == Ok(List(d, e), t)
  {
    SameBacks(c, m1);
    SkipTwice(m2);
    SameToken(SkipWs(m2), m2);
    SameLine(m3);
    hide GetToken, Peek, SkipWs, Pipeline, Backs;
  }

  /** A spelled line parses as the tree it stands for. */
  lemma {:induction false} LineOf(x: Syntax, r: string, rest: string)
    requires Spelled(x, r, rest) && Proper(x) && StopLine(rest)
    ensures Line(r) == Ok(Tree(x), SkipWs(rest)) && |rest| <= |r|
    decreases x
  {
    hide GetToken, Peek, SkipWs, Pipeline, Backs, Line, StopBacks, StopPipe, StopLine, SpelledPipe, ProperPipe, Spells;
    hide SpelledBacks, PipeTree, InBack;
    StopsNest(rest);
    match x
    case Last(pipe, backs) =>
      var m :| SpelledPipe(pipe, r, m) && SpelledBacks(backs, m, rest);
      BacksOf(backs, PipeTree(pipe), m, rest);
      PipeOf(pipe, r, m);
      LastCons(r, m, PipeTree(pipe), InBack(PipeTree(pipe), backs), rest);
    case Then(pipe, backs, next) =>
      var m1, m2, m3 :|
        SpelledPipe(pipe, r, m1) && SpelledBacks(backs, m1, m2) && Spells(";", m2, m3) && Spelled(next, m3, rest);
      SymbolOf(";", m2, m3);
      StopsNest(m2);
      BacksOf(backs, PipeTree(pipe), m1, m2);
      PipeOf(pipe, r, m1);
      LineOf(next, m3, rest);
      ThenCons(r, m1, m2, m3, PipeTree(pipe), InBack(PipeTree(pipe), backs), Tree(next), SkipWs(rest));
  }

  lemma CommandOf(x: Syntax, line: string)
    requires Spelled(x, line, "") && Proper(x)
    ensures Command(line) == Ok(Tree(x), "")
  {
    LineOf(x, line, "");
    hide Line, Spelled, Tree;
  }

  // ----- and back: every line that parses spells some syntax

  lemma {:induction false} SkipAt(r: string) returns (n: nat)
    ensures n <= |r| && SkipWs(r) == r[n..] && forall k :: 0 <= k < n ==> Ws(r[k])
  {
    if r != "" && Ws(r[0]) {
      var m := SkipAt(r[1..]);
      n := m + 1;
      assert r[1..][m..] == r[n..] && forall k :: 0 < k < n ==> r[k] == r[1..][k - 1];
    } else {
      n := 0;
      assert r[0..] == r;
    }
  }

  lemma SkipGap(r: string)
    ensures Gap(r, SkipWs(r)) && SkipWs(SkipWs(r)) == SkipWs(r) && (Clean(r) ==> Clean(SkipWs(r)))
  {
    var n := SkipAt(r);
    SkipTwice(r);
    hide SkipWs;
  }

  lemma {:induction false} WordThere(s: string)
    requires Clean(s)
    ensures var n := WordLen(s);
            (forall i :: 0 <= i < n ==> WordChar(s[i])) && Stops(s[n..])
  {
    if s != "" && !Ws(s[0]) && !Sym(s[0]) {
      WordThere(s[1..]);
      assert s[1..][WordLen(s[1..])..] == s[WordLen(s)..];
      assert forall i :: 0 < i < WordLen(s) ==> s[i] == s[1..][i - 1];
    }
  }

  lemma SpellsHere(text: string, tail: string, r: string)
    requires SkipWs(r) == text + tail && Parted(text, tail)
    ensures Spells(text, r, SkipWs(tail))
  {
    SkipGap(r);
    SkipGap(tail);
    hide SkipWs, Parted;
  }

  /** The token at the beginning of s and what is behind it. */
  ghost predicate Begins(s: string, t: Token) {
    && t.text != "" && Text(t.text) && Kind(t.text) == t.kind && (t.kind == 'a' ==> IsWord(t.text))
    && |t.text| <= |s| && s == t.text + s[|t.text|..] && Parted(t.text, s[|t.text|..])
    && t.rest == SkipWs(s[|t.text|..])
  }

  lemma OneSymbol(c: char)
    requires Sym(c)
    ensures [c] in {"<", ">", "(", ")", "|", "&", ";"}
  {
    assert "<" == ['<'] && ">" == ['>'] && "(" == ['('] && ")" == [')'] && "|" == ['|'] && "&" == ['&'] && ";" == [';'];
  }

  lemma SymbolThere(s: string)
    requires s != "" && Sym(s[0])
    ensures Begins(s, GetToken(s))
  {
    hide IsWord;
    assert SkipWs(s) == s;
    NoWord(s[..1]);
    if s[0] == '>' && |s| > 1 && s[1] == '>' {
      assert s[..2] == ">>";
      NoWord(">>");
    } else {
      OneSymbol(s[0]);
      assert s[..1] == [s[0]];
    }
  }

  lemma NoWord(w: string)
    requires w != "" && Sym(w[0])
    ensures !IsWord(w)
  {
    assert !WordChar(w[0]);
  }

  lemma WordBegins(s: string)
    requires s != "" && !Sym(s[0]) && !Ws(s[0]) && Clean(s)
    ensures Begins(s, GetToken(s))
  {
    WordThere(s);
    var w := s[..WordLen(s)];
    assert WordLen(s) > 0 && IsWord(w);
    FileText(w);
    assert SkipWs(s) == s;
    hide WordLen, IsWord;
    assert w != ">";
  }

  lemma TokenSpelt(r: string)
    requires Clean(r) && GetToken(r).kind != NUL
    ensures var t := GetToken(r);
            && Text(t.text) && t.text != "" && Kind(t.text) == t.kind && Spells(t.text, r, t.rest)
            && Clean(t.rest) && SkipWs(t.rest) == t.rest && |t.rest| < |r|
    ensures GetToken(r).kind == 'a' ==> IsWord(GetToken(r).text)
  {
    var s := SkipWs(r);
    SkipGap(r);
    SameToken(r, s);
    assert s != "" && !Ws(s[0]);
    if Sym(s[0]) { SymbolThere(s); } else { WordBegins(s); }
    hide GetToken, SkipWs, Text, Kind, Parted, IsWord;
    var t := GetToken(s);
    var tail := s[|t.text|..];
    SkipGap(tail);
    assert Clean(tail);
    SpellsHere(t.text, tail, r);
  }

  lemma {:induction false} RedirsSpelt(r: string) returns (xs: seq<Redirect>)
    requires Clean(r) && Redirs(r).Ok?
    ensures var x := Redirs(r);
            && ProperRedirs(xs) && RedirTrees(xs) == x.value && SpelledRedirs(xs, r, x.rest)
            && Clean(x.rest) && SkipWs(x.rest) == x.rest
    decreases |r|
  {
    hide GetToken, Peek, SkipWs, Text, Kind, IsWord, Spells, RedirTrees;
    if !Peek(r, {'<', '>'}) {
      xs := [];
      SkipGap(r);
      assert RedirTrees([]) == [];
    } else {
      PeekToken(r, {'<', '>'});
      var op := GetToken(r);
      TokenSpelt(r);
      var file := GetToken(op.rest);
      TokenSpelt(op.rest);
      xs := RedirsSpelt(file.rest);
      var x := Redirect(op.text, file.text);
      assert SpelledRedir(x, r, file.rest);
      OpText(op);
      var rest := Redirs(r).rest;
      xs := [x] + xs;
      assert xs[1..] + [] == xs[1..];
      TreesCons(xs);
    }
  }

  lemma PeekToken(r: string, toks: set<char>)
    requires Peek(r, toks) && Clean(r) && forall c :: c in toks ==> Sym(c)
    ensures GetToken(r).kind != NUL && GetToken(r).text != "" && GetToken(r).text[0] in toks
  {
    SkipGap(r);
  }

  lemma OpText(op: Token)
    requires Text(op.text) && op.text != "" && op.text[0] in {'<', '>'} && Kind(op.text) == op.kind
    ensures op.text == "<" || op.text == ">" || op.text == ">>"
    ensures op.kind != '<' <==> op.text != "<"
  {
    NoWord(op.text);
    OpKind(op.text);
  }

  lemma NothingLeft(r: string)
    requires Clean(r) && GetToken(r).kind == NUL
    ensures SkipWs(r) == "" && GetToken(r).rest == ""
  {
    SkipGap(r);
  }

  lemma {:induction false} ArgsSpelt(r: string, argc: nat) returns (args: seq<Arg>)
    requires Clean(r) && argc < MAXARGS && Args(r, argc).Ok?
    ensures var x := Args(r, argc);
            && ProperArgs(args) && argc + |args| < MAXARGS && x.value == (ArgWords(args), ArgRedirs(args))
            && SpelledArgs(args, r, x.rest) && Clean(x.rest) && SkipWs(x.rest) == x.rest
    decreases |r|
  {
    hide GetToken, Peek, SkipWs, Text, Kind, IsWord, Spells, RedirTrees, ArgWords, ArgRedirs, Redirs, Gap;
    hide SpelledRedirs;
    NoArgTrees();
    SkipGap(r);
    if Peek(r, {'|', ')', '&', ';'}) {
      args := [];
    } else if GetToken(r).kind == NUL {
      args := [];
      NothingLeft(r);
    } else {
      TokenSpelt(r);
      var t := GetToken(r);
      var xs := RedirsSpelt(t.rest);
      var m := Redirs(t.rest).rest;
      args := ArgsSpelt(m, argc + 1);
      var x := Arg(t.text, xs);
      assert SpelledArg(x, r, m);
      args := [x] + args;
      assert args[1..] + [] == args[1..];
      ArgTreesCons(args);
    }
  }

  lemma SimpleSpelt(r: string) returns (x: Part)
    requires Clean(r) && !Peek(r, {'('}) && Executable(r).Ok?
    ensures var y := Executable(r);
            && ProperPart(x) && PartTree(x) == y.value && SpelledPart(x, r, y.rest)
            && Clean(y.rest) && SkipWs(y.rest) == y.rest
  {
    hide Peek, SkipWs, Redirs, Args, RedirTrees, ArgWords, ArgRedirs, SpelledRedirs, SpelledArgs;
    hide ProperArgs, ProperRedirs;
    var first := RedirsSpelt(r);
    var m := Redirs(r).rest;
    var args := ArgsSpelt(m, 0);
    x := Bare(first, args);
  }

  lemma SymbolSpelt(text: string, r: string)
    requires text in {"(", ")", "|", "&", ";"} && Clean(r) && Peek(r, {text[0]})
    ensures Spells(text, r, GetToken(r).rest) && Clean(GetToken(r).rest) && |GetToken(r).rest| < |r|
  {
    PeekToken(r, {text[0]});
    TokenSpelt(r);
    var t := GetToken(r);
    NoWord(t.text);
    hide GetToken, Peek, SkipWs, Spells;
  }

  lemma {:induction false} PartSpelt(r: string) returns (x: Part)
    requires Clean(r) && Executable(r).Ok?
    ensures var y := Executable(r);
            && ProperPart(x) && PartTree(x) == y.value && SpelledPart(x, r, y.rest)
            && Clean(y.rest) && SkipWs(y.rest) == y.rest
    decreases |r|, 0
  {
    hide GetToken, Peek, SkipWs, Redirs, Simple, Line, RedirTrees, SpelledRedirs, SpelledArgs, ProperArgs, ProperRedirs;
    hide Spelled, Proper, Tree, Spells;
    if !Peek(r, {'('}) {
      x := SimpleSpelt(r);
    } else {
      SymbolSpelt("(", r);
      var m1 := GetToken(r).rest;
      var line := LineSpelt(m1);
      var m2 := Line(m1).rest;
      SymbolSpelt(")", m2);
      var m3 := GetToken(m2).rest;
      var redirs := RedirsSpelt(m3);
      x := Group(line, redirs);
    }
  }

  lemma {:induction false} PipeSpelt(r: string) returns (x: Piped)
    requires Clean(r) && Pipeline(r).Ok?
    ensures var y := Pipeline(r);
            && ProperPipe(x) && PipeTree(x) == y.value && SpelledPipe(x, r, y.rest)
            && Clean(y.rest) && SkipWs(y.rest) == y.rest
    decreases |r|, 1
  {
    hide GetToken, Peek, SkipWs, Executable, Spells, SpelledPart, ProperPart, PartTree;
    var part := PartSpelt(r);
    var m1 := Executable(r).rest;
    if !Peek(m1, {'|'}) {
      x := Single(part);
    } else {
      SymbolSpelt("|", m1);
      var next := PipeSpelt(GetToken(m1).rest);
      x := Into(part, next);
    }
  }

  lemma {:induction false} BacksSpelt<W>(c: Cmd<W>, r: string) returns (n: nat)
    requires Clean(r)
    ensures var y := Backs(c, r);
            y.value == InBack(c, n) && SpelledBacks(n, r, y.rest) && Clean(y.rest) && SkipWs(y.rest) == y.rest
    decreases |r|
  {
    hide GetToken, Peek, SkipWs, Spells, Gap;
    if Peek(r, {'&'}) {
      SymbolSpelt("&", r);
      n := BacksSpelt(Back(c), GetToken(r).rest);
      n := n + 1;
    } else {
      n := 0;
      SkipGap(r);
    }
  }

  /** A line that parses spells a syntax for its tree. */
  lemma {:induction false} LineSpelt(r: string) returns (x: Syntax)
    requires Clean(r) && Line(r).Ok?
    ensures var y := Line(r);
            && Proper(x) && Tree(x) == y.value && Spelled(x, r, y.rest)
            && Clean(y.rest) && SkipWs(y.rest) == y.rest
    decreases |r|, 2
  {
    hide GetToken, Peek, SkipWs, Pipeline, Backs, Spells, SpelledPipe, SpelledBacks, ProperPipe, PipeTree, InBack;
    var pipe := PipeSpelt(r);
    var c, m1 := Pipeline(r).value, Pipeline(r).rest;
    var n := BacksSpelt(c, m1);
    var m2 := Backs(c, m1).rest;
    if !Peek(m2, {';'}) {
      x := Last(pipe, n);
    } else {
      SymbolSpelt(";", m2);
      var next := LineSpelt(GetToken(m2).rest);
      x := Then(pipe, n, next);
    }
  }

  /** The parser accepts just the lines that spell some syntax, and gives its tree. */
  lemma Exact(line: string, c: Cmd<string>)
    requires Clean(line)
    ensures Command(line) == Ok(c, "") <==> exists x :: Proper(x) && Tree(x) == c && Spelled(x, line, "")
  {
    hide Line, Spelled, Proper, Tree;
    if Command(line) == Ok(c, "") {
      var x := LineSpelt(line);
    }
    if x :| Proper(x) && Tree(x) == c && Spelled(x, line, "") {
      CommandOf(x, line);
    }
  }

  // ----- and what it says of other lines

  /** No word begins here. */
  predicate NoFile(r: string) { SkipWs(r) == "" || Sym(SkipWs(r)[0]) }

  lemma NoFileToken(op: string, r: string, k: string)
    requires (op == "<" || op == ">" || op == ">>") && Spells(op, r, k) && NoFile(k)
    ensures Redirs(r) == Err(MISSINGFILE) && !Peek(r, {'('}) && !Peek(r, {'|', ')', '&', ';'})
  {
    hide GetToken, Peek, SkipWs, Text, Kind, Spells;
    OpKind(op);
    TokenOf(op, r, k);
    SkipTwice(k);
    SameToken(SkipWs(k), k);
    NoFileKind(k);
  }

  lemma NoFileKind(k: string)
    requires NoFile(k)
    ensures GetToken(k).kind != 'a'
  {
    SkipTwice(k);
    SameToken(SkipWs(k), k);
    if SkipWs(k) != "" { SymbolKind(SkipWs(k)); }
  }

  lemma SymbolKind(s: string)
    requires s != "" && Sym(s[0])
    ensures GetToken(s).kind != 'a'
  {
    assert SkipWs(s) == s;
  }

  lemma {:induction false} RedirsFail(xs: seq<Redirect>, r: string, m: string, e: string)
    requires SpelledRedirs(xs, r, m) && ProperRedirs(xs) && Redirs(m) == Err(e) && !Peek(m, {'('})
    ensures Redirs(r) == Err(e) && !Peek(r, {'('})
    decreases |xs|
  {
    hide GetToken, Peek, SkipWs, IsWord, SpelledRedir;
    if xs == [] {
      GapKeeps(r, m);
    } else {
      var k :| SpelledRedir(xs[0], r, k) && SpelledRedirs(xs[1..], k, m);
      RedirAt(xs[0], r, k);
      RedirsFail(xs[1..], k, m, e);
      SameRedirs(k);
    }
  }

  lemma {:induction false} ArgsFail(args: seq<Arg>, r: string, argc: nat, m: string, e: string)
    requires SpelledArgs(args, r, m) && ProperArgs(args) && argc + |args| < MAXARGS
    requires Args(m, argc + |args|) == Err(e) && !Peek(m, {'<', '>'}) && !Peek(m, {'('})
    ensures Args(r, argc) == Err(e) && !Peek(r, {'<', '>'}) && !Peek(r, {'('})
    decreases |args|
  {
    hide GetToken, Peek, SkipWs, IsWord, Redirs, RedirTrees, SpelledArg;
    if args == [] {
      GapKeeps(r, m);
      GapSkips(r, m);
      SameArgs(r, argc);
      SameArgs(m, argc);
    } else {
      var k :| SpelledArg(args[0], r, k) && SpelledArgs(args[1..], k, m);
      ArgsFail(args[1..], k, argc + 1, m, e);
      ArgAt(args[0], r, k);
      SameArgs(k, argc + 1);
    }
  }

  lemma PartFails(r: string, e: string)
    requires Executable(r) == Err(e)
    ensures Command(r) == Err(e)
  {
    hide Executable;
    assert Pipeline(r) == Err(e);
    hide Pipeline;
    assert Line(r) == Err(e);
    hide Line;
  }

  lemma ArgsFailed(r: string, e: string)
    requires Args(r, 0) == Err(e) && !Peek(r, {'<', '>'}) && !Peek(r, {'('})
    ensures Command(r) == Err(e)
  {
    SameArgs(r, 0);
    hide Args, GetToken, Peek;
    PartFails(r, e);
  }

  /** Redirections, and then one without a file. */
  lemma MissingFile(xs: seq<Redirect>, op: string, line: string, m: string, k: string)
    requires SpelledRedirs(xs, line, m) && ProperRedirs(xs)
    requires (op == "<" || op == ">" || op == ">>") && Spells(op, m, k) && NoFile(k)
    ensures Command(line) == Err(MISSINGFILE)
  {
    hide Redirs, Peek, GetToken, Spells, SpelledRedirs, ProperRedirs, NoFile;
    NoFileToken(op, m, k);
    RedirsFail(xs, line, m, MISSINGFILE);
    PartFails(line, MISSINGFILE);
  }

  /** Arguments, and a redirection without a file behind the last. */
  lemma MissingFileLater(args: seq<Arg>, w: string, xs: seq<Redirect>, op: string,
                         line: string, m1: string, m2: string, m3: string, k: string)
    requires SpelledArgs(args, line, m1) && ProperArgs(args) && |args| + 1 < MAXARGS
    requires IsWord(w) && Spells(w, m1, m2) && SpelledRedirs(xs, m2, m3) && ProperRedirs(xs)
    requires (op == "<" || op == ">" || op == ">>") && Spells(op, m3, k) && NoFile(k)
    ensures Command(line) == Err(MISSINGFILE)
  {
    hide Redirs, Peek, GetToken, Spells, SpelledRedirs, ProperRedirs, NoFile, SpelledArgs, ProperArgs, IsWord;
    hide SkipWs, Text, Kind;
    NoFileToken(op, m3, k);
    RedirsFail(xs, m2, m3, MISSINGFILE);
    FileText(w);
    TokenOf(w, m1, m2);
    SameRedirs(m2);
    ArgsFail(args, line, 0, m1, MISSINGFILE);
    ArgsFailed(line, MISSINGFILE);
  }

  /** An argument more than MAXARGS - 1. */
  lemma TooMany(args: seq<Arg>, w: string, line: string, m: string, k: string)
    requires SpelledArgs(args, line, m) && ProperArgs(args) && |args| + 1 == MAXARGS && IsWord(w) && Spells(w, m, k)
    ensures Command(line) == Err(TOOMANYARGS)
  {
    hide Redirs, Peek, GetToken, Spells, SpelledArgs, ProperArgs, IsWord, SkipWs, Text, Kind;
    FileText(w);
    TokenOf(w, m, k);
    ArgsFail(args, line, 0, m, TOOMANYARGS);
    ArgsFailed(line, TOOMANYARGS);
  }

  /** A parenthesis among the arguments. */
  lemma StrayParen(args: seq<Arg>, w: string, line: string, m1: string, m2: string, k: string)
    requires SpelledArgs(args, line, m1) && ProperArgs(args) && |args| + 1 < MAXARGS
    requires IsWord(w) && Spells(w, m1, m2) && Spells("(", m2, k)
    ensures Command(line) == Err(SYNTAX)
  {
    hide Peek, GetToken, Spells, SpelledArgs, ProperArgs, IsWord, SkipWs, Text, Kind;
    FileText(w);
    TokenOf(w, m1, m2);
    SymbolOf("(", m2, k);
    ParenKind(m2, k);
    SameRedirs(m2);
    SkipTwice(m2);
    SameArgs(m2, |args| + 1);
    assert Redirs(m2) == Ok([], SkipWs(m2));
    hide Redirs;
    assert Args(m2, |args| + 1) == Err(SYNTAX);
    ArgsFail(args, line, 0, m1, SYNTAX);
    ArgsFailed(line, SYNTAX);
  }

  lemma ParenKind(r: string, k: string)
    requires Spells("(", r, k)
    ensures GetToken(r).kind == '('
  {
    NoWord("(");
    TokenOf("(", r, k);
  }

  /** A line in parentheses that do not close. */
  lemma Unclosed(x: Syntax, line: string, m: string)
    requires Spells("(", line, m) && Spelled(x, m, "") && Proper(x)
    ensures Command(line) == Err(MISSINGPAREN)
  {
    hide GetToken, SkipWs, Spells, Spelled, Proper, Line, Tree;
    SymbolOf("(", line, m);
    assert SkipWs("") == "" by { NothingHere(); }
    LineOf(x, m, "");
    SameLine(m);
    assert !Peek("", {')'}) by { NothingHere(); }
    hide Peek;
    PartFails(line, MISSINGPAREN);
  }

  lemma NothingHere()
    ensures SkipWs("") == "" && StopLine("") && !Peek("", {')'}) && !Peek("", {'<', '>'})
  {
  }

  /** A line, and a parenthesis behind it that was not opened. */
  lemma Leftover(x: Syntax, line: string, m: string, k: string)
    requires Spelled(x, line, m) && Proper(x) && Spells(")", m, k)
    ensures Command(line) == Err(SYNTAX)
  {
    SymbolOf(")", m, k);
    StopsNest(m);
    LineOf(x, line, m);
    SkipTwice(m);
    hide Line, Spelled, Proper, Tree, Spells, GetToken;
    assert SkipWs(m) != "";
  }

  // ----- a written command and one redirection

  lemma GapSelf(r: string)
    ensures Gap(r, r)
  {
    assert r[0..] == r;
  }

  lemma SpellsSelf(text: string, tail: string)
    requires Parted(text, tail)
    ensures Spells(text, text + tail, tail)
  {
    GapSelf(text + tail);
    GapSelf(tail);
    hide Gap, Parted;
  }

  lemma OpParted(op: string, file: string)
    requires (op == ">" || op == ">>" || op == "<") && IsWord(file)
    ensures Parted(op, file) && Parted(file, "")
  {
    assert WordChar(file[0]);
    NoWord(op);
  }

  /** One redirection and its file. */
  lemma RedirSpelled(op: string, file: string)
    requires (op == ">" || op == ">>" || op == "<") && IsWord(file)
    ensures SpelledRedirs([Redirect(op, file)], op + file, "")
  {
    hide IsWord, Parted, Spells, Gap;
    var x := Redirect(op, file);
    OpParted(op, file);
    SpellsSelf(op, file);
    SpellsSelf(file, "");
    assert file + "" == file;
    assert SpelledRedir(x, op + file, "");
    hide SpelledRedir;
    GapSelf("");
    assert [x][0] == x && [x][1..] == [] && SpelledRedirs([], "", "");
  }

  /** A written command with a file behind it: > and >> give the same tree. */
  lemma IntoFile(d: Cmd<string>, op: string, file: string)
    requires Writable(d) && IsWord(file) && (op == ">" || op == ">>" || op == "<")
    ensures Command("(" + Write(d) + ")" + (op + file)) == Ok(Redir(d, Redirection(file, op != "<")), "")
  {
    hide Write, Line, Executable, Redirs, IsWord, SpelledRedirs, RedirTrees, Peek;
    var xs, x := [Redirect(op, file)], Redirection(file, op != "<");
    RedirSpelled(op, file);
    NothingHere();
    RedirsOf(xs, op + file, "");
    TreesCons(xs);
    assert xs[1..] == [] && RedirTrees([]) == [] by { NoTrees(); }
    assert [x] + [] == [x];
    WrittenParses(d, ")" + (op + file));
    Block(d, op + file, [x], "");
    WrapOne(d, x);
    Plain("(" + Write(d) + ")" + (op + file), Redir(d, x), "");
  }

  lemma NoTrees()
    ensures RedirTrees([]) == []
  {
  }

  lemma WrapOne<W>(c: Cmd<W>, y: Redirection<W>)
    ensures Wrap(c, [y]) == Redir(c, y)
  {
    assert [y][1..] == [];
    assert Wrap(Redir(c, y), []) == Redir(c, y);
  }
}
