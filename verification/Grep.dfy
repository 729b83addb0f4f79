/**
 user/grep.c: the matcher of ^ . * $, and the streaming of lines through a fixed buffer.
 A C string is the characters before its NUL.
 */
module Grep {
  const NUL := 0 as char
  const BUFSIZE := 1024

  // ----- what a pattern means

  /** A character, any number of a character, or the end of the text; '.' stands for any character. */
  datatype Item = One(c: char) | Star(c: char) | End

  function Items(re: string): (r: seq<Item>)
    ensures forall i :: 0 <= i < |r| - 1 ==> r[i] != End
  {
    if re == "" then []
    else if |re| >= 2 && re[1] == '*' then [Star(re[0])] + Items(re[2..])
    else if re == "$" then [End]
    else [One(re[0])] + Items(re[1..])
  }

  predicate Fits(c: char, x: char) { c == '.' || c == x }

  predicate AllFit(c: char, s: string) { forall i :: 0 <= i < |s| ==> Fits(c, s[i]) }

  predicate ItemFits(item: Item, piece: string) {
    match item
    case One(c) => |piece| == 1 && Fits(c, piece[0])
    case Star(c) => AllFit(c, piece)
    case End => piece == ""
  }

  function Join(pieces: seq<string>): string {
    if pieces == [] then "" else pieces[0] + Join(pieces[1..])
  }

  /** The pieces, one for each item, make up a prefix of text, or all of it if the last item says so. */
  ghost predicate Witness(items: seq<Item>, pieces: seq<string>, text: string) {
    && |pieces| == |items|
    && (forall i :: 0 <= i < |items| ==> ItemFits(items[i], pieces[i]))
    && Join(pieces) <= text
    && (|items| > 0 && items[|items| - 1] == End ==> Join(pieces) == text)
  }

  /** The items match a prefix of text. */
  ghost predicate Begins(items: seq<Item>, text: string) { exists pieces :: Witness(items, pieces, text) }

  /** The pattern matches somewhere in text: at its start if the pattern begins with ^. */
  ghost predicate Means(re: string, text: string) {
    if |re| > 0 && re[0] == '^' then Begins(Items(re[1..]), text)
    else exists k :: 0 <= k <= |text| && Begins(Items(re), text[k..])
  }

  lemma BeginsNone(text: string)
    ensures Begins([], text)
  {
    assert Witness([], [], text);
  }

  lemma BeginsEnd(text: string)
    ensures Begins([End], text) <==> text == ""
  {
    assert Join([""]) == "" + Join([]);
    if text == "" {
      assert Witness([End], [""], text);
    }
    if Begins([End], text) {
      var pieces :| Witness([End], pieces, text);
      assert pieces == [""];
    }
  }

  lemma BeginsOne(c: char, rest: seq<Item>, text: string)
    ensures Begins([One(c)] + rest, text) <==> |text| > 0 && Fits(c, text[0]) && Begins(rest, text[1..])
  {
    var items := [One(c)] + rest;
    if Begins(items, text) {
      var pieces :| Witness(items, pieces, text);
      FrontPiece(One(c), rest, pieces, text);
    }
    if |text| > 0 && Fits(c, text[0]) && Begins(rest, text[1..]) {
      var pieces :| Witness(rest, pieces, text[1..]);
      AddPiece(One(c), rest, text[..1], pieces, text);
    }
  }

  lemma BeginsStar(c: char, rest: seq<Item>, text: string)
    ensures Begins([Star(c)] + rest, text) <==>
              exists k :: 0 <= k <= |text| && AllFit(c, text[..k]) && Begins(rest, text[k..])
  {
    var items := [Star(c)] + rest;
    if Begins(items, text) {
      var pieces :| Witness(items, pieces, text);
      FrontPiece(Star(c), rest, pieces, text);
      assert AllFit(c, text[..|pieces[0]|]);
    }
    if k :| 0 <= k <= |text| && AllFit(c, text[..k]) && Begins(rest, text[k..]) {
      var pieces :| Witness(rest, pieces, text[k..]);
      AddPiece(Star(c), rest, text[..k], pieces, text);
    }
  }

  lemma FrontPiece(item: Item, rest: seq<Item>, pieces: seq<string>, text: string)
    requires item != End && Witness([item] + rest, pieces, text)
    ensures |pieces| > 0 && |pieces[0]| <= |text| && text[..|pieces[0]|] == pieces[0] && ItemFits(item, pieces[0])
    ensures Witness(rest, pieces[1..], text[|pieces[0]|..]) && Begins(rest, text[|pieces[0]|..])
  {
    var items := [item] + rest;
    var p := pieces[0];
    assert ItemFits(items[0], p);
    assert Join(pieces) == p + Join(pieces[1..]);
    assert text[..|p|] == p;
    forall i | 0 <= i < |rest|
      ensures ItemFits(rest[i], pieces[1..][i])
    {
      assert items[i + 1] == rest[i];
    }
    assert |rest| > 0 ==> items[|items| - 1] == rest[|rest| - 1];
    assert Witness(rest, pieces[1..], text[|p|..]);
  }

  lemma AddPiece(item: Item, rest: seq<Item>, p: string, pieces: seq<string>, text: string)
    requires item != End && ItemFits(item, p) && p <= text && Witness(rest, pieces, text[|p|..])
    ensures Begins([item] + rest, text)
  {
    var items, all := [item] + rest, [p] + pieces;
    assert all[1..] == pieces && Join(all) == p + Join(pieces);
    assert text == p + text[|p|..];
    assert |rest| > 0 ==> items[|items| - 1] == rest[|rest| - 1];
    assert Witness(items, all, text);
  }

  // ----- the same on the characters of the pattern

  /** A pattern without anchors matches all of s. */
  ghost predicate Full(re: string, s: string)
    decreases |re|
  {
    if re == "" then s == ""
    else if |re| >= 2 && re[1] == '*' then
      exists k :: 0 <= k <= |s| && AllFit(re[0], s[..k]) && Full(re[2..], s[k..])
    else s != "" && Fits(re[0], s[0]) && Full(re[1..], s[1..])
  }

  /** A $ at the end is an anchor, wherever else it stands a character. */
  predicate Anchored(re: string) { re != "" && re[|re| - 1] == '$' }

  function Body(re: string): string { if Anchored(re) then re[..|re| - 1] else re }

  /** re matches the first j characters of text, which are all of it if re ends in $. */
  ghost predicate MatchesTo(re: string, text: string, j: int) {
    0 <= j <= |text| && Full(Body(re), text[..j]) && (Anchored(re) ==> j == |text|)
  }

  /** re without a leading ^ matches text[i..j]; ^ and $ hold the two ends to those of text. */
  ghost predicate MatchesAt(re: string, text: string, i: int, j: int) {
    if re != "" && re[0] == '^' then i == 0 && MatchesTo(re[1..], text, j)
    else 0 <= i <= j && i <= |text| && MatchesTo(re, text[i..], j - i)
  }

  lemma {:induction false} BeginsFull(re: string, text: string)
    ensures Begins(Items(re), text) <==> exists j :: MatchesTo(re, text, j)
    decreases |re|
  {
    hide Begins;
    if re == "" {
      BeginsNone(text);
      assert text[..0] == "" && MatchesTo(re, text, 0);
    } else if |re| >= 2 && re[1] == '*' {
      BeginsStar(re[0], Items(re[2..]), text);
      forall k | 0 <= k <= |text|
        ensures Begins(Items(re[2..]), text[k..]) <==> exists j :: MatchesTo(re[2..], text[k..], j)
      {
        BeginsFull(re[2..], text[k..]);
      }
      StarSplits(re, text);
    } else if re == "$" {
      BeginsEnd(text);
      assert MatchesTo(re, text, |text|) <==> text == "";
    } else {
      BeginsOne(re[0], Items(re[1..]), text);
      if text != "" { BeginsFull(re[1..], text[1..]); }
      OneSplits(re, text);
    }
  }

  lemma StarSplits(re: string, text: string)
    requires |re| >= 2 && re[1] == '*'
    ensures (exists j :: MatchesTo(re, text, j)) <==>
              exists k :: 0 <= k <= |text| && AllFit(re[0], text[..k]) && exists j :: MatchesTo(re[2..], text[k..], j)
  {
    var c, rest := re[0], re[2..];
    assert Body(re) == re[..2] + Body(rest) && Anchored(re) == Anchored(rest);
    assert Body(re)[2..] == Body(rest);
    if j :| MatchesTo(re, text, j) {
      var s := text[..j];
      var k :| 0 <= k <= |s| && AllFit(c, s[..k]) && Full(Body(rest), s[k..]);
      assert s[..k] == text[..k] && s[k..] == text[k..][..j - k];
      assert MatchesTo(rest, text[k..], j - k);
    }
    if k, j :| 0 <= k <= |text| && AllFit(c, text[..k]) && MatchesTo(rest, text[k..], j) {
      var s := text[..k + j];
      assert s[..k] == text[..k] && s[k..] == text[k..][..j];
      assert MatchesTo(re, text, k + j);
    }
  }

  lemma OneSplits(re: string, text: string)
    requires re != "" && re != "$" && (|re| >= 2 ==> re[1] != '*')
    ensures (exists j :: MatchesTo(re, text, j)) <==>
              text != "" && Fits(re[0], text[0]) && exists j :: MatchesTo(re[1..], text[1..], j)
  {
    var rest := re[1..];
    assert Body(re) == [re[0]] + Body(rest) && Anchored(re) == Anchored(rest);
    assert Body(re)[1..] == Body(rest);
    if j :| MatchesTo(re, text, j) {
      assert text[..j][1..] == text[1..][..j - 1];
      assert MatchesTo(rest, text[1..], j - 1);
    }
    if j :| text != "" && Fits(re[0], text[0]) && MatchesTo(rest, text[1..], j) {
      assert text[..j + 1][1..] == text[1..][..j];
      assert MatchesTo(re, text, j + 1);
    }
  }

  /** What a pattern means, as the piece of the text it matches. */
  lemma MeansPiece(re: string, text: string)
    ensures Means(re, text) <==> exists i, j :: MatchesAt(re, text, i, j)
  {
    hide Begins, Full, Items;
    if re != "" && re[0] == '^' {
      BeginsFull(re[1..], text);
      if j :| MatchesTo(re[1..], text, j) {
        assert MatchesAt(re, text, 0, j);
      }
    } else {
      forall k | 0 <= k <= |text|
        ensures Begins(Items(re), text[k..]) <==> exists j :: MatchesTo(re, text[k..], j)
      {
        BeginsFull(re, text[k..]);
      }
      if i, j :| MatchesAt(re, text, i, j) {
        assert MatchesTo(re, text[i..], j - i);
      }
      if k, j :| 0 <= k <= |text| && MatchesTo(re, text[k..], j) {
        assert MatchesAt(re, text, k, k + j);
      }
    }
  }

  // What that comes to, character by character.

  lemma AfterCaret(re: string, text: string)
    ensures Means("^" + re, text) <==> Begins(Items(re), text)
  {
    assert ("^" + re)[1..] == re;
  }

  /** Without ^ a pattern matches wherever it would with one. */
  lemma AnyPlace(re: string, text: string)
    requires re == "" || re[0] != '^'
    ensures Means(re, text) <==> exists k :: 0 <= k <= |text| && Means("^" + re, text[k..])
  {
    hide Begins, Items;
    forall k | 0 <= k <= |text|
      ensures Means("^" + re, text[k..]) <==> Begins(Items(re), text[k..])
    {
      AfterCaret(re, text[k..]);
    }
  }

  /** A leading . takes any one character. */
  lemma AnyChar(re: string, text: string)
    requires re == "" || re[0] != '*'
    ensures Means("^" + ("." + re), text) <==> text != "" && Means("^" + re, text[1..])
  {
    var dot := "." + re;
    assert dot[0] == '.' && dot[1..] == re && (re != "" ==> dot[1] == re[0]);
    AfterCaret(dot, text);
    BeginsOne('.', Items(re), text);
    if text != "" { AfterCaret(re, text[1..]); }
    hide Begins;
  }

  /** A leading character that is not special takes itself; so does ^, and $ before another character. */
  lemma ThisChar(c: char, re: string, text: string)
    requires c != '.' && (c == '$' ==> re != "") && (re == "" || re[0] != '*')
    ensures Means("^" + ([c] + re), text) <==> text != "" && text[0] == c && Means("^" + re, text[1..])
  {
    var all := [c] + re;
    assert all[0] == c && all[1..] == re && (re != "" ==> all[1] == re[0]);
    AfterCaret(all, text);
    BeginsOne(c, Items(re), text);
    if text != "" { AfterCaret(re, text[1..]); }
    hide Begins;
  }

  /** A leading c* takes any number of c, and .* of anything. */
  lemma ManyChars(c: char, re: string, text: string)
    ensures Means("^" + ([c, '*'] + re), text) <==>
              exists k :: 0 <= k <= |text| && (c == '.' || forall i :: 0 <= i < k ==> text[i] == c)
                          && Means("^" + re, text[k..])
  {
    var all := [c, '*'] + re;
    assert all[0] == c && all[1] == '*' && all[2..] == re;
    AfterCaret(all, text);
    BeginsStar(c, Items(re), text);
    hide Begins;
    forall k | 0 <= k <= |text|
      ensures AllFit(c, text[..k]) <==> c == '.' || forall i :: 0 <= i < k ==> text[i] == c
      ensures Means("^" + re, text[k..]) <==> Begins(Items(re), text[k..])
    {
      AfterCaret(re, text[k..]);
      assert forall i :: 0 <= i < k ==> text[..k][i] == text[i];
      if !AllFit(c, text[..k]) {
        var i :| 0 <= i < k && !Fits(c, text[..k][i]);
        assert text[i] != c;
      }
    }
  }

  /** A $ at the end takes a match only where it ends the text. */
  lemma AtTheEnd(re: string, text: string)
    ensures Means("^" + (re + "$"), text) <==> Full(re, text)
  {
    AfterCaret(re + "$", text);
    BeginsFull(re + "$", text);
    assert Body(re + "$") == re && text[..|text|] == text;
    hide Full;
    assert Full(re, text) ==> MatchesTo(re + "$", text, |text|);
  }

  /** No character that takes others than itself. */
  predicate Plain(re: string) { forall k :: 0 <= k < |re| ==> re[k] != '.' && re[k] != '*' }

  lemma {:induction false} FullPlain(re: string, s: string)
    requires Plain(re)
    ensures Full(re, s) <==> s == re
  {
    if re != "" && s != "" {
      FullPlain(re[1..], s[1..]);
      assert re == [re[0]] + re[1..] && s == [s[0]] + s[1..];
    }
  }

  /** What a pattern of plain characters matches: as a part, a beginning, an end or the whole of the text. */
  lemma PlainMeans(re: string, text: string)
    requires Plain(re) && (re != "" ==> re[0] != '^' && re[|re| - 1] != '$')
    ensures Means(re, text) <==> exists i :: 0 <= i <= |text| && re <= text[i..]
    ensures Means("^" + re, text) <==> re <= text
    ensures Means(re + "$", text) <==> |re| <= |text| && text[|text| - |re|..] == re
    ensures Means("^" + (re + "$"), text) <==> text == re
  {
    hide Means, Begins, Full, Items, Plain, MatchesTo;
    assert Body(re + "$") == re == Body(re) && Anchored(re + "$") && !Anchored(re);
    PlainPart(re, text);
    PlainPart(re + "$", text);
    PlainAt(re, text);
    PlainAt(re + "$", text);
  }

  lemma PlainAt(re: string, text: string)
    requires Plain(Body(re))
    ensures Means("^" + re, text) <==> if Anchored(re) then text == Body(re) else Body(re) <= text
  {
    hide Means, Begins, Full, Items;
    AfterCaret(re, text);
    BeginsFull(re, text);
    PlainTo(re, text);
  }

  lemma PlainTo(re: string, text: string)
    requires Plain(Body(re))
    ensures (exists j :: MatchesTo(re, text, j)) <==> if Anchored(re) then text == Body(re) else Body(re) <= text
  {
    hide Full;
    var b := Body(re);
    forall j | 0 <= j <= |text|
      ensures Full(b, text[..j]) <==> text[..j] == b
    {
      FullPlain(b, text[..j]);
    }
    assert text[..|text|] == text;
    if b <= text && (Anchored(re) ==> text == b) {
      assert text[..|b|] == b;
      assert MatchesTo(re, text, |b|);
    }
  }

  lemma PlainPart(re: string, text: string)
    requires Plain(Body(re)) && (re != "" ==> re[0] != '^')
    ensures var b := Body(re);
            Means(re, text) <==>
              if Anchored(re) then |b| <= |text| && text[|text| - |b|..] == b
              else exists i :: 0 <= i <= |text| && b <= text[i..]
  {
    hide Full, Begins, Items;
    var b := Body(re);
    forall k | 0 <= k <= |text|
      ensures Begins(Items(re), text[k..]) <==> if Anchored(re) then text[k..] == b else b <= text[k..]
    {
      BeginsFull(re, text[k..]);
      PlainTo(re, text[k..]);
    }
    if Anchored(re) && |b| <= |text| && text[|text| - |b|..] == b {
      assert Begins(Items(re), text[|text| - |b|..]);
    }
  }

  // ----- the matcher

  /** matchhere: the pattern matches at the beginning of text. */
  method MatchHere(re: string, text: string) returns (r: bool)
    ensures r <==> Begins(Items(re), text)
    decreases |re|, 0
  {
    hide Begins;
    if re == "" {
      BeginsNone(text);
      return true;
    }
    if |re| >= 2 && re[1] == '*' {
      BeginsStar(re[0], Items(re[2..]), text);
      r := MatchStar(re[0], re[2..], text);
      return;
    }
    if re == "$" {
      BeginsEnd(text);
      return text == "";
    }
    BeginsOne(re[0], Items(re[1..]), text);
    if text != "" && (re[0] == '.' || re[0] == text[0]) {
      r := MatchHere(re[1..], text[1..]);
      return;
    }
    return false;
  }

  /** matchstar: some number of c, then the pattern, match at the beginning of text. */
  method MatchStar(c: char, re: string, text: string) returns (r: bool)
    ensures r <==> exists k :: 0 <= k <= |text| && AllFit(c, text[..k]) && Begins(Items(re), text[k..])
    decreases |re|, 1
  {
    hide Begins, Items;
    var i := 0;
    while true
      invariant 0 <= i <= |text| && AllFit(c, text[..i])
      invariant forall k :: 0 <= k < i ==> !Begins(Items(re), text[k..])
      decreases |text| - i
    {
      r := MatchHere(re, text[i..]);
      if r { return; }
      if i == |text| || !(text[i] == c || c == '.') { break; }
      i := i + 1;
    }
    forall k | i < k <= |text|
      ensures !AllFit(c, text[..k])
    {
      assert !Fits(c, text[..k][i]);
    }
  }

  /** match: agrees with the meaning of the pattern. */
  method Match(re: string, text: string) returns (r: bool)
    ensures r <==> Means(re, text)
  {
    hide Begins, Items;
    if |re| > 0 && re[0] == '^' {
      r := MatchHere(re[1..], text);
      return;
    }
    var i := 0;
    while true
      invariant 0 <= i <= |text|
      invariant forall k :: 0 <= k < i ==> !Begins(Items(re), text[k..])
      decreases |text| - i
    {
      r := MatchHere(re, text[i..]);
      if r { return; }
      if i == |text| { return false; }
      i := i + 1;
    }
  }

  // ----- the stream

  /** The index of the first c in s; |s| if there is none. */
  function Find(c: char, s: string): (i: nat)
    ensures i <= |s| && (i < |s| ==> s[i] == c)
    ensures forall k :: 0 <= k < i ==> s[k] != c
  {
    if s == "" || s[0] == c then 0 else 1 + Find(c, s[1..])
  }

  /**
   The newline-terminated lines that match, in order, up to the first line that the buffer
   cannot hold: one of BUFSIZE bytes or more, the newline included.
   */
  ghost function Selected(re: string, s: string): string
    decreases |s|
  {
    var i := Find('\n', s);
    if i == |s| || i + 1 >= BUFSIZE then ""
    else (if Means(re, s[..i]) then s[..i + 1] else "") + Selected(re, s[i + 1..])
  }

  /** A line that fits the buffer, without its newline. */
  predicate Short(l: string) { |l| + 1 < BUFSIZE && forall k :: 0 <= k < |l| ==> l[k] != '\n' }

  /** The lines with their newlines. */
  function Text(lines: seq<string>): string {
    if lines == [] then "" else lines[0] + "\n" + Text(lines[1..])
  }

  /** The lines that match, in order. */
  ghost function Chosen(re: string, lines: seq<string>): (r: seq<string>)
    ensures forall l :: l in r <==> l in lines && Means(re, l)
  {
    if lines == [] then [] else (if Means(re, lines[0]) then [lines[0]] else []) + Chosen(re, lines[1..])
  }

  /** No newline where the buffer could still take it: the end of the input, or a line that does not fit. */
  predicate Stuck(tail: string) { forall k :: 0 <= k < |tail| && k + 1 < BUFSIZE ==> tail[k] != '\n' }

  /** What is selected of any lines and whatever is left. */
  lemma {:induction false} SelectedLines(re: string, lines: seq<string>, tail: string)
    requires (forall l :: l in lines ==> Short(l)) && Stuck(tail)
    ensures Selected(re, Text(lines) + tail) == Text(Chosen(re, lines))
  {
    hide Means;
    if lines == [] {
      assert Text(lines) + tail == tail;
    } else {
      var l, rest := lines[0], Text(lines[1..]) + tail;
      assert l in lines && forall x :: x in lines[1..] ==> x in lines;
      assert Text(lines) + tail == l + "\n" + rest;
      OneLine(re, l, rest);
      SelectedLines(re, lines[1..], tail);
      hide Selected;
      var c := Chosen(re, lines[1..]);
      assert ([l] + c)[1..] == c && [] + c == c;
    }
  }

  lemma OneLine(re: string, l: string, rest: string)
    requires Short(l)
    ensures Selected(re, l + "\n" + rest) == (if Means(re, l) then l + "\n" else "") + Selected(re, rest)
  {
    hide Means, Selected;
    var s := l + "\n" + rest;
    assert forall k :: 0 <= k < |l| ==> s[k] == l[k];
    assert s[|l|] == '\n';
    SelectedStep(re, s, |l|);
    assert s[..|l|] == l && s[..|l| + 1] == l + "\n" && s[|l| + 1..] == rest;
  }

  /** And every input is of that kind. */
  lemma {:induction false} InputLines(s: string) returns (lines: seq<string>, tail: string)
    ensures s == Text(lines) + tail && (forall l :: l in lines ==> Short(l)) && Stuck(tail)
    decreases |s|
  {
    var i := Find('\n', s);
    if i == |s| || i + 1 >= BUFSIZE {
      lines, tail := [], s;
    } else {
      lines, tail := InputLines(s[i + 1..]);
      lines := [s[..i]] + lines;
      assert lines[1..] + [] == lines[1..];
    }
  }

  /** read: some of the input, at most n bytes; 0 at its end, or if n is 0. */
  method Read(input: string, pos: nat, n: nat) returns (k: nat)
    requires pos <= |input|
    ensures k <= n && pos + k <= |input|
    ensures k == 0 <==> n == 0 || pos == |input|
  {
    if n == 0 || pos == |input| { return 0; }
    k :| 1 <= k <= n && pos + k <= |input|;
  }

  /** strchr(p, c) in the C string at p, which ends at m: the first c; m if there is none. */
  method StrChr(buf: array<char>, p: nat, m: nat, c: char) returns (q: nat)
    requires p <= m < buf.Length && buf[m] == NUL && c != NUL
    requires forall i :: p <= i < m ==> buf[i] != NUL
    ensures p <= q <= m && (q < m ==> buf[q] == c)
    ensures forall i :: p <= i < q ==> buf[i] != c
  {
    q := p;
    while buf[q] != NUL && buf[q] != c
      invariant p <= q <= m
      invariant forall i :: p <= i < q ==> buf[i] != c
      decreases m - q
    {
      q := q + 1;
    }
  }

  /** The unread part of the buffer is what the input holds next. */
  ghost predicate Holds(b: seq<char>, p: nat, m: nat, input: string, pos: nat) {
    && p <= m < |b| && m - p <= pos <= |input|
    && b[p..m] == input[pos - (m - p)..pos]
  }

  /** The line from p to the newline at q is the next line of the input. */
  lemma NextLine(re: string, b: seq<char>, p: nat, q: nat, m: nat, input: string, pos: nat)
    requires Holds(b, p, m, input, pos) && p <= q < m <= BUFSIZE - 1 && b[q] == '\n'
    requires forall i :: p <= i < q ==> b[i] != '\n'
    ensures var rest := input[pos - (m - p)..];
            Selected(re, rest) == (if Means(re, b[p..q]) then b[p..q + 1] else "") +
                Selected(re, input[pos - (m - q - 1)..])
  {
    hide Means, Selected;
    var rest := input[pos - (m - p)..];
    forall k | 0 <= k < m - p
      ensures rest[k] == b[p + k]
    {
      assert b[p..m][k] == input[pos - (m - p)..pos][k];
    }
    assert rest[q - p] == '\n' && forall k :: 0 <= k < q - p ==> rest[k] != '\n';
    assert Find('\n', rest) == q - p;
    assert rest[..q - p] == b[p..q] && rest[..q - p + 1] == b[p..q + 1];
    assert rest[q - p + 1..] == input[pos - (m - q - 1)..];
    SelectedStep(re, rest, q - p);
  }

  lemma SelectedStep(re: string, s: string, i: nat)
    requires i == Find('\n', s) && i < |s| && i + 1 < BUFSIZE
    ensures Selected(re, s) == (if Means(re, s[..i]) then s[..i + 1] else "") + Selected(re, s[i + 1..])
  {
    hide Means, Find;
  }

  /** No newline in the buffer, and the input at its end or the buffer full: nothing more is selected. */
  lemma NoMore(re: string, b: seq<char>, m: nat, input: string, pos: nat)
    requires Holds(b, 0, m, input, pos) && (forall i :: 0 <= i < m ==> b[i] != '\n')
    requires pos == |input| || m == BUFSIZE - 1
    ensures Selected(re, input[pos - m..]) == ""
  {
    var rest := input[pos - m..];
    forall k | 0 <= k < m
      ensures rest[k] != '\n'
    {
      assert b[0..m][k] == input[pos - m..pos][k];
    }
  }

  /**
   grep on an input without NUL: what it writes is exactly the selected lines, however read
   splits the input.
   */
  method Run(pattern: string, input: string) returns (out: string)
    requires forall i :: 0 <= i < |input| ==> input[i] != NUL
    ensures out == Selected(pattern, input)
  {
    hide Selected, Holds;
    var buf := new char[BUFSIZE];
    var m, pos := 0, 0;
    out := "";
    assert input[0..] == input;
    HoldsNothing(buf[..], input);
    var n := Read(input, pos, BUFSIZE - m - 1);
    while n > 0
      invariant 0 <= m < BUFSIZE == buf.Length && m <= pos && 0 <= n && pos + n <= |input| && m + n < BUFSIZE
      invariant Holds(buf[..], 0, m, input, pos) && forall i :: 0 <= i < m ==> buf[i] != '\n'
      invariant out + Selected(pattern, input[pos - m..]) == Selected(pattern, input)
      invariant n == 0 ==> pos == |input| || m == BUFSIZE - 1
      decreases |input| - pos
    {
      m, out := Chunk(pattern, buf, m, input, pos, n, out);
      pos := pos + n;
      n := Read(input, pos, BUFSIZE - m - 1);
    }
    NoMore(pattern, buf[..], m, input, pos);
  }

  lemma HoldsNothing(b: seq<char>, input: string)
    requires |b| > 0
    ensures Holds(b, 0, 0, input, 0)
  {
  }

  /** One turn of grep's outer loop, on the n bytes just read behind the first m of the buffer. */
  method Chunk(pattern: string, buf: array<char>, m0: nat, input: string, pos: nat, n: nat, before: string)
    returns (m: nat, out: string)
    requires m0 + n < BUFSIZE == buf.Length && pos + n <= |input| && Holds(buf[..], 0, m0, input, pos)
    requires forall i :: 0 <= i < |input| ==> input[i] != NUL
    requires before + Selected(pattern, input[pos - m0..]) == Selected(pattern, input)
    modifies buf
    ensures m < BUFSIZE && m <= pos + n && Holds(buf[..], 0, m, input, pos + n) && forall i :: 0 <= i < m ==>
              buf[i] != '\n'
    ensures out + Selected(pattern, input[pos + n - m..]) == Selected(pattern, input)
  {
    hide Selected, Holds, Means;
    Fill(buf, m0, input, pos, n);
    m := m0 + n;
    ghost var b := buf[..];
    buf[m] := NUL;
    HeldStill(b, buf[..], m, input, pos + n);
    var p;
    out, p := Lines(pattern, buf, m, input, pos + n, before);
    if m > 0 {
      Shift(buf, p, m - p, input, pos + n);
      m := m - p;
    }
  }

  /** What is held does not depend on the bytes behind it. */
  lemma HeldStill(b: seq<char>, d: seq<char>, m: nat, input: string, pos: nat)
    requires m < |b| && d == b[m := NUL] && Holds(b, 0, m, input, pos)
    ensures Holds(d, 0, m, input, pos) && m <= pos
  {
    assert d[0..m] == b[0..m];
  }

  lemma Filled(d: seq<char>, b: seq<char>, m: nat, input: string, pos: nat, n: nat)
    requires Holds(d, 0, m, input, pos) && |b| == |d| && m + n < |b| && pos + n <= |input|
    requires forall k :: 0 <= k < m ==> b[k] == d[k]
    requires forall k :: m <= k < m + n ==> b[k] == input[pos + (k - m)]
    ensures Holds(b, 0, m + n, input, pos + n)
  {
    forall k | 0 <= k < m + n
      ensures b[k] == input[pos - m + k]
    {
      if k < m { assert b[k] == d[0..m][k] == input[pos - m..pos][k]; }
    }
  }

  lemma Shifted(d: seq<char>, b: seq<char>, p: nat, m: nat, input: string, pos: nat)
    requires Holds(d, p, m, input, pos) && (forall i :: p <= i < m ==> d[i] != '\n') && |b| == |d| &&
               b[..m - p] == d[p..p + (m - p)]
    ensures Holds(b, 0, m - p, input, pos) && forall i :: 0 <= i < m - p ==> b[i] != '\n'
  {
    forall i | 0 <= i < m - p
      ensures b[i] != '\n'
    {
      assert b[..m - p][i] == d[p..p + (m - p)][i];
    }
  }

  /** read(fd, buf + m, ...) put the next n bytes of the input behind the first m. */
  method Fill(buf: array<char>, m: nat, input: string, pos: nat, n: nat)
    requires m + n < buf.Length && pos + n <= |input| && Holds(buf[..], 0, m, input, pos)
    modifies buf
    ensures Holds(buf[..], 0, m + n, input, pos + n)
  {
    ghost var d := buf[..];
    HoldsBounds(d, 0, m, input, pos);
    var i := 0;
    while i < n
      invariant 0 <= i <= n
      invariant forall k :: 0 <= k < m ==> buf[k] == d[k]
      invariant forall k :: m <= k < m + i ==> buf[k] == input[pos + (k - m)]
    {
      buf[m + i] := input[pos + i];
      i := i + 1;
    }
    Filled(d, buf[..], m, input, pos, n);
  }

  /** grep's inner loop: every whole line in the buffer is written if it matches; p ends at the remainder. */
  method Lines(pattern: string, buf: array<char>, m: nat, input: string, pos: nat, before: string)
    returns (out: string, p: nat)
    requires m < BUFSIZE == buf.Length && buf[m] == NUL && Holds(buf[..], 0, m, input, pos)
    requires forall i :: 0 <= i < |input| ==> input[i] != NUL
    requires before + Selected(pattern, input[pos - m..]) == Selected(pattern, input)
    modifies buf
    ensures p <= m <= pos && Holds(buf[..], p, m, input, pos) && forall i :: p <= i < m ==> buf[i] != '\n'
    ensures out + Selected(pattern, input[pos - (m - p)..]) == Selected(pattern, input)
  {
    hide Selected, Means, Holds;
    out, p := before, 0;
    HoldsBounds(buf[..], p, m, input, pos);
    NoNul(buf[..], p, m, input, pos);
    var q := StrChr(buf, p, m, '\n');
    while q < m
      invariant 0 <= p <= q <= m && buf[m] == NUL && Holds(buf[..], p, m, input, pos)
      invariant out + Selected(pattern, input[pos - (m - p)..]) == Selected(pattern, input)
      invariant (q < m ==> buf[q] == '\n') && forall i :: p <= i < q ==> buf[i] != '\n'
      decreases m - p
    {
      ghost var b, was := buf[..], out;
      HoldsBounds(b, p, m, input, pos);
      NextLine(pattern, b, p, q, m, input, pos);
      buf[q] := NUL;
      assert buf[p..q] == b[p..q];
      var r := Match(pattern, buf[p..q]);
      if r {
        buf[q] := '\n';
        assert buf[p..q + 1] == b[p..q + 1];
        out := out + buf[p..q + 1];
      }
      ghost var line := if Means(pattern, b[p..q]) then b[p..q + 1] else "";
      assert out == was + line;
      Regroup(was, line, Selected(pattern, input[pos - (m - q - 1)..]));
      StillHolds(b, buf[..], p, q, m, input, pos);
      p := q + 1;
      HoldsBounds(buf[..], p, m, input, pos);
      NoNul(buf[..], p, m, input, pos);
      q := StrChr(buf, p, m, '\n');
    }
  }

  lemma HoldsBounds(b: seq<char>, p: nat, m: nat, input: string, pos: nat)
    requires Holds(b, p, m, input, pos)
    ensures p <= m < |b| && m - p <= pos <= |input|
  {
  }

  lemma Regroup(a: string, b: string, c: string)
    ensures a + (b + c) == (a + b) + c
  {
  }

  lemma NoNul(b: seq<char>, p: nat, m: nat, input: string, pos: nat)
    requires Holds(b, p, m, input, pos) && forall i :: 0 <= i < |input| ==> input[i] != NUL
    ensures forall i :: p <= i < m ==> b[i] != NUL
  {
    forall i | p <= i < m
      ensures b[i] != NUL
    {
      assert b[p..m][i - p] == input[pos - (m - p)..pos][i - p];
    }
  }

  lemma StillHolds(b: seq<char>, d: seq<char>, p: nat, q: nat, m: nat, input: string, pos: nat)
    requires Holds(b, p, m, input, pos) && p <= q < m && |d| == |b|
    requires forall i {:trigger d[i]} :: 0 <= i < |b| && i != q ==> d[i] == b[i]
    ensures Holds(d, q + 1, m, input, pos)
  {
    assert d[q + 1..m] == b[p..m][q + 1 - p..];
  }

  /** memmove(buf, p, m) brings the rest of a line to the front. */
  method Shift(buf: array<char>, p: nat, m: nat, ghost input: string, ghost pos: nat)
    requires Holds(buf[..], p, p + m, input, pos) && forall i :: p <= i < p + m ==> buf[i] != '\n'
    modifies buf
    ensures Holds(buf[..], 0, m, input, pos) && forall i :: 0 <= i < m ==> buf[i] != '\n'
  {
    ghost var d := buf[..];
    var i := 0;
    while i < m
      invariant 0 <= i <= m
      invariant buf[..i] == d[p..p + i]
      invariant forall k :: i <= k < buf.Length ==> buf[k] == d[k]
    {
      buf[i] := buf[p + i];
      i := i + 1;
    }
    Shifted(d, buf[..], p, p + m, input, pos);
  }
}
