/**
 * How Shell::fetchCommand turns one input line into a keyword and arguments
 * (src/shell.cpp, lines 25-40): `ss >> command` reads the keyword, then
 * `getline(ss, arg, ' ')` cuts the rest of the line at single spaces, dropping the
 * pieces that are empty or "\n". Quotes are ordinary characters.
 *
 * The worked examples take their literal strings as parameters pinned by `requires`
 * rather than writing them in the statement, so that the verifier meets each literal
 * only where a step needs it instead of unfolding every one in every proof obligation.
 */
module Tokenizer {
  import opened Commands

  /** The characters `>>` skips before a word and stops at after it (std::isspace). */
  predicate IsSpace(c: char) {
    c == ' ' || c == '\t' || c == '\n' || c == '\r' || c == 11 as char || c == 12 as char
  }

  /** The first position at or after i that is not whitespace. */
  function SkipSpaces(s: string, i: nat): (j: nat)
    requires i <= |s|
    ensures i <= j <= |s|
    decreases |s| - i
  {
    if i < |s| && IsSpace(s[i]) then SkipSpaces(s, i + 1) else i
  }

  /** SkipSpaces passes over whitespace only, and stops at the end or at a non-space. */
  lemma {:induction false} SkipSpacesSpec(s: string, i: nat)
    requires i <= |s|
    ensures forall k :: i <= k < SkipSpaces(s, i) ==> IsSpace(s[k])
    ensures SkipSpaces(s, i) < |s| ==> !IsSpace(s[SkipSpaces(s, i)])
    decreases |s| - i
  {
    if i < |s| && IsSpace(s[i]) {
      SkipSpacesSpec(s, i + 1);
    }
  }

  /** The first position at or after i that is whitespace. */
  function SkipWord(s: string, i: nat): (j: nat)
    requires i <= |s|
    ensures i <= j <= |s|
    decreases |s| - i
  {
    if i < |s| && !IsSpace(s[i]) then SkipWord(s, i + 1) else i
  }

  /** SkipWord passes over non-whitespace only, and stops at the end or at whitespace. */
  lemma {:induction false} SkipWordSpec(s: string, i: nat)
    requires i <= |s|
    ensures forall k :: i <= k < SkipWord(s, i) ==> !IsSpace(s[k])
    ensures SkipWord(s, i) < |s| ==> IsSpace(s[SkipWord(s, i)])
    decreases |s| - i
  {
    if i < |s| && !IsSpace(s[i]) {
      SkipWordSpec(s, i + 1);
    }
  }

  function KeywordStart(line: string): nat { SkipSpaces(line, 0) }
  function KeywordEnd(line: string): nat { SkipWord(line, KeywordStart(line)) }

  /** What `ss >> command` stores: the first maximal run of non-whitespace. */
  function Keyword(line: string): string { line[KeywordStart(line)..KeywordEnd(line)] }

  /** What is left in the stream after the keyword. */
  function Rest(line: string): string { line[KeywordEnd(line)..] }

  /**
   * The keyword is preceded only by whitespace, holds none, and is maximal: the rest
   * is empty or starts with whitespace. An empty keyword means a blank line.
   */
  lemma KeywordSpec(line: string)
    ensures line == line[..KeywordStart(line)] + Keyword(line) + Rest(line)
    ensures forall k :: 0 <= k < KeywordStart(line) ==> IsSpace(line[k])
    ensures forall k :: 0 <= k < |Keyword(line)| ==> !IsSpace(Keyword(line)[k])
    ensures Rest(line) == [] || IsSpace(Rest(line)[0])
    ensures Keyword(line) == [] <==> forall k :: 0 <= k < |line| ==> IsSpace(line[k])
  {
    var i, j := KeywordStart(line), KeywordEnd(line);
    SkipSpacesSpec(line, 0);
    SkipWordSpec(line, i);
    assert line == line[..i] + line[i..j] + line[j..];
    if Keyword(line) == [] {
      assert i == |line|;
    }
  }

  /** The pieces between single spaces, empty pieces included. */
  function SplitSpaces(s: string): (r: seq<string>)
    ensures |r| >= 1
  {
    if s == [] then [""]
    else
      var tail := SplitSpaces(s[1..]);
      if s[0] == ' ' then [""] + tail else [[s[0]] + tail[0]] + tail[1..]
  }

  /** The pieces the loop keeps: not "" and not "\n". */
  function Keep(pieces: seq<string>): seq<string> {
    if pieces == [] then []
    else if pieces[0] == "" || pieces[0] == "\n" then Keep(pieces[1..])
    else [pieces[0]] + Keep(pieces[1..])
  }

  /**
   * The argument list built from the rest of the line. getline never returns the empty
   * piece after a trailing space, which Keep drops anyway.
   */
  function ArgsOf(rest: string): seq<string> { Keep(SplitSpaces(rest)) }

  /** The command fetchCommand builds from a line whose keyword is registered. */
  function Tokenize(line: string): Command { Command(Keyword(line), ArgsOf(Rest(line))) }

  /** An argument the tokenizer can produce. */
  predicate IsArg(a: string) { a != "" && a != "\n" && ' ' !in a }

  lemma {:induction false} KeepConcat(p: seq<string>, q: seq<string>)
    ensures Keep(p + q) == Keep(p) + Keep(q)
    decreases |p|
  {
    if p == [] {
      assert p + q == q;
    } else {
      KeepConcat(p[1..], q);
      assert (p + q)[0] == p[0];
      assert (p + q)[1..] == p[1..] + q;
    }
  }

  lemma {:induction false} SplitWord(w: string)
    requires ' ' !in w
    ensures SplitSpaces(w) == [w]
    decreases |w|
  {
    if w != [] {
      assert w[0] in w;
      assert forall c :: c in w[1..] ==> c in w;
      SplitWord(w[1..]);
      assert [w[0]] + w[1..] == w;
    }
  }

  /** One unfolding of SplitSpaces on a string with a known first character. */
  lemma SplitCons(c: char, t: string)
    ensures SplitSpaces([c] + t) ==
      if c == ' ' then [""] + SplitSpaces(t) else [[c] + SplitSpaces(t)[0]] + SplitSpaces(t)[1..]
  {
    assert ([c] + t)[0] == c;
    assert ([c] + t)[1..] == t;
  }

  /** Cutting at one space splits the pieces of the two sides apart. */
  lemma {:induction false} SplitAtSpace(a: string, b: string)
    ensures SplitSpaces(a + " " + b) == SplitSpaces(a) + SplitSpaces(b)
    decreases |a|
  {
    if a == [] {
      assert a + " " + b == [' '] + b;
      SplitCons(' ', b);
    } else {
      var t := a[1..] + " " + b;
      assert a + " " + b == [a[0]] + t;
      assert a == [a[0]] + a[1..];
      SplitAtSpace(a[1..], b);
      SplitCons(a[0], t);
      SplitCons(a[0], a[1..]);
      PrependPiece(a[0], SplitSpaces(a[1..]), SplitSpaces(b));
    }
  }

  /** Extending or opening the first piece commutes with appending more pieces. */
  lemma PrependPiece(c: char, left: seq<string>, right: seq<string>)
    requires |left| >= 1
    ensures [[c] + (left + right)[0]] + (left + right)[1..] == ([[c] + left[0]] + left[1..]) + right
    ensures [""] + (left + right) == ([""] + left) + right
  {
    assert (left + right)[0] == left[0];
    assert (left + right)[1..] == left[1..] + right;
  }

  lemma ArgsOfAtSpace(a: string, b: string)
    ensures ArgsOf(a + " " + b) == ArgsOf(a) + ArgsOf(b)
  {
    SplitAtSpace(a, b);
    KeepConcat(SplitSpaces(a), SplitSpaces(b));
  }

  lemma ArgsOfWord(w: string)
    requires ' ' !in w
    ensures ArgsOf(w) == if w == "" || w == "\n" then [] else [w]
  {
    SplitWord(w);
    assert [w][1..] == [];
    assert Keep([]) == [];
  }

  lemma {:induction false} KeepSpec(p: seq<string>)
    requires forall i :: 0 <= i < |p| ==> ' ' !in p[i]
    ensures forall i :: 0 <= i < |Keep(p)| ==> IsArg(Keep(p)[i])
    decreases |p|
  {
    if p != [] {
      assert forall i :: 1 <= i < |p| ==> p[i] == p[1..][i - 1];
      KeepSpec(p[1..]);
    }
  }

  lemma {:induction false} SplitNoSpace(s: string)
    ensures forall i :: 0 <= i < |SplitSpaces(s)| ==> ' ' !in SplitSpaces(s)[i]
    decreases |s|
  {
    if s != [] {
      SplitNoSpace(s[1..]);
    }
  }

  /** Every argument is non-empty, is not "\n" and holds no space. */
  lemma ArgsAreWords(rest: string)
    ensures forall i :: 0 <= i < |ArgsOf(rest)| ==> IsArg(ArgsOf(rest)[i])
  {
    SplitNoSpace(rest);
    KeepSpec(SplitSpaces(rest));
  }

  /** The words joined with single spaces. */
  function JoinSpaces(words: seq<string>): string {
    if words == [] then "" else if |words| == 1 then words[0] else words[0] + " " + JoinSpaces(words[1..])
  }

  /** Splitting words joined by single spaces gives the words back, in order. */
  lemma {:induction false} ArgsOfJoin(args: seq<string>)
    requires forall i :: 0 <= i < |args| ==> IsArg(args[i])
    ensures ArgsOf(JoinSpaces(args)) == args
    decreases |args|
  {
    if args == [] {
    } else if |args| == 1 {
      ArgsOfWord(args[0]);
    } else {
      ArgsOfAtSpace(args[0], JoinSpaces(args[1..]));
      ArgsOfWord(args[0]);
      ArgsOfJoin(args[1..]);
    }
  }

  /** The same for the trailing-space layout of the command formatter. */
  lemma {:induction false} ArgsOfArgsText(args: seq<string>)
    requires forall i :: 0 <= i < |args| ==> IsArg(args[i])
    ensures ArgsOf(ArgsText(args)) == args
    decreases |args|
  {
    if args != [] {
      ArgsOfAtSpace(args[0], ArgsText(args[1..]));
      ArgsOfWord(args[0]);
      ArgsOfArgsText(args[1..]);
    }
  }

  predicate IsKeyword(w: string) {
    w != "" && forall k :: 0 <= k < |w| ==> !IsSpace(w[k])
  }

  /**
   * A line with no leading whitespace and single spaces between its tokens is
   * tokenized into those tokens, so joining keyword and arguments gives the line back.
   */
  lemma TokenizeJoin(keyword: string, args: seq<string>)
    requires IsKeyword(keyword)
    requires forall i :: 0 <= i < |args| ==> IsArg(args[i])
    ensures Tokenize(JoinSpaces([keyword] + args)) == Command(keyword, args)
    ensures JoinSpaces([Tokenize(JoinSpaces([keyword] + args)).keyword] + Tokenize(JoinSpaces([keyword] + args)).args)
      == JoinSpaces([keyword] + args)
  {
    var rest := if args == [] then "" else " " + JoinSpaces(args);
    JoinParts(keyword, args, rest);
    TokenizeParts("", keyword, rest);
    ArgsOfSpacedRest(args, rest);
  }

  lemma JoinParts(keyword: string, args: seq<string>, rest: string)
    requires rest == if args == [] then "" else " " + JoinSpaces(args)
    ensures JoinSpaces([keyword] + args) == "" + keyword + rest
  {
    var words := [keyword] + args;
    assert words[0] == keyword && words[1..] == args;
  }

  /** The text after the keyword in a single-spaced line gives back the arguments. */
  lemma ArgsOfSpacedRest(args: seq<string>, rest: string)
    requires forall i :: 0 <= i < |args| ==> IsArg(args[i])
    requires rest == if args == [] then "" else " " + JoinSpaces(args)
    ensures ArgsOf(rest) == args
  {
    ArgsOfJoin(args);
    if args == [] {
      ArgsOfWord("");
    } else {
      ArgsOfAtSpace("", JoinSpaces(args));
      ArgsOfWord("");
      assert "" + " " + JoinSpaces(args) == " " + JoinSpaces(args);
    }
  }

  /** Whitespace, then a keyword, then a rest that is empty or starts with whitespace. */
  lemma TokenizeParts(pre: string, keyword: string, rest: string)
    requires forall k :: 0 <= k < |pre| ==> IsSpace(pre[k])
    requires IsKeyword(keyword)
    requires rest == [] || IsSpace(rest[0])
    ensures Keyword(pre + keyword + rest) == keyword && Rest(pre + keyword + rest) == rest
  {
    var line := pre + keyword + rest;
    var n, m := |pre|, |pre| + |keyword|;
    assert forall k :: 0 <= k < n ==> line[k] == pre[k];
    assert forall k :: n <= k < m ==> line[k] == keyword[k - n];
    assert m < |line| ==> line[m] == rest[0];
    SkipSpacesOver(line, 0, n);
    SkipWordShift(line, n, |keyword|);
    assert line[n..m] == keyword;
    assert line[m..] == rest;
  }

  /** Formatting a command and reading the text back gives the same command. */
  lemma TokenizeFormat(c: Command)
    requires IsKeyword(c.keyword)
    requires forall i :: 0 <= i < |c.args| ==> IsArg(c.args[i])
    ensures Tokenize(Format(c)) == c
  {
    var pre := if |c.keyword| < 12 then Spaces(12 - |c.keyword|) else "";
    var rest := " " + ArgsText(c.args);
    FormatParts(c, pre, rest);
    TokenizeParts(pre, c.keyword, rest);
    SpacedArgsText(c.args, rest);
  }

  /** The formatted line is its padding, the keyword, and a space before the arguments. */
  lemma FormatParts(c: Command, pre: string, rest: string)
    requires pre == if |c.keyword| < 12 then Spaces(12 - |c.keyword|) else ""
    requires rest == " " + ArgsText(c.args)
    ensures Format(c) == pre + c.keyword + rest
    ensures forall k :: 0 <= k < |pre| ==> IsSpace(pre[k])
  {
    assert PadLeft(c.keyword, 12) == pre + c.keyword;
  }

  lemma SpacedArgsText(args: seq<string>, rest: string)
    requires forall i :: 0 <= i < |args| ==> IsArg(args[i])
    requires rest == " " + ArgsText(args)
    ensures ArgsOf(rest) == args
  {
    ArgsOfAtSpace("", ArgsText(args));
    assert "" + " " + ArgsText(args) == rest;
    ArgsOfWord("");
    ArgsOfArgsText(args);
  }

  lemma {:induction false} SkipSpacesOver(s: string, i: nat, n: nat)
    requires i <= n < |s|
    requires forall k :: i <= k < n ==> IsSpace(s[k])
    requires !IsSpace(s[n])
    ensures SkipSpaces(s, i) == n
    decreases n - i
  {
    if i < n {
      SkipSpacesOver(s, i + 1, n);
    }
  }

  lemma {:induction false} SkipWordShift(s: string, n: nat, len: nat)
    requires n + len <= |s|
    requires forall k :: n <= k < n + len ==> !IsSpace(s[k])
    requires n + len < |s| ==> IsSpace(s[n + len])
    ensures SkipWord(s, n) == n + len
    decreases len
  {
    if len > 0 {
      SkipWordShift(s, n + 1, len - 1);
    }
  }

  /**
   * The argument loop: reads the rest of the line character by character, closing a
   * piece at each space and pushing it unless it is "" or "\n".
   */
  method SplitArgs(rest: string) returns (args: seq<string>)
    ensures args == ArgsOf(rest)
  {
    args := [];
    var cur := "";
    var i := 0;
    assert cur + rest[i..] == rest;
    while i < |rest|
      invariant 0 <= i <= |rest|
      invariant ' ' !in cur
      invariant args + ArgsOf(cur + rest[i..]) == ArgsOf(rest)
    {
      if rest[i] == ' ' {
        assert cur + rest[i..] == cur + " " + rest[i + 1..];
        ArgsOfAtSpace(cur, rest[i + 1..]);
        ArgsOfWord(cur);
        if cur != "" && cur != "\n" {
          args := args + [cur];
        }
        cur := "";
        assert cur + rest[i + 1..] == rest[i + 1..];
      } else {
        assert cur + rest[i..] == (cur + [rest[i]]) + rest[i + 1..];
        cur := cur + [rest[i]];
      }
      i := i + 1;
    }
    assert cur + rest[i..] == cur;
    ArgsOfWord(cur);
    if cur != "" && cur != "\n" {
      args := args + [cur];
    }
  }

  lemma JoinCons(w: string, words: seq<string>)
    requires words != []
    ensures JoinSpaces([w] + words) == w + " " + JoinSpaces(words)
  {
    assert ([w] + words)[1..] == words;
  }

  /** Quotes are kept and do not group: a quoted date-time becomes two arguments. */
  lemma NoQuoteHandling(line: string, w0: string, w1: string, w2: string, w3: string)
    requires w0 == "create" && w1 == "AA1234" && w2 == "\"2021-03-01" && w3 == "12:00:00\""
    requires line == w0 + " " + w1 + " " + w2 + " " + w3
    ensures Tokenize(line) == Command(w0, [w1, w2, w3])
  {
    QuotedWords(w0, w1, w2, w3);
    QuotedLine(line, w0, w1, w2, w3);
    TokenizeJoin(w0, [w1, w2, w3]);
  }

  lemma QuotedWords(w0: string, w1: string, w2: string, w3: string)
    requires w0 == "create" && w1 == "AA1234" && w2 == "\"2021-03-01" && w3 == "12:00:00\""
    ensures IsKeyword(w0) && IsArg(w1) && IsArg(w2) && IsArg(w3)
  {
  }

  lemma QuotedLine(line: string, w0: string, w1: string, w2: string, w3: string)
    requires line == w0 + " " + w1 + " " + w2 + " " + w3
    ensures JoinSpaces([w0] + [w1, w2, w3]) == line
  {
    JoinCons(w2, [w3]);
    JoinCons(w1, [w2, w3]);
    JoinCons(w0, [w1, w2, w3]);
    assert [w2, w3] == [w2] + [w3] && [w1, w2, w3] == [w1] + [w2, w3];
    assert JoinSpaces([w3]) == w3;
  }
}
