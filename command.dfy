/** The command value built from one input line (src/command.cpp). */
module Commands {

  /** A keyword and its ordered arguments; the source keeps them in a std::list. */
  datatype Command = Command(keyword: string, args: seq<string>) {
    function GetCommand(): string { keyword }
    function GetArgs(): seq<string> { args }
  }

  /** The default constructor: an empty keyword and no arguments. */
  function DefaultCommand(): Command { Command("", []) }

  /** The copy constructor copies both fields. */
  function CopyCommand(c: Command): Command { Command(c.keyword, c.args) }

  /** The getters give back what the two-argument constructor stored, in the same order. */
  lemma ConstructorGetters(keyword: string, args: seq<string>)
    ensures Command(keyword, args).GetCommand() == keyword
    ensures |Command(keyword, args).GetArgs()| == |args|
    ensures forall i :: 0 <= i < |args| ==> Command(keyword, args).GetArgs()[i] == args[i]
  {
  }

  lemma CopyAndDefault(c: Command)
    ensures CopyCommand(c).GetCommand() == c.GetCommand() && CopyCommand(c).GetArgs() == c.GetArgs()
    ensures DefaultCommand().GetCommand() == "" && DefaultCommand().GetArgs() == []
  {
  }

  function Spaces(n: nat): (r: string)
    ensures |r| == n && forall i :: 0 <= i < n ==> r[i] == ' '
  {
    if n == 0 then "" else Spaces(n - 1) + " "
  }

  /** std::setw(width) on a string: right-aligned, left-padded with spaces, never cut. */
  function PadLeft(s: string, width: nat): (r: string)
    ensures |r| == if |s| < width then width else |s|
    ensures r[|r| - |s|..] == s
    ensures forall i :: 0 <= i < |r| - |s| ==> r[i] == ' '
  {
    if |s| < width then Spaces(width - |s|) + s else s
  }

  /** Each argument followed by one space, in order. */
  function ArgsText(args: seq<string>): string {
    if args == [] then "" else args[0] + " " + ArgsText(args[1..])
  }

  function TotalLength(args: seq<string>): nat {
    if args == [] then 0 else |args[0]| + 1 + TotalLength(args[1..])
  }

  /** operator<<: the keyword in a field of width 12, one space, then the arguments. */
  function Format(c: Command): string {
    PadLeft(c.keyword, 12) + " " + ArgsText(c.args)
  }

  /** The argument text holds every argument and one space after each, nothing else. */
  lemma {:induction false} ArgsTextLayout(args: seq<string>)
    ensures |ArgsText(args)| == TotalLength(args)
    ensures args != [] ==> ArgsText(args)[|ArgsText(args)| - 1] == ' '
    ensures args != [] ==> ArgsText(args)[..|args[0]|] == args[0] && ArgsText(args)[|args[0]|] == ' '
    decreases |args|
  {
    if args != [] {
      ArgsTextLayout(args[1..]);
    }
  }

  /** The argument text of a list is that of its first i arguments followed by that of the others. */
  lemma {:induction false} ArgsTextTakeDrop(args: seq<string>, i: nat)
    requires i <= |args|
    ensures ArgsText(args) == ArgsText(args[..i]) + ArgsText(args[i..])
    decreases i
  {
    if i == 0 {
      assert args[..0] == [] && args[0..] == args;
    } else {
      ArgsTextTakeDrop(args[1..], i - 1);
      assert args[..i][0] == args[0] && args[..i][1..] == args[1..][..i - 1];
      assert args[1..][i - 1..] == args[i..];
      Associate(args[0] + " ", ArgsText(args[1..][..i - 1]), ArgsText(args[i..]));
    }
  }

  /** Every argument, wherever it stands, is followed by exactly one space and then the text of the arguments after it. */
  lemma ArgsTextSplit(args: seq<string>)
    ensures forall i :: 0 <= i < |args| ==>
      ArgsText(args) == ArgsText(args[..i]) + args[i] + " " + ArgsText(args[i + 1..])
  {
    forall i | 0 <= i < |args|
      ensures ArgsText(args) == ArgsText(args[..i]) + args[i] + " " + ArgsText(args[i + 1..])
    {
      ArgsTextAt(args, i);
    }
  }

  lemma ArgsTextAt(args: seq<string>, i: int)
    requires 0 <= i < |args|
    ensures ArgsText(args) == ArgsText(args[..i]) + args[i] + " " + ArgsText(args[i + 1..])
  {
    var pre, tail, post := args[..i], args[i..], args[i + 1..];
    ArgsTextTakeDrop(args, i);
    assert tail[0] == args[i] && tail[1..] == post;
    assert ArgsText(tail) == args[i] + " " + ArgsText(post);
    Associate(ArgsText(pre), args[i] + " ", ArgsText(post));
  }

  /**
   * Regrouping a concatenation, proved on its own over free variables: at the call site the
   * operands are large terms (argument texts, session output) and the same step, left to
   * the solver there, costs it far more.
   */
  lemma Associate(a: string, b: string, c: string)
    ensures a + (b + c) == a + b + c
  {
  }

  /** The formatted line: padded keyword, a space, and the arguments, in this order. */
  lemma FormatLayout(c: Command)
    ensures var w := if |c.keyword| < 12 then 12 else |c.keyword|;
      |Format(c)| == w + 1 + TotalLength(c.args) &&
      Format(c)[..w] == PadLeft(c.keyword, 12) &&
      Format(c)[w] == ' ' &&
      Format(c)[w + 1..] == ArgsText(c.args)
  {
    ArgsTextLayout(c.args);
  }
}
