/**
 * The interactive shell (src/shell.cpp): it prompts, reads a line, tokenizes it, asks
 * again while the keyword is not registered, dispatches the command and reports every
 * result other than SUCCESS on the error stream, until a command answers EXIT.
 *
 * Standard input is the list of lines not yet read; standard output is the list of
 * pieces written, in order; the error stream is the list of codes written. The
 * database is the list of flight rows it holds, which nothing dispatched here changes.
 *
 * The worked examples take their literal strings as parameters pinned by `requires`
 * rather than writing them in the statement, so that the verifier meets each literal
 * only where a step needs it instead of unfolding every one in every proof obligation.
 */
module Console {
  import opened Wrappers
  import opened Errors
  import opened Commands
  import opened Tokenizer
  import opened Registry
  import opened Flights
  import Handlers
  import opened Connection

  const Prompt: string := "air>"
  const InvalidCommand: string := "Invalid Command\n"

  /** What fetchCommand returns, the lines it leaves unread and what it writes. */
  datatype Fetched = Fetched(command: Option<Command>, remaining: seq<string>, printed: seq<string>)

  /** The prompt and complaint written for each line whose keyword is not registered. */
  function Rejections(n: nat): (r: seq<string>)
    ensures |r| == 2 * n
  {
    if n == 0 then [] else Rejections(n - 1) + [Prompt, InvalidCommand]
  }

  /**
   * fetchCommand: prompt, read a line, and return its command if the keyword is
   * registered; otherwise complain and read again. At the end of the input it gives up
   * after one more prompt.
   */
  function Fetch(lines: seq<string>): (r: Fetched)
    ensures r.command.Some? ==> r.command.value.keyword in CommandList && |r.remaining| < |lines|
    ensures r.command.None? ==> r.remaining == []
    decreases |lines|
  {
    if lines == [] then Fetched(None, [], [Prompt])
    else
      var c := Tokenize(lines[0]);
      if c.keyword in CommandList then Fetched(Some(c), lines[1..], [Prompt])
      else
        var r := Fetch(lines[1..]);
        Fetched(r.command, r.remaining, [Prompt, InvalidCommand] + r.printed)
  }

  /** Line k is the first whose keyword is registered. */
  predicate FirstRegistered(lines: seq<string>, k: int) {
    0 <= k < |lines| && Keyword(lines[k]) in CommandList &&
    forall j :: 0 <= j < k ==> Keyword(lines[j]) !in CommandList
  }

  /**
   * fetchCommand returns the tokenized first line with a registered keyword, leaves the
   * lines after it unread, and writes one prompt per line read plus one complaint per
   * line skipped.
   */
  lemma {:induction false} FetchFound(lines: seq<string>, k: int)
    requires FirstRegistered(lines, k)
    ensures Fetch(lines) == Fetched(Some(Tokenize(lines[k])), lines[k + 1..], Rejections(k) + [Prompt])
    decreases |lines|
  {
    if k > 0 {
      var t := lines[1..];
      assert forall j :: 0 <= j < |t| ==> t[j] == lines[j + 1];
      assert FirstRegistered(t, k - 1);
      FetchFound(t, k - 1);
      RejectionsCons(k - 1);
      assert t[k - 1..] == lines[k..];
    }
  }

  /** With no line whose keyword is registered, fetchCommand consumes the whole input. */
  lemma {:induction false} FetchExhausted(lines: seq<string>)
    requires forall j :: 0 <= j < |lines| ==> Keyword(lines[j]) !in CommandList
    ensures Fetch(lines) == Fetched(None, [], Rejections(|lines|) + [Prompt])
    decreases |lines|
  {
    if lines != [] {
      var t := lines[1..];
      assert forall j :: 0 <= j < |t| ==> t[j] == lines[j + 1];
      assert Keyword(lines[0]) !in CommandList;
      FetchExhausted(t);
      RejectionsCons(|t|);
    }
  }

  lemma {:induction false} RejectionsCons(n: nat)
    ensures Rejections(n + 1) == [Prompt, InvalidCommand] + Rejections(n)
    decreases n
  {
    if n > 0 {
      RejectionsCons(n - 1);
    }
  }

  /** Every argument fetchCommand returns is a non-empty run without spaces. */
  lemma FetchArgsAreWords(lines: seq<string>)
    ensures Fetch(lines).command.Some? ==>
      forall i :: 0 <= i < |Fetch(lines).command.value.args| ==> IsArg(Fetch(lines).command.value.args[i])
    decreases |lines|
  {
    if lines != [] {
      ArgsAreWords(Rest(lines[0]));
      FetchArgsAreWords(lines[1..]);
    }
  }

  /** Each help line as written, followed by a newline. */
  function Terminated(lines: seq<string>): (r: seq<string>)
    ensures |r| == |lines| && forall i :: 0 <= i < |lines| ==> r[i] == lines[i] + "\n"
  {
    if lines == [] then [] else Terminated(lines[..|lines| - 1]) + [lines[|lines| - 1] + "\n"]
  }

  /** executeCommand: the code it returns and what it writes. */
  function Execute(c: Command, store: seq<FlightRow>): (ErrorCode, seq<string>)
    requires c.keyword in CommandList
  {
    match CommandList[c.keyword]
    case OpExit => (Exit, [])
    case OpHelp => (Success, Terminated(HelpLines(KeyOrder, CommandHelp)))
    case OpStatus => (Handlers.Status(c.args, store).0, [])
    case _ => (BadCmd, [])
  }

  /**
   * Of the registered keywords, exit ends the session, help writes the twelve help
   * lines in key order and succeeds, status answers as the status handler does, and
   * every other keyword answers BADCMD; nothing dispatched answers DBERROR.
   */
  lemma ExecuteSpec(c: Command, store: seq<FlightRow>)
    requires c.keyword in CommandList
    ensures Execute(c, store).0 == Exit <==> c.keyword == "exit"
    ensures Execute(c, store).0 == BadCmd <==> c.keyword !in {"exit", "help", "status"}
    ensures Execute(c, store).0 != DbError
    ensures c.keyword == "help" ==>
      Execute(c, store).0 == Success && |Execute(c, store).1| == 12 &&
      forall i :: 0 <= i < 12 ==> Execute(c, store).1[i] == CommandHelp[HelpOrder[i]] + "\n"
    ensures c.keyword == "status" ==> Execute(c, store).0 == Handlers.Status(c.args, store).0
    ensures c.keyword != "help" ==> Execute(c, store).1 == []
  {
    DispatchIds(c.keyword);
    if c.keyword == "help" {
      HelpListing();
    }
  }

  /** The codes a session's commands returned, what it wrote, what it left unread, and whether it ended by EXIT. */
  datatype SessionResult = SessionResult(codes: seq<ErrorCode>, printed: seq<string>, remaining: seq<string>, exited: bool)

  /** start: fetch and execute commands until one answers EXIT or the input runs out. */
  function Session(lines: seq<string>, store: seq<FlightRow>): SessionResult
    decreases |lines|
  {
    var f := Fetch(lines);
    match f.command
    case None => SessionResult([], f.printed, [], false)
    case Some(c) =>
      var (code, out) := Execute(c, store);
      if code == Exit then SessionResult([Exit], f.printed + out, f.remaining, true)
      else
        var rest := Session(f.remaining, store);
        SessionResult([code] + rest.codes, f.printed + out + rest.printed, rest.remaining, rest.exited)
  }

  /** What start writes on the error stream: the value of every code other than SUCCESS. */
  function Reported(codes: seq<ErrorCode>): (r: seq<int>)
    ensures |r| <= |codes|
  {
    if codes == [] then []
    else (if codes[0] != Success then [codes[0].ToInt()] else []) + Reported(codes[1..])
  }

  /** A session runs at most one command per line, never answers DBERROR, and reads its whole input unless it exits. */
  lemma {:induction false} SessionBounds(lines: seq<string>, store: seq<FlightRow>)
    ensures var s := Session(lines, store);
      |s.codes| <= |lines| &&
      (forall i :: 0 <= i < |s.codes| ==> s.codes[i] != DbError) &&
      (!s.exited ==> s.remaining == [])
    decreases |lines|
  {
    var f := Fetch(lines);
    if f.command.None? {
      SessionEnd(lines, store);
    } else {
      var c := f.command.value;
      ExecuteSpec(c, store);
      var (code, printed) := Execute(c, store);
      SessionStep(lines, store, code, printed);
      if code != Exit {
        var rest := Session(f.remaining, store);
        SessionBounds(f.remaining, store);
        NoDbErrorCons(code, rest.codes);
      }
    }
  }

  lemma NoDbErrorCons(code: ErrorCode, rest: seq<ErrorCode>)
    requires code != DbError && forall i :: 0 <= i < |rest| ==> rest[i] != DbError
    ensures forall i :: 0 <= i < |[code] + rest| ==> ([code] + rest)[i] != DbError
  {
    var codes := [code] + rest;
    assert forall i :: 0 < i < |codes| ==> codes[i] == rest[i - 1];
  }

  /**
   * The codes of a session, as they stand on whether it ended by EXIT: EXIT is the last
   * code then and appears nowhere else, and 0, the value of EXIT, reaches the error
   * stream exactly then.
   */
  predicate ExitShape(codes: seq<ErrorCode>, exited: bool) {
    (exited <==> |codes| > 0 && codes[|codes| - 1] == Exit) &&
    (forall i :: 0 <= i < |codes| - 1 ==> codes[i] != Exit) &&
    (0 in Reported(codes) <==> exited)
  }

  lemma ExitShapeCons(code: ErrorCode, rest: seq<ErrorCode>, exited: bool)
    requires code != Exit && ExitShape(rest, exited)
    ensures ExitShape([code] + rest, exited)
  {
    var codes := [code] + rest;
    assert forall i :: 0 < i < |codes| ==> codes[i] == rest[i - 1];
    assert codes[1..] == rest;
    assert code.ToInt() != 0;
  }

  /**
   * A session ends by EXIT exactly when its last code is EXIT, and no earlier command
   * answered EXIT; the error stream shows 0, the value of EXIT, exactly when the session
   * ended by EXIT.
   */
  lemma {:induction false} SessionExit(lines: seq<string>, store: seq<FlightRow>)
    ensures ExitShape(Session(lines, store).codes, Session(lines, store).exited)
    decreases |lines|
  {
    var f := Fetch(lines);
    if f.command.None? {
      SessionEnd(lines, store);
    } else {
      var c := f.command.value;
      var (code, printed) := Execute(c, store);
      SessionStep(lines, store, code, printed);
      if code == Exit {
        assert Reported([Exit]) == [0] + Reported([]);
      } else {
        var rest := Session(f.remaining, store);
        SessionExit(f.remaining, store);
        ExitShapeCons(code, rest.codes, rest.exited);
      }
    }
  }

  /** At the end of the input a session stops without running a command. */
  lemma SessionEnd(lines: seq<string>, store: seq<FlightRow>)
    requires Fetch(lines).command.None?
    ensures Session(lines, store) == SessionResult([], Fetch(lines).printed, [], false)
  {
  }

  /** A line holding one word is the command of that word with no arguments. */
  lemma WordLine(w: string)
    requires IsKeyword(w)
    ensures Tokenize(w) == Command(w, [])
  {
    TokenizeJoin(w, []);
  }

  /**
   * An unregistered word is refused at the prompt, a registered keyword with no handler
   * answers BADCMD (3), exit answers EXIT (0) and ends the session with the next line
   * unread; both codes reach the error stream, EXIT included.
   */
  lemma SessionExample(lines: seq<string>, store: seq<FlightRow>, w0: string, w1: string, w2: string, w3: string)
    requires w0 == "frobnicate" && w1 == "list" && w2 == "exit" && w3 == "help"
    requires lines == [w0, w1, w2, w3]
    ensures Session(lines, store) == SessionResult([BadCmd, Exit], [Prompt, InvalidCommand, Prompt, Prompt], [w3], true)
    ensures Reported(Session(lines, store).codes) == [3, 0]
  {
    ExampleFetches(lines, w0, w1, w2, w3);
    ExampleCodes(store, w1, w2);
    ExampleExit(store, w2, w3);
    SessionStep(lines, store, BadCmd, []);
    var f := Fetch(lines);
    var rest := Session(f.remaining, store);
    assert f.printed + [] + rest.printed == [Prompt, InvalidCommand, Prompt, Prompt] by {
      Concat3And1(Prompt, InvalidCommand, Prompt, Prompt);
    }
    ExampleReported();
  }

  lemma ExampleReported()
    ensures Reported([BadCmd, Exit]) == [3, 0]
  {
    assert Reported([Exit]) == [0] + Reported([]);
    assert Reported([BadCmd, Exit]) == [3] + Reported([Exit]);
  }

  /**
   * Appending one code to three, proved on free variables so that the example session's
   * proof does not redo this sequence reasoning beside its literal strings.
   */
  lemma Concat3And1<T>(a: T, b: T, c: T, d: T)
    ensures [a, b, c] + [] + [d] == [a, b, c, d]
  {
  }

  lemma ExampleFetches(lines: seq<string>, w0: string, w1: string, w2: string, w3: string)
    requires w0 == "frobnicate" && w1 == "list" && w2 == "exit" && w3 == "help"
    requires lines == [w0, w1, w2, w3]
    ensures Fetch(lines) == Fetched(Some(Command(w1, [])), [w2, w3], [Prompt, InvalidCommand, Prompt])
    ensures Fetch([w2, w3]) == Fetched(Some(Command(w2, [])), [w3], [Prompt])
  {
    ExampleRefused(w0);
    ExampleRegistered(w1);
    ExampleRegistered(w2);
    assert FirstRegistered(lines, 1);
    FetchFound(lines, 1);
    assert lines[2..] == [w2, w3];
    assert FirstRegistered([w2, w3], 0);
    FetchFound([w2, w3], 0);
  }

  lemma ExampleRefused(w: string)
    requires w == "frobnicate"
    ensures Keyword(w) == w && w !in CommandList
  {
    WordLine(w);
  }

  lemma ExampleRegistered(w: string)
    requires w == "list" || w == "exit"
    ensures Tokenize(w) == Command(w, []) && w in CommandList
  {
    WordLine(w);
  }

  lemma ExampleExit(store: seq<FlightRow>, w2: string, w3: string)
    requires w2 == "exit" && w3 == "help"
    ensures Session([w2, w3], store) == SessionResult([Exit], [Prompt], [w3], true)
  {
    ExampleRegistered(w2);
    assert FirstRegistered([w2, w3], 0);
    FetchFound([w2, w3], 0);
    ExampleCodes(store, "list", w2);
    SessionStep([w2, w3], store, Exit, []);
  }

  lemma ExampleCodes(store: seq<FlightRow>, w1: string, w2: string)
    requires w1 == "list" && w2 == "exit"
    ensures Execute(Command(w1, []), store) == (BadCmd, [])
    ensures Execute(Command(w2, []), store) == (Exit, [])
  {
    ExecuteSpec(Command(w1, []), store);
    ExecuteSpec(Command(w2, []), store);
  }

  /** The shell: whether it still runs, its credentials, the database and its three streams. */
  class Shell {
    var running: bool
    const api: Api
    const store: seq<FlightRow>
    var input: seq<string>
    var output: seq<string>
    var errors: seq<int>

    /** A running shell over the given credentials, database and input. */
    constructor(api: Api, store: seq<FlightRow>, input: seq<string>)
      ensures running && this.api == api && this.store == store && this.input == input
      ensures output == [] && errors == []
    {
      running := true;
      this.api := api;
      this.store := store;
      this.input := input;
      output := [];
      errors := [];
    }

    /** Prompts and reads lines until one has a registered keyword. */
    method FetchCommand() returns (c: Option<Command>)
      modifies this
      ensures c == Fetch(old(input)).command
      ensures input == Fetch(old(input)).remaining
      ensures output == old(output) + Fetch(old(input)).printed
      ensures running == old(running) && errors == old(errors)
    {
      ghost var lines := input;
      ghost var start := output;
      ghost var k: nat := 0;
      while true
        invariant k <= |lines| && input == lines[k..] && output == start + Rejections(k)
        invariant forall j :: 0 <= j < k ==> Keyword(lines[j]) !in CommandList
        invariant running == old(running) && errors == old(errors)
        decreases |input|
      {
        output := output + [Prompt];
        if input == [] {
          FetchExhausted(lines);
          return None;
        }
        var line := input[0];
        input := input[1..];
        var keyword := Keyword(line);
        if keyword in CommandList {
          var args := SplitArgs(Rest(line));
          FetchFound(lines, k);
          return Some(Command(keyword, args));
        }
        output := output + [InvalidCommand];
        k := k + 1;
      }
    }

    /** Dispatches a command whose keyword is registered. */
    method ExecuteCommand(c: Command) returns (code: ErrorCode)
      requires c.keyword in CommandList
      modifies this
      ensures code == Execute(c, store).0
      ensures output == old(output) + Execute(c, store).1
      ensures running == old(running) && input == old(input) && errors == old(errors)
    {
      match CommandList[c.keyword]
      case OpExit =>
        code := Exit;
      case OpHelp =>
        var lines;
        lines, code := Help();
        var i := 0;
        while i < |lines|
          invariant 0 <= i <= |lines|
          invariant output == old(output) + Terminated(lines[..i])
          invariant running == old(running) && input == old(input) && errors == old(errors)
        {
          assert lines[..i + 1][..i] == lines[..i];
          output := output + [lines[i] + "\n"];
          i := i + 1;
        }
        assert lines[..i] == lines;
      case OpStatus =>
        code := Handlers.Status(c.args, store).0;
      case _ =>
        code := BadCmd;
    }

    /** Runs commands until one answers EXIT, writing each code other than SUCCESS to the error stream. */
    method Start()
      modifies this
      ensures old(running) ==>
        var s := Session(old(input), store);
        output == old(output) + s.printed && errors == old(errors) + Reported(s.codes) &&
        input == s.remaining && running == !s.exited
      ensures !old(running) ==> output == old(output) && errors == old(errors) && input == old(input) && !running
    {
      if !running {
        return;
      }
      ghost var lines := input;
      ghost var s := Session(lines, store);
      ghost var out0 := output;
      ghost var err0 := errors;
      while running
        invariant running ==>
          output + Session(input, store).printed == out0 + s.printed &&
          errors + Reported(Session(input, store).codes) == err0 + Reported(s.codes) &&
          Session(input, store).remaining == s.remaining && Session(input, store).exited == s.exited
        invariant !running ==>
          output == out0 + s.printed && errors == err0 + Reported(s.codes) && input == s.remaining && s.exited
        decreases |input|
      {
        ghost var before := input;
        ghost var outBefore := output;
        ghost var errBefore := errors;
        var cmd := FetchCommand();
        if cmd.None? {
          break;
        }
        var code := ExecuteCommand(cmd.value);
        if code == Exit {
          running := false;
        }
        if code != Success {
          errors := errors + [code.ToInt()];
        }
        ghost var printed := Execute(cmd.value, store).1;
        if code == Exit {
          StartLastStep(s, out0, err0, before, outBefore, errBefore, printed, store);
        } else {
          StartStep(s, out0, err0, before, outBefore, errBefore, code, printed, store);
        }
      }
    }
  }

  /** The loop invariant of start, carried over a turn that does not end the session. */
  lemma StartStep(
    s: SessionResult, out0: seq<string>, err0: seq<int>,
    before: seq<string>, outBefore: seq<string>, errBefore: seq<int>,
    code: ErrorCode, printed: seq<string>, store: seq<FlightRow>)
    requires Fetch(before).command.Some?
    requires (code, printed) == Execute(Fetch(before).command.value, store) && code != Exit
    requires outBefore + Session(before, store).printed == out0 + s.printed
    requires errBefore + Reported(Session(before, store).codes) == err0 + Reported(s.codes)
    requires Session(before, store).remaining == s.remaining && Session(before, store).exited == s.exited
    ensures var rest := Session(Fetch(before).remaining, store);
      var errors := if code != Success then errBefore + [code.ToInt()] else errBefore;
      (outBefore + Fetch(before).printed + printed) + rest.printed == out0 + s.printed &&
      errors + Reported(rest.codes) == err0 + Reported(s.codes) &&
      rest.remaining == s.remaining && rest.exited == s.exited
  {
    SessionStep(before, store, code, printed);
    var f := Fetch(before);
    var rest := Session(f.remaining, store);
    Regroup(outBefore, f.printed, printed, rest.printed);
    var reported := if code != Success then [code.ToInt()] else [];
    Regroup(errBefore, [], reported, Reported(rest.codes));
  }

  /** The loop invariant of start, turned into its result by a turn that ends the session. */
  lemma StartLastStep(
    s: SessionResult, out0: seq<string>, err0: seq<int>,
    before: seq<string>, outBefore: seq<string>, errBefore: seq<int>,
    printed: seq<string>, store: seq<FlightRow>)
    requires Fetch(before).command.Some?
    requires (Exit, printed) == Execute(Fetch(before).command.value, store)
    requires outBefore + Session(before, store).printed == out0 + s.printed
    requires errBefore + Reported(Session(before, store).codes) == err0 + Reported(s.codes)
    requires Session(before, store).remaining == s.remaining && Session(before, store).exited == s.exited
    ensures outBefore + Fetch(before).printed + printed == out0 + s.printed
    ensures errBefore + [Exit.ToInt()] == err0 + Reported(s.codes)
    ensures Fetch(before).remaining == s.remaining && s.exited
  {
    SessionStep(before, store, Exit, printed);
    var f := Fetch(before);
    Regroup(outBefore, f.printed, printed, []);
  }

  /**
   * Regrouping a concatenation, proved on its own over free variables: at the call site the
   * operands are large terms (argument texts, session output) and the same step, left to
   * the solver there, costs it far more.
   */
  lemma Regroup<T>(a: seq<T>, b: seq<T>, c: seq<T>, d: seq<T>)
    ensures a + (b + c + d) == (a + b + c) + d
  {
  }

  /** One turn of start, stated on values. */
  lemma SessionStep(lines: seq<string>, store: seq<FlightRow>, code: ErrorCode, printed: seq<string>)
    requires Fetch(lines).command.Some?
    requires (code, printed) == Execute(Fetch(lines).command.value, store)
    ensures var f := Fetch(lines);
      var s := Session(lines, store);
      var reported := if code != Success then [code.ToInt()] else [];
      if code == Exit then
        s.codes == [Exit] && s.printed == f.printed + printed && Reported(s.codes) == reported &&
        s.remaining == f.remaining && s.exited
      else
        var rest := Session(f.remaining, store);
        s.codes == [code] + rest.codes && s.printed == f.printed + printed + rest.printed &&
        Reported(s.codes) == reported + Reported(rest.codes) &&
        s.remaining == rest.remaining && s.exited == rest.exited
  {
    var f := Fetch(lines);
    if code == Exit {
      assert Reported([Exit]) == [Exit.ToInt()] + Reported([]);
    } else {
      var rest := Session(f.remaining, store);
      assert ([code] + rest.codes)[1..] == rest.codes;
    }
  }
}
