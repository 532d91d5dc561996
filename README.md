# Airport flight console, front end

A Dafny model of the command front end of a small airport-operations console (C++, PostgreSQL through libpq/pqxx). An operator logs in, then types commands at an `air>` prompt. The shell does the following:

- splits each line into a keyword and arguments;
- refuses keywords that are not registered;
- dispatches `exit`, `help` and `status`, and answers BADCMD to every other registered keyword;
- writes every result other than SUCCESS to the error stream;
- stops on EXIT.

The model covers:

- the argument validators, written as character-class predicates instead of regular expressions;
- the two command tables and the `help` listing in key order;
- the checks that `status`, `create`, `changeStatus` and `passengers` make before they touch the database, and the gate split;
- the bounded passenger-count update;
- the `Command` value and its debug formatter;
- the tokenizer, the dispatcher and the shell loop, as a class whose fields are the running flag, the credentials, the database and the three streams;
- the connection string.

The database is a value: the list of flight rows it holds, each with its number, status, passenger count and the capacity of its airplane type. The flight-number check asks the database to count active flights. Active means neither Arrived nor Cancelled. That count is either a parameter or a function of the rows.

Modules: `Wrappers` (Option), `Errors` (result codes), `Validators`, `Flights` (statuses, rows, active count), `Commands`, `Tokenizer`, `Registry` (command tables, `help`), `Handlers`, `Connection`, `Console` (the `Shell` class).

Two behaviours of the code are worth noting:

- The tokenizer has no quote handling: a quoted date-time becomes two arguments, with the quotes kept. `Tokenizer.NoQuoteHandling` shows this.
- `commandList` registers no cargo commands: neither `addCargo` nor `checkCargo` is a keyword, and `help` lists neither.

## Model

Each row names the member whose contract states the property. The operations that only compute a value (`Handlers.Status`, `Console.Execute`, `Console.Session`, `Tokenizer.Tokenize`, `Commands.Format`, the `Validators.IsValid…` predicates) are covered by the rows of the lemmas about them: `StatusSpec`, `ExecuteSpec`, `SessionBounds`/`SessionExit`, `TokenizeJoin`/`TokenizeFormat`, `FormatLayout` and the validators' `…Spec` lemmas.

| member | source | states |
|---|---|---|
| Errors.ErrorCode.ToInt | inc/error.h:9-13 | the codes are 0..4; EXIT alone is 0 and SUCCESS alone is 1 |
| Errors.FromInt | inc/error.h:9-13 | exactly the integers 0..4 name a code |
| Errors.CodeRoundTrip | inc/error.h:9-13 | code to integer and back gives the code; an integer that names a code is that code's value |
| Validators.FlightNumSpec | src/operation.cpp:5-21 | a flight number is valid iff it is 4 to 6 characters long, two upper-case letters and then digits, AND exactly one active flight holds it |
| Validators.DateTimeSpec | src/operation.cpp:23-26 | a date-time is valid iff it has 19 characters, with '-', '-', ' ', ':', ':' at positions 4, 7, 10, 13, 16 and digits everywhere else |
| Validators.DateTimeAcceptsOutOfRange | src/operation.cpp:23-26 | the shape is the only check: "2021-99-99 99:99:99" passes, and an ISO 'T' separator fails |
| Validators.TimeSpec | src/operation.cpp:27-30 | a time is valid iff hour ≤ 23, minute ≤ 59 and second ≤ 59, each two digits, optionally followed by '.' and 1-3 digits, so its length is 8 or 10-12 |
| Validators.TimeExamples | src/operation.cpp:27-30 | 24:00:00, 12:60:00 and a bare trailing '.' are refused; 23:59:59.999 and 00:30:00 are accepted |
| Validators.ICAOSpec | src/operation.cpp:31-34 | an ICAO code is valid iff it is exactly four upper-case letters |
| Validators.GateSpec | src/operation.cpp:35-38 | a gate is valid iff it is an upper-case letter followed by one or more digits |
| Validators.FreeTextSpec | src/operation.cpp:39-50 | airline and city names are exactly the non-empty strings of letters and spaces; airplane types may also hold digits, so every valid airline is a valid airplane |
| Validators.AirplaneWiderThanAirline | src/operation.cpp:39-46 | "Boeing 787" is a valid airplane type but not a valid airline |
| Flights.StatusRoundTrip | src/operation.cpp:642 | a status text is accepted iff it is exactly one of the seven names, and it then reads back as that status |
| Flights.ActiveCount | src/operation.cpp:12-21 | the active-flight count of a number never exceeds the number of rows |
| Flights.ActiveCountZero | src/operation.cpp:12-21 | the count is 0 iff no flight that is neither Arrived nor Cancelled holds the number |
| Flights.ActiveCountOne | src/operation.cpp:12-21 | a count of 1 means exactly one active flight holds the number |
| Flights.ActiveCountOneConverse | src/operation.cpp:12-21 | exactly one active flight holding the number makes the count 1 |
| Commands.ConstructorGetters | src/command.cpp:8-31 | getCommand returns the constructor's keyword; getArgs returns its arguments, same length and order |
| Commands.CopyAndDefault | src/command.cpp:6-14 | a copy has the same keyword and arguments; the default command has an empty keyword and no arguments |
| Commands.PadLeft | src/command.cpp:18 | setw right-aligns: the result is as wide as the field or the text, ends with the text and is spaces before it |
| Commands.ArgsTextLayout | src/command.cpp:19-21 | the argument text is as long as the arguments plus one space each, ends with a space, and starts with the first argument and a space |
| Commands.ArgsTextTakeDrop | src/command.cpp:19-21 | the text of a list is the text of its first i arguments followed by the text of the rest |
| Commands.ArgsTextSplit | src/command.cpp:19-21 | every argument, wherever it stands, is followed by exactly one space and then the text of the arguments after it |
| Commands.FormatLayout | src/command.cpp:17-23 | the debug line is the padded keyword, then one space, then the argument text |
| Tokenizer.SkipSpacesSpec | src/shell.cpp:29 | `>>` skips exactly the whitespace before the keyword: every skipped character is whitespace, and the one it stops at is not |
| Tokenizer.SkipWordSpec | src/shell.cpp:29 | `>>` takes the maximal run of non-whitespace: every character taken is not whitespace, and the one it stops at is |
| Tokenizer.KeywordSpec | src/shell.cpp:28-29 | the line is leading whitespace, then a keyword with no whitespace, then a rest that is empty or starts with whitespace; the keyword is empty iff the line is blank |
| Tokenizer.ArgsAreWords | src/shell.cpp:35-37 | no argument is empty, "\n", or contains a space |
| Tokenizer.ArgsOfJoin | src/shell.cpp:33-38 | splitting words joined by single spaces gives the same words back, in order |
| Tokenizer.TokenizeJoin | src/shell.cpp:25-38 | a line with no leading whitespace and single spaces between tokens tokenizes into those tokens, and rejoining them gives the line |
| Tokenizer.TokenizeFormat | src/command.cpp:17-23 | tokenizing a command's debug line gives the command back, whatever the padding |
| Tokenizer.FormatParts | src/command.cpp:17-23 | the debug line is its whitespace padding, the keyword, and a space before the argument text |
| Tokenizer.SplitArgs | src/shell.cpp:33-38 | the getline loop gives the rest of the line cut at single spaces, with the empty and "\n" pieces dropped |
| Tokenizer.NoQuoteHandling | src/shell.cpp:35-37 | a quoted date-time is two arguments, and the quotes are kept |
| Registry.KeyOrderIsMapOrder | src/operation.cpp:57-71 | the order in which help visits commandList is the one strictly ascending list of its 13 keys |
| Registry.HelpLinesSpec | src/operation.cpp:91-100 | help prints, in visiting order, exactly the help text of each visited key that has one |
| Registry.Help | src/operation.cpp:91-100 | help returns SUCCESS, and its lines are the help texts of commandList's keys in ascending key order |
| Registry.HelpKeysRegistered | src/operation.cpp:57-87 | every key with a help text is registered, and every registered key except "create" has one |
| Registry.DispatchIds | src/operation.cpp:57-71 | of the registered keywords, exit, help and status, and only they, map to the EXIT, HELP and STATUS operation ids |
| Registry.HelpListing | src/operation.cpp:57-100 | help prints twelve lines, the help texts in ascending key order; "create" is registered but has no line |
| Handlers.GateSplitSpec | src/operation.cpp:177-178 | a valid gate splits into an upper-case terminal letter and a non-empty all-digit gate number that concatenate back to the gate; every such pair makes a valid gate that splits into that pair |
| Handlers.FindActive | src/operation.cpp:116-144 | the lookup finds an active row with the number, or there is none |
| Handlers.StatusSpec | src/operation.cpp:106-152 | status returns SUCCESS iff its first argument is well formed and exactly one active flight holds it, and then reports that flight; otherwise BADARGS; never DBERROR |
| Handlers.PassesBeforeSpec | src/operation.cpp:157-176 | the checks before a given one are exactly those of smaller order, and all of create's checks pass iff the last one and those before it do |
| Handlers.CreateChecks | src/operation.cpp:157-176 | create rejects at the first failing check, in this order: no arguments, flight number, either date-time, gate, airplane, either ICAO code, airline; it accepts iff all pass, with the fields in order and the gate split |
| Handlers.CreateCheckAsWritten | src/operation.cpp:164 | as written, create accepts a flight number only when exactly one active flight already holds it |
| Handlers.CreateCheck | src/operation.cpp:157-178 | create accepts a flight number only when it is well formed and no active flight holds it |
| Handlers.Create | src/operation.cpp:157-178 | reading the arguments one position at a time and returning at the first failure gives the verdict of the checks, for the flight-number verdict passed in: with isValidFlightNum's verdict it is the handler as written (CreateCheckAsWritten), with the corrected rule it is CreateCheck |
| Handlers.CreateRejectsFreshNumber | src/operation.cpp:164 | as written, with every other field valid, create refuses a number no active flight holds and accepts one an active flight already holds |
| Handlers.CreateFreshNumberExample | src/operation.cpp:157-176 | a fully valid create for an unused number AA1234 is refused at the flight-number check |
| Handlers.CreateCheckSpec | src/operation.cpp:157-176 | with every other field valid, create goes ahead iff the number is well formed and unused; an active holder makes it fail at the flight number |
| Handlers.TokenizedCreateRejected | src/operation.cpp:165-167 | no argument from the shell holds a space, so none is a date-time, and create never gets past its date-time check |
| Handlers.ChangeStatusCheck | src/operation.cpp:633-642 | changeStatus goes ahead iff it has at least two arguments, a valid flight number and a new status that is exactly one of the seven names; the status it takes is the one named |
| Handlers.TokenizedNeverInTransit | src/operation.cpp:641-642 | from the shell, changeStatus never accepts "In Transit", which holds a space |
| Handlers.ParseDelta | src/operation.cpp:578-600 | a delta the store accepts is a 32-bit integer |
| Handlers.DeltaRoundTrip | src/operation.cpp:578-600 | every 32-bit delta written with its sign is read back as itself |
| Handlers.UpdatedSpec | src/operation.cpp:583-588 | the update adds delta to exactly the rows it targets and leaves every other row alone; if it affects no row, nothing changes |
| Handlers.UpdateKeepsCapacity | src/operation.cpp:585-587 | if every count lies in 0 ≤ n < capacity, it still does after the update |
| Handlers.ActiveUpdateSpec | src/operation.cpp:585-587 | restricted to active flights, and with exactly one active flight holding the number, the update affects that flight iff its new count is in bounds, and otherwise nothing |
| Handlers.ExecUpdate | src/operation.cpp:583-600 | one pass over the rows produces the updated rows and the number of affected rows |
| Handlers.PassengersWith | src/operation.cpp:570-629 | BADARGS iff there are not exactly two arguments or the number is invalid; the update is kept iff the delta parses and exactly one row is in bounds (`Commits`), and nothing changes otherwise; SUCCESS iff it is kept and the count read afterwards succeeds; a failed read after the commit gives DBERROR with the update still in place |
| Handlers.PassengersAsWritten | src/operation.cpp:570-629 | the same, with the update's filter matching a flight of any status |
| Handlers.Passengers | src/operation.cpp:570-629 | the same, with the update restricted to active flights |
| Handlers.PassengersSpec | src/operation.cpp:583-613 | for a valid number, the update succeeds iff the active flight's new count n + delta satisfies 0 < n + delta < capacity, and then only that flight's count changes |
| Handlers.PassengersUpdatesArrivedFlight | src/operation.cpp:585-587 | as written, with a full active AA1234 and an Arrived AA1234 below capacity, one row is affected and it is the Arrived flight's count that moves |
| Connection.ConnectionString | src/api.cpp:15-19 | the string starts with the fixed host, port, database and timeout settings, whatever the credentials, and ends with the password |
| Connection.ParseConnection | src/api.cpp:15-19 | credentials read back from a connection string come after the fixed prefix, with a user that holds no space |
| Connection.ConnectionRoundTrip | src/api.cpp:15-19 | for a user with no space, reading the connection string back gives exactly the credentials it was built from |
| Connection.CopyConnects | src/api.cpp:12-13 | a copy has the same credentials and connects with the same string |
| Connection.UnquotedCredentialsCollide | src/api.cpp:15-19 | nothing is quoted, so two different credential pairs can give the same string when the user holds " password=" |
| Console.Fetch | src/shell.cpp:15-50 | a fetched command always has a registered keyword and consumes at least one line |
| Console.FetchFound | src/shell.cpp:19-45 | fetchCommand returns the tokenized first line with a registered keyword, leaves the later lines unread, and writes a prompt per line read and "Invalid Command" per line skipped |
| Console.FetchExhausted | src/shell.cpp:19-45 | with no registered keyword in the input, fetchCommand reads every line, refusing each, and returns no command |
| Console.FetchArgsAreWords | src/shell.cpp:33-38 | every argument of a fetched command is non-empty and has no space |
| Console.ExecuteSpec | src/shell.cpp:52-67 | exit gives EXIT, help gives SUCCESS and the twelve help lines, status gives the status handler's code, and every other registered keyword gives BADCMD; never DBERROR (every row joins; see Handlers.StatusSpec under Left out) |
| Console.SessionBounds | src/shell.cpp:5-13 | a session runs at most one command per line, no command answers DBERROR, and unless it ends by EXIT it reads the whole input (every row joins; see Handlers.StatusSpec under Left out) |
| Console.SessionExit | src/shell.cpp:5-13 | the session ends by EXIT iff its last code is EXIT, no earlier command answered EXIT, and the error stream shows 0 iff the session ended by EXIT |
| Console.SessionEnd | src/shell.cpp:5-13 | at the end of the input the session stops without running a command |
| Console.SessionExample | src/shell.cpp:5-50 | "frobnicate", "list", "exit", "help": the first is refused, list answers 3, exit answers 0, both codes reach the error stream, and "help" is left unread |
| Console.Shell.constructor | src/shell.cpp:3 | a new shell is running, with the given credentials and empty output streams |
| Console.Shell.FetchCommand | src/shell.cpp:15-50 | the prompt-read-retry loop returns what Fetch describes, consumes the lines it read and appends what it wrote |
| Console.Shell.ExecuteCommand | src/shell.cpp:52-67 | dispatch returns the code of Execute and appends the help text for help |
| Console.Shell.Start | src/shell.cpp:5-13 | the loop runs the whole session: output and error stream extended by the session's, running false exactly when it ended by EXIT |

## Left out

- The database and libpq (`API::begin`, every `prepare`, `exec_prepared` and `commit`, and the SQL text). They are foreign code. The rows the console depends on are a parameter. Failures of the connection itself are not modelled.
- `Shell::login` (src/shell.cpp:69-78) reads the credentials interactively. The model gives them to the constructor.
- Everything written about a flight: the `status` report, the passengers count line, the `changeStatus` echo, and the `create` reply. These only render database rows.
- What `create` and `changeStatus` do after their checks (the INSERT and the status UPDATE). This is database work. `create` stops at the validated `NewFlight`.
- The `create` reply reads the `result` declared at line 199. The INSERT's own result is declared inside the `try` at line 203 and shadows it, so it is never read. This happens after the store access, so the model does not cover it.
- The handlers `depart`, `arrive`, `delay`, `list`, `meals`, `mealTypes`, `changeDestination`, `addCargo` and `checkCargo`. `executeCommand` dispatches none of them: each registered one answers BADCMD, which is modelled. Their bodies are queries and rendering.
- Console.Fetch: at the end of the input, the source keeps prompting and printing "Invalid Command" without end. The model writes one prompt, returns nothing, and `Start` returns with `running` still true.
- Handlers.StatusSpec: assumes that every flight row joins to its gate, airplane, airline and locations. A row without one of these would make the lookup fail with DBERROR, and the model has no such rows.
- Handlers.ParseDelta: reads the delta as an optional sign, then decimal digits, in the 32-bit range. The store's integer input also tolerates leading and trailing whitespace, such as a tab left in an argument, and newer versions accept further spellings.
- Handlers.Passengers: the count arithmetic is unbounded. In the store, `num_passengers + delta` beyond 32 bits raises an error, which would be DBERROR.
- `LIKE 'Arrived'` and `LIKE 'Cancelled'` contain no wildcard, so they are modelled as equality of the status.
- `std::setw` pads by bytes and Commands.PadLeft by characters, so they would differ on a non-ASCII keyword. Every keyword that reaches the formatter from the shell is a registered ASCII name, so this does not arise in the modelled paths.
- Codes on the error stream are written with no separator. The model keeps them as a list of integers.
- The declarations in inc/ that disagree with the .cpp files. The model follows the .cpp files.
- src/main.cpp and src/test.cpp, which are connection smoke tests.

## Findings

| source | as written | input that shows it | evidently intended | confidence | as-written member | corrected member |
|---|---|---|---|---|---|---|
| src/operation.cpp:164 | `create` checks the new number with `isValidFlightNum`, which requires exactly one active flight to hold it already | `create AA1234 …` with every field valid and no active AA1234 gives BADARGS (Handlers.CreateFreshNumberExample) | accept a well-formed number that no active flight holds | high, not executed | Handlers.CreateCheckAsWritten | Handlers.CreateCheck |
| src/operation.cpp:585-587 | the passengers UPDATE matches every flight with the number, Arrived and Cancelled included | Arrived AA1234 at 10/100 and Boarding AA1234 at 99/100, then `passengers AA1234 +1`: SUCCESS, and the Arrived flight goes to 11 (Handlers.PassengersUpdatesArrivedFlight) | update only the active flight, which is the one the duplicate check and the status lookup select | medium, not executed | Handlers.PassengersAsWritten | Handlers.Passengers |
