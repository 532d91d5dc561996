/**
 * The operation handlers' work before and around the store (src/operation.cpp):
 * the argument checks of status, create, changeStatus and passengers, the gate split,
 * and the bounded passenger update. The store is a value: the rows it holds.
 *
 * The worked examples take their literal strings as parameters pinned by `requires`
 * rather than writing them in the statement, so that the verifier meets each literal
 * only where a step needs it instead of unfolding every one in every proof obligation.
 */
module Handlers {
  import opened Wrappers
  import opened Errors
  import opened Validators
  import opened Flights
  import Tokenizer

  // ---- gate split (lines 177-178) ----

  /** gate.substr(0, 1) and gate.substr(1, length - 1): terminal letter and gate number. */
  function SplitGate(gate: string): (string, string)
    requires |gate| >= 1
  {
    (gate[..1], gate[1..])
  }

  /**
   * A valid gate splits into one upper-case terminal letter and a non-empty run of
   * digits that concatenate back to the gate; conversely every such pair makes a valid
   * gate that splits into that pair.
   */
  lemma GateSplitSpec(gate: string, terminal: string, number: string)
    ensures IsValidGate(gate) ==>
      var (t, n) := SplitGate(gate);
      |t| == 1 && IsUpper(t[0]) && |n| >= 1 && (forall i :: 0 <= i < |n| ==> IsDigit(n[i])) && t + n == gate
    ensures (|terminal| == 1 && IsUpper(terminal[0]) && |number| >= 1 &&
             (forall i :: 0 <= i < |number| ==> IsDigit(number[i]))) ==>
      IsValidGate(terminal + number) && SplitGate(terminal + number) == (terminal, number)
  {
    if IsValidGate(gate) {
      AllInIff(gate[1..], Digit);
      assert gate[..1] + gate[1..] == gate;
    }
    var g := terminal + number;
    if |terminal| == 1 && |number| >= 1 {
      assert g[1..] == number && g[..1] == terminal;
      AllInIff(number, Digit);
    }
  }

  // ---- status (lines 103-152) ----

  /** The position of an active row holding the number, if any. */
  function FindActive(rows: seq<FlightRow>, number: string): (r: Option<nat>)
    ensures r.Some? ==> r.value < |rows| && rows[r.value].number == number && !rows[r.value].status.IsTerminal()
    ensures r.None? ==> ActiveCount(rows, number) == 0
  {
    if rows == [] then None
    else
      var last := rows[|rows| - 1];
      if last.number == number && !last.status.IsTerminal() then Some(|rows| - 1)
      else
        var r := FindActive(rows[..|rows| - 1], number);
        if r.Some? then Some(r.value) else None
  }

  /**
   * status: BADARGS without a first argument or when it is not a valid flight number;
   * otherwise exec_prepared1 fetches the active row with that number (a missing row
   * would be DBERROR).
   */
  function Status(args: seq<string>, rows: seq<FlightRow>): (ErrorCode, Option<FlightRow>) {
    if |args| == 0 then (BadArgs, None)
    else if !IsValidFlightNum(args[0], ActiveCount(rows, args[0])) then (BadArgs, None)
    else
      match FindActive(rows, args[0])
      case None => (DbError, None)
      case Some(i) => (Success, Some(rows[i]))
  }

  /**
   * status succeeds exactly when its first argument is a well-formed number held by
   * exactly one active flight, and then reports that flight; it never reports DBERROR,
   * because the duplicate check and the lookup use the same filter.
   */
  lemma StatusSpec(args: seq<string>, rows: seq<FlightRow>)
    ensures Status(args, rows).0 == Success || Status(args, rows).0 == BadArgs
    ensures Status(args, rows).0 == Success <==>
      |args| >= 1 && IsFlightNumShape(args[0]) && ActiveCount(rows, args[0]) == 1
    ensures Status(args, rows).0 == Success ==>
      Status(args, rows).1.Some? && Status(args, rows).1.value in rows &&
      Status(args, rows).1.value.number == args[0] && !Status(args, rows).1.value.status.IsTerminal()
  {
    if |args| >= 1 && IsValidFlightNum(args[0], ActiveCount(rows, args[0])) {
      assert FindActive(rows, args[0]).Some?;
    }
  }

  // ---- create (lines 157-178) ----

  /** The checks of create, in the order it makes them. */
  datatype CreateField = Arguments | FlightNumber | Times | Gate | Airplane | Airports | Airline {
    function Order(): nat {
      match this
      case Arguments => 0
      case FlightNumber => 1
      case Times => 2
      case Gate => 3
      case Airplane => 4
      case Airports => 5
      case Airline => 6
    }

    /** How many arguments create has read once this check is made. */
    function Needed(): nat {
      match this
      case Arguments => 0
      case FlightNumber => 1
      case Times => 3
      case Gate => 4
      case Airplane => 5
      case Airports => 7
      case Airline => 8
    }
  }

  /** The validated fields of a new flight, the gate already split. */
  datatype NewFlight = NewFlight(
    number: string, departure: string, arrival: string, terminal: string, gateNumber: string,
    airplane: string, destination: string, origin: string, airline: string)

  datatype CreateVerdict = Rejected(field: CreateField) | Accepted(flight: NewFlight)

  /**
   * Whether check `f` passes; `numberOk` is the verdict of the flight-number check.
   * A check whose arguments are missing does not pass.
   */
  predicate Passes(f: CreateField, args: seq<string>, numberOk: bool) {
    match f
    case Arguments => |args| > 0
    case FlightNumber => numberOk
    case Times => |args| >= 3 && IsValidDateTime(args[1]) && IsValidDateTime(args[2])
    case Gate => |args| >= 4 && IsValidGate(args[3])
    case Airplane => |args| >= 5 && IsValidAirplane(args[4])
    case Airports => |args| >= 7 && IsValidICAO(args[5]) && IsValidICAO(args[6])
    case Airline => |args| >= 8 && IsValidAirline(args[7])
  }

  /** Whether every check create makes before `f` passes. */
  predicate PassesBefore(f: CreateField, args: seq<string>, numberOk: bool)
    decreases f.Order()
  {
    match f
    case Arguments => true
    case FlightNumber => Passes(Arguments, args, numberOk)
    case Times => PassesBefore(FlightNumber, args, numberOk) && Passes(FlightNumber, args, numberOk)
    case Gate => PassesBefore(Times, args, numberOk) && Passes(Times, args, numberOk)
    case Airplane => PassesBefore(Gate, args, numberOk) && Passes(Gate, args, numberOk)
    case Airports => PassesBefore(Airplane, args, numberOk) && Passes(Airplane, args, numberOk)
    case Airline => PassesBefore(Airports, args, numberOk) && Passes(Airports, args, numberOk)
  }

  /** Whether every check of create passes. */
  predicate AllPass(args: seq<string>, numberOk: bool) {
    PassesBefore(Airline, args, numberOk) && Passes(Airline, args, numberOk)
  }

  /** The checks before `f` are those of smaller order; all checks pass when the last one and those before it do. */
  lemma PassesBeforeSpec(f: CreateField, args: seq<string>, numberOk: bool)
    ensures PassesBefore(f, args, numberOk) <==>
      forall g: CreateField :: g.Order() < f.Order() ==> Passes(g, args, numberOk)
    ensures AllPass(args, numberOk) <==> forall g: CreateField :: Passes(g, args, numberOk)
  {
  }

  /**
   * create dereferences its argument iterator with no size check beyond emptiness: it
   * is defined only when every check it reaches finds its arguments present.
   */
  predicate ReadsInBounds(args: seq<string>, numberOk: bool) {
    forall f: CreateField :: PassesBefore(f, args, numberOk) ==> |args| >= f.Needed()
  }

  /** The checks of create in order, stopping at the first that fails. */
  function CreateChecks(args: seq<string>, numberOk: bool): (r: CreateVerdict)
    requires ReadsInBounds(args, numberOk)
    ensures r.Rejected? ==> PassesBefore(r.field, args, numberOk) && !Passes(r.field, args, numberOk)
    ensures r.Accepted? <==> AllPass(args, numberOk)
    ensures r.Accepted? ==>
      |args| >= 8 && |args[3]| >= 2 &&
      r.flight == NewFlight(args[0], args[1], args[2], args[3][..1], args[3][1..], args[4], args[5], args[6], args[7])
  {
    assert Passes(Arguments, args, numberOk) ==> |args| >= FlightNumber.Needed();
    if |args| == 0 then Rejected(Arguments)
    else if !numberOk then Rejected(FlightNumber)
    else
      assert |args| >= Times.Needed();
      if !IsValidDateTime(args[1]) || !IsValidDateTime(args[2]) then Rejected(Times)
      else
        assert |args| >= Gate.Needed();
        if !IsValidGate(args[3]) then Rejected(Gate)
        else
          assert |args| >= Airplane.Needed();
          if !IsValidAirplane(args[4]) then Rejected(Airplane)
          else
            assert |args| >= Airports.Needed();
            if !IsValidICAO(args[5]) || !IsValidICAO(args[6]) then Rejected(Airports)
            else
              assert |args| >= Airline.Needed();
              if !IsValidAirline(args[7]) then Rejected(Airline)
              else
                var (terminal, gateNumber) := SplitGate(args[3]);
                Accepted(NewFlight(args[0], args[1], args[2], terminal, gateNumber, args[4], args[5], args[6], args[7]))
  }

  /** create as written: the number must pass isValidFlightNum, i.e. be held by one active flight. */
  function CreateCheckAsWritten(args: seq<string>, activeCount: int): (r: CreateVerdict)
    requires ReadsInBounds(args, |args| > 0 && IsValidFlightNum(args[0], activeCount))
    ensures r.Accepted? ==> activeCount == 1
    ensures r == Rejected(FlightNumber) <==> |args| > 0 && !IsValidFlightNum(args[0], activeCount)
  {
    CreateChecks(args, |args| > 0 && IsValidFlightNum(args[0], activeCount))
  }

  /** create as intended: the number must be well formed and held by no active flight. */
  function CreateCheck(args: seq<string>, activeCount: int): (r: CreateVerdict)
    requires ReadsInBounds(args, |args| > 0 && IsFlightNumShape(args[0]) && activeCount == 0)
    ensures r.Accepted? ==> activeCount == 0 && IsFlightNumShape(r.flight.number)
    ensures r == Rejected(FlightNumber) <==> |args| > 0 && !(IsFlightNumShape(args[0]) && activeCount == 0)
  {
    CreateChecks(args, |args| > 0 && IsFlightNumShape(args[0]) && activeCount == 0)
  }

  /**
   * create's checks as the handler makes them, reading the arguments one position at a
   * time and returning at the first failure. The verdict of the flight-number check,
   * which asks the database, is a parameter: `IsValidFlightNum(args[0], count)` gives
   * the handler as written, and `IsFlightNumShape(args[0]) && count == 0` the corrected one.
   */
  method Create(args: seq<string>, numberOk: bool) returns (r: CreateVerdict)
    requires ReadsInBounds(args, numberOk)
    ensures r == CreateChecks(args, numberOk)
  {
    assert Passes(Arguments, args, numberOk) ==> |args| >= FlightNumber.Needed();
    if |args| == 0 {
      return Rejected(Arguments);
    }
    var it := 0;
    var number := args[it];
    if !numberOk {
      return Rejected(FlightNumber);
    }
    assert |args| >= Times.Needed();
    it := it + 1;
    var departure := args[it];
    it := it + 1;
    var arrival := args[it];
    if !IsValidDateTime(departure) || !IsValidDateTime(arrival) {
      return Rejected(Times);
    }
    assert |args| >= Gate.Needed();
    it := it + 1;
    var gate := args[it];
    if !IsValidGate(gate) {
      return Rejected(Gate);
    }
    assert |args| >= Airplane.Needed();
    it := it + 1;
    var airplane := args[it];
    if !IsValidAirplane(airplane) {
      return Rejected(Airplane);
    }
    assert |args| >= Airports.Needed();
    it := it + 1;
    var destination := args[it];
    it := it + 1;
    var origin := args[it];
    if !IsValidICAO(destination) || !IsValidICAO(origin) {
      return Rejected(Airports);
    }
    assert |args| >= Airline.Needed();
    it := it + 1;
    var airline := args[it];
    if !IsValidAirline(airline) {
      return Rejected(Airline);
    }
    var terminal := gate[..1];
    var gateNumber := gate[1..];
    return Accepted(NewFlight(number, departure, arrival, terminal, gateNumber, airplane, destination, origin, airline));
  }

  /** Eight arguments whose fields other than the flight number are all valid. */
  predicate OtherFieldsValid(args: seq<string>) {
    |args| == 8 && IsValidDateTime(args[1]) && IsValidDateTime(args[2]) && IsValidGate(args[3]) &&
    IsValidAirplane(args[4]) && IsValidICAO(args[5]) && IsValidICAO(args[6]) && IsValidAirline(args[7])
  }

  /**
   * As written, create refuses every well-formed number that no active flight holds, and
   * goes on to insert a second active flight under a number that one already holds.
   */
  lemma CreateRejectsFreshNumber(args: seq<string>)
    requires OtherFieldsValid(args) && IsFlightNumShape(args[0])
    ensures ReadsInBounds(args, IsValidFlightNum(args[0], 0))
    ensures CreateCheckAsWritten(args, 0) == Rejected(FlightNumber)
    ensures ReadsInBounds(args, IsValidFlightNum(args[0], 1))
    ensures CreateCheckAsWritten(args, 1).Accepted?
  {
  }

  /** A concrete set of create arguments that the as-written check refuses. */
  lemma CreateFreshNumberExample(
    args: seq<string>, number: string, departure: string, arrival: string, gate: string,
    airplane: string, destination: string, origin: string, airline: string)
    requires number == "AA1234" && gate == "A3"
    requires departure == "2021-03-01 12:00:00" && arrival == "2021-03-01 14:00:00"
    requires airplane == "Boeing 787" && airline == "American Airlines"
    requires destination == "KLAX" && origin == "KJFK"
    requires args == [number, departure, arrival, gate, airplane, destination, origin, airline]
    ensures ReadsInBounds(args, IsValidFlightNum(args[0], 0))
    ensures CreateCheckAsWritten(args, 0) == Rejected(FlightNumber)
  {
    DateTimeExample(departure, arrival);
    GateExample(gate);
    TextExample(airplane, airline);
    ICAOExample(destination, origin);
    NumberExample(number);
    CreateRejectsFreshNumber(args);
  }

  lemma GateExample(gate: string)
    requires gate == "A3"
    ensures IsValidGate(gate)
  {
    GateSplitSpec(gate, "A", "3");
    assert gate == "A" + "3";
  }

  lemma NumberExample(number: string)
    requires number == "AA1234"
    ensures IsFlightNumShape(number)
  {
    FlightNumSpec(number, 1);
  }

  lemma DateTimeExample(d: string, a: string)
    requires d == "2021-03-01 12:00:00" && a == "2021-03-01 14:00:00"
    ensures IsValidDateTime(d) && IsValidDateTime(a)
  {
    DateTimeSpec(d);
    DateTimeSpec(a);
  }

  lemma TextExample(plane: string, airline: string)
    requires plane == "Boeing 787" && airline == "American Airlines"
    ensures IsValidAirplane(plane) && IsValidAirline(airline)
  {
    AirplaneWiderThanAirline(plane);
    AirlineExample(airline);
  }

  lemma AirlineExample(airline: string)
    requires airline == "American Airlines"
    ensures IsValidAirline(airline)
  {
    FreeTextSpec(airline);
  }

  lemma ICAOExample(destination: string, origin: string)
    requires destination == "KLAX" && origin == "KJFK"
    ensures IsValidICAO(destination) && IsValidICAO(origin)
  {
    ICAOSpec(destination);
    ICAOSpec(origin);
  }

  /**
   * As intended, with the other fields valid, create goes ahead exactly when the number
   * is well formed and no active flight holds it.
   */
  lemma CreateCheckSpec(args: seq<string>, activeCount: nat)
    requires OtherFieldsValid(args)
    ensures ReadsInBounds(args, IsFlightNumShape(args[0]) && activeCount == 0)
    ensures CreateCheck(args, activeCount).Accepted? <==> IsFlightNumShape(args[0]) && activeCount == 0
    ensures activeCount > 0 ==> CreateCheck(args, activeCount) == Rejected(FlightNumber)
  {
  }

  /**
   * No argument the tokenizer produces holds a space, so none is a date-time and
   * create, as written or as intended, refuses every tokenized argument list at the
   * latest at the date-time check.
   */
  lemma TokenizedCreateRejected(args: seq<string>, numberOk: bool)
    requires forall i :: 0 <= i < |args| ==> Tokenizer.IsArg(args[i])
    requires ReadsInBounds(args, numberOk)
    ensures CreateChecks(args, numberOk).Rejected?
    ensures CreateChecks(args, numberOk).field.Order() <= Times.Order()
  {
    if |args| >= 3 {
      assert ' ' !in args[1];
      assert !IsValidDateTime(args[1]) by {
        if |args[1]| == 19 {
          assert args[1][10] in args[1];
        }
      }
    }
  }

  // ---- changeStatus (lines 633-642) ----

  datatype StatusChange = StatusRejected | StatusAccepted(number: string, newStatus: Status)

  /** changeStatus reads a second argument once the flight number is valid. */
  predicate ChangeStatusInBounds(args: seq<string>, activeCount: int) {
    |args| == 0 || !IsValidFlightNum(args[0], activeCount) || |args| >= 2
  }

  /**
   * changeStatus: BADARGS without arguments, for an invalid flight number, or when the
   * new status is not exactly one of the seven status names.
   */
  function ChangeStatusCheck(args: seq<string>, activeCount: int): (r: StatusChange)
    requires ChangeStatusInBounds(args, activeCount)
    ensures r.StatusAccepted? <==>
      |args| >= 2 && IsValidFlightNum(args[0], activeCount) && exists st: Status :: args[1] == StatusName(st)
    ensures r.StatusAccepted? ==> r.number == args[0] && StatusName(r.newStatus) == args[1]
  {
    if |args| == 0 then StatusRejected
    else if !IsValidFlightNum(args[0], activeCount) then StatusRejected
    else
      match ParseStatus(args[1])
      case None =>
        StatusRoundTrip(Standby, args[1]);
        StatusRejected
      case Some(st) =>
        StatusRoundTrip(st, args[1]);
        StatusAccepted(args[0], st)
  }

  /**
   * "In Transit" holds a space, so no argument the tokenizer produces names it: from the
   * shell, changeStatus accepts only the six one-word statuses.
   */
  lemma TokenizedNeverInTransit(args: seq<string>, activeCount: int)
    requires forall i :: 0 <= i < |args| ==> Tokenizer.IsArg(args[i])
    requires ChangeStatusInBounds(args, activeCount)
    ensures ChangeStatusCheck(args, activeCount).StatusAccepted? ==>
      ChangeStatusCheck(args, activeCount).newStatus != InTransit
  {
    if ChangeStatusCheck(args, activeCount).StatusAccepted? {
      assert ' ' !in args[1];
      assert StatusName(InTransit)[2] == ' ';
    }
  }

  // ---- passengers (lines 570-611) ----

  /** The value of a run of decimal digits. */
  function DigitsValue(s: string): (n: nat)
    requires AllIn(s, Digit)
    decreases |s|
  {
    AllInIff(s, Digit);
    if s == [] then 0
    else
      AllInIff(s[..|s| - 1], Digit);
      10 * DigitsValue(s[..|s| - 1]) + DigitValue(s[|s| - 1])
  }

  /** The decimal digits of a natural number. */
  function NatText(n: nat): (s: string)
    ensures |s| >= 1 && AllIn(s, Digit)
  {
    var d := ['0' + (n % 10) as char];
    if n < 10 then
      AllInIff(d, Digit);
      d
    else
      var p := NatText(n / 10);
      AllInIff(p, Digit);
      AllInIff(p + d, Digit);
      p + d
  }

  lemma {:induction false} DigitsRoundTrip(n: nat)
    ensures DigitsValue(NatText(n)) == n
    decreases n
  {
    var s := NatText(n);
    AllInIff(s, Digit);
    if n >= 10 {
      DigitsRoundTrip(n / 10);
      assert s[..|s| - 1] == NatText(n / 10);
    } else {
      assert s[..|s| - 1] == [];
    }
  }

  const MinInt4: int := -2147483648
  const MaxInt4: int := 2147483647

  /**
   * How the store reads the delta text as an integer parameter: an optional sign, then
   * decimal digits, in the 32-bit range; anything else makes the statement fail.
   */
  function ParseDelta(s: string): (r: Option<int>)
    ensures r.Some? ==> MinInt4 <= r.value <= MaxInt4
  {
    var negative := |s| >= 1 && s[0] == '-';
    var digits := if |s| >= 1 && (s[0] == '+' || s[0] == '-') then s[1..] else s;
    if |digits| == 0 || !AllIn(digits, Digit) then None
    else
      var v: int := if negative then 0 - DigitsValue(digits) as int else DigitsValue(digits);
      if MinInt4 <= v <= MaxInt4 then Some(v) else None
  }

  /** The text "+n" or "-n" of a delta. */
  function DeltaText(d: int): string {
    if d < 0 then "-" + NatText(-d) else "+" + NatText(d)
  }

  /** Every 32-bit delta written with its sign is read back as itself. */
  lemma DeltaRoundTrip(d: int)
    requires MinInt4 <= d <= MaxInt4
    ensures ParseDelta(DeltaText(d)) == Some(d)
  {
    var n: nat := if d < 0 then -d else d;
    DigitsRoundTrip(n);
    assert DeltaText(d)[1..] == NatText(n);
  }

  /** The WHERE clause of update_passengers; `activeOnly` adds the active-flight filter. */
  predicate Targets(row: FlightRow, number: string, delta: int, activeOnly: bool) {
    row.number == number && 0 < row.passengers + delta < row.capacity &&
    (activeOnly ==> !row.status.IsTerminal())
  }

  /** The number of rows the UPDATE affects. */
  function Affected(rows: seq<FlightRow>, number: string, delta: int, activeOnly: bool): nat {
    if rows == [] then 0
    else
      Affected(rows[..|rows| - 1], number, delta, activeOnly) +
        (if Targets(rows[|rows| - 1], number, delta, activeOnly) then 1 else 0)
  }

  /** The rows after the UPDATE, before the commit decides whether they stay. */
  function Updated(rows: seq<FlightRow>, number: string, delta: int, activeOnly: bool): seq<FlightRow> {
    if rows == [] then []
    else
      var last := rows[|rows| - 1];
      Updated(rows[..|rows| - 1], number, delta, activeOnly) +
        [if Targets(last, number, delta, activeOnly) then last.(passengers := last.passengers + delta) else last]
  }

  /** The UPDATE moves each targeted row's count by delta and leaves every other row alone. */
  lemma {:induction false} UpdatedSpec(rows: seq<FlightRow>, number: string, delta: int, activeOnly: bool)
    ensures |Updated(rows, number, delta, activeOnly)| == |rows|
    ensures forall i :: 0 <= i < |rows| ==>
      Updated(rows, number, delta, activeOnly)[i] ==
        if Targets(rows[i], number, delta, activeOnly) then rows[i].(passengers := rows[i].passengers + delta)
        else rows[i]
    ensures Affected(rows, number, delta, activeOnly) == 0 ==> Updated(rows, number, delta, activeOnly) == rows
    decreases |rows|
  {
    if rows != [] {
      var init := rows[..|rows| - 1];
      UpdatedSpec(init, number, delta, activeOnly);
      assert forall i :: 0 <= i < |init| ==> init[i] == rows[i];
      if Affected(rows, number, delta, activeOnly) == 0 {
        assert rows == init + [rows[|rows| - 1]];
      }
    }
  }

  /**
   * Counts of 0 <= passengers < capacity. The UPDATE moves a row only to a count strictly
   * between 0 and the capacity, so it keeps every row inside this band.
   */
  ghost predicate WithinCapacity(rows: seq<FlightRow>) {
    forall i :: 0 <= i < |rows| ==> 0 <= rows[i].passengers < rows[i].capacity
  }

  lemma UpdateKeepsCapacity(rows: seq<FlightRow>, number: string, delta: int, activeOnly: bool)
    requires WithinCapacity(rows)
    ensures WithinCapacity(Updated(rows, number, delta, activeOnly))
  {
    UpdatedSpec(rows, number, delta, activeOnly);
  }

  /** With the active filter and one active flight, the UPDATE affects that flight or nothing. */
  lemma {:induction false} ActiveUpdateSpec(rows: seq<FlightRow>, number: string, delta: int, k: nat)
    requires k < |rows| && rows[k].number == number && !rows[k].status.IsTerminal()
    requires ActiveCount(rows, number) == 1
    ensures Affected(rows, number, delta, true) == if Targets(rows[k], number, delta, true) then 1 else 0
    decreases |rows|
  {
    ActiveCountOne(rows, number);
    var init := rows[..|rows| - 1];
    var last := rows[|rows| - 1];
    assert forall i :: 0 <= i < |init| ==> init[i] == rows[i];
    if k == |rows| - 1 {
      NoActiveNoTarget(init, number, delta);
    } else {
      assert !(last.number == number && !last.status.IsTerminal());
      ActiveUpdateSpec(init, number, delta, k);
    }
  }

  lemma {:induction false} NoActiveNoTarget(rows: seq<FlightRow>, number: string, delta: int)
    requires ActiveCount(rows, number) == 0
    ensures Affected(rows, number, delta, true) == 0
    decreases |rows|
  {
    if rows != [] {
      NoActiveNoTarget(rows[..|rows| - 1], number, delta);
    }
  }

  /** The UPDATE statement: one pass over the rows, counting the rows it changes. */
  method ExecUpdate(rows: seq<FlightRow>, number: string, delta: int, activeOnly: bool)
    returns (after: seq<FlightRow>, affected: nat)
    ensures after == Updated(rows, number, delta, activeOnly)
    ensures affected == Affected(rows, number, delta, activeOnly)
  {
    after, affected := [], 0;
    var i := 0;
    while i < |rows|
      invariant 0 <= i <= |rows|
      invariant after == Updated(rows[..i], number, delta, activeOnly)
      invariant affected == Affected(rows[..i], number, delta, activeOnly)
    {
      assert rows[..i + 1][..i] == rows[..i];
      var row := rows[i];
      if Targets(row, number, delta, activeOnly) {
        after := after + [row.(passengers := row.passengers + delta)];
        affected := affected + 1;
      } else {
        after := after + [row];
      }
      i := i + 1;
    }
    assert rows[..i] == rows;
  }

  /**
   * The passengers handler commits its UPDATE exactly when there are two arguments, the
   * first is a valid flight number, the delta parses and the UPDATE affects one row.
   */
  predicate Commits(rows: seq<FlightRow>, args: seq<string>, activeOnly: bool)
  {
    |args| == 2 && IsValidFlightNum(args[0], ActiveCount(rows, args[0])) &&
    ParseDelta(args[1]).Some? && Affected(rows, args[0], ParseDelta(args[1]).value, activeOnly) == 1
  }

  /**
   * passengers: BADARGS unless there are exactly two arguments and the first is a valid
   * flight number; DBERROR when the delta is not an integer or the update does not affect
   * exactly one row, in which case nothing is committed. Once one row is affected the update
   * is committed, and then the count is read back: `readOk` is whether that read succeeds
   * (it asks the database), and when it fails the handler reports DBERROR although the
   * update stays committed. `activeOnly` says whether the update's filter excludes Arrived
   * and Cancelled flights.
   */
  method PassengersWith(rows: seq<FlightRow>, args: seq<string>, activeOnly: bool, readOk: bool)
    returns (code: ErrorCode, after: seq<FlightRow>)
    ensures code == BadArgs <==> |args| != 2 || !IsValidFlightNum(args[0], ActiveCount(rows, args[0]))
    ensures code == Success <==> Commits(rows, args, activeOnly) && readOk
    ensures Commits(rows, args, activeOnly) && !readOk ==>
              code == DbError && after == Updated(rows, args[0], ParseDelta(args[1]).value, activeOnly)
    ensures code == Success || code == BadArgs || code == DbError
    ensures after == if Commits(rows, args, activeOnly) then Updated(rows, args[0], ParseDelta(args[1]).value, activeOnly) else rows
  {
    if |args| != 2 {
      return BadArgs, rows;
    }
    var number := args[0];
    if !IsValidFlightNum(number, ActiveCount(rows, number)) {
      return BadArgs, rows;
    }
    var delta := ParseDelta(args[1]);
    if delta.None? {
      return DbError, rows;
    }
    var updated, affected := ExecUpdate(rows, number, delta.value, activeOnly);
    if affected != 1 {
      return DbError, rows;
    }
    if !readOk {
      return DbError, updated;
    }
    return Success, updated;
  }

  /** passengers as written: the update's filter does not exclude Arrived or Cancelled flights. */
  method PassengersAsWritten(rows: seq<FlightRow>, args: seq<string>, readOk: bool) returns (code: ErrorCode, after: seq<FlightRow>)
    ensures code == BadArgs <==> |args| != 2 || !IsValidFlightNum(args[0], ActiveCount(rows, args[0]))
    ensures code == Success <==> Commits(rows, args, false) && readOk
    ensures code == Success || code == BadArgs || code == DbError
    ensures after == if Commits(rows, args, false) then Updated(rows, args[0], ParseDelta(args[1]).value, false) else rows
  {
    code, after := PassengersWith(rows, args, false, readOk);
  }

  /** passengers with the update restricted to active flights, like the other queries. */
  method Passengers(rows: seq<FlightRow>, args: seq<string>, readOk: bool) returns (code: ErrorCode, after: seq<FlightRow>)
    ensures code == BadArgs <==> |args| != 2 || !IsValidFlightNum(args[0], ActiveCount(rows, args[0]))
    ensures code == Success <==> Commits(rows, args, true) && readOk
    ensures code == Success || code == BadArgs || code == DbError
    ensures after == if Commits(rows, args, true) then Updated(rows, args[0], ParseDelta(args[1]).value, true) else rows
  {
    code, after := PassengersWith(rows, args, true, readOk);
  }

  /**
   * With the active filter, for a valid flight number and delta: the update succeeds
   * exactly when the active flight's new count n + delta lies strictly between 0 and its
   * capacity, changes that flight's count alone, and otherwise changes nothing.
   */
  lemma PassengersSpec(rows: seq<FlightRow>, number: string, delta: int)
    requires IsValidFlightNum(number, ActiveCount(rows, number))
    ensures exists k :: (0 <= k < |rows| && rows[k].number == number && !rows[k].status.IsTerminal() &&
                         (Affected(rows, number, delta, true) == 1 <==> 0 < rows[k].passengers + delta < rows[k].capacity) &&
                         |Updated(rows, number, delta, true)| == |rows| &&
                         (Affected(rows, number, delta, true) == 1 ==>
                            forall i :: 0 <= i < |rows| ==>
                              Updated(rows, number, delta, true)[i] ==
                                if i == k then rows[k].(passengers := rows[k].passengers + delta) else rows[i]))
  {
    ActiveCountOne(rows, number);
    var k :| 0 <= k < |rows| && rows[k].number == number && !rows[k].status.IsTerminal();
    ActiveUpdateSpec(rows, number, delta, k);
    UpdatedSpec(rows, number, delta, true);
  }

  /**
   * As written, the update can land on an Arrived flight that shares the number: here the
   * active flight is full, the arrived one is not, one row is affected and the result is
   * SUCCESS, but it is the arrived flight whose count moved.
   */
  lemma PassengersUpdatesArrivedFlight(rows: seq<FlightRow>)
    requires rows == [FlightRow("AA1234", Arrived, 10, 100), FlightRow("AA1234", Boarding, 99, 100)]
    ensures ActiveCount(rows, "AA1234") == 1
    ensures Affected(rows, "AA1234", 1, false) == 1
    ensures Updated(rows, "AA1234", 1, false) == [FlightRow("AA1234", Arrived, 11, 100), rows[1]]
    ensures Affected(rows, "AA1234", 1, true) == 0
  {
    var init := rows[..1];
    assert init == [rows[0]];
    assert init[..0] == [];
    assert ActiveCount(init, "AA1234") == 0;
    assert Affected(init, "AA1234", 1, false) == 1;
    assert Updated(init, "AA1234", 1, false) == [FlightRow("AA1234", Arrived, 11, 100)];
    assert Affected(init, "AA1234", 1, true) == 0;
  }
}
