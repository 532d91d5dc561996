/**
 * The flight rows of the external store, as far as the console's checks depend on them,
 * and the status vocabulary that changeStatus accepts (src/operation.cpp, line 642).
 */
module Flights {
  import opened Wrappers

  datatype Status = Standby | Boarding | Departed | Delayed | InTransit | Arrived | Cancelled {
    /** Arrived and Cancelled flights are left out of every "active" query. */
    predicate IsTerminal() { this == Arrived || this == Cancelled }
  }

  /** The name a status has in the store and on the command line. */
  function StatusName(st: Status): string {
    match st
    case Standby => "Standby"
    case Boarding => "Boarding"
    case Departed => "Departed"
    case Delayed => "Delayed"
    case InTransit => "In Transit"
    case Arrived => "Arrived"
    case Cancelled => "Cancelled"
  }

  /** The whole-string match against ^(Standby|Boarding|...|Cancelled)$. */
  function ParseStatus(s: string): Option<Status> {
    if s == "Standby" then Some(Standby)
    else if s == "Boarding" then Some(Boarding)
    else if s == "Departed" then Some(Departed)
    else if s == "Delayed" then Some(Delayed)
    else if s == "In Transit" then Some(InTransit)
    else if s == "Arrived" then Some(Arrived)
    else if s == "Cancelled" then Some(Cancelled)
    else None
  }

  /** A string is accepted exactly when it is the name of one of the seven statuses. */
  lemma StatusRoundTrip(st: Status, s: string)
    ensures ParseStatus(StatusName(st)) == Some(st)
    ensures ParseStatus(s) == Some(st) <==> s == StatusName(st)
    ensures ParseStatus(s).None? <==> forall t: Status :: s != StatusName(t)
  {
    if ParseStatus(s).None? {
      forall t: Status ensures s != StatusName(t) {
        match t
        case Standby =>
        case Boarding =>
        case Departed =>
        case Delayed =>
        case InTransit =>
        case Arrived =>
        case Cancelled =>
      }
    } else {
      assert s == StatusName(ParseStatus(s).value);
    }
  }

  /** One row of the Flight table joined with its airplane type's capacity. */
  datatype FlightRow = FlightRow(number: string, status: Status, passengers: int, capacity: int)

  /** SELECT COUNT(*) of the flights holding `number` whose status is not terminal. */
  function ActiveCount(rows: seq<FlightRow>, number: string): (n: nat)
    ensures n <= |rows|
  {
    if rows == [] then 0
    else
      var last := rows[|rows| - 1];
      ActiveCount(rows[..|rows| - 1], number) + (if last.number == number && !last.status.IsTerminal() then 1 else 0)
  }

  /** The count is zero exactly when no active row holds the number. */
  lemma {:induction false} ActiveCountZero(rows: seq<FlightRow>, number: string)
    ensures ActiveCount(rows, number) == 0 <==>
      forall i :: 0 <= i < |rows| ==> rows[i].number != number || rows[i].status.IsTerminal()
    decreases |rows|
  {
    if rows != [] {
      ActiveCountZero(rows[..|rows| - 1], number);
    }
  }

  /** A count of one names a unique active row holding the number. */
  lemma {:induction false} ActiveCountOne(rows: seq<FlightRow>, number: string)
    requires ActiveCount(rows, number) == 1
    ensures exists i :: 0 <= i < |rows| && rows[i].number == number && !rows[i].status.IsTerminal()
    ensures forall i, j ::
      (0 <= i < |rows| && 0 <= j < |rows| &&
       rows[i].number == number && !rows[i].status.IsTerminal() &&
       rows[j].number == number && !rows[j].status.IsTerminal()) ==> i == j
    decreases |rows|
  {
    var init := rows[..|rows| - 1];
    var last := rows[|rows| - 1];
    assert forall i :: 0 <= i < |init| ==> init[i] == rows[i];
    if last.number == number && !last.status.IsTerminal() {
      ActiveCountZero(init, number);
    } else {
      ActiveCountOne(init, number);
    }
  }

  /** A unique active row holding the number makes the count one. */
  lemma {:induction false} ActiveCountOneConverse(rows: seq<FlightRow>, number: string, k: int)
    requires 0 <= k < |rows| && rows[k].number == number && !rows[k].status.IsTerminal()
    requires forall i :: 0 <= i < |rows| && rows[i].number == number && !rows[i].status.IsTerminal() ==> i == k
    ensures ActiveCount(rows, number) == 1
    decreases |rows|
  {
    var init := rows[..|rows| - 1];
    assert forall i :: 0 <= i < |init| ==> init[i] == rows[i];
    if k == |rows| - 1 {
      ActiveCountZero(init, number);
    } else {
      ActiveCountOneConverse(init, number, k);
    }
  }
}
