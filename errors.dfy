/** The result codes every handler returns and the shell loop interprets (inc/error.h). */
module Errors {
  import opened Wrappers

  datatype ErrorCode = Exit | Success | BadArgs | BadCmd | DbError {
    /** The integer id the shell writes to the error stream. */
    function ToInt(): (n: int)
      ensures 0 <= n <= 4
      ensures n == 0 <==> this == Exit
      ensures n == 1 <==> this == Success
    {
      match this
      case Exit => 0
      case Success => 1
      case BadArgs => 2
      case BadCmd => 3
      case DbError => 4
    }
  }

  /** Reads back an integer id; ids outside 0..4 name no code. */
  function FromInt(n: int): (r: Option<ErrorCode>)
    ensures r.Some? <==> 0 <= n <= 4
  {
    if n == 0 then Some(Exit)
    else if n == 1 then Some(Success)
    else if n == 2 then Some(BadArgs)
    else if n == 3 then Some(BadCmd)
    else if n == 4 then Some(DbError)
    else None
  }

  /** The ids are distinct: reading back an id gives the code that wrote it, and conversely. */
  lemma CodeRoundTrip(e: ErrorCode, n: int)
    ensures FromInt(e.ToInt()) == Some(e)
    ensures FromInt(n) == Some(e) ==> e.ToInt() == n
  {
  }
}
