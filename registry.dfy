/**
 * The command tables and the help listing (src/operation.cpp, lines 57-100):
 * commandList maps each keyword to an operation id, commandHelp maps keywords to their
 * help line, and help() walks commandList in key order printing the lines that exist.
 */
module Registry {
  import opened Errors

  /** The operation ids of the dispatch switch. */
  datatype OpId =
    | OpExit | OpHelp | OpStatus | OpCreate | OpDepart | OpArrive | OpPassengers
    | OpList | OpDelay | OpMealTypes | OpMeals | OpChangeStatus | OpChangeDestination

  const CommandList: map<string, OpId> := map[
    "exit" := OpExit,
    "help" := OpHelp,
    "status" := OpStatus,
    "create" := OpCreate,
    "depart" := OpDepart,
    "arrive" := OpArrive,
    "passengers" := OpPassengers,
    "list" := OpList,
    "delay" := OpDelay,
    "mealTypes" := OpMealTypes,
    "meals" := OpMeals,
    "changeStatus" := OpChangeStatus,
    "changeDestination" := OpChangeDestination
  ]

  const CommandHelp: map<string, string> := map[
    "exit" := "exit - exits program",
    "help" := "help - lists all commands",
    "status" := "status <flight-number> - gets information about a flight",
    "depart" := "depart <icao> - lists flights leaving to <icao>",
    "arrive" := "arrive <icao> - lists flights leaving from <icao>",
    "passengers" := "passengers <flight-number> <+/-n> - adds (+) or subtracts (-) 'n' passengers from the flight",
    "list" := "list - lists every active flight",
    "delay" := "delay <flight-number> <\"hh:mm:ss\"> - lists every active flight",
    "meals" := "meals <flight-number> - lists all the meals on a flight",
    "mealTypes" := "mealTypes <flight-number> - lists all the categories of meals on a flight",
    "changeStatus" := "changeStatus <flight-number> - updates the status of the flight ",
    "changeDestination" := "changeDestination <flight-number> - changes the current destination to new destination"
  ]

  /** Of the registered keywords, only exit, help and status reach their own operation id. */
  lemma DispatchIds(k: string)
    requires k in CommandList
    ensures CommandList[k] == OpExit <==> k == "exit"
    ensures CommandList[k] == OpHelp <==> k == "help"
    ensures CommandList[k] == OpStatus <==> k == "status"
  {
  }

  // ---- the order std::map iterates in: std::string's operator< ----

  /** Lexicographic order on character codes. */
  predicate Less(a: string, b: string) {
    b != [] && (a == [] || a[0] < b[0] || (a[0] == b[0] && Less(a[1..], b[1..])))
  }

  lemma {:induction false} LessIrreflexive(a: string)
    ensures !Less(a, a)
    decreases |a|
  {
    if a != [] {
      LessIrreflexive(a[1..]);
    }
  }

  lemma {:induction false} LessTransitive(a: string, b: string, c: string)
    requires Less(a, b) && Less(b, c)
    ensures Less(a, c)
    decreases |a|
  {
    if a != [] && a[0] == b[0] && b[0] == c[0] {
      LessTransitive(a[1..], b[1..], c[1..]);
    }
  }

  lemma {:induction false} LessTotal(a: string, b: string)
    ensures a == b || Less(a, b) || Less(b, a)
    decreases |a|
  {
    if a != [] && b != [] && a[0] == b[0] {
      LessTotal(a[1..], b[1..]);
      if a[1..] == b[1..] {
        assert a == [a[0]] + a[1..] && b == [b[0]] + b[1..];
      }
    }
  }

  /** Strings that agree up to a position where the first has the smaller character are in order. */
  lemma {:induction false} LessAtFirstDifference(a: string, b: string, k: nat)
    requires k < |a| && k < |b| && a[..k] == b[..k] && a[k] < b[k]
    ensures Less(a, b)
    decreases k
  {
    if k > 0 {
      assert a[0] == a[..k][0] == b[..k][0] == b[0];
      assert a[1..][..k - 1] == a[..k][1..] && b[1..][..k - 1] == b[..k][1..];
      assert a[1..][k - 1] == a[k] && b[1..][k - 1] == b[k];
      LessAtFirstDifference(a[1..], b[1..], k - 1);
    }
  }

  ghost predicate StrictlySorted(s: seq<string>) {
    forall i, j :: 0 <= i < j < |s| ==> Less(s[i], s[j])
  }

  lemma {:induction false} SortedFromAdjacent(s: seq<string>)
    requires forall i :: 0 <= i < |s| - 1 ==> Less(s[i], s[i + 1])
    ensures StrictlySorted(s)
    decreases |s|
  {
    if |s| > 1 {
      var t := s[1..];
      assert forall i :: 0 <= i < |t| ==> t[i] == s[i + 1];
      SortedFromAdjacent(t);
      forall j | 1 < j < |s| ensures Less(s[0], s[j]) {
        assert s[j] == t[j - 1] && s[1] == t[0];
        LessTransitive(s[0], s[1], s[j]);
      }
    }
  }

  /** Two strictly sorted sequences with the same elements are the same sequence. */
  lemma {:induction false} SortedUnique(a: seq<string>, b: seq<string>)
    requires StrictlySorted(a) && StrictlySorted(b)
    requires forall x :: x in a <==> x in b
    ensures a == b
    decreases |a|
  {
    assert b != [] ==> b[0] in a;
    if a != [] {
      assert a[0] in b;
      assert b != [] && b[0] in a;
      if a[0] != b[0] {
        var i :| 0 <= i < |a| && a[i] == b[0];
        var j :| 0 <= j < |b| && b[j] == a[0];
        assert Less(a[0], b[0]);
        assert Less(b[0], a[0]);
        LessTransitive(a[0], b[0], a[0]);
        LessIrreflexive(a[0]);
      }
      forall x ensures x in a[1..] <==> x in b[1..] {
        if x in a[1..] {
          var i :| 0 <= i < |a| - 1 && a[1..][i] == x;
          assert Less(a[0], a[i + 1]);
          LessIrreflexive(x);
          assert x in a;
          var j :| 0 <= j < |b| && b[j] == x;
          assert j != 0;
          assert b[1..][j - 1] == x;
        }
        if x in b[1..] {
          var j :| 0 <= j < |b| - 1 && b[1..][j] == x;
          assert Less(b[0], b[j + 1]);
          LessIrreflexive(x);
          assert x in b;
          var i :| 0 <= i < |a| && a[i] == x;
          assert i != 0;
          assert a[1..][i - 1] == x;
        }
      }
      SortedUnique(a[1..], b[1..]);
      assert a == [a[0]] + a[1..] && b == [b[0]] + b[1..];
    }
  }

  /** The keys of commandList in ascending order. */
  const KeyOrder: seq<string> := [
    "arrive", "changeDestination", "changeStatus", "create", "delay", "depart", "exit",
    "help", "list", "mealTypes", "meals", "passengers", "status"
  ]

  lemma KeyOrderSorted()
    ensures StrictlySorted(KeyOrder)
  {
    KeyOrderSortedFrom(KeyOrder);
  }

  lemma KeyOrderSortedFrom(s: seq<string>)
    requires s == KeyOrder
    ensures StrictlySorted(s)
  {
    KeyOrderFirstQuarter(s);
    KeyOrderSecondQuarter(s);
    KeyOrderThirdQuarter(s);
    KeyOrderFourthQuarter(s);
    SortedFromAdjacent(s);
  }

  /** Each word of the list is below the next, at the first position where they differ. */
  lemma KeyOrderFirstQuarter(s: seq<string>)
    requires s == KeyOrder
    ensures forall i :: 0 <= i < 3 ==> Less(s[i], s[i + 1])
  {
    LessAtFirstDifference(s[0], s[1], 0);
    LessAtFirstDifference(s[1], s[2], 6);
    LessAtFirstDifference(s[2], s[3], 1);
  }

  lemma KeyOrderSecondQuarter(s: seq<string>)
    requires s == KeyOrder
    ensures forall i :: 3 <= i < 6 ==> Less(s[i], s[i + 1])
  {
    LessAtFirstDifference(s[3], s[4], 0);
    LessAtFirstDifference(s[4], s[5], 2);
    LessAtFirstDifference(s[5], s[6], 0);
  }

  lemma KeyOrderThirdQuarter(s: seq<string>)
    requires s == KeyOrder
    ensures forall i :: 6 <= i < 9 ==> Less(s[i], s[i + 1])
  {
    LessAtFirstDifference(s[6], s[7], 0);
    LessAtFirstDifference(s[7], s[8], 0);
    LessAtFirstDifference(s[8], s[9], 0);
  }

  lemma KeyOrderFourthQuarter(s: seq<string>)
    requires s == KeyOrder
    ensures forall i :: 9 <= i < 12 ==> Less(s[i], s[i + 1])
  {
    LessAtFirstDifference(s[9], s[10], 4);
    LessAtFirstDifference(s[10], s[11], 0);
    LessAtFirstDifference(s[11], s[12], 0);
  }

  lemma KeyOrderKeys()
    ensures forall k :: k in KeyOrder <==> k in CommandList
  {
    assert CommandList.Keys == set k | k in KeyOrder;
  }

  /**
   * KeyOrder is the order in which help() visits commandList: the one strictly ascending
   * sequence of exactly its keys.
   */
  lemma KeyOrderIsMapOrder(order: seq<string>)
    requires StrictlySorted(order)
    requires forall k :: k in order <==> k in CommandList
    ensures StrictlySorted(KeyOrder)
    ensures forall k :: k in KeyOrder <==> k in CommandList
    ensures order == KeyOrder
  {
    KeyOrderSorted();
    KeyOrderKeys();
    SortedUnique(order, KeyOrder);
  }

  // ---- help() ----

  /** The help lines printed for the keys visited in this order. */
  function HelpLines(keys: seq<string>, help: map<string, string>): seq<string> {
    if keys == [] then []
    else
      var k := keys[|keys| - 1];
      HelpLines(keys[..|keys| - 1], help) + (if k in help then [help[k]] else [])
  }

  /** The keys that have a help line, in the order visited. */
  function KeysWithHelp(keys: seq<string>, help: map<string, string>): seq<string> {
    if keys == [] then []
    else
      var k := keys[|keys| - 1];
      KeysWithHelp(keys[..|keys| - 1], help) + (if k in help then [k] else [])
  }

  /**
   * help() prints, one line per key that has help text, exactly that text, in the order
   * the keys are visited; the keys it prints for are the visited keys with help text.
   */
  lemma {:induction false} HelpLinesSpec(keys: seq<string>, help: map<string, string>)
    ensures |HelpLines(keys, help)| == |KeysWithHelp(keys, help)|
    ensures forall i :: 0 <= i < |KeysWithHelp(keys, help)| ==>
      KeysWithHelp(keys, help)[i] in help && HelpLines(keys, help)[i] == help[KeysWithHelp(keys, help)[i]]
    ensures forall k :: k in KeysWithHelp(keys, help) <==> k in keys && k in help
    ensures StrictlySorted(keys) ==> StrictlySorted(KeysWithHelp(keys, help))
    decreases |keys|
  {
    if keys != [] {
      var init := keys[..|keys| - 1];
      var k := keys[|keys| - 1];
      HelpLinesSpec(init, help);
      assert forall x :: x in keys <==> x in init || x == k;
      if StrictlySorted(keys) {
        assert StrictlySorted(init);
        var w := KeysWithHelp(init, help);
        forall x | x in w ensures Less(x, k) {
          var i :| 0 <= i < |init| && init[i] == x;
        }
      }
    }
  }

  method Help() returns (lines: seq<string>, code: ErrorCode)
    ensures code == Success
    ensures lines == HelpLines(KeyOrder, CommandHelp)
  {
    lines := [];
    var i := 0;
    while i < |KeyOrder|
      invariant 0 <= i <= |KeyOrder|
      invariant lines == HelpLines(KeyOrder[..i], CommandHelp)
    {
      var cmd := KeyOrder[i];
      assert KeyOrder[..i + 1][..i] == KeyOrder[..i];
      if cmd in CommandHelp {
        lines := lines + [CommandHelp[cmd]];
      }
      i := i + 1;
    }
    assert KeyOrder[..i] == KeyOrder;
    code := Success;
  }

  /** The keys with a help line, in ascending order: all of commandList but "create". */
  const HelpOrder: seq<string> := [
    "arrive", "changeDestination", "changeStatus", "delay", "depart", "exit",
    "help", "list", "mealTypes", "meals", "passengers", "status"
  ]

  lemma HelpOrderSorted()
    ensures StrictlySorted(HelpOrder)
  {
    HelpOrderSortedFrom(HelpOrder);
  }

  lemma HelpOrderSortedFrom(s: seq<string>)
    requires s == HelpOrder
    ensures StrictlySorted(s)
  {
    HelpOrderFirstQuarter(s);
    HelpOrderSecondQuarter(s);
    HelpOrderThirdQuarter(s);
    HelpOrderFourthQuarter(s);
    SortedFromAdjacent(s);
  }

  /** Each word of the list is below the next, at the first position where they differ. */
  lemma HelpOrderFirstQuarter(s: seq<string>)
    requires s == HelpOrder
    ensures forall i :: 0 <= i < 3 ==> Less(s[i], s[i + 1])
  {
    LessAtFirstDifference(s[0], s[1], 0);
    LessAtFirstDifference(s[1], s[2], 6);
    LessAtFirstDifference(s[2], s[3], 0);
  }

  lemma HelpOrderSecondQuarter(s: seq<string>)
    requires s == HelpOrder
    ensures forall i :: 3 <= i < 6 ==> Less(s[i], s[i + 1])
  {
    LessAtFirstDifference(s[3], s[4], 2);
    LessAtFirstDifference(s[4], s[5], 0);
    LessAtFirstDifference(s[5], s[6], 0);
  }

  lemma HelpOrderThirdQuarter(s: seq<string>)
    requires s == HelpOrder
    ensures forall i :: 6 <= i < 9 ==> Less(s[i], s[i + 1])
  {
    LessAtFirstDifference(s[6], s[7], 0);
    LessAtFirstDifference(s[7], s[8], 0);
    LessAtFirstDifference(s[8], s[9], 4);
  }

  lemma HelpOrderFourthQuarter(s: seq<string>)
    requires s == HelpOrder
    ensures forall i :: 9 <= i < 11 ==> Less(s[i], s[i + 1])
  {
    LessAtFirstDifference(s[9], s[10], 0);
    LessAtFirstDifference(s[10], s[11], 0);
  }

  lemma HelpOrderKeys()
    ensures forall k :: k in HelpOrder <==> k in CommandHelp
  {
    assert CommandHelp.Keys == set k | k in HelpOrder;
  }

  lemma HelpKeysRegistered()
    ensures forall k :: k in CommandHelp <==> k in CommandList && k != "create"
  {
    assert CommandHelp.Keys == CommandList.Keys - {"create"};
  }

  /**
   * Every registered keyword but "create" has a help line, so help() prints twelve lines:
   * the help texts of the other keywords in ascending key order.
   */
  lemma HelpListing()
    ensures "create" in CommandList && "create" !in CommandHelp
    ensures KeysWithHelp(KeyOrder, CommandHelp) == HelpOrder
    ensures |HelpLines(KeyOrder, CommandHelp)| == 12
    ensures forall i :: 0 <= i < 12 ==> HelpLines(KeyOrder, CommandHelp)[i] == CommandHelp[HelpOrder[i]]
  {
    HelpLinesSpec(KeyOrder, CommandHelp);
    KeyOrderSorted();
    KeyOrderKeys();
    HelpOrderSorted();
    HelpOrderKeys();
    HelpKeysRegistered();
    SortedUnique(KeysWithHelp(KeyOrder, CommandHelp), HelpOrder);
  }
}
