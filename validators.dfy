/**
 * The argument validators of the operation handlers (src/operation.cpp, lines 5-50).
 * Each source validator matches a whole string against a regular expression; here each
 * is a hand-written character-class scanner, and the lemmas below state, position by
 * position, which strings each one accepts.
 *
 * The worked examples take their literal strings as parameters pinned by `requires`
 * rather than writing them in the statement, so that the verifier meets each literal
 * only where a step needs it instead of unfolding every one in every proof obligation.
 */
module Validators {

  predicate IsUpper(c: char) { 'A' <= c <= 'Z' }
  predicate IsLower(c: char) { 'a' <= c <= 'z' }
  predicate IsDigit(c: char) { '0' <= c <= '9' }

  /** The bracket classes the validators use: [A-Z], [0-9], [a-zA-Z ] and [a-zA-Z0-9 ]. */
  datatype CharClass = Upper | Digit | LetterOrSpace | AlnumOrSpace

  predicate InClass(c: char, k: CharClass) {
    match k
    case Upper => IsUpper(c)
    case Digit => IsDigit(c)
    case LetterOrSpace => IsUpper(c) || IsLower(c) || c == ' '
    case AlnumOrSpace => IsUpper(c) || IsLower(c) || IsDigit(c) || c == ' '
  }

  /** Scans `s` from the left: does every character belong to class `k`? */
  function AllIn(s: string, k: CharClass): bool
    decreases |s|
  {
    s == [] || (InClass(s[0], k) && AllIn(s[1..], k))
  }

  /** The scanner accepts exactly the strings all of whose characters are in the class. */
  lemma {:induction false} AllInIff(s: string, k: CharClass)
    ensures AllIn(s, k) <==> forall i :: 0 <= i < |s| ==> InClass(s[i], k)
    decreases |s|
  {
    if s != [] {
      AllInIff(s[1..], k);
      assert forall i :: 1 <= i < |s| ==> s[i] == s[1..][i - 1];
    }
  }

  /** A scan in a class also succeeds in any wider class. */
  lemma {:induction false} AllInWiden(s: string, narrow: CharClass, wide: CharClass)
    requires forall c :: InClass(c, narrow) ==> InClass(c, wide)
    requires AllIn(s, narrow)
    ensures AllIn(s, wide)
    decreases |s|
  {
    if s != [] {
      AllInWiden(s[1..], narrow, wide);
    }
  }

  // ---- [A-Z]{2}[0-9]{2,4} and the duplicate count (lines 5-21) ----

  predicate IsFlightNumShape(s: string) {
    4 <= |s| <= 6 && AllIn(s[..2], Upper) && AllIn(s[2..], Digit)
  }

  /**
   * isValidFlightNum: the shape check, then the number of active (neither Arrived nor
   * Cancelled) flights holding this number, which the store counts, must be exactly one.
   */
  predicate IsValidFlightNum(s: string, activeCount: int) {
    IsFlightNumShape(s) && activeCount == 1
  }

  lemma FlightNumSpec(s: string, activeCount: int)
    ensures IsValidFlightNum(s, activeCount) <==>
      4 <= |s| <= 6 && IsUpper(s[0]) && IsUpper(s[1]) &&
      (forall i :: 2 <= i < |s| ==> IsDigit(s[i])) && activeCount == 1
  {
    if 4 <= |s| <= 6 {
      AllInIff(s[..2], Upper);
      AllInIff(s[2..], Digit);
      assert forall i :: 2 <= i < |s| ==> s[i] == s[2..][i - 2];
    }
  }

  // ---- [0-9]{4}-[0-9]{2}-[0-9]{2} [0-9]{2}:[0-9]{2}:[0-9]{2} (lines 23-26) ----

  predicate IsValidDateTime(s: string) {
    |s| == 19 &&
    AllIn(s[0..4], Digit) && s[4] == '-' && AllIn(s[5..7], Digit) && s[7] == '-' &&
    AllIn(s[8..10], Digit) && s[10] == ' ' &&
    AllIn(s[11..13], Digit) && s[13] == ':' && AllIn(s[14..16], Digit) && s[16] == ':' &&
    AllIn(s[17..19], Digit)
  }

  /** The separator positions of a date-time. */
  predicate IsDateTimeSeparator(i: int) {
    i == 4 || i == 7 || i == 10 || i == 13 || i == 16
  }

  /** Only the shape is checked: 19 characters, digits everywhere but the five separators. */
  lemma DateTimeSpec(s: string)
    ensures IsValidDateTime(s) <==>
      |s| == 19 && s[4] == '-' && s[7] == '-' && s[10] == ' ' && s[13] == ':' && s[16] == ':' &&
      forall i :: 0 <= i < 19 && !IsDateTimeSeparator(i) ==> IsDigit(s[i])
  {
    if |s| == 19 {
      AllInIff(s[0..4], Digit);
      AllInIff(s[5..7], Digit);
      AllInIff(s[8..10], Digit);
      AllInIff(s[11..13], Digit);
      AllInIff(s[14..16], Digit);
      AllInIff(s[17..19], Digit);
      if forall i :: 0 <= i < 19 && !IsDateTimeSeparator(i) ==> IsDigit(s[i]) {
        assert forall i :: 0 <= i < 4 ==> s[0..4][i] == s[i];
        assert forall i :: 0 <= i < 2 ==> s[5..7][i] == s[5 + i] && s[8..10][i] == s[8 + i];
        assert forall i :: 0 <= i < 2 ==> s[11..13][i] == s[11 + i] && s[14..16][i] == s[14 + i];
        assert forall i :: 0 <= i < 2 ==> s[17..19][i] == s[17 + i];
      }
    }
  }

  /** No field is range-checked: month 99, day 99 and hour 99 pass. */
  lemma DateTimeAcceptsOutOfRange()
    ensures IsValidDateTime("2021-99-99 99:99:99")
    ensures !IsValidDateTime("2021-03-01T12:00:00")
  {
    DateTimeSpec("2021-99-99 99:99:99");
  }

  // ---- ^(?:[01][0-9]|2[0-3]):[0-5][0-9]:[0-5][0-9](?:\.[0-9]{1,3})?$ (lines 27-30) ----

  predicate IsHourField(a: char, b: char) {
    ((a == '0' || a == '1') && IsDigit(b)) || (a == '2' && '0' <= b <= '3')
  }

  predicate IsSixtyField(a: char, b: char) {
    '0' <= a <= '5' && IsDigit(b)
  }

  /** The optional fraction: empty, or '.' and one to three digits. */
  predicate IsFraction(f: string) {
    f == [] || (f[0] == '.' && 2 <= |f| <= 4 && AllIn(f[1..], Digit))
  }

  predicate IsValidTime(s: string) {
    |s| >= 8 &&
    IsHourField(s[0], s[1]) && s[2] == ':' &&
    IsSixtyField(s[3], s[4]) && s[5] == ':' &&
    IsSixtyField(s[6], s[7]) &&
    IsFraction(s[8..])
  }

  function DigitValue(c: char): int { c as int - '0' as int }

  /** The value of the two-digit decimal field starting at position i. */
  function TwoDigits(s: string, i: nat): int
    requires i + 1 < |s|
  {
    10 * DigitValue(s[i]) + DigitValue(s[i + 1])
  }

  lemma HourFieldValue(a: char, b: char)
    ensures IsHourField(a, b) <==> IsDigit(a) && IsDigit(b) && 10 * DigitValue(a) + DigitValue(b) <= 23
  {
  }

  lemma SixtyFieldValue(a: char, b: char)
    ensures IsSixtyField(a, b) <==> IsDigit(a) && IsDigit(b) && 10 * DigitValue(a) + DigitValue(b) <= 59
  {
  }

  /**
   * isValidTime in numbers: hour 0..23, minute 0..59, second 0..59 as two digits each,
   * then optionally '.' and one to three digits, so the length is 8 or 10 to 12.
   */
  lemma TimeSpec(s: string)
    ensures IsValidTime(s) <==>
      (|s| == 8 || 10 <= |s| <= 12) &&
      IsDigit(s[0]) && IsDigit(s[1]) && s[2] == ':' && IsDigit(s[3]) && IsDigit(s[4]) &&
      s[5] == ':' && IsDigit(s[6]) && IsDigit(s[7]) &&
      TwoDigits(s, 0) <= 23 && TwoDigits(s, 3) <= 59 && TwoDigits(s, 6) <= 59 &&
      (|s| > 8 ==> s[8] == '.' && forall i :: 9 <= i < |s| ==> IsDigit(s[i]))
  {
    if |s| >= 8 {
      HourFieldValue(s[0], s[1]);
      SixtyFieldValue(s[3], s[4]);
      SixtyFieldValue(s[6], s[7]);
      if |s| > 8 {
        AllInIff(s[9..], Digit);
        assert s[8..][1..] == s[9..];
        assert forall i :: 9 <= i < |s| ==> s[i] == s[9..][i - 9];
      }
    }
  }

  /** Hour 24 and minute 60 are refused; a millisecond fraction is accepted. */
  lemma TimeExamples()
    ensures !IsValidTime("24:00:00") && !IsValidTime("12:60:00") && !IsValidTime("12:00:00.")
    ensures IsValidTime("23:59:59.999") && IsValidTime("00:30:00")
  {
  }

  // ---- [A-Z]{4} (lines 31-34) ----

  predicate IsValidICAO(s: string) {
    |s| == 4 && AllIn(s, Upper)
  }

  lemma ICAOSpec(s: string)
    ensures IsValidICAO(s) <==> |s| == 4 && forall i :: 0 <= i < |s| ==> IsUpper(s[i])
  {
    AllInIff(s, Upper);
  }

  // ---- [A-Z][0-9]+ (lines 35-38) ----

  predicate IsValidGate(s: string) {
    |s| >= 2 && IsUpper(s[0]) && AllIn(s[1..], Digit)
  }

  /** A gate is an upper-case terminal letter followed by one or more digits. */
  lemma GateSpec(s: string)
    ensures IsValidGate(s) <==> |s| >= 2 && IsUpper(s[0]) && forall i :: 1 <= i < |s| ==> IsDigit(s[i])
  {
    if |s| >= 2 {
      AllInIff(s[1..], Digit);
      assert forall i :: 1 <= i < |s| ==> s[i] == s[1..][i - 1];
    }
  }

  // ---- [a-zA-Z0-9 ]+, [a-zA-Z ]+, [a-zA-Z ]+ (lines 39-50) ----

  predicate IsValidAirplane(s: string) {
    |s| >= 1 && AllIn(s, AlnumOrSpace)
  }

  predicate IsValidAirline(s: string) {
    |s| >= 1 && AllIn(s, LetterOrSpace)
  }

  predicate IsValidCity(s: string) {
    |s| >= 1 && AllIn(s, LetterOrSpace)
  }

  /**
   * Airline and city names are the non-empty strings of letters and spaces; an airplane
   * type may also hold digits, so every airline or city name is a valid airplane type.
   */
  lemma FreeTextSpec(s: string)
    ensures IsValidAirline(s) <==> |s| >= 1 && forall i :: 0 <= i < |s| ==> InClass(s[i], LetterOrSpace)
    ensures IsValidCity(s) <==> IsValidAirline(s)
    ensures IsValidAirplane(s) <==> |s| >= 1 && forall i :: 0 <= i < |s| ==> InClass(s[i], AlnumOrSpace)
    ensures IsValidAirline(s) ==> IsValidAirplane(s)
  {
    AllInIff(s, LetterOrSpace);
    AllInIff(s, AlnumOrSpace);
    if IsValidAirline(s) {
      AllInWiden(s, LetterOrSpace, AlnumOrSpace);
    }
  }

  /** "Boeing 787" is an airplane type but not an airline name. */
  lemma AirplaneWiderThanAirline(s: string)
    requires s == "Boeing 787"
    ensures IsValidAirplane(s) && !IsValidAirline(s)
  {
    FreeTextSpec(s);
    assert !InClass(s[7], LetterOrSpace);
  }
}
