/**
 * The static helpers of the client: CSS classes for a status string and for
 * a quality score, and the placeholders the date and currency formatters
 * use for missing input. The browser's locale formatting is not modelled;
 * it is passed in as a function.
 */
module Formatting {
  import opened Wrappers

  const StatusGreen: string := "text-green-400"
  const StatusYellow: string := "text-yellow-400"
  const StatusRed: string := "text-red-400"
  const StatusSlate: string := "text-slate-400"

  const ScoreGreen: string := "text-green-400 bg-green-400/10"
  const ScoreYellow: string := "text-yellow-400 bg-yellow-400/10"
  const ScoreRed: string := "text-red-400 bg-red-400/10"

  /** What `formatDate` shows for a missing date. */
  const NotAvailable: string := "N/A"

  /** Lower case of one character; only 'A'..'Z' change. */
  function LowerChar(c: char): char {
    if 'A' <= c <= 'Z' then (c as int - 'A' as int + 'a' as int) as char else c
  }

  /** `String.prototype.toLowerCase`, for the characters modelled here. */
  function ToLower(s: string): string {
    seq(|s|, i requires 0 <= i < |s| => LowerChar(s[i]))
  }

  /** Reference definition: `a` and `b` agree character by character once
      both are lower-cased. */
  predicate EqualsIgnoringCase(a: string, b: string)
    decreases |a|
  {
    if a == [] || b == [] then a == b
    else LowerChar(a[0]) == LowerChar(b[0]) && EqualsIgnoringCase(a[1..], b[1..])
  }

  /** `getStatusColor`: `None` is a `null` or `undefined` status. */
  function StatusColor(status: Option<string>): string {
    match status
    case None => StatusSlate
    case Some(s) =>
      var key := ToLower(s);
      if key == "completed" || key == "running" then StatusGreen
      else if key == "pending" then StatusYellow
      else if key == "failed" || key == "error" then StatusRed
      else StatusSlate
  }

  /** `getScoreColor`: three bands, each with an inclusive lower bound. */
  function ScoreColor(score: real): string {
    if score >= 90.0 then ScoreGreen
    else if score >= 70.0 then ScoreYellow
    else ScoreRed
  }

  /** The band of a score class, worst first. */
  function ScoreRank(color: string): nat {
    if color == ScoreGreen then 2 else if color == ScoreYellow then 1 else 0
  }

  /** `formatDate`: a missing or empty date string is shown as "N/A"; any
      other goes to the browser's locale date formatter `localeDate`. */
  function FormatDate(dateString: Option<string>, localeDate: string -> string): string {
    match dateString
    case None => NotAvailable
    case Some(d) => if d == "" then NotAvailable else localeDate(d)
  }

  /** `formatCurrency`: a missing amount is formatted as 0 by the browser's
      currency formatter `usd`. */
  function FormatCurrency(value: Option<real>, usd: real -> string): string {
    usd(value.GetOr(0.0))
  }

  /** The class strings are pairwise different (they first differ at the
      character after "text-"). */
  lemma ClassesDistinct()
    ensures StatusGreen != StatusYellow && StatusGreen != StatusRed && StatusGreen != StatusSlate
    ensures StatusYellow != StatusRed && StatusYellow != StatusSlate && StatusRed != StatusSlate
    ensures ScoreGreen != ScoreYellow && ScoreGreen != ScoreRed && ScoreYellow != ScoreRed
  {
    assert StatusGreen[5] != StatusSlate[5];
    assert ScoreGreen[5] != ScoreYellow[5];
    assert ScoreGreen[5] != ScoreRed[5];
    assert ScoreYellow[5] != ScoreRed[5];
  }

  // ---------------------------------------------------------------------
  // Lower-casing

  /** Lower-casing `s` gives the lower-case word `w` exactly when `s` equals
      `w` ignoring case. */
  lemma {:induction false} ToLowerMatches(s: string, w: string)
    requires ToLower(w) == w
    ensures ToLower(s) == w <==> EqualsIgnoringCase(s, w)
    decreases |s|
  {
    if s != [] && w != [] {
      assert ToLower(w[1..]) == w[1..] by {
        assert forall i :: 0 <= i < |w[1..]| ==> ToLower(w[1..])[i] == LowerChar(w[i + 1]) == w[i + 1];
      }
      ToLowerMatches(s[1..], w[1..]);
      assert ToLower(s) == [LowerChar(s[0])] + ToLower(s[1..]);
      assert w == [w[0]] + w[1..];
      assert LowerChar(w[0]) == w[0] by { assert ToLower(w)[0] == LowerChar(w[0]); }
    }
  }

  /** A string with no upper-case letter is its own lower case. */
  lemma LowerCaseFixed(w: string)
    requires forall i :: 0 <= i < |w| ==> !('A' <= w[i] <= 'Z')
    ensures ToLower(w) == w
  {
  }

  lemma KeywordsAreLowerCase()
    ensures ToLower("completed") == "completed" && ToLower("running") == "running"
    ensures ToLower("pending") == "pending" && ToLower("failed") == "failed" && ToLower("error") == "error"
  {
    LowerCaseFixed("completed");
    LowerCaseFixed("running");
    LowerCaseFixed("pending");
    LowerCaseFixed("failed");
    LowerCaseFixed("error");
  }

  // ---------------------------------------------------------------------
  // Status colours

  /** Every status maps to one of the four classes; which one depends only on
      the status ignoring case, and anything not listed (including a missing
      status) gets the slate default. */
  lemma {:induction false} StatusColorTable(s: string)
    ensures StatusColor(Some(s)) == StatusGreen <==> EqualsIgnoringCase(s, "completed") || EqualsIgnoringCase(s, "running")
    ensures StatusColor(Some(s)) == StatusYellow <==> EqualsIgnoringCase(s, "pending")
    ensures StatusColor(Some(s)) == StatusRed <==> EqualsIgnoringCase(s, "failed") || EqualsIgnoringCase(s, "error")
    ensures StatusColor(Some(s)) == StatusSlate <==>
              !EqualsIgnoringCase(s, "completed") && !EqualsIgnoringCase(s, "running") && !EqualsIgnoringCase(s, "pending")
              && !EqualsIgnoringCase(s, "failed") && !EqualsIgnoringCase(s, "error")
  {
    KeywordsAreLowerCase();
    ToLowerMatches(s, "completed");
    ToLowerMatches(s, "running");
    ToLowerMatches(s, "pending");
    ToLowerMatches(s, "failed");
    ToLowerMatches(s, "error");
    ClassesDistinct();
  }

  /** Two statuses that differ only in case get the same class. */
  lemma StatusColorCaseInsensitive(a: string, b: string)
    requires ToLower(a) == ToLower(b)
    ensures StatusColor(Some(a)) == StatusColor(Some(b))
  {
  }

  /** Case does not matter; a status outside the table, such as "processing",
      or a missing one gets the default. */
  lemma StatusColorExamples()
    ensures StatusColor(Some("Completed")) == StatusGreen
    ensures StatusColor(Some("RUNNING")) == StatusGreen
    ensures StatusColor(Some("pending")) == StatusYellow
    ensures StatusColor(Some("Error")) == StatusRed
    ensures StatusColor(Some("processing")) == StatusSlate
    ensures StatusColor(None) == StatusSlate
  {
    assert ToLower("Completed") == "completed";
    assert ToLower("RUNNING") == "running";
    LowerCaseFixed("pending");
    assert ToLower("Error") == "error";
    LowerCaseFixed("processing");
  }

  // ---------------------------------------------------------------------
  // Score colours

  /** Each band in terms of the score, both directions. */
  lemma ScoreBands(score: real)
    ensures ScoreColor(score) == ScoreGreen <==> score >= 90.0
    ensures ScoreColor(score) == ScoreYellow <==> 70.0 <= score < 90.0
    ensures ScoreColor(score) == ScoreRed <==> score < 70.0
  {
    ClassesDistinct();
  }

  /** A higher score never gets a worse class. */
  lemma ScoreColorMonotonic(lower: real, higher: real)
    requires lower <= higher
    ensures ScoreRank(ScoreColor(lower)) <= ScoreRank(ScoreColor(higher))
  {
    ScoreBands(lower);
    ScoreBands(higher);
  }

  /** The boundaries 90 and 70 belong to the higher band; there is no band
      below 70, so 55 and 10 are both red. */
  lemma ScoreColorExamples()
    ensures ScoreColor(95.0) == ScoreGreen && ScoreColor(90.0) == ScoreGreen
    ensures ScoreColor(89.5) == ScoreYellow && ScoreColor(75.0) == ScoreYellow && ScoreColor(70.0) == ScoreYellow
    ensures ScoreColor(69.9) == ScoreRed && ScoreColor(55.0) == ScoreRed && ScoreColor(10.0) == ScoreRed
  {
  }

  // ---------------------------------------------------------------------
  // Placeholders

  /** A falsy date string, whatever the locale formatter, shows "N/A"; any
      other string is handed to the formatter unchanged. */
  lemma FormatDateFalsy(localeDate: string -> string, d: string)
    ensures FormatDate(None, localeDate) == NotAvailable
    ensures FormatDate(Some(""), localeDate) == NotAvailable
    ensures d != "" ==> FormatDate(Some(d), localeDate) == localeDate(d)
  {
  }

  /** A missing amount and zero format alike, as 0. */
  lemma FormatCurrencyFalsy(usd: real -> string, amount: real)
    ensures FormatCurrency(None, usd) == FormatCurrency(Some(0.0), usd) == usd(0.0)
    ensures FormatCurrency(Some(amount), usd) == usd(amount)
  {
  }
}
