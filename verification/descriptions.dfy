/**
 * The text the calculator shows for an applied discount and for an invoice
 * detail line (services/billingService.ts:33, 61, 68, 78).
 *
 * Turning a number into text (JavaScript's number-to-string conversion and
 * `toFixed(0)`) is platform formatting; it is a parameter here, `num` and
 * `fixed0`. The invoice view splits a description at its colon into a label
 * and a value, so what matters is that each description has exactly one.
 */
module Descriptions {
  import opened BillingTypes

  /** The part of a description before the colon. */
  function Label(d: AppliedDiscount, num: real -> string): string {
    match d
    case MultiSubjectReduction(threshold, _, _) => "多科联报 (>= " + num(threshold as real) + " 科)"
    case MultiSubjectFixed(threshold, _) => "多科联报 (>= " + num(threshold as real) + " 科)"
    case VolumeDiscount(hoursThreshold, _) => "课时量折扣 (> " + num(hoursThreshold) + " 课时)"
  }

  /** The part of a description after the colon. */
  function Value(d: AppliedDiscount, num: real -> string, fixed0: real -> string): string {
    match d
    case MultiSubjectReduction(_, perHour, total) => " 每课时立减 ¥" + num(perHour) + "，共减 ¥" + num(total)
    case MultiSubjectFixed(_, perHour) => " 统一定价 ¥" + num(perHour) + "/课时"
    case VolumeDiscount(_, percentOff) => " -" + fixed0(percentOff) + "%"
  }

  /** The description pushed onto `appliedDiscounts`. */
  function Describe(d: AppliedDiscount, num: real -> string, fixed0: real -> string): string {
    Label(d, num) + ":" + Value(d, num, fixed0)
  }

  /**
   * When numbers are written without colons, a description has exactly one
   * colon, so splitting it there gives back its label and its value.
   */
  lemma DescriptionSplitsAtOneColon(d: AppliedDiscount, num: real -> string, fixed0: real -> string)
    requires forall x :: ':' !in num(x)
    requires forall x :: ':' !in fixed0(x)
    ensures var text, n := Describe(d, num, fixed0), |Label(d, num)|;
      && n < |text|
      && text[n] == ':'
      && text[..n] == Label(d, num)
      && text[n + 1..] == Value(d, num, fixed0)
      && forall i :: 0 <= i < |text| && text[i] == ':' ==> i == n
  {
    var prefix, suffix := Label(d, num), Value(d, num, fixed0);
    var text := Describe(d, num, fixed0);
    assert ':' !in prefix && ':' !in suffix;
    var n := |prefix|;
    assert forall i :: 0 <= i < n ==> text[i] == prefix[i];
    assert forall i :: n < i < |text| ==> text[i] == suffix[i - n - 1];
    assert text[..n] == prefix;
    assert text[n + 1..] == suffix;
  }

  /** The detail line of one lesson: its date, then its hours in parentheses. */
  function DetailText(e: DetailEntry, num: real -> string): string {
    e.date + " (" + num(e.hours) + "h)"
  }

  /**
   * When hours are written without parentheses, the last opening
   * parenthesis of a detail line follows the date and a space, so the date
   * can be read back from the line.
   */
  lemma DetailTextKeepsDate(e: DetailEntry, num: real -> string)
    requires forall x :: '(' !in num(x)
    ensures var text, n := DetailText(e, num), |e.date|;
      && n + 2 <= |text|
      && text[..n] == e.date
      && text[n..n + 2] == " ("
      && forall i :: n + 1 < i < |text| ==> text[i] != '('
  {
    var text, n := DetailText(e, num), |e.date|;
    var h := num(e.hours);
    assert text == e.date + " (" + h + "h)";
    assert forall i :: n + 2 <= i < n + 2 + |h| ==> text[i] == h[i - n - 2];
  }
}
