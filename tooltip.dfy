/**
 * The year text shown in the hover tooltips: a positive year is written
 * as its digits followed by 年 ("year"); zero and negative years are
 * written as 公元前 ("BCE") followed by the magnitude and 年. The dynasty
 * tooltip applies the rule to the start and the end year, the event
 * tooltip writes the same rule inline for the event's year.
 */
module Tooltip {
  import opened Text

  datatype Option<T> = None | Some(value: T)

  const BcePrefix: string := "公元前"
  const YearSuffix: string := "年"

  /** `Math.abs`. */
  function Abs(y: int): (m: nat)
    ensures m == y || m == -y
  {
    if y < 0 then -y else y
  }

  /** The dynasty tooltip's `d.start > 0 ? d.start + '年' : '公元前' + Math.abs(d.start) + '年'`. */
  function FormatYear(y: int): (s: string)
    ensures |s| >= 2 && s[|s| - 1] == '年'
    ensures BcePrefix <= s <==> y <= 0
  {
    if y > 0 then
      var digits := Decimal(y);
      assert IsDigit((digits + YearSuffix)[0]);
      digits + YearSuffix
    else BcePrefix + Decimal(Abs(y)) + YearSuffix
  }

  /** The event tooltip's `${d.year > 0 ? d.year : '公元前' + Math.abs(d.year)}年`: the same rule. */
  function EventYearText(y: int): (s: string)
    ensures s == FormatYear(y)
  {
    (if y > 0 then Decimal(y) else BcePrefix + Decimal(Abs(y))) + YearSuffix
  }

  /**
   * Reads a tooltip year back: digits followed by 年 give a positive year,
   * 公元前, digits and 年 give its negation; anything else is `None`.
   */
  function ParseYear(s: string): (r: Option<int>)
    ensures r.Some? && BcePrefix <= s ==> r.value <= 0
  {
    if |s| == 0 || s[|s| - 1] != '年' then None
    else
      var body := s[..|s| - 1];
      if BcePrefix <= body then
        var digits := body[|BcePrefix|..];
        if digits != [] && AllDigits(digits) then
          var magnitude: int := ParseDecimal(digits);
          Some(-magnitude)
        else None
      else if body != [] && AllDigits(body) then Some(ParseDecimal(body))
      else None
  }

  /** The tooltip text determines the year: reading it back gives the year that was formatted. */
  lemma ParseFormatRoundTrip(y: int)
    ensures ParseYear(FormatYear(y)) == Some(y)
  {
    var s := FormatYear(y);
    var body := s[..|s| - 1];
    if y > 0 {
      assert body == Decimal(y);
      assert !(BcePrefix <= body) by {
        assert IsDigit(body[0]);
      }
      ParseDecimalOfDecimal(y);
    } else {
      assert body == BcePrefix + Decimal(Abs(y));
      assert body[|BcePrefix|..] == Decimal(Abs(y));
      ParseDecimalOfDecimal(Abs(y));
    }
  }

  /** Different years never share a tooltip text; in particular year 0 reads "公元前0年", unlike every other year. */
  lemma FormatYearInjective(a: int, b: int)
    requires FormatYear(a) == FormatYear(b)
    ensures a == b
  {
    ParseFormatRoundTrip(a);
    ParseFormatRoundTrip(b);
  }
}
