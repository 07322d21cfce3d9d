/**
 * The records the dashboard receives from the prediction service, and the
 * "Day +n" label the chart and the table give a forecast day.
 */
module Prices {

  /** One day of the historical endpoint's `data`: a date string and a closing price. */
  datatype HistoricalPoint = HistoricalPoint(date: string, close: real)

  /** One forecast entry: an offset in days from today and the predicted price. */
  datatype ForecastPoint = ForecastPoint(day: nat, price: real)

  /** Where a chart point or a table row comes from. */
  datatype Origin = Historical | Prediction

  function Min(a: int, b: int): int { if a <= b then a else b }

  /** The trailing `n` elements of `s`, or all of `s` when it is shorter (JavaScript `s.slice(-n)`, n > 0). */
  function TakeLast<T>(s: seq<T>, n: nat): (r: seq<T>)
    requires n > 0
    ensures |r| == Min(n, |s|)
    ensures forall k :: 0 <= k < |r| ==> r[k] == s[|s| - |r| + k]
  {
    if |s| <= n then s else s[|s| - n..]
  }

  function DigitChar(d: nat): (c: char)
    requires d < 10
    ensures '0' <= c <= '9'
  {
    ['0', '1', '2', '3', '4', '5', '6', '7', '8', '9'][d]
  }

  function DigitValue(c: char): nat
    requires '0' <= c <= '9'
  {
    (c as int - '0' as int) as nat
  }

  predicate IsDecimal(s: string) {
    |s| > 0 && (forall k :: 0 <= k < |s| ==> '0' <= s[k] <= '9') && (s[0] == '0' ==> |s| == 1)
  }

  /** How a JavaScript template literal renders a whole number: decimal digits, no leading zero. */
  function DecimalString(n: nat): (s: string)
    ensures IsDecimal(s)
  {
    if n < 10 then [DigitChar(n)] else DecimalString(n / 10) + [DigitChar(n % 10)]
  }

  /** The number a string of decimal digits denotes. */
  function DecimalValue(s: string): nat
    requires forall k :: 0 <= k < |s| ==> '0' <= s[k] <= '9'
  {
    if s == [] then 0 else DecimalValue(s[..|s| - 1]) * 10 + DigitValue(s[|s| - 1])
  }

  /** Rendering a day number and reading it back gives the same number. */
  lemma {:induction false} DecimalRoundTrip(n: nat)
    ensures DecimalValue(DecimalString(n)) == n
  {
    var s := DecimalString(n);
    if n < 10 {
      assert s[..0] == [];
    } else {
      DecimalRoundTrip(n / 10);
      assert s[..|s| - 1] == DecimalString(n / 10);
    }
  }

  /** The label `Day +{day}` given to a forecast point. */
  function DayLabel(day: nat): (text: string)
    ensures |text| > 5 && text[..5] == "Day +" && IsDecimal(text[5..])
  {
    var text := "Day +" + DecimalString(day);
    assert text[5..] == DecimalString(day);
    text
  }

  /** A label is `Day +` followed by decimal digits that read back as the day. */
  lemma DayLabelReadsBack(day: nat)
    ensures var text := DayLabel(day);
            |text| > 5 && text[..5] == "Day +" && IsDecimal(text[5..]) && DecimalValue(text[5..]) == day
  {
    DecimalRoundTrip(day);
    assert DayLabel(day)[5..] == DecimalString(day);
  }

  /** Different days get different labels. */
  lemma DayLabelInjective(a: nat, b: nat)
    requires DayLabel(a) == DayLabel(b)
    ensures a == b
  {
    DayLabelReadsBack(a);
    DayLabelReadsBack(b);
  }
}
