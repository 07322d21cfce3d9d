/**
 * The rows of the table view (frontend/app.jsx, the two `map` calls inside
 * `<tbody>`): forecast rows newest day first, then the last 30 historical
 * days newest first, each with a percentage change against a reference price.
 */
module Ledger {
  import opened Prices

  /** How many trailing historical days the table shows. */
  const TableWindow: nat := 30

  /** The change cell: the `'-'` placeholder, or a percentage with its colour class. */
  datatype Change = Placeholder | Percent(value: real, positive: bool)

  datatype LedgerRow = LedgerRow(date: string, origin: Origin, price: real, change: Change)

  /**
   * The change of `price` against `base` in percent, classed `positive` when
   * the price did not fall. The division needs a non-zero base.
   */
  function PercentChange(price: real, base: real): (c: Change)
    requires base != 0.0
    ensures c.Percent? && (c.positive <==> price >= base)
    ensures c.value * base == (price - base) * 100.0
  {
    Percent((price - base) / base * 100.0, price - base >= 0.0)
  }

  /** For a positive base the colour class agrees with the sign of the percentage. */
  lemma PercentChangeSign(price: real, base: real)
    requires base > 0.0
    ensures PercentChange(price, base).positive <==> PercentChange(price, base).value >= 0.0
    ensures PercentChange(price, base).value == 0.0 <==> price == base
  {
    var c := PercentChange(price, base);
    if c.value >= 0.0 {
      assert c.value * base >= 0.0;
    } else {
      assert c.value * base < 0.0;
    }
  }

  /**
   * The reference price of forecast day `d` (chronological position): the
   * forecast before it, or for the earliest forecast the last historical close.
   */
  function ForecastBase(history: seq<HistoricalPoint>, predictions: seq<ForecastPoint>, d: nat): real
    requires d < |predictions|
    requires d == 0 ==> |history| > 0
  {
    if d > 0 then predictions[d - 1].price else history[|history| - 1].close
  }

  /** The references a forecast row divides by are non-zero, and history exists when a forecast does. */
  predicate ForecastRowsDefined(history: seq<HistoricalPoint>, predictions: seq<ForecastPoint>) {
    (|predictions| > 0 ==> |history| > 0 && history[|history| - 1].close != 0.0) &&
    forall d :: 0 <= d < |predictions| - 1 ==> predictions[d].price != 0.0
  }

  /**
   * The forecast rows, over a reversed copy of the forecast: row i shows
   * forecast n-1-i and compares it with forecast n-2-i, or, on the last row,
   * with the last historical close.
   */
  function ForecastRows(history: seq<HistoricalPoint>, predictions: seq<ForecastPoint>): (rows: seq<LedgerRow>)
    requires ForecastRowsDefined(history, predictions)
    ensures |rows| == |predictions|
    ensures forall i :: 0 <= i < |rows| ==>
              var d := |predictions| - 1 - i;
              rows[i] == LedgerRow(DayLabel(predictions[d].day), Prediction, predictions[d].price,
                                   PercentChange(predictions[d].price, ForecastBase(history, predictions, d)))
  {
    seq(|predictions|, i requires 0 <= i < |predictions| => ForecastRow(history, predictions, i))
  }

  /** The callback of the forecast `map`, for row i of the reversed forecast. */
  function ForecastRow(history: seq<HistoricalPoint>, predictions: seq<ForecastPoint>, i: nat): (row: LedgerRow)
    requires ForecastRowsDefined(history, predictions) && i < |predictions|
    ensures var d := |predictions| - 1 - i;
            row == LedgerRow(DayLabel(predictions[d].day), Prediction, predictions[d].price,
                             PercentChange(predictions[d].price, ForecastBase(history, predictions, d)))
  {
    var n := |predictions|;
    var p := predictions[n - 1 - i];
    LedgerRow(DayLabel(p.day), Prediction, p.price,
      if i < n - 1 then PercentChange(p.price, predictions[n - 1 - (i + 1)].price)
      else PercentChange(p.price, history[|history| - 1].close))
  }

  /** The divisors the historical rows as written use are non-zero. */
  predicate HistoricalRowsAsWrittenDefined(history: seq<HistoricalPoint>) {
    forall t :: 0 <= t < |history| && t >= |history| - (TableWindow - 1) ==> history[t].close != 0.0
  }

  /**
   * The historical rows as written, over the last 30 days reversed: row i
   * shows day |history|-1-i and, for i < 29, compares it with the day at
   * index |history| - 30 + (29 - i), which is that same day. Every such row shows a zero change; only row 29 shows the placeholder.
   */
  function HistoricalRowsAsWritten(history: seq<HistoricalPoint>): (rows: seq<LedgerRow>)
    requires HistoricalRowsAsWrittenDefined(history)
    ensures |rows| == Min(TableWindow, |history|)
    ensures forall i :: 0 <= i < |rows| ==>
              rows[i].date == history[|history| - 1 - i].date && rows[i].origin == Historical &&
              rows[i].price == history[|history| - 1 - i].close
    ensures forall i :: 0 <= i < |rows| ==> (rows[i].change == Placeholder <==> i == TableWindow - 1)
    ensures forall i :: 0 <= i < |rows| && i < TableWindow - 1 ==>
              var t := |history| - 1 - i;
              rows[i].change == PercentChange(history[t].close, history[t].close)
  {
    var window := TakeLast(history, TableWindow);
    seq(|window|, i requires 0 <= i < |window| => HistoricalRowAsWritten(history, window, i))
  }

  /** The callback of the historical `map` as written, for row i of the reversed window. */
  function HistoricalRowAsWritten(history: seq<HistoricalPoint>, window: seq<HistoricalPoint>, i: nat): (row: LedgerRow)
    requires HistoricalRowsAsWrittenDefined(history)
    requires window == TakeLast(history, TableWindow) && i < |window|
    ensures var t := |history| - 1 - i;
            row.date == history[t].date && row.origin == Historical && row.price == history[t].close &&
            row.change == if i < TableWindow - 1 then PercentChange(history[t].close, history[t].close)
                          else Placeholder
  {
    var d := window[|window| - 1 - i];
    LedgerRow(d.date, Historical, d.close,
      if i < 29 then PercentChange(d.close, history[|history| - 30 + (29 - i)].close)
      else Placeholder)
  }

  /** The divisors the corrected historical rows use (every shown day but the oldest) are non-zero. */
  predicate HistoricalRowsDefined(history: seq<HistoricalPoint>) {
    forall t :: 0 <= t < |history| - 1 && t >= |history| - TableWindow ==> history[t].close != 0.0
  }

  /**
   * The historical rows as the table is meant to show them: the day at
   * chronological position t is compared with day t - 1 when that day is also
   * in the shown window, and the oldest shown day gets the placeholder.
   */
  function HistoricalRows(history: seq<HistoricalPoint>): (rows: seq<LedgerRow>)
    requires HistoricalRowsDefined(history)
    ensures |rows| == Min(TableWindow, |history|)
    ensures forall i :: 0 <= i < |rows| ==>
              var t := |history| - 1 - i;
              rows[i].date == history[t].date && rows[i].origin == Historical &&
              rows[i].price == history[t].close &&
              rows[i].change == if i < |rows| - 1 then PercentChange(history[t].close, history[t - 1].close)
                                else Placeholder
  {
    var window := TakeLast(history, TableWindow);
    seq(|window|, i requires 0 <= i < |window| => HistoricalRow(history, window, i))
  }

  /** Row i of the reversed window, compared with the day below it in the window. */
  function HistoricalRow(history: seq<HistoricalPoint>, window: seq<HistoricalPoint>, i: nat): (row: LedgerRow)
    requires HistoricalRowsDefined(history)
    requires window == TakeLast(history, TableWindow) && i < |window|
    ensures var t := |history| - 1 - i;
            row.date == history[t].date && row.origin == Historical && row.price == history[t].close &&
            row.change == if i < |window| - 1 then PercentChange(history[t].close, history[t - 1].close)
                          else Placeholder
  {
    var w := |window|;
    var d := window[w - 1 - i];
    assert d == history[|history| - 1 - i];
    if i < w - 1 then
      var before := window[w - 2 - i];
      assert before == history[|history| - 2 - i];
      LedgerRow(d.date, Historical, d.close, PercentChange(d.close, before.close))
    else
      LedgerRow(d.date, Historical, d.close, Placeholder)
  }

  /** The whole table as written: forecast rows, then the historical rows with the self-comparison. */
  function LedgerAsWritten(history: seq<HistoricalPoint>, predictions: seq<ForecastPoint>): (rows: seq<LedgerRow>)
    requires ForecastRowsDefined(history, predictions) && HistoricalRowsAsWrittenDefined(history)
    ensures |rows| == |predictions| + Min(TableWindow, |history|)
    ensures forall i :: 0 <= i < |rows| ==> (rows[i].origin == Prediction <==> i < |predictions|)
  {
    ForecastRows(history, predictions) + HistoricalRowsAsWritten(history)
  }

  /** The whole table with each historical day compared with the day before it. */
  function Ledger(history: seq<HistoricalPoint>, predictions: seq<ForecastPoint>): (rows: seq<LedgerRow>)
    requires ForecastRowsDefined(history, predictions) && HistoricalRowsDefined(history)
    ensures |rows| == |predictions| + Min(TableWindow, |history|)
    ensures forall i :: 0 <= i < |rows| ==> (rows[i].origin == Prediction <==> i < |predictions|)
  {
    ForecastRows(history, predictions) + HistoricalRows(history)
  }

  /**
   * Every row's change is taken against its chronological predecessor: the
   * row right below it in the table, except for the oldest row shown.
   */
  lemma {:induction false} LedgerComparesWithRowBelow(history: seq<HistoricalPoint>, predictions: seq<ForecastPoint>, i: nat)
    requires ForecastRowsDefined(history, predictions) && HistoricalRowsDefined(history)
    requires i + 1 < |Ledger(history, predictions)|
    ensures var rows := Ledger(history, predictions);
            rows[i + 1].price != 0.0 &&
            rows[i].change == PercentChange(rows[i].price, rows[i + 1].price)
  {
    var rows := Ledger(history, predictions);
    var n := |predictions|;
    var f := ForecastRows(history, predictions);
    var h := HistoricalRows(history);
    if i + 1 < n {
      assert rows[i] == f[i] && rows[i + 1] == f[i + 1];
      ForecastRowBelow(history, predictions, i);
    } else if i + 1 == n {
      assert rows[i] == f[i] && rows[i + 1] == h[0];
      SeamRowBelow(history, predictions);
    } else {
      assert rows[i] == h[i - n] && rows[i + 1] == h[i + 1 - n];
      HistoricalRowBelow(history, i - n);
    }
  }

  lemma ForecastRowBelow(history: seq<HistoricalPoint>, predictions: seq<ForecastPoint>, i: nat)
    requires ForecastRowsDefined(history, predictions)
    requires i + 1 < |predictions|
    ensures var f := ForecastRows(history, predictions);
            f[i + 1].price != 0.0 && f[i].change == PercentChange(f[i].price, f[i + 1].price)
  {
  }

  lemma SeamRowBelow(history: seq<HistoricalPoint>, predictions: seq<ForecastPoint>)
    requires ForecastRowsDefined(history, predictions) && HistoricalRowsDefined(history)
    requires |predictions| > 0
    ensures var f := ForecastRows(history, predictions);
            var h := HistoricalRows(history);
            |h| > 0 && h[0].price != 0.0 && f[|f| - 1].change == PercentChange(f[|f| - 1].price, h[0].price)
  {
  }

  lemma HistoricalRowBelow(history: seq<HistoricalPoint>, i: nat)
    requires HistoricalRowsDefined(history)
    requires i + 1 < |HistoricalRows(history)|
    ensures var h := HistoricalRows(history);
            h[i + 1].price != 0.0 && h[i].change == PercentChange(h[i].price, h[i + 1].price)
  {
  }

  /** As written, a historical row other than row 29 shows a zero change whatever the prices. */
  lemma AsWrittenHistoricalChangeIsZero(history: seq<HistoricalPoint>, predictions: seq<ForecastPoint>, i: nat)
    requires ForecastRowsDefined(history, predictions) && HistoricalRowsAsWrittenDefined(history)
    requires |predictions| <= i < |LedgerAsWritten(history, predictions)|
    requires i - |predictions| != TableWindow - 1
    ensures LedgerAsWritten(history, predictions)[i].change == Percent(0.0, true)
  {
    var rows := LedgerAsWritten(history, predictions);
    var k := i - |predictions|;
    var t := |history| - 1 - k;
    assert rows[i] == HistoricalRowsAsWritten(history)[k];
    SelfChangeIsZero(history[t].close);
  }

  lemma SelfChangeIsZero(x: real)
    requires x != 0.0
    ensures PercentChange(x, x) == Percent(0.0, true)
  {
    assert x - x == 0.0;
    assert 0.0 / x == 0.0;
  }

  /**
   * Two closes of 10 then 11 and a forecast of 12 for day 1: the intended
   * table shows +100/11 % for day 1, +10 % for the newer close and the
   * placeholder for the older; as written both closes show 0 %.
   */
  lemma RiseThenForecastExample()
    ensures var history := [HistoricalPoint("d1", 10.0), HistoricalPoint("d2", 11.0)];
            var predictions := [ForecastPoint(1, 12.0)];
            && Ledger(history, predictions) ==
               [LedgerRow(DayLabel(1), Prediction, 12.0, Percent(100.0 / 11.0, true)),
                LedgerRow("d2", Historical, 11.0, Percent(10.0, true)),
                LedgerRow("d1", Historical, 10.0, Placeholder)]
            && LedgerAsWritten(history, predictions)[1].change == Percent(0.0, true)
            && LedgerAsWritten(history, predictions)[2].change == Percent(0.0, true)
  {
    var history := [HistoricalPoint("d1", 10.0), HistoricalPoint("d2", 11.0)];
    var predictions := [ForecastPoint(1, 12.0)];
    var rows := Ledger(history, predictions);
    assert rows[0] == ForecastRows(history, predictions)[0];
    assert rows[1] == HistoricalRows(history)[0];
    assert rows[2] == HistoricalRows(history)[1];
  }

  /** With an empty forecast the table is the historical rows alone. */
  lemma NoForecastOnlyHistory(history: seq<HistoricalPoint>)
    requires HistoricalRowsDefined(history)
    ensures Ledger(history, []) == HistoricalRows(history)
  {
    var f := ForecastRows(history, []);
    assert f == [];
    assert Ledger(history, []) == f + HistoricalRows(history);
  }
}
