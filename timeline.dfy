/**
 * The chart series (`chartData` in frontend/app.jsx): the last 60 historical
 * closes followed by the forecast, with one running index across both parts.
 */
module Timeline {
  import opened Wrappers
  import opened Prices

  /** How many trailing historical points the chart shows. */
  const ChartWindow: nat := 60

  /** One point of the line chart; a historical point fills `actual`, a forecast point `predicted`. */
  datatype ChartPoint = ChartPoint(index: nat, date: string, actual: Option<real>, predicted: Option<real>, origin: Origin)

  function HistoricalPart(window: seq<HistoricalPoint>): (part: seq<ChartPoint>)
    ensures |part| == |window|
    ensures forall i :: 0 <= i < |part| ==>
              part[i] == ChartPoint(i, window[i].date, Some(window[i].close), None, Historical)
  {
    seq(|window|, i requires 0 <= i < |window| =>
      ChartPoint(i, window[i].date, Some(window[i].close), None, Historical))
  }

  function PredictionPart(offset: nat, predictions: seq<ForecastPoint>): (part: seq<ChartPoint>)
    ensures |part| == |predictions|
    ensures forall i :: 0 <= i < |part| ==>
              part[i] == ChartPoint(offset + i, DayLabel(predictions[i].day), None, Some(predictions[i].price), Prediction)
  {
    seq(|predictions|, i requires 0 <= i < |predictions| =>
      ChartPoint(offset + i, DayLabel(predictions[i].day), None, Some(predictions[i].price), Prediction))
  }

  /** The merged series: the historical window, then the forecast, indexed by position. */
  function Merge(history: seq<HistoricalPoint>, predictions: seq<ForecastPoint>): (chart: seq<ChartPoint>)
    ensures |chart| == Min(ChartWindow, |history|) + |predictions|
    ensures forall k :: 0 <= k < |chart| ==> chart[k].index == k
  {
    var window := TakeLast(history, ChartWindow);
    HistoricalPart(window) + PredictionPart(|window|, predictions)
  }

  /**
   * Point k < w (w = min(60, |history|)) is history point |history| - w + k
   * with its date and close; point k >= w is forecast k - w with its label
   * and price.
   */
  lemma MergeAt(history: seq<HistoricalPoint>, predictions: seq<ForecastPoint>, k: nat)
    requires k < |Merge(history, predictions)|
    ensures var w := Min(ChartWindow, |history|);
            var point := Merge(history, predictions)[k];
            if k < w then
              point == ChartPoint(k, history[|history| - w + k].date, Some(history[|history| - w + k].close), None, Historical)
            else
              point == ChartPoint(k, DayLabel(predictions[k - w].day), None, Some(predictions[k - w].price), Prediction)
  {
    var window := TakeLast(history, ChartWindow);
    var chart := Merge(history, predictions);
    if k < |window| {
      assert chart[k] == HistoricalPart(window)[k];
    } else {
      assert chart[k] == PredictionPart(|window|, predictions)[k - |window|];
    }
  }

  /** Every point carries exactly one price, and which one is decided by its origin. */
  lemma MergeOnePriceEach(history: seq<HistoricalPoint>, predictions: seq<ForecastPoint>, k: nat)
    requires k < |Merge(history, predictions)|
    ensures var p := Merge(history, predictions)[k];
            (p.actual.Some? <==> p.predicted.None?) && (p.actual.Some? <==> p.origin == Historical)
  {
    MergeAt(history, predictions, k);
  }

  /** Historical points come first and forecast points after them, never interleaved. */
  lemma MergeOriginsContiguous(history: seq<HistoricalPoint>, predictions: seq<ForecastPoint>, i: nat, j: nat)
    requires i <= j < |Merge(history, predictions)|
    requires Merge(history, predictions)[i].origin == Prediction
    ensures Merge(history, predictions)[j].origin == Prediction
  {
    MergeAt(history, predictions, i);
    MergeAt(history, predictions, j);
  }

  /** With no forecast the chart is the historical window alone; with no history it is the forecast alone. */
  lemma MergeEmptySides(history: seq<HistoricalPoint>, predictions: seq<ForecastPoint>)
    ensures predictions == [] ==> Merge(history, predictions) == HistoricalPart(TakeLast(history, ChartWindow))
    ensures history == [] ==> Merge(history, predictions) == PredictionPart(0, predictions)
  {
    var window := TakeLast(history, ChartWindow);
    if predictions == [] {
      assert PredictionPart(|window|, predictions) == [];
      assert Merge(history, predictions) == HistoricalPart(window) + [];
    }
    if history == [] {
      assert window == [];
      assert HistoricalPart(window) == [];
      assert Merge(history, predictions) == [] + PredictionPart(0, predictions);
    }
  }

}
