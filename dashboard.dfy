/**
 * The state of the `StockForecastDashboard` component that the core logic
 * writes: the catalog and the selection set when the models arrive, and the
 * series and summary set when a fetch for the selected stock completes.
 */
module Dashboard {
  import opened Wrappers
  import opened Prices
  import opened Catalog

  /** The summary shown beside the price: absolute and percentage change. */
  datatype PriceChange = PriceChange(value: real, percent: real)

  /** One element of the predict endpoint's `predictions` list. */
  datatype StockPrediction = StockPrediction(currentPrice: real, priceChange: real, percentChange: real,
                                             predictions: seq<ForecastPoint>)

  /** The predict endpoint's answer; `predictions` may be missing from the JSON. */
  datatype PredictResponse = PredictResponse(predictions: Option<seq<StockPrediction>>)

  /** Whether an answer carries at least one stock prediction to show. */
  predicate HasPrediction(response: PredictResponse) {
    response.predictions.Some? && |response.predictions.value| > 0
  }

  class StockDashboard {
    var models: seq<ModelInfo>
    var allStocks: seq<Instrument>
    var selectedStock: Option<Instrument>
    var historicalData: seq<HistoricalPoint>
    var predictions: seq<ForecastPoint>
    var currentPrice: Option<real>
    var priceChange: Option<PriceChange>

    /** The selectable stocks are the catalog of the stored models, so their names are distinct. */
    ghost predicate Valid()
      reads this
      ensures Valid() ==> NamesUnique(allStocks)
    {
      allStocks == CatalogOf(models)
    }

    /** The initial `useState` values. */
    constructor ()
      ensures Valid()
      ensures models == [] && allStocks == [] && selectedStock == None
      ensures historicalData == [] && predictions == [] && currentPrice == None && priceChange == None
    {
      models, allStocks, selectedStock := [], [], None;
      historicalData, predictions := [], [];
      currentPrice, priceChange := None, None;
    }

    /**
     * `fetchModels` once the models have arrived: store them, store the
     * catalog, and select its first entry when there is one; otherwise the
     * selection stays as it was.
     */
    method LoadModels(data: seq<ModelInfo>)
      modifies this
      ensures Valid()
      ensures models == data && allStocks == CatalogOf(data)
      ensures selectedStock == if |allStocks| > 0 then Some(allStocks[0]) else old(selectedStock)
      ensures historicalData == old(historicalData) && predictions == old(predictions)
      ensures currentPrice == old(currentPrice) && priceChange == old(priceChange)
    {
      models := data;
      var stocks := BuildCatalog(data);
      allStocks := stocks;
      if |stocks| > 0 {
        selectedStock := Some(stocks[0]);
      }
    }

    /**
     * `fetchData` once both answers have arrived: the history is always
     * replaced; the forecast, current price and change only when the answer
     * holds at least one stock prediction, and then from the first one.
     */
    method CommitFetch(history: seq<HistoricalPoint>, response: PredictResponse)
      requires Valid()
      modifies this
      ensures Valid()
      ensures historicalData == history
      ensures HasPrediction(response) ==>
                var first := response.predictions.value[0];
                predictions == first.predictions && currentPrice == Some(first.currentPrice) &&
                priceChange == Some(PriceChange(first.priceChange, first.percentChange))
      ensures !HasPrediction(response) ==>
                predictions == old(predictions) && currentPrice == old(currentPrice) &&
                priceChange == old(priceChange)
      ensures models == old(models) && allStocks == old(allStocks) && selectedStock == old(selectedStock)
    {
      historicalData := history;
      if response.predictions.Some? && |response.predictions.value| > 0 {
        var first := response.predictions.value[0];
        predictions := first.predictions;
        currentPrice := Some(first.currentPrice);
        priceChange := Some(PriceChange(first.priceChange, first.percentChange));
      }
    }
  }
}
