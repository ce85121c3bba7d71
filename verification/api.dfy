/** The JSON shapes the backend sends and the pages read (the `to_dict`
    results and the route payloads of backend/app.py). Timestamps the
    backend adds from its clock (`created_at`, `added_at`, `last_updated`)
    are not carried. */
module Api {
  import opened Base

  /** A JSON value as Alpha Vantage sends it: strings, objects and arrays. */
  datatype Value = VStr(s: string) | VObj(fields: map<string, Value>) | VList(items: seq<Value>)

  /** A user as `/api/me`, `/api/login` and `/api/register` return it. */
  datatype UserInfo = UserInfo(id: nat, username: string)

  /** The `stock_data` object of a watchlist row. Every field may be
      missing: a symbol never quoted has only `symbol` and `name`. */
  datatype StockData = StockData(
    symbol: Option<string>,
    name: Option<string>,
    sector: Option<string>,
    lastPrice: Option<real>,
    change: Option<real>,
    changePercent: Option<string>)

  /** One element of `/api/watchlist`'s `watchlist` array. */
  datatype WatchRow = WatchRow(id: nat, symbol: string, stockData: StockData)

  /** A quote as `/api/stocks/<symbol>/quote` returns it under `quote`. */
  datatype Quote = Quote(
    symbol: Option<Value>,
    price: real,
    change: real,
    changePercent: string,
    volume: int,
    latestTradingDay: Option<Value>,
    previousClose: real)

  /** One element of `/api/stocks/search/<query>`'s `results`. */
  datatype SearchMatch = SearchMatch(
    symbol: Option<Value>,
    name: Option<Value>,
    kind: Option<Value>,
    region: Option<Value>,
    currency: Option<Value>)

  /** A transaction as `to_dict` writes it (without `id`/`created_at`). */
  datatype TxView = TxView(symbol: string, kind: string, quantity: int, price: real, date: int)

  /** One element of `/api/portfolio`'s `holdings`. Amounts are exact: the
      backend's `round(..., 2)` is not part of this model. */
  datatype Holding = Holding(
    symbol: string,
    quantity: int,
    avgCost: real,
    currentPrice: real,
    currentValue: real,
    totalCost: real,
    gainLoss: real,
    gainLossPercent: real)

  /** `/api/portfolio`'s `summary`. */
  datatype Summary = Summary(
    totalValue: real,
    totalCost: real,
    totalGainLoss: real,
    totalGainLossPercent: real,
    positionsCount: nat)

  /** The whole `/api/portfolio` payload. */
  datatype PortfolioData = PortfolioData(
    holdings: seq<Holding>,
    summary: Summary,
    recentTransactions: seq<TxView>)
}
