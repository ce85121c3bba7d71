/** The Stock Search page (frontend/src/pages/StockSearch.js): searching
    by keyword, selecting a result to load its quote, and adding the
    selected stock to the watchlist. */
module SearchPage {
  import opened Base
  import Text
  import Api
  import AlphaVantage
  import TransactionFlow

  const NoResults := "No stocks found matching your search."
  const SearchFailed := "Search failed. Please try again."
  const QuoteFailed := "Failed to load stock quote."
  const AddFailed := "Failed to add to watchlist"

  datatype State = State(
    query: string,
    results: seq<Api.SearchMatch>,
    selected: Option<Api.SearchMatch>,
    quote: Option<Api.Quote>,
    loading: bool,
    error: string,
    adding: bool)

  const Initial: State := State("", [], None, None, false, "", false)

  /** A search submit: the button is disabled while loading, and a query
      that trims to nothing returns at once. Otherwise everything shown
      from before is cleared and the query, untrimmed, is sent. */
  function SearchStart(s: State): (res: (State, Option<string>))
    ensures s.loading || Text.Trim(s.query, Text.JsSpace) == [] ==> res == (s, None)
    ensures !s.loading && Text.Trim(s.query, Text.JsSpace) != [] ==>
      && res.1 == Some(s.query)
      && res.0 == State(s.query, [], None, None, true, "", s.adding)
  {
    if s.loading || Text.Trim(s.query, Text.JsSpace) == [] then (s, None)
    else (s.(loading := true, error := "", results := [], selected := None, quote := None), Some(s.query))
  }

  /** `GET /api/stocks/search/<query>` as the backend answers it: the
      client's matches with 200, or a failure when the client raised. */
  function SearchRoute(data: Option<map<string, Api.Value>>): (r: Option<seq<Api.SearchMatch>>)
    ensures r.Some? <==> AlphaVantage.SearchStocks(data).Got?
    ensures r.Some? ==> r.value == AlphaVantage.SearchStocks(data).value && |r.value| <= AlphaVantage.MaxMatches
  {
    match AlphaVantage.SearchStocks(data)
    case Got(v) => Some(v)
    case Raised => None
  }

  /** The search once its request settles (`None` when it failed): the
      results are shown, with a message when there are none; a failure
      shows its own message. */
  function SearchDone(s: State, response: Option<seq<Api.SearchMatch>>): (r: State)
    ensures !r.loading
    ensures response.Some? ==> r.results == response.value
    ensures response.Some? && response.value == [] ==> r.error == NoResults
    ensures response.Some? && response.value != [] ==> r.error == s.error
    ensures response.None? ==> r.results == s.results && r.error == SearchFailed
    ensures r.(results := s.results, error := s.error, loading := s.loading) == s
  {
    match response
    case Some(results) =>
      s.(results := results, error := if results == [] then NoResults else s.error, loading := false)
    case None => s.(error := SearchFailed, loading := false)
  }

  /** A search that is sent and answered shows at most ten results, a
      message exactly when it has none to show, and no selection or quote
      left over from before. */
  lemma SearchRoundTrip(s: State, data: Option<map<string, Api.Value>>)
    requires !s.loading && Text.Trim(s.query, Text.JsSpace) != []
    ensures var r := SearchDone(SearchStart(s).0, SearchRoute(data));
      && |r.results| <= AlphaVantage.MaxMatches
      && r.selected.None? && r.quote.None? && !r.loading
      && (r.error == "" <==> r.results != [])
      && (AlphaVantage.SearchStocks(data).Raised? ==> r.error == SearchFailed)
  {
  }

  /** Clicking a result: it becomes the selection, the old quote goes and
      its quote is requested by the match's symbol. Results stay clickable
      while loading. */
  function Select(s: State, stock: Api.SearchMatch): (res: (State, Option<Api.Value>))
    ensures res.0 == s.(selected := Some(stock), quote := None, loading := true, error := "")
    ensures res.1 == stock.symbol
  {
    (s.(selected := Some(stock), quote := None, loading := true, error := ""), stock.symbol)
  }

  /** The quote request once it settles (`None` when it failed). */
  function SelectDone(s: State, response: Option<Api.Quote>): (r: State)
    ensures !r.loading && r.selected == s.selected && r.results == s.results
    ensures response.Some? ==> r.quote == response && r.error == s.error
    ensures response.None? ==> r.quote == s.quote && r.error == QuoteFailed
    ensures r.(quote := s.quote, error := s.error, loading := s.loading) == s
  {
    if response.Some? then s.(quote := response, loading := false)
    else s.(error := QuoteFailed, loading := false)
  }

  /** The details panel: the quote when both a selection and a quote are
      present, a spinner while a selected quote loads, otherwise a hint. */
  datatype Panel = Details(stock: Api.SearchMatch, quote: Api.Quote) | LoadingDetails | Hint

  function PanelOf(s: State): (p: Panel)
    ensures p.Details? <==> s.selected.Some? && s.quote.Some?
    ensures p.Details? ==> p.stock == s.selected.value && p.quote == s.quote.value
    ensures p.LoadingDetails? <==> s.selected.Some? && s.quote.None? && s.loading
  {
    if s.selected.Some? && s.quote.Some? then Details(s.selected.value, s.quote.value)
    else if s.selected.Some? && s.loading then LoadingDetails
    else Hint
  }

  /** A selection shows no details until its own quote arrives, and then
      shows that quote beside that match. */
  lemma SelectionShowsItsQuote(s: State, stock: Api.SearchMatch, q: Api.Quote)
    ensures PanelOf(Select(s, stock).0) == LoadingDetails
    ensures PanelOf(SelectDone(Select(s, stock).0, Some(q))) == Details(stock, q)
    ensures PanelOf(SelectDone(Select(s, stock).0, None)) == Hint
  {
  }

  /** "Add to Watchlist", shown with the details and disabled while a
      request runs: it raises `adding` and posts the selection's symbol. */
  function AddStart(s: State): (res: (State, Option<Option<Api.Value>>))
    ensures !(PanelOf(s).Details? && !s.adding) ==> res == (s, None)
    ensures PanelOf(s).Details? && !s.adding ==>
      res == (s.(adding := true), Some(s.selected.value.symbol))
  {
    if s.selected.Some? && s.quote.Some? && !s.adding then (s.(adding := true), Some(s.selected.value.symbol))
    else (s, None)
  }

  /** The alert the add shows: the symbol added, or an error text. */
  datatype Alert = Added(symbol: Option<Api.Value>) | Failed(message: string)

  /** The add once its post settles: `adding` drops and an alert names the
      symbol on success, or the backend's error text (its fallback when
      there is none) on failure. */
  function AddDone(s: State, symbol: Option<Api.Value>, o: TransactionFlow.Outcome): (res: (State, Alert))
    ensures res.0 == s.(adding := false)
    ensures o.Accepted? ==> res.1 == Added(symbol)
    ensures o.Rejected? ==> res.1 == Failed(TransactionFlow.Message(o, AddFailed))
  {
    (s.(adding := false), if o.Accepted? then Added(symbol) else Failed(TransactionFlow.Message(o, AddFailed)))
  }

  /** An add that starts and settles leaves `adding` lowered, and a second
      click while it runs sends nothing. */
  lemma AddFlagReturns(s: State, o: TransactionFlow.Outcome)
    requires PanelOf(s).Details? && !s.adding
    ensures AddStart(AddStart(s).0).1.None?
    ensures var (started, symbol) := AddStart(s);
      symbol.Some? && !AddDone(started, symbol.value, o).0.adding
  {
  }
}
