/** The Watchlist page (frontend/src/pages/Watchlist.js): loading the
    list, refreshing its prices from one quote request per item, and
    removing an item. */
module WatchlistPage {
  import opened Base
  import Text
  import Api
  import Store

  const LoadFailed := "Failed to load watchlist"
  const RemoveFailed := "Failed to remove stock from watchlist"

  datatype State = State(watchlist: seq<Api.WatchRow>, loading: bool, error: string, refreshing: bool)

  const Initial: State := State([], true, "", false)

  /** `fetchWatchlist` once `GET /api/watchlist` settles (`None` when it
      failed): success shows the list and clears the error; failure keeps
      the list shown so far and reports the failure. */
  function FetchDone(s: State, response: Option<seq<Api.WatchRow>>): (r: State)
    ensures !r.loading && r.refreshing == s.refreshing
    ensures response.Some? ==> r.watchlist == response.value && r.error == ""
    ensures response.None? ==> r.watchlist == s.watchlist && r.error == LoadFailed
    ensures r.(watchlist := s.watchlist, loading := s.loading, error := s.error) == s
  {
    if response.Some? then s.(watchlist := response.value, error := "", loading := false)
    else s.(error := LoadFailed, loading := false)
  }

  /** The page after the loads whose results are `responses` settle, in
      order. */
  function Reloads(s: State, responses: seq<Option<seq<Api.WatchRow>>>): State {
    if responses == [] then s
    else FetchDone(Reloads(s, responses[..|responses| - 1]), responses[|responses| - 1])
  }

  /** After a run of loads the page shows the list of the last one that
      succeeded (or what it showed before, when none did), and reports a
      failure exactly when the last load failed. */
  lemma {:induction false} ReloadsShowLastLoaded(s: State, responses: seq<Option<seq<Api.WatchRow>>>)
    requires responses != []
    ensures var r := Reloads(s, responses);
      && r.watchlist == (if LastSome(responses).Some? then LastSome(responses).value else s.watchlist)
      && (r.error == "" <==> responses[|responses| - 1].Some?)
      && (r.error == LoadFailed <==> responses[|responses| - 1].None?)
      && !r.loading && r.refreshing == s.refreshing
  {
    var prior := responses[..|responses| - 1];
    if prior != [] {
      ReloadsShowLastLoaded(s, prior);
    }
  }

  /** A failed reload keeps showing the list of the load before it, with
      the failure reported. */
  lemma FailedReloadKeepsLast(s: State, rows: seq<Api.WatchRow>)
    ensures FetchDone(FetchDone(s, Some(rows)), None).watchlist == rows
    ensures FetchDone(FetchDone(s, Some(rows)), None).error == LoadFailed
  {
  }

  // ----------------------------------------------------------------- refresh

  /** The refresh button is disabled while refreshing or when the list is
      empty. */
  predicate RefreshDisabled(s: State) {
    s.refreshing || |s.watchlist| == 0
  }

  /** A click on the refresh button: when enabled it raises `refreshing`
      and asks for one quote per item of the list as it is now. */
  function RefreshStart(s: State): (res: (State, seq<string>))
    ensures RefreshDisabled(s) ==> res == (s, [])
    ensures !RefreshDisabled(s) ==>
      && res.0 == s.(refreshing := true)
      && |res.1| == |s.watchlist|
      && forall i :: 0 <= i < |s.watchlist| ==> res.1[i] == s.watchlist[i].symbol
  {
    if RefreshDisabled(s) then (s, [])
    else (s.(refreshing := true), seq(|s.watchlist|, i requires 0 <= i < |s.watchlist| => s.watchlist[i].symbol))
  }

  /** One item after its quote request settles (`None` when it failed):
      on success the stock data's price, change and change percentage are
      the quote's and every other field is kept; on failure the item is
      returned as it was. */
  function Merge(item: Api.WatchRow, quote: Option<Api.Quote>): (r: Api.WatchRow)
    ensures quote.None? ==> r == item
    ensures r.id == item.id && r.symbol == item.symbol
    ensures r.stockData.symbol == item.stockData.symbol && r.stockData.name == item.stockData.name
    ensures r.stockData.sector == item.stockData.sector
    ensures quote.Some? ==>
      && r.stockData.lastPrice == Some(quote.value.price)
      && r.stockData.change == Some(quote.value.change)
      && r.stockData.changePercent == Some(quote.value.changePercent)
  {
    match quote
    case None => item
    case Some(q) =>
      item.(stockData := item.stockData.(lastPrice := Some(q.price), change := Some(q.change),
                                         changePercent := Some(q.changePercent)))
  }

  /** The list `refreshPrices` sets: item by item, the merge of the list
      as it was when the refresh started with that item's quote. */
  function Refreshed(items: seq<Api.WatchRow>, quotes: seq<Option<Api.Quote>>): (r: seq<Api.WatchRow>)
    requires |quotes| == |items|
    ensures |r| == |items|
    ensures forall i :: 0 <= i < |items| ==> r[i] == Merge(items[i], quotes[i])
  {
    seq(|items|, i requires 0 <= i < |items| => Merge(items[i], quotes[i]))
  }

  /** `refreshPrices` once every quote request has settled. Each request
      handles its own failure, so the outer `catch` and its message are
      never reached and the error text stays as it was. */
  function RefreshDone(s: State, before: seq<Api.WatchRow>, quotes: seq<Option<Api.Quote>>): (r: State)
    requires |quotes| == |before|
    ensures !r.refreshing && r.error == s.error
    ensures r.watchlist == Refreshed(before, quotes)
    ensures r.(watchlist := s.watchlist, refreshing := s.refreshing) == s
  {
    s.(watchlist := Refreshed(before, quotes), refreshing := false)
  }

  /** A refresh keeps the list's items, their order and their ids: only
      stock data changes. */
  lemma RefreshKeepsItems(items: seq<Api.WatchRow>, quotes: seq<Option<Api.Quote>>)
    requires |quotes| == |items|
    ensures var r := Refreshed(items, quotes);
      forall i :: 0 <= i < |items| ==> r[i].id == items[i].id && r[i].symbol == items[i].symbol
  {
  }

  /** When every quote fails the list is exactly as it was. */
  lemma FailedRefreshChangesNothing(items: seq<Api.WatchRow>, quotes: seq<Option<Api.Quote>>)
    requires |quotes| == |items|
    requires forall i :: 0 <= i < |quotes| ==> quotes[i].None?
    ensures Refreshed(items, quotes) == items
  {
  }

  /** Refreshing again with the same quotes changes nothing more. */
  lemma RefreshIdempotent(items: seq<Api.WatchRow>, quotes: seq<Option<Api.Quote>>)
    requires |quotes| == |items|
    ensures Refreshed(Refreshed(items, quotes), quotes) == Refreshed(items, quotes)
  {
  }

  /** A refresh that starts and settles leaves `refreshing` lowered. */
  lemma RefreshFlagReturns(s: State, quotes: seq<Option<Api.Quote>>)
    requires !RefreshDisabled(s) && |quotes| == |s.watchlist|
    ensures RefreshStart(s).0.refreshing
    ensures !RefreshDone(RefreshStart(s).0, s.watchlist, quotes).refreshing
    ensures RefreshDisabled(RefreshStart(s).0)
  {
  }

  // ------------------------------------------------------------------ remove

  /** The list without the items of `symbol`, the others in order. */
  function Without(items: seq<Api.WatchRow>, symbol: string): (r: seq<Api.WatchRow>)
    ensures |r| <= |items|
    ensures forall x :: x in r <==> x in items && x.symbol != symbol
  {
    if items == [] then []
    else
      var rest := Without(items[1..], symbol);
      assert forall x :: x in items <==> x == items[0] || x in items[1..];
      if items[0].symbol == symbol then rest else [items[0]] + rest
  }

  /** A single row is dropped when it is of `symbol` and kept otherwise. */
  lemma WithoutSingle(row: Api.WatchRow, symbol: string)
    ensures Without([row], symbol) == if row.symbol == symbol then [] else [row]
  {
    assert [row][1..] == [];
  }

  /** Dropping distributes over concatenation; with `WithoutSingle` this
      keeps every other row once and in its place, as `filter` does. */
  lemma {:induction false} WithoutConcat(a: seq<Api.WatchRow>, b: seq<Api.WatchRow>, symbol: string)
    ensures Without(a + b, symbol) == Without(a, symbol) + Without(b, symbol)
  {
    if a == [] {
      assert a + b == b;
    } else {
      assert (a + b)[0] == a[0] && (a + b)[1..] == a[1..] + b;
      WithoutConcat(a[1..], b, symbol);
    }
  }

  /** `removeFromWatchlist`: nothing unless the user confirms; then, when
      `DELETE /api/watchlist/<symbol>` succeeds, the list without that
      symbol, and when it fails the same list with an error. */
  function Remove(s: State, symbol: string, confirmed: bool, succeeded: bool): (r: State)
    ensures !confirmed ==> r == s
    ensures confirmed && succeeded ==> r == s.(watchlist := Without(s.watchlist, symbol))
    ensures confirmed && !succeeded ==> r == s.(error := RemoveFailed)
  {
    if !confirmed then s
    else if succeeded then s.(watchlist := Without(s.watchlist, symbol))
    else s.(error := RemoveFailed)
  }

  /** The page's own removal shows what the backend now holds: with
      unique entries, dropping a stored symbol from the rows the backend
      listed gives the rows it lists after deleting that entry. */
  lemma RemoveAgreesWithBackend(db: Store.Db, session: Option<int>, symbol: string)
    requires Store.WatchUnique(db.watchlist) && Store.RequireAuth(db, session).Some?
    requires Text.Upper(symbol) == symbol
    requires Store.Watches(db.watchlist, Store.RequireAuth(db, session).value.id, symbol)
    ensures var step := Store.RemoveFromWatchlist(db, session, symbol);
      && step.reply == Store.Ok(200)
      && Store.GetWatchlist(step.db, session).1 == Without(Store.GetWatchlist(db, session).1, symbol)
  {
    var uid := Store.RequireAuth(db, session).value.id;
    var k := Store.FindWatch(db.watchlist, uid, symbol).value;
    RowsWithout(db.watchlist, k, uid, symbol, db.stocks);
  }

  /** Deleting the one entry of `(uid, symbol)` removes exactly its row. */
  lemma {:induction false} RowsWithout(w: seq<Store.WatchEntry>, k: nat, uid: nat, symbol: string,
                                       stocks: map<string, Store.Stock>)
    requires Store.WatchUnique(w)
    requires k < |w| && w[k].userId == uid && w[k].symbol == symbol
    ensures Store.RowsOf(w[..k] + w[k + 1..], uid, stocks) == Without(Store.RowsOf(w, uid, stocks), symbol)
    decreases k
  {
    if k == 0 {
      assert w[..k] + w[k + 1..] == w[1..];
      RowsWithoutFirst(w, uid, symbol, stocks);
    } else {
      var t := w[1..];
      assert Store.WatchUnique(t) by {
        forall i, j | 0 <= i < j < |t|
          ensures !(t[i].userId == t[j].userId && t[i].symbol == t[j].symbol)
        {
          assert t[i] == w[i + 1] && t[j] == w[j + 1];
        }
      }
      assert t[k - 1] == w[k];
      RowsWithout(t, k - 1, uid, symbol, stocks);
      RowsWithoutLater(w, k, uid, symbol, stocks);
    }
  }

  /** The base case: the entry is the first one. */
  lemma RowsWithoutFirst(w: seq<Store.WatchEntry>, uid: nat, symbol: string, stocks: map<string, Store.Stock>)
    requires Store.WatchUnique(w)
    requires 0 < |w| && w[0].userId == uid && w[0].symbol == symbol
    ensures Store.RowsOf(w[1..], uid, stocks) == Without(Store.RowsOf(w, uid, stocks), symbol)
  {
    var t := w[1..];
    assert w == [w[0]] + t;
    RowsCons(w[0], t, uid, stocks);
    forall i | 0 <= i < |t|
      ensures !(t[i].userId == uid && t[i].symbol == symbol)
    {
      assert t[i] == w[i + 1];
    }
    NoRowOf(t, uid, symbol, stocks);
    WithoutCons(RowOf(w[0], stocks), Store.RowsOf(t, uid, stocks), symbol);
  }

  /** The step: the entry lies past the first one, which keeps its row. */
  lemma RowsWithoutLater(w: seq<Store.WatchEntry>, k: nat, uid: nat, symbol: string, stocks: map<string, Store.Stock>)
    requires Store.WatchUnique(w)
    requires 0 < k < |w| && w[k].userId == uid && w[k].symbol == symbol
    requires var t := w[1..];
      Store.RowsOf(t[..k - 1] + t[k..], uid, stocks) == Without(Store.RowsOf(t, uid, stocks), symbol)
    ensures Store.RowsOf(w[..k] + w[k + 1..], uid, stocks) == Without(Store.RowsOf(w, uid, stocks), symbol)
  {
    var t := w[1..];
    var v := t[..k - 1] + t[k..];
    assert w == [w[0]] + t;
    RowsCons(w[0], t, uid, stocks);
    SpliceTail(w, k);
    RowsCons(w[0], v, uid, stocks);
    if w[0].userId == uid {
      assert w[0].symbol != symbol;
      WithoutCons(RowOf(w[0], stocks), Store.RowsOf(t, uid, stocks), symbol);
    }
  }

  lemma SpliceTail<T>(w: seq<T>, k: nat)
    requires 0 < k < |w|
    ensures w[..k] + w[k + 1..] == [w[0]] + (w[1..][..k - 1] + w[1..][k..])
  {
    assert w[..k] == [w[0]] + w[1..][..k - 1];
    assert w[k + 1..] == w[1..][k..];
  }

  /** The row the backend lists for one entry. */
  function RowOf(e: Store.WatchEntry, stocks: map<string, Store.Stock>): Api.WatchRow {
    Api.WatchRow(e.id, e.symbol, Store.StockDataOf(stocks, e.symbol))
  }

  lemma RowsCons(e: Store.WatchEntry, rest: seq<Store.WatchEntry>, uid: nat, stocks: map<string, Store.Stock>)
    ensures Store.RowsOf([e] + rest, uid, stocks)
         == (if e.userId == uid then [RowOf(e, stocks)] else []) + Store.RowsOf(rest, uid, stocks)
  {
    assert ([e] + rest)[1..] == rest;
  }

  lemma WithoutCons(row: Api.WatchRow, rest: seq<Api.WatchRow>, symbol: string)
    ensures Without([row] + rest, symbol) == if row.symbol == symbol then Without(rest, symbol) else [row] + Without(rest, symbol)
  {
    assert ([row] + rest)[1..] == rest;
  }

  /** Rows of entries none of which is `(uid, symbol)` hold no row of
      `symbol`. */
  lemma {:induction false} NoRowOf(w: seq<Store.WatchEntry>, uid: nat, symbol: string, stocks: map<string, Store.Stock>)
    requires forall i :: 0 <= i < |w| ==> !(w[i].userId == uid && w[i].symbol == symbol)
    ensures Without(Store.RowsOf(w, uid, stocks), symbol) == Store.RowsOf(w, uid, stocks)
  {
    if w != [] {
      var t := w[1..];
      forall i | 0 <= i < |t|
        ensures !(t[i].userId == uid && t[i].symbol == symbol)
      {
        assert t[i] == w[i + 1];
      }
      NoRowOf(t, uid, symbol, stocks);
      assert w == [w[0]] + t;
      RowsCons(w[0], t, uid, stocks);
      if w[0].userId == uid {
        WithoutCons(RowOf(w[0], stocks), Store.RowsOf(t, uid, stocks), symbol);
      }
    }
  }
}
