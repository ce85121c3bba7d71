/** The Dashboard page (frontend/src/pages/Dashboard.js): the joint load
    of portfolio and watchlist, its add-transaction modal, and the
    five-item previews. */
module DashboardPage {
  import opened Base
  import Api
  import opened TransactionFlow

  const LoadFailed := "Failed to load dashboard data"
  const AddFailed := "Failed to add transaction"

  /** Most items each preview lists. */
  const PreviewSize: nat := 5

  datatype State = State(
    portfolio: Option<Api.PortfolioData>,
    watchlist: seq<Api.WatchRow>,
    loading: bool,
    error: string,
    entry: Modal<EntryForm>,
    submitting: bool)

  function Initial(today: string): State {
    State(None, [], true, "", Modal(BlankEntry(today), false), false)
  }

  /** `fetchDashboardData` once both requests settle (`None` for a failed
      one): the data is shown only when both succeeded; otherwise neither
      is, and the failure is reported. A success does not clear an error
      shown earlier. */
  function FetchDone(s: State, portfolio: Option<Api.PortfolioData>, watchlist: Option<seq<Api.WatchRow>>)
    : (r: State)
    ensures !r.loading
    ensures portfolio.Some? && watchlist.Some? ==>
      r.portfolio == portfolio && r.watchlist == watchlist.value && r.error == s.error
    ensures portfolio.None? || watchlist.None? ==>
      r.portfolio == s.portfolio && r.watchlist == s.watchlist && r.error == LoadFailed
    ensures r.entry == s.entry && r.submitting == s.submitting
  {
    if portfolio.Some? && watchlist.Some? then
      s.(portfolio := portfolio, watchlist := watchlist.value, loading := false)
    else
      s.(error := LoadFailed, loading := false)
  }

  /** The page never shows the portfolio of one load beside the watchlist
      of another: after a load either both are new or both are old. */
  lemma LoadIsAllOrNothing(s: State, p: Option<Api.PortfolioData>, w: Option<seq<Api.WatchRow>>)
    ensures var r := FetchDone(s, p, w);
      (r.portfolio == p && Some(r.watchlist) == w) || (r.portfolio == s.portfolio && r.watchlist == s.watchlist)
  {
  }

  /** A submit of the add modal: nothing unless it is open and the browser
      lets the form through; otherwise `submitting` is raised and the
      payload posted. */
  function Submit(s: State): (res: (State, Option<Payload>))
    ensures !(s.entry.open && !EntryDisabled(s.submitting) && EntryValid(s.entry.form)) ==> res == (s, None)
    ensures s.entry.open && !EntryDisabled(s.submitting) && EntryValid(s.entry.form) ==>
      res.0 == s.(submitting := true) && res.1 == Some(EntryPayload(s.entry.form))
  {
    if s.entry.open && !EntryDisabled(s.submitting) && EntryValid(s.entry.form) then
      (s.(submitting := true), Some(EntryPayload(s.entry.form)))
    else (s, None)
  }

  /** The submit handler once the post settles: as on the Portfolio page,
      and the whole dashboard is fetched again on success. */
  function Complete(s: State, o: Outcome, today: string): (res: (State, bool))
    ensures !res.0.submitting
    ensures res.1 <==> o.Accepted?
    ensures o.Accepted? ==> !res.0.entry.open && res.0.entry.form == BlankEntry(today) && res.0.error == s.error
    ensures o.Rejected? ==> res.0 == s.(submitting := false, error := Message(o, AddFailed))
    ensures res.0.(entry := s.entry, error := s.error, submitting := s.submitting) == s
  {
    var a := Conclude(s.entry, s.error, o, BlankEntry(today), AddFailed);
    (s.(entry := a.modal, error := a.error, submitting := false), a.refetch)
  }

  /** The items a preview lists: the first five. */
  function Preview<T>(items: seq<T>): (r: seq<T>)
    ensures |r| <= PreviewSize && |r| <= |items| && r == items[..|r|]
    ensures |items| <= PreviewSize ==> r == items
  {
    Take(items, PreviewSize)
  }

  /** "View all" is offered when there are more than five items. */
  predicate ViewAll<T>(items: seq<T>) {
    |items| > PreviewSize
  }

  /** "View all" appears exactly when the preview leaves some item out. */
  lemma ViewAllIffHidden<T>(items: seq<T>)
    ensures ViewAll(items) <==> |Preview(items)| < |items|
  {
  }
}
