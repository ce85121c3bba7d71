/** The Portfolio page (frontend/src/pages/Portfolio.js): loading the
    portfolio, the add, sell and buy modals, and clearing the history.
    Each asynchronous handler is split into the step taken when it starts
    and the step taken when its request settles; the request's result is
    an input of the second step. */
module PortfolioPage {
  import opened Base
  import Api
  import Store
  import Numbers
  import opened TransactionFlow

  const LoadFailed := "Failed to load portfolio"
  const AddFailed := "Failed to add transaction"
  const SellFailed := "Failed to sell stock"
  const BuyFailed := "Failed to buy stock"
  const ClearHistoryFailed := "Failed to clear transaction history"
  const ClearAllFailed := "Failed to clear portfolio"

  /** The page's state. `submitting` is shared by the three modals. */
  datatype State = State(
    portfolio: Option<Api.PortfolioData>,
    loading: bool,
    error: string,
    entry: Modal<EntryForm>,
    sell: Modal<SellForm>,
    buy: Modal<BuyForm>,
    submitting: bool,
    clearingTransactions: bool,
    clearingHoldings: bool)

  /** The state on mount, before the first load settles. */
  function Initial(today: string): State {
    State(None, true, "", Modal(BlankEntry(today), false), Modal(BlankSell(today), false),
          Modal(BlankBuy(today), false), false, false, false)
  }

  /** `fetchPortfolio` once `GET /api/portfolio` settles (`None` when it
      failed): success shows the new data and clears the error; failure
      keeps the data shown so far and reports the failure. */
  function FetchDone(s: State, response: Option<Api.PortfolioData>): (r: State)
    ensures !r.loading
    ensures response.Some? ==> r.portfolio == response && r.error == ""
    ensures response.None? ==> r.portfolio == s.portfolio && r.error == LoadFailed
    ensures r.(portfolio := s.portfolio, loading := s.loading, error := s.error) == s
  {
    if response.Some? then s.(portfolio := response, error := "", loading := false)
    else s.(error := LoadFailed, loading := false)
  }

  /** The page after the loads whose results are `responses` settle, in
      order. */
  function Reloads(s: State, responses: seq<Option<Api.PortfolioData>>): State {
    if responses == [] then s
    else FetchDone(Reloads(s, responses[..|responses| - 1]), responses[|responses| - 1])
  }

  /** After a run of loads the page shows the data of the last one that
      succeeded (or what it showed before, when none did), and reports a
      failure exactly when the last load failed. */
  lemma {:induction false} ReloadsShowLastLoaded(s: State, responses: seq<Option<Api.PortfolioData>>)
    requires responses != []
    ensures var r := Reloads(s, responses);
      && r.portfolio == (if LastSome(responses).Some? then LastSome(responses) else s.portfolio)
      && (r.error == "" <==> responses[|responses| - 1].Some?)
      && (r.error == LoadFailed <==> responses[|responses| - 1].None?)
      && !r.loading
  {
    var prior := responses[..|responses| - 1];
    if prior != [] {
      ReloadsShowLastLoaded(s, prior);
    }
  }

  /** A failed reload keeps showing the data of the load before it, with
      the failure reported. */
  lemma FailedReloadKeepsLast(s: State, p: Api.PortfolioData)
    ensures FetchDone(FetchDone(s, Some(p)), None).portfolio == Some(p)
    ensures FetchDone(FetchDone(s, Some(p)), None).error == LoadFailed
  {
  }

  /** The three modals. */
  datatype Which = AddModal | SellModal | BuyModal

  predicate IsOpen(s: State, w: Which) {
    match w
    case AddModal => s.entry.open
    case SellModal => s.sell.open
    case BuyModal => s.buy.open
  }

  /** The browser lets the modal's form submit: its button is enabled and
      its inputs pass constraint validation. */
  predicate CanSubmit(s: State, w: Which) {
    match w
    case AddModal => !EntryDisabled(s.submitting) && EntryValid(s.entry.form)
    case SellModal => !SellDisabled(s.submitting, s.sell.form) && SellValid(s.sell.form)
    case BuyModal => !BuyDisabled(s.submitting, s.buy.form) && BuyValid(s.buy.form)
  }

  function PayloadOf(s: State, w: Which): Payload {
    match w
    case AddModal => EntryPayload(s.entry.form)
    case SellModal => SellPayload(s.sell.form)
    case BuyModal => BuyPayload(s.buy.form)
  }

  /** "Add Transaction" opens the add modal with the form as it was left. */
  function OpenAdd(s: State): (r: State)
    ensures IsOpen(r, AddModal) && r.entry.form == s.entry.form
    ensures r.(entry := s.entry) == s
  {
    s.(entry := s.entry.(open := true))
  }

  /** `handleSellStock` and `handleBuyMoreStock`: the modal opens on a form
      prefilled from the holding. */
  function OpenSell(s: State, h: Api.Holding, today: string): (r: State)
    ensures IsOpen(r, SellModal) && r.sell.form == SellPrefill(h, today)
    ensures r.(sell := s.sell) == s
  {
    s.(sell := Modal(SellPrefill(h, today), true))
  }

  function OpenBuy(s: State, h: Api.Holding, today: string): (r: State)
    ensures IsOpen(r, BuyModal) && r.buy.form == BuyPrefill(h, today)
    ensures r.(buy := s.buy) == s
  {
    s.(buy := Modal(BuyPrefill(h, today), true))
  }

  /** "Cancel" or the close button: the modal closes, its form stays. */
  function Close(s: State, w: Which): (r: State)
    ensures !IsOpen(r, w)
    ensures forall v :: v != w ==> IsOpen(r, v) == IsOpen(s, v)
    ensures r.entry.form == s.entry.form && r.sell.form == s.sell.form && r.buy.form == s.buy.form
    ensures r.(entry := s.entry, sell := s.sell, buy := s.buy) == s
  {
    match w
    case AddModal => s.(entry := s.entry.(open := false))
    case SellModal => s.(sell := s.sell.(open := false))
    case BuyModal => s.(buy := s.buy.(open := false))
  }

  /** A submit: nothing happens unless the modal is open and the browser
      lets its form submit; otherwise `submitting` is raised and the
      modal's payload is posted. */
  function Submit(s: State, w: Which): (res: (State, Option<Payload>))
    ensures !(IsOpen(s, w) && CanSubmit(s, w)) ==> res == (s, None)
    ensures IsOpen(s, w) && CanSubmit(s, w) ==>
      res.0 == s.(submitting := true) && res.1 == Some(PayloadOf(s, w))
  {
    if IsOpen(s, w) && CanSubmit(s, w) then (s.(submitting := true), Some(PayloadOf(s, w)))
    else (s, None)
  }

  /** While a submit is in flight no modal can submit: every button tests
      `submitting`. */
  lemma OneSubmitAtATime(s: State, w: Which, v: Which)
    requires Submit(s, w).1.Some?
    ensures Submit(Submit(s, w).0, v) == (Submit(s, w).0, None)
  {
  }

  /** The submit handler once the post settles: `submitting` drops, the
      modal settles as `Conclude` says, and the portfolio is fetched again
      on success. The other modals and the data stay as they were. */
  function Complete(s: State, w: Which, o: Outcome, today: string): (res: (State, bool))
    ensures !res.0.submitting
    ensures res.1 <==> o.Accepted?
    ensures o.Accepted? ==> !IsOpen(res.0, w) && res.0.error == s.error
    ensures o.Accepted? && w == AddModal ==> res.0.entry.form == BlankEntry(today)
    ensures o.Accepted? && w == SellModal ==> res.0.sell.form == BlankSell(today)
    ensures o.Accepted? && w == BuyModal ==> res.0.buy.form == BlankBuy(today)
    ensures o.Rejected? ==> res.0 == s.(submitting := false, error := res.0.error)
    ensures res.0.portfolio == s.portfolio && res.0.loading == s.loading
    ensures w != AddModal ==> res.0.entry == s.entry
    ensures w != SellModal ==> res.0.sell == s.sell
    ensures w != BuyModal ==> res.0.buy == s.buy
    ensures res.0.(entry := s.entry, sell := s.sell, buy := s.buy, error := s.error, submitting := s.submitting) == s
  {
    match w
    case AddModal =>
      var a := Conclude(s.entry, s.error, o, BlankEntry(today), AddFailed);
      (s.(entry := a.modal, error := a.error, submitting := false), a.refetch)
    case SellModal =>
      var a := Conclude(s.sell, s.error, o, BlankSell(today), SellFailed);
      (s.(sell := a.modal, error := a.error, submitting := false), a.refetch)
    case BuyModal =>
      var a := Conclude(s.buy, s.error, o, BlankBuy(today), BuyFailed);
      (s.(buy := a.modal, error := a.error, submitting := false), a.refetch)
  }

  /** The fallback each flow shows when the backend gave no error text. */
  function Fallback(w: Which): string {
    match w
    case AddModal => AddFailed
    case SellModal => SellFailed
    case BuyModal => BuyFailed
  }

  /** A refused submit shows the backend's error text, or the flow's own
      fallback, and leaves the modal open on the same form. */
  lemma RefusedSubmitKeepsModal(s: State, w: Which, error: Option<string>, today: string)
    requires IsOpen(s, w)
    ensures var r := Complete(s, w, Rejected(error), today).0;
      && IsOpen(r, w) && PayloadOf(r, w) == PayloadOf(s, w)
      && r.error == Message(Rejected(error), Fallback(w))
  {
  }

  /** The round trip of the add modal against the backend: a form the
      browser lets through, with a quantity written without an exponent, a
      symbol not all white space and a date the backend can read, is stored
      as typed, and the answer closes the modal on a blank form and fetches
      the portfolio again. */
  lemma AddRoundTrip(s: State, db: Store.Db, session: Option<int>, parseDate: string -> Option<int>,
                     crashText: string, today: string)
    requires IsOpen(s, AddModal) && CanSubmit(s, AddModal)
    requires Store.RequireAuth(db, session).Some? && !Store.Blank(s.entry.form.symbol)
    requires Numbers.NoExponent(s.entry.form.quantity)
    requires 'Z' !in s.entry.form.date && parseDate(s.entry.form.date + TimeOfDay).Some?
    ensures var (started, payload) := Submit(s, AddModal);
      && payload.Some?
      && var step := Store.AddTransaction(db, session, AsRequest(payload.value), parseDate);
         && step.reply == Store.Ok(201)
         && |step.db.transactions| == |db.transactions| + 1
         && var (done, refetch) := Complete(started, AddModal, OutcomeOf(step.reply, crashText), today);
            && refetch && !done.submitting && !IsOpen(done, AddModal) && done.entry.form == BlankEntry(today)
  {
    var f := s.entry.form;
    SubmittedTransactionIsStored(db, session, f.symbol, f.kind, f.quantity, f.price, f.date, parseDate);
  }

  // ---------------------------------------------------------------- clearing

  /** The two clear handlers. Only the history one has a button, shown
      when there are recent transactions and disabled while it runs. */
  datatype Clear = ClearHistory | ClearEverything

  predicate ClearHistoryEnabled(s: State) {
    s.portfolio.Some? && |s.portfolio.value.recentTransactions| > 0 && !s.clearingTransactions
  }

  /** A clear handler starting: unless the user confirms, nothing happens;
      otherwise its own flag is raised and `DELETE /api/portfolio/clear-all`
      is sent, the same request for both handlers. */
  function ClearStart(s: State, c: Clear, confirmed: bool): (res: (State, bool))
    ensures !confirmed ==> res == (s, false)
    ensures confirmed ==> res.1
    ensures confirmed && c == ClearHistory ==> res.0 == s.(clearingTransactions := true)
    ensures confirmed && c == ClearEverything ==> res.0 == s.(clearingHoldings := true)
  {
    if !confirmed then (s, false)
    else match c
      case ClearHistory => (s.(clearingTransactions := true), true)
      case ClearEverything => (s.(clearingHoldings := true), true)
  }

  /** A clear handler once the request settles: its flag drops; success
      fetches the portfolio again, failure shows the error text. */
  function ClearDone(s: State, c: Clear, o: Outcome): (res: (State, bool))
    ensures res.1 <==> o.Accepted?
    ensures c == ClearHistory ==> !res.0.clearingTransactions && res.0.clearingHoldings == s.clearingHoldings
    ensures c == ClearEverything ==> !res.0.clearingHoldings && res.0.clearingTransactions == s.clearingTransactions
    ensures o.Accepted? ==> res.0.error == s.error
    ensures o.Rejected? ==> res.0.error == Message(o, if c == ClearHistory then ClearHistoryFailed else ClearAllFailed)
    ensures res.0.(clearingTransactions := s.clearingTransactions, clearingHoldings := s.clearingHoldings,
                   error := s.error) == s
  {
    var error := if o.Accepted? then s.error
                 else Message(o, if c == ClearHistory then ClearHistoryFailed else ClearAllFailed);
    match c
    case ClearHistory => (s.(clearingTransactions := false, error := error), o.Accepted?)
    case ClearEverything => (s.(clearingHoldings := false, error := error), o.Accepted?)
  }

  /** A clear that starts and settles leaves its flag as it found it
      (lowered), whatever the answer. */
  lemma ClearFlagReturns(s: State, c: Clear, o: Outcome)
    requires !s.clearingTransactions && !s.clearingHoldings
    ensures var started := ClearStart(s, c, true).0;
      && (started.clearingTransactions || started.clearingHoldings)
      && !ClearDone(started, c, o).0.clearingTransactions && !ClearDone(started, c, o).0.clearingHoldings
  {
  }

  /** The "Clear History" button is disabled while its clear runs and is
      enabled again once the clear settles, whatever the answer, until the
      next load replaces the portfolio shown. */
  lemma ClearButtonReturns(s: State, o: Outcome)
    requires ClearHistoryEnabled(s)
    ensures !ClearHistoryEnabled(ClearStart(s, ClearHistory, true).0)
    ensures ClearHistoryEnabled(ClearDone(ClearStart(s, ClearHistory, true).0, ClearHistory, o).0)
  {
  }
}
