/** The transaction modals of the Portfolio and Dashboard pages
    (frontend/src/pages/Portfolio.js, frontend/src/pages/Dashboard.js):
    their forms, the browser's constraint validation of those forms, the
    submit buttons' disabled tests, the payload sent to
    `POST /api/portfolio/transaction`, and what a modal does with the
    answer. Form fields hold the text of their inputs; `today` is the
    date part of `new Date().toISOString()`, an input here. */
module TransactionFlow {
  import opened Base
  import Text
  import Numbers
  import Store
  import Api

  /** The "Add Transaction" form; its type select offers only buy and sell. */
  datatype EntryForm = EntryForm(symbol: string, kind: Store.TxKind, quantity: string, price: string, date: string)

  /** The "Sell" form, opened from a holding. */
  datatype SellForm = SellForm(
    symbol: string, maxQuantity: int, currentPrice: real, quantity: string, price: string, date: string)

  /** The "Buy More" form, opened from a holding. */
  datatype BuyForm = BuyForm(symbol: string, currentPrice: real, quantity: string, price: string, date: string)

  function BlankEntry(today: string): EntryForm {
    EntryForm("", Store.Buy, "", "", today)
  }

  function BlankSell(today: string): SellForm {
    SellForm("", 0, 0.0, "", "", today)
  }

  function BlankBuy(today: string): BuyForm {
    BuyForm("", 0.0, "", "", today)
  }

  // ------------------------------------------------------ constraint validation

  /** A quantity input (`required`, `min="1"`, the default step of 1, and
      `max` on the sell form) that the browser lets the form submit with:
      a valid number, whole, at least one and not above `max`. */
  predicate ValidShares(s: string, max: Option<int>) {
    && Numbers.IsValidFloat(s)
    && var v := Numbers.InputValue(s).value;
       && v >= 1.0 && v == v.Floor as real
       && (max.Some? ==> v <= max.value as real)
  }

  /** A price input (`required`, `min="0.01"`, `step="0.01"`): a valid
      number of at least 0.01 and a whole number of cents. */
  predicate ValidPrice(s: string) {
    && Numbers.IsValidFloat(s)
    && var v := Numbers.InputValue(s).value;
       v >= 0.01 && (v * 100.0).Floor as real == v * 100.0
  }

  /** The whole shares and the price a valid form holds. */
  function Shares(s: string): (n: int)
    requires ValidShares(s, None)
    ensures n >= 1 && n as real == Numbers.InputValue(s).value
  {
    Numbers.InputValue(s).value.Floor
  }

  function Price(s: string): (p: real)
    requires ValidPrice(s)
    ensures p >= 0.01 && Some(p) == Numbers.InputValue(s)
  {
    Numbers.InputValue(s).value
  }

  /** The add form submits only with a symbol, a valid quantity and price,
      and a date (`required` on all four). */
  predicate EntryValid(f: EntryForm) {
    f.symbol != [] && ValidShares(f.quantity, None) && ValidPrice(f.price) && f.date != []
  }

  /** The sell form also caps the quantity at the shares held. Its symbol
      input is read-only and takes no part in validation. */
  predicate SellValid(f: SellForm) {
    ValidShares(f.quantity, Some(f.maxQuantity)) && ValidPrice(f.price) && f.date != []
  }

  predicate BuyValid(f: BuyForm) {
    ValidShares(f.quantity, None) && ValidPrice(f.price) && f.date != []
  }

  /** A form just reset cannot be submitted: its quantity is empty. */
  lemma BlankFormsInvalid(today: string)
    ensures !EntryValid(BlankEntry(today)) && !SellValid(BlankSell(today)) && !BuyValid(BlankBuy(today))
  {
    assert !Numbers.IsValidFloat("") by {
      assert Numbers.ScanDecimal("").Length() == 0;
    }
  }

  // ------------------------------------------------------------ submit buttons

  /** JavaScript `quantity > maxQuantity` between the input's text and a
      number: the text is converted with `Number`, and `NaN` compares false. */
  predicate Exceeds(quantity: string, max: int) {
    Numbers.ToNumber(quantity).Some? && Numbers.ToNumber(quantity).value > max as real
  }

  /** The add button is disabled while a submit is in flight. */
  predicate EntryDisabled(submitting: bool) {
    submitting
  }

  /** The buy button is disabled while submitting or without a quantity. */
  predicate BuyDisabled(submitting: bool, f: BuyForm) {
    submitting || f.quantity == []
  }

  /** The sell button is disabled while submitting, without a quantity, or
      when the quantity is above the shares held. */
  predicate SellDisabled(submitting: bool, f: SellForm) {
    submitting || f.quantity == [] || Exceeds(f.quantity, f.maxQuantity)
  }

  /** For any number the input can hold, the sell button's comparison
      agrees with the input's own `max` check. */
  lemma SellGuardAgreesWithMax(f: SellForm)
    requires Numbers.IsValidFloat(f.quantity)
    ensures Exceeds(f.quantity, f.maxQuantity) <==> Numbers.InputValue(f.quantity).value > f.maxQuantity as real
  {
    Numbers.ToNumberValid(f.quantity);
  }

  /** No enabled sell button sits on a valid quantity above the holding:
      a sell form that can be submitted asks for at most the shares held. */
  lemma SellNeverExceedsHolding(f: SellForm)
    requires !SellDisabled(false, f) && SellValid(f)
    ensures 1 <= Shares(f.quantity) <= f.maxQuantity
  {
  }

  // ------------------------------------------------------------------ payload

  /** Time of day appended to the form's date. */
  const TimeOfDay := "T10:00:00"

  /** The body of `POST /api/portfolio/transaction`. `parseInt` and
      `parseFloat` give `None` for `NaN`. */
  datatype Payload = Payload(symbol: string, kind: Store.TxKind, quantity: Option<int>, price: Option<real>, date: string)

  /** The payload built from a form's fields: the symbol upper-cased, the
      quantity read with `parseInt`, the price with `parseFloat`, and the
      date with the fixed time of day appended. */
  function MakePayload(symbol: string, kind: Store.TxKind, quantity: string, price: string, date: string): (p: Payload)
    ensures p.symbol == Text.Upper(symbol)
    ensures |p.symbol| == |symbol| && forall i :: 0 <= i < |p.symbol| ==> !Text.IsLower(p.symbol[i])
    ensures p.kind == kind
    ensures |p.date| == |date| + |TimeOfDay|
    ensures p.date[..|date|] == date && p.date[|date|..] == TimeOfDay
  {
    Text.UpperIdempotent(symbol);
    Payload(Text.Upper(symbol), kind, Numbers.ParseInt(quantity), Numbers.ParseFloat(price), date + TimeOfDay)
  }

  /** The add form sends its own type; the sell and buy forms a fixed one. */
  function EntryPayload(f: EntryForm): Payload {
    MakePayload(f.symbol, f.kind, f.quantity, f.price, f.date)
  }

  function SellPayload(f: SellForm): Payload {
    MakePayload(f.symbol, Store.Sell, f.quantity, f.price, f.date)
  }

  function BuyPayload(f: BuyForm): Payload {
    MakePayload(f.symbol, Store.Buy, f.quantity, f.price, f.date)
  }

  /** A valid quantity written without an exponent and a valid price reach
      the backend as the numbers the user typed: the whole shares and the
      exact price. */
  lemma PayloadCarriesForm(symbol: string, kind: Store.TxKind, quantity: string, price: string, date: string)
    requires ValidShares(quantity, None) && Numbers.NoExponent(quantity) && ValidPrice(price)
    ensures MakePayload(symbol, kind, quantity, price, date).quantity == Some(Shares(quantity))
    ensures MakePayload(symbol, kind, quantity, price, date).price == Some(Price(price))
  {
    Numbers.ParseIntWhole(quantity);
    Numbers.ParseFloatValid(price);
  }

  /** A quantity with an exponent passes the browser but not `parseInt`:
      "1e2" is a valid quantity of 100 shares, and the payload asks for 1. */
  lemma ExponentSharesSentAsOne(symbol: string, kind: Store.TxKind, price: string, date: string)
    ensures ValidShares("1e2", None) && Shares("1e2") == 100
    ensures MakePayload(symbol, kind, "1e2", price, date).quantity == Some(1)
  {
    Numbers.ParseIntStopsAtExponent();
  }

  /** "0.1e1" is a valid quantity of 1 share, and the payload asks for 0,
      which `add_transaction` refuses as a missing field. */
  lemma ExponentSharesSentAsZero(symbol: string, kind: Store.TxKind, price: string, date: string)
    ensures ValidShares("0.1e1", None) && Shares("0.1e1") == 1
    ensures MakePayload(symbol, kind, "0.1e1", price, date).quantity == Some(0)
  {
    Numbers.ParseIntStopsAtDot();
  }

  /** The JSON `axios` sends for a payload: `NaN` is written as `null`. */
  function AsRequest(p: Payload): (req: Store.TxRequest)
    ensures req.symbol == Some(Store.JStr(p.symbol)) && req.date == Some(Store.JStr(p.date))
    ensures req.kind == Some(Store.JStr(if p.kind == Store.Buy then "buy" else "sell"))
    ensures p.quantity.None? <==> req.quantity == Some(Store.JNull)
    ensures p.quantity.Some? ==> req.quantity == Some(Store.JNum(p.quantity.value as real))
    ensures p.price.None? <==> req.price == Some(Store.JNull)
    ensures p.price.Some? ==> req.price == Some(Store.JNum(p.price.value))
  {
    Store.TxRequest(
      Some(Store.JStr(p.symbol)),
      Some(Store.JStr(if p.kind == Store.Buy then "buy" else "sell")),
      Some(if p.quantity.Some? then Store.JNum(p.quantity.value as real) else Store.JNull),
      Some(if p.price.Some? then Store.JNum(p.price.value) else Store.JNull),
      Some(Store.JStr(p.date)))
  }

  /** Any form the browser lets through, with a quantity written without
      an exponent, a symbol that is not all white space and a date the
      backend can read, is stored as exactly the transaction the user
      typed: its symbol normalised, its kind, whole shares, price and date. */
  lemma SubmittedTransactionIsStored(db: Store.Db, session: Option<int>, symbol: string, kind: Store.TxKind,
                                     quantity: string, price: string, date: string,
                                     parseDate: string -> Option<int>)
    requires Store.RequireAuth(db, session).Some?
    requires ValidShares(quantity, None) && Numbers.NoExponent(quantity) && ValidPrice(price) && date != []
    requires !Store.Blank(symbol) && 'Z' !in date && parseDate(date + TimeOfDay).Some?
    ensures var req := AsRequest(MakePayload(symbol, kind, quantity, price, date));
      var step := Store.AddTransaction(db, session, req, parseDate);
      && step.reply == Store.Ok(201)
      && step.db.transactions == db.transactions + [Store.Transaction(
           Store.RequireAuth(db, session).value.id, Store.NormalSymbol(symbol), kind,
           Shares(quantity), Price(price), parseDate(date + TimeOfDay).value)]
  {
    var req := AsRequest(MakePayload(symbol, kind, quantity, price, date));
    var uid := Store.RequireAuth(db, session).value.id;
    var d := SubmittedDraft(symbol, kind, quantity, price, date);
    SubmittedAmounts(d, uid, parseDate, Shares(quantity), Price(price), date);
  }

  /** The text checks of `add_transaction` pass on a submitted form. */
  lemma SubmittedDraft(symbol: string, kind: Store.TxKind, quantity: string, price: string, date: string)
    returns (d: Store.Draft)
    requires ValidShares(quantity, None) && Numbers.NoExponent(quantity) && ValidPrice(price) && date != []
    requires !Store.Blank(symbol)
    ensures d == Store.Draft(Store.NormalSymbol(symbol), kind, Store.JNum(Shares(quantity) as real),
                             Store.JNum(Price(price)), Store.JStr(date + TimeOfDay))
    ensures Store.ReadDraft(AsRequest(MakePayload(symbol, kind, quantity, price, date))) == Store.Accepted(d)
  {
    PayloadCarriesForm(symbol, kind, quantity, price, date);
    UpperKeepsSymbol(symbol);
    var req := AsRequest(MakePayload(symbol, kind, quantity, price, date));
    assert req == Store.TxRequest(
      Some(Store.JStr(Text.Upper(symbol))), Some(Store.JStr(if kind == Store.Buy then "buy" else "sell")),
      Some(Store.JNum(Shares(quantity) as real)), Some(Store.JNum(Price(price))), Some(Store.JStr(date + TimeOfDay)));
    d := DraftOf(req, Text.Upper(symbol), kind, Shares(quantity) as real, Price(price), date + TimeOfDay);
  }

  /** `ReadDraft` on a request of plain strings and positive numbers. */
  lemma DraftOf(req: Store.TxRequest, symbol: string, kind: Store.TxKind, n: real, p: real, when: string)
    returns (d: Store.Draft)
    requires req == Store.TxRequest(
      Some(Store.JStr(symbol)), Some(Store.JStr(if kind == Store.Buy then "buy" else "sell")),
      Some(Store.JNum(n)), Some(Store.JNum(p)), Some(Store.JStr(when)))
    requires !Store.Blank(symbol) && n > 0.0 && p > 0.0 && when != []
    ensures d == Store.Draft(Store.NormalSymbol(symbol), kind, Store.JNum(n), Store.JNum(p), Store.JStr(when))
    ensures Store.ReadDraft(req) == Store.Accepted(d)
  {
    d := Store.Draft(Store.NormalSymbol(symbol), kind, Store.JNum(n), Store.JNum(p), Store.JStr(when));
    var kindText := if kind == Store.Buy then "buy" else "sell";
    LowerKindText(kind);
    Store.ReadDraftAccepts(req, symbol, kindText, Store.JNum(n), Store.JNum(p), Store.JStr(when));
  }

  /** The type text the page sends is already lower case. */
  lemma LowerKindText(kind: Store.TxKind)
    ensures var t := if kind == Store.Buy then "buy" else "sell";
      Text.Lower(t) == t && t != []
  {
    if kind == Store.Buy {
      Store.LowerOfBuy();
    } else {
      var r := Text.Lower("sell");
      assert r[0] == 's' && r[1] == 'e' && r[2] == 'l' && r[3] == 'l';
    }
  }

  /** The number and date checks of `add_transaction` pass on a submitted
      form. */
  lemma SubmittedAmounts(d: Store.Draft, uid: nat, parseDate: string -> Option<int>, n: int, p: real, date: string)
    requires n >= 1 && p > 0.0 && 'Z' !in date && parseDate(date + TimeOfDay).Some?
    requires d.quantity == Store.JNum(n as real) && d.price == Store.JNum(p) && d.date == Store.JStr(date + TimeOfDay)
    ensures Store.ReadAmounts(d, uid, parseDate, true)
      == Store.Accepted(Store.Transaction(uid, d.symbol, d.kind, n, p, parseDate(date + TimeOfDay).value))
  {
    assert 'Z' !in TimeOfDay;
    ConcatWithout(date, TimeOfDay, 'Z');
    assert Text.ReplaceAll(date + TimeOfDay, 'Z', "+00:00") == date + TimeOfDay;
    assert Store.Trunc(n as real) == n;
  }

  /** A symbol of white space only passes the browser's `required` test but
      is refused by the backend as a missing field. */
  lemma BlankSymbolRefused(db: Store.Db, session: Option<int>, f: EntryForm, parseDate: string -> Option<int>)
    requires Store.RequireAuth(db, session).Some? && Store.Blank(f.symbol)
    ensures Store.AddTransaction(db, session, AsRequest(EntryPayload(f)), parseDate)
      == Store.Step(Store.Fail(400, Store.FieldsRequired), db)
  {
    var req := AsRequest(EntryPayload(f));
    UpperKeepsSymbol(f.symbol);
    assert Store.NormalSymbol(Text.Upper(f.symbol)) == [];
    assert Store.ReadDraft(req) == Store.Rejected(Store.Fail(400, Store.FieldsRequired));
    var uid := Store.RequireAuth(db, session).value.id;
    assert Store.ReadTransaction(req, uid, parseDate, true) == Store.Rejected(Store.Fail(400, Store.FieldsRequired));
  }

  /** The backend's normalisation undoes nothing the page's upper-casing
      did: both give the same stored symbol. */
  lemma UpperKeepsSymbol(s: string)
    ensures Store.NormalSymbol(Text.Upper(s)) == Store.NormalSymbol(s)
    ensures Store.Blank(Text.Upper(s)) <==> Store.Blank(s)
  {
    Text.UpperIdempotent(s);
    forall k | 0 <= k < |s|
      ensures Text.PySpace(Text.Upper(s)[k]) <==> Text.PySpace(s[k])
    {
      Text.UpperCharSpace(s[k]);
    }
  }

  lemma ConcatWithout(a: string, b: string, c: char)
    requires c !in a && c !in b
    ensures c !in a + b
  {
  }

  // -------------------------------------------------------------- the answer

  /** What `axios.post` settles with: success, or an error whose response
      body may carry an `error` string. */
  datatype Outcome = Accepted | Rejected(error: Option<string>)

  /** The reply of the backend route as the page receives it. A 500 carries
      the text of the exception, `crashText`. */
  function OutcomeOf(r: Store.Reply, crashText: string): (o: Outcome)
    ensures o.Accepted? <==> r.Ok?
    ensures r.Fail? ==> o == Rejected(Some(r.message))
  {
    match r
    case Ok(_) => Accepted
    case Fail(_, message) => Rejected(Some(message))
    case Crash => Rejected(Some(crashText))
  }

  /** `error.response?.data?.error || fallback`: an empty or missing error
      text falls back. */
  function Message(o: Outcome, fallback: string): (m: string)
    requires o.Rejected?
    ensures o.error.Some? && o.error.value != [] ==> m == o.error.value
    ensures (o.error.None? || o.error.value == []) ==> m == fallback
  {
    if o.error.Some? && o.error.value != [] then o.error.value else fallback
  }

  /** A modal: its form and whether it is open. */
  datatype Modal<F> = Modal(form: F, open: bool)

  /** What a submit's answer does to its modal: success resets the form and
      closes the modal, failure leaves both as they were so the user can
      correct the form. */
  function Settle<F>(m: Modal<F>, o: Outcome, blank: F): (r: Modal<F>)
    ensures o.Accepted? ==> !r.open && r.form == blank
    ensures o.Rejected? ==> r == m
  {
    if o.Accepted? then Modal(blank, false) else m
  }

  /** What a page keeps after a submit's answer: the modal, the page's
      error text, and whether the page data is fetched again. */
  datatype Answer<F> = Answer(modal: Modal<F>, error: string, refetch: bool)

  /** The `try`/`catch` of a submit handler: success settles the modal and
      fetches again with the error text untouched; failure keeps the modal
      and shows the backend's message or the flow's `fallback`. */
  function Conclude<F>(m: Modal<F>, error: string, o: Outcome, blank: F, fallback: string): (a: Answer<F>)
    ensures a.modal == Settle(m, o, blank)
    ensures a.refetch <==> o.Accepted?
    ensures o.Accepted? ==> a.error == error
    ensures o.Rejected? ==> a.error == Message(o, fallback)
  {
    if o.Accepted? then Answer(Settle(m, o, blank), error, true)
    else Answer(m, Message(o, fallback), false)
  }

  /** After a refused submit the same form is still there, so submitting
      again sends the very same payload. */
  lemma RetrySendsSamePayload(m: Modal<EntryForm>, error: Option<string>, today: string)
    ensures EntryPayload(Settle(m, Rejected(error), BlankEntry(today)).form) == EntryPayload(m.form)
  {
  }

  /** After an accepted submit the modal holds a blank form, which cannot
      be submitted again until it is filled in: one click stores one
      transaction. */
  lemma AcceptedFormCannotResubmit(m: Modal<EntryForm>, today: string)
    ensures !EntryValid(Settle(m, Accepted, BlankEntry(today)).form)
  {
    BlankFormsInvalid(today);
  }

  // ----------------------------------------------------------------- prefill

  /** `handleSellStock`: the holding's symbol, shares held as the cap, its
      current price, no quantity yet, and the price written with two
      decimals. */
  function SellPrefill(h: Api.Holding, today: string): (f: SellForm)
    ensures f.symbol == h.symbol && f.maxQuantity == h.quantity && f.quantity == []
    ensures f.price == Numbers.ToFixed2(h.currentPrice) && f.date == today
  {
    SellForm(h.symbol, h.quantity, h.currentPrice, "", Numbers.ToFixed2(h.currentPrice), today)
  }

  /** `handleBuyMoreStock`: the same without a cap. */
  function BuyPrefill(h: Api.Holding, today: string): (f: BuyForm)
    ensures f.symbol == h.symbol && f.quantity == []
    ensures f.price == Numbers.ToFixed2(h.currentPrice) && f.date == today
  {
    BuyForm(h.symbol, h.currentPrice, "", Numbers.ToFixed2(h.currentPrice), today)
  }

  /** A prefilled form cannot be submitted before a quantity is typed, and
      its price reads back as the current price to within half a cent,
      exactly when that price is a whole number of cents. */
  lemma PrefillWaitsForQuantity(h: Api.Holding, today: string)
    requires h.currentPrice >= 0.0
    ensures SellDisabled(false, SellPrefill(h, today)) && BuyDisabled(false, BuyPrefill(h, today))
    ensures var y := Numbers.ParseFloat(SellPrefill(h, today).price);
      y.Some? && h.currentPrice - 0.005 < y.value <= h.currentPrice + 0.005
    ensures (h.currentPrice * 100.0).Floor as real == h.currentPrice * 100.0 ==>
      Numbers.ParseFloat(BuyPrefill(h, today).price) == Some(h.currentPrice)
  {
    Numbers.FixedRoundTrip(h.currentPrice);
  }
}
