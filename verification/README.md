# StockSim core in Dafny

StockSim is a paper-trading web application. A Flask backend keeps users,
their buy/sell transactions and their watchlists in SQLite, values
portfolios from a stock price table, and proxies the Alpha Vantage market
data API. A React frontend holds the session, guards the routes, and runs
the Portfolio, Dashboard, Watchlist and Stock Search pages.

This project models that behaviour as pure Dafny functions over explicit
values, and proves what the code promises about it.

- **Database.** It is a `Store.Db` value. Each backend route
  (`register`, `require_auth`, `add_transaction`, `clear_all_portfolio`,
  the three watchlist routes) maps the database and the request to a
  reply and a new database.
- **Portfolio.** `get_portfolio` is `Holdings.GetPortfolio`. A method
  folds the user's transactions, newest first, into per-symbol positions.
  Lemmas tie each position to the net of buys and sells, whatever the
  order of the transactions. The holdings come out in the order their
  symbols first appear in that newest-first list, as the keys of the
  backend's `holdings` dict do.
- **Alpha Vantage client.** `backend/utils/api_client.py` is
  `AlphaVantage`. It covers the rate-limit wait, the parameters sent, and
  the quote, search, daily-series and overview transforms. The HTTP
  exchange, the clock and Python's `float(str)`/`int(str)` are inputs.
- **Pages.** Each page is a state record. Each asynchronous handler is
  split into the step taken when it starts and the step taken when its
  request settles. The request's result, the `window.confirm` answer and
  today's date are inputs. `Session` models `App.js`: the start-up probe,
  login and logout, the route table and the navbar.
- **Shared transaction modal.** The Portfolio and Dashboard pages share
  this flow, so `TransactionFlow` models it once:
  - the HTML constraint validation of the form inputs;
  - the submit buttons' disabled tests;
  - the payload, built with JavaScript `parseInt`/`parseFloat` as modelled
    in `Numbers`;
  - the success and failure handling;
  - the sell/buy prefill, with `toFixed(2)`.

  Its lemmas connect the page to the backend. A form the browser lets
  through, with its quantity written without an exponent, is stored as
  exactly the transaction typed. A quantity such as "1e2" passes the
  browser as 100 shares and is sent as 1. A sell form that can
  be submitted never asks for more shares than are held.

Amounts are exact `real`s. Python's and JavaScript's floating point, and
`round(..., 2)`, are not modelled.

Two handlers act only when their request succeeds:
- **Logout.** `handleLogout` clears the user only after the logout
  request succeeds (frontend/src/App.js:42-49); after a failed request the
  user stays logged in. `Session.HandleLogout` does the same.
- **Clear actions.** The clear handlers fetch the portfolio again only
  after a successful request (frontend/src/pages/Portfolio.js:152-159);
  after a failure they show the error and keep the portfolio shown.
  `PortfolioPage.ClearDone` does the same.

## Model

| member | source | states |
|---|---|---|
| Base.Take | backend/app.py:587 | at most n elements, all of the sequence when it is shorter, and always a prefix of it |
| Text.Upper | backend/app.py:621 | same length, each ASCII letter upper-cased, every other character kept |
| Text.Lower | backend/app.py:622 | same length, each ASCII letter lower-cased, every other character kept |
| Text.UpperIdempotent | frontend/src/pages/Portfolio.js:84 | upper-casing twice equals once, and leaves no lower-case letter |
| Text.Trim | backend/app.py:621 | the stripped text is empty exactly when every character is white space; otherwise it starts and ends with a non-space and is the middle of the input, with only white space before and after it |
| Text.RemoveAll | backend/utils/api_client.py:50 | no `%` is left, and every other character keeps its count |
| Text.ReplaceAll | backend/app.py:639 | a text without `Z` is unchanged, and a replacement without `Z` leaves none |
| Text.ReplaceAllSingle | backend/app.py:639 | a lone `Z` becomes `+00:00`, and any other character stays |
| Text.ReplaceAllConcat | backend/app.py:639 | replacing in two joined texts is replacing in each, so every character is replaced on its own, in order |
| Numbers.ParseInt | frontend/src/pages/Portfolio.js:85 | `parseInt` yields a number exactly when the longest sign-and-digits prefix after leading white space has a digit |
| Numbers.ParseFloat | frontend/src/pages/Portfolio.js:86 | `parseFloat` yields a number exactly when the longest decimal literal, exponent included, after leading white space has a digit |
| Numbers.ToNumber | frontend/src/pages/Portfolio.js:1022 | `Number(text)` is 0 for blank text, and otherwise a number exactly when the trimmed text is one whole decimal literal, exponent included |
| Numbers.InputValue | frontend/src/pages/Portfolio.js:519-561 | a number input has a value exactly when its text is a valid floating-point number, exponent part included |
| Numbers.ScanDecimal | frontend/src/pages/Portfolio.js:86 | the scanned decimal is exactly the text's prefix it renders to, and stops only where the grammar cannot continue |
| Numbers.ScanExponent | frontend/src/pages/Portfolio.js:86 | an exponent part is read exactly when the text starts with `e`/`E`, an optional sign and a digit; it is the prefix it renders to and takes every digit |
| Numbers.ScanLiteral | frontend/src/pages/Portfolio.js:86 | the decimal followed by an exponent part only when the decimal has a digit and a complete exponent follows; the prefix it renders to, stopping before any further digit |
| Numbers.RoundCents | frontend/src/pages/Portfolio.js:60 | the cents are within half a cent of the amount, ties upward |
| Numbers.ShowNatValue | frontend/src/pages/Portfolio.js:60 | reading back the decimal digits written for n gives n |
| Numbers.ParseShowCents | frontend/src/pages/Portfolio.js:60 | `parseFloat` of the two-decimal text of c cents is c/100 |
| Numbers.FixedRoundTrip | frontend/src/pages/Portfolio.js:60 | `parseFloat(x.toFixed(2))` is within half a cent of x, and equals x when x is a whole number of cents |
| Numbers.ParseIntShowNat | frontend/src/pages/Portfolio.js:85 | `parseInt` reads back the decimal text of every natural number |
| Numbers.ParseFloatValid | frontend/src/pages/Portfolio.js:86 | `parseFloat` of any valid number input, exponent forms included, gives the value the browser validated |
| Numbers.ToNumberValid | frontend/src/pages/Portfolio.js:1022 | `Number` of any valid number input, exponent forms included, gives the value the browser validated |
| Numbers.ParseIntWhole | frontend/src/pages/Portfolio.js:85 | `parseInt` of a valid input without an exponent that holds a whole number of at least 1 gives that number |
| Numbers.ParseIntStopsAtExponent | frontend/src/pages/Portfolio.js:85 | "1e2" is a valid input worth 100 and `parseInt` reads it as 1 |
| Numbers.ParseIntStopsAtDot | frontend/src/pages/Portfolio.js:85 | "0.1e1" is a valid input worth 1 and `parseInt` reads it as 0 |
| Ordering.SortDesc | backend/utils/api_client.py:83 | the result is sorted descending and is a permutation of the input |
| Ordering.LexLeTotal | backend/utils/api_client.py:83 | Python string comparison orders every pair of strings |
| Ordering.LexLeTransitive | backend/utils/api_client.py:83 | Python string comparison is transitive |
| Ordering.LexLeAntisymmetric | backend/utils/api_client.py:83 | two strings each at most the other are equal |
| Ordering.KeyOrderIsTotal | backend/utils/api_client.py:83 | comparing by a string key is a total preorder, so sorting by it is defined |
| Store.AsNumber | backend/app.py:634 | `v <= 0` can be evaluated exactly for numbers and booleans: a number gives its own value, `True` 1 and `False` 0; other values raise |
| Store.Trunc | backend/app.py:648 | `int(x)` truncates toward zero: the whole part, within one of x, on x's side of zero |
| Store.FindUser | backend/app.py:349 | the user found has the id asked for; none is found only when no user has it |
| Store.RequireAuth | backend/app.py:345-349 | a user exactly when the session holds a truthy id that some user has, and then that user |
| Store.MaxId | backend/app.py:24 | no row's id exceeds it, it is some row's id, and 0 for an empty table, so one more is a fresh primary key |
| Store.Register | backend/app.py:96-119 | checks in order: credentials present, password at least 6 characters, username free, each 400 and storing nothing; otherwise 201, one user appended under an id no user had, and that user logged in |
| Store.RegisterKeepsUsersDistinct | backend/app.py:102-108 | registration keeps usernames and ids unique |
| Store.NormalSymbol | backend/app.py:621 | the stored symbol is empty exactly when the text is all white space, has no lower-case letter, and has no white space at its ends |
| Store.NormalSymbolChars | backend/app.py:621 | the stored symbol is the text's characters after its leading white space, each upper-cased, with only white space after them |
| Store.NormalSymbolIdempotent | backend/app.py:621 | normalising a stored symbol again leaves it as it is |
| Store.ReadDraft | backend/app.py:621-632 | 500 exactly when the symbol or type is not a string; otherwise "all fields required" exactly when a normalised field is empty or falsy; otherwise "bad type" exactly when the type is not "buy"/"sell"; an accepted draft carries the normalised symbol, the kind its type names and the three truthy fields |
| Store.ReadDraftAccepts | backend/app.py:628-632 | a request with a non-blank symbol, type "buy"/"sell" in any case and truthy fields passes the text checks with those values |
| Store.FalsyQuantityIsMissing | backend/app.py:628-629 | a falsy quantity is refused as a missing field |
| Store.ReadAmounts | backend/app.py:634-651 | check by check: a quantity that is not a number raises (500), one that fails the positivity test is "not positive"; then the same for the price; then a date that is not a string raises, one that does not parse is "bad date"; a request passing all of them is accepted as the draft's symbol and kind with the truncated quantity, the price and the parsed date |
| Store.ReadTransaction | backend/app.py:621-651 | accepts exactly when every check passes, as a transaction of the user with the normalised symbol, the kind the type names, the truncated quantity, the price and the parsed date |
| Store.AddTransactionAsWritten | backend/app.py:614-654 | the route as written: with a user it answers 201 exactly when every check passes on the quantity received; non-201 stores nothing; 201 appends exactly one transaction, with the requested type and parsed date, whose stored quantity may be 0 |
| Store.FractionalQuantityStoredAsZero | backend/app.py:634-648 | a request for half a share is answered 201 and stores a transaction of 0 shares |
| Store.AddTransaction | backend/app.py:614-663 | 401 without a user; with one, 201 exactly when every check passes on the whole shares stored; any other refusal stores nothing; 201 appends exactly one transaction of the session user with the normalised symbol, the requested type and parsed date, and positive truncated quantity and price |
| Store.ZeroQuantityIsMissing | backend/app.py:628-635 | the checks run in order: quantity 0 hits "all fields required", not the positivity check |
| Store.CorrectionOnlyRejectsZeroShares | backend/app.py:634-648 | the corrected route agrees with the written one except on a positive quantity below 1, which it refuses with 400 |
| Store.ClearAll | backend/app.py:594-607 | 401 without a user; otherwise 200, exactly the user's transactions are deleted, and the count deleted is returned |
| Store.OthersOf | backend/app.py:601 | keeps exactly the transactions of other users |
| Store.OnlyOf | backend/app.py:524 | keeps exactly the transactions of the given user |
| Store.ClearKeepsOthers | backend/app.py:601 | clearing leaves every other user's transactions as they were, in order |
| Store.AddToWatchlist | backend/app.py:461-486 | 401 without a user; empty symbol, then already watched, each 400 and storing nothing; otherwise 201 with exactly one entry for the user and normalised symbol appended |
| Store.AddKeepsWatchUnique | backend/app.py:474-481 | adding never makes a second entry for a (user, symbol) pair |
| Store.FindWatch | backend/app.py:499-502 | finds an entry of the user for the symbol exactly when one exists |
| Store.RemoveFromWatchlist | backend/app.py:493-510 | 401 without a user; 404 when the upper-cased symbol is not watched; otherwise 200 and exactly one matching entry deleted |
| Store.RemoveDeletesExactlyOne | backend/app.py:499-508 | with unique entries the symbol is no longer watched afterwards, and every other entry remains |
| Store.StockDataOf | backend/app.py:442-443 | the stock row's name, sector and last price, or the symbol with name "Unknown" and nothing else when there is no row |
| Store.RowsOfMembers | backend/app.py:437-450 | every row is an entry of the user with its stock data, and every entry of the user has its row |
| Store.RowsOfSingle | backend/app.py:437-450 | one entry gives its row when it is the user's and no row otherwise |
| Store.RowsOfConcat | backend/app.py:437-450 | the rows of joined entry runs are the rows of each run in turn, so there is one row per entry of the user, in the order the model keeps the entries |
| Store.GetWatchlist | backend/app.py:431-455 | 401 without a user; otherwise 200 with the user's rows |
| Store.AnonymousChangesNothing | backend/app.py:345-349 | without a session user every transaction and watchlist route answers 401 and leaves the database unchanged |
| Holdings.NetConcat | backend/app.py:528-540 | the net shares and cost of a concatenation are the sums of the parts' |
| Holdings.NetPermutation | backend/app.py:524-540 | net shares and cost depend only on which transactions there are, not their order |
| Holdings.Symbols | backend/app.py:527-531 | the dict's keys: each symbol mentioned, once |
| Holdings.SymbolsFirstOrder | backend/app.py:527-531 | the dict's keys are in the order of their first appearance among the transactions |
| Holdings.Record | backend/app.py:529-540 | one loop iteration adds the symbol at first sight and adds/subtracts the shares and cost |
| Holdings.Aggregate | backend/app.py:527-540 | the loop leaves each symbol's position equal to bought minus sold shares and paid minus received cost |
| Holdings.PriceOf | backend/app.py:554-555 | the stock's last price, or 0 when it has none |
| Holdings.Percent | backend/app.py:558 | gain as a percentage of cost, 0 when cost is not positive |
| Holdings.MakeHolding | backend/app.py:551-568 | average cost times quantity is the cost; value is quantity times price; gain is value minus cost |
| Holdings.BuildHoldingsSound | backend/app.py:543-570 | every holding built is the priced position of a listed symbol with positive quantity |
| Holdings.BuildHoldingsComplete | backend/app.py:543 | every listed symbol with positive quantity has a holding |
| Holdings.BuildHoldingsDistinct | backend/app.py:550 | no symbol has two holdings |
| Holdings.BuildHoldingsOrdered | backend/app.py:543-550 | the active holdings keep the order of the keys they come from |
| Holdings.TotalGainSumsHoldings | backend/app.py:572-575 | the total gain equals the sum of the holdings' gains |
| Holdings.Summarize | backend/app.py:572-585 | totals add up the active holdings; the total gain is the holdings' gains added up when each is value minus cost; the percentage times the cost is 100 times the gain, or 0 on non-positive cost; the count is the number of holdings |
| Holdings.View | backend/app.py:77-86 | a transaction as `to_dict` shows it, type written "buy"/"sell" |
| Holdings.Newest | backend/app.py:524 | the user's transactions, newest date first |
| Holdings.GetPortfolio | backend/app.py:518-588 | 401 without a user; otherwise one holding per symbol held in positive net quantity, carrying the net over all the user's transactions, listed in the order their symbols first appear among the user's transactions newest first; a summary over them and the ten newest transactions |
| Holdings.RecentAreNewest | backend/app.py:587 | at most ten of the user's transactions, newest first, none left out newer than one kept |
| AlphaVantage.Wait | backend/utils/api_client.py:16-20 | the sleep is never negative, brings the gap to at least 12 seconds, and is 0 or ends exactly 12 seconds after the last request |
| AlphaVantage.WaitIsLeast | backend/utils/api_client.py:16-20 | no shorter sleep keeps requests 12 seconds apart |
| AlphaVantage.MakeRequest | backend/utils/api_client.py:13-31 | sends the caller's parameters plus `apikey`; a body only on success; the last-request time moves exactly when a response arrived |
| AlphaVantage.Section | backend/utils/api_client.py:41-42 | a section exactly when the body is present and holds the key |
| AlphaVantage.FloatField | backend/utils/api_client.py:48 | 0 for a missing key, the parsed float for a string, raises otherwise |
| AlphaVantage.IntField | backend/utils/api_client.py:51 | 0 for a missing key, the parsed int for a string, raises otherwise |
| AlphaVantage.ChangePercent | backend/utils/api_client.py:50 | "0" when missing; otherwise the text with every `%` removed and all else kept |
| AlphaVantage.StripTwice | backend/utils/api_client.py:50 | stripping `%` twice equals stripping it once |
| AlphaVantage.StripKeepsDigits | backend/utils/api_client.py:50 | a number followed by `%` is stripped to that number |
| AlphaVantage.GetStockQuote | backend/utils/api_client.py:33-54 | None without a "Global Quote"; a raise exactly when the quote is not an object or one conversion raises, otherwise a quote; each field from its key with its default, and a change percentage without `%` |
| AlphaVantage.MatchesOf | backend/utils/api_client.py:121-128 | one result per match, in order, each from its five keys |
| AlphaVantage.SearchStocks | backend/utils/api_client.py:109-130 | [] without "bestMatches"; otherwise the first ten matches in their original order |
| AlphaVantage.ParseBar | backend/utils/api_client.py:72-80 | a bar exactly when all five keys hold text that converts; then its date and each of open, high, low, close and volume converted from its own key |
| AlphaVantage.DateOrderIsTotal | backend/utils/api_client.py:83 | comparing bars by date string is a total preorder |
| AlphaVantage.GetDailyData | backend/utils/api_client.py:56-85 | None without the series; raises exactly when an entry does not parse; otherwise one bar per date, newest first |
| AlphaVantage.SortedBarsUnique | backend/utils/api_client.py:83 | bars with distinct dates have only one newest-first order, so the iteration order of the entries does not matter |
| AlphaVantage.GetCompanyOverview | backend/utils/api_client.py:87-107 | an overview exactly when the body has a `Symbol`; each of its eight fields is the body's value under its own key, or absent when the key is |
| Session.CheckAuthStatus | frontend/src/App.js:26-36 | the probe ends loading and sets the user it returned, or none on failure |
| Session.HandleLogin | frontend/src/App.js:38-40 | login sets the user and changes nothing else |
| Session.HandleLogout | frontend/src/App.js:42-49 | a successful logout drops the user; a failed one changes nothing |
| Session.Route | frontend/src/App.js:65-113 | login/register only when anonymous (else to /dashboard); the four protected pages only when logged in (else to /login); / to /dashboard or /login |
| Session.Display | frontend/src/App.js:51-64 | a spinner exactly while loading; otherwise the navbar exactly when logged in, above the routed outcome |
| Session.GuardIsSound | frontend/src/App.js:67-104 | a rendered view is a login or register form exactly when no one is logged in |
| Session.RedirectsSettle | frontend/src/App.js:67-112 | every redirect lands on a path that renders a view |
| Session.SpinnerOnlyBeforeProbe | frontend/src/App.js:26-57 | the spinner shows only before the probe answers, and login and logout never bring it back |
| Session.FailedLogoutKeepsScreen | frontend/src/App.js:42-49 | a failed logout leaves the screen as it was |
| TransactionFlow.Shares | frontend/src/pages/Portfolio.js:523-537 | a valid quantity input holds a whole number of at least 1 |
| TransactionFlow.Price | frontend/src/pages/Portfolio.js:546-561 | a valid price input holds at least 0.01 |
| TransactionFlow.BlankFormsInvalid | frontend/src/pages/Portfolio.js:93-99 | a freshly reset form cannot be submitted |
| TransactionFlow.SellGuardAgreesWithMax | frontend/src/pages/Portfolio.js:1022 | the button's `quantity > maxQuantity` agrees with the input's own `max` check |
| TransactionFlow.SellNeverExceedsHolding | frontend/src/pages/Portfolio.js:1022 | a sell form that can be submitted asks for between 1 and the shares held |
| TransactionFlow.MakePayload | frontend/src/pages/Portfolio.js:82-88 | symbol upper-cased character by character, the form's type, the date followed by exactly `T10:00:00` |
| TransactionFlow.PayloadCarriesForm | frontend/src/pages/Portfolio.js:85-86 | a valid quantity written without an exponent and a valid price reach the payload as the whole shares and price typed |
| TransactionFlow.ExponentSharesSentAsOne | frontend/src/pages/Portfolio.js:85 | the quantity "1e2" passes the browser as 100 shares and is sent as 1 |
| TransactionFlow.ExponentSharesSentAsZero | frontend/src/pages/Portfolio.js:85 | the quantity "0.1e1" passes the browser as 1 share and is sent as 0 |
| TransactionFlow.AsRequest | frontend/src/pages/Portfolio.js:90 | the JSON posted: the payload's fields, with `NaN` sent as `null` |
| TransactionFlow.SubmittedTransactionIsStored | frontend/src/pages/Portfolio.js:82-90 | any submittable form with a quantity written without an exponent, a non-blank symbol and a readable date is stored as exactly the transaction typed |
| TransactionFlow.BlankSymbolRefused | backend/app.py:621-629 | a symbol of white space passes the browser but is refused as a missing field |
| TransactionFlow.UpperKeepsSymbol | frontend/src/pages/Portfolio.js:84 | the page's upper-casing does not change the symbol the backend stores |
| TransactionFlow.OutcomeOf | frontend/src/pages/Portfolio.js:90-104 | a 2xx reply succeeds; a refusal carries the backend's error text |
| TransactionFlow.Message | frontend/src/pages/Portfolio.js:104 | the backend's error text, or the fallback when it is missing or empty |
| TransactionFlow.Settle | frontend/src/pages/Portfolio.js:93-106 | success closes the modal on a blank form; failure leaves the modal and form as they were |
| TransactionFlow.Conclude | frontend/src/pages/Portfolio.js:81-106 | success settles the modal and fetches again, keeping the error text; failure shows the message and does not fetch |
| TransactionFlow.RetrySendsSamePayload | frontend/src/pages/Portfolio.js:103-106 | after a refusal, submitting again sends the same payload |
| TransactionFlow.AcceptedFormCannotResubmit | frontend/src/pages/Portfolio.js:93-100 | after success the blank form cannot be submitted again |
| TransactionFlow.SellPrefill | frontend/src/pages/Portfolio.js:54-63 | the holding's symbol, its shares as the cap, no quantity yet, and the price to two decimals |
| TransactionFlow.BuyPrefill | frontend/src/pages/Portfolio.js:66-74 | the holding's symbol, no quantity yet, and the price to two decimals |
| TransactionFlow.PrefillWaitsForQuantity | frontend/src/pages/Portfolio.js:54-75 | a prefilled form cannot be submitted before a quantity is typed, and its price reads back within half a cent of the current price |
| PortfolioPage.FetchDone | frontend/src/pages/Portfolio.js:41-52 | success shows the data and clears the error; failure keeps the data and reports "Failed to load portfolio"; loading ends either way |
| PortfolioPage.ReloadsShowLastLoaded | frontend/src/pages/Portfolio.js:41-52 | after a run of loads the page shows the data of the last load that succeeded, or what it showed before, and reports a failure exactly when the last load failed |
| PortfolioPage.FailedReloadKeepsLast | frontend/src/pages/Portfolio.js:41-52 | a failed load after a successful one keeps showing that load's data, with "Failed to load portfolio" |
| PortfolioPage.OpenAdd | frontend/src/pages/Portfolio.js:243 | opens the add modal on the form as it was left; nothing else changes |
| PortfolioPage.OpenSell | frontend/src/pages/Portfolio.js:54-64 | opens the sell modal on the prefilled form, nothing else changed |
| PortfolioPage.OpenBuy | frontend/src/pages/Portfolio.js:66-75 | opens the buy modal on the prefilled form, nothing else changed |
| PortfolioPage.Close | frontend/src/pages/Portfolio.js:457 | closes that modal, leaves the other modals open or closed as they were, keeps every form, and changes nothing else |
| PortfolioPage.Submit | frontend/src/pages/Portfolio.js:77-90 | nothing unless the modal is open and its form can submit; otherwise submitting is raised and the modal's payload sent |
| PortfolioPage.OneSubmitAtATime | frontend/src/pages/Portfolio.js:606 | while a submit is in flight no modal can submit |
| PortfolioPage.Complete | frontend/src/pages/Portfolio.js:77-110 | submitting drops; success closes the modal, resets its form to the blank one for today and fetches again; failure keeps everything but the error; other modals unchanged; nothing outside the modals, error and submitting changes |
| PortfolioPage.RefusedSubmitKeepsModal | frontend/src/pages/Portfolio.js:103-106 | a refusal shows the backend's text or the flow's own fallback and keeps the modal open on the same form |
| PortfolioPage.AddRoundTrip | frontend/src/pages/Portfolio.js:77-110 | a submittable add form whose quantity has no exponent is stored with 201, and the answer closes the modal on a blank form and fetches again |
| PortfolioPage.ClearStart | frontend/src/pages/Portfolio.js:146-151 | nothing without confirmation; otherwise its own flag is raised and the clear request sent |
| PortfolioPage.ClearDone | frontend/src/pages/Portfolio.js:152-159 | its flag drops; success fetches again; failure shows the backend's text or its fallback; nothing but the two flags and the error changes |
| PortfolioPage.ClearFlagReturns | frontend/src/pages/Portfolio.js:146-176 | a clear that starts and settles leaves both flags lowered |
| PortfolioPage.ClearButtonReturns | frontend/src/pages/Portfolio.js:374-384 | the "Clear History" button is disabled while its clear runs and enabled again once it settles |
| DashboardPage.FetchDone | frontend/src/pages/Dashboard.js:25-40 | both portfolio and watchlist are set only when both loads succeed; otherwise neither, with "Failed to load dashboard data" |
| DashboardPage.LoadIsAllOrNothing | frontend/src/pages/Dashboard.js:27-33 | after a load both parts are new or both are old |
| DashboardPage.Submit | frontend/src/pages/Dashboard.js:42-55 | nothing unless the modal is open and the form can submit; otherwise the payload is sent |
| DashboardPage.Complete | frontend/src/pages/Dashboard.js:55-71 | success closes the modal on a blank form and fetches again; failure shows the backend's text or "Failed to add transaction"; nothing but the modal, the error and submitting changes |
| DashboardPage.Preview | frontend/src/pages/Dashboard.js:170 | at most five items, the first ones, and all of them when there are five or fewer |
| DashboardPage.ViewAllIffHidden | frontend/src/pages/Dashboard.js:190 | "View all" appears exactly when the preview leaves an item out |
| WatchlistPage.FetchDone | frontend/src/pages/Watchlist.js:14-25 | success shows the list and clears the error; failure keeps the list and reports "Failed to load watchlist"; nothing but the list, error and loading changes |
| WatchlistPage.ReloadsShowLastLoaded | frontend/src/pages/Watchlist.js:14-25 | after a run of loads the page shows the list of the last load that succeeded, or what it showed before, and reports a failure exactly when the last load failed |
| WatchlistPage.FailedReloadKeepsLast | frontend/src/pages/Watchlist.js:14-25 | a failed load after a successful one keeps showing that load's list, with "Failed to load watchlist" |
| WatchlistPage.RefreshStart | frontend/src/pages/Watchlist.js:99 | nothing while refreshing or with an empty list; otherwise refreshing is raised and one quote is requested per item, in order |
| WatchlistPage.Merge | frontend/src/pages/Watchlist.js:32-47 | a quote overwrites only price, change and change percentage; a failed quote leaves the item as it was |
| WatchlistPage.Refreshed | frontend/src/pages/Watchlist.js:31-49 | same length and order, each item merged with its own quote |
| WatchlistPage.RefreshDone | frontend/src/pages/Watchlist.js:50-55 | refreshing drops, the error stays as it was, the list becomes the merged list, and nothing else changes |
| WatchlistPage.RefreshKeepsItems | frontend/src/pages/Watchlist.js:31-49 | a refresh keeps each item's id and symbol at its place |
| WatchlistPage.FailedRefreshChangesNothing | frontend/src/pages/Watchlist.js:44-47 | when every quote fails the list is unchanged |
| WatchlistPage.RefreshIdempotent | frontend/src/pages/Watchlist.js:35-42 | refreshing again with the same quotes changes nothing more |
| WatchlistPage.RefreshFlagReturns | frontend/src/pages/Watchlist.js:28-55 | refreshing is raised while a refresh runs, blocking a second one, and lowered when it settles |
| WatchlistPage.Without | frontend/src/pages/Watchlist.js:63 | keeps exactly the items of other symbols |
| WatchlistPage.WithoutSingle | frontend/src/pages/Watchlist.js:63 | one item is dropped when it is of the symbol and kept otherwise |
| WatchlistPage.WithoutConcat | frontend/src/pages/Watchlist.js:63 | filtering joined lists is filtering each in turn, so the kept items keep their order and count |
| WatchlistPage.Remove | frontend/src/pages/Watchlist.js:58-67 | nothing unconfirmed; success drops the symbol's items; failure keeps the list and sets the error |
| WatchlistPage.RemoveAgreesWithBackend | frontend/src/pages/Watchlist.js:62-63 | dropping the symbol from the listed rows gives what the backend lists after deleting it |
| SearchPage.SearchStart | frontend/src/pages/StockSearch.js:13-24 | nothing while loading or for a query blank after trimming; otherwise everything shown is cleared and the untrimmed query sent |
| SearchPage.SearchRoute | backend/app.py:352-361 | the route answers exactly when the client does not raise, with at most ten results |
| SearchPage.SearchDone | frontend/src/pages/StockSearch.js:23-35 | results are shown, with "No stocks found…" when empty; failure shows "Search failed…"; loading ends; nothing but results, error and loading changes |
| SearchPage.SearchRoundTrip | frontend/src/pages/StockSearch.js:13-35 | an answered search shows at most ten results, a message exactly when there are none, and no selection left over |
| SearchPage.Select | frontend/src/pages/StockSearch.js:38-45 | the match becomes the selection, the quote and error are cleared, and its symbol is requested |
| SearchPage.SelectDone | frontend/src/pages/StockSearch.js:44-52 | success sets the quote; failure shows "Failed to load stock quote."; loading ends; nothing but quote, error and loading changes |
| SearchPage.PanelOf | frontend/src/pages/StockSearch.js:168-231 | details exactly with a selection and a quote, a spinner while a selection loads, otherwise a hint |
| SearchPage.SelectionShowsItsQuote | frontend/src/pages/StockSearch.js:38-53 | a selection shows a spinner until its own quote arrives, then that quote beside that match |
| SearchPage.AddStart | frontend/src/pages/StockSearch.js:177-178 | sends the selection's symbol only when the details show and no add runs |
| SearchPage.AddDone | frontend/src/pages/StockSearch.js:57-65 | the flag drops; the alert names the symbol, or the backend's text or "Failed to add to watchlist" |
| SearchPage.AddFlagReturns | frontend/src/pages/StockSearch.js:55-65 | a second click while adding sends nothing, and the flag is lowered once the add settles |

## Left out

- Login, `/api/me` and the backend `logout` route are not modelled. The frontend's probe, login and logout take their results as inputs.
- The quote, chart and overview routes (backend/app.py:363-427) are not modelled. They also write the `stock` table, which the model takes as given.
- The server's routes call a second client class defined in backend/app.py:194-339. It is not modelled. Its search is the same as backend/utils/api_client.py's, which is modelled. Its quote adds a hard-coded demo fallback.
- backend/models.py is not part of this model. It repeats the schema of backend/app.py:23-86 and has no behaviour.
- SQLAlchemy, the Flask request and session plumbing, and password hashing are not modelled. The hash and the session's user id are inputs.
- Timestamps the backend takes from its clock are not modelled. The date parser `datetime.fromisoformat` is an input function.
- Holdings.GetPortfolio: the reply's `round(..., 2)` is not applied; amounts are exact reals. Each holding's `stock_info` (the stock row's `to_dict`, backend/app.py:569) is not part of `Api.Holding`.
- Holdings.View: the `id` and `created_at` keys of `to_dict` (backend/app.py:79, 85) are not part of `Api.TxView`; the pages never read them.
- Store.GetWatchlist: the query has no `ORDER BY` (backend/app.py:437), so SQL leaves the row order open; a database may well return the order of the `(user_id, symbol)` unique index (backend/app.py:58). The model lists the user's entries in the order it keeps the rows, which is insertion order.
- Holdings.Newest: rows with equal dates keep their table order. SQL `ORDER BY date DESC` leaves that order unspecified.
- Floating-point arithmetic, `Intl.NumberFormat` and `toLocaleString` are not modelled.
- Numbers.ToNumber: `Infinity` and the hexadecimal, octal and binary forms are not modelled; a number input accepts none of them as valid.
- Numbers.ParseInt: the `0x`/`0X` prefix is not modelled. JavaScript's `parseInt("0x1A")` is 26 and `parseInt("0x")` is NaN; the model reads both as 0. A number input's value never holds such text.
- Numbers.ParseFloat: `Infinity` is not modelled. JavaScript's `parseFloat("Infinity")` is Infinity; the model gives `None`. A number input's value never holds such text.
- Numbers.ParseIntWhole: holds only for text without an exponent. With one, `parseInt` stops at the `e`, as `Numbers.ParseIntStopsAtExponent` shows.
- TransactionFlow.PayloadCarriesForm: the quantity must be written without an exponent. A browser-valid "1e2" is sent as 1 share (`TransactionFlow.ExponentSharesSentAsOne`).
- TransactionFlow.SubmittedTransactionIsStored: the quantity must be written without an exponent, for the same reason.
- PortfolioPage.AddRoundTrip: the quantity must be written without an exponent. "0.1e1" passes the browser as 1 share, but `parseInt` sends 0 (`TransactionFlow.ExponentSharesSentAsZero`), which the backend refuses as a missing field (`Store.ZeroQuantityIsMissing`).
- TransactionFlow.PrefillWaitsForQuantity: requires a non-negative price. `toFixed(2)` of a negative price, which a stock row never holds, is not related back.
- Text.Upper: only ASCII letters change case; Unicode case mapping is not modelled.
- JSON arrays and objects in request bodies are not modelled; `Store.Json` holds scalars only.
- Alpha Vantage bodies are modelled with strings, objects and arrays only (`Api.Value`). JSON numbers, booleans and `null`, which the service does not send in the fields read, are not modelled.
- Store.Register: takes the username and password as strings. Other JSON types there are not modelled.
- `Promise.all` concurrency is not modelled. The dashboard load and the watchlist refresh take all their results at once. Responses that arrive after the page moved on are not modelled either.
- WatchlistPage.RefreshDone: its outer `catch` ("Failed to refresh prices") is never reached, because every quote request catches its own failure, so it is not modelled.
- PortfolioPage.ClearStart: `handleClearHoldings` has no button on the page. It is modelled as the `ClearEverything` handler all the same.
- The route table ignores React Router's case-insensitive matching and trailing slashes; paths are compared exactly.
- SearchPage.AddDone: the alert is an `Added(symbol)` or `Failed(text)` value, not the formatted alert text.

## Findings

| source | as written | input that shows it | evidently intended | confidence | as-written member | corrected member |
|---|---|---|---|---|---|---|
| backend/app.py:634-648 | the positivity check runs on the quantity received, but `int(quantity)` is what is stored | `{"symbol": "AAPL", "type": "buy", "quantity": 0.5, "price": 10, "date": "2024-01-15T10:00:00"}` is answered 201 and stores 0 shares | a stored transaction has a positive number of shares | not executed | Store.AddTransactionAsWritten, Store.FractionalQuantityStoredAsZero | Store.AddTransaction, Store.CorrectionOnlyRejectsZeroShares |
