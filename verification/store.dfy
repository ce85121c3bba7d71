/** The backend's user, transaction and watchlist routes (backend/app.py),
    as pure functions from the database contents and the request to the
    reply and the new database contents. The SQL database is an explicit
    `Db` value, the signed session cookie is the `session` user id it
    carries, and the clock and password hashing are inputs. A route that
    raises inside its `try` block rolls back and answers 500; that is the
    `Crash` reply, and it leaves the database as it was. */
module Store {
  import opened Base
  import Text
  import Api

  /** A scalar of a JSON request body. Arrays and objects are not modelled. */
  datatype Json = JNull | JBool(b: bool) | JNum(n: real) | JStr(s: string)

  /** The body of a transaction request, `request.get_json()`: each field
      is `None` when its key is absent. `data.get(key, default)` is
      `GetOr(default)`. */
  datatype TxRequest = TxRequest(
    symbol: Option<Json>,
    kind: Option<Json>,
    quantity: Option<Json>,
    price: Option<Json>,
    date: Option<Json>)

  /** Python truthiness of a JSON scalar. */
  predicate Truthy(v: Json) {
    match v
    case JNull => false
    case JBool(b) => b
    case JNum(n) => n != 0.0
    case JStr(s) => s != []
  }

  /** The number Python compares when it evaluates `v <= 0`: booleans count
      as 0 and 1; any other non-number raises `TypeError` (`None`). */
  function AsNumber(v: Json): (r: Option<real>)
    ensures r.Some? <==> v.JNum? || v.JBool?
    ensures v.JNum? ==> r == Some(v.n)
    ensures v.JBool? ==> r == Some(if v.b then 1.0 else 0.0)
  {
    match v
    case JNum(n) => Some(n)
    case JBool(b) => Some(if b then 1.0 else 0.0)
    case _ => None
  }

  /** Python `int(x)` for a float: truncation toward zero. */
  function Trunc(x: real): (r: int)
    ensures 0.0 <= x ==> 0 <= r && r as real <= x < r as real + 1.0
    ensures x < 0.0 ==> r <= 0 && r as real - 1.0 < x <= r as real
  {
    if x >= 0.0 then x.Floor else -((-x).Floor)
  }

  datatype TxKind = Buy | Sell

  datatype User = User(id: nat, username: string, passwordHash: string)

  datatype Transaction = Transaction(
    userId: nat,
    symbol: string,
    kind: TxKind,
    quantity: int,
    price: real,
    date: int)

  datatype WatchEntry = WatchEntry(id: nat, userId: nat, symbol: string)

  /** A row of the `stock` table, keyed by symbol in `Db.stocks`. */
  datatype Stock = Stock(name: string, sector: Option<string>, lastPrice: Option<real>)

  datatype Db = Db(
    users: seq<User>,
    transactions: seq<Transaction>,
    watchlist: seq<WatchEntry>,
    stocks: map<string, Stock>)

  /** The status and `error` text of a reply; `Crash` is the 500 reply whose
      text is the Python exception message. */
  datatype Reply = Ok(status: nat) | Fail(status: nat, message: string) | Crash

  /** A reply together with the database after the route. */
  datatype Step = Step(reply: Reply, db: Db)

  const AuthRequired := "Authentication required"
  const CredentialsRequired := "Username and password required"
  const PasswordTooShort := "Password must be at least 6 characters"
  const UsernameTaken := "Username already exists"
  const FieldsRequired := "All fields required: symbol, type, quantity, price, date"
  const BadType := "Transaction type must be \"buy\" or \"sell\""
  const NotPositive := "Quantity and price must be positive numbers"
  const BadDate := "Invalid date format. Use ISO format (YYYY-MM-DDTHH:MM:SS)"
  const SymbolRequired := "Stock symbol required"
  const AlreadyWatched := "Stock already in watchlist"
  const NotWatched := "Stock not found in watchlist"

  const MinPasswordLength := 6

  // ---------------------------------------------------------------- users

  /** The first user with the given id (`User.query.get`). */
  function FindUser(users: seq<User>, id: int): (r: Option<User>)
    ensures r.Some? ==> r.value in users && r.value.id == id
    ensures r.None? ==> forall k :: 0 <= k < |users| ==> users[k].id != id
  {
    if users == [] then None
    else if users[0].id == id then Some(users[0])
    else FindUser(users[1..], id)
  }

  /** `require_auth()`: the session's user, when the session holds a truthy
      user id that names an existing user. */
  function RequireAuth(db: Db, session: Option<int>): (r: Option<User>)
    ensures r.Some? <==> session.Some? && session.value != 0
                         && exists k :: 0 <= k < |db.users| && db.users[k].id == session.value
    ensures r.Some? ==> r.value in db.users && r.value.id == session.value
  {
    if session.None? || session.value == 0 then None
    else FindUser(db.users, session.value)
  }

  /** The largest id of a table's rows, 0 for an empty table; the next
      row inserted gets one more (an autoincrement primary key). */
  function MaxId<T>(rows: seq<T>, id: T -> nat): (m: nat)
    ensures forall k :: 0 <= k < |rows| ==> id(rows[k]) <= m
    ensures rows == [] ==> m == 0
    ensures rows != [] ==> exists k :: 0 <= k < |rows| && id(rows[k]) == m
  {
    if rows == [] then 0
    else
      var rest := MaxId(rows[1..], id);
      if id(rows[0]) > rest then id(rows[0]) else rest
  }

  function UserId(u: User): nat { u.id }

  predicate UsernameTakenIn(users: seq<User>, name: string) {
    exists k :: 0 <= k < |users| && users[k].username == name
  }

  /** No two users share a username or an id. */
  predicate UsersDistinct(users: seq<User>) {
    forall i, j :: 0 <= i < j < |users| ==>
      users[i].username != users[j].username && users[i].id != users[j].id
  }

  /** `register`: the checks run in the source's order (credentials present,
      password length, username free), each answering 400 and storing
      nothing; otherwise one user is appended with a fresh id, and the
      session is logged in as that user. `hash` is the password hash. */
  function Register(db: Db, username: Option<string>, password: Option<string>, hash: string)
    : (res: (Step, Option<nat>))
    ensures var (step, session) := res;
      && (username.None? || username.value == [] || password.None? || password.value == [] ==>
            step == Step(Fail(400, CredentialsRequired), db))
      && (username.Some? && username.value != [] && password.Some? && password.value != [] ==>
            && (|password.value| < MinPasswordLength ==> step == Step(Fail(400, PasswordTooShort), db))
            && (|password.value| >= MinPasswordLength && UsernameTakenIn(db.users, username.value) ==>
                  step == Step(Fail(400, UsernameTaken), db))
            && (|password.value| >= MinPasswordLength && !UsernameTakenIn(db.users, username.value) ==>
                  && step.reply == Ok(201)
                  && session.Some?
                  && step.db == db.(users := db.users + [User(session.value, username.value, hash)])
                  && forall k :: 0 <= k < |db.users| ==> db.users[k].id != session.value))
      && (step.reply != Ok(201) ==> session.None?)
  {
    if username.None? || username.value == [] || password.None? || password.value == [] then
      (Step(Fail(400, CredentialsRequired), db), None)
    else if |password.value| < MinPasswordLength then
      (Step(Fail(400, PasswordTooShort), db), None)
    else if UsernameTakenIn(db.users, username.value) then
      (Step(Fail(400, UsernameTaken), db), None)
    else
      var id := MaxId(db.users, UserId) + 1;
      (Step(Ok(201), db.(users := db.users + [User(id, username.value, hash)])), Some(id))
  }

  /** Registration keeps usernames and ids unique. */
  lemma RegisterKeepsUsersDistinct(db: Db, username: Option<string>, password: Option<string>, hash: string)
    requires UsersDistinct(db.users)
    ensures UsersDistinct(Register(db, username, password, hash).0.db.users)
  {
    var (step, session) := Register(db, username, password, hash);
    if step.reply == Ok(201) {
      var users := step.db.users;
      forall i, j | 0 <= i < j < |users|
        ensures users[i].username != users[j].username && users[i].id != users[j].id
      {
        if j == |users| - 1 {
          assert users[i] == db.users[i];
        }
      }
    }
  }

  // --------------------------------------------------------- transactions

  /** Every character is Python whitespace. */
  predicate Blank(s: string) {
    forall k :: 0 <= k < |s| ==> Text.PySpace(s[k])
  }

  /** A symbol as the routes store it: upper-cased, then stripped of Python
      whitespace. Empty exactly when the text was all whitespace. */
  function NormalSymbol(s: string): (r: string)
    ensures r == [] <==> Blank(s)
    ensures r != [] ==> !Text.PySpace(r[0]) && !Text.PySpace(r[|r| - 1])
    ensures forall i :: 0 <= i < |r| ==> !Text.IsLower(r[i])
  {
    NormalSymbolEmpty(s);
    NormalSymbolUpper(s);
    Text.Trim(Text.Upper(s), Text.PySpace)
  }

  /** The stored symbol is the upper-cased middle of the text: the
      characters after its leading white space, each upper-cased, with
      only white space after them. */
  lemma NormalSymbolChars(s: string)
    ensures var r := NormalSymbol(s);
      var n := Text.Leading(s, Text.PySpace);
      && n + |r| <= |s|
      && (forall i :: 0 <= i < |r| ==> r[i] == Text.UpperChar(s[n + i]))
      && (forall k :: n + |r| <= k < |s| ==> Text.PySpace(s[k]))
  {
    var up := Text.Upper(s);
    var r := Text.Trim(up, Text.PySpace);
    Text.LeadingUpper(s);
    forall k | 0 <= k < |s|
      ensures Text.PySpace(up[k]) <==> Text.PySpace(s[k])
    {
      Text.UpperCharSpace(s[k]);
    }
  }

  lemma NormalSymbolEmpty(s: string)
    ensures var r := Text.Trim(Text.Upper(s), Text.PySpace);
      r == [] <==> forall k :: 0 <= k < |s| ==> Text.PySpace(s[k])
  {
    var up := Text.Upper(s);
    forall k | 0 <= k < |s|
      ensures Text.PySpace(up[k]) <==> Text.PySpace(s[k])
    {
      Text.UpperCharSpace(s[k]);
    }
  }

  lemma NormalSymbolUpper(s: string)
    ensures var r := Text.Trim(Text.Upper(s), Text.PySpace);
      forall i :: 0 <= i < |r| ==> !Text.IsLower(r[i])
  {
    var up := Text.Upper(s);
    var r := Text.Trim(up, Text.PySpace);
    var n := Text.Leading(up, Text.PySpace);
    forall i | 0 <= i < |r|
      ensures !Text.IsLower(r[i])
    {
      assert r[i] == up[n + i];
    }
  }

  /** Normalising a stored symbol again leaves it as it is. */
  lemma NormalSymbolIdempotent(s: string)
    ensures NormalSymbol(NormalSymbol(s)) == NormalSymbol(s)
  {
    var r := NormalSymbol(s);
    assert forall i :: 0 <= i < |r| ==> Text.Upper(r)[i] == r[i];
    assert Text.Upper(r) == r;
    Text.TrimNoOp(r, Text.PySpace);
  }

  /** The outcome of reading part of a request: a value, or the reply that
      rejects the request. */
  datatype Read<T> = Accepted(value: T) | Rejected(reply: Reply)

  /** A transaction request whose text fields passed their checks. */
  datatype Draft = Draft(symbol: string, kind: TxKind, quantity: Json, price: Json, date: Json)

  /** `data.get('symbol', '')` and `data.get('type', '')`. */
  function SymbolField(req: TxRequest): Json { req.symbol.GetOr(JStr("")) }
  function TypeField(req: TxRequest): Json { req.kind.GetOr(JStr("")) }

  /** Symbol and type are strings, so `.upper()` and `.lower()` do not raise. */
  predicate TextFields(req: TxRequest) {
    SymbolField(req).JStr? && TypeField(req).JStr?
  }

  /** `all([symbol, transaction_type, quantity, price, date_str])` after the
      symbol and type are normalised. */
  predicate FieldsPresent(req: TxRequest)
    requires TextFields(req)
  {
    && NormalSymbol(SymbolField(req).s) != [] && Text.Lower(TypeField(req).s) != []
    && Truthy(req.quantity.GetOr(JNull)) && Truthy(req.price.GetOr(JNull)) && Truthy(req.date.GetOr(JNull))
  }

  /** The lower-cased type is "buy" or "sell". */
  predicate KnownType(req: TxRequest)
    requires TextFields(req)
  {
    Text.Lower(TypeField(req).s) == "buy" || Text.Lower(TypeField(req).s) == "sell"
  }

  /** The first checks of `add_transaction`: symbol and type must be strings
      (anything else makes `.upper()`/`.lower()` raise), all five fields must
      be truthy after normalisation, and the type must be "buy" or "sell".
      Each check answers only when the ones before it passed. */
  function ReadDraft(req: TxRequest): (r: Read<Draft>)
    ensures r.Rejected? ==>
      r.reply in {Crash, Fail(400, FieldsRequired), Fail(400, BadType)}
    ensures r == Rejected(Crash) <==> !TextFields(req)
    ensures TextFields(req) ==> (r == Rejected(Fail(400, FieldsRequired)) <==> !FieldsPresent(req))
    ensures TextFields(req) && FieldsPresent(req) ==>
      (r == Rejected(Fail(400, BadType)) <==> !KnownType(req))
    ensures r.Accepted? ==>
      && req.symbol.GetOr(JStr("")).JStr?
      && r.value.symbol == NormalSymbol(req.symbol.GetOr(JStr("")).s) && r.value.symbol != []
      && req.kind.GetOr(JStr("")).JStr?
      && (r.value.kind == Buy <==> Text.Lower(req.kind.GetOr(JStr("")).s) == "buy")
      && (r.value.kind == Sell <==> Text.Lower(req.kind.GetOr(JStr("")).s) == "sell")
      && r.value.quantity == req.quantity.GetOr(JNull) && Truthy(r.value.quantity)
      && r.value.price == req.price.GetOr(JNull) && Truthy(r.value.price)
      && r.value.date == req.date.GetOr(JNull) && Truthy(r.value.date)
  {
    var symbolField := req.symbol.GetOr(JStr(""));
    var typeField := req.kind.GetOr(JStr(""));
    if !symbolField.JStr? || !typeField.JStr? then Rejected(Crash)
    else
      var symbol := NormalSymbol(symbolField.s);
      var kind := Text.Lower(typeField.s);
      var quantity := req.quantity.GetOr(JNull);
      var price := req.price.GetOr(JNull);
      var date := req.date.GetOr(JNull);
      if !(symbol != [] && kind != [] && Truthy(quantity) && Truthy(price) && Truthy(date)) then
        Rejected(Fail(400, FieldsRequired))
      else if kind != "buy" && kind != "sell" then
        Rejected(Fail(400, BadType))
      else
        Accepted(Draft(symbol, if kind == "buy" then Buy else Sell, quantity, price, date))
  }

  /** `ReadDraft` accepts a request whose symbol normalises to something,
      whose type reads as "buy" or "sell" and whose other fields are
      truthy. */
  lemma ReadDraftAccepts(req: TxRequest, symbol: string, kindText: string, quantity: Json, price: Json, date: Json)
    requires req == TxRequest(Some(JStr(symbol)), Some(JStr(kindText)), Some(quantity), Some(price), Some(date))
    requires NormalSymbol(symbol) != [] && (Text.Lower(kindText) == "buy" || Text.Lower(kindText) == "sell")
    requires Truthy(quantity) && Truthy(price) && Truthy(date)
    ensures ReadDraft(req)
         == Accepted(Draft(NormalSymbol(symbol), if Text.Lower(kindText) == "buy" then Buy else Sell, quantity, price, date))
  {
    var kind := Text.Lower(kindText);
    assert req.symbol.GetOr(JStr("")) == JStr(symbol) && req.kind.GetOr(JStr("")) == JStr(kindText);
    assert kind != [] by {
      if kind == "buy" {
        assert |kind| == 3;
      } else {
        assert |kind| == 4;
      }
    }
  }

  /** The remaining checks of `add_transaction`: quantity and price must be
      numbers greater than zero, and the date must parse. When
      `storedQuantityChecked` is false the quantity test is on the number
      received, as the source writes it; when true it is on the whole number
      that is stored. `parseDate` is `datetime.fromisoformat`, `None` when it
      raises `ValueError`; a trailing `Z` is rewritten to `+00:00` first. */
  function ReadAmounts(d: Draft, userId: nat, parseDate: string -> Option<int>,
                       storedQuantityChecked: bool): (r: Read<Transaction>)
    ensures r.Rejected? ==> r.reply in {Crash, Fail(400, NotPositive), Fail(400, BadDate)}
    ensures AsNumber(d.quantity).None? ==> r == Rejected(Crash)
    ensures var q := AsNumber(d.quantity);
      q.Some? && !QuantityPasses(q.value, storedQuantityChecked) ==> r == Rejected(Fail(400, NotPositive))
    ensures var q := AsNumber(d.quantity); var p := AsNumber(d.price);
      q.Some? && QuantityPasses(q.value, storedQuantityChecked) ==>
        && (p.None? ==> r == Rejected(Crash))
        && (p.Some? && p.value <= 0.0 ==> r == Rejected(Fail(400, NotPositive)))
    ensures var q := AsNumber(d.quantity); var p := AsNumber(d.price);
      q.Some? && QuantityPasses(q.value, storedQuantityChecked) && p.Some? && p.value > 0.0 ==>
        && (!d.date.JStr? ==> r == Rejected(Crash))
        && (d.date.JStr? && ParseDateText(parseDate, d.date.s).None? ==> r == Rejected(Fail(400, BadDate)))
        && (d.date.JStr? && ParseDateText(parseDate, d.date.s).Some? ==>
              r == Accepted(Transaction(userId, d.symbol, d.kind, Trunc(q.value), p.value,
                                        ParseDateText(parseDate, d.date.s).value)))
    ensures r.Accepted? ==>
      && r.value.userId == userId && r.value.symbol == d.symbol && r.value.kind == d.kind
      && AsNumber(d.quantity).Some? && AsNumber(d.quantity).value > 0.0
      && r.value.quantity == Trunc(AsNumber(d.quantity).value)
      && AsNumber(d.price) == Some(r.value.price) && r.value.price > 0.0
      && d.date.JStr? && parseDate(Text.ReplaceAll(d.date.s, 'Z', "+00:00")) == Some(r.value.date)
    ensures r.Accepted? && storedQuantityChecked ==> r.value.quantity > 0
    ensures AsNumber(d.quantity).Some? && AsNumber(d.quantity).value > 0.0
            && Trunc(AsNumber(d.quantity).value) <= 0 && storedQuantityChecked ==>
              r == Rejected(Fail(400, NotPositive))
  {
    if AsNumber(d.quantity).None? then Rejected(Crash)
    else
      var q := AsNumber(d.quantity).value;
      if !QuantityPasses(q, storedQuantityChecked) then
        Rejected(Fail(400, NotPositive))
      else if AsNumber(d.price).None? then Rejected(Crash)
      else if AsNumber(d.price).value <= 0.0 then Rejected(Fail(400, NotPositive))
      else if !d.date.JStr? then Rejected(Crash)
      else
        var when := ParseDateText(parseDate, d.date.s);
        if when.None? then Rejected(Fail(400, BadDate))
        else Accepted(Transaction(userId, d.symbol, d.kind, Trunc(q), AsNumber(d.price).value, when.value))
  }

  /** The quantity passes the positivity test: the number received, or
      the whole number stored when `storedQuantityChecked`. */
  predicate QuantityPasses(q: real, storedQuantityChecked: bool) {
    if storedQuantityChecked then Trunc(q) > 0 else q > 0.0
  }

  /** `datetime.fromisoformat(date_str.replace('Z', '+00:00'))`, `None` when
      it raises `ValueError`. */
  function ParseDateText(parseDate: string -> Option<int>, s: string): Option<int> {
    parseDate(Text.ReplaceAll(s, 'Z', "+00:00"))
  }

  /** Every check of `add_transaction` passes, stated on the request as a
      whole rather than check by check. */
  predicate Admissible(req: TxRequest, parseDate: string -> Option<int>, storedQuantityChecked: bool) {
    var q := AsNumber(req.quantity.GetOr(JNull));
    var p := AsNumber(req.price.GetOr(JNull));
    var date := req.date.GetOr(JNull);
    && TextFields(req) && FieldsPresent(req) && KnownType(req)
    && q.Some? && QuantityPasses(q.value, storedQuantityChecked)
    && p.Some? && p.value > 0.0
    && date.JStr? && ParseDateText(parseDate, date.s).Some?
  }

  /** The whole validation of `add_transaction`: it accepts exactly the
      admissible requests, as a transaction of the user with the request's
      normalised symbol, its type, whole shares, price and parsed date. */
  function ReadTransaction(req: TxRequest, userId: nat, parseDate: string -> Option<int>,
                           storedQuantityChecked: bool): (r: Read<Transaction>)
    ensures r.Accepted? <==> Admissible(req, parseDate, storedQuantityChecked)
    ensures r.Accepted? ==>
      && r.value.userId == userId
      && r.value.symbol == NormalSymbol(SymbolField(req).s)
      && (r.value.kind == Buy <==> Text.Lower(TypeField(req).s) == "buy")
      && r.value.quantity == Trunc(AsNumber(req.quantity.GetOr(JNull)).value)
      && Some(r.value.price) == AsNumber(req.price.GetOr(JNull))
      && Some(r.value.date) == ParseDateText(parseDate, req.date.GetOr(JNull).s)
  {
    match ReadDraft(req)
    case Rejected(reply) => Rejected(reply)
    case Accepted(d) => ReadAmounts(d, userId, parseDate, storedQuantityChecked)
  }

  /** The stored transaction's type and date are the request's: "buy" when
      the lower-cased type is "buy", and the date as `fromisoformat` reads
      it. */
  predicate StoredAsRequested(tx: Transaction, req: TxRequest, parseDate: string -> Option<int>) {
    && TypeField(req).JStr? && (tx.kind == Buy <==> Text.Lower(TypeField(req).s) == "buy")
    && req.date.GetOr(JNull).JStr? && ParseDateText(parseDate, req.date.GetOr(JNull).s) == Some(tx.date)
  }

  /** `add_transaction` exactly as the source writes it: the positivity test
      is on the quantity received, and the stored quantity is its whole
      part, which may be zero. */
  function AddTransactionAsWritten(db: Db, session: Option<int>, req: TxRequest,
                                   parseDate: string -> Option<int>): (step: Step)
    ensures step.reply != Ok(201) ==> step.db == db
    ensures step.reply == Ok(201) ==>
      && |step.db.transactions| == |db.transactions| + 1
      && step.db == db.(transactions := db.transactions + [step.db.transactions[|db.transactions|]])
      && step.db.transactions[|db.transactions|].quantity >= 0
    ensures RequireAuth(db, session).Some? ==> (step.reply == Ok(201) <==> Admissible(req, parseDate, false))
    ensures step.reply == Ok(201) ==> StoredAsRequested(step.db.transactions[|db.transactions|], req, parseDate)
  {
    var user := RequireAuth(db, session);
    if user.None? then Step(Fail(401, AuthRequired), db)
    else
      match ReadTransaction(req, user.value.id, parseDate, false)
      case Rejected(reply) => Step(reply, db)
      case Accepted(tx) => Step(Ok(201), db.(transactions := db.transactions + [tx]))
  }

  /** A request for half a share passes the source's check and is stored
      as a transaction of zero shares. */
  lemma FractionalQuantityStoredAsZero(db: Db, session: Option<int>)
    requires RequireAuth(db, session).Some?
    ensures var step := AddTransactionAsWritten(db, session, HalfShareRequest(), AnyDate);
      step.reply == Ok(201) && step.db.transactions[|db.transactions|].quantity == 0
  {
    var uid := RequireAuth(db, session).value.id;
    var tx := Transaction(uid, "AAPL", Buy, 0, 10.0, 0);
    HalfShareReads(uid);
    assert AddTransactionAsWritten(db, session, HalfShareRequest(), AnyDate)
        == Step(Ok(201), db.(transactions := db.transactions + [tx]));
  }

  /** The half-share request passes every check as written. */
  lemma HalfShareReads(uid: nat)
    ensures ReadTransaction(HalfShareRequest(), uid, AnyDate, false)
         == Accepted(Transaction(uid, "AAPL", Buy, 0, 10.0, 0))
  {
    var req := HalfShareRequest();
    var d := Draft("AAPL", Buy, JNum(0.5), JNum(10.0), JStr("2024-01-15T10:00:00"));
    TickerDraft(req, JNum(0.5));
    HalfShareAmounts(uid);
  }

  /** A date parser that accepts every text, as midnight of day 0. */
  function AnyDate(s: string): Option<int> {
    Some(0)
  }

  /** The amounts of the half-share request pass the check as written. */
  lemma HalfShareAmounts(uid: nat)
    ensures ReadAmounts(Draft("AAPL", Buy, JNum(0.5), JNum(10.0), JStr("2024-01-15T10:00:00")), uid, AnyDate, false)
         == Accepted(Transaction(uid, "AAPL", Buy, 0, 10.0, 0))
  {
    assert AsNumber(JNum(0.5)) == Some(0.5);
    assert AsNumber(JNum(10.0)) == Some(10.0);
    assert Trunc(0.5) == 0;
  }

  /** A request to buy half a share of AAPL at 10.00. */
  function HalfShareRequest(): TxRequest {
    TxRequest(Some(JStr("AAPL")), Some(JStr("buy")), Some(JNum(0.5)), Some(JNum(10.0)),
              Some(JStr("2024-01-15T10:00:00")))
  }

  /** A buy request for AAPL with a truthy quantity passes the text checks. */
  lemma TickerDraft(req: TxRequest, quantity: Json)
    requires req == TxRequest(Some(JStr("AAPL")), Some(JStr("buy")), Some(quantity), Some(JNum(10.0)),
                              Some(JStr("2024-01-15T10:00:00")))
    requires Truthy(quantity)
    ensures ReadDraft(req) == Accepted(Draft("AAPL", Buy, quantity, JNum(10.0), JStr("2024-01-15T10:00:00")))
  {
    NormalSymbolOfTicker();
    LowerOfBuy();
    ReadDraftAccepts(req, "AAPL", "buy", quantity, JNum(10.0), JStr("2024-01-15T10:00:00"));
  }

  /** A falsy quantity, such as 0, is refused as a missing field. */
  lemma FalsyQuantityIsMissing(req: TxRequest)
    requires req.symbol.Some? && req.symbol.value.JStr? && req.kind.Some? && req.kind.value.JStr?
    requires req.quantity.Some? && !Truthy(req.quantity.value)
    ensures ReadDraft(req) == Rejected(Fail(400, FieldsRequired))
  {
  }

  /** "buy" is already lower case. */
  lemma LowerOfBuy()
    ensures Text.Lower("buy") == "buy"
  {
    var r := Text.Lower("buy");
    assert r[0] == 'b' && r[1] == 'u' && r[2] == 'y';
  }

  /** "AAPL" is already a stored symbol. */
  lemma NormalSymbolOfTicker()
    ensures NormalSymbol("AAPL") == "AAPL"
  {
    assert Text.Upper("AAPL") == "AAPL";
    Text.TrimNoOp("AAPL", Text.PySpace);
  }

  /** `add_transaction` with the positivity check on the stored quantity:
      401 without a session user; 400 or 500 storing nothing; or 201
      appending exactly one transaction of the session user whose symbol is
      the request's symbol normalised and whose quantity (the whole part of
      the request's) and price are positive. */
  function AddTransaction(db: Db, session: Option<int>, req: TxRequest,
                          parseDate: string -> Option<int>): (step: Step)
    ensures RequireAuth(db, session).None? ==> step == Step(Fail(401, AuthRequired), db)
    ensures step.reply != Ok(201) ==> step.db == db
    ensures step.reply.Ok? ==> step.reply.status == 201
    ensures step.reply.Fail? ==> step.reply.status in {400, 401}
    ensures step.reply == Ok(201) ==>
      && RequireAuth(db, session).Some?
      && |step.db.transactions| == |db.transactions| + 1
      && step.db == db.(transactions := db.transactions + [step.db.transactions[|db.transactions|]])
      && var tx := step.db.transactions[|db.transactions|];
         && tx.userId == RequireAuth(db, session).value.id
         && req.symbol.GetOr(JStr("")).JStr?
         && tx.symbol == NormalSymbol(req.symbol.GetOr(JStr("")).s) && tx.symbol != []
         && AsNumber(req.quantity.GetOr(JNull)).Some?
         && tx.quantity == Trunc(AsNumber(req.quantity.GetOr(JNull)).value) && tx.quantity > 0
         && AsNumber(req.price.GetOr(JNull)) == Some(tx.price) && tx.price > 0.0
    ensures RequireAuth(db, session).Some? ==> (step.reply == Ok(201) <==> Admissible(req, parseDate, true))
    ensures step.reply == Ok(201) ==> StoredAsRequested(step.db.transactions[|db.transactions|], req, parseDate)
  {
    var user := RequireAuth(db, session);
    if user.None? then Step(Fail(401, AuthRequired), db)
    else
      match ReadTransaction(req, user.value.id, parseDate, true)
      case Rejected(reply) => Step(reply, db)
      case Accepted(tx) => Step(Ok(201), db.(transactions := db.transactions + [tx]))
  }

  /** The checks run in order: a zero quantity is reported as a missing
      field, not as a non-positive number. */
  lemma ZeroQuantityIsMissing(db: Db, session: Option<int>, parseDate: string -> Option<int>)
    requires RequireAuth(db, session).Some?
    ensures var req := TxRequest(Some(JStr("AAPL")), Some(JStr("buy")), Some(JNum(0.0)), Some(JNum(10.0)),
                                 Some(JStr("2024-01-15T10:00:00")));
      AddTransaction(db, session, req, parseDate) == Step(Fail(400, FieldsRequired), db)
  {
    FalsyQuantityIsMissing(TxRequest(Some(JStr("AAPL")), Some(JStr("buy")), Some(JNum(0.0)), Some(JNum(10.0)),
                                     Some(JStr("2024-01-15T10:00:00"))));
  }

  /** The corrected route answers as the source does except on a positive
      quantity whose whole part is zero, which it rejects with 400 instead
      of storing zero shares. */
  lemma CorrectionOnlyRejectsZeroShares(db: Db, session: Option<int>, req: TxRequest,
                                        parseDate: string -> Option<int>)
    ensures var written := AddTransactionAsWritten(db, session, req, parseDate);
      var fixed := AddTransaction(db, session, req, parseDate);
      && (fixed.reply == Ok(201) ==> fixed == written)
      && (written.reply == Ok(201) && written.db.transactions[|db.transactions|].quantity > 0 ==>
            fixed == written)
      && (fixed != written ==> fixed == Step(Fail(400, NotPositive), db))
  {
    var user := RequireAuth(db, session);
    if user.Some? {
      match ReadDraft(req)
      case Rejected(_) =>
      case Accepted(d) =>
        var w := ReadAmounts(d, user.value.id, parseDate, false);
        var f := ReadAmounts(d, user.value.id, parseDate, true);
        if AsNumber(d.quantity).Some? {
          var q := AsNumber(d.quantity).value;
          if q > 0.0 && Trunc(q) > 0 {
            assert w == f;
          }
        }
    }
  }

  /** `clear_all_portfolio`: 401 without a session user; otherwise every
      transaction of that user is deleted, all others stay in order, and
      the count of deleted rows is returned. */
  function ClearAll(db: Db, session: Option<int>): (res: (Step, nat))
    ensures RequireAuth(db, session).None? ==> res == (Step(Fail(401, AuthRequired), db), 0)
    ensures RequireAuth(db, session).Some? ==>
      var uid := RequireAuth(db, session).value.id;
      var (step, deleted) := res;
      && step.reply == Ok(200)
      && step.db == db.(transactions := step.db.transactions)
      && (forall t :: t in step.db.transactions <==> t in db.transactions && t.userId != uid)
      && deleted == |db.transactions| - |step.db.transactions|
      && deleted == |db.transactions| - |OthersOf(db.transactions, uid)|
  {
    var user := RequireAuth(db, session);
    if user.None? then (Step(Fail(401, AuthRequired), db), 0)
    else
      var kept := OthersOf(db.transactions, user.value.id);
      (Step(Ok(200), db.(transactions := kept)), |db.transactions| - |kept|)
  }

  /** The transactions of every user but `uid`, in their original order. */
  function OthersOf(txs: seq<Transaction>, uid: nat): (r: seq<Transaction>)
    ensures |r| <= |txs|
    ensures forall t :: t in r <==> t in txs && t.userId != uid
  {
    if txs == [] then []
    else if txs[0].userId == uid then OthersOf(txs[1..], uid)
    else
      assert forall t :: t in txs <==> t == txs[0] || t in txs[1..];
      [txs[0]] + OthersOf(txs[1..], uid)
  }

  /** Clearing keeps other users' transactions as they were, in order. */
  lemma {:induction false} ClearKeepsOthers(txs: seq<Transaction>, uid: nat, other: nat)
    requires other != uid
    ensures OnlyOf(OthersOf(txs, uid), other) == OnlyOf(txs, other)
  {
    if txs != [] {
      ClearKeepsOthers(txs[1..], uid, other);
    }
  }

  /** The transactions of user `uid`, in their original order. */
  function OnlyOf(txs: seq<Transaction>, uid: nat): (r: seq<Transaction>)
    ensures |r| <= |txs|
    ensures forall t :: t in r <==> t in txs && t.userId == uid
  {
    if txs == [] then []
    else if txs[0].userId != uid then OnlyOf(txs[1..], uid)
    else
      assert forall t :: t in txs <==> t == txs[0] || t in txs[1..];
      [txs[0]] + OnlyOf(txs[1..], uid)
  }

  // ------------------------------------------------------------ watchlist

  /** No user watches the same symbol twice (the `unique_user_stock`
      constraint). */
  predicate WatchUnique(w: seq<WatchEntry>) {
    forall i, j :: 0 <= i < j < |w| ==> !(w[i].userId == w[j].userId && w[i].symbol == w[j].symbol)
  }

  predicate Watches(w: seq<WatchEntry>, uid: nat, symbol: string) {
    exists k :: 0 <= k < |w| && w[k].userId == uid && w[k].symbol == symbol
  }

  function WatchId(e: WatchEntry): nat { e.id }

  /** `add_to_watchlist`: 401 without a session user; the symbol is
      upper-cased and trimmed; an empty symbol and an already watched
      symbol are rejected with 400 in that order; otherwise exactly one
      entry is appended. */
  function AddToWatchlist(db: Db, session: Option<int>, symbol: Option<Json>): (step: Step)
    ensures RequireAuth(db, session).None? ==> step == Step(Fail(401, AuthRequired), db)
    ensures step.reply != Ok(201) ==> step.db == db
    ensures RequireAuth(db, session).Some? && !symbol.GetOr(JStr("")).JStr? ==> step.reply == Crash
    ensures RequireAuth(db, session).Some? && symbol.GetOr(JStr("")).JStr? ==>
      var sym := NormalSymbol(symbol.GetOr(JStr("")).s);
      var uid := RequireAuth(db, session).value.id;
      && (sym == [] ==> step.reply == Fail(400, SymbolRequired))
      && (sym != [] && Watches(db.watchlist, uid, sym) ==> step.reply == Fail(400, AlreadyWatched))
      && (sym != [] && !Watches(db.watchlist, uid, sym) ==> step.reply == Ok(201))
    ensures step.reply == Ok(201) ==>
      && RequireAuth(db, session).Some?
      && symbol.GetOr(JStr("")).JStr?
      && var sym := NormalSymbol(symbol.GetOr(JStr("")).s);
         var uid := RequireAuth(db, session).value.id;
         && sym != [] && !Watches(db.watchlist, uid, sym)
         && |step.db.watchlist| == |db.watchlist| + 1
         && step.db == db.(watchlist := db.watchlist + [step.db.watchlist[|db.watchlist|]])
         && step.db.watchlist[|db.watchlist|].userId == uid
         && step.db.watchlist[|db.watchlist|].symbol == sym
  {
    var user := RequireAuth(db, session);
    if user.None? then Step(Fail(401, AuthRequired), db)
    else
      var field := symbol.GetOr(JStr(""));
      if !field.JStr? then Step(Crash, db)
      else
        var sym := NormalSymbol(field.s);
        if sym == [] then Step(Fail(400, SymbolRequired), db)
        else if Watches(db.watchlist, user.value.id, sym) then Step(Fail(400, AlreadyWatched), db)
        else
          var entry := WatchEntry(MaxId(db.watchlist, WatchId) + 1, user.value.id, sym);
          Step(Ok(201), db.(watchlist := db.watchlist + [entry]))
  }

  /** Adding never creates a second entry for a (user, symbol) pair. */
  lemma AddKeepsWatchUnique(db: Db, session: Option<int>, symbol: Option<Json>)
    requires WatchUnique(db.watchlist)
    ensures WatchUnique(AddToWatchlist(db, session, symbol).db.watchlist)
  {
    var step := AddToWatchlist(db, session, symbol);
    if step.reply == Ok(201) {
      var w := step.db.watchlist;
      forall i, j | 0 <= i < j < |w|
        ensures !(w[i].userId == w[j].userId && w[i].symbol == w[j].symbol)
      {
        if j == |db.watchlist| {
          assert w[i] == db.watchlist[i];
        }
      }
    }
  }

  /** Index of the first entry of `uid` for `symbol`, if any. */
  function FindWatch(w: seq<WatchEntry>, uid: nat, symbol: string): (r: Option<nat>)
    ensures r.Some? ==> r.value < |w| && w[r.value].userId == uid && w[r.value].symbol == symbol
    ensures r.None? <==> !Watches(w, uid, symbol)
  {
    if w == [] then None
    else if w[0].userId == uid && w[0].symbol == symbol then Some(0)
    else
      match FindWatch(w[1..], uid, symbol)
      case None => None
      case Some(k) => Some(k + 1)
  }

  /** `remove_from_watchlist`: 401 without a session user; the path symbol
      is upper-cased (not trimmed); 404 when the user does not watch it;
      otherwise that one entry is deleted and nothing else changes. */
  function RemoveFromWatchlist(db: Db, session: Option<int>, pathSymbol: string): (step: Step)
    ensures RequireAuth(db, session).None? ==> step == Step(Fail(401, AuthRequired), db)
    ensures step.reply != Ok(200) ==> step.db == db
    ensures RequireAuth(db, session).Some? ==>
      var uid := RequireAuth(db, session).value.id;
      var symbol := Text.Upper(pathSymbol);
      && (!Watches(db.watchlist, uid, symbol) ==> step.reply == Fail(404, NotWatched))
      && (Watches(db.watchlist, uid, symbol) ==>
            && step.reply == Ok(200)
            && exists k :: 0 <= k < |db.watchlist|
                 && db.watchlist[k].userId == uid && db.watchlist[k].symbol == symbol
                 && step.db == db.(watchlist := db.watchlist[..k] + db.watchlist[k + 1..]))
  {
    var user := RequireAuth(db, session);
    if user.None? then Step(Fail(401, AuthRequired), db)
    else
      var symbol := Text.Upper(pathSymbol);
      match FindWatch(db.watchlist, user.value.id, symbol)
      case None => Step(Fail(404, NotWatched), db)
      case Some(k) => Step(Ok(200), db.(watchlist := db.watchlist[..k] + db.watchlist[k + 1..]))
  }

  /** With unique entries, removal deletes exactly the (user, symbol) entry:
      afterwards the user no longer watches it, and every other entry is
      still there. */
  lemma RemoveDeletesExactlyOne(db: Db, session: Option<int>, pathSymbol: string)
    requires WatchUnique(db.watchlist)
    requires RequireAuth(db, session).Some?
    ensures var uid := RequireAuth(db, session).value.id;
      var symbol := Text.Upper(pathSymbol);
      var after := RemoveFromWatchlist(db, session, pathSymbol).db.watchlist;
      && !Watches(after, uid, symbol)
      && WatchUnique(after)
      && forall e :: e in db.watchlist && !(e.userId == uid && e.symbol == symbol) ==> e in after
  {
    var uid := RequireAuth(db, session).value.id;
    var symbol := Text.Upper(pathSymbol);
    match FindWatch(db.watchlist, uid, symbol)
    case None =>
    case Some(k) => DeleteEntry(db.watchlist, k, uid, symbol);
  }

  /** Deleting the one entry of a (user, symbol) pair from unique entries. */
  lemma DeleteEntry(w: seq<WatchEntry>, k: nat, uid: nat, symbol: string)
    requires WatchUnique(w)
    requires k < |w| && w[k].userId == uid && w[k].symbol == symbol
    ensures var after := w[..k] + w[k + 1..];
      && !Watches(after, uid, symbol)
      && WatchUnique(after)
      && forall e :: e in w && !(e.userId == uid && e.symbol == symbol) ==> e in after
  {
    var after := w[..k] + w[k + 1..];
    assert forall i :: 0 <= i < |after| ==> after[i] == (if i < k then w[i] else w[i + 1]);
    forall e | e in w && !(e.userId == uid && e.symbol == symbol)
      ensures e in after
    {
      var i :| 0 <= i < |w| && w[i] == e;
      if i < k { assert after[i] == e; } else { assert after[i - 1] == e; }
    }
  }

  /** `get_watchlist`'s `stock_data` for one symbol: the stock row, or just
      the symbol with name "Unknown" when the symbol was never quoted. */
  function StockDataOf(stocks: map<string, Stock>, symbol: string): (d: Api.StockData)
    ensures d.symbol == Some(symbol)
    ensures symbol !in stocks ==> d.name == Some("Unknown") && d.sector.None? && d.lastPrice.None?
    ensures symbol in stocks ==> d.name == Some(stocks[symbol].name) && d.sector == stocks[symbol].sector
                                 && d.lastPrice == stocks[symbol].lastPrice
    ensures d.change.None? && d.changePercent.None?
  {
    if symbol in stocks then
      var s := stocks[symbol];
      Api.StockData(Some(symbol), Some(s.name), s.sector, s.lastPrice, None, None)
    else
      Api.StockData(Some(symbol), Some("Unknown"), None, None, None, None)
  }

  /** The user's entries, each with its stock data, in the order the
      model keeps the watchlist rows. */
  function RowsOf(w: seq<WatchEntry>, uid: nat, stocks: map<string, Stock>): (rows: seq<Api.WatchRow>)
    ensures |rows| <= |w|
  {
    if w == [] then []
    else
      var rest := RowsOf(w[1..], uid, stocks);
      if w[0].userId == uid then
        [Api.WatchRow(w[0].id, w[0].symbol, StockDataOf(stocks, w[0].symbol))] + rest
      else rest
  }

  /** Every row is an entry of the user with that entry's stock data, and
      every entry of the user has its row. */
  lemma {:induction false} RowsOfMembers(w: seq<WatchEntry>, uid: nat, stocks: map<string, Stock>)
    ensures var rows := RowsOf(w, uid, stocks);
      && (forall r :: r in rows ==> r.stockData == StockDataOf(stocks, r.symbol))
      && (forall r :: r in rows ==> exists k :: 0 <= k < |w| && w[k].userId == uid
                                              && w[k].symbol == r.symbol && w[k].id == r.id)
      && (forall k :: 0 <= k < |w| && w[k].userId == uid ==>
            Api.WatchRow(w[k].id, w[k].symbol, StockDataOf(stocks, w[k].symbol)) in rows)
  {
    if w != [] {
      RowsOfMembers(w[1..], uid, stocks);
      var rest := RowsOf(w[1..], uid, stocks);
      forall r | r in rest
        ensures exists k :: 0 <= k < |w| && w[k].userId == uid && w[k].symbol == r.symbol && w[k].id == r.id
      {
        var j :| 0 <= j < |w| - 1 && w[1..][j].userId == uid && w[1..][j].symbol == r.symbol && w[1..][j].id == r.id;
        assert w[j + 1] == w[1..][j];
      }
      forall k | 1 <= k < |w| && w[k].userId == uid
        ensures Api.WatchRow(w[k].id, w[k].symbol, StockDataOf(stocks, w[k].symbol)) in rest
      {
        assert w[k] == w[1..][k - 1];
      }
    }
  }

  /** A single entry lists one row when it is the user's and none
      otherwise. */
  lemma RowsOfSingle(e: WatchEntry, uid: nat, stocks: map<string, Stock>)
    ensures RowsOf([e], uid, stocks)
         == if e.userId == uid then [Api.WatchRow(e.id, e.symbol, StockDataOf(stocks, e.symbol))] else []
  {
    assert [e][1..] == [];
  }

  /** The rows of two runs of entries are the rows of the first followed by
      the rows of the second; with `RowsOfSingle` this gives one row per
      entry of the user, in the order of `w`. */
  lemma {:induction false} RowsOfConcat(a: seq<WatchEntry>, b: seq<WatchEntry>, uid: nat, stocks: map<string, Stock>)
    ensures RowsOf(a + b, uid, stocks) == RowsOf(a, uid, stocks) + RowsOf(b, uid, stocks)
  {
    if a == [] {
      assert a + b == b;
    } else {
      var head := RowsOf([a[0]], uid, stocks);
      assert (a + b)[0] == a[0] && (a + b)[1..] == a[1..] + b;
      RowsOfHead(a + b, uid, stocks);
      assert RowsOf(a + b, uid, stocks) == head + RowsOf(a[1..] + b, uid, stocks);
      RowsOfConcat(a[1..], b, uid, stocks);
      RowsOfHead(a, uid, stocks);
      assert RowsOf(a, uid, stocks) == head + RowsOf(a[1..], uid, stocks);
    }
  }

  /** The rows of a non-empty run split at its first entry. */
  lemma RowsOfHead(w: seq<WatchEntry>, uid: nat, stocks: map<string, Stock>)
    requires w != []
    ensures RowsOf(w, uid, stocks) == RowsOf([w[0]], uid, stocks) + RowsOf(w[1..], uid, stocks)
  {
    RowsOfSingle(w[0], uid, stocks);
  }

  /** `get_watchlist`: 401 without a session user, otherwise 200 and one
      row per entry of that user. */
  function GetWatchlist(db: Db, session: Option<int>): (res: (Reply, seq<Api.WatchRow>))
    ensures RequireAuth(db, session).None? ==> res == (Fail(401, AuthRequired), [])
    ensures RequireAuth(db, session).Some? ==>
      res.0 == Ok(200) && res.1 == RowsOf(db.watchlist, RequireAuth(db, session).value.id, db.stocks)
  {
    var user := RequireAuth(db, session);
    if user.None? then (Fail(401, AuthRequired), [])
    else (Ok(200), RowsOf(db.watchlist, user.value.id, db.stocks))
  }

  /** Without a logged-in user every transaction and watchlist route
      answers 401 and leaves the database unchanged. */
  lemma AnonymousChangesNothing(db: Db, session: Option<int>, req: TxRequest, watchSymbol: Option<Json>,
                                pathSymbol: string,
                                parseDate: string -> Option<int>)
    requires RequireAuth(db, session).None?
    ensures AddTransaction(db, session, req, parseDate) == Step(Fail(401, AuthRequired), db)
    ensures ClearAll(db, session).0 == Step(Fail(401, AuthRequired), db)
    ensures AddToWatchlist(db, session, watchSymbol) == Step(Fail(401, AuthRequired), db)
    ensures RemoveFromWatchlist(db, session, pathSymbol) == Step(Fail(401, AuthRequired), db)
    ensures GetWatchlist(db, session).0 == Fail(401, AuthRequired)
  {
  }
}
