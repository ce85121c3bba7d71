/** The Alpha Vantage client (backend/utils/api_client.py): the rate-limit
    wait before each request and the transforms applied to the responses.
    The clock and the HTTP exchange are inputs, and so are Python's
    `float(str)` and `int(str)` (`None` where they raise `ValueError`).
    `Raised` stands for an exception that escapes to the calling route,
    which answers 500. */
module AlphaVantage {
  import opened Base
  import Text
  import Ordering
  import Api

  /** Seconds between two requests (five per minute). */
  const RateLimitDelay: real := 12.0

  /** The client's state: its key and when its last request was answered. */
  datatype Client = Client(apiKey: Option<string>, lastRequestTime: real)

  /** A new client has never made a request. */
  function NewClient(apiKey: Option<string>): Client {
    Client(apiKey, 0.0)
  }

  /** The sleep `_make_request` takes before sending: long enough that
      `RateLimitDelay` seconds separate the request from the last one, and
      no longer. */
  function Wait(now: real, last: real): (w: real)
    ensures w >= 0.0
    ensures now + w - last >= RateLimitDelay
    ensures w == 0.0 || now + w == last + RateLimitDelay
  {
    var elapsed := now - last;
    if elapsed < RateLimitDelay then RateLimitDelay - elapsed else 0.0
  }

  /** No shorter sleep keeps the requests `RateLimitDelay` apart. */
  lemma WaitIsLeast(now: real, last: real, w: real)
    requires w >= 0.0 && now + w - last >= RateLimitDelay
    ensures Wait(now, last) <= w
  {
  }

  /** What `requests.get` came back with: it raised before any response
      (`Unreachable`), a response came but `raise_for_status()` or
      `json()` raised (`Failed`), or a JSON object was read. */
  datatype Fetch = Unreachable | Failed | Answered(body: map<string, Api.Value>)

  /** One `_make_request`: the sleep taken, the parameters sent, the client
      afterwards and the decoded body (`None` on any request error). */
  datatype Exchange = Exchange(
    wait: real,
    sent: map<string, Option<string>>,
    client: Client,
    data: Option<map<string, Api.Value>>)

  /** `_make_request`. `now` is the clock before the sleep and `answeredAt`
      the clock when `requests.get` returns. */
  function MakeRequest(c: Client, params: map<string, Option<string>>, now: real, fetch: Fetch,
                       answeredAt: real): (x: Exchange)
    ensures x.wait == Wait(now, c.lastRequestTime)
    ensures "apikey" in x.sent && x.sent["apikey"] == c.apiKey
    ensures forall k :: k in x.sent <==> k in params || k == "apikey"
    ensures forall k :: k in params && k != "apikey" ==> x.sent[k] == params[k]
    ensures x.client.apiKey == c.apiKey
    ensures fetch.Unreachable? ==> x.client == c
    ensures !fetch.Unreachable? ==> x.client.lastRequestTime == answeredAt
    ensures x.data.Some? <==> fetch.Answered?
    ensures fetch.Answered? ==> x.data.value == fetch.body
  {
    var sent := params["apikey" := c.apiKey];
    match fetch
    case Unreachable => Exchange(Wait(now, c.lastRequestTime), sent, c, None)
    case Failed => Exchange(Wait(now, c.lastRequestTime), sent, c.(lastRequestTime := answeredAt), None)
    case Answered(body) =>
      Exchange(Wait(now, c.lastRequestTime), sent, c.(lastRequestTime := answeredAt), Some(body))
  }

  /** The result of a transform, or an exception it raised. */
  datatype Got<T> = Got(value: T) | Raised

  /** `data[key]` when `data` is truthy and holds `key`: the test each
      transform starts with. */
  function Section(data: Option<map<string, Api.Value>>, key: string): (r: Option<Api.Value>)
    ensures r.Some? <==> data.Some? && key in data.value
    ensures r.Some? ==> r.value == data.value[key]
  {
    if data.Some? && key in data.value then Some(data.value[key]) else None
  }

  /** `float(quote.get(key, 0))`. */
  function FloatField(q: map<string, Api.Value>, key: string, parseFloat: string -> Option<real>): (r: Got<real>)
    ensures key !in q ==> r == Got(0.0)
    ensures key in q && q[key].VStr? ==>
      (r.Got? <==> parseFloat(q[key].s).Some?) && (r.Got? ==> r.value == parseFloat(q[key].s).value)
    ensures key in q && !q[key].VStr? ==> r.Raised?
  {
    if key !in q then Got(0.0)
    else match q[key]
      case VStr(s) => if parseFloat(s).Some? then Got(parseFloat(s).value) else Raised
      case _ => Raised
  }

  /** `int(quote.get(key, 0))`. */
  function IntField(q: map<string, Api.Value>, key: string, parseInt: string -> Option<int>): (r: Got<int>)
    ensures key !in q ==> r == Got(0)
    ensures key in q && q[key].VStr? ==>
      (r.Got? <==> parseInt(q[key].s).Some?) && (r.Got? ==> r.value == parseInt(q[key].s).value)
    ensures key in q && !q[key].VStr? ==> r.Raised?
  {
    if key !in q then Got(0)
    else match q[key]
      case VStr(s) => if parseInt(s).Some? then Got(parseInt(s).value) else Raised
      case _ => Raised
  }

  /** `quote.get('10. change percent', '0%').replace('%', '')`. */
  function ChangePercent(q: map<string, Api.Value>): (r: Got<string>)
    ensures r.Got? ==> '%' !in r.value
    ensures "10. change percent" !in q ==> r == Got("0")
    ensures "10. change percent" in q ==> (r.Got? <==> q["10. change percent"].VStr?)
    ensures r.Got? && "10. change percent" in q ==>
      forall c :: c != '%' ==> multiset(r.value)[c] == multiset(q["10. change percent"].s)[c]
  {
    if "10. change percent" !in q then
      assert "0%" == "0" + "%";
      Text.RemoveAllConcat("0", "%", '%');
      Text.RemoveAllAbsent("0", '%');
      Got(Text.RemoveAll("0%", '%'))
    else match q["10. change percent"]
      case VStr(s) => Got(Text.RemoveAll(s, '%'))
      case _ => Raised
  }

  /** A percentage that has been stripped once is left alone by a second
      strip, so the frontend may strip again without harm. */
  lemma StripTwice(s: string)
    ensures Text.RemoveAll(Text.RemoveAll(s, '%'), '%') == Text.RemoveAll(s, '%')
  {
    Text.RemoveAllAbsent(Text.RemoveAll(s, '%'), '%');
  }

  /** Stripping keeps every other character, in order: "1.24%" becomes
      "1.24" and "-0.77%" becomes "-0.77". */
  lemma StripKeepsDigits(body: string)
    requires '%' !in body
    ensures Text.RemoveAll(body + "%", '%') == body
  {
    Text.RemoveAllConcat(body, "%", '%');
    Text.RemoveAllAbsent(body, '%');
    assert Text.RemoveAll("%", '%') == [];
  }

  /** `get_stock_quote`: `None` when the body is missing, empty or has no
      `Global Quote`; otherwise the quote's fields, numbers defaulting to
      0 and the change percentage to "0" without its `%` signs. */
  function GetStockQuote(data: Option<map<string, Api.Value>>, parseFloat: string -> Option<real>,
                         parseInt: string -> Option<int>): (r: Got<Option<Api.Quote>>)
    ensures Section(data, "Global Quote").None? ==> r == Got(None)
    ensures Section(data, "Global Quote").Some? && !Section(data, "Global Quote").value.VObj? ==> r.Raised?
    ensures r.Got? && r.value.Some? ==>
      var q := Section(data, "Global Quote").value.fields;
      var quote := r.value.value;
      && Got(quote.price) == FloatField(q, "05. price", parseFloat)
      && Got(quote.change) == FloatField(q, "09. change", parseFloat)
      && Got(quote.previousClose) == FloatField(q, "08. previous close", parseFloat)
      && Got(quote.volume) == IntField(q, "06. volume", parseInt)
      && Got(quote.changePercent) == ChangePercent(q)
      && '%' !in quote.changePercent
      && (quote.symbol.Some? <==> "01. symbol" in q)
      && (quote.symbol.Some? ==> quote.symbol.value == q["01. symbol"])
      && (quote.latestTradingDay.Some? <==> "07. latest trading day" in q)
      && (quote.latestTradingDay.Some? ==> quote.latestTradingDay.value == q["07. latest trading day"])
    ensures Section(data, "Global Quote").Some? && Section(data, "Global Quote").value.VObj? ==>
      var q := Section(data, "Global Quote").value.fields;
      && (r.Raised? <==>
            || FloatField(q, "05. price", parseFloat).Raised?
            || FloatField(q, "09. change", parseFloat).Raised?
            || ChangePercent(q).Raised?
            || IntField(q, "06. volume", parseInt).Raised?
            || FloatField(q, "08. previous close", parseFloat).Raised?)
      && (r.Got? ==> r.value.Some?)
  {
    match Section(data, "Global Quote")
    case None => Got(None)
    case Some(section) =>
      if !section.VObj? then Raised
      else
        var q := section.fields;
        var price := FloatField(q, "05. price", parseFloat);
        var change := FloatField(q, "09. change", parseFloat);
        var percent := ChangePercent(q);
        var volume := IntField(q, "06. volume", parseInt);
        var previous := FloatField(q, "08. previous close", parseFloat);
        if price.Raised? || change.Raised? || percent.Raised? || volume.Raised? || previous.Raised? then Raised
        else
          Got(Some(Api.Quote(
            if "01. symbol" in q then Some(q["01. symbol"]) else None,
            price.value, change.value, percent.value, volume.value,
            if "07. latest trading day" in q then Some(q["07. latest trading day"]) else None,
            previous.value)))
  }

  /** `dict.get(key)` on a JSON object. */
  function Lookup(m: map<string, Api.Value>, key: string): (r: Option<Api.Value>)
    ensures r.Some? <==> key in m
    ensures r.Some? ==> r.value == m[key]
  {
    if key in m then Some(m[key]) else None
  }

  /** One search result from one element of `bestMatches`. */
  function MatchOf(m: map<string, Api.Value>): Api.SearchMatch {
    Api.SearchMatch(Lookup(m, "1. symbol"), Lookup(m, "2. name"), Lookup(m, "3. type"),
                    Lookup(m, "4. region"), Lookup(m, "8. currency"))
  }

  /** The results for a list of matches; any element that is not an object
      makes `match.get` raise. */
  function MatchesOf(items: seq<Api.Value>): (r: Got<seq<Api.SearchMatch>>)
    ensures r.Got? <==> forall k :: 0 <= k < |items| ==> items[k].VObj?
    ensures r.Got? ==> |r.value| == |items|
    ensures r.Got? ==> forall k :: 0 <= k < |items| ==> r.value[k] == MatchOf(items[k].fields)
  {
    if items == [] then Got([])
    else if !items[0].VObj? then Raised
    else
      match MatchesOf(items[1..])
      case Raised => Raised
      case Got(rest) => Got([MatchOf(items[0].fields)] + rest)
  }

  /** Most results `search_stocks` returns. */
  const MaxMatches: nat := 10

  /** `search_stocks`: `[]` when the body is missing, empty or has no
      `bestMatches`; otherwise the first ten matches in their original
      order, each reduced to five fields. */
  function SearchStocks(data: Option<map<string, Api.Value>>): (r: Got<seq<Api.SearchMatch>>)
    ensures Section(data, "bestMatches").None? ==> r == Got([])
    ensures r.Got? ==> |r.value| <= MaxMatches
    ensures Section(data, "bestMatches").Some? && Section(data, "bestMatches").value.VList? ==>
      var items := Section(data, "bestMatches").value.items;
      && (r.Got? <==> forall k :: 0 <= k < |items| && k < MaxMatches ==> items[k].VObj?)
      && (r.Got? ==> |r.value| == if |items| < MaxMatches then |items| else MaxMatches)
      && (r.Got? ==> forall k :: 0 <= k < |r.value| ==> r.value[k] == MatchOf(items[k].fields))
    ensures Section(data, "bestMatches").Some? && Section(data, "bestMatches").value.VObj? ==> r.Raised?
  {
    match Section(data, "bestMatches")
    case None => Got([])
    case Some(VList(items)) => MatchesOf(Take(items, MaxMatches))
    case Some(VStr(s)) => if s == [] then Got([]) else Raised
    case Some(VObj(_)) => Raised
  }

  /** One daily bar of `get_daily_data`. */
  datatype Bar = Bar(date: string, open: real, high: real, low: real, close: real, volume: int)

  /** `values[key]` when `values` is an object holding a string there;
      `None` where indexing raises or `float`/`int` would be given a
      non-string. */
  function StrAt(v: Api.Value, key: string): (r: Option<string>)
    ensures r.Some? <==> v.VObj? && key in v.fields && v.fields[key].VStr?
    ensures r.Some? ==> r.value == v.fields[key].s
  {
    if v.VObj? && key in v.fields && v.fields[key].VStr? then Some(v.fields[key].s) else None
  }

  /** The bar for one `(date, values)` entry of `Time Series (Daily)`;
      `None` when an indexing or a conversion raises. Each of the five
      fields is read from its own key. */
  function ParseBar(date: string, v: Api.Value, parseFloat: string -> Option<real>,
                    parseInt: string -> Option<int>): (r: Option<Bar>)
    ensures r.Some? <==>
      && StrAt(v, "1. open").Some? && parseFloat(StrAt(v, "1. open").value).Some?
      && StrAt(v, "2. high").Some? && parseFloat(StrAt(v, "2. high").value).Some?
      && StrAt(v, "3. low").Some? && parseFloat(StrAt(v, "3. low").value).Some?
      && StrAt(v, "4. close").Some? && parseFloat(StrAt(v, "4. close").value).Some?
      && StrAt(v, "5. volume").Some? && parseInt(StrAt(v, "5. volume").value).Some?
    ensures r.Some? ==>
      && r.value.date == date
      && Some(r.value.open) == parseFloat(StrAt(v, "1. open").value)
      && Some(r.value.high) == parseFloat(StrAt(v, "2. high").value)
      && Some(r.value.low) == parseFloat(StrAt(v, "3. low").value)
      && Some(r.value.close) == parseFloat(StrAt(v, "4. close").value)
      && Some(r.value.volume) == parseInt(StrAt(v, "5. volume").value)
  {
    if !v.VObj? then None
    else
      var f := v.fields;
      if "1. open" !in f || "2. high" !in f || "3. low" !in f || "4. close" !in f || "5. volume" !in f then None
      else if !f["1. open"].VStr? || !f["2. high"].VStr? || !f["3. low"].VStr?
              || !f["4. close"].VStr? || !f["5. volume"].VStr? then None
      else
        var o := parseFloat(f["1. open"].s);
        var h := parseFloat(f["2. high"].s);
        var l := parseFloat(f["3. low"].s);
        var c := parseFloat(f["4. close"].s);
        var vol := parseInt(f["5. volume"].s);
        if o.None? || h.None? || l.None? || c.None? || vol.None? then None
        else Some(Bar(date, o.value, h.value, l.value, c.value, vol.value))
  }

  /** Python `<=` on the bars' date strings. */
  function DateLe(a: Bar, b: Bar): bool {
    Ordering.LexLe(a.date, b.date)
  }

  /** Bars are ordered by date in every case. */
  lemma DateOrderIsTotal()
    ensures Ordering.TotalPreorder(DateLe)
  {
    forall x: Bar, y: Bar
      ensures DateLe(x, y) || DateLe(y, x)
    {
      Ordering.LexLeTotal(x.date, y.date);
    }
    forall x: Bar, y: Bar, z: Bar | DateLe(x, y) && DateLe(y, z)
      ensures DateLe(x, z)
    {
      Ordering.LexLeTransitive(x.date, y.date, z.date);
    }
  }

  predicate DistinctDates(bars: seq<Bar>) {
    forall i, j :: 0 <= i < j < |bars| ==> bars[i].date != bars[j].date
  }

  /** `get_daily_data`: `None` when the body has no `Time Series (Daily)`;
      otherwise one bar per date, newest date first. The entries are read
      in whatever order the object yields them. */
  method GetDailyData(data: Option<map<string, Api.Value>>, parseFloat: string -> Option<real>,
                      parseInt: string -> Option<int>) returns (r: Got<Option<seq<Bar>>>)
    ensures Section(data, "Time Series (Daily)").None? ==> r == Got(None)
    ensures Section(data, "Time Series (Daily)").Some? && !Section(data, "Time Series (Daily)").value.VObj? ==>
      r.Raised?
    ensures Section(data, "Time Series (Daily)").Some? && Section(data, "Time Series (Daily)").value.VObj? ==>
      var series := Section(data, "Time Series (Daily)").value.fields;
      && (r.Raised? <==> exists d :: d in series && ParseBar(d, series[d], parseFloat, parseInt).None?)
      && (r.Got? ==>
            && r.value.Some?
            && |r.value.value| == |series|
            && Ordering.SortedDesc(r.value.value, DateLe)
            && DistinctDates(r.value.value)
            && (forall b :: b in r.value.value ==>
                  b.date in series && ParseBar(b.date, series[b.date], parseFloat, parseInt) == Some(b))
            && (forall d :: d in series ==> exists b :: b in r.value.value && b.date == d))
  {
    var section := Section(data, "Time Series (Daily)");
    if section.None? {
      return Got(None);
    }
    if !section.value.VObj? {
      return Raised;
    }
    var series := section.value.fields;
    var remaining := series.Keys;
    var bars: seq<Bar> := [];
    while remaining != {}
      invariant remaining <= series.Keys
      invariant |bars| + |remaining| == |series.Keys|
      invariant DistinctDates(bars)
      invariant forall b :: b in bars ==>
        b.date in series && b.date !in remaining && ParseBar(b.date, series[b.date], parseFloat, parseInt) == Some(b)
      invariant forall d :: d in series && d !in remaining ==> exists b :: b in bars && b.date == d
      decreases |remaining|
    {
      var d :| d in remaining;
      var bar := ParseBar(d, series[d], parseFloat, parseInt);
      if bar.None? {
        return Raised;
      }
      bars := bars + [bar.value];
      remaining := remaining - {d};
    }
    forall d | d in series
      ensures ParseBar(d, series[d], parseFloat, parseInt).Some?
    {
      var b :| b in bars && b.date == d;
    }
    DateOrderIsTotal();
    var sorted := Ordering.SortDesc(bars, DateLe);
    SortedBars(series, bars, sorted, parseFloat, parseInt);
    return Got(Some(sorted));
  }

  /** Sorting the bars read from the series keeps one bar per date. */
  lemma SortedBars(series: map<string, Api.Value>, bars: seq<Bar>, sorted: seq<Bar>,
                   parseFloat: string -> Option<real>, parseInt: string -> Option<int>)
    requires |bars| == |series.Keys| && DistinctDates(bars)
    requires forall b :: b in bars ==>
      b.date in series && ParseBar(b.date, series[b.date], parseFloat, parseInt) == Some(b)
    requires forall d :: d in series ==> exists b :: b in bars && b.date == d
    requires multiset(sorted) == multiset(bars)
    ensures |sorted| == |series| && DistinctDates(sorted)
    ensures forall b :: b in sorted ==>
      b.date in series && ParseBar(b.date, series[b.date], parseFloat, parseInt) == Some(b)
    ensures forall d :: d in series ==> exists b :: b in sorted && b.date == d
  {
    assert |series| == |series.Keys|;
    assert |sorted| == |multiset(sorted)| == |multiset(bars)| == |bars|;
    SortKeepsDistinct(bars, sorted);
    forall b | b in sorted
      ensures b in bars
    {
      assert b in multiset(sorted);
    }
    forall d | d in series
      ensures exists b :: b in sorted && b.date == d
    {
      var b :| b in bars && b.date == d;
      assert b in multiset(bars);
    }
  }

  /** Reordering bars with distinct dates keeps the dates distinct. */
  lemma SortKeepsDistinct(a: seq<Bar>, b: seq<Bar>)
    requires multiset(a) == multiset(b) && DistinctDates(a)
    ensures DistinctDates(b)
  {
    forall i, j | 0 <= i < j < |b|
      ensures b[i].date != b[j].date
    {
      if b[i].date == b[j].date {
        assert b[i] in multiset(a) && b[j] in multiset(a);
        var i' :| 0 <= i' < |a| && a[i'] == b[i];
        var j' :| 0 <= j' < |a| && a[j'] == b[j];
        assert i' == j';
        MultisetTwice(b, i, j);
        DistinctOnce(a, b[i]);
        assert false;
      }
    }
  }

  /** Two positions holding the same bar mean it occurs twice. */
  lemma MultisetTwice(b: seq<Bar>, i: nat, j: nat)
    requires i < j < |b| && b[i] == b[j]
    ensures multiset(b)[b[i]] >= 2
  {
    assert b == b[..i] + [b[i]] + b[i + 1..j] + [b[j]] + b[j + 1..];
  }

  /** With distinct dates no bar occurs twice. */
  lemma {:induction false} DistinctOnce(a: seq<Bar>, x: Bar)
    requires DistinctDates(a)
    ensures multiset(a)[x] <= 1
  {
    if a != [] {
      assert a == [a[0]] + a[1..];
      assert DistinctDates(a[1..]);
      DistinctOnce(a[1..], x);
      if a[0] == x {
        assert x !in a[1..];
      }
    }
  }

  /** Two sorted orders of the same bars with distinct dates start with
      the same bar. */
  lemma SameNewest(a: seq<Bar>, b: seq<Bar>)
    requires multiset(a) == multiset(b) && DistinctDates(a) && a != []
    requires Ordering.SortedDesc(a, DateLe) && Ordering.SortedDesc(b, DateLe)
    ensures b != [] && a[0] == b[0]
  {
    assert |b| == |multiset(b)| == |multiset(a)| == |a|;
    assert a[0] in multiset(b) && b[0] in multiset(a);
    var j :| 0 <= j < |b| && b[j] == a[0];
    var i :| 0 <= i < |a| && a[i] == b[0];
    if i != 0 {
      assert DateLe(a[i], a[0]);
      assert j != 0;
      assert DateLe(b[j], b[0]);
      Ordering.LexLeAntisymmetric(a[i].date, a[0].date);
      assert false;
    }
  }

  /** Daily bars with distinct dates sorted newest first are determined by
      which bars there are: the order the JSON object yields its entries in
      does not change the result. */
  lemma {:induction false} SortedBarsUnique(a: seq<Bar>, b: seq<Bar>)
    requires multiset(a) == multiset(b) && DistinctDates(a)
    requires Ordering.SortedDesc(a, DateLe) && Ordering.SortedDesc(b, DateLe)
    ensures a == b
    decreases |a|
  {
    if a == [] {
      assert |b| == |multiset(b)| == |multiset(a)| == 0;
    } else {
      SameNewest(a, b);
      SameTails(a, b);
      SortedBarsUnique(a[1..], b[1..]);
      assert a == [a[0]] + a[1..] && b == [b[0]] + b[1..];
    }
  }

  /** Taking the same first bar off both leaves sorted orders of the same
      bars. */
  lemma SameTails(a: seq<Bar>, b: seq<Bar>)
    requires multiset(a) == multiset(b) && DistinctDates(a) && a != [] && b != [] && a[0] == b[0]
    requires Ordering.SortedDesc(a, DateLe) && Ordering.SortedDesc(b, DateLe)
    ensures multiset(a[1..]) == multiset(b[1..]) && DistinctDates(a[1..])
    ensures Ordering.SortedDesc(a[1..], DateLe) && Ordering.SortedDesc(b[1..], DateLe)
  {
    TailMultiset(a);
    TailMultiset(b);
    Ordering.TailSorted(a, DateLe);
    Ordering.TailSorted(b, DateLe);
    forall i, j | 0 <= i < j < |a| - 1
      ensures a[1..][i].date != a[1..][j].date
    {
      assert a[1..][i] == a[i + 1] && a[1..][j] == a[j + 1];
    }
  }

  /** The tail holds every element but the first. */
  lemma TailMultiset<T>(s: seq<T>)
    requires s != []
    ensures multiset(s[1..]) == multiset(s) - multiset{s[0]}
  {
    assert s == [s[0]] + s[1..];
  }

  /** The fields `get_company_overview` keeps. */
  datatype Overview = Overview(
    symbol: Option<Api.Value>,
    name: Option<Api.Value>,
    sector: Option<Api.Value>,
    industry: Option<Api.Value>,
    marketCap: Option<Api.Value>,
    peRatio: Option<Api.Value>,
    dividendYield: Option<Api.Value>,
    description: Option<Api.Value>)

  /** `get_company_overview`: `None` unless the body has a `Symbol`;
      otherwise eight fields copied as they are from their keys, absent
      ones as `None`. */
  function GetCompanyOverview(data: Option<map<string, Api.Value>>): (r: Option<Overview>)
    ensures r.Some? <==> Section(data, "Symbol").Some?
    ensures r.Some? ==> r.value.symbol == Section(data, "Symbol")
                        && r.value.name == Section(data, "Name")
                        && r.value.sector == Section(data, "Sector")
                        && r.value.industry == Section(data, "Industry")
                        && r.value.marketCap == Section(data, "MarketCapitalization")
                        && r.value.peRatio == Section(data, "PERatio")
                        && r.value.dividendYield == Section(data, "DividendYield")
                        && r.value.description == Section(data, "Description")
  {
    match Section(data, "Symbol")
    case None => None
    case Some(_) =>
      var m := data.value;
      Some(Overview(Lookup(m, "Symbol"), Lookup(m, "Name"), Lookup(m, "Sector"), Lookup(m, "Industry"),
                    Lookup(m, "MarketCapitalization"), Lookup(m, "PERatio"), Lookup(m, "DividendYield"),
                    Lookup(m, "Description")))
  }
}
