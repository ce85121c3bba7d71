/** `get_portfolio` (backend/app.py): the user's transactions newest first,
    folded into one position per symbol, reduced to the symbols still
    held, priced from the stock table, and summarised. Amounts are exact
    reals; the reply's `round(..., 2)` is not applied. */
module Holdings {
  import opened Base
  import Ordering
  import Store
  import Api

  /** Signed number of shares a transaction adds to its symbol's position. */
  function Shares(t: Store.Transaction): int {
    if t.kind == Store.Buy then t.quantity else -t.quantity
  }

  /** `quantity * price`: what a transaction is worth at its own price. */
  function Amount(t: Store.Transaction): real {
    t.quantity as real * t.price
  }

  /** Signed amount a transaction adds to its symbol's cost basis. */
  function Cost(t: Store.Transaction): real {
    if t.kind == Store.Buy then Amount(t) else -Amount(t)
  }

  /** Shares bought minus shares sold of `symbol`. */
  function NetQuantity(txs: seq<Store.Transaction>, symbol: string): int {
    if txs == [] then 0
    else
      var last := txs[|txs| - 1];
      NetQuantity(txs[..|txs| - 1], symbol) + (if last.symbol == symbol then Shares(last) else 0)
  }

  /** Amount paid for `symbol` minus amount received for it. */
  function NetCost(txs: seq<Store.Transaction>, symbol: string): real {
    if txs == [] then 0.0
    else
      var last := txs[|txs| - 1];
      NetCost(txs[..|txs| - 1], symbol) + (if last.symbol == symbol then Cost(last) else 0.0)
  }

  /** The net position of a concatenation is the sum of the parts'. */
  lemma {:induction false} NetConcat(a: seq<Store.Transaction>, b: seq<Store.Transaction>, symbol: string)
    ensures NetQuantity(a + b, symbol) == NetQuantity(a, symbol) + NetQuantity(b, symbol)
    ensures NetCost(a + b, symbol) == NetCost(a, symbol) + NetCost(b, symbol)
  {
    if b == [] {
      assert a + b == a;
    } else {
      assert (a + b)[..|a + b| - 1] == a + b[..|b| - 1];
      NetConcat(a, b[..|b| - 1], symbol);
    }
  }

  /** Taking one transaction out of a sequence takes out its contribution. */
  lemma NetRemoveAt(b: seq<Store.Transaction>, k: nat, symbol: string)
    requires k < |b|
    ensures NetQuantity(b, symbol)
            == NetQuantity(b[..k] + b[k + 1..], symbol) + (if b[k].symbol == symbol then Shares(b[k]) else 0)
    ensures NetCost(b, symbol)
            == NetCost(b[..k] + b[k + 1..], symbol) + (if b[k].symbol == symbol then Cost(b[k]) else 0.0)
  {
    assert b == b[..k] + [b[k]] + b[k + 1..];
    NetConcat(b[..k], [b[k]], symbol);
    NetConcat(b[..k] + [b[k]], b[k + 1..], symbol);
    NetConcat(b[..k], b[k + 1..], symbol);
    assert [b[k]][..0] == [];
  }

  /** A position depends on which transactions there are, not on their
      order: sorting by date changes no holding. */
  lemma {:induction false} NetPermutation(a: seq<Store.Transaction>, b: seq<Store.Transaction>, symbol: string)
    requires multiset(a) == multiset(b)
    ensures NetQuantity(a, symbol) == NetQuantity(b, symbol)
    ensures NetCost(a, symbol) == NetCost(b, symbol)
    decreases |a|
  {
    if a == [] {
      assert |b| == |multiset(b)| == 0;
    } else {
      var k := MatchLast(a, b);
      NetPermutation(a[..|a| - 1], b[..k] + b[k + 1..], symbol);
      NetRemoveAt(b, k, symbol);
    }
  }

  /** Where the last element of `a` sits in a permutation `b` of it, and
      what is left of both once it is taken out. */
  lemma MatchLast<T>(a: seq<T>, b: seq<T>) returns (k: nat)
    requires a != [] && multiset(a) == multiset(b)
    ensures k < |b| && b[k] == a[|a| - 1]
    ensures multiset(a[..|a| - 1]) == multiset(b[..k] + b[k + 1..])
  {
    var x := a[|a| - 1];
    assert a == a[..|a| - 1] + [x];
    assert x in multiset(b);
    k :| 0 <= k < |b| && b[k] == x;
    assert b == b[..k] + [x] + b[k + 1..];
    assert multiset(b[..k] + b[k + 1..]) == multiset(b) - multiset{x};
  }

  /** Some transaction of `txs` is for `symbol`. */
  predicate Mentions(txs: seq<Store.Transaction>, symbol: string) {
    exists k :: 0 <= k < |txs| && txs[k].symbol == symbol
  }

  /** A symbol no transaction mentions has an empty position. */
  lemma {:induction false} NetAbsent(txs: seq<Store.Transaction>, symbol: string)
    requires !Mentions(txs, symbol)
    ensures NetQuantity(txs, symbol) == 0 && NetCost(txs, symbol) == 0.0
  {
    if txs != [] {
      var prefix := txs[..|txs| - 1];
      assert forall k :: 0 <= k < |prefix| ==> prefix[k] == txs[k];
      NetAbsent(prefix, symbol);
    }
  }

  /** The distinct symbols of `txs`, in the order they first appear: the
      key order of the backend's `holdings` dict. */
  function Symbols(txs: seq<Store.Transaction>): (r: seq<string>)
    ensures forall s :: s in r <==> Mentions(txs, s)
    ensures forall i, j :: 0 <= i < j < |r| ==> r[i] != r[j]
  {
    if txs == [] then []
    else
      var prior := Symbols(txs[..|txs| - 1]);
      var s := txs[|txs| - 1].symbol;
      assert forall k :: 0 <= k < |txs| - 1 ==> txs[..|txs| - 1][k] == txs[k];
      if s in prior then prior else prior + [s]
  }

  /** Where `symbol` first appears in `txs`; `|txs|` when it does not. */
  function FirstIndex(txs: seq<Store.Transaction>, symbol: string): (k: nat)
    ensures k <= |txs|
    ensures k < |txs| ==> txs[k].symbol == symbol
    ensures forall j :: 0 <= j < k ==> txs[j].symbol != symbol
  {
    if txs == [] then 0
    else if txs[0].symbol == symbol then 0
    else 1 + FirstIndex(txs[1..], symbol)
  }

  /** Appending a transaction moves no symbol's first appearance, and a
      symbol seen for the first time appears at the new end. */
  lemma FirstIndexSnoc(p: seq<Store.Transaction>, t: Store.Transaction, symbol: string)
    ensures FirstIndex(p, symbol) < |p| ==> FirstIndex(p + [t], symbol) == FirstIndex(p, symbol)
    ensures FirstIndex(p, symbol) == |p| && t.symbol == symbol ==> FirstIndex(p + [t], symbol) == |p|
  {
    var k := FirstIndex(p, symbol);
    var k' := FirstIndex(p + [t], symbol);
    if k < |p| {
      assert (p + [t])[k] == p[k];
    } else if t.symbol == symbol {
      assert (p + [t])[|p|] == t;
    }
  }

  /** `syms` are listed in the order of their first appearance in `txs`. */
  predicate FirstOrdered(txs: seq<Store.Transaction>, syms: seq<string>) {
    forall i, j :: 0 <= i < j < |syms| ==> FirstIndex(txs, syms[i]) < FirstIndex(txs, syms[j])
  }

  /** `Symbols` lists the symbols in the order of their first appearance. */
  lemma {:induction false} SymbolsFirstOrder(txs: seq<Store.Transaction>)
    ensures FirstOrdered(txs, Symbols(txs))
  {
    if txs != [] {
      var p := txs[..|txs| - 1];
      var t := txs[|txs| - 1];
      assert txs == p + [t];
      SymbolsFirstOrder(p);
      var prior := Symbols(p);
      var r := Symbols(txs);
      forall x | x in prior
        ensures FirstIndex(txs, x) == FirstIndex(p, x) < |p|
      {
        assert Mentions(p, x);
        var k :| 0 <= k < |p| && p[k].symbol == x;
        FirstIndexSnoc(p, t, x);
      }
      if t.symbol !in prior {
        assert r == prior + [t.symbol];
        assert FirstIndex(p, t.symbol) == |p|;
        FirstIndexSnoc(p, t, t.symbol);
        forall i, j | 0 <= i < j < |r|
          ensures FirstIndex(txs, r[i]) < FirstIndex(txs, r[j])
        {
          assert r[i] == prior[i] && r[i] in prior;
          assert FirstIndex(txs, r[i]) == FirstIndex(p, r[i]) < |p|;
          if j < |prior| {
            assert r[j] == prior[j] && r[j] in prior;
            assert FirstIndex(p, prior[i]) < FirstIndex(p, prior[j]);
          } else {
            assert r[j] == t.symbol;
            assert FirstIndex(txs, t.symbol) == |p|;
          }
        }
      } else {
        assert r == prior;
        forall i, j | 0 <= i < j < |r|
          ensures FirstIndex(txs, r[i]) < FirstIndex(txs, r[j])
        {
          assert r[i] in prior && r[j] in prior;
        }
      }
    }
  }

  /** A symbol's running totals in the backend's `holdings` dict. */
  datatype Position = Position(quantity: int, totalCost: real)

  /** One more transaction adds its symbol to the symbols seen, unless
      it was seen already. */
  lemma SymbolsStep(txs: seq<Store.Transaction>, i: nat)
    requires i < |txs|
    ensures Symbols(txs[..i + 1]) ==
      (if txs[i].symbol in Symbols(txs[..i]) then Symbols(txs[..i]) else Symbols(txs[..i]) + [txs[i].symbol])
  {
    assert txs[..i + 1][..i] == txs[..i];
  }

  /** What one more transaction adds to the running totals of `s`. */
  lemma NetStep(txs: seq<Store.Transaction>, i: nat, s: string)
    requires i < |txs|
    ensures NetQuantity(txs[..i + 1], s) == NetQuantity(txs[..i], s) + (if txs[i].symbol == s then Shares(txs[i]) else 0)
    ensures NetCost(txs[..i + 1], s) == NetCost(txs[..i], s) + (if txs[i].symbol == s then Cost(txs[i]) else 0.0)
  {
    assert txs[..i + 1][..i] == txs[..i];
  }

  /** `order` and `book` hold the running totals of the first `i`
      transactions. */
  ghost predicate Tally(txs: seq<Store.Transaction>, i: nat, order: seq<string>, book: map<string, Position>)
    requires i <= |txs|
  {
    && order == Symbols(txs[..i])
    && (forall s :: s in book <==> s in order)
    && (forall s :: s in book ==> book[s] == Position(NetQuantity(txs[..i], s), NetCost(txs[..i], s)))
  }

  /** The entry of the `i`-th transaction's symbol after it is recorded. */
  function Recorded(book: map<string, Position>, t: Store.Transaction): Position {
    var p := if t.symbol in book then book[t.symbol] else Position(0, 0.0);
    Position(p.quantity + Shares(t), p.totalCost + Cost(t))
  }

  /** Recording one more transaction keeps the tally. */
  lemma TallyStep(txs: seq<Store.Transaction>, i: nat, order: seq<string>, book: map<string, Position>)
    requires i < |txs| && Tally(txs, i, order, book)
    ensures Tally(txs, i + 1,
                  if txs[i].symbol in book then order else order + [txs[i].symbol],
                  book[txs[i].symbol := Recorded(book, txs[i])])
  {
    var t := txs[i];
    SymbolsStep(txs, i);
    if t.symbol !in book {
      assert t.symbol !in order;
      NetAbsent(txs[..i], t.symbol);
    }
    BookStep(txs, i, book);
  }

  /** The entries of the book after one more transaction hold the new
      running totals. */
  lemma BookStep(txs: seq<Store.Transaction>, i: nat, book: map<string, Position>)
    requires i < |txs|
    requires forall s :: s in book ==> book[s] == Position(NetQuantity(txs[..i], s), NetCost(txs[..i], s))
    requires txs[i].symbol !in book ==> NetQuantity(txs[..i], txs[i].symbol) == 0 && NetCost(txs[..i], txs[i].symbol) == 0.0
    ensures var book' := book[txs[i].symbol := Recorded(book, txs[i])];
      forall s :: s in book' ==> book'[s] == Position(NetQuantity(txs[..i + 1], s), NetCost(txs[..i + 1], s))
  {
    var t := txs[i];
    var book' := book[t.symbol := Recorded(book, t)];
    forall s | s in book'
      ensures book'[s] == Position(NetQuantity(txs[..i + 1], s), NetCost(txs[..i + 1], s))
    {
      NetStep(txs, i, s);
      if s != t.symbol {
        assert book'[s] == book[s];
      }
    }
  }

  /** One iteration of the loop of `get_portfolio` that builds `holdings`:
      the transaction's symbol gets an entry at zero the first time it is
      seen, then a buy adds its shares and cost and a sell subtracts them. */
  function Record(order: seq<string>, book: map<string, Position>, t: Store.Transaction)
    : (r: (seq<string>, map<string, Position>))
    ensures r.0 == if t.symbol in book then order else order + [t.symbol]
    ensures r.1 == book[t.symbol := Recorded(book, t)]
  {
    var (order', book') :=
      if t.symbol !in book then (order + [t.symbol], book[t.symbol := Position(0, 0.0)]) else (order, book);
    var p := book'[t.symbol];
    if t.kind == Store.Buy then
      (order', book'[t.symbol := Position(p.quantity + t.quantity, p.totalCost + Amount(t))])
    else
      (order', book'[t.symbol := Position(p.quantity - t.quantity, p.totalCost - Amount(t))])
  }

  /** The loop of `get_portfolio` that builds `holdings` from the
      transactions in order. */
  method Aggregate(txs: seq<Store.Transaction>) returns (order: seq<string>, book: map<string, Position>)
    ensures order == Symbols(txs)
    ensures forall s :: s in book <==> s in order
    ensures forall s :: s in book ==> book[s] == Position(NetQuantity(txs, s), NetCost(txs, s))
  {
    order := [];
    book := map[];
    var i := 0;
    while i < |txs|
      invariant 0 <= i <= |txs|
      invariant Tally(txs, i, order, book)
    {
      TallyStep(txs, i, order, book);
      order, book := Record(order, book, txs[i]).0, Record(order, book, txs[i]).1;
      i := i + 1;
    }
    assert txs[..|txs|] == txs;
  }

  /** `stock.last_price if stock and stock.last_price else 0`. */
  function PriceOf(stocks: map<string, Store.Stock>, symbol: string): (p: real)
    ensures p != 0.0 ==> symbol in stocks && stocks[symbol].lastPrice == Some(p)
    ensures symbol in stocks && stocks[symbol].lastPrice.Some? ==> p == stocks[symbol].lastPrice.value
  {
    if symbol in stocks && stocks[symbol].lastPrice.Some? then stocks[symbol].lastPrice.value else 0.0
  }

  /** Gain as a percentage of cost, 0 when the cost is not positive. */
  function Percent(gain: real, cost: real): (pct: real)
    ensures cost > 0.0 ==> pct * cost == gain * 100.0
    ensures cost <= 0.0 ==> pct == 0.0
  {
    if cost > 0.0 then gain / cost * 100.0 else 0.0
  }

  /** One entry of `holdings` for a held position at the given price. */
  function MakeHolding(symbol: string, pos: Position, price: real): (h: Api.Holding)
    requires pos.quantity > 0
    ensures h.symbol == symbol && h.quantity == pos.quantity && h.totalCost == pos.totalCost
    ensures h.avgCost * pos.quantity as real == pos.totalCost
    ensures h.currentPrice == price
    ensures h.currentValue == pos.quantity as real * price
    ensures h.gainLoss == h.currentValue - h.totalCost
    ensures h.gainLossPercent == Percent(h.gainLoss, h.totalCost)
  {
    var value := pos.quantity as real * price;
    Api.Holding(symbol, pos.quantity, pos.totalCost / pos.quantity as real, price, value,
                pos.totalCost, value - pos.totalCost, Percent(value - pos.totalCost, pos.totalCost))
  }

  predicate DistinctSymbols(hs: seq<Api.Holding>) {
    forall i, j :: 0 <= i < j < |hs| ==> hs[i].symbol != hs[j].symbol
  }

  /** `active_holdings` priced: the positions of `syms` with a positive
      quantity, in the order of `syms`. */
  function BuildHoldings(syms: seq<string>, book: map<string, Position>, stocks: map<string, Store.Stock>)
    : (hs: seq<Api.Holding>)
    requires forall s :: s in syms ==> s in book
    ensures |hs| <= |syms|
  {
    if syms == [] then []
    else
      var rest := BuildHoldings(syms[1..], book, stocks);
      var s := syms[0];
      if book[s].quantity > 0 then [MakeHolding(s, book[s], PriceOf(stocks, s))] + rest
      else rest
  }

  /** Every holding built is the priced position of a listed symbol held
      in a positive quantity. */
  lemma {:induction false} BuildHoldingsSound(syms: seq<string>, book: map<string, Position>,
                                              stocks: map<string, Store.Stock>)
    requires forall s :: s in syms ==> s in book
    ensures forall h :: h in BuildHoldings(syms, book, stocks) ==>
      && h.symbol in syms && book[h.symbol].quantity > 0
      && h == MakeHolding(h.symbol, book[h.symbol], PriceOf(stocks, h.symbol))
  {
    if syms != [] {
      BuildHoldingsSound(syms[1..], book, stocks);
      assert forall x :: x in syms[1..] ==> x in syms;
    }
  }

  /** Every listed symbol held in a positive quantity has a holding. */
  lemma {:induction false} BuildHoldingsComplete(syms: seq<string>, book: map<string, Position>,
                                                 stocks: map<string, Store.Stock>)
    requires forall s :: s in syms ==> s in book
    ensures forall s :: s in syms && book[s].quantity > 0 ==>
      exists h :: h in BuildHoldings(syms, book, stocks) && h.symbol == s
  {
    if syms != [] {
      BuildHoldingsComplete(syms[1..], book, stocks);
      var hs := BuildHoldings(syms, book, stocks);
      var rest := BuildHoldings(syms[1..], book, stocks);
      assert forall x :: x in syms ==> x == syms[0] || x in syms[1..];
      assert forall h :: h in rest ==> h in hs;
      if book[syms[0]].quantity > 0 {
        assert hs[0] in hs && hs[0].symbol == syms[0];
      }
    }
  }

  /** The holdings are listed in the order their symbols first appear in `txs`. */
  predicate HeldInOrder(txs: seq<Store.Transaction>, hs: seq<Api.Holding>) {
    forall i, j :: 0 <= i < j < |hs| ==> FirstIndex(txs, hs[i].symbol) < FirstIndex(txs, hs[j].symbol)
  }

  /** Every holding built is for one of the listed symbols. */
  lemma {:induction false} BuildHoldingsListed(syms: seq<string>, book: map<string, Position>,
                                               stocks: map<string, Store.Stock>)
    requires forall s :: s in syms ==> s in book
    ensures forall h :: h in BuildHoldings(syms, book, stocks) ==> h.symbol in syms
  {
    if syms != [] {
      BuildHoldingsListed(syms[1..], book, stocks);
    }
  }

  /** The holdings keep the order of `syms`: when `syms` are in order of
      first appearance in `txs`, so are the holdings. */
  lemma {:induction false} BuildHoldingsOrdered(syms: seq<string>, book: map<string, Position>,
                                                stocks: map<string, Store.Stock>, txs: seq<Store.Transaction>)
    requires forall s :: s in syms ==> s in book
    requires FirstOrdered(txs, syms)
    ensures HeldInOrder(txs, BuildHoldings(syms, book, stocks))
  {
    if syms != [] {
      var tail := syms[1..];
      assert FirstOrdered(txs, tail) by {
        forall i, j | 0 <= i < j < |tail|
          ensures FirstIndex(txs, tail[i]) < FirstIndex(txs, tail[j])
        {
          assert tail[i] == syms[i + 1] && tail[j] == syms[j + 1];
        }
      }
      BuildHoldingsOrdered(tail, book, stocks, txs);
      BuildHoldingsListed(tail, book, stocks);
      var rest := BuildHoldings(tail, book, stocks);
      forall h | h in rest
        ensures FirstIndex(txs, syms[0]) < FirstIndex(txs, h.symbol)
      {
        var j :| 0 <= j < |tail| && tail[j] == h.symbol;
        assert syms[j + 1] == h.symbol;
      }
      if book[syms[0]].quantity > 0 {
        var h0 := MakeHolding(syms[0], book[syms[0]], PriceOf(stocks, syms[0]));
        HeldInOrderCons(txs, h0, rest);
      }
    }
  }

  /** A holding whose symbol appears before every symbol of an ordered
      list keeps the list ordered when put in front of it. */
  lemma HeldInOrderCons(txs: seq<Store.Transaction>, h0: Api.Holding, rest: seq<Api.Holding>)
    requires HeldInOrder(txs, rest)
    requires forall h :: h in rest ==> FirstIndex(txs, h0.symbol) < FirstIndex(txs, h.symbol)
    ensures HeldInOrder(txs, [h0] + rest)
  {
    var hs := [h0] + rest;
    forall i, j | 0 <= i < j < |hs|
      ensures FirstIndex(txs, hs[i].symbol) < FirstIndex(txs, hs[j].symbol)
    {
      assert hs[j] == rest[j - 1] && hs[j] in rest;
      if i > 0 {
        assert hs[i] == rest[i - 1];
      }
    }
  }

  /** Distinct symbols give holdings of distinct symbols. */
  lemma {:induction false} BuildHoldingsDistinct(syms: seq<string>, book: map<string, Position>,
                                                 stocks: map<string, Store.Stock>)
    requires forall s :: s in syms ==> s in book
    requires forall i, j :: 0 <= i < j < |syms| ==> syms[i] != syms[j]
    ensures DistinctSymbols(BuildHoldings(syms, book, stocks))
  {
    if syms != [] {
      var tail := syms[1..];
      assert forall i, j :: 0 <= i < j < |tail| ==> tail[i] != tail[j] by {
        forall i, j | 0 <= i < j < |tail|
          ensures tail[i] != tail[j]
        {
          assert tail[i] == syms[i + 1] && tail[j] == syms[j + 1];
        }
      }
      BuildHoldingsDistinct(tail, book, stocks);
      BuildHoldingsSound(tail, book, stocks);
      assert syms[0] !in tail by {
        forall k | 0 <= k < |tail|
          ensures tail[k] != syms[0]
        {
          assert tail[k] == syms[k + 1];
        }
      }
      var hs := BuildHoldings(syms, book, stocks);
      var rest := BuildHoldings(tail, book, stocks);
      if book[syms[0]].quantity > 0 {
        forall i, j | 0 <= i < j < |hs|
          ensures hs[i].symbol != hs[j].symbol
        {
          assert hs[j] == rest[j - 1];
          if i > 0 {
            assert hs[i] == rest[i - 1];
          } else {
            assert rest[j - 1] in rest;
          }
        }
      }
    }
  }

  function SumValue(hs: seq<Api.Holding>): real {
    if hs == [] then 0.0 else hs[0].currentValue + SumValue(hs[1..])
  }

  function SumCost(hs: seq<Api.Holding>): real {
    if hs == [] then 0.0 else hs[0].totalCost + SumCost(hs[1..])
  }

  /** Every holding's gain is value minus cost, so the total gain is the
      total value minus the total cost. */
  lemma {:induction false} TotalGainSumsHoldings(hs: seq<Api.Holding>)
    requires forall h :: h in hs ==> h.gainLoss == h.currentValue - h.totalCost
    ensures SumValue(hs) - SumCost(hs) == SumGainLoss(hs)
  {
    if hs != [] {
      assert hs[0] in hs;
      TotalGainSumsHoldings(hs[1..]);
    }
  }

  lemma GainOfHoldings(hs: seq<Api.Holding>)
    ensures (forall h :: h in hs ==> h.gainLoss == h.currentValue - h.totalCost) ==>
              SumValue(hs) - SumCost(hs) == SumGainLoss(hs)
  {
    if forall h :: h in hs ==> h.gainLoss == h.currentValue - h.totalCost {
      TotalGainSumsHoldings(hs);
    }
  }

  function SumGainLoss(hs: seq<Api.Holding>): real {
    if hs == [] then 0.0 else hs[0].gainLoss + SumGainLoss(hs[1..])
  }

  /** The `summary` object over the held positions: the totals add up the
      holdings, the total gain is the holdings' gains added up whenever
      each is its value minus its cost, and the percentage relates gain to
      cost. */
  function Summarize(hs: seq<Api.Holding>): (s: Api.Summary)
    ensures s.totalValue == SumValue(hs) && s.totalCost == SumCost(hs)
    ensures s.totalGainLoss == s.totalValue - s.totalCost
    ensures (forall h :: h in hs ==> h.gainLoss == h.currentValue - h.totalCost) ==>
              s.totalGainLoss == SumGainLoss(hs)
    ensures s.totalCost > 0.0 ==> s.totalGainLossPercent * s.totalCost == s.totalGainLoss * 100.0
    ensures s.totalCost <= 0.0 ==> s.totalGainLossPercent == 0.0
    ensures s.positionsCount == |hs|
  {
    GainOfHoldings(hs);
    var value := SumValue(hs);
    var cost := SumCost(hs);
    Api.Summary(value, cost, value - cost, Percent(value - cost, cost), |hs|)
  }

  /** A transaction as `to_dict` shows it. */
  function View(t: Store.Transaction): (v: Api.TxView)
    ensures v.symbol == t.symbol && v.quantity == t.quantity && v.price == t.price && v.date == t.date
    ensures v.kind == (if t.kind == Store.Buy then "buy" else "sell")
  {
    Api.TxView(t.symbol, if t.kind == Store.Buy then "buy" else "sell", t.quantity, t.price, t.date)
  }

  function Views(txs: seq<Store.Transaction>): (vs: seq<Api.TxView>)
    ensures |vs| == |txs|
    ensures forall k :: 0 <= k < |txs| ==> vs[k] == View(txs[k])
  {
    if txs == [] then [] else [View(txs[0])] + Views(txs[1..])
  }

  /** Newer first: SQL `ORDER BY date DESC`. */
  function DateLe(a: Store.Transaction, b: Store.Transaction): bool { a.date <= b.date }

  lemma DateOrderIsTotal()
    ensures Ordering.TotalPreorder(DateLe)
  {
  }

  /** The user's transactions newest first. Rows with equal dates keep
      their table order. */
  function Newest(db: Store.Db, uid: nat): (r: seq<Store.Transaction>)
    ensures multiset(r) == multiset(Store.OnlyOf(db.transactions, uid))
    ensures Ordering.SortedDesc(r, DateLe)
  {
    DateOrderIsTotal();
    Ordering.SortDesc(Store.OnlyOf(db.transactions, uid), DateLe)
  }

  /** `get_portfolio`: 401 without a session user. Otherwise 200 with one
      holding per symbol the user holds a positive net number of shares
      of, each carrying that net quantity and net cost over all of the
      user's transactions; a summary whose totals add up the holdings; and
      the ten newest transactions. */
  method GetPortfolio(db: Store.Db, session: Option<int>) returns (reply: Store.Reply, data: Option<Api.PortfolioData>)
    ensures Store.RequireAuth(db, session).None? ==>
      reply == Store.Fail(401, Store.AuthRequired) && data.None?
    ensures Store.RequireAuth(db, session).Some? ==>
      var uid := Store.RequireAuth(db, session).value.id;
      var mine := Store.OnlyOf(db.transactions, uid);
      && reply == Store.Ok(200) && data.Some?
      && var hs := data.value.holdings;
         && DistinctSymbols(hs)
         && (forall h :: h in hs ==>
               && h.quantity == NetQuantity(mine, h.symbol) && h.quantity > 0
               && h.totalCost == NetCost(mine, h.symbol)
               && h == MakeHolding(h.symbol, Position(h.quantity, h.totalCost), PriceOf(db.stocks, h.symbol)))
         && (forall s :: (exists h :: h in hs && h.symbol == s) <==>
               Mentions(mine, s) && NetQuantity(mine, s) > 0)
         && HeldInOrder(Newest(db, uid), hs)
         && data.value.summary == Summarize(hs)
         && data.value.recentTransactions == Take(Views(Newest(db, uid)), 10)
  {
    var user := Store.RequireAuth(db, session);
    if user.None? {
      return Store.Fail(401, Store.AuthRequired), None;
    }
    var uid := user.value.id;
    var mine := Store.OnlyOf(db.transactions, uid);
    var sorted := Newest(db, uid);
    var order, book := Aggregate(sorted);
    var hs := BuildHoldings(order, book, db.stocks);
    BuildHoldingsSound(order, book, db.stocks);
    BuildHoldingsComplete(order, book, db.stocks);
    BuildHoldingsDistinct(order, book, db.stocks);
    SymbolsFirstOrder(sorted);
    BuildHoldingsOrdered(order, book, db.stocks, sorted);
    forall s
      ensures NetQuantity(sorted, s) == NetQuantity(mine, s) && NetCost(sorted, s) == NetCost(mine, s)
    {
      NetPermutation(sorted, mine, s);
    }
    forall s
      ensures Mentions(sorted, s) <==> Mentions(mine, s)
    {
      SameSymbols(sorted, mine, s);
    }
    data := Some(Api.PortfolioData(hs, Summarize(hs), Take(Views(sorted), 10)));
    reply := Store.Ok(200);
  }

  /** Two arrangements of the same transactions mention the same symbols. */
  lemma SameSymbols(a: seq<Store.Transaction>, b: seq<Store.Transaction>, s: string)
    requires multiset(a) == multiset(b)
    ensures Mentions(a, s) <==> Mentions(b, s)
  {
    if k :| 0 <= k < |a| && a[k].symbol == s {
      assert a[k] in multiset(b);
    }
    if k :| 0 <= k < |b| && b[k].symbol == s {
      assert b[k] in multiset(a);
    }
  }

  /** The recent list holds at most ten of the user's transactions, newest
      first, and no transaction left out of it is newer than one in it. */
  lemma RecentAreNewest(db: Store.Db, uid: nat)
    ensures var sorted := Newest(db, uid);
      var recent := Take(sorted, 10);
      && |recent| <= 10
      && (forall t :: t in recent ==> t in db.transactions && t.userId == uid)
      && Ordering.SortedDesc(recent, DateLe)
      && (forall i, j :: 0 <= i < |recent| <= j < |sorted| ==> sorted[j].date <= recent[i].date)
  {
    var sorted := Newest(db, uid);
    var recent := Take(sorted, 10);
    forall t | t in recent
      ensures t in db.transactions && t.userId == uid
    {
      assert t in multiset(sorted);
    }
  }
}
