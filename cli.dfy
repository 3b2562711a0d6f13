/**
 * The bookkeeping inside the commands of main.py: building a transaction
 * for `add`, choosing the profit or loss notice for `sell`, and the
 * holdings, per-ticker rows and totals of `view`. Prices come from the
 * quote service, modelled as a map: a ticker absent from it is one whose
 * price lookup returned nothing.
 */
module Cli {
  import opened Wrappers
  import opened Ledger
  import opened Text
  import Store

  // ---------------------------------------------------------------------
  // add

  /** The record `add` stores: the ticker upper-cased, the other fields as given. */
  function NewTransaction(ticker: string, shares: int, price: real, date: string): (t: Transaction)
    ensures t.ticker == Upper(ticker) && Upper(t.ticker) == t.ticker
    ensures t.shares == shares && t.price == price && t.date == date
  {
    UpperIdempotent(ticker);
    Transaction(Upper(ticker), shares, price, date)
  }

  /**
   * A transaction added under any spelling of a ticker joins the holding
   * that `sell` and `delete` find under any other spelling of it.
   */
  lemma AddedLotIsFound(ledger: seq<Transaction>, ticker: string, query: string,
                        shares: int, price: real, date: string)
    requires Upper(query) == Upper(ticker)
    ensures var t := NewTransaction(ticker, shares, price, date);
            && ForTicker(ledger + [t], Upper(query)) == ForTicker(ledger, Upper(query)) + [t]
            && Without(ledger + [t], Upper(query)) == Without(ledger, Upper(query))
  {
    var t := NewTransaction(ticker, shares, price, date);
    AddUpdatesHolding(ledger, t);
    WithoutAppend(ledger, [t], t.ticker);
    assert [t][..0] == [];
    assert Without([t], t.ticker) == [];
  }

  /** The `add` command: appends the new transaction to the portfolio. */
  method AddCommand(portfolio: Store.Portfolio, ticker: string, shares: int, price: real, date: string)
    modifies portfolio
    ensures portfolio.LoadedLedger() == old(portfolio.LoadedLedger()) + [NewTransaction(ticker, shares, price, date)]
    ensures portfolio.statsFile == old(portfolio.statsFile)
  {
    var newTransaction := NewTransaction(ticker, shares, price, date);
    portfolio.AddTransaction(newTransaction);
  }

  // ---------------------------------------------------------------------
  // sell

  /** What `sell` reports: a profit or a loss, each as a non-negative amount. */
  datatype SaleNotice = Profit(amount: real) | Loss(amount: real)

  function Signed(notice: SaleNotice): real
  {
    match notice
    case Profit(a) => a
    case Loss(a) => -a
  }

  /**
   * The notice for a sale's result: none when the sale was refused, a
   * profit when the realized P/L is non-negative, otherwise a loss of its
   * magnitude; the signed amount is the realized P/L.
   */
  function SaleNoticeFor(realizedPl: Option<real>): (notice: Option<SaleNotice>)
    ensures notice.None? <==> realizedPl.None?
    ensures notice.Some? ==>
              && notice.value.amount >= 0.0
              && Signed(notice.value) == realizedPl.value
              && (notice.value.Profit? <==> realizedPl.value >= 0.0)
  {
    match realizedPl
    case None => None
    case Some(pl) => if pl >= 0.0 then Some(Profit(pl)) else Some(Loss(-pl))
  }

  /**
   * The `sell` command: performs the sale and picks the notice. A refused
   * sale prints no notice here; the store reports why it refused.
   */
  method SellCommand(portfolio: Store.Portfolio, ticker: string, shares: int, price: real, now: string)
    returns (notice: Option<SaleNotice>, refusal: Option<SaleError>)
    requires SellDefined(portfolio.LoadedLedger(), Upper(ticker), shares)
    modifies portfolio
    ensures var sale := Sell(old(portfolio.LoadedLedger()), Upper(ticker), shares, price, now);
            && (sale.Rejected? ==> notice == None && refusal == Some(sale.error) && unchanged(portfolio))
            && (sale.Sold? ==>
                  && notice == SaleNoticeFor(Some(sale.realizedPl))
                  && refusal == None
                  && portfolio.LoadedLedger() == sale.ledger
                  && portfolio.RealizedPl() == old(portfolio.RealizedPl()) + sale.realizedPl)
  {
    var realizedPl;
    realizedPl, refusal := portfolio.SellShares(ticker, shares, price, now);
    notice := SaleNoticeFor(realizedPl);
  }

  // ---------------------------------------------------------------------
  // view: holdings

  /** Aggregated holding of one ticker: summed shares and summed shares times price. */
  datatype Holding = Holding(shares: int, totalCost: real)

  /** The holding of ticker `k` as the ledger's lots define it. */
  function HoldingOf(s: seq<Transaction>, k: string): Holding
  {
    Holding(TotalShares(ForTicker(s, k)), TotalCost(ForTicker(s, k)))
  }

  /** Whether `h` holds, for exactly the tickers of `s`, their aggregated holdings. */
  predicate AggregatesOf(h: map<string, Holding>, s: seq<Transaction>)
  {
    && h.Keys == Tickers(s)
    && forall k :: k in h ==> h[k] == HoldingOf(s, k)
  }

  lemma TickersAppend(s: seq<Transaction>, x: Transaction)
    ensures Tickers(s + [x]) == Tickers(s) + {x.ticker}
  {
    assert forall y :: y in s + [x] <==> y in s || y == x;
  }

  /** The holdings of every ticker of the ledger. */
  function Holdings(s: seq<Transaction>): (h: map<string, Holding>)
    ensures AggregatesOf(h, s)
  {
    map k | k in Tickers(s) :: HoldingOf(s, k)
  }

  /** The aggregate of a ledger is unique: it is the map of every ticker to its holding. */
  lemma AggregateUnique(h: map<string, Holding>, s: seq<Transaction>)
    requires AggregatesOf(h, s)
    ensures h == Holdings(s)
  {
    var g := Holdings(s);
    assert h.Keys == g.Keys;
    forall k | k in h ensures h[k] == g[k] {
    }
  }

  /**
   * One step of the aggregation loop: the lot's shares and cost are added
   * to its ticker's entry, which starts from zero shares and zero cost when
   * the ticker is new (the default entry of the holdings dictionary).
   */
  function Fold(h: map<string, Holding>, t: Transaction): map<string, Holding>
  {
    var info := if t.ticker in h then h[t.ticker] else Holding(0, 0.0);
    h[t.ticker := Holding(info.shares + t.shares, info.totalCost + LotCost(t))]
  }

  /** Folding a lot in adds its ticker to the keys. */
  lemma FoldKeys(h: map<string, Holding>, s: seq<Transaction>, t: Transaction)
    requires h.Keys == Tickers(s)
    ensures Fold(h, t).Keys == Tickers(s + [t])
  {
    TickersAppend(s, t);
  }

  /** Folding a lot in leaves the other tickers' holdings as they are in the longer ledger. */
  lemma FoldOther(h: map<string, Holding>, s: seq<Transaction>, t: Transaction, k: string)
    requires k != t.ticker && k in h && h[k] == HoldingOf(s, k)
    ensures Fold(h, t)[k] == HoldingOf(s + [t], k)
  {
    AddUpdatesHolding(s, t);
  }

  /** Folding a lot of a ticker already seen adds to its shares and cost. */
  lemma FoldHeld(h: map<string, Holding>, s: seq<Transaction>, t: Transaction)
    requires t.ticker in h && h[t.ticker] == HoldingOf(s, t.ticker)
    ensures Fold(h, t)[t.ticker] == HoldingOf(s + [t], t.ticker)
  {
    AddUpdatesHolding(s, t);
  }

  /** Folding a lot of a new ticker starts it from zero shares and zero cost. */
  lemma FoldNew(h: map<string, Holding>, s: seq<Transaction>, t: Transaction)
    requires t.ticker !in h && t.ticker !in Tickers(s)
    ensures Fold(h, t)[t.ticker] == HoldingOf(s + [t], t.ticker)
  {
    AddUpdatesHolding(s, t);
    ForTickerEmpty(s, t.ticker);
  }

  /** Folding a lot in gives every ticker the holding it has in the longer ledger. */
  lemma FoldEntry(h: map<string, Holding>, s: seq<Transaction>, t: Transaction, k: string)
    requires AggregatesOf(h, s)
    requires k == t.ticker || k in h
    ensures k in Fold(h, t) && Fold(h, t)[k] == HoldingOf(s + [t], k)
  {
    if k != t.ticker {
      FoldOther(h, s, t, k);
    } else if k in h {
      FoldHeld(h, s, t);
    } else {
      FoldNew(h, s, t);
    }
  }

  /** Folding one more lot into the aggregate of a ledger gives the aggregate of the longer ledger. */
  lemma AggregateStep(h: map<string, Holding>, s: seq<Transaction>, t: Transaction)
    requires AggregatesOf(h, s)
    ensures AggregatesOf(Fold(h, t), s + [t])
  {
    FoldKeys(h, s, t);
    forall k | k in Fold(h, t) ensures Fold(h, t)[k] == HoldingOf(s + [t], k) {
      FoldEntry(h, s, t, k);
    }
  }

  /** The loop step of `AggregateHoldings`, stated on the ledger and an index into it. */
  lemma AggregateNext(h: map<string, Holding>, s: seq<Transaction>, i: int)
    requires 0 <= i < |s| && AggregatesOf(h, s[..i])
    ensures AggregatesOf(Fold(h, s[i]), s[..i + 1])
  {
    assert s[..i + 1] == s[..i] + [s[i]];
    AggregateStep(h, s[..i], s[i]);
  }

  /** Builds the holdings map in one pass over the ledger, as `view` does. */
  method AggregateHoldings(transactions: seq<Transaction>) returns (holdings: map<string, Holding>)
    ensures AggregatesOf(holdings, transactions)
  {
    holdings := map[];
    var i := 0;
    while i < |transactions|
      invariant 0 <= i <= |transactions|
      invariant AggregatesOf(holdings, transactions[..i])
    {
      var t := transactions[i];
      AggregateNext(holdings, transactions, i);
      holdings := Fold(holdings, t);
      i := i + 1;
    }
    assert transactions[..i] == transactions;
  }

  /** The keys of the holdings map in ascending order, as `sorted` returns them. */
  method SortedTickers(keys: set<string>) returns (sorted: seq<string>)
    ensures StrictlySorted(sorted)
    ensures forall k :: k in sorted <==> k in keys
  {
    sorted := [];
    var rest := keys;
    while rest != {}
      invariant StrictlySorted(sorted)
      invariant forall k :: k in sorted <==> k in keys && k !in rest
      invariant rest <= keys
      decreases rest
    {
      var k :| k in rest;
      sorted := Insert(sorted, k);
      rest := rest - {k};
    }
  }

  // ---------------------------------------------------------------------
  // view: rows and totals

  /** One row of the summary table; the price-dependent cells are absent without a price. */
  datatype Row = Row(ticker: string, shares: int, avgCost: real, totalCost: real,
                     price: Option<real>, marketValue: Option<real>, gainLoss: Option<real>)

  /** What `view` reports: the stored realized P/L, one row per ticker, and the totals. */
  datatype Report = Report(realizedPl: real, rows: seq<Row>, totalCostBasis: real,
                           totalMarketValue: real, totalUnrealizedPl: real)

  /**
   * The row of one ticker: average cost is total cost over shares; with a
   * price, market value is shares at that price and the gain is market
   * value less total cost.
   */
  function RowFor(ticker: string, info: Holding, prices: map<string, real>): (r: Row)
    requires info.shares != 0
    ensures r.ticker == ticker && r.shares == info.shares && r.totalCost == info.totalCost
    ensures r.avgCost * info.shares as real == info.totalCost
    ensures r.price.Some? <==> ticker in prices
    ensures r.marketValue.Some? <==> ticker in prices
    ensures r.gainLoss.Some? <==> ticker in prices
    ensures ticker in prices ==>
              && r.price == Some(prices[ticker])
              && r.marketValue == Some(Value(info.shares, prices[ticker]))
              && r.gainLoss == Some(r.marketValue.value - info.totalCost)
  {
    var avgCost := info.totalCost / info.shares as real;
    if ticker in prices then
      var marketValue := Value(info.shares, prices[ticker]);
      Row(ticker, info.shares, avgCost, info.totalCost, Some(prices[ticker]), Some(marketValue),
          Some(marketValue - info.totalCost))
    else
      Row(ticker, info.shares, avgCost, info.totalCost, None, None, None)
  }

  /** Sum of the tickers' total costs: every ticker counts, priced or not. */
  function CostBasis(h: map<string, Holding>, tickers: seq<string>): real
    requires forall k :: k in tickers ==> k in h
  {
    if tickers == [] then 0.0
    else CostBasis(h, tickers[..|tickers| - 1]) + h[tickers[|tickers| - 1]].totalCost
  }

  /** Sum of the market values of the tickers that have a price; the others add nothing. */
  function MarketValue(h: map<string, Holding>, tickers: seq<string>, prices: map<string, real>): real
    requires forall k :: k in tickers ==> k in h
  {
    if tickers == [] then 0.0
    else
      var k := tickers[|tickers| - 1];
      MarketValue(h, tickers[..|tickers| - 1], prices) + (if k in prices then Value(h[k].shares, prices[k]) else 0.0)
  }

  /**
   * Per-ticker contribution to unrealized P/L: the gain of a priced ticker,
   * and minus the whole cost of a ticker without a price.
   */
  function Unrealized(h: map<string, Holding>, tickers: seq<string>, prices: map<string, real>): real
    requires forall k :: k in tickers ==> k in h
  {
    if tickers == [] then 0.0
    else
      var k := tickers[|tickers| - 1];
      Unrealized(h, tickers[..|tickers| - 1], prices)
        + (if k in prices then Value(h[k].shares, prices[k]) - h[k].totalCost else -h[k].totalCost)
  }

  /**
   * Total unrealized P/L (market value less cost basis) is the sum of the
   * priced tickers' gains, less the cost of every ticker that has no price.
   */
  lemma {:induction false} UnrealizedSplits(h: map<string, Holding>, tickers: seq<string>, prices: map<string, real>)
    requires forall k :: k in tickers ==> k in h
    ensures MarketValue(h, tickers, prices) - CostBasis(h, tickers) == Unrealized(h, tickers, prices)
  {
    if tickers != [] {
      UnrealizedSplits(h, tickers[..|tickers| - 1], prices);
    }
  }

  lemma NoTickersNoLots(s: seq<Transaction>)
    ensures s == [] <==> Tickers(s) == {}
  {
    if s != [] {
      assert s[0].ticker in Tickers(s);
    }
  }

  /** Whether no ticker occurs twice. */
  predicate Distinct(tickers: seq<string>)
  {
    forall i, j :: 0 <= i < j < |tickers| ==> tickers[i] != tickers[j]
  }

  /**
   * Summing the aggregated costs over the distinct tickers of the ledger
   * gives the cost of the whole ledger, lot by lot.
   */
  lemma {:induction false} CostBasisIsLedgerCost(h: map<string, Holding>, tickers: seq<string>, s: seq<Transaction>)
    requires Distinct(tickers)
    requires forall k :: k in tickers <==> k in Tickers(s)
    requires forall k :: k in tickers ==> k in h && h[k].totalCost == TotalCost(ForTicker(s, k))
    ensures CostBasis(h, tickers) == TotalCost(s)
  {
    if tickers == [] {
      NoTickersNoLots(s);
    } else {
      var prefix, k := tickers[..|tickers| - 1], tickers[|tickers| - 1];
      var rest := Without(s, k);
      TickersWithout(s, k);
      forall j | j in prefix
        ensures j != k && h[j].totalCost == TotalCost(ForTicker(rest, j))
      {
        var i :| 0 <= i < |prefix| && prefix[i] == j;
        assert tickers[i] == j;
        ForTickerWithout(s, k, j);
      }
      forall j ensures j in prefix <==> j in Tickers(rest) {
        if j in tickers && j != k {
          var i :| 0 <= i < |tickers| && tickers[i] == j;
          assert i < |tickers| - 1;
          assert prefix[i] == j;
        }
      }
      CostBasisIsLedgerCost(h, prefix, rest);
      TotalCostSplit(s, k);
    }
  }

  /** Walks the sorted tickers, one row each, accumulating the totals as `view` does. */
  method Totals(holdings: map<string, Holding>, tickers: seq<string>, prices: map<string, real>)
    returns (rows: seq<Row>, lookups: seq<string>, totalMarketValue: real, totalCostBasis: real)
    requires forall k :: k in tickers ==> k in holdings && holdings[k].shares != 0
    ensures |rows| == |tickers|
    ensures forall i :: 0 <= i < |tickers| ==> rows[i] == RowFor(tickers[i], holdings[tickers[i]], prices)
    ensures lookups == tickers
    ensures totalCostBasis == CostBasis(holdings, tickers)
    ensures totalMarketValue == MarketValue(holdings, tickers, prices)
  {
    rows, lookups := [], [];
    totalMarketValue, totalCostBasis := 0.0, 0.0;
    for i := 0 to |tickers|
      invariant |rows| == i && lookups == tickers[..i]
      invariant forall j :: 0 <= j < i ==> rows[j] == RowFor(tickers[j], holdings[tickers[j]], prices)
      invariant totalCostBasis == CostBasis(holdings, tickers[..i])
      invariant totalMarketValue == MarketValue(holdings, tickers[..i], prices)
    {
      var ticker := tickers[i];
      var info := holdings[ticker];
      lookups := lookups + [ticker];
      var currentPrice := if ticker in prices then Some(prices[ticker]) else None;
      var shares, totalCost := info.shares, info.totalCost;
      var avgCost := totalCost / shares as real;
      totalCostBasis := totalCostBasis + totalCost;
      var marketValue, gainLoss := None, None;
      if currentPrice.Some? {
        var value := Value(shares, currentPrice.value);
        totalMarketValue := totalMarketValue + value;
        marketValue, gainLoss := Some(value), Some(value - totalCost);
      }
      rows := rows + [Row(ticker, shares, avgCost, totalCost, currentPrice, marketValue, gainLoss)];
      assert tickers[..i + 1][..i] == tickers[..i];
    }
    assert tickers[..|tickers|] == tickers;
  }

  /**
   * The summary gets through every ticker without dividing by zero: no
   * ticker's shares sum to zero. Always so when every lot is positive.
   */
  predicate ViewDefined(s: seq<Transaction>)
  {
    forall k :: k in Tickers(s) ==> TotalShares(ForTicker(s, k)) != 0
  }

  /** Positive lots never make the summary divide by zero. */
  lemma PositiveLotsViewDefined(s: seq<Transaction>)
    requires PositiveLots(s)
    ensures ViewDefined(s)
  {
    forall k | k in Tickers(s) ensures TotalShares(ForTicker(s, k)) != 0 {
      HeldTickerShares(s, k);
    }
  }

  /**
   * The `view` command. An empty ledger stops before any aggregation or
   * price lookup. Otherwise prices are looked up once per distinct ticker,
   * in ascending order; each row carries the ticker's aggregated holding;
   * the cost basis is the cost of the whole ledger whether or not prices
   * were found; and the unrealized P/L is market value less cost basis.
   */
  method ViewCommand(ledgerFile: Store.LedgerFile, statsFile: Store.StatsFile, prices: map<string, real>)
    returns (report: Option<Report>, lookups: seq<string>)
    requires ViewDefined(Store.LoadPortfolio(ledgerFile))
    ensures var ledger := Store.LoadPortfolio(ledgerFile);
            && (ledger == [] <==> report == None)
            && (ledger == [] ==> lookups == [])
    ensures var ledger := Store.LoadPortfolio(ledgerFile);
            report.Some? ==>
              && StrictlySorted(lookups)
              && (forall k :: k in lookups <==> k in Tickers(ledger))
              && var r := report.value;
              && r.realizedPl == Store.LoadStats(statsFile)
              && |r.rows| == |lookups|
              && (forall i :: 0 <= i < |lookups| ==>
                    && HoldingOf(ledger, lookups[i]).shares != 0
                    && r.rows[i] == RowFor(lookups[i], HoldingOf(ledger, lookups[i]), prices))
              && r.totalCostBasis == TotalCost(ledger)
              && r.totalCostBasis == CostBasis(Holdings(ledger), lookups)
              && r.totalMarketValue == MarketValue(Holdings(ledger), lookups, prices)
              && r.totalUnrealizedPl == r.totalMarketValue - r.totalCostBasis
              && r.totalUnrealizedPl ==
                   Unrealized(Holdings(ledger), lookups, prices)
  {
    var transactions := Store.LoadPortfolio(ledgerFile);
    var realizedPl := Store.LoadStats(statsFile);
    if transactions == [] {
      return None, [];
    }
    var holdings := AggregateHoldings(transactions);
    var uniqueTickers := SortedTickers(holdings.Keys);
    var rows, totalMarketValue, totalCostBasis;
    rows, lookups, totalMarketValue, totalCostBasis := Totals(holdings, uniqueTickers, prices);
    var totalUnrealizedPl := totalMarketValue - totalCostBasis;
    report := Some(Report(realizedPl, rows, totalCostBasis, totalMarketValue, totalUnrealizedPl));

    assert Distinct(uniqueTickers) by {
      forall i, j | 0 <= i < j < |uniqueTickers| ensures uniqueTickers[i] != uniqueTickers[j] {
        LessIrreflexive(uniqueTickers[i]);
      }
    }
    CostBasisIsLedgerCost(holdings, uniqueTickers, transactions);
    UnrealizedSplits(holdings, uniqueTickers, prices);
    AggregateUnique(holdings, transactions);
  }
}
