/**
 * The average-cost accounting engine over a transaction ledger: the list
 * comprehensions and sums of portfolio.py, and the sale it performs.
 * Sequences are read from the back (a sequence is its prefix plus its last
 * element), the order in which Python's `sum` and the CLI's loops fold them.
 */
module Ledger {

  /** One lot: a purchase, or the consolidated remainder of a sale. */
  datatype Transaction = Transaction(ticker: string, shares: int, price: real, date: string)

  /** Why a sale is refused; in both cases nothing is written. */
  datatype SaleError = NoHoldings | InsufficientShares(owned: int)

  /** The outcome of a sale: the signed profit or loss and the new ledger. */
  datatype Sale = Rejected(error: SaleError) | Sold(realizedPl: real, ledger: seq<Transaction>)

  /** Every stored lot holds a positive number of shares. */
  predicate PositiveLots(s: seq<Transaction>)
  {
    forall x :: x in s ==> x.shares > 0
  }

  /** The distinct tickers that occur in the ledger. */
  function Tickers(s: seq<Transaction>): set<string>
  {
    set x | x in s :: x.ticker
  }

  /** The lots of ticker `k`, in ledger order. */
  function ForTicker(s: seq<Transaction>, k: string): (r: seq<Transaction>)
    ensures PositiveLots(s) ==> PositiveLots(r)
  {
    if s == [] then [] else ForTicker(s[..|s| - 1], k) + (if s[|s| - 1].ticker == k then [s[|s| - 1]] else [])
  }

  /** The ledger with every lot of ticker `k` removed, in ledger order. */
  function Without(s: seq<Transaction>, k: string): seq<Transaction>
  {
    if s == [] then [] else Without(s[..|s| - 1], k) + (if s[|s| - 1].ticker != k then [s[|s| - 1]] else [])
  }

  /** Sum of the lots' shares; with positive lots, at least one per lot. */
  function TotalShares(s: seq<Transaction>): (n: int)
    ensures PositiveLots(s) ==> n >= |s|
  {
    if s == [] then 0
    else
      var p := s[..|s| - 1];
      assert PositiveLots(s) ==> PositiveLots(p) by {
        assert forall x :: x in p ==> x in s;
      }
      TotalShares(p) + s[|s| - 1].shares
  }

  /** The value of a number of shares at a price per share. */
  function Value(shares: int, price: real): real
  {
    shares as real * price
  }

  /** What a lot cost: its shares times its price. */
  function LotCost(x: Transaction): real
  {
    Value(x.shares, x.price)
  }

  /** Sum of shares times price over the lots. */
  function TotalCost(s: seq<Transaction>): real
  {
    if s == [] then 0.0 else TotalCost(s[..|s| - 1]) + LotCost(s[|s| - 1])
  }

  /** Average cost basis: the share-weighted mean price of the lots. */
  function AvgCost(lots: seq<Transaction>): real
    requires TotalShares(lots) != 0
  {
    TotalCost(lots) / TotalShares(lots) as real
  }

  /** The lot that replaces a ticker's lots after a sale, or none when nothing remains. */
  function Consolidate(t: string, remaining: int, avgCost: real, date: string): (r: seq<Transaction>)
    ensures |r| <= 1 && PositiveLots(r)
    ensures r != [] <==> remaining > 0
    ensures forall x :: x in r ==> x == Transaction(t, remaining, avgCost, date)
  {
    if remaining > 0 then [Transaction(t, remaining, avgCost, date)] else []
  }

  /**
   * The sale of `n` shares of `t` gets as far as the average cost without
   * dividing by zero: it is refused before that point, or the ticker's
   * shares do not sum to zero. Always so when every lot is positive.
   */
  predicate SellDefined(ledger: seq<Transaction>, t: string, n: int)
  {
    var lots := ForTicker(ledger, t);
    lots != [] && n <= TotalShares(lots) ==> TotalShares(lots) != 0
  }

  /**
   * Selling `n` shares of ticker `t` (already upper-cased) at `price`:
   * refused when `t` has no lots or fewer than `n` shares; otherwise the
   * profit or loss against the average cost, and the ledger with `t`'s lots
   * replaced by at most one consolidated lot at that average cost.
   */
  function Sell(ledger: seq<Transaction>, t: string, n: int, price: real, now: string): (sale: Sale)
    requires SellDefined(ledger, t, n)
  {
    var lots := ForTicker(ledger, t);
    if lots == [] then Rejected(NoHoldings)
    else if n > TotalShares(lots) then Rejected(InsufficientShares(TotalShares(lots)))
    else
      var avg := AvgCost(lots);
      Sold(Value(n, price - avg), Without(ledger, t) + Consolidate(t, TotalShares(lots) - n, avg, now))
  }

  // ---------------------------------------------------------------------
  // Filtering

  /** The filter keeps exactly the lots of ticker `k`. */
  lemma {:induction false} ForTickerMembers(s: seq<Transaction>, k: string)
    ensures forall x :: x in ForTicker(s, k) <==> x in s && x.ticker == k
  {
    if s != [] {
      var p := s[..|s| - 1];
      assert s == p + [s[|s| - 1]];
      ForTickerMembers(p, k);
    }
  }

  /** The removal keeps exactly the lots of tickers other than `k`. */
  lemma {:induction false} WithoutMembers(s: seq<Transaction>, k: string)
    ensures forall x :: x in Without(s, k) <==> x in s && x.ticker != k
  {
    if s != [] {
      var p := s[..|s| - 1];
      assert s == p + [s[|s| - 1]];
      WithoutMembers(p, k);
    }
  }

  lemma ForTickerEmpty(s: seq<Transaction>, k: string)
    ensures ForTicker(s, k) == [] <==> k !in Tickers(s)
  {
    ForTickerMembers(s, k);
    if ForTicker(s, k) != [] {
      assert ForTicker(s, k)[0] in ForTicker(s, k);
    }
  }

  lemma {:induction false} ForTickerAppend(a: seq<Transaction>, b: seq<Transaction>, k: string)
    ensures ForTicker(a + b, k) == ForTicker(a, k) + ForTicker(b, k)
  {
    if b != [] {
      var p, x := b[..|b| - 1], b[|b| - 1];
      assert (a + b)[..|a + b| - 1] == a + p;
      ForTickerAppend(a, p, k);
    } else {
      assert a + b == a;
    }
  }

  lemma {:induction false} WithoutAppend(a: seq<Transaction>, b: seq<Transaction>, k: string)
    ensures Without(a + b, k) == Without(a, k) + Without(b, k)
  {
    if b != [] {
      var p, x := b[..|b| - 1], b[|b| - 1];
      assert (a + b)[..|a + b| - 1] == a + p;
      WithoutAppend(a, p, k);
    } else {
      assert a + b == a;
    }
  }

  /** Lots of ticker `k` and lots of other tickers together make up the ledger. */
  lemma {:induction false} PartitionSize(s: seq<Transaction>, k: string)
    ensures |ForTicker(s, k)| + |Without(s, k)| == |s|
  {
    if s != [] {
      PartitionSize(s[..|s| - 1], k);
    }
  }

  /** Removing a ticker that is absent leaves the ledger as it was. */
  lemma {:induction false} WithoutAbsent(s: seq<Transaction>, k: string)
    requires k !in Tickers(s)
    ensures Without(s, k) == s
  {
    if s != [] {
      var p := s[..|s| - 1];
      assert s == p + [s[|s| - 1]];
      assert k !in Tickers(p) by {
        assert forall x :: x in p ==> x in s;
      }
      WithoutAbsent(p, k);
    }
  }

  /** Removal shortens the ledger exactly when the ticker occurs in it. */
  lemma WithoutShrinks(s: seq<Transaction>, k: string)
    ensures |Without(s, k)| < |s| <==> k in Tickers(s)
  {
    PartitionSize(s, k);
    ForTickerEmpty(s, k);
  }

  /** After a removal the ticker no longer occurs, and every other ticker still does. */
  lemma TickersWithout(s: seq<Transaction>, k: string)
    ensures Tickers(Without(s, k)) == Tickers(s) - {k}
  {
    WithoutMembers(s, k);
    forall u | u in Tickers(s) - {k} ensures u in Tickers(Without(s, k)) {
      var x :| x in s && x.ticker == u;
      assert x in Without(s, k);
    }
  }

  /** A second removal of the same ticker finds nothing and changes nothing. */
  lemma WithoutTwice(s: seq<Transaction>, k: string)
    ensures k !in Tickers(Without(s, k))
    ensures Without(Without(s, k), k) == Without(s, k)
  {
    TickersWithout(s, k);
    WithoutAbsent(Without(s, k), k);
  }

  /** A held ticker has a positive number of shares in total. */
  lemma HeldTickerShares(s: seq<Transaction>, k: string)
    requires PositiveLots(s) && k in Tickers(s)
    ensures TotalShares(ForTicker(s, k)) > 0
  {
    ForTickerEmpty(s, k);
  }

  /** With positive lots no sale divides by zero. */
  lemma PositiveSellDefined(ledger: seq<Transaction>, t: string, n: int)
    requires PositiveLots(ledger)
    ensures SellDefined(ledger, t, n)
  {
  }

  /** Removing one ticker does not touch the lots of another. */
  lemma {:induction false} ForTickerWithout(s: seq<Transaction>, k: string, other: string)
    requires other != k
    ensures ForTicker(Without(s, k), other) == ForTicker(s, other)
  {
    if s != [] {
      var p, x := s[..|s| - 1], s[|s| - 1];
      ForTickerWithout(p, k, other);
      ForTickerAppend(Without(p, k), if x.ticker != k then [x] else [], other);
      assert [x][..0] == [];
    }
  }

  // ---------------------------------------------------------------------
  // Sums

  lemma TotalSharesAppend(a: seq<Transaction>, b: seq<Transaction>)
    ensures TotalShares(a + b) == TotalShares(a) + TotalShares(b)
  {
    if b != [] {
      assert (a + b)[..|a + b| - 1] == a + b[..|b| - 1];
      TotalSharesAppend(a, b[..|b| - 1]);
    } else {
      assert a + b == a;
    }
  }

  lemma TotalCostAppend(a: seq<Transaction>, b: seq<Transaction>)
    ensures TotalCost(a + b) == TotalCost(a) + TotalCost(b)
  {
    if b != [] {
      assert (a + b)[..|a + b| - 1] == a + b[..|b| - 1];
      TotalCostAppend(a, b[..|b| - 1]);
    } else {
      assert a + b == a;
    }
  }

  /** The ledger's cost splits into the cost of one ticker and the cost of the rest. */
  lemma {:induction false} TotalCostSplit(s: seq<Transaction>, k: string)
    ensures TotalCost(s) == TotalCost(ForTicker(s, k)) + TotalCost(Without(s, k))
  {
    if s != [] {
      var p, x := s[..|s| - 1], s[|s| - 1];
      TotalCostSplit(p, k);
      TotalCostAppend(ForTicker(p, k), if x.ticker == k then [x] else []);
      TotalCostAppend(Without(p, k), if x.ticker != k then [x] else []);
      assert TotalCost([x]) == LotCost(x) by {
        assert [x][..0] == [];
      }
    }
  }

  // ---------------------------------------------------------------------
  // Adding a lot

  /**
   * Appending a purchase adds its shares and cost to its ticker's holding
   * (so the average cost is recomputed over all lots) and leaves every
   * other ticker's lots as they were.
   */
  lemma AddUpdatesHolding(s: seq<Transaction>, x: Transaction)
    ensures ForTicker(s + [x], x.ticker) == ForTicker(s, x.ticker) + [x]
    ensures TotalShares(ForTicker(s + [x], x.ticker)) == TotalShares(ForTicker(s, x.ticker)) + x.shares
    ensures TotalCost(ForTicker(s + [x], x.ticker)) == TotalCost(ForTicker(s, x.ticker)) + LotCost(x)
    ensures forall k :: k != x.ticker ==> ForTicker(s + [x], k) == ForTicker(s, k)
  {
    assert (s + [x])[..|s|] == s;
    TotalSharesAppend(ForTicker(s, x.ticker), [x]);
    TotalCostAppend(ForTicker(s, x.ticker), [x]);
    assert [x][..0] == [];
  }

  /** Stored shares stay positive when the appended lot's shares are positive. */
  lemma AddKeepsPositive(s: seq<Transaction>, x: Transaction)
    requires PositiveLots(s) && x.shares > 0
    ensures PositiveLots(s + [x])
  {
  }

  // ---------------------------------------------------------------------
  // Selling

  /** A sale is refused exactly when the ticker is not held, or is held with too few shares. */
  lemma SellRejects(ledger: seq<Transaction>, t: string, n: int, price: real, now: string)
    requires SellDefined(ledger, t, n)
    ensures Sell(ledger, t, n, price, now) == Rejected(NoHoldings) <==> t !in Tickers(ledger)
    ensures Sell(ledger, t, n, price, now).Rejected? <==>
              t !in Tickers(ledger) || n > TotalShares(ForTicker(ledger, t))
  {
    ForTickerEmpty(ledger, t);
  }

  /** A sale realises the per-share gain over the average cost, times the shares sold. */
  lemma SellProfit(ledger: seq<Transaction>, t: string, n: int, price: real, now: string)
    requires SellDefined(ledger, t, n)
    requires Sell(ledger, t, n, price, now).Sold?
    ensures TotalShares(ForTicker(ledger, t)) != 0
    ensures PositiveLots(ledger) ==> TotalShares(ForTicker(ledger, t)) > 0
    ensures Sell(ledger, t, n, price, now).realizedPl == Value(n, price - AvgCost(ForTicker(ledger, t)))
  {
  }

  /**
   * What a completed sale is: the ticker is held with at least `n` shares
   * summing to a non-zero total, and the sale yields the P/L against the
   * average cost and the other tickers' lots followed by the consolidated lot.
   */
  lemma SellSold(ledger: seq<Transaction>, t: string, n: int, price: real, now: string)
    requires SellDefined(ledger, t, n)
    requires Sell(ledger, t, n, price, now).Sold?
    ensures var lots := ForTicker(ledger, t);
            && lots != [] && n <= TotalShares(lots) && TotalShares(lots) != 0
            && Sell(ledger, t, n, price, now).realizedPl == Value(n, price - AvgCost(lots))
            && Sell(ledger, t, n, price, now).ledger ==
                 Without(ledger, t) + Consolidate(t, TotalShares(lots) - n, AvgCost(lots), now)
  {
  }

  /** The consolidated lot is a lot of its own ticker and of no other. */
  lemma ConsolidateForTicker(t: string, remaining: int, avgCost: real, date: string, k: string)
    ensures var c := Consolidate(t, remaining, avgCost, date);
            ForTicker(c, k) == if k == t then c else []
  {
    var c := Consolidate(t, remaining, avgCost, date);
    if c != [] {
      assert c[..0] == [];
    }
  }

  /** SellProfit, with the average cost given by name. */
  lemma SellProfitAt(ledger: seq<Transaction>, t: string, n: int, price: real, now: string, avg: real)
    requires SellDefined(ledger, t, n)
    requires Sell(ledger, t, n, price, now).Sold?
    requires TotalShares(ForTicker(ledger, t)) != 0 && AvgCost(ForTicker(ledger, t)) == avg
    ensures Sell(ledger, t, n, price, now).realizedPl == Value(n, price - avg)
  {
  }

  /** The lots of the sold ticker after a sale: at most the one consolidated lot. */
  lemma SellConsolidates(ledger: seq<Transaction>, t: string, n: int, price: real, now: string)
    requires SellDefined(ledger, t, n)
    requires Sell(ledger, t, n, price, now).Sold?
    ensures TotalShares(ForTicker(ledger, t)) != 0 && n <= TotalShares(ForTicker(ledger, t))
    ensures PositiveLots(ledger) ==> 0 < TotalShares(ForTicker(ledger, t))
    ensures ForTicker(Sell(ledger, t, n, price, now).ledger, t) ==
              Consolidate(t, TotalShares(ForTicker(ledger, t)) - n, AvgCost(ForTicker(ledger, t)), now)
  {
    var lots := ForTicker(ledger, t);
    SellSold(ledger, t, n, price, now);
    var rest := Consolidate(t, TotalShares(lots) - n, AvgCost(lots), now);
    ForTickerAppend(Without(ledger, t), rest, t);
    assert ForTicker(Without(ledger, t), t) == [] by {
      TickersWithout(ledger, t);
      ForTickerEmpty(Without(ledger, t), t);
    }
    ConsolidateForTicker(t, TotalShares(lots) - n, AvgCost(lots), now, t);
  }

  /** A sale leaves the lots of every other ticker as they were, in order. */
  lemma SellLeavesOtherTickers(ledger: seq<Transaction>, t: string, n: int, price: real, now: string, k: string)
    requires SellDefined(ledger, t, n)
    requires Sell(ledger, t, n, price, now).Sold?
    requires k != t
    ensures ForTicker(Sell(ledger, t, n, price, now).ledger, k) == ForTicker(ledger, k)
  {
    var lots := ForTicker(ledger, t);
    SellSold(ledger, t, n, price, now);
    var rest := Consolidate(t, TotalShares(lots) - n, AvgCost(lots), now);
    ForTickerAppend(Without(ledger, t), rest, k);
    ForTickerWithout(ledger, t, k);
    ConsolidateForTicker(t, TotalShares(lots) - n, AvgCost(lots), now, k);
  }

  /**
   * A sale conserves shares and cost basis: the ticker keeps exactly the
   * unsold shares, valued at the old average cost.
   */
  lemma SellConservesHolding(ledger: seq<Transaction>, t: string, n: int, price: real, now: string)
    requires SellDefined(ledger, t, n)
    requires Sell(ledger, t, n, price, now).Sold?
    ensures var lots := ForTicker(ledger, t);
            var after := ForTicker(Sell(ledger, t, n, price, now).ledger, t);
            && TotalShares(after) == TotalShares(lots) - n
            && TotalCost(after) == Value(TotalShares(lots) - n, AvgCost(lots))
  {
    SellConsolidates(ledger, t, n, price, now);
    var lots := ForTicker(ledger, t);
    ConsolidateTotals(t, TotalShares(lots) - n, AvgCost(lots), now);
  }

  /** The consolidated lot holds the remaining shares at the given cost per share. */
  lemma ConsolidateTotals(t: string, remaining: int, avgCost: real, date: string)
    requires remaining >= 0
    ensures TotalShares(Consolidate(t, remaining, avgCost, date)) == remaining
    ensures TotalCost(Consolidate(t, remaining, avgCost, date)) == Value(remaining, avgCost)
  {
    if remaining > 0 {
      var lot := Transaction(t, remaining, avgCost, date);
      assert [lot][..0] == [];
      assert TotalCost([lot]) == LotCost(lot);
    }
  }

  lemma DivideOut(n: int, a: real)
    requires n > 0
    ensures Value(n, a) / n as real == a
  {
  }

  lemma Distribute(n1: int, n2: int, a: real)
    ensures Value(n1, a) + Value(n2, a) == Value(n1 + n2, a)
  {
  }

  /** The average cost of what remains after a sale is the average cost before it. */
  lemma SellKeepsAverageCost(ledger: seq<Transaction>, t: string, n: int, price: real, now: string)
    requires SellDefined(ledger, t, n)
    requires Sell(ledger, t, n, price, now).Sold?
    requires n < TotalShares(ForTicker(ledger, t))
    ensures var after := ForTicker(Sell(ledger, t, n, price, now).ledger, t);
            TotalShares(after) > 0 && AvgCost(after) == AvgCost(ForTicker(ledger, t))
  {
    SellSold(ledger, t, n, price, now);
    var lots := ForTicker(ledger, t);
    RemainderAverage(Sell(ledger, t, n, price, now).ledger, ledger, t,
                     TotalShares(lots) - n, AvgCost(lots), now);
  }

  /**
   * A ledger of the other tickers' lots followed by a consolidated lot of
   * some shares: the ticker's average cost there is the consolidated cost.
   */
  lemma RemainderAverage(sold: seq<Transaction>, ledger: seq<Transaction>, t: string,
                         remaining: int, avgCost: real, date: string)
    requires remaining > 0
    requires sold == Without(ledger, t) + Consolidate(t, remaining, avgCost, date)
    ensures TotalShares(ForTicker(sold, t)) > 0 && AvgCost(ForTicker(sold, t)) == avgCost
  {
    var c := Consolidate(t, remaining, avgCost, date);
    TickersWithout(ledger, t);
    ForTickerEmpty(Without(ledger, t), t);
    ForTickerAppend(Without(ledger, t), c, t);
    ConsolidateForTicker(t, remaining, avgCost, date, t);
    ConsolidateAverage(ForTicker(sold, t), t, remaining, avgCost, date);
  }

  /** A consolidated lot of some shares has the cost per share it was given as its average cost. */
  lemma ConsolidateAverage(c: seq<Transaction>, t: string, remaining: int, avgCost: real, date: string)
    requires remaining > 0
    requires c == Consolidate(t, remaining, avgCost, date)
    ensures TotalShares(c) > 0 && AvgCost(c) == avgCost
  {
    ConsolidateTotals(t, remaining, avgCost, date);
    DivideOut(remaining, avgCost);
  }

  /**
   * Selling every share leaves no lot of the ticker behind (no zero-share
   * residue), a partial sale leaves one; positive stored shares stay positive.
   */
  lemma SellResidue(ledger: seq<Transaction>, t: string, n: int, price: real, now: string)
    requires SellDefined(ledger, t, n)
    requires Sell(ledger, t, n, price, now).Sold?
    ensures var after := Sell(ledger, t, n, price, now).ledger;
            && (t in Tickers(after) <==> n < TotalShares(ForTicker(ledger, t)))
            && (PositiveLots(ledger) ==> PositiveLots(after))
  {
    var after := Sell(ledger, t, n, price, now).ledger;
    SellConsolidates(ledger, t, n, price, now);
    ForTickerEmpty(after, t);
    WithoutMembers(ledger, t);
  }

  /**
   * After a first sale, a second sale of the same ticker is refused exactly
   * when it asks for more shares than the first left behind.
   */
  lemma SecondSaleRejects(ledger: seq<Transaction>, t: string, n1: int, p1: real, now1: string,
                          n2: int, p2: real, now2: string)
    requires PositiveLots(ledger)
    requires Sell(ledger, t, n1, p1, now1).Sold?
    ensures PositiveLots(Sell(ledger, t, n1, p1, now1).ledger)
    ensures Sell(Sell(ledger, t, n1, p1, now1).ledger, t, n2, p2, now2).Rejected? <==>
              n2 > TotalShares(ForTicker(ledger, t)) - n1 || TotalShares(ForTicker(ledger, t)) == n1
  {
    var first := Sell(ledger, t, n1, p1, now1);
    SellResidue(ledger, t, n1, p1, now1);
    SellConservesHolding(ledger, t, n1, p1, now1);
    ForTickerEmpty(first.ledger, t);
  }

  /**
   * Re-basing on one consolidated lot is exact: when a second sale of the
   * same ticker goes through, the lots the first sale left have the average
   * cost of the original lots, so (by SellProfit) the second sale is priced
   * as if it were made against the original lots.
   */
  lemma SecondSaleAverage(ledger: seq<Transaction>, t: string, n1: int, p1: real, now1: string,
                          n2: int, p2: real, now2: string)
    requires PositiveLots(ledger)
    requires Sell(ledger, t, n1, p1, now1).Sold?
    requires PositiveLots(Sell(ledger, t, n1, p1, now1).ledger)
    requires Sell(Sell(ledger, t, n1, p1, now1).ledger, t, n2, p2, now2).Sold?
    ensures var after := ForTicker(Sell(ledger, t, n1, p1, now1).ledger, t);
            TotalShares(after) > 0 && AvgCost(after) == AvgCost(ForTicker(ledger, t))
  {
    SecondSaleRejects(ledger, t, n1, p1, now1, n2, p2, now2);
    SellKeepsAverageCost(ledger, t, n1, p1, now1);
  }

  /** Hence the second sale realizes its shares against the original average cost. */
  lemma SecondSaleProfit(ledger: seq<Transaction>, t: string, n1: int, p1: real, now1: string,
                         n2: int, p2: real, now2: string)
    requires PositiveLots(ledger)
    requires Sell(ledger, t, n1, p1, now1).Sold?
    requires PositiveLots(Sell(ledger, t, n1, p1, now1).ledger)
    requires Sell(Sell(ledger, t, n1, p1, now1).ledger, t, n2, p2, now2).Sold?
    ensures TotalShares(ForTicker(ledger, t)) != 0
    ensures Sell(Sell(ledger, t, n1, p1, now1).ledger, t, n2, p2, now2).realizedPl
            == Value(n2, p2 - AvgCost(ForTicker(ledger, t)))
  {
    SecondSaleAverage(ledger, t, n1, p1, now1, n2, p2, now2);
    PositiveSellDefined(Sell(ledger, t, n1, p1, now1).ledger, t, n2);
    SellProfit(Sell(ledger, t, n1, p1, now1).ledger, t, n2, p2, now2);
  }

  /** A first sale followed by a second one that goes through left some shares behind. */
  lemma SecondSaleLeavesShares(ledger: seq<Transaction>, t: string, n1: int, p1: real, now1: string,
                               n2: int, p2: real, now2: string)
    requires PositiveLots(ledger)
    requires Sell(ledger, t, n1, p1, now1).Sold?
    requires PositiveLots(Sell(ledger, t, n1, p1, now1).ledger)
    requires Sell(Sell(ledger, t, n1, p1, now1).ledger, t, n2, p2, now2).Sold?
    ensures n1 < TotalShares(ForTicker(ledger, t))
  {
    SecondSaleRejects(ledger, t, n1, p1, now1, n2, p2, now2);
    SellSold(ledger, t, n1, p1, now1);
  }

  /**
   * A sale from a ledger whose ticker was re-based on one consolidated lot
   * is priced against that lot's cost per share.
   */
  lemma RebasedProfit(mid: seq<Transaction>, ledger: seq<Transaction>, t: string,
                      remaining: int, avgCost: real, date: string, n: int, price: real, now: string)
    requires remaining > 0
    requires mid == Without(ledger, t) + Consolidate(t, remaining, avgCost, date)
    requires SellDefined(mid, t, n)
    ensures Sell(mid, t, n, price, now).Sold? ==> Sell(mid, t, n, price, now).realizedPl == Value(n, price - avgCost)
  {
    RemainderAverage(mid, ledger, t, remaining, avgCost, date);
    if Sell(mid, t, n, price, now).Sold? {
      SellProfitAt(mid, t, n, price, now, avgCost);
    }
  }

  /**
   * Two sales at one price realise together exactly what a single sale of
   * both amounts would have realised.
   */
  lemma SalesCombine(ledger: seq<Transaction>, t: string, n1: int, n2: int, p: real, now1: string, now2: string)
    requires PositiveLots(ledger)
    requires Sell(ledger, t, n1, p, now1).Sold?
    requires PositiveLots(Sell(ledger, t, n1, p, now1).ledger)
    requires Sell(Sell(ledger, t, n1, p, now1).ledger, t, n2, p, now2).Sold?
    ensures Sell(ledger, t, n1 + n2, p, now2).Sold?
    ensures Sell(ledger, t, n1, p, now1).realizedPl + Sell(Sell(ledger, t, n1, p, now1).ledger, t, n2, p, now2).realizedPl
            == Sell(ledger, t, n1 + n2, p, now2).realizedPl
  {
    SellProfit(ledger, t, n1, p, now1);
    SecondSaleProfit(ledger, t, n1, p, now1, n2, p, now2);
    CombinedSale(ledger, t, n1, n2, p, now1, now2);
    Distribute(n1, n2, p - AvgCost(ForTicker(ledger, t)));
  }

  /** After two sales went through, one sale of both amounts goes through too, at the same average cost. */
  lemma CombinedSale(ledger: seq<Transaction>, t: string, n1: int, n2: int, p: real, now1: string, now2: string)
    requires PositiveLots(ledger)
    requires Sell(ledger, t, n1, p, now1).Sold?
    requires PositiveLots(Sell(ledger, t, n1, p, now1).ledger)
    requires Sell(Sell(ledger, t, n1, p, now1).ledger, t, n2, p, now2).Sold?
    ensures TotalShares(ForTicker(ledger, t)) != 0
    ensures Sell(ledger, t, n1 + n2, p, now2).Sold?
    ensures Sell(ledger, t, n1 + n2, p, now2).realizedPl == Value(n1 + n2, p - AvgCost(ForTicker(ledger, t)))
  {
    SecondSaleRejects(ledger, t, n1, p, now1, n2, p, now2);
    SellProfit(ledger, t, n1 + n2, p, now2);
  }
}
