/**
 * The persisted state of portfolio.py: the ledger file and the stats file,
 * and the operations that load, change and save them. A file is modelled
 * by what reading it yields; a missing file, or one that is not valid
 * JSON, loads as the empty default rather than failing.
 */
module Store {
  import opened Wrappers
  import opened Ledger
  import Text

  /** What reading the ledger file yields. */
  datatype LedgerFile =
    | NoLedgerFile                           // the file does not exist
    | UndecodableLedger                      // the text is not valid JSON
    | DecodedNonList                         // valid JSON, but not a list
    | DecodedList(items: seq<Transaction>)   // a list of transaction records

  /** What reading the stats file yields. */
  datatype StatsFile =
    | NoStatsFile                            // the file does not exist
    | UndecodableStats                       // the text is not valid JSON
    | DecodedStats(realizedPl: real)         // an object with a numeric `realized_pl`

  /** Loading the ledger: anything but a decoded list loads as the empty ledger. */
  function LoadPortfolio(f: LedgerFile): (r: seq<Transaction>)
    ensures !f.DecodedList? ==> r == []
    ensures f.DecodedList? ==> r == f.items
  {
    match f
    case DecodedList(items) => items
    case _ => []
  }

  /** Saving replaces the whole file; loading gives back exactly what was saved. */
  function SavePortfolio(s: seq<Transaction>): (f: LedgerFile)
    ensures LoadPortfolio(f) == s
  {
    DecodedList(s)
  }

  /** Loading the stats: a missing file or invalid JSON loads as zero realized P/L. */
  function LoadStats(f: StatsFile): (pl: real)
    ensures !f.DecodedStats? ==> pl == 0.0
    ensures f.DecodedStats? ==> pl == f.realizedPl
  {
    match f
    case DecodedStats(pl) => pl
    case _ => 0.0
  }

  /** Saving the stats; loading gives back exactly what was saved. */
  function SaveStats(pl: real): (f: StatsFile)
    ensures LoadStats(f) == pl
  {
    DecodedStats(pl)
  }

  /** The two files of one portfolio, and the accounting operations on them. */
  class Portfolio {
    var ledgerFile: LedgerFile
    var statsFile: StatsFile

    constructor (ledgerFile: LedgerFile, statsFile: StatsFile)
      ensures this.ledgerFile == ledgerFile && this.statsFile == statsFile
    {
      this.ledgerFile := ledgerFile;
      this.statsFile := statsFile;
    }

    /** The ledger as load_portfolio reads it. */
    function LoadedLedger(): seq<Transaction>
      reads this
    {
      LoadPortfolio(ledgerFile)
    }

    /** The cumulative realized P/L as load_stats reads it. */
    function RealizedPl(): real
      reads this
    {
      LoadStats(statsFile)
    }

    /** Appends one transaction to the loaded ledger and saves it. */
    method AddTransaction(t: Transaction)
      modifies this
      ensures ledgerFile == SavePortfolio(old(LoadedLedger()) + [t])
      ensures LoadedLedger() == old(LoadedLedger()) + [t]
      ensures statsFile == old(statsFile)
    {
      var data := LoadPortfolio(ledgerFile);
      data := data + [t];
      ledgerFile := SavePortfolio(data);
    }

    /**
     * Removes every transaction of the upper-cased ticker. Reports whether
     * anything was removed; the file is written only when something was.
     */
    method DeleteTicker(tickerToDelete: string) returns (deleted: bool)
      modifies this
      ensures deleted <==> Text.Upper(tickerToDelete) in Tickers(old(LoadedLedger()))
      ensures LoadedLedger() == Without(old(LoadedLedger()), Text.Upper(tickerToDelete))
      ensures deleted ==> ledgerFile == SavePortfolio(Without(old(LoadedLedger()), Text.Upper(tickerToDelete)))
      ensures !deleted ==> ledgerFile == old(ledgerFile)
      ensures statsFile == old(statsFile)
    {
      var transactions := LoadPortfolio(ledgerFile);
      var t := Text.Upper(tickerToDelete);
      var updated := Without(transactions, t);
      WithoutShrinks(transactions, t);
      if |updated| < |transactions| {
        ledgerFile := SavePortfolio(updated);
        deleted := true;
      } else {
        WithoutAbsent(transactions, t);
        deleted := false;
      }
    }

    /** Sets the realized P/L to zero, whatever it was. */
    method ResetStats()
      modifies this
      ensures statsFile == SaveStats(0.0)
      ensures RealizedPl() == 0.0
      ensures ledgerFile == old(ledgerFile)
    {
      statsFile := SaveStats(0.0);
    }

    /**
     * Sells shares of the upper-cased ticker at the average cost basis.
     * On refusal (ticker not held, or more shares asked than held) returns
     * None with the error it reports, and writes nothing; otherwise returns
     * the realized P/L, adds it to the stats and saves the ledger with the
     * ticker's lots consolidated.
     */
    method SellShares(tickerToSell: string, sharesToSell: int, priceSoldAt: real, now: string)
      returns (result: Option<real>, refusal: Option<SaleError>)
      requires SellDefined(LoadedLedger(), Text.Upper(tickerToSell), sharesToSell)
      modifies this
      ensures var t := Text.Upper(tickerToSell);
              var lots := ForTicker(old(LoadedLedger()), t);
              && (result == None <==> lots == [] || sharesToSell > TotalShares(lots))
              && (result == None ==> unchanged(this))
              && (refusal.Some? <==> result == None)
              && (lots == [] ==> refusal == Some(NoHoldings))
              && (lots != [] && sharesToSell > TotalShares(lots) ==>
                    refusal == Some(InsufficientShares(TotalShares(lots))))
              && (result.Some? ==>
                    && TotalShares(lots) != 0
                    && result.value == (priceSoldAt - TotalCost(lots) / TotalShares(lots) as real) * sharesToSell as real
                    && RealizedPl() == old(RealizedPl()) + result.value
                    && statsFile == SaveStats(old(RealizedPl()) + result.value)
                    && ledgerFile == SavePortfolio(Sell(old(LoadedLedger()), t, sharesToSell, priceSoldAt, now).ledger))
      ensures var sale := Sell(old(LoadedLedger()), Text.Upper(tickerToSell), sharesToSell, priceSoldAt, now);
              && (result == None <==> sale.Rejected?)
              && (sale.Rejected? ==> refusal == Some(sale.error))
              && (result.Some? ==> result == Some(sale.realizedPl) && LoadedLedger() == sale.ledger)
      ensures PositiveLots(old(LoadedLedger())) ==> PositiveLots(LoadedLedger())
    {
      var transactions := LoadPortfolio(ledgerFile);
      var t := Text.Upper(tickerToSell);
      var holdings := ForTicker(transactions, t);
      if holdings == [] {
        return None, Some(NoHoldings);
      }
      var totalShares := TotalShares(holdings);
      var totalCost := TotalCost(holdings);
      if sharesToSell > totalShares {
        return None, Some(InsufficientShares(totalShares));
      }
      var avgCostBasis := totalCost / totalShares as real;
      var realizedPlForSale := (priceSoldAt - avgCostBasis) * sharesToSell as real;
      assert realizedPlForSale == Value(sharesToSell, priceSoldAt - avgCostBasis);

      var stats := LoadStats(statsFile);
      statsFile := SaveStats(stats + realizedPlForSale);
      assert RealizedPl() == old(RealizedPl()) + realizedPlForSale;

      var otherTransactions := Without(transactions, t);
      var remainingShares := totalShares - sharesToSell;
      if remainingShares > 0 {
        otherTransactions := otherTransactions + [Transaction(t, remainingShares, avgCostBasis, now)];
      }
      ledgerFile := SavePortfolio(otherTransactions);
      if PositiveLots(transactions) {
        SellResidue(transactions, t, sharesToSell, priceSoldAt, now);
      }
      result, refusal := Some(realizedPlForSale), None;
    }
  }
}
