# money-cli: the average-cost portfolio engine, in Dafny

money-cli is a command-line stock portfolio tracker. It keeps two persisted
records:

- a ledger, an ordered list of transactions `{ticker, shares, price, date}`;
- a stats record holding the cumulative realized profit and loss.

A sale uses the average-cost method. The ticker's lots are totalled and the
average cost is their share-weighted mean price. The realized P/L is the sale
price less the average cost, times the shares sold. The ticker's lots are then
replaced by at most one consolidated lot at the old average cost.

The `view` command aggregates holdings per ticker and lists the tickers in
sorted order. For each ticker it shows the average cost, total cost, market
value and gain or loss. It also reports portfolio totals.

The project has five modules:

- `Wrappers` holds `Option`.
- `Text` models upper-casing and the string order that `sorted` uses. It also
  has insertion into a strictly sorted sequence, and the proof that a strictly
  sorted sequence is fixed by its elements.
- `Ledger` holds the pure accounting of portfolio.py: the per-ticker filters,
  the share and cost sums, the average cost and the sale, as a function
  returning `Rejected` or `Sold`. Lemmas cover membership, partitioning,
  conservation of shares and cost, average-cost invariance, and combining two
  sales.
- `Store` models the two files as what reading them yields: missing, text
  that is not valid JSON, JSON that is not a list, or decoded. For the first
  two, `load_portfolio` and `load_stats` fall back to their defaults. The class
  `Store.Portfolio` has the two files as fields. Its methods `AddTransaction`,
  `DeleteTicker`, `ResetStats` and `SellShares` do the source's
  load-modify-save steps. `DeleteTicker` and `SellShares` are proved against
  the `Ledger` functions. `AddTransaction` is proved to append the new lot to
  the loaded ledger, and `Ledger.AddUpdatesHolding` states what that append
  does to the ticker's holding. `ResetStats` is proved to zero the realized
  P/L and leave the ledger alone.
- `Cli` models the bookkeeping inside the commands of main.py:
  - the transaction built by `add`;
  - the profit-or-loss notice of `sell`;
  - the holdings loop of `view` (a method proved to compute, per ticker, the
    sums the `Ledger` functions define);
  - the sorted ticker list;
  - the rows and totals loop, proved equal to recursive sum functions and to
    the cost of the whole ledger.

Prices and amounts are `real`, so every equality below is exact arithmetic.
That is a stated abstraction of Python floats. The quote service is a
`map<string, real>` parameter: a ticker missing from it is one whose price
lookup returned nothing. The current time of a sale is a `now` parameter.

Two divisions in the source can divide by zero:

- the average cost in `sell_shares` (src/money_cli/portfolio.py:93);
- `avg_cost` in `view` (src/money_cli/main.py:114).

Neither `add` nor `sell` checks that shares are positive, so a ticker's shares
can sum to zero. In that case the source raises an exception. Two
preconditions say exactly when this does not happen: `Ledger.SellDefined` and
`Cli.ViewDefined`. `Cli.PositiveLotsViewDefined` and the lemmas that assume
`PositiveLots` show that both hold whenever every stored lot is positive.

A negative `shares_to_sell` is not rejected by the source: only a sale above
the shares held is refused. The model keeps that behaviour. Such a "sale"
grows the ticker's consolidated lot.

## Model

| member | source | states |
|---|---|---|
| Store.LoadPortfolio | src/money_cli/portfolio.py:17-26 | a missing file, text that is not valid JSON or a non-list value loads as the empty ledger; a decoded list loads as itself |
| Store.SavePortfolio | src/money_cli/portfolio.py:28-31 | loading what was saved gives back exactly the saved ledger |
| Store.LoadStats | src/money_cli/portfolio.py:50-58 | a missing stats file or one that is not valid JSON loads as realized P/L 0.0; a decoded one loads its value |
| Store.SaveStats | src/money_cli/portfolio.py:60-63 | loading what was saved gives back exactly the saved realized P/L |
| Store.Portfolio.AddTransaction | src/money_cli/portfolio.py:33-37 | the ledger becomes the old ledger with the transaction appended at the end; the stats file is untouched |
| Store.Portfolio.DeleteTicker | src/money_cli/portfolio.py:39-48 | the result is true iff the upper-cased ticker occurs in the old ledger; the ledger becomes the old one without that ticker's lots, order kept; the file is rewritten only when something was removed; stats untouched |
| Store.Portfolio.ResetStats | src/money_cli/portfolio.py:65-69 | realized P/L becomes 0.0 whatever it was, so a second reset changes nothing; the ledger file is untouched |
| Store.Portfolio.SellShares | src/money_cli/portfolio.py:71-120 | None iff the ticker has no lots or more shares are asked than held, and then neither file changes and the refusal reports which error it was (no shares owned, or the shares actually owned); otherwise the result is (price - total cost / total shares) * shares sold, realized P/L grows by exactly it, and the ledger is the one `Ledger.Sell` computes; positive lots stay positive |
| Ledger.ForTicker | src/money_cli/portfolio.py:80 | the ticker's lots, in ledger order; characterised by `Ledger.ForTickerMembers`, `Ledger.ForTickerEmpty` and `Ledger.ForTickerAppend`; positive lots stay positive |
| Ledger.Without | src/money_cli/portfolio.py:43 | the ledger less one ticker's lots, in order (the same filter at src/money_cli/portfolio.py:105); characterised by `Ledger.WithoutMembers`, `Ledger.WithoutAppend`, `Ledger.WithoutShrinks` and `Ledger.ForTickerWithout` |
| Ledger.TotalShares | src/money_cli/portfolio.py:86 | with positive lots the shares sum to at least the number of lots |
| Ledger.TotalCost | src/money_cli/portfolio.py:87 | the sum of shares times price over the lots; characterised by `Ledger.TotalCostAppend` and `Ledger.TotalCostSplit` |
| Ledger.AvgCost | src/money_cli/portfolio.py:93 | total cost over total shares, defined only when the shares do not sum to zero; `Ledger.ConsolidateAverage` and `Ledger.SellKeepsAverageCost` state what a sale does to it |
| Ledger.Sell | src/money_cli/portfolio.py:76-118 | the sale as a value: a refusal with its error, or the realized P/L and the new ledger; characterised by `Ledger.SellRejects`, `Ledger.SellSold`, `Ledger.SellConsolidates`, `Ledger.SellLeavesOtherTickers` and `Ledger.SellConservesHolding` |
| Ledger.ForTickerMembers | src/money_cli/portfolio.py:80 | the ticker's lots are exactly the ledger entries with that ticker |
| Ledger.WithoutMembers | src/money_cli/portfolio.py:43 | the filtered ledger keeps exactly the entries whose ticker differs |
| Ledger.ForTickerEmpty | src/money_cli/portfolio.py:80-83 | a ticker has no lots iff it does not occur in the ledger |
| Ledger.ForTickerAppend | src/money_cli/portfolio.py:80 | selecting a ticker's lots distributes over concatenation, so ledger order is kept |
| Ledger.WithoutAppend | src/money_cli/portfolio.py:105 | removing a ticker distributes over concatenation, so ledger order is kept |
| Ledger.PartitionSize | src/money_cli/portfolio.py:43-45 | the lots of a ticker and the rest of the ledger together are as many as the ledger's entries |
| Ledger.WithoutAbsent | src/money_cli/portfolio.py:45-48 | removing a ticker that does not occur leaves the ledger exactly as it was |
| Ledger.WithoutShrinks | src/money_cli/portfolio.py:45 | the filtered list is shorter than the ledger iff the ticker occurs in it |
| Ledger.TickersWithout | src/money_cli/portfolio.py:43 | after removal the ledger's tickers are the old ones less the removed ticker |
| Ledger.WithoutTwice | src/money_cli/portfolio.py:39-48 | after one removal the ticker is absent, so a second identical delete removes nothing |
| Ledger.HeldTickerShares | src/money_cli/portfolio.py:86-93 | with positive lots, a held ticker's shares sum to more than zero, so the average cost is defined |
| Ledger.ForTickerWithout | src/money_cli/portfolio.py:105 | removing one ticker leaves every other ticker's lots unchanged, in order |
| Ledger.TotalSharesAppend | src/money_cli/portfolio.py:86 | the share sum of a concatenation is the sum of the parts |
| Ledger.TotalCostAppend | src/money_cli/portfolio.py:87 | the cost sum of a concatenation is the sum of the parts |
| Ledger.TotalCostSplit | src/money_cli/portfolio.py:87 | the ledger's cost is one ticker's cost plus the cost of everything else |
| Ledger.AddUpdatesHolding | src/money_cli/portfolio.py:33-37 | appending a lot appends it to its ticker's lots, adds its shares and its shares times price to that ticker's sums, and leaves every other ticker's lots unchanged |
| Ledger.AddKeepsPositive | src/money_cli/portfolio.py:33-37 | appending a lot with positive shares keeps every lot positive |
| Ledger.Consolidate | src/money_cli/portfolio.py:108-116 | the replacement is one lot of the remaining shares at the given cost when shares remain, and nothing otherwise; it is never a zero-share lot |
| Ledger.SellRejects | src/money_cli/portfolio.py:80-91 | a sale fails with NoHoldings iff the ticker is not held, and fails at all iff it is not held or more shares are asked than held |
| Ledger.SellSold | src/money_cli/portfolio.py:80-118 | a completed sale had the ticker held with at least the shares sold, realizes the shares sold times (sale price - average cost), and leaves the other tickers' lots followed by the consolidated lot |
| Ledger.SellProfit | src/money_cli/portfolio.py:93-96 | a successful sale divides by a non-zero share total (a positive one when every lot is positive), and its realized P/L is the shares sold times (sale price - average cost) |
| Ledger.SellProfitAt | src/money_cli/portfolio.py:93-96 | the same realized P/L, stated against an average cost given by name |
| Ledger.ConsolidateForTicker | src/money_cli/portfolio.py:108-116 | the consolidated replacement holds lots of the sold ticker only |
| Ledger.SellConsolidates | src/money_cli/portfolio.py:105-116 | for every sale the average cost is defined for, the ticker's lots afterwards are exactly the consolidated lot of the remaining shares at the old average cost, or none; with positive lots the shares held were positive |
| Ledger.SellLeavesOtherTickers | src/money_cli/portfolio.py:105 | for every sale the average cost is defined for, every other ticker's lots stay as they were, in order |
| Ledger.SellConservesHolding | src/money_cli/portfolio.py:108-116 | for every sale the average cost is defined for, the ticker afterwards holds exactly the unsold shares, and its cost is those shares at the old average cost |
| Ledger.ConsolidateTotals | src/money_cli/portfolio.py:108-116 | the consolidated lot holds the remaining shares at remaining * average cost |
| Ledger.SellKeepsAverageCost | src/money_cli/portfolio.py:113 | for every sale the average cost is defined for that leaves shares, the ticker's average cost afterwards equals the one before |
| Ledger.RemainderAverage | src/money_cli/portfolio.py:105-116 | a ledger re-based on one consolidated lot of some remaining shares holds those shares under the ticker, at the lot's cost per share as average cost |
| Ledger.ConsolidateAverage | src/money_cli/portfolio.py:109-113 | a consolidated lot of some remaining shares has exactly the cost per share it was given as its average cost |
| Ledger.SellResidue | src/money_cli/portfolio.py:108-109 | the ticker stays in the ledger iff fewer shares were sold than held, for every sale the average cost is defined for; positive lots stay positive |
| Ledger.SecondSaleRejects | src/money_cli/portfolio.py:86-91 | after a first sale, a second sale of the same ticker is refused iff it asks for more than the remaining shares or nothing remained |
| Ledger.SecondSaleAverage | src/money_cli/portfolio.py:93 | a second sale of the same ticker is priced against the original average cost |
| Ledger.SecondSaleLeavesShares | src/money_cli/portfolio.py:86-91 | when a second sale of the same ticker goes through, the first one sold fewer shares than were held |
| Ledger.SecondSaleProfit | src/money_cli/portfolio.py:93-96 | a second sale of the same ticker realizes its shares times (its price - the original average cost) |
| Ledger.RebasedProfit | src/money_cli/portfolio.py:93-116 | a sale that goes through from a ledger re-based on one consolidated lot realizes its shares times (its price - that lot's cost per share) |
| Ledger.PositiveSellDefined | src/money_cli/portfolio.py:86-93 | with positive lots every sale's average cost is defined |
| Ledger.SalesCombine | src/money_cli/portfolio.py:93-96 | two successive sales at the same price realize the same P/L as one sale of both amounts, and that single sale succeeds |
| Ledger.CombinedSale | src/money_cli/portfolio.py:86-96 | when two successive sales went through, one sale of both amounts goes through too and realizes both amounts times (price - the original average cost) |
| Text.Upper | src/money_cli/portfolio.py:77 | upper-casing keeps the length, maps each letter `a`..`z` to its capital (code point less 32), leaves no lower-case letter, and leaves every other character in place |
| Text.Less | src/money_cli/main.py:101 | Python's `<` on strings, the order `sorted` uses: code points compared left to right, a proper prefix first; `Text.LessIrreflexive`, `Text.LessAsymmetric`, `Text.LessTransitive` and `Text.LessTotal` prove it a strict total order |
| Text.LessTotal | src/money_cli/main.py:101 | of two distinct strings one sorts before the other |
| Text.LessTransitive | src/money_cli/main.py:101 | the sort order is transitive |
| Text.SortedUnique | src/money_cli/main.py:101 | two strictly ascending sequences with the same elements are equal, so the order of the sorted tickers is determined |
| Text.Insert | src/money_cli/main.py:101 | inserting an absent key into a strictly ascending sequence keeps it strictly ascending and adds exactly that key |
| Cli.NewTransaction | src/money_cli/main.py:40-43 | the stored ticker is the upper-cased argument, upper-casing it again changes nothing, and shares, price and date pass through unchanged |
| Cli.AddedLotIsFound | src/money_cli/main.py:40-43 | a lot added under any spelling of a ticker joins the lots that a sell or delete finds under any other spelling with the same upper case |
| Cli.AddCommand | src/money_cli/main.py:40-43 | the ledger gains exactly the new transaction at its end; stats untouched |
| Cli.SaleNoticeFor | src/money_cli/main.py:74-80 | no notice iff the sale was refused; otherwise a profit iff realized P/L >= 0, with a non-negative amount whose signed value is the realized P/L |
| Cli.SellCommand | src/money_cli/main.py:66-80 | a refused sale changes nothing, gets no notice from the command and passes on the store's error; a completed one reports the notice of the sale's realized P/L and leaves the ledger and stats as `Ledger.Sell` says |
| Cli.Holdings | src/money_cli/main.py:96-99 | the reference definition of the holdings: every ledger ticker mapped to its summed shares and summed shares times price; `Cli.AggregateHoldings` is proved to compute it, with `Cli.AggregateUnique` |
| Cli.Fold | src/money_cli/main.py:98-99 | one step of the `defaultdict` update: a ticker not yet seen starts from zero shares and zero cost; characterised by `Cli.FoldNew`, `Cli.FoldHeld`, `Cli.FoldOther` and `Cli.AggregateStep` |
| Cli.AggregateUnique | src/money_cli/main.py:96-99 | any map that aggregates the ledger is exactly that map |
| Cli.FoldNew | src/money_cli/main.py:96-99 | a ticker seen for the first time starts from zero shares and zero cost, then gets the lot's shares and cost |
| Cli.FoldHeld | src/money_cli/main.py:98-99 | a ticker already seen gets the lot's shares and shares times price added |
| Cli.FoldOther | src/money_cli/main.py:97-99 | a lot leaves every other ticker's entry as the longer ledger defines it |
| Cli.AggregateStep | src/money_cli/main.py:97-99 | folding one lot into the aggregate of a ledger gives the aggregate of the ledger with that lot appended |
| Cli.AggregateHoldings | src/money_cli/main.py:96-99 | the loop yields exactly the ledger's tickers as keys, each with the sum of its shares and the sum of shares times price |
| Cli.SortedTickers | src/money_cli/main.py:101 | the keys come out strictly ascending, each exactly once |
| Cli.RowFor | src/money_cli/main.py:111-128 | average cost times shares is total cost; with a price, market value is shares * price and gain is market value - total cost; without one the three price cells are absent |
| Cli.CostBasis | src/money_cli/main.py:115 | the sum of the aggregated total costs over the listed tickers; `Cli.CostBasisIsLedgerCost` proves it is the whole ledger's cost |
| Cli.MarketValue | src/money_cli/main.py:119-121 | the sum of shares times price over the listed tickers that have a price; `Cli.Totals` and `Cli.ViewCommand` are proved to compute it |
| Cli.UnrealizedSplits | src/money_cli/main.py:119-130 | market value less cost basis is the sum of the priced tickers' gains less the cost of every unpriced ticker |
| Cli.CostBasisIsLedgerCost | src/money_cli/main.py:115 | summing the aggregated costs over the distinct tickers gives the cost of the whole ledger, lot by lot |
| Cli.PositiveLotsViewDefined | src/money_cli/main.py:114 | with positive lots, no ticker's shares sum to zero, so the average cost is always defined |
| Cli.Totals | src/money_cli/main.py:107-122 | one row per ticker in order, one price lookup per ticker, and cost basis and market value equal to the recursive sums, where a ticker without a price adds nothing to market value |
| Cli.ViewCommand | src/money_cli/main.py:88-130 | an empty ledger gives no report and no price lookups; otherwise lookups are the ledger's distinct tickers ascending, each row is the ticker's aggregated holding, realized P/L is the loaded one, cost basis is the whole ledger's cost whether or not prices were found, market value is the sum over priced tickers, and unrealized P/L is market value less cost basis |

## Left out

- JSON encoding and decoding, file paths and the application directory are not modelled. A file is what reading it yields.
- A stats file that decodes to something other than an object with a numeric `realized_pl` is not modelled. On such a file the source behaves as follows:
  - `view` raises AttributeError at `stats.get` when the value is not a dict (src/money_cli/main.py:90);
  - `view` falls back to 0.0 on an object without `realized_pl`, through the default of `stats.get` (src/money_cli/main.py:90);
  - `view` raises at the title's number format when `realized_pl` is present but not numeric (src/money_cli/main.py:103);
  - `reset_stats` raises TypeError on a value that is not a dict (src/money_cli/portfolio.py:68);
  - `reset_stats` succeeds on any object, because it overwrites the key, so it also repairs a non-numeric `realized_pl` (src/money_cli/portfolio.py:68);
  - `sell_shares` raises KeyError on an object without `realized_pl`, and TypeError on a non-numeric one or a value that is not a dict. It does so only for a sale that passes both refusal checks (src/money_cli/portfolio.py:100).
  The model has only decoded objects with a number, so none of these cases is modelled.
- Only `JSONDecodeError` is caught when loading (src/money_cli/portfolio.py:25, :57). A file whose bytes are not valid text raises UnicodeDecodeError instead of loading as the default. The model does not have that case: its undecodable files are valid text that is not valid JSON.
- The fields inside a decoded ledger list are taken to be well-formed transactions. The source does not check them either.
- The Finnhub quote service (src/money_cli/api.py) is not part of this model. Its answers are the `prices` map.
- The clock is a parameter: `now` for the consolidated lot's date and `date` for `add`. ISO date formatting is not modelled.
- Floating-point rounding is not modelled: amounts are exact `real`s. The `:,.2f` display formatting and the green/red styles are left out too.
- `_format_metric_name` and the `stats` command are left out. They are regex and title-case formatting with Rich tables, and state no accounting rule.
- Confirmation prompts and typer `Abort`/`Exit` are left out. So are the messages printed by `add`, `delete` and `reset`.
- The two error messages `sell_shares` prints on a refusal (src/money_cli/portfolio.py:82, :90) are not modelled as text. `Store.Portfolio.SellShares` returns the error they report instead: `NoHoldings`, or `InsufficientShares` with the shares owned.
- The stats file is written before the ledger file in `sell_shares`. The model makes both writes in one method, so it does not capture a crash between them.
- Text.Upper: upper-cases ASCII letters only. Python's `str.upper` also maps non-ASCII letters, and can change a string's length.
- Store.Portfolio.SellShares: requires `Ledger.SellDefined`. Where a ticker's shares sum to zero, the source raises ZeroDivisionError, and that case is not modelled.
- Cli.SellCommand: requires `Ledger.SellDefined`, as the store method it calls does. The ZeroDivisionError the source raises when a ticker's shares sum to zero is not modelled.
- Cli.ViewCommand: requires `Cli.ViewDefined` for the same reason, at src/money_cli/main.py:114.
