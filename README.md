# Stock price aggregation service: a verified model of its core

The service proxies an upstream price service. It answers with the
average price of one ticker over a trailing window of minutes, and with
the Pearson correlation of two tickers over that window. This project
models the four pieces of `index.js` that do the computing:

- the trailing-window filter `getRecentEntries` together with the
  timestamp parse `getTimestamp` (module `Window`);
- the average `computeAveragePrice` (module `Average`, on the sums and
  means of module `Series`);
- the correlation `pearsonCorrelation`, whose accumulation loop is an
  imperative method with loop invariants (module `Correlation`);
- the check of the `ticker` query parameter of `/stockcorrelation`
  (module `Tickers`).

Modelling choices:

- A price entry is `PricePoint(price, lastUpdatedAt)`. `lastUpdatedAt` is
  the millisecond timestamp that `new Date(s).getTime()` gives, or `None`
  where the date string does not parse. The clock reading `now` is a
  parameter, read once per call as in the source.
- Prices are exact reals, and `minutes` is an already-parsed integer.
  Dividing by 60000 and comparing is therefore the same as comparing
  `now - ts` with `minutes * 60000`.
- That test is one-sided. An entry passes when it is dated at most
  `minutes` before `now`, but nothing bounds it from the other side. With
  `minutes >= 0`, an entry dated after `now` always passes, however far
  ahead it is (`Window.FutureEntryKept`). With `minutes < 0`, only entries
  dated at least `|minutes|` minutes after `now` pass. The series are not
  assumed to be in time order.
- Dafny's reals have no square root. `PearsonCorrelation` therefore returns
  a `Coefficient`: either `Neutral` (the source's 0, whether returned early for fewer than
  two pairs or for a zero denominator) or
  `Ratio(numerator, denom1, denom2)`, the three sums the source divides.
  `Denotes(c, r)` says which number `r` the coefficient stands for. For a
  Ratio that number is `numerator / sqrt(denom1 * denom2)`, characterised
  by `r*r*(denom1*denom2) == numerator*numerator` with `r` of the
  numerator's sign.
- Without a square root the model cannot show that a Ratio stands for any
  real number at all. The range and uniqueness lemmas
  (`Correlation.DenotedInRange`, `Correlation.DenotesUnique`) are therefore
  conditional: they speak of every `r` that the coefficient denotes. The
  unconditional form of the bound is `Correlation.CorrelationBounded`:
  numerator² <= denom1·denom2, with both sums positive.
- The source returns 0 when `sqrt(denom1) * sqrt(denom2) === 0`. Both sums
  are non-negative, so over the reals this is `denom1 == 0 || denom2 == 0`,
  and that is the guard in the model.
- The source treats an empty `ticker=` parameter like a missing one: `!""`
  is true in JavaScript, so the answer is "Ticker parameter is required"
  and not the two-tickers message. The model follows the code here.

## Model

| member | source | states |
|---|---|---|
| `Window.InWindow` | index.js:8-16 | definition of the filter's test for one entry: false when the date does not parse (the source compares NaN, which is false); otherwise `now - ts <= minutes * 60000`, which is `(now - ts) / 60000 <= minutes` over exact reals |
| `Window.RecentEntries` | index.js:12-18 | the filtered series is no longer than the input, and every entry in it has a parsed timestamp at most `minutes` before `now` (entries dated after `now` always pass when `minutes >= 0`) |
| `Window.KeptPositions` | index.js:14-17 | the positions the filter keeps are ascending and in range, each passes the window test, and every position that passes is included |
| `Window.RecentEntriesAreKeptPositions` | index.js:12-18 | the result is exactly the input read at the kept positions: an order-preserving subsequence that keeps an entry if and only if its timestamp parses and lies in the window |
| `Window.FutureEntryKept` | index.js:14-17 | with `minutes >= 0`, an entry dated at or after `now` is always in the result, however far ahead it lies |
| `Window.UnparseableExcluded` | index.js:8-16 | an entry whose date string does not parse is never kept, whatever the window |
| `Window.EmptyWindowKeepsNothing` | index.js:13-16 | with `minutes <= 0` and every timestamp strictly before `now`, the result is empty |
| `Window.WideWindowKeepsParsed` | index.js:13-16 | a window reaching back to the earliest timestamp returns every entry whose timestamp parses, in order |
| `Window.Parsed` | index.js:8-10 | reference filter: every entry it returns comes from the input and carries a timestamp, and every input entry whose timestamp parses is returned |
| `Window.ParsedAll` | index.js:8-10 | when every timestamp parses, no entry is dropped by the parse, so a wide window returns the input unchanged |
| `Window.NarrowingComposes` | index.js:14-17 | filtering with a wider window and then a narrower one equals filtering with the narrower one; with equal windows the filter is idempotent |
| `Series.Sum` | index.js:22-34 | definition of the left fold of `+` from 0, with the empty sum 0: `reduce((a, b) => a + b, 0)` over the prices at lines 33-34, and at line 22 the fold of `sum + entry.price`, which is `Sum(Prices(data))` |
| `Series.Prices` | index.js:30-31 | the mapped prices have the input's length and its prices in order |
| `Series.Mean` | index.js:33-34 | the mean times the count is the sum of the prices |
| `Series.MeanBounds` | index.js:22-23 | the mean of values between lo and hi lies between lo and hi |
| `Series.MeanAffine` | index.js:22-23 | shifting and scaling every value does the same to the mean |
| `Series.MeanOfConstant` | index.js:22-23 | the mean of a constant sequence is its common value |
| `Average.AveragePrice` | index.js:20-24 | the empty series averages to exactly 0; otherwise the average times the count is the sum of the prices |
| `Average.AverageWithinRange` | index.js:20-24 | a non-empty series averages to a value between its lowest and highest price |
| `Average.AverageAffine` | index.js:20-24 | shifting and scaling every price does the same to the average |
| `Average.AverageExamples` | index.js:20-24 | `[]` averages to 0, `[10]` to 10 and `[10, 20]` to 15 |
| `Correlation.Deviations` | index.js:41-42 | definition: each value minus the mean, with the input's length (`diff1`, `diff2` for every index) |
| `Correlation.Spread` | index.js:30-42 | definition: the deviations from their mean of the first n prices of a series, n of them |
| `Correlation.CoDeviation` | index.js:40-47 | definition of the loop's running sums: Σ (x_i - mx)(y_i - my) over the pairs in loop order; with a series paired with itself it is the squared-deviation sum |
| `Correlation.Denotes` | index.js:49-50 | definition of the number a coefficient stands for: Neutral stands for 0; `Ratio(num, d1, d2)` stands for the r with r²·d1·d2 == num² and the sign of num, that is num / (sqrt(d1)·sqrt(d2)) |
| `Correlation.CorrelationOf` | index.js:26-51 | definition of the coefficient the function computes: Neutral for fewer than two pairs or a zero squared-deviation sum, otherwise Ratio of the co-deviation sum and the two squared-deviation sums of the truncated series |
| `Correlation.PairedLength` | index.js:27 | the number of pairs is the length of the shorter series |
| `Correlation.PearsonCorrelation` | index.js:26-51 | the method returns the coefficient `CorrelationOf` defines; a Ratio has positive squared-deviation sums and satisfies numerator² <= denom1·denom2 |
| `Correlation.AccumulateDeviations` | index.js:36-47 | after the loop, the three accumulators hold the co-deviation sum and the two squared-deviation sums over all pairs, and the latter two are non-negative |
| `Correlation.CoDeviationSelfNonNegative` | index.js:45-46 | a sum of squared deviations is never negative |
| `Correlation.CorrelationFromSums` | index.js:33-50 | the loop's three sums, compared with zero, give exactly the coefficient `CorrelationOf` defines |
| `Correlation.CauchySchwarz` | index.js:40-49 | for the accumulated sums, numerator² <= denom1·denom2 |
| `Correlation.CorrelationBounded` | index.js:40-50 | every Ratio the correlation returns has positive denominators and satisfies Cauchy–Schwarz |
| `Correlation.DenotedInRange` | index.js:49-50 | the number a coefficient stands for lies in [-1, 1] |
| `Correlation.DenotesUnique` | index.js:49-50 | a coefficient stands for at most one number |
| `Correlation.ShortSeriesNeutral` | index.js:27-28 | with fewer than two entries in either series the result is Neutral, which stands for 0 and only 0 |
| `Correlation.CorrelationDependsOnPrefix` | index.js:27-31 | only the first min(length) entries of each series affect the result |
| `Correlation.CorrelationTruncated` | index.js:27-31 | truncating both series to the paired length changes nothing |
| `Correlation.CorrelationExtendLonger` | index.js:27-31 | appending entries to the longer series changes nothing |
| `Correlation.CorrelationSwapped` | index.js:26-51 | swapping the two series keeps the numerator and swaps the two denominators |
| `Correlation.CorrelationSymmetric` | index.js:26-51 | both orders of the two series stand for the same number |
| `Correlation.NeutralIffConstant` | index.js:49-50 | with at least two pairs, the result is Neutral if and only if one of the truncated price series is constant |
| `Correlation.ZeroSpreadIffConstant` | index.js:41-46 | a squared-deviation sum is zero if and only if the prices are all equal |
| `Correlation.SpreadAffine` | index.js:30-42 | the deviations of an affine image of a series are the scaled deviations |
| `Correlation.AffineUnit` | index.js:40-50 | for a non-constant series and a non-trivial affine image of it, the denominators are nonzero and the coefficient stands for +1 or -1 |
| `Correlation.AffineCorrelation` | index.js:26-51 | a non-constant series against `alpha + beta·itself` correlates to +1 for `beta > 0` and to -1 for `beta < 0` |
| `Correlation.DotSymmetric` | index.js:44 | the co-deviation sum does not depend on which series comes first |
| `Tickers.Message` | index.js:77-84 | definition: the error text of each of the two client errors |
| `Tickers.Split` | index.js:81 | splitting on the comma gives at least one field, and no field contains a comma |
| `Tickers.JoinSplit` | index.js:81 | gluing the split fields back together with commas gives the original string |
| `Tickers.SplitJoin` | index.js:81 | splitting comma-free fields glued with commas gives the fields back |
| `Tickers.ParseTickers` | index.js:75-84 | a missing or empty parameter fails with TickerRequired, and only such a parameter does; a success returns two non-empty symbols |
| `Tickers.ParseTickersAccepts` | index.js:81-84 | every `a,b` or `a,b,...` with non-empty comma-free `a` and `b` is accepted as the pair (a, b) |
| `Tickers.ParseTickersShape` | index.js:81-84 | an accepted parameter starts with its two symbols joined by a comma, followed by nothing or by another comma |
| `Tickers.ExtraFieldsIgnored` | index.js:81-84 | fields after the second never change an accepted result |

## Left out

- Express routing, request parsing and the JSON and status responses of both endpoints (index.js:53-114). This layer is I/O; the ticker check within it is modelled as `Tickers.ParseTickers`, and the error strings as `Tickers.Message`.
- The upstream fetches through axios and their concurrent `Promise.all`, including the 500 answer on failure. These are network calls.
- `Date.now()` and `new Date(...)`. The clock becomes the `now` parameter, and the date parse becomes its result, an `Option<int>`.
- The `parseInt(...) || 0` handling of `minutes`. The model takes `minutes` as an already-parsed integer.
- IEEE-754 rounding and `NaN` beyond the excluded timestamps. All arithmetic is over exact reals, and a non-finite price is not represented.
- Rounding can defeat the exact-zero guard `denominator === 0` of index.js:50, so the source's result can differ from the model's by far more than a rounding error. A constant series whose mean is not exactly representable, such as `[0.1, 0.1, 0.1]`, gets a tiny nonzero squared-deviation sum in floating point. Against itself it then yields a ratio of about 1, where the model returns Neutral (0).
- Correlation.NeutralIffConstant: holds for the exact-real model only; in IEEE-754 arithmetic a constant series need not give 0, for the reason in the line above.
- Correlation.PearsonCorrelation: returns the Coefficient (the numerator and the two squared-deviation sums) instead of the float `numerator / (sqrt(denom1) * sqrt(denom2))`, because Dafny's reals have no square root. `Denotes` characterises the number it stands for.
- Correlation.AccumulateDeviations: the loop takes the two means as parameters. `PearsonCorrelation` computes them right before it, as the source does.
- Tickers.ParseTickers: a `ticker` parameter given several times arrives in Express as an array, and `split` is then undefined. The model takes the parameter as a string or as absent.
