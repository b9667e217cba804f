# Smart: the table logic of the sales, turnover and review scripts

The repository is a set of pandas scripts over an e-commerce data set
(orders, order items, products with translated categories, sellers and
reviews). Under the library calls there are three pieces of sequential table
logic. This project models them as pure Dafny functions over sequences of
records and proves what the scripts promise about them.

- **Daily sales and forecasts** (`task1_1.py`; `task1_2.py` repeats the same
  pipeline). Joined order items are counted per calendar day and category.
  The frame is reindexed to every day between the first and the last
  observed day. Gaps are filled per category with the mean of the same
  weekday. Then every category is forecast 14 days ahead, each inside its
  own `try`. Modules: `Calendar`, `DailySales`, `Forecast`.
- **Turnover** (`task2.py`). Order items are joined with products, sellers
  and orders, and prices are summed per seller and per product. The models
  cover the ten highest and lowest sellers, the top product of every
  category, and the top and bottom seller of every category. Modules:
  `Ranking`, `Turnover`.
- **Reviews** (`task3.py`). Comments are cleaned (lower case, short words
  and punctuation removed) and labelled by the sign of their polarity. The
  models cover the per-product and per-seller tables of label counts with
  their positive or negative share, the best and worst products, the sellers
  with the most negative feedback, and the comments that mention `price`.
  Modules: `TextClean`, `Sentiment`, `Reviews`.

These shared modules model the pandas operations the scripts use:

- `Wrappers` holds `Option` and `Result`.
- `Order` holds strict total orders, sorted distinct keys and the order of
  strings.
- `Frames` holds boolean filtering, inner and left merges, group keys and
  group sums.

Days are integers counted from 1970-01-01, which was a Thursday.
`Weekday(d) = (d + 3) % 7` gives pandas' `dayofweek`, with Monday as 0. A
cell is an `Option<real>`, and `None` stands for NaN. Counts and their means
are exact rationals here. Several things the scripts get from libraries are
parameters of the model:

- the statistical fit;
- TextBlob's polarity;
- what the regular-expression classes `\w` and `\s` match;
- `str.lower`.

**Zeros versus gaps.** The zeros written by `fillna(0)` at line 24 of
`task1_1.py` survive the weekday fill:

- Line 24 groups by (day, category) and unstacks. That gives a row only to
  days with at least one categorized sale. On such a day every category
  without sales gets 0, and that 0 is a present value.
- `asfreq('D')` (line 28) then adds the days without any categorized sale
  as NaN in every column. That includes a day whose only sales have no
  translated category.
- `fillna_by_weekday` only replaces NaN cells.

So a zero survives, and a day without any categorized sale is a gap that
takes the weekday mean. A gap whose weekday never had a categorized sale
stays NaN after the fill.
The table therefore does not end up defined everywhere.

## Model

| member | source | states |
|---|---|---|
| Calendar.DayOf | task1_1.py:24 | the day a timestamp is grouped under is the calendar day whose 86400 seconds contain it (flooring, also for times before 1970) |
| Calendar.Weekday | task1_1.py:33 | `dayofweek` of a day is a number from 0 to 6 |
| Calendar.WeekdayCycle | task1_1.py:33 | 1970-01-01 is a Thursday (3), the weekday goes up by one a day from Monday 0 to Sunday 6 and wraps, and it repeats every 7 days, also before 1970 |
| Calendar.DateRange | task1_1.py:41 | `date_range(start, periods=n, freq='D')` is n consecutive ascending days, the first `start` and the last `start + n - 1` |
| DailySales.ObservedDays | task1_1.py:24 | the index of the grouped frame is ascending and holds exactly the days on which some sale with a category was made |
| DailySales.CategoriesOf | task1_1.py:24 | the unstacked columns are ascending and are exactly the categories some sale has; rows without a category count nowhere |
| DailySales.GroupCount | task1_1.py:24 | every cell of the count frame is present and equals the number of rows of that day and category whose `order_item_id` is present, so a category without sales on an observed day has 0 |
| DailySales.CountSnoc | task1_1.py:24 | `count()` skips a row whose `order_item_id` is NaN; a row with an id adds one to its own day and category and to no other cell |
| DailySales.Reindex | task1_1.py:28 | a reindexed column has one cell per new label; a label that was indexed keeps its cell and a new label is missing |
| DailySales.Axis | task1_1.py:28 | the daily axis is empty without days, and otherwise runs day by day from the first to the last day, last - first + 1 days |
| DailySales.AxisCovers | task1_1.py:28 | every day of the old index lies on the daily axis |
| DailySales.AsFreq | task1_1.py:28 | `asfreq('D')` keeps the columns, moves every indexed cell to its day on the contiguous axis, and leaves every added day missing in every column |
| DailySales.AsFreqCells | task1_1.py:24-28 | after the reindex a cell is present exactly on a day with a categorized sale, and there it is that day's count for its category |
| DailySales.Mean | task1_1.py:33 | the mean of the present values is missing exactly when there are none, and otherwise times their number gives their sum |
| DailySales.WeekdayMean | task1_1.py:33 | the weekday mean of a column is missing exactly when no present cell falls on that weekday |
| DailySales.FillColumn | task1_1.py:32-33 | `fillna_by_weekday` keeps the length and every present cell; a missing cell becomes the mean of the column's present values on its weekday, or stays missing when there are none |
| DailySales.FillTable | task1_1.py:37 | `apply(..., axis=0)` fills every column from its own cells only, keeping the axis and the categories |
| DailySales.DailySalesTable | task1_1.py:24-37 | the prepared frame is well formed (ascending days and categories, one cell per day in every column), its columns are the categories that occur, and every day with a categorized sale is on its axis |
| DailySales.DailySalesContiguous | task1_1.py:24-28 | the prepared frame's categories are those that occur; its axis is empty without categorized sales, and otherwise consecutive days from the first to the last observed day, both observed, with every observed day in between |
| DailySales.DailySalesObservedCells | task1_1.py:24-37 | on every observed day each cell is still that day's count after the fill, including the zeros of categories without sales |
| DailySales.DailySalesMissingCells | task1_1.py:28-37 | a cell is missing after the fill exactly when no categorized sale fell on its weekday |
| DailySales.DailySalesBounded | task1_1.py:24-37 | every present cell of the prepared frame, filled or not, lies between 0 and the number of sales |
| DailySales.FillIdempotent | task1_1.py:32-33 | filling a filled column changes nothing |
| DailySales.FillKeepsWeekdayMean | task1_1.py:33 | filling keeps every weekday mean as it was, so the order in which cells are filled does not matter |
| DailySales.FillWithinBounds | task1_1.py:33 | when every present value lies in [lo, hi], so does every filled value |
| DailySales.WeekdayTotals | task1_1.py:33 | one pass over a column yields, per weekday, the sum and the number of its present cells |
| DailySales.FillColumnByWeekday | task1_2.py:35-36 | computing the seven weekday means first and then filling the gaps, as groupby-transform followed by fillna does, gives the reference fill |
| Forecast.ForecastIndex | task1_1.py:41 | the forecast index exists exactly when the history has a day; it is then the 14 consecutive days after the last one, and an empty history raises the out-of-bounds error |
| Forecast.ErrorLine | task1_1.py:61 | the printed line is the fixed prefix, then the category, then `: ` and the exception message |
| Forecast.Attempt | task1_1.py:44-61 | a category gets a forecast exactly when its fit succeeds with 14 values, which become its column; otherwise the printed line carries the exception's message, or for a forecast of another length pandas' length error with both lengths |
| Forecast.Outcomes | task1_1.py:43-61 | there is one outcome per category in column order, and each is a forecast exactly when that category's own fit is usable |
| Forecast.Collect | task1_1.py:49-61 | the columns and the error lines together account for every category; every column has 14 values; a category has a column exactly when it was forecast, with the values of its outcome |
| Forecast.RunForecasts | task1_2.py:44-71 | the loop fails only on an empty history, with the out-of-bounds error; otherwise the frame's index is the initial forecast index even after the re-sets after each success, and its columns and the printed lines are the folded outcomes |
| Forecast.RunForecastsSpec | task1_1.py:43-61 | a category has a column exactly when its fit succeeds with 14 values, that column is the fit's forecast, and columns plus error lines number the categories |
| Forecast.Isolation | task1_2.py:46-71 | a category's outcome depends only on what the fit does with its own column, whatever happens to the others |
| Frames.InnerMerge | task2.py:18-20 | an inner merge holds exactly the combinations of a left and a right row that match |
| Frames.InnerMergeOrdered | task2.py:35 | when every left row matches at most one right row, the merge has at most one row per left row and follows the left frame's order |
| Frames.LeftMerge | task3.py:49 | a left merge keeps every left row at least once: combined with each matching right row, or alone when none matches |
| Frames.GroupKeys | task2.py:23 | the groups of `groupby` are ascending and are exactly the keys some row has |
| Frames.SumOverGroups | task2.py:23 | adding up the group sums over all groups gives the sum over the rows that have a key |
| Ranking.NLargest | task2.py:27 | `nlargest(n)` gives min(n, rows) rows by descending value, ties to the earlier row; every row left out is behind every row kept; nothing is left out when n covers the column |
| Ranking.NSmallest | task2.py:28 | `nsmallest(n)` gives min(n, rows) rows by ascending value, ties to the earlier row; every row left out is behind every row kept |
| Ranking.NLargestOne | task2.py:40 | `nlargest(1)` of a non-empty column is its first maximum |
| Ranking.NSmallestOne | task2.py:53 | `nsmallest(1)` of a non-empty column is its first minimum |
| Ranking.SingleRow | task2.py:52-53 | on a one-row column `nlargest(1)` and `nsmallest(1)` pick the same row |
| Turnover.Joined | task2.py:18-20 | a row survives the three inner merges exactly when its item's product, seller and order all exist, and it carries the product's category |
| Turnover.GroupSum | task2.py:23-24 | there is one row per key present, keys ascending, and each turnover is the sum of the prices of that key's rows |
| Turnover.TurnoverConservation | task2.py:23-31 | the seller turnovers, and likewise the product turnovers, add up to the sum of all prices |
| Turnover.TopTen | task2.py:27 | the top sellers are min(10, sellers) sellers by non-increasing turnover, equal turnovers in key order; no seller left out has a higher turnover than one kept, and on a key-sorted table one left out with the same turnover as one kept has a larger key |
| Turnover.BottomTen | task2.py:28 | the bottom sellers are min(10, sellers) sellers by non-decreasing turnover, equal turnovers in key order; no seller left out has a lower turnover than one kept, and on a key-sorted table one left out with the same turnover as one kept has a larger key |
| Turnover.SellerRankings | task2.py:23-28 | both tables have min(10, sellers) rows of the per-seller sums; each is ordered by turnover (descending, resp. ascending) with ties in seller id order, and every seller left out comes after every seller kept in that same order, so at the cutoff a tie goes to the seller whose id comes first |
| Turnover.ProductTurnover | task2.py:31-35 | a product turnover row exists exactly for a product total whose product is in the product table, with that product's category; with a product table free of repeated ids the merge keeps the grouped order, so there is one row per product, `product_id` ascending |
| Turnover.AsWrittenSmallestId | task2.py:31-47 | with a product table free of repeated ids, the row line 42 reports for a category carries the category's smallest product id, whichever product sells best |
| Turnover.TopProductAsWritten | task2.py:39-43 | as written, the row has the category's highest turnover but the product id of the group's first row |
| Turnover.TopProduct | task2.py:39-43 | as intended, the row is a row of the category with its highest turnover, the first such row on a tie |
| Turnover.CategoryKeys | task2.py:46 | the categories are ascending and are exactly those some product row has |
| Turnover.CategoryGroup | task2.py:46 | a listed category's group is non-empty and holds exactly the product rows of that category |
| Turnover.TopProductsAsWritten | task2.py:46-47 | as written, one row per category in ascending order, each tagged with its category, with the category's highest turnover and the product id of the category's first row |
| Turnover.TopProducts | task2.py:46-47 | as intended, one row per category in ascending order, each a row of the table in its category with the category's highest turnover |
| Turnover.TopProductsSpec | task2.py:39-47 | every category yields one row in both versions, with the same turnover, the category maximum; the intended row is a row of the table |
| Turnover.TopProductQuirk | task2.py:42 | on a category whose first product is not its best seller, the row as written pairs the first product with the best product's turnover, a row not in the table |
| Turnover.TopProductCorrected | task2.py:39-43 | on the same table the intended version reports the best product's own row |
| Turnover.SellerStats | task2.py:51-56 | within a category, the top and the bottom seller are rows of the per-seller sums with the highest and the lowest turnover, tagged with the category; on a tie each is the seller with the smallest id |
| Turnover.ItemCategories | task2.py:62 | the loop visits exactly the categories some joined row has, in ascending order |
| Turnover.CategoryStats | task2.py:62-65 | one iteration gives the extremes of its category |
| Turnover.SellersByCategory | task2.py:59-68 | when no row has a category, `pd.concat` of the empty lists raises `No objects to concatenate`; otherwise the loop gives one top and one bottom row per category, in category order, each holding that category's extremes with ties to the smallest seller id |
| Turnover.SingleSellerCategory | task2.py:51-65 | in a category with one seller, the top and the bottom row are that seller with the same turnover |
| TextClean.StripPunctuation | task3.py:23 | a character survives exactly when it is a word or space character |
| TextClean.Lower | task3.py:21 | lower-casing keeps the length and lowers each character on its own |
| TextClean.DropShortWords | task3.py:22 | removing `\b\w{1,2}\b` keeps, in order, exactly the characters outside every maximal run of one or two word characters |
| TextClean.CleanText | task3.py:19-25 | a value that is not a string cleans to the empty text, and a cleaned text holds only word and space characters |
| TextClean.DropShortFromKeeps | task3.py:22 | the run-by-run removal keeps exactly the characters that lie in no maximal run of one or two word characters |
| TextClean.CleanTextKeeps | task3.py:21-23 | `clean_text` keeps, in order, the lower-cased word and space characters outside every maximal run of one or two word characters |
| TextClean.InShortWordMatches | task3.py:22 | a position lies in a maximal run of one or two word characters exactly when a match of `\b\w{1,2}\b` covers it |
| TextClean.PriceFrom | task3.py:103 | scanning from a position finds `\bprice\b` exactly when it matches at or after that position |
| TextClean.MentionsPrice | task3.py:102-103 | `highlight_price_mentions` is true exactly when `\bprice\b` matches somewhere |
| TextClean.PriceAtBounded | task3.py:103 | when letters are word characters, `\bprice\b` matches exactly where `price` has the text's edge or a non-word character on each side |
| Sentiment.Classify | task3.py:35-40 | the label is positive exactly above zero, negative exactly below and neutral exactly at zero |
| Sentiment.GetSentiment | task3.py:32-40 | `get_sentiment` labels a text by the sign of its polarity |
| Sentiment.ClassifyComment | task3.py:134-137 | a comment is labelled by the sign of the polarity of its cleaned text; a value that is not a string gets the label of the empty text |
| Sentiment.ClassifyCommentPositive | task3.py:134-137 | a comment is positive exactly when the text that remains after dropping short words and punctuation has positive polarity |
| Sentiment.NotTextIsEmpty | task3.py:20-25 | a value that is not a string is labelled like the empty comment |
| Reviews.Prepare | task3.py:15-43 | the prepared rows are exactly the reviews with a comment, each with its cleaned comment and that comment's label |
| Reviews.PreparedRows | task3.py:23-43 | every prepared comment holds only word and space characters and carries the label of its own polarity |
| Reviews.DropUnscored | task3.py:46 | the rows kept are exactly those with a score |
| Reviews.ReviewRows | task3.py:49 | the review rows are exactly the scored reviews joined with each item of their order, or kept alone when the order has none |
| Reviews.ReviewRowItems | task3.py:49 | a review row has a product exactly when it has a seller, and then both come from one item of its order |
| Reviews.Columns | task3.py:52 | the unstacked columns are distinct and are exactly the labels some keyed row carries |
| Reviews.PartitionByLabel | task3.py:52 | the label counts of a key add up to the size of its group |
| Reviews.TotalIsGroupSize | task3.py:58 | `total_reviews` is the number of rows with the key, as a label missing from the columns counts nothing |
| Reviews.RowOf | task3.py:58-59 | a row's total is its group size, which is positive; its share is the target count over the total and lies in [0, 1] |
| Reviews.SentimentTable | task3.py:52-62 | the table fails with a KeyError exactly when no keyed row has the target label; otherwise it lists, with ascending keys, exactly the keys with a positive count in every column, each with a positive total and a share in [0, 1], so the `total_reviews > 0` filter removes nothing |
| Reviews.SortByRatio | task3.py:65 | sorting keeps the rows and their number, keeps distinct rows distinct, and leaves the shares non-increasing |
| Reviews.HeadIsTop | task3.py:88 | the first rows of a table sorted by share have the highest shares |
| Reviews.TailIsBottom | task3.py:89 | the last rows of a table sorted by share have the lowest shares |
| Reviews.ProductRanking | task3.py:52-65 | the product ranking fails exactly when no product row is positive; otherwise it holds the rows of the product table, each once, by non-increasing positive share |
| Reviews.SellerReviews | task3.py:92 | the left merge with the sellers keeps every review row and adds none |
| Reviews.HeadByRatio | task3.py:97-98 | `head(n)` after the sort gives min(n, rows) distinct rows of the table by non-increasing share, none of the others higher |
| Reviews.WorstSellers | task3.py:92-98 | the worst sellers fail exactly when no seller row is negative; otherwise they are min(10, sellers) distinct rows of the seller table by non-increasing negative share, no other seller higher |
| Reviews.PriceMentions | task3.py:106-107 | the rows kept are exactly those whose cleaned comment contains the whole word `price` |
| Reviews.Summary | task3.py:88-89 | the best and the worst products are min(10, products) rows each of the ranking, each by non-increasing share and without repeats when the ranking has none; the best are no lower and the worst no higher than any other product |
| Reviews.SummarySmall | task3.py:88-89 | with at most ten products, `head(10)` and `tail(10)` are both the whole ranking |
| Reviews.SummaryDisjoint | task3.py:88-89 | with twenty products or more, none repeated, no product is both among the best and among the worst |
| Reviews.Analyse | task3.py:52-107 | the analysis fails exactly when no product row is positive or no seller row is negative; the product case raises `KeyError: 'positive'` first, the seller case `KeyError: 'negative'` |

## Left out

- Reading the CSV files and the merges that only prepare them are not
  modelled: the loaders of every script, and `to_datetime`, `sort_values`
  and `set_index` (`task1_1.py` lines 6-21 and `task1_2.py` lines 1-25). The
  sales of `DailySales` are the joined rows themselves, each a timestamp in
  seconds, an optional `order_item_id` and an optional translated category. `Frames.InnerMerge` models
  the same joins for `task2.py`.
- Plotting is not modelled: every matplotlib and seaborn call and the
  `bar_label` loops. Neither are the tables that only feed plots: the
  weight and price merges at `task2.py` lines 71-73 and 141, and
  `sentiment_score` with its `astype(int)` at `task3.py` lines 76-77.
- Console I/O is not modelled: `input` and `print`. The printed error lines
  of the forecast loop are kept as a log, and the printed forecast frame is
  the result.
- The internals of `ExponentialSmoothing` and `auto_arima` are not
  modelled: the fit is a parameter that returns values or an exception
  message.
- The index alignment of the assigned forecast series is not modelled. The
  fit's values are taken as the values of the 14 forecast days, in order.
  A forecast of another length is treated as the `ValueError` pandas
  raises when a list of another length is assigned as a column. A Series
  would instead be aligned on the index.
- TextBlob's polarity is a parameter, a function from text to a real
  number.
- Unicode details are not modelled. `\w`, `\s` and `str.lower` are
  parameters, and lower-casing maps one character to one character. Python
  maps a few characters to two.
- Floating point is not modelled. Counts, sums, means and shares are exact
  reals, so rounding in pandas' sums and means is not modelled.
- Time zones and leap seconds are not modelled: a timestamp is a count of
  seconds since 1970-01-01 UTC.
- Reviews.SortByRatio: pandas' default quicksort may order equal shares
  either way. The model keeps them in table order. The contract claims only
  the same rows and the same length, distinct rows kept distinct, and
  non-increasing shares.
- Reviews.Analyse: states only when and with which `KeyError` the analysis
  fails. The parts of a successful report are stated by `ProductRanking`,
  `WorstSellers`, `PriceMentions` and `Summary`.
- Reviews.SellerReviews: states that the left merge with the sellers keeps
  every row and adds no new one. It does not state how often a row repeats
  when a seller id occurs twice in the seller table.
- Reviews.ReviewRows: states which rows appear, not how often each repeats
  for an order with several equal items.
- Reviews.Prepare: states which rows appear, not their order.
- Reviews.DropUnscored: states which rows are kept, not that their order is
  kept.
- Reviews.PriceMentions: states which rows are kept, not that their order
  is kept.
- Turnover.Joined: states which rows appear, not how often each repeats
  when a key is duplicated in a joined table.
- Frames.InnerMerge: states membership only, not multiplicity or order.
  `Frames.InnerMergeOrdered` states the order for the case where each left
  row matches at most one right row.
- Frames.LeftMerge: states membership and a lower bound on the length,
  not multiplicity or order.

## Findings

| source | as written | input that shows it | evidently intended | confidence | as-written member | corrected member |
|---|---|---|---|---|---|---|
| task2.py:42 | `get_top_products` overwrites the `product_id` of the `nlargest(1)` row with `df['product_id'].iloc[0]`, the group's first product | one category `toys` with products `p1` (turnover 1.0) then `p2` (5.0): the row reported is (`p1`, 5.0), a product paired with another product's turnover | report the product that has the highest turnover, here (`p2`, 5.0) | not executed | Turnover.TopProductQuirk | Turnover.TopProductCorrected |
