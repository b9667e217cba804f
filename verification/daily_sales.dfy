/** The daily sales matrix of the forecasting scripts: order items bucketed by
  calendar day and category and counted (task1_1.py line 24), reindexed to
  every calendar day between the first and the last observed day (line 28),
  and gap-filled per category with the mean of the same weekday (lines 32-37).
  task1_2.py repeats the same pipeline at lines 28-40.
*/
module DailySales {
  import opened Wrappers
  import opened Order
  import opened Frames
  import opened Calendar

  /** One row of the joined order-item table: its order's purchase time, its
      `order_item_id` (missing when the cell is NaN) and its product's
      translated category, missing when the product had no category or no
      translation. */
  datatype Sale = Sale(timestamp: int, itemId: Option<int>, category: Option<string>)

  type Column = seq<Option<real>>

  /** A frame indexed by calendar day with one column per category; a column
      is stored as its sequence of cells, one per day, `None` standing for NaN. */
  datatype DayTable = DayTable(days: seq<int>, categories: seq<string>, columns: seq<Column>)

  predicate WellFormed(t: DayTable) {
    && SortedBy(t.days, IntLess)
    && SortedBy(t.categories, StrLess)
    && |t.columns| == |t.categories|
    && (forall j :: 0 <= j < |t.columns| ==> |t.columns[j]| == |t.days|)
  }

  /** The day a sale is counted under, or `None` when groupby drops the row
      because its category is missing. */
  function CountedDay(s: Sale): Option<int> {
    if s.category.Some? then Some(DayOf(s.timestamp)) else None
  }

  /** `['order_item_id'].count()` of the sales on day `d` in category `c`:
      the number of those rows whose `order_item_id` is present. */
  function Count(sales: seq<Sale>, d: int, c: string): nat {
    |Filter(sales, (s: Sale) => DayOf(s.timestamp) == d && s.category == Some(c) && s.itemId.Some?)|
  }

  /** Lemma: a row whose `order_item_id` is NaN adds to no count, and one with
      an id adds one to the count of its own day and category only. */
  lemma CountSnoc(sales: seq<Sale>, x: Sale, d: int, c: string)
    ensures Count(sales + [x], d, c) ==
      Count(sales, d, c) + (if x.itemId.Some? && x.category == Some(c) && DayOf(x.timestamp) == d then 1 else 0)
  {
    FilterAppend(sales, [x], (s: Sale) => DayOf(s.timestamp) == d && s.category == Some(c) && s.itemId.Some?);
  }

  /** Some sale with a category was made on day `d`. */
  predicate Observed(sales: seq<Sale>, d: int) {
    exists k :: 0 <= k < |sales| && sales[k].category.Some? && DayOf(sales[k].timestamp) == d
  }

  /** Some sale with a category was made on a day of weekday `w`. */
  predicate ObservedWeekday(sales: seq<Sale>, w: int) {
    exists k :: 0 <= k < |sales| && sales[k].category.Some? && Weekday(DayOf(sales[k].timestamp)) == w
  }

  /** Some sale has category `c`. */
  predicate Occurs(sales: seq<Sale>, c: string) {
    exists k :: 0 <= k < |sales| && sales[k].category == Some(c)
  }

  /** The index of line 24: the days with at least one categorized sale, ascending. */
  function ObservedDays(sales: seq<Sale>): (days: seq<int>)
    ensures SortedBy(days, IntLess)
    ensures forall d :: d in days <==> Observed(sales, d)
  {
    IntLessStrictTotal();
    var days := GroupKeys(sales, CountedDay, IntLess);
    assert forall d :: HasKey(sales, CountedDay, d) <==> Observed(sales, d) by {
      forall d ensures HasKey(sales, CountedDay, d) <==> Observed(sales, d) {
        if HasKey(sales, CountedDay, d) {
          var k :| 0 <= k < |sales| && CountedDay(sales[k]) == Some(d);
        }
        if Observed(sales, d) {
          var k :| 0 <= k < |sales| && sales[k].category.Some? && DayOf(sales[k].timestamp) == d;
          assert CountedDay(sales[k]) == Some(d);
        }
      }
    }
    days
  }

  /** The columns of line 24: the categories that occur, ascending. */
  function CategoriesOf(sales: seq<Sale>): (cats: seq<string>)
    ensures SortedBy(cats, StrLess)
    ensures forall c :: c in cats <==> Occurs(sales, c)
  {
    StrLessStrictTotal();
    var cats := GroupKeys(sales, (s: Sale) => s.category, StrLess);
    assert forall c :: HasKey(sales, (s: Sale) => s.category, c) <==> Occurs(sales, c);
    cats
  }

  /** Line 24: `groupby([Grouper(freq='D'), category]).count().unstack().fillna(0)`.
      The index holds only the days with at least one categorized sale, the
      columns only the categories that occur, and every cell is a count: a
      (day, category) pair without sales gets 0, not NaN. */
  function GroupCount(sales: seq<Sale>): (t: DayTable)
    ensures WellFormed(t)
    ensures t.days == ObservedDays(sales) && t.categories == CategoriesOf(sales)
    ensures forall j, i :: 0 <= j < |t.columns| && 0 <= i < |t.days| ==>
      t.columns[j][i] == Some(Count(sales, t.days[i], t.categories[j]) as real)
  {
    var days := ObservedDays(sales);
    var cats := CategoriesOf(sales);
    var columns := seq(|cats|, j requires 0 <= j < |cats| => CountColumn(sales, days, cats[j]));
    DayTable(days, cats, columns)
  }

  /** The counts of one category over the given days. */
  function CountColumn(sales: seq<Sale>, days: seq<int>, c: string): (col: Column)
    ensures |col| == |days|
    ensures forall i :: 0 <= i < |days| ==> col[i] == Some(Count(sales, days[i], c) as real)
  {
    seq(|days|, i requires 0 <= i < |days| => Some(Count(sales, days[i], c) as real))
  }

  lemma AscendingBounds(days: seq<int>)
    requires SortedBy(days, IntLess) && |days| > 0
    ensures forall k :: 0 <= k < |days| ==> days[0] <= days[k] <= days[|days| - 1]
  {
    forall k | 0 <= k < |days| ensures days[0] <= days[k] <= days[|days| - 1] {
      if 0 < k { assert IntLess(days[0], days[k]); }
      if k < |days| - 1 { assert IntLess(days[k], days[|days| - 1]); }
    }
  }

  lemma AscendingIndexOf(days: seq<int>, k: int)
    requires SortedBy(days, IntLess) && 0 <= k < |days|
    ensures IndexOf(days, days[k]) == k
  {
  }

  /** One column of a frame with index `from` reindexed to the labels `to`:
      a label found in `from` takes its cell, any other label is NaN. */
  function Reindex(col: Column, from: seq<int>, to: seq<int>): (r: Column)
    requires |col| == |from|
    ensures |r| == |to|
    ensures forall i :: 0 <= i < |to| && to[i] !in from ==> r[i] == None
    ensures forall i, k :: 0 <= i < |to| && 0 <= k < |from| && SortedBy(from, IntLess) && to[i] == from[k] ==>
      r[i] == col[k]
  {
    var r := seq(|to|, i requires 0 <= i < |to| => if to[i] in from then col[IndexOf(from, to[i])] else None);
    assert forall i, k :: 0 <= i < |to| && 0 <= k < |from| && SortedBy(from, IntLess) && to[i] == from[k] ==>
      r[i] == col[k] by {
      forall i, k | 0 <= i < |to| && 0 <= k < |from| && SortedBy(from, IntLess) && to[i] == from[k]
        ensures r[i] == col[k]
      {
        AscendingIndexOf(from, k);
      }
    }
    r
  }

  /** The day axis of `asfreq('D')`: every day from the first to the last of
      the ascending `days`, none when there are none. */
  function Axis(days: seq<int>): (r: seq<int>)
    requires SortedBy(days, IntLess)
    ensures |days| == 0 ==> r == []
    ensures |days| > 0 ==>
      && |r| == days[|days| - 1] - days[0] + 1
      && forall i :: 0 <= i < |r| ==> r[i] == days[0] + i
  {
    if |days| == 0 then []
    else
      AscendingBounds(days);
      DateRange(days[0], days[|days| - 1] - days[0] + 1)
  }

  /** Every day of `days` is on its axis. */
  lemma AxisCovers(days: seq<int>)
    requires SortedBy(days, IntLess)
    ensures forall k :: 0 <= k < |days| ==> days[k] in Axis(days)
  {
    if |days| > 0 {
      AscendingBounds(days);
      var axis := Axis(days);
      forall k | 0 <= k < |days| ensures days[k] in axis {
        assert axis[days[k] - days[0]] == days[k];
      }
    }
  }

  /** Line 28: `asfreq('D')`. The day axis becomes every day from the first to
      the last indexed day; an indexed day keeps its cells and every added day
      is missing in every column. An empty frame stays empty. */
  function AsFreq(t: DayTable): (r: DayTable)
    requires WellFormed(t)
    ensures WellFormed(r)
    ensures r.categories == t.categories
    ensures r.days == Axis(t.days)
    ensures forall k, j :: 0 <= k < |t.days| && 0 <= j < |r.columns| ==>
      0 <= t.days[k] - t.days[0] < |r.days| && r.columns[j][t.days[k] - t.days[0]] == t.columns[j][k]
    ensures forall j, i :: 0 <= j < |r.columns| && 0 <= i < |r.days| && r.days[i] !in t.days ==>
      r.columns[j][i] == None
  {
    if |t.days| == 0 then t
    else
      var first := t.days[0];
      AscendingBounds(t.days);
      var days := Axis(t.days);
      var columns := seq(|t.columns|, j requires 0 <= j < |t.columns| => Reindex(t.columns[j], t.days, days));
      assert forall k :: 0 <= k < |t.days| ==> days[t.days[k] - first] == t.days[k];
      DayTable(days, t.categories, columns)
  }

  /** The present values of `col` on days whose weekday is `w`, in day order. */
  function PresentOn(col: Column, days: seq<int>, w: int): seq<real>
    requires |col| == |days|
  {
    if col == [] then []
    else
      var n := |col| - 1;
      PresentOn(col[..n], days[..n], w) + (if col[n].Some? && Weekday(days[n]) == w then [col[n].value] else [])
  }

  /** Number of missing cells of `col` on days whose weekday is `w`. */
  function MissingOn(col: Column, days: seq<int>, w: int): nat
    requires |col| == |days|
  {
    if col == [] then 0
    else
      var n := |col| - 1;
      MissingOn(col[..n], days[..n], w) + (if col[n].None? && Weekday(days[n]) == w then 1 else 0)
  }

  /** Some cell of `col` on a day with weekday `w` is present. */
  predicate HasPresentOn(col: Column, days: seq<int>, w: int)
    requires |col| == |days|
  {
    exists k :: 0 <= k < |col| && col[k].Some? && Weekday(days[k]) == w
  }

  /** The mean of a series, NaN (`None`) for an empty one (pandas skips NaN). */
  function Mean(xs: seq<real>): (m: Option<real>)
    ensures m.Some? <==> |xs| > 0
    ensures m.Some? ==> m.value * (|xs| as real) == Sum(xs)
  {
    if xs == [] then None else Some(Sum(xs) / (|xs| as real))
  }

  /** `df.groupby(df.index.dayofweek).transform('mean')` at a day of weekday `w`. */
  function WeekdayMean(col: Column, days: seq<int>, w: int): (r: Option<real>)
    requires |col| == |days|
    ensures r.None? <==> !HasPresentOn(col, days, w)
  {
    PresentOnNonEmpty(col, days);
    Mean(PresentOn(col, days, w))
  }

  /** Lines 32-33, `fillna_by_weekday`: a missing cell takes the mean of the
      present cells of the same weekday, computed on the column before any
      filling; a present cell, zero included, is left alone; a missing cell
      whose weekday has no present cell stays missing. */
  function FillColumn(col: Column, days: seq<int>): (r: Column)
    requires |col| == |days|
    ensures |r| == |col|
    ensures forall i :: 0 <= i < |col| && col[i].Some? ==> r[i] == col[i]
    ensures forall i :: 0 <= i < |col| ==>
      (r[i].None? <==> col[i].None? && !HasPresentOn(col, days, Weekday(days[i])))
    ensures forall i :: 0 <= i < |col| && col[i].None? ==> r[i] == WeekdayMean(col, days, Weekday(days[i]))
  {
    PresentOnNonEmpty(col, days);
    seq(|col|, i requires 0 <= i < |col| =>
      if col[i].Some? then col[i] else WeekdayMean(col, days, Weekday(days[i])))
  }

  /** Line 37, `apply(fillna_by_weekday, axis=0)`: every column is filled on
      its own, from its own cells and the shared day axis. */
  function FillTable(t: DayTable): (r: DayTable)
    requires WellFormed(t)
    ensures WellFormed(r)
    ensures r.days == t.days && r.categories == t.categories
    ensures forall j :: 0 <= j < |r.columns| ==> r.columns[j] == FillColumn(t.columns[j], t.days)
  {
    DayTable(t.days, t.categories,
      seq(|t.columns|, j requires 0 <= j < |t.columns| => FillColumn(t.columns[j], t.days)))
  }

  /** The whole preparation: count, reindex daily, fill by weekday. The
      columns are the categories that occur, and every day with a categorized
      sale is on the axis. */
  function DailySalesTable(sales: seq<Sale>): (r: DayTable)
    ensures WellFormed(r)
    ensures r.categories == CategoriesOf(sales)
    ensures forall d :: Observed(sales, d) ==> d in r.days
  {
    ObservedOnAxis(sales);
    FillTable(AsFreq(GroupCount(sales)))
  }

  // ----- Lemmas about the whole preparation -----

  /** Theorem (line 28): the day axis is every calendar day from the first to
      the last day with a categorized sale, so it has last - first + 1 rows;
      without any categorized sale it is empty. The columns are the categories
      that occur. */
  lemma DailySalesContiguous(sales: seq<Sale>)
    ensures DailySalesTable(sales).categories == CategoriesOf(sales)
    ensures (forall k :: 0 <= k < |sales| ==> sales[k].category.None?) ==> DailySalesTable(sales).days == []
    ensures (exists k :: 0 <= k < |sales| && sales[k].category.Some?) ==>
      var days := DailySalesTable(sales).days;
      && |days| > 0
      && (forall i :: 0 <= i < |days| ==> days[i] == days[0] + i)
      && (forall d :: Observed(sales, d) ==> days[0] <= d <= days[|days| - 1])
      && Observed(sales, days[0])
      && Observed(sales, days[|days| - 1])
  {
    DailySalesAxis(sales);
    var days := ObservedDays(sales);
    ObservedDaysSpan(sales);
    if |days| > 0 {
      assert days[0] in days && days[|days| - 1] in days;
    }
  }

  /** The prepared table's axis and columns. */
  lemma DailySalesAxis(sales: seq<Sale>)
    ensures DailySalesTable(sales).days == Axis(ObservedDays(sales))
    ensures DailySalesTable(sales).categories == CategoriesOf(sales)
  {
  }

  /** The observed days are empty exactly when no sale has a category, and
      otherwise the first and last of them bound every observed day. */
  lemma ObservedDaysSpan(sales: seq<Sale>)
    ensures var days := ObservedDays(sales);
      && ((forall k :: 0 <= k < |sales| ==> sales[k].category.None?) ==> days == [])
      && ((exists k :: 0 <= k < |sales| && sales[k].category.Some?) ==>
            |days| > 0 && forall d :: Observed(sales, d) ==> days[0] <= d <= days[|days| - 1])
  {
    var days := ObservedDays(sales);
    if |days| > 0 {
      assert Observed(sales, days[0]);
    }
    if exists k :: 0 <= k < |sales| && sales[k].category.Some? {
      var k :| 0 <= k < |sales| && sales[k].category.Some?;
      assert Observed(sales, DayOf(sales[k].timestamp));
      AscendingBounds(days);
      forall d | Observed(sales, d) ensures days[0] <= d <= days[|days| - 1] {
        var p := IndexOf(days, d);
      }
    }
  }

  /** After the reindex, a cell is present exactly on the days with a
      categorized sale, and there it is that day's count; every such day is
      on the axis. */
  lemma AsFreqCells(sales: seq<Sale>)
    ensures var a := AsFreq(GroupCount(sales));
      forall i, j :: 0 <= i < |a.days| && 0 <= j < |a.columns| ==> CountedCell(sales, a, i, j)
  {
    var a := AsFreq(GroupCount(sales));
    forall i, j | 0 <= i < |a.days| && 0 <= j < |a.columns| ensures CountedCell(sales, a, i, j) {
      AsFreqCell(sales, i, j);
    }
  }

  /** Cell `(i, j)` of `a` is present exactly on a day with a categorized
      sale, and there it is that day's count for its category. */
  ghost predicate CountedCell(sales: seq<Sale>, a: DayTable, i: int, j: int) {
    && 0 <= i < |a.days| && 0 <= j < |a.columns| && 0 <= j < |a.categories| && i < |a.columns[j]|
    && (a.columns[j][i].Some? <==> Observed(sales, a.days[i]))
    && (Observed(sales, a.days[i]) ==> a.columns[j][i] == Some(Count(sales, a.days[i], a.categories[j]) as real))
  }

  lemma AsFreqCell(sales: seq<Sale>, i: int, j: int)
    requires var a := AsFreq(GroupCount(sales)); 0 <= i < |a.days| && 0 <= j < |a.columns|
    ensures CountedCell(sales, AsFreq(GroupCount(sales)), i, j)
  {
    var g := GroupCount(sales);
    var a := AsFreq(g);
    if a.days[i] in g.days {
      var k := IndexOf(g.days, a.days[i]);
      assert a.columns[j][g.days[k] - g.days[0]] == g.columns[j][k];
    }
  }

  /** Every day with a categorized sale is on the reindexed axis. */
  lemma ObservedOnAxis(sales: seq<Sale>)
    ensures forall d :: Observed(sales, d) ==> d in AsFreq(GroupCount(sales)).days
  {
    var days := ObservedDays(sales);
    AxisCovers(days);
    forall d | Observed(sales, d) ensures d in Axis(days) {
      assert days[IndexOf(days, d)] == d;
    }
  }

  /** Theorem (lines 24 and 32-33): on a day with a categorized sale every
      cell is that day's count for its category, a category without sales
      that day included, with 0; the weekday fill never touches these cells. */
  lemma DailySalesObservedCells(sales: seq<Sale>)
    ensures var r := DailySalesTable(sales);
      forall i, j :: 0 <= i < |r.days| && 0 <= j < |r.categories| && Observed(sales, r.days[i]) ==>
        r.columns[j][i] == Some(Count(sales, r.days[i], r.categories[j]) as real)
  {
    AsFreqCells(sales);
  }

  /** Theorem (line 33, the all-missing weekday): a cell is missing after the
      fill exactly when no categorized sale fell on its weekday, in which case
      the whole row of that day is missing in every column. */
  lemma DailySalesMissingCells(sales: seq<Sale>)
    ensures var r := DailySalesTable(sales);
      forall i, j :: 0 <= i < |r.days| && 0 <= j < |r.categories| ==>
        (r.columns[j][i].None? <==> !ObservedWeekday(sales, Weekday(r.days[i])))
  {
    var a := AsFreq(GroupCount(sales));
    AsFreqCells(sales);
    ObservedOnAxis(sales);
    forall j | 0 <= j < |a.columns|
      ensures forall i :: 0 <= i < |a.days| ==>
        (FillColumn(a.columns[j], a.days)[i].None? <==> !ObservedWeekday(sales, Weekday(a.days[i])))
    {
      MissingColumn(sales, a.columns[j], a.days);
    }
  }

  /** One column whose present cells are exactly the observed days: after
      the fill a cell is missing exactly when its weekday was never observed. */
  lemma MissingColumn(sales: seq<Sale>, col: Column, days: seq<int>)
    requires |col| == |days|
    requires forall i :: 0 <= i < |days| ==> (col[i].Some? <==> Observed(sales, days[i]))
    requires forall d :: Observed(sales, d) ==> d in days
    ensures forall i :: 0 <= i < |days| ==>
      (FillColumn(col, days)[i].None? <==> !ObservedWeekday(sales, Weekday(days[i])))
  {
    forall i | 0 <= i < |days|
      ensures FillColumn(col, days)[i].None? <==> !ObservedWeekday(sales, Weekday(days[i]))
    {
      var w := Weekday(days[i]);
      WeekdayPresence(sales, col, days, w);
      if col[i].Some? {
        assert HasPresentOn(col, days, w);
      }
    }
  }

  /** A weekday has a present cell exactly when a categorized sale fell on it. */
  lemma WeekdayPresence(sales: seq<Sale>, col: Column, days: seq<int>, w: int)
    requires |col| == |days|
    requires forall i :: 0 <= i < |days| ==> (col[i].Some? <==> Observed(sales, days[i]))
    requires forall d :: Observed(sales, d) ==> d in days
    ensures HasPresentOn(col, days, w) <==> ObservedWeekday(sales, w)
  {
    if HasPresentOn(col, days, w) {
      var q :| 0 <= q < |col| && col[q].Some? && Weekday(days[q]) == w;
      var k :| 0 <= k < |sales| && sales[k].category.Some? && DayOf(sales[k].timestamp) == days[q];
    }
    if ObservedWeekday(sales, w) {
      var k :| 0 <= k < |sales| && sales[k].category.Some? && Weekday(DayOf(sales[k].timestamp)) == w;
      var d := DayOf(sales[k].timestamp);
      assert Observed(sales, d);
      var q := IndexOf(days, d);
      assert col[q].Some? && Weekday(days[q]) == w;
    }
  }

  /** Theorem: every present cell lies between 0 and the number of sales, the
      gap-filled ones included, as each is a count or a mean of counts. */
  lemma DailySalesBounded(sales: seq<Sale>)
    ensures var r := DailySalesTable(sales);
      forall i, j :: 0 <= i < |r.days| && 0 <= j < |r.categories| && r.columns[j][i].Some? ==>
        0.0 <= r.columns[j][i].value <= |sales| as real
  {
    var a := AsFreq(GroupCount(sales));
    forall j, i | 0 <= j < |a.columns| && 0 <= i < |a.days| && a.columns[j][i].Some?
      ensures 0.0 <= a.columns[j][i].value <= |sales| as real
    {
      AsFreqCell(sales, i, j);
      assert Count(sales, a.days[i], a.categories[j]) <= |sales|;
    }
    FillTableWithinBounds(a, 0.0, |sales| as real);
  }

  /** Lemma: filling every column keeps every present cell within [lo, hi]. */
  lemma FillTableWithinBounds(t: DayTable, lo: real, hi: real)
    requires WellFormed(t)
    requires forall j, i :: 0 <= j < |t.columns| && 0 <= i < |t.days| && t.columns[j][i].Some? ==>
      lo <= t.columns[j][i].value <= hi
    ensures var r := FillTable(t);
      forall i, j :: 0 <= i < |r.days| && 0 <= j < |r.categories| && r.columns[j][i].Some? ==>
        lo <= r.columns[j][i].value <= hi
  {
    forall j | 0 <= j < |t.columns|
      ensures forall i :: 0 <= i < |t.days| && FillColumn(t.columns[j], t.days)[i].Some? ==>
        lo <= FillColumn(t.columns[j], t.days)[i].value <= hi
    {
      FillWithinBounds(t.columns[j], t.days, lo, hi);
    }
  }

  // ----- Lemmas about the weekday fill -----

  lemma {:induction false} PresentOnNonEmpty(col: Column, days: seq<int>)
    requires |col| == |days|
    ensures forall w :: |PresentOn(col, days, w)| > 0 <==> HasPresentOn(col, days, w)
    decreases |col|
  {
    if col != [] {
      var n := |col| - 1;
      PresentOnNonEmpty(col[..n], days[..n]);
      forall w ensures |PresentOn(col, days, w)| > 0 <==> HasPresentOn(col, days, w) {
        if HasPresentOn(col[..n], days[..n], w) {
          var k :| 0 <= k < n && col[..n][k].Some? && Weekday(days[..n][k]) == w;
          assert col[k].Some? && Weekday(days[k]) == w;
        }
        if HasPresentOn(col, days, w) {
          var k :| 0 <= k < |col| && col[k].Some? && Weekday(days[k]) == w;
          if k < n {
            assert col[..n][k].Some? && Weekday(days[..n][k]) == w;
          }
        }
      }
    }
  }

  /** Lemma: filling is idempotent. A cell left missing by the first pass
      belongs to a weekday with no present cell, and the first pass gives that
      weekday no present cell either, so the second pass changes nothing. */
  lemma FillIdempotent(col: Column, days: seq<int>)
    requires |col| == |days|
    ensures FillColumn(FillColumn(col, days), days) == FillColumn(col, days)
  {
    var f := FillColumn(col, days);
    var ff := FillColumn(f, days);
    forall i | 0 <= i < |col| ensures ff[i] == f[i] {
      if f[i].None? {
        var w := Weekday(days[i]);
        assert !HasPresentOn(col, days, w);
        assert !HasPresentOn(f, days, w) by {
          forall k | 0 <= k < |f| && Weekday(days[k]) == w ensures f[k].None? {
            assert col[k].None?;
          }
        }
      }
    }
  }

  /** Lemma: filling a column leaves every weekday mean where it was, because
      each added value is that very mean. */
  lemma FillKeepsWeekdayMean(col: Column, days: seq<int>, w: int)
    requires |col| == |days|
    ensures WeekdayMean(FillColumn(col, days), days, w) == WeekdayMean(col, days, w)
  {
    var f := FillColumn(col, days);
    PresentOnNonEmpty(col, days);
    PresentOnNonEmpty(f, days);
    var p := PresentOn(col, days, w);
    if |p| == 0 {
      assert !HasPresentOn(f, days, w) by {
        forall k | 0 <= k < |f| && Weekday(days[k]) == w ensures f[k].None? {
          assert col[k].None?;
        }
      }
    } else {
      var m := Sum(p) / (|p| as real);
      assert forall i :: 0 <= i < |col| && Weekday(days[i]) == w ==>
        f[i] == (if col[i].Some? then col[i] else Some(m));
      PresentOnAfterFill(col, f, days, w, m);
      PaddedMean(p, PresentOn(f, days, w), MissingOn(col, days, w));
    }
  }

  /** k copies of m added up. */
  function Copies(k: nat, m: real): real {
    if k == 0 then 0.0 else Copies(k - 1, m) + m
  }

  lemma {:induction false} CopiesIsProduct(k: nat, m: real)
    ensures Copies(k, m) == (k as real) * m
  {
    if k > 0 {
      CopiesIsProduct(k - 1, m);
      assert ((k - 1) as real) * m + m == (k as real) * m;
    }
  }

  lemma PaddedMean(p: seq<real>, q: seq<real>, k: nat)
    requires |p| > 0 && |q| == |p| + k
    requires Sum(q) == Sum(p) + Copies(k, Sum(p) / (|p| as real))
    ensures Mean(q) == Mean(p)
  {
    var m := Sum(p) / (|p| as real);
    CopiesIsProduct(k, m);
    MeanOfPadded(Sum(p), |p| as real, k as real, m);
    assert |q| as real == (|p| as real) + (k as real);
    assert Sum(q) / (|q| as real) == m;
  }

  /** Padding a sample of n values with mean m by k more copies of m keeps the mean. */
  lemma MeanOfPadded(total: real, n: real, k: real, m: real)
    requires n > 0.0 && k >= 0.0 && m == total / n
    ensures (total + k * m) / (n + k) == m
  {
    assert total == n * m;
    assert total + k * m == (n + k) * m;
  }

  /** A column that agrees with `col` on the weekday-`w` cells, except that
      its missing ones hold m, has m once more per missing cell. */
  lemma {:induction false} PresentOnAfterFill(col: Column, g: Column, days: seq<int>, w: int, m: real)
    requires |col| == |days| == |g|
    requires forall i :: 0 <= i < |col| && Weekday(days[i]) == w ==>
      g[i] == (if col[i].Some? then col[i] else Some(m))
    ensures |PresentOn(g, days, w)| == |PresentOn(col, days, w)| + MissingOn(col, days, w)
    ensures Sum(PresentOn(g, days, w)) == Sum(PresentOn(col, days, w)) + Copies(MissingOn(col, days, w), m)
    decreases |col|
  {
    if col != [] {
      var n := |col| - 1;
      PresentOnAfterFill(col[..n], g[..n], days[..n], w, m);
      PresentOnAfterFillStep(col, g, days, w, m);
    }
  }

  lemma PresentOnAfterFillStep(col: Column, g: Column, days: seq<int>, w: int, m: real)
    requires |col| == |days| == |g| > 0
    requires Weekday(days[|col| - 1]) == w ==>
      g[|col| - 1] == (if col[|col| - 1].Some? then col[|col| - 1] else Some(m))
    requires |PresentOn(g[..|col| - 1], days[..|col| - 1], w)|
          == |PresentOn(col[..|col| - 1], days[..|col| - 1], w)| + MissingOn(col[..|col| - 1], days[..|col| - 1], w)
    requires Sum(PresentOn(g[..|col| - 1], days[..|col| - 1], w))
          == Sum(PresentOn(col[..|col| - 1], days[..|col| - 1], w)) + Copies(MissingOn(col[..|col| - 1], days[..|col| - 1], w), m)
    ensures |PresentOn(g, days, w)| == |PresentOn(col, days, w)| + MissingOn(col, days, w)
    ensures Sum(PresentOn(g, days, w)) == Sum(PresentOn(col, days, w)) + Copies(MissingOn(col, days, w), m)
  {
    var n := |col| - 1;
    var a := PresentOn(col[..n], days[..n], w);
    var b := PresentOn(g[..n], days[..n], w);
    var k := MissingOn(col[..n], days[..n], w);
    if Weekday(days[n]) != w {
      assert PresentOn(col, days, w) == a && PresentOn(g, days, w) == b;
      assert MissingOn(col, days, w) == k;
    } else if col[n].Some? {
      assert PresentOn(col, days, w) == a + [col[n].value];
      assert PresentOn(g, days, w) == b + [col[n].value];
      assert MissingOn(col, days, w) == k;
      SumAppend(a, [col[n].value]);
      SumAppend(b, [col[n].value]);
    } else {
      assert PresentOn(col, days, w) == a;
      assert PresentOn(g, days, w) == b + [m];
      assert MissingOn(col, days, w) == k + 1;
      assert Copies(k + 1, m) == Copies(k, m) + m;
      SumAppend(b, [m]);
    }
  }

  /** Lemma: when every present cell lies in [lo, hi], so does every cell after
      filling, since a mean never leaves the range of what it averages. */
  lemma FillWithinBounds(col: Column, days: seq<int>, lo: real, hi: real)
    requires |col| == |days|
    requires forall i :: 0 <= i < |col| && col[i].Some? ==> lo <= col[i].value <= hi
    ensures forall i :: 0 <= i < |col| && FillColumn(col, days)[i].Some? ==>
      lo <= FillColumn(col, days)[i].value <= hi
  {
    forall i | 0 <= i < |col| && FillColumn(col, days)[i].Some?
      ensures lo <= FillColumn(col, days)[i].value <= hi
    {
      if col[i].None? {
        WeekdayMeanWithinBounds(col, days, Weekday(days[i]), lo, hi);
      }
    }
  }

  lemma WeekdayMeanWithinBounds(col: Column, days: seq<int>, w: int, lo: real, hi: real)
    requires |col| == |days|
    requires forall i :: 0 <= i < |col| && col[i].Some? ==> lo <= col[i].value <= hi
    ensures WeekdayMean(col, days, w).Some? ==> lo <= WeekdayMean(col, days, w).value <= hi
  {
    var p := PresentOn(col, days, w);
    if |p| > 0 {
      PresentOnBounded(col, days, w, lo, hi);
      MeanOfBounded(p, lo, hi);
    }
  }

  lemma MeanOfBounded(xs: seq<real>, lo: real, hi: real)
    requires |xs| > 0
    requires forall k :: 0 <= k < |xs| ==> lo <= xs[k] <= hi
    ensures lo <= Sum(xs) / (|xs| as real) <= hi
  {
    SumBounds(xs, lo, hi);
    CopiesIsProduct(|xs|, lo);
    CopiesIsProduct(|xs|, hi);
    MeanBetween(Sum(xs), |xs| as real, lo, hi);
  }

  lemma MeanBetween(total: real, n: real, lo: real, hi: real)
    requires n > 0.0 && n * lo <= total <= n * hi
    ensures lo <= total / n <= hi
  {
    assert (total / n) * n == total;
  }

  lemma {:induction false} PresentOnBounded(col: Column, days: seq<int>, w: int, lo: real, hi: real)
    requires |col| == |days|
    requires forall i :: 0 <= i < |col| && col[i].Some? ==> lo <= col[i].value <= hi
    ensures forall k :: 0 <= k < |PresentOn(col, days, w)| ==> lo <= PresentOn(col, days, w)[k] <= hi
    decreases |col|
  {
    if col != [] {
      var n := |col| - 1;
      PresentOnBounded(col[..n], days[..n], w, lo, hi);
    }
  }

  lemma {:induction false} SumBounds(xs: seq<real>, lo: real, hi: real)
    requires forall k :: 0 <= k < |xs| ==> lo <= xs[k] <= hi
    ensures Copies(|xs|, lo) <= Sum(xs) <= Copies(|xs|, hi)
    decreases |xs|
  {
    if xs != [] {
      SumBounds(xs[..|xs| - 1], lo, hi);
    }
  }

  lemma PresentOnPrefix(col: Column, days: seq<int>, i: int)
    requires |col| == |days| && 0 <= i < |col|
    ensures forall w ::
      Sum(PresentOn(col[..i + 1], days[..i + 1], w))
        == Sum(PresentOn(col[..i], days[..i], w)) + (if col[i].Some? && Weekday(days[i]) == w then col[i].value else 0.0)
    ensures forall w ::
      |PresentOn(col[..i + 1], days[..i + 1], w)|
        == |PresentOn(col[..i], days[..i], w)| + (if col[i].Some? && Weekday(days[i]) == w then 1 else 0)
  {
    assert col[..i + 1][..i] == col[..i] && days[..i + 1][..i] == days[..i];
    forall w
      ensures Sum(PresentOn(col[..i + 1], days[..i + 1], w))
        == Sum(PresentOn(col[..i], days[..i], w)) + (if col[i].Some? && Weekday(days[i]) == w then col[i].value else 0.0)
    {
      var tail := if col[i].Some? && Weekday(days[i]) == w then [col[i].value] else [];
      SumAppend(PresentOn(col[..i], days[..i], w), tail);
    }
  }

  /** `sums` and `counts` hold, per weekday, the sum and the number of the
      present cells among the first `i`. */
  ghost predicate TotalsUpTo(col: Column, days: seq<int>, i: int, sums: seq<real>, counts: seq<nat>)
    requires |col| == |days| && 0 <= i <= |col|
  {
    && |sums| == 7 && |counts| == 7
    && forall w :: 0 <= w < 7 ==>
      sums[w] == Sum(PresentOn(col[..i], days[..i], w)) && counts[w] == |PresentOn(col[..i], days[..i], w)|
  }

  /** The weekday sums after adding one cell: a present value goes to its
      day's weekday. */
  function AddSum(sums: seq<real>, cell: Option<real>, d: int): (r: seq<real>)
    requires |sums| == 7
    ensures |r| == 7
  {
    if cell.Some? then sums[Weekday(d) := sums[Weekday(d)] + cell.value] else sums
  }

  /** The weekday counts after adding one cell. */
  function AddCount(counts: seq<nat>, cell: Option<real>, d: int): (r: seq<nat>)
    requires |counts| == 7
    ensures |r| == 7
  {
    if cell.Some? then counts[Weekday(d) := counts[Weekday(d)] + 1] else counts
  }

  /** Adding cell `i` extends the totals by one cell. */
  lemma TotalsStep(col: Column, days: seq<int>, i: int, sums: seq<real>, counts: seq<nat>)
    requires |col| == |days| && 0 <= i < |col|
    requires TotalsUpTo(col, days, i, sums, counts)
    ensures TotalsUpTo(col, days, i + 1, AddSum(sums, col[i], days[i]), AddCount(counts, col[i], days[i]))
  {
    PresentOnPrefix(col, days, i);
  }

  /** The groupby half of lines 32-33: one pass over the column gathers, for
      each weekday, the sum and the number of its present cells. */
  method WeekdayTotals(col: Column, days: seq<int>) returns (sums: seq<real>, counts: seq<nat>)
    requires |col| == |days|
    ensures |sums| == 7 && |counts| == 7
    ensures forall w :: 0 <= w < 7 ==>
      sums[w] == Sum(PresentOn(col, days, w)) && counts[w] == |PresentOn(col, days, w)|
  {
    sums := [0.0, 0.0, 0.0, 0.0, 0.0, 0.0, 0.0];
    counts := [0, 0, 0, 0, 0, 0, 0];
    var i := 0;
    assert TotalsUpTo(col, days, 0, sums, counts) by {
      assert col[..0] == [] && days[..0] == [];
    }
    while i < |col|
      invariant 0 <= i <= |col|
      invariant TotalsUpTo(col, days, i, sums, counts)
    {
      TotalsStep(col, days, i, sums, counts);
      sums, counts := AddSum(sums, col[i], days[i]), AddCount(counts, col[i], days[i]);
      i := i + 1;
    }
    TotalsDone(col, days, sums, counts);
  }

  lemma TotalsDone(col: Column, days: seq<int>, sums: seq<real>, counts: seq<nat>)
    requires |col| == |days| && TotalsUpTo(col, days, |col|, sums, counts)
    ensures |sums| == 7 && |counts| == 7
    ensures forall w :: 0 <= w < 7 ==>
      sums[w] == Sum(PresentOn(col, days, w)) && counts[w] == |PresentOn(col, days, w)|
  {
    assert col[..|col|] == col && days[..|days|] == days;
  }

  /** Lines 32-33 computed as pandas does it: the seven weekday means are
      taken from the column before any cell is filled (the groupby-transform),
      then a second pass fills the missing cells from them (the `fillna`). */
  method FillColumnByWeekday(col: Column, days: seq<int>) returns (r: Column)
    requires |col| == |days|
    ensures r == FillColumn(col, days)
  {
    var sums, counts := WeekdayTotals(col, days);
    r := [];
    var i := 0;
    while i < |col|
      invariant 0 <= i <= |col|
      invariant |r| == i
      invariant forall k :: 0 <= k < i ==> r[k] == FillColumn(col, days)[k]
    {
      var w := Weekday(days[i]);
      var cell := if col[i].Some? then col[i]
                  else if counts[w] == 0 then None
                  else Some(sums[w] / (counts[w] as real));
      r := r + [cell];
      i := i + 1;
    }
  }
}
