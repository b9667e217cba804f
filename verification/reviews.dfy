/** The review tables of task3.py: reviews with a comment are cleaned and
  labelled (lines 15-43), those without a score are dropped (line 46), each
  is joined to the items of its order (line 49), and the labelled rows are
  counted per product and per seller (lines 52-62 and 92-98) into tables of
  sentiment counts, their total, and the share of one label; the tables are
  ranked by that share (lines 65, 88-89 and 97-98). The reviews whose cleaned
  comment names the price are picked out (lines 106-107).
*/
module Reviews {
  import opened Wrappers
  import opened Order
  import opened Frames
  import opened Ranking
  import opened TextClean
  import opened Sentiment

  /** A row of `order_reviews.csv`: the comment and the score may be missing
      (`None`, pandas' NaN). */
  datatype Review = Review(orderId: string, comment: Option<Comment>, score: Option<int>)

  /** A review after lines 28 and 43: its cleaned comment and its label. */
  datatype Scored = Scored(orderId: string, clean: string, sentiment: Label, score: Option<int>)

  /** The columns of `order_items.csv` taken at line 49. */
  datatype ItemRef = ItemRef(orderId: string, productId: string, sellerId: string)

  /** The columns of `sellers.csv` taken at line 92. */
  datatype SellerRef = SellerRef(sellerId: string, city: string, state: string)

  /** A review joined to one item of its order, or to nothing (`None`). */
  datatype ReviewRow = ReviewRow(orderId: string, clean: string, sentiment: Label, score: Option<int>,
                                 productId: Option<string>, sellerId: Option<string>)

  // ----- Lines 15-49: preparing the reviews -----

  /** `s` is what lines 28 and 43 make of the review `rv`, which has a comment. */
  ghost predicate Prepared(a: Alphabet, p: Polarity, rv: Review, s: Scored) {
    && rv.comment.Some?
    && s == Scored(rv.orderId, CleanText(a, rv.comment.value), ClassifyComment(a, p, rv.comment.value), rv.score)
  }

  /** Lines 15, 28 and 43: the reviews whose comment is not NaN, in order, each
      with its cleaned comment and that comment's label. */
  function Prepare(a: Alphabet, p: Polarity, reviews: seq<Review>): (r: seq<Scored>)
    ensures |r| <= |reviews|
    ensures forall s :: s in r <==> exists rv :: rv in reviews && Prepared(a, p, rv, s)
  {
    if reviews == [] then []
    else
      var init := reviews[..|reviews| - 1];
      var last := reviews[|reviews| - 1];
      assert forall rv :: rv in reviews <==> rv in init || rv == last;
      var tail := match last.comment
        case None => []
        case Some(t) => [Scored(last.orderId, CleanText(a, t), ClassifyComment(a, p, t), last.score)];
      assert forall s :: s in tail <==> Prepared(a, p, last, s);
      Prepare(a, p, init) + tail
  }

  /** Theorem (lines 23 and 35-40): every prepared comment holds only word and
      space characters, and its label is the sign of its own polarity. */
  lemma PreparedRows(a: Alphabet, p: Polarity, reviews: seq<Review>)
    ensures forall s :: s in Prepare(a, p, reviews) ==>
      && (forall c :: c in s.clean ==> a.word(c) || a.space(c))
      && s.sentiment == GetSentiment(p, s.clean)
  {
  }

  function HasScore(s: Scored): bool {
    s.score.Some?
  }

  /** Line 46, `dropna(subset=['review_score'])`. */
  function DropUnscored(rows: seq<Scored>): (r: seq<Scored>)
    ensures |r| <= |rows|
    ensures forall s :: s in r <==> s in rows && s.score.Some?
  {
    Filter(rows, HasScore)
  }

  function SameOrder(s: Scored, i: ItemRef): bool {
    s.orderId == i.orderId
  }

  /** A review row of the left merge at line 49: the item's product and seller,
      or NaN for both when the order has no item. */
  function WithItem(s: Scored, i: Option<ItemRef>): ReviewRow {
    match i
    case None => ReviewRow(s.orderId, s.clean, s.sentiment, s.score, None, None)
    case Some(it) => ReviewRow(s.orderId, s.clean, s.sentiment, s.score, Some(it.productId), Some(it.sellerId))
  }

  /** Lines 15-49: the labelled, scored reviews, one row per item of their
      order and one with neither product nor seller when the order has none. */
  function ReviewRows(a: Alphabet, p: Polarity, reviews: seq<Review>, items: seq<ItemRef>): (r: seq<ReviewRow>)
    ensures forall x :: x in r <==>
      exists s :: s in DropUnscored(Prepare(a, p, reviews)) && LeftRowOf(s, items, SameOrder, WithItem, x)
  {
    LeftMerge(DropUnscored(Prepare(a, p, reviews)), items, SameOrder, WithItem)
  }

  /** Theorem (line 49): a review row names a product exactly when it names a
      seller, and then they come from one item of the review's order. */
  lemma ReviewRowItems(a: Alphabet, p: Polarity, reviews: seq<Review>, items: seq<ItemRef>)
    ensures forall x :: x in ReviewRows(a, p, reviews, items) ==>
      && (x.productId.Some? <==> x.sellerId.Some?)
      && (x.productId.Some? ==> ItemRef(x.orderId, x.productId.value, x.sellerId.value) in items)
  {
  }

  // ----- Lines 52-62 and 93-96: the sentiment tables -----

  /** The grouping key of a table: the product or the seller of a row. */
  type Key = ReviewRow -> Option<string>

  function ProductKey(x: ReviewRow): Option<string> {
    x.productId
  }

  function SellerKey(x: ReviewRow): Option<string> {
    x.sellerId
  }

  /** Some row with a key carries label `l`: `l` is a column of the table
      `groupby([key, 'sentiment']).size().unstack()`. */
  predicate LabelOccurs(rows: seq<ReviewRow>, key: Key, l: Label) {
    exists i :: 0 <= i < |rows| && key(rows[i]).Some? && rows[i].sentiment == l
  }

  /** The columns of the unstacked table, in label order. */
  function Columns(rows: seq<ReviewRow>, key: Key): (cols: seq<Label>)
    ensures forall l :: l in cols <==> LabelOccurs(rows, key, l)
    ensures Distinct(cols)
  {
    LabelsPresent(LabelOccurs(rows, key, Negative), LabelOccurs(rows, key, Neutral), LabelOccurs(rows, key, Positive))
  }

  /** The labels flagged present, in label order. */
  function LabelsPresent(n: bool, u: bool, p: bool): (cols: seq<Label>)
    ensures forall l :: l in cols <==> (l == Negative && n) || (l == Neutral && u) || (l == Positive && p)
    ensures Distinct(cols)
  {
    (if n then [Negative] else []) + (if u then [Neutral] else []) + (if p then [Positive] else [])
  }

  function KeyLabel(key: Key, k: string, l: Label): ReviewRow -> bool {
    x => key(x) == Some(k) && x.sentiment == l
  }

  /** The cell `(k, l)` of `size()`: the rows with key `k` and label `l`. */
  function Count(rows: seq<ReviewRow>, key: Key, k: string, l: Label): nat {
    |Filter(rows, KeyLabel(key, k, l))|
  }

  /** `sum(axis=1)` over the given columns of row `k`. */
  function SumCounts(rows: seq<ReviewRow>, key: Key, k: string, cols: seq<Label>): nat {
    if cols == [] then 0
    else SumCounts(rows, key, k, cols[..|cols| - 1]) + Count(rows, key, k, cols[|cols| - 1])
  }

  /** Row `k` has no NaN cell: every column's count is positive (`dropna()`). */
  predicate Complete(rows: seq<ReviewRow>, key: Key, k: string, cols: seq<Label>) {
    forall l :: l in cols ==> Count(rows, key, k, l) > 0
  }

  /** A row of the table after lines 55-59: the key, its count per column,
      `total_reviews` and the share of the target label. */
  datatype SentimentRow = SentimentRow(key: string, counts: seq<nat>, total: nat, ratio: real)

  /** The table row of key `k`: its counts, `total_reviews` (line 58) and the
      target share (line 59). */
  function RowOf(rows: seq<ReviewRow>, key: Key, k: string, cols: seq<Label>, target: Label): (x: SentimentRow)
    requires cols == Columns(rows, key) && target in cols && HasKey(rows, key, k)
    ensures x.key == k && x.total == |Group(rows, key, k)| > 0
    ensures |x.counts| == |cols| && forall i :: 0 <= i < |cols| ==> x.counts[i] == Count(rows, key, k, cols[i])
    ensures x.ratio == Count(rows, key, k, target) as real / x.total as real
    ensures 0.0 <= x.ratio <= 1.0
  {
    TotalIsGroupSize(rows, key, k);
    GroupNonEmpty(rows, key, k);
    CountWithinTotal(rows, key, k, cols, target);
    var total := SumCounts(rows, key, k, cols);
    var c := Count(rows, key, k, target);
    ShareBounds(c, total);
    SentimentRow(k, seq(|cols|, i requires 0 <= i < |cols| => Count(rows, key, k, cols[i])), total,
                 c as real / total as real)
  }

  /** The rows of the listed keys, in order. */
  function RowsOf(rows: seq<ReviewRow>, key: Key, cols: seq<Label>, target: Label, ks: seq<string>): (t: seq<SentimentRow>)
    requires cols == Columns(rows, key) && target in cols
    requires forall k :: k in ks ==> HasKey(rows, key, k)
    ensures |t| == |ks| && forall i :: 0 <= i < |ks| ==> t[i] == RowOf(rows, key, ks[i], cols, target)
  {
    seq(|ks|, i requires 0 <= i < |ks| => RowOf(rows, key, ks[i], cols, target))
  }

  /** The row test of line 62, `total_reviews > 0`. */
  function Reviewed(x: SentimentRow): bool {
    x.total > 0
  }

  /** The table is listed under key `k`. */
  ghost predicate Listed(t: seq<SentimentRow>, k: string) {
    exists x :: x in t && x.key == k
  }

  /** `x` is a full row of the table: a positive count in every column,
      `total_reviews` the number of rows with its key, and the target share
      that count over the total, a number between 0 and 1. */
  ghost predicate Counted(rows: seq<ReviewRow>, key: Key, target: Label, x: SentimentRow) {
    && |x.counts| == |Columns(rows, key)|
    && (forall i :: 0 <= i < |x.counts| ==> x.counts[i] > 0)
    && x.total == |Group(rows, key, x.key)| > 0
    && x.ratio == Count(rows, key, x.key, target) as real / x.total as real
    && 0.0 <= x.ratio <= 1.0
  }

  /** Lines 52-62 (and 93-97 for sellers): the keys whose row has no NaN cell,
      ascending, each with its counts, total and target share; `KeyError`
      when no keyed row carries the target label, so that its column does not
      exist. */
  function SentimentTable(rows: seq<ReviewRow>, key: Key, target: Label): (r: Result<seq<SentimentRow>>)
    ensures r.Failure? <==> !LabelOccurs(rows, key, target)
    ensures r.Failure? ==> r.error == KeyError(target)
    ensures r.Success? ==> forall k :: Listed(r.value, k) <==> HasKey(rows, key, k) && Complete(rows, key, k, Columns(rows, key))
    ensures r.Success? ==> forall i, j :: 0 <= i < j < |r.value| ==> StrLess(r.value[i].key, r.value[j].key)
    ensures r.Success? ==> forall x :: x in r.value ==> Counted(rows, key, target, x)
  {
    var cols := Columns(rows, key);
    if target !in cols then Failure(KeyError(target))
    else
      StrLessStrictTotal();
      var keys := GroupKeys(rows, key, StrLess);
      var kept := Filter(keys, k => Complete(rows, key, k, cols));
      var t := RowsOf(rows, key, cols, target, kept);
      assert forall i :: 0 <= i < |t| ==> Reviewed(t[i]);
      FilterAll(t, Reviewed);
      SentimentTableSpec(rows, key, cols, target, keys, kept, t);
      Success(Filter(t, Reviewed))
  }

  lemma SentimentTableSpec(rows: seq<ReviewRow>, key: Key, cols: seq<Label>, target: Label,
                           keys: seq<string>, kept: seq<string>, t: seq<SentimentRow>)
    requires cols == Columns(rows, key) && target in cols
    requires StrictTotal(StrLess) && keys == GroupKeys(rows, key, StrLess)
    requires kept == Filter(keys, k => Complete(rows, key, k, cols))
    requires t == RowsOf(rows, key, cols, target, kept)
    ensures forall k :: Listed(t, k) <==> HasKey(rows, key, k) && Complete(rows, key, k, cols)
    ensures forall i, j :: 0 <= i < j < |t| ==> StrLess(t[i].key, t[j].key)
    ensures forall x :: x in t ==> Counted(rows, key, target, x)
  {
    ListedKeys(rows, key, cols, target, kept, t);
    FilterSorted(keys, k => Complete(rows, key, k, cols), StrLess);
    PositiveCounts(rows, key, cols, target, kept, t);
  }

  lemma ListedKeys(rows: seq<ReviewRow>, key: Key, cols: seq<Label>, target: Label,
                   kept: seq<string>, t: seq<SentimentRow>)
    requires cols == Columns(rows, key) && target in cols
    requires forall k :: k in kept <==> HasKey(rows, key, k) && Complete(rows, key, k, cols)
    requires t == RowsOf(rows, key, cols, target, kept)
    ensures forall k :: Listed(t, k) <==> HasKey(rows, key, k) && Complete(rows, key, k, cols)
  {
    assert forall i :: 0 <= i < |t| ==> t[i].key == kept[i];
    KeysListed(t, kept);
  }

  /** A table whose keys are, row by row, those of `kept` lists exactly the
      keys of `kept`. */
  lemma KeysListed(t: seq<SentimentRow>, kept: seq<string>)
    requires |t| == |kept| && forall i :: 0 <= i < |t| ==> t[i].key == kept[i]
    ensures forall k :: Listed(t, k) <==> k in kept
  {
    forall k ensures Listed(t, k) <==> k in kept {
      if Listed(t, k) {
        var x :| x in t && x.key == k;
        var i :| 0 <= i < |t| && t[i] == x;
        assert kept[i] in kept;
      }
      if k in kept {
        var i :| 0 <= i < |kept| && kept[i] == k;
        assert t[i] in t;
      }
    }
  }

  lemma PositiveCounts(rows: seq<ReviewRow>, key: Key, cols: seq<Label>, target: Label,
                       kept: seq<string>, t: seq<SentimentRow>)
    requires cols == Columns(rows, key) && target in cols
    requires forall k :: k in kept ==> HasKey(rows, key, k) && Complete(rows, key, k, cols)
    requires t == RowsOf(rows, key, cols, target, kept)
    ensures forall x :: x in t ==> Counted(rows, key, target, x)
  {
    forall x | x in t ensures Counted(rows, key, target, x) {
      var j :| 0 <= j < |t| && t[j] == x;
      assert kept[j] in kept;
      forall i | 0 <= i < |x.counts| ensures x.counts[i] > 0 {
        assert cols[i] in cols;
      }
    }
  }

  // ----- The counts add up -----

  /** Every keyed row of group `k` carries exactly one of the three labels. */
  lemma {:induction false} PartitionByLabel(rows: seq<ReviewRow>, key: Key, k: string)
    ensures Count(rows, key, k, Negative) + Count(rows, key, k, Neutral) + Count(rows, key, k, Positive)
         == |Group(rows, key, k)|
    decreases |rows|
  {
    if rows != [] {
      PartitionByLabel(rows[..|rows| - 1], key, k);
    }
  }

  /** A label counted for some key is a column of the table. */
  lemma CountedOccurs(rows: seq<ReviewRow>, key: Key, k: string, l: Label)
    ensures Count(rows, key, k, l) > 0 ==> LabelOccurs(rows, key, l)
  {
    var f := Filter(rows, KeyLabel(key, k, l));
    if |f| > 0 {
      assert f[0] in f;
      var i :| 0 <= i < |rows| && rows[i] == f[0];
    }
  }

  /** Adding a column that may be absent adds its count when it is present. */
  lemma SumCountsSnoc(rows: seq<ReviewRow>, key: Key, k: string, cols: seq<Label>, l: Label, present: bool)
    ensures SumCounts(rows, key, k, cols + (if present then [l] else []))
         == SumCounts(rows, key, k, cols) + (if present then Count(rows, key, k, l) else 0)
  {
    if present {
      assert (cols + [l])[..|cols|] == cols;
    } else {
      assert cols + [] == cols;
    }
  }

  /** Theorem (line 58): the total of row `k` is the number of rows with key
      `k`, as the columns left out of the table count nothing. */
  lemma TotalIsGroupSize(rows: seq<ReviewRow>, key: Key, k: string)
    ensures SumCounts(rows, key, k, Columns(rows, key)) == |Group(rows, key, k)|
  {
    ColumnsTotal(rows, key, k);
    PartitionByLabel(rows, key, k);
    CountedOccurs(rows, key, k, Negative);
    CountedOccurs(rows, key, k, Neutral);
    CountedOccurs(rows, key, k, Positive);
  }

  /** The total over the columns adds the count of each label that is a
      column. */
  lemma ColumnsTotal(rows: seq<ReviewRow>, key: Key, k: string)
    ensures SumCounts(rows, key, k, Columns(rows, key))
         == (if LabelOccurs(rows, key, Negative) then Count(rows, key, k, Negative) else 0)
          + (if LabelOccurs(rows, key, Neutral) then Count(rows, key, k, Neutral) else 0)
          + (if LabelOccurs(rows, key, Positive) then Count(rows, key, k, Positive) else 0)
  {
    PresentTotal(rows, key, k, LabelOccurs(rows, key, Negative), LabelOccurs(rows, key, Neutral), LabelOccurs(rows, key, Positive));
  }

  lemma PresentTotal(rows: seq<ReviewRow>, key: Key, k: string, n: bool, u: bool, p: bool)
    ensures SumCounts(rows, key, k, LabelsPresent(n, u, p))
         == (if n then Count(rows, key, k, Negative) else 0)
          + (if u then Count(rows, key, k, Neutral) else 0)
          + (if p then Count(rows, key, k, Positive) else 0)
  {
    var e: seq<Label> := [];
    var a := e + (if n then [Negative] else []);
    var ab := a + (if u then [Neutral] else []);
    assert LabelsPresent(n, u, p) == ab + (if p then [Positive] else []);
    SumCountsSnoc(rows, key, k, e, Negative, n);
    SumCountsSnoc(rows, key, k, a, Neutral, u);
    SumCountsSnoc(rows, key, k, ab, Positive, p);
  }

  lemma {:induction false} CountWithinTotal(rows: seq<ReviewRow>, key: Key, k: string, cols: seq<Label>, l: Label)
    requires l in cols
    ensures Count(rows, key, k, l) <= SumCounts(rows, key, k, cols)
    decreases |cols|
  {
    var n := |cols| - 1;
    if cols[n] != l {
      assert l in cols[..n] by {
        var i :| 0 <= i < |cols| && cols[i] == l;
        assert cols[..n][i] == l;
      }
      CountWithinTotal(rows, key, k, cols[..n], l);
    }
  }

  lemma ShareBounds(c: nat, total: nat)
    requires c <= total && total > 0
    ensures 0.0 <= c as real / total as real <= 1.0
  {
  }

  // ----- Lines 65, 88-89 and 97-98: ranking by the share -----

  function Ratios(t: seq<SentimentRow>): (vs: seq<real>)
    ensures |vs| == |t| && forall i :: 0 <= i < |t| ==> vs[i] == t[i].ratio
  {
    seq(|t|, i requires 0 <= i < |t| => t[i].ratio)
  }

  /** `sort_values(by=..., ascending=False)`: the same rows, the share never
      increasing down the table. pandas' default quicksort leaves the order of
      equal shares open; this model keeps them in table order. */
  function SortByRatio(t: seq<SentimentRow>): (r: seq<SentimentRow>)
    ensures |r| == |t|
    ensures forall x :: x in r <==> x in t
    ensures Distinct(t) ==> Distinct(r)
    ensures forall i, j :: 0 <= i < j < |r| ==> r[i].ratio >= r[j].ratio
  {
    var sel := NLargest(Ratios(t), |t|);
    var r := seq(|sel|, k requires 0 <= k < |sel| => t[sel[k].pos]);
    SortByRatioSpec(t, sel, r);
    r
  }

  lemma SortByRatioSpec(t: seq<SentimentRow>, sel: seq<Ranked>, r: seq<SentimentRow>)
    requires sel == NLargest(Ratios(t), |t|)
    requires |r| == |sel| && forall k :: 0 <= k < |sel| ==> r[k] == t[sel[k].pos]
    ensures forall x :: x in r <==> x in t
    ensures Distinct(t) ==> Distinct(r)
  {
    SortCovers(t, Ratios(t), sel, r);
    if Distinct(t) {
      forall i, j | 0 <= i < j < |r| ensures r[i] != r[j] {
        assert sel[i].pos != sel[j].pos;
      }
    }
  }

  lemma SortCovers(t: seq<SentimentRow>, vs: seq<real>, sel: seq<Ranked>, r: seq<SentimentRow>)
    requires |vs| == |t|
    requires |r| == |sel| && forall k :: 0 <= k < |sel| ==> 0 <= sel[k].pos < |t| && r[k] == t[sel[k].pos]
    requires forall p :: 0 <= p < |vs| ==> Ranked(vs[p], p) in sel
    ensures forall x :: x in r <==> x in t
  {
    forall x | x in t ensures x in r {
      var p :| 0 <= p < |t| && t[p] == x;
      var k :| 0 <= k < |sel| && sel[k] == Ranked(vs[p], p);
      assert r[k] == x;
    }
  }

  /** No row of `all` outside `top` has a higher share than a row of `top`. */
  ghost predicate Above(top: seq<SentimentRow>, all: seq<SentimentRow>) {
    forall x, y :: x in top && y in all && y !in top ==> x.ratio >= y.ratio
  }

  /** No row of `all` outside `bottom` has a lower share than a row of `bottom`. */
  ghost predicate Below(bottom: seq<SentimentRow>, all: seq<SentimentRow>) {
    forall x, y :: x in bottom && y in all && y !in bottom ==> y.ratio >= x.ratio
  }

  /** The first `m` rows of a table sorted by share are its top rows (`head`). */
  lemma HeadIsTop(s: seq<SentimentRow>, m: nat)
    requires m <= |s|
    requires forall i, j :: 0 <= i < j < |s| ==> s[i].ratio >= s[j].ratio
    ensures Above(s[..m], s)
  {
    forall x, y | x in s[..m] && y in s && y !in s[..m] ensures x.ratio >= y.ratio {
      var i :| 0 <= i < m && s[..m][i] == x;
      var j :| 0 <= j < |s| && s[j] == y;
    }
  }

  /** The last `m` rows of a table sorted by share are its bottom rows (`tail`). */
  lemma TailIsBottom(s: seq<SentimentRow>, m: nat)
    requires m <= |s|
    requires forall i, j :: 0 <= i < j < |s| ==> s[i].ratio >= s[j].ratio
    ensures Below(s[|s| - m..], s)
  {
    var b := |s| - m;
    forall x, y | x in s[b..] && y in s && y !in s[b..] ensures y.ratio >= x.ratio {
      var i :| 0 <= i < m && s[b..][i] == x;
      var j :| 0 <= j < |s| && s[j] == y;
    }
  }

  /** Lines 52-65: the product table ranked by the share of positive reviews. */
  function ProductRanking(rows: seq<ReviewRow>): (r: Result<seq<SentimentRow>>)
    ensures r.Failure? <==> !LabelOccurs(rows, ProductKey, Positive)
    ensures r.Failure? ==> r.error == KeyError(Positive)
    ensures r.Success? ==>
      && (forall x :: x in r.value <==> x in SentimentTable(rows, ProductKey, Positive).value)
      && |r.value| == |SentimentTable(rows, ProductKey, Positive).value|
      && Distinct(r.value)
      && (forall i, j :: 0 <= i < j < |r.value| ==> r.value[i].ratio >= r.value[j].ratio)
  {
    var t :- SentimentTable(rows, ProductKey, Positive);
    SortedKeysDistinct(t);
    Success(SortByRatio(t))
  }

  /** Rows with strictly ascending keys are pairwise different. */
  lemma SortedKeysDistinct(t: seq<SentimentRow>)
    requires forall i, j :: 0 <= i < j < |t| ==> StrLess(t[i].key, t[j].key)
    ensures Distinct(t)
  {
    forall i, j | 0 <= i < j < |t| ensures t[i] != t[j] {
      StrLessIrreflexive(t[i].key);
    }
  }

  function SameSeller(x: ReviewRow, s: SellerRef): bool {
    x.sellerId == Some(s.sellerId)
  }

  /** The city and state columns that line 92 adds are never read again. */
  function KeepReview(x: ReviewRow, s: Option<SellerRef>): ReviewRow {
    x
  }

  /** Line 92, the left merge with the sellers: every review row is kept, once
      per seller row with its id, or once when there is none. */
  function SellerReviews(rows: seq<ReviewRow>, sellers: seq<SellerRef>): (r: seq<ReviewRow>)
    ensures |r| >= |rows|
    ensures forall x :: x in r <==> x in rows
  {
    LeftMerge(rows, sellers, SameSeller, KeepReview)
  }

  /** `top` is the first `n` rows of `t` sorted by share: as many as there
      are up to `n`, rows of `t`, by non-increasing share, and none of the
      others with a higher share. */
  ghost predicate TopOf(top: seq<SentimentRow>, t: seq<SentimentRow>, n: nat) {
    && |top| == Min(n, |t|)
    && (forall x :: x in top ==> x in t)
    && (forall i, j :: 0 <= i < j < |top| ==> top[i].ratio >= top[j].ratio)
    && Above(top, t)
  }

  /** `sort_values(..., ascending=False).head(n)`: the `n` rows with the
      highest shares, highest first; none of the others has a higher share. */
  function HeadByRatio(t: seq<SentimentRow>, n: nat): (r: seq<SentimentRow>)
    requires Distinct(t)
    ensures TopOf(r, t, n) && Distinct(r)
  {
    var sorted := SortByRatio(t);
    var m := Min(n, |sorted|);
    HeadByRatioSpec(t, sorted, m);
    sorted[..m]
  }

  lemma HeadByRatioSpec(t: seq<SentimentRow>, sorted: seq<SentimentRow>, m: nat)
    requires m <= |sorted| && Distinct(sorted)
    requires forall x :: x in sorted <==> x in t
    requires forall i, j :: 0 <= i < j < |sorted| ==> sorted[i].ratio >= sorted[j].ratio
    ensures Distinct(sorted[..m])
    ensures forall x :: x in sorted[..m] ==> x in t
    ensures Above(sorted[..m], t)
  {
    HeadIsTop(sorted, m);
    forall x | x in sorted[..m] ensures x in t {
      var i :| 0 <= i < m && sorted[..m][i] == x;
      assert sorted[i] == x;
    }
  }

  /** Lines 92-98: the sellers with complete rows, ranked by the share of
      negative reviews, the first ten of them. */
  function WorstSellers(rows: seq<ReviewRow>, sellers: seq<SellerRef>): (r: Result<seq<SentimentRow>>)
    ensures r.Failure? <==> !LabelOccurs(SellerReviews(rows, sellers), SellerKey, Negative)
    ensures r.Failure? ==> r.error == KeyError(Negative)
    ensures r.Success? ==> var t := SentimentTable(SellerReviews(rows, sellers), SellerKey, Negative);
      t.Success? && TopOf(r.value, t.value, 10) && Distinct(r.value)
  {
    var table := SentimentTable(SellerReviews(rows, sellers), SellerKey, Negative);
    if table.Failure? then Failure(table.error)
    else
      SortedKeysDistinct(table.value);
      Success(HeadByRatio(table.value, 10))
  }

  function MentionsPriceIn(w: char -> bool): ReviewRow -> bool {
    (x: ReviewRow) => MentionsPrice(w, x.clean)
  }

  /** Lines 106-107: the review rows whose cleaned comment contains the whole
      word `price`. */
  function PriceMentions(a: Alphabet, rows: seq<ReviewRow>): (r: seq<ReviewRow>)
    ensures |r| <= |rows|
    ensures forall x :: x in r <==> x in rows && exists i: nat :: PriceAt(a.word, x.clean, i)
  {
    Filter(rows, MentionsPriceIn(a.word))
  }

  /** What the script computes from the reviews. */
  datatype Report = Report(best: seq<SentimentRow>, worst: seq<SentimentRow>,
                           worstSellers: seq<SentimentRow>, priceMentions: seq<ReviewRow>)

  /** The rows of `s` are rows of `all`, by non-increasing share. */
  ghost predicate RankedRowsOf(s: seq<SentimentRow>, all: seq<SentimentRow>) {
    && (forall x :: x in s ==> x in all)
    && (forall i, j :: 0 <= i < j < |s| ==> s[i].ratio >= s[j].ratio)
  }

  /** Lines 88-89: the ten first and the ten last products of the ranking,
      that is the best and the worst reviewed ones. */
  function Summary(ranked: seq<SentimentRow>, worstSellers: seq<SentimentRow>, mentions: seq<ReviewRow>): (r: Report)
    requires forall i, j :: 0 <= i < j < |ranked| ==> ranked[i].ratio >= ranked[j].ratio
    ensures |r.best| == |r.worst| == Min(10, |ranked|)
    ensures RankedRowsOf(r.best, ranked) && RankedRowsOf(r.worst, ranked)
    ensures Above(r.best, ranked) && Below(r.worst, ranked)
    ensures Distinct(ranked) ==> Distinct(r.best) && Distinct(r.worst)
    ensures r.worstSellers == worstSellers && r.priceMentions == mentions
  {
    var m := Min(10, |ranked|);
    var best := ranked[..m];
    var worst := ranked[|ranked| - m..];
    HeadIsTop(ranked, m);
    TailIsBottom(ranked, m);
    SliceRanked(ranked, best, 0);
    SliceRanked(ranked, worst, |ranked| - m);
    Report(best, worst, worstSellers, mentions)
  }

  /** A run of consecutive rows of a ranking, starting at `lo`, is ranked, and
      duplicate-free when the ranking is. */
  lemma SliceRanked(s: seq<SentimentRow>, sub: seq<SentimentRow>, lo: nat)
    requires lo + |sub| <= |s| && forall k :: 0 <= k < |sub| ==> sub[k] == s[lo + k]
    requires forall i, j :: 0 <= i < j < |s| ==> s[i].ratio >= s[j].ratio
    ensures RankedRowsOf(sub, s)
    ensures Distinct(s) ==> Distinct(sub)
  {
    forall x | x in sub ensures x in s {
      var k :| 0 <= k < |sub| && sub[k] == x;
      assert s[lo + k] == x;
    }
    forall i, j | 0 <= i < j < |sub| ensures sub[i].ratio >= sub[j].ratio {
      assert sub[i] == s[lo + i] && sub[j] == s[lo + j];
    }
  }

  /** Theorem (lines 88-89): with at most ten products the best and the worst
      products are the whole ranking. */
  lemma SummarySmall(ranked: seq<SentimentRow>, worstSellers: seq<SentimentRow>, mentions: seq<ReviewRow>)
    requires forall i, j :: 0 <= i < j < |ranked| ==> ranked[i].ratio >= ranked[j].ratio
    requires |ranked| <= 10
    ensures Summary(ranked, worstSellers, mentions).best == ranked
    ensures Summary(ranked, worstSellers, mentions).worst == ranked
  {
    assert ranked[..|ranked|] == ranked;
  }

  /** Theorem (lines 88-89): with twenty products or more, none listed twice,
      no product is among both the best and the worst ten. */
  lemma SummaryDisjoint(ranked: seq<SentimentRow>, worstSellers: seq<SentimentRow>, mentions: seq<ReviewRow>)
    requires forall i, j :: 0 <= i < j < |ranked| ==> ranked[i].ratio >= ranked[j].ratio
    requires Distinct(ranked) && |ranked| >= 20
    ensures var r := Summary(ranked, worstSellers, mentions);
      forall x :: x in r.best ==> x !in r.worst
  {
    var r := Summary(ranked, worstSellers, mentions);
    var n := |ranked|;
    assert r.best == ranked[..10] && r.worst == ranked[n - 10..];
    forall x | x in r.best ensures x !in r.worst {
      var i :| 0 <= i < 10 && r.best[i] == x;
      assert ranked[i] == x;
      assert forall k :: 0 <= k < 10 ==> r.worst[k] == ranked[n - 10 + k] != ranked[i];
    }
  }

  /** Lines 52-107 on the joined review rows. It stops with a `KeyError` at
      line 59 when no product row has a positive review, or at line 96 when
      no seller row has a negative one. */
  function Analyse(a: Alphabet, rows: seq<ReviewRow>, sellers: seq<SellerRef>): (r: Result<Report>)
    ensures r.Failure? <==>
      !LabelOccurs(rows, ProductKey, Positive) || !LabelOccurs(SellerReviews(rows, sellers), SellerKey, Negative)
    ensures r.Failure? && !LabelOccurs(rows, ProductKey, Positive) ==> r.error == KeyError(Positive)
    ensures r.Failure? && LabelOccurs(rows, ProductKey, Positive) ==> r.error == KeyError(Negative)
  {
    var ranked :- ProductRanking(rows);
    var worstSellers :- WorstSellers(rows, sellers);
    Success(Summary(ranked, worstSellers, PriceMentions(a, rows)))
  }

  /** The message of the `KeyError` raised by selecting the missing column
      of label `l`, as in `KeyError: 'positive'`. */
  function KeyError(l: Label): string {
    "KeyError: " + LabelName(l)
  }

  function LabelName(l: Label): string {
    match l
    case Negative => "'negative'"
    case Neutral => "'neutral'"
    case Positive => "'positive'"
  }
}
