/** The turnover analysis of task2.py: order items joined with their product,
  seller and order (lines 18-20), turnover per seller and per product as the
  sum of the items' prices (lines 23 and 31), the ten sellers with the
  highest and the lowest turnover (lines 27-28), the top product of every
  category (lines 35-47) and the top and bottom seller of every category
  (lines 51-68).
*/
module Turnover {
  import opened Wrappers
  import opened Order
  import opened Frames
  import opened Ranking

  /** A row of `order_items.csv` (only the columns the analysis reads). */
  datatype OrderItem = OrderItem(orderId: string, productId: string, sellerId: string, price: real)

  /** A product with its translated category, missing when the product has
      no category or the category has no translation. */
  datatype Product = Product(productId: string, category: Option<string>)

  datatype Seller = Seller(sellerId: string)

  datatype Purchase = Purchase(orderId: string)

  /** A row of the joined table. */
  datatype Item = Item(orderId: string, productId: string, sellerId: string, price: real, category: Option<string>)

  // ----- The joins (lines 18-20) -----

  predicate SameProduct(i: OrderItem, p: Product) {
    i.productId == p.productId
  }

  function WithProduct(i: OrderItem, p: Product): Item {
    Item(i.orderId, i.productId, i.sellerId, i.price, p.category)
  }

  predicate SameSeller(x: Item, s: Seller) {
    x.sellerId == s.sellerId
  }

  /** The seller columns are not read by the analysis: the row is kept as is. */
  function KeepWithSeller(x: Item, s: Seller): Item {
    x
  }

  predicate SameOrder(x: Item, o: Purchase) {
    x.orderId == o.orderId
  }

  function KeepWithOrder(x: Item, o: Purchase): Item {
    x
  }

  /** An order item with product `p` whose seller and order both exist. */
  ghost predicate Contributes(items: seq<OrderItem>, products: seq<Product>, sellers: seq<Seller>,
                              orders: seq<Purchase>, x: Item) {
    && (exists i, p :: i in items && p in products && SameProduct(i, p) && x == WithProduct(i, p))
    && (exists s :: s in sellers && SameSeller(x, s))
    && (exists o :: o in orders && SameOrder(x, o))
  }

  /** Lines 18-20: three inner merges, on product, seller and order. A row
      is in the result exactly when it is an order item joined with its
      product, and its seller and its order both exist. */
  function Joined(items: seq<OrderItem>, products: seq<Product>, sellers: seq<Seller>,
                  orders: seq<Purchase>): (r: seq<Item>)
    ensures forall x :: x in r <==> Contributes(items, products, sellers, orders, x)
  {
    var withProducts := InnerMerge(items, products, SameProduct, WithProduct);
    var withSellers := InnerMerge(withProducts, sellers, SameSeller, KeepWithSeller);
    InnerMerge(withSellers, orders, SameOrder, KeepWithOrder)
  }

  // ----- Turnover per key (lines 23 and 31) -----

  /** A key with its turnover. */
  datatype Total = Total(key: string, turnover: real)

  function Price(x: Item): real {
    x.price
  }

  function SellerOf(x: Item): Option<string> {
    Some(x.sellerId)
  }

  function ProductOf(x: Item): Option<string> {
    Some(x.productId)
  }

  function CategoryOf(x: Item): Option<string> {
    x.category
  }

  function TurnoverOf(t: Total): real {
    t.turnover
  }

  function Keys(ts: seq<Total>): (ks: seq<string>)
    ensures |ks| == |ts| && forall i :: 0 <= i < |ts| ==> ks[i] == ts[i].key
  {
    seq(|ts|, i requires 0 <= i < |ts| => ts[i].key)
  }

  /** The group total of each listed key. */
  function TotalsOver(rows: seq<Item>, key: Item -> Option<string>, ks: seq<string>): (r: seq<Total>)
    ensures Keys(r) == ks
    ensures forall j :: 0 <= j < |r| ==> r[j].turnover == SumOf(Group(rows, key, ks[j]), Price)
  {
    if ks == [] then []
    else TotalsOver(rows, key, ks[..|ks| - 1]) + [Total(ks[|ks| - 1], SumOf(Group(rows, key, ks[|ks| - 1]), Price))]
  }

  /** `rows.groupby(key)['price'].sum().reset_index()`: one row per key
      present, keys ascending, each with the sum of the prices of its rows. */
  function GroupSum(rows: seq<Item>, key: Item -> Option<string>): (r: seq<Total>)
    ensures SortedBy(Keys(r), StrLess)
    ensures forall k :: k in Keys(r) <==> HasKey(rows, key, k)
    ensures forall j :: 0 <= j < |r| ==> r[j].turnover == SumOf(Group(rows, key, r[j].key), Price)
  {
    StrLessStrictTotal();
    TotalsOver(rows, key, GroupKeys(rows, key, StrLess))
  }

  lemma {:induction false} SumOfTotals(rows: seq<Item>, key: Item -> Option<string>, ks: seq<string>)
    ensures SumOf(TotalsOver(rows, key, ks), TurnoverOf) == SumGroups(rows, key, Price, ks)
    decreases |ks|
  {
    if ks != [] {
      var init := ks[..|ks| - 1];
      SumOfTotals(rows, key, init);
      var r := TotalsOver(rows, key, ks);
      assert r[..|r| - 1] == TotalsOver(rows, key, init);
    }
  }

  /** Theorem (lines 23 and 31): grouping by seller, or by product, loses
      and duplicates nothing: the turnovers add up to the total of all
      prices. */
  lemma TurnoverConservation(rows: seq<Item>)
    ensures SumOf(GroupSum(rows, SellerOf), TurnoverOf) == SumOf(rows, Price)
    ensures SumOf(GroupSum(rows, ProductOf), TurnoverOf) == SumOf(rows, Price)
  {
    StrLessStrictTotal();
    SumOfTotals(rows, SellerOf, GroupKeys(rows, SellerOf, StrLess));
    SumOverGroups(rows, SellerOf, Price, StrLess);
    FilterAll(rows, KeyPresent(SellerOf));
    SumOfTotals(rows, ProductOf, GroupKeys(rows, ProductOf, StrLess));
    SumOverGroups(rows, ProductOf, Price, StrLess);
    FilterAll(rows, KeyPresent(ProductOf));
  }

  // ----- Top and bottom sellers (lines 27-28) -----

  /** The totals at the selected positions, in selection order. */
  function Pick(ts: seq<Total>, sel: seq<Ranked>): (r: seq<Total>)
    requires forall k :: 0 <= k < |sel| ==> 0 <= sel[k].pos < |ts|
    ensures |r| == |sel|
    ensures forall k :: 0 <= k < |sel| ==> r[k] == ts[sel[k].pos]
  {
    seq(|sel|, k requires 0 <= k < |sel| => ts[sel[k].pos])
  }

  /** `a` goes before `b` in `nlargest`: a higher turnover, or the same
      turnover and the smaller key. */
  predicate AheadInTop(a: Total, b: Total) {
    a.turnover > b.turnover || (a.turnover == b.turnover && StrLess(a.key, b.key))
  }

  /** `a` goes before `b` in `nsmallest`: a lower turnover, or the same
      turnover and the smaller key. */
  predicate AheadInBottom(a: Total, b: Total) {
    a.turnover < b.turnover || (a.turnover == b.turnover && StrLess(a.key, b.key))
  }

  /** Line 27, `nlargest(10, 'turnover')`: the ten highest turnovers, highest
      first; on a tie the earlier row, hence for a key-sorted table the
      smaller key, comes first; every row left out has a turnover no higher
      than every row kept, and for a key-sorted table one with the same
      turnover as a row kept has a larger key. */
  function TopTen(ts: seq<Total>): (r: seq<Total>)
    ensures |r| == Min(10, |ts|)
    ensures forall k :: 0 <= k < |r| ==> r[k] in ts
    ensures forall i, j :: 0 <= i < j < |r| ==> r[i].turnover >= r[j].turnover
    ensures SortedBy(Keys(ts), StrLess) ==>
      forall i, j :: 0 <= i < j < |r| && r[i].turnover == r[j].turnover ==> StrLess(r[i].key, r[j].key)
    ensures forall x :: x in ts && x !in r ==> forall k :: 0 <= k < |r| ==> r[k].turnover >= x.turnover
    ensures SortedBy(Keys(ts), StrLess) ==>
      forall x :: x in ts && x !in r ==> forall k :: 0 <= k < |r| ==> AheadInTop(r[k], x)
  {
    var sel := NLargest(Values(ts, TurnoverOf), 10);
    TopTenOrder(ts);
    TopTenExcluded(ts);
    TopTenTies(ts);
    TopTenCutoff(ts);
    Pick(ts, sel)
  }

  lemma TopTenOrder(ts: seq<Total>)
    ensures var r := Pick(ts, NLargest(Values(ts, TurnoverOf), 10));
      && |r| == Min(10, |ts|)
      && (forall k :: 0 <= k < |r| ==> r[k] in ts)
      && (forall i, j :: 0 <= i < j < |r| ==> r[i].turnover >= r[j].turnover)
  {
  }

  lemma TopTenExcluded(ts: seq<Total>)
    ensures var r := Pick(ts, NLargest(Values(ts, TurnoverOf), 10));
      forall x :: x in ts && x !in r ==> forall k :: 0 <= k < |r| ==> r[k].turnover >= x.turnover
  {
    var sel := NLargest(Values(ts, TurnoverOf), 10);
    var r := Pick(ts, sel);
    forall x | x in ts && x !in r ensures forall k :: 0 <= k < |r| ==> r[k].turnover >= x.turnover {
      var p :| 0 <= p < |ts| && ts[p] == x;
      assert forall k :: 0 <= k < |sel| ==> sel[k].pos != p;
    }
  }

  lemma TopTenTies(ts: seq<Total>)
    ensures var r := Pick(ts, NLargest(Values(ts, TurnoverOf), 10));
      SortedBy(Keys(ts), StrLess) ==> forall i, j :: 0 <= i < j < |r| && r[i].turnover == r[j].turnover ==> StrLess(r[i].key, r[j].key)
  {
  }

  /** At the cutoff of a key-sorted table, a row left out with the turnover
      of a row kept comes later, so its key is larger. */
  lemma TopTenCutoff(ts: seq<Total>)
    ensures var r := Pick(ts, NLargest(Values(ts, TurnoverOf), 10));
      SortedBy(Keys(ts), StrLess) ==>
      forall x :: x in ts && x !in r ==> forall k :: 0 <= k < |r| ==> AheadInTop(r[k], x)
  {
    var sel := NLargest(Values(ts, TurnoverOf), 10);
    var r := Pick(ts, sel);
    if SortedBy(Keys(ts), StrLess) {
      forall x | x in ts && x !in r ensures forall k :: 0 <= k < |r| ==> AheadInTop(r[k], x) {
        var p :| 0 <= p < |ts| && ts[p] == x;
        assert forall k :: 0 <= k < |sel| ==> sel[k].pos != p;
        forall k | 0 <= k < |r| ensures AheadInTop(r[k], x) {
          var q := sel[k].pos;
          if q < p {
            assert StrLess(Keys(ts)[q], Keys(ts)[p]);
          }
        }
      }
    }
  }

  /** Line 28, `nsmallest(10, 'turnover')`: the ten lowest turnovers, lowest
      first; on a tie the earlier row, hence for a key-sorted table the
      smaller key, comes first; every row left out has a turnover no lower
      than every row kept, and for a key-sorted table one with the same
      turnover as a row kept has a larger key. */
  function BottomTen(ts: seq<Total>): (r: seq<Total>)
    ensures |r| == Min(10, |ts|)
    ensures forall k :: 0 <= k < |r| ==> r[k] in ts
    ensures forall i, j :: 0 <= i < j < |r| ==> r[i].turnover <= r[j].turnover
    ensures SortedBy(Keys(ts), StrLess) ==>
      forall i, j :: 0 <= i < j < |r| && r[i].turnover == r[j].turnover ==> StrLess(r[i].key, r[j].key)
    ensures forall x :: x in ts && x !in r ==> forall k :: 0 <= k < |r| ==> r[k].turnover <= x.turnover
    ensures SortedBy(Keys(ts), StrLess) ==>
      forall x :: x in ts && x !in r ==> forall k :: 0 <= k < |r| ==> AheadInBottom(r[k], x)
  {
    var sel := NSmallest(Values(ts, TurnoverOf), 10);
    BottomTenOrder(ts);
    BottomTenExcluded(ts);
    BottomTenTies(ts);
    BottomTenCutoff(ts);
    Pick(ts, sel)
  }

  lemma BottomTenOrder(ts: seq<Total>)
    ensures var r := Pick(ts, NSmallest(Values(ts, TurnoverOf), 10));
      && |r| == Min(10, |ts|)
      && (forall k :: 0 <= k < |r| ==> r[k] in ts)
      && (forall i, j :: 0 <= i < j < |r| ==> r[i].turnover <= r[j].turnover)
  {
  }

  lemma BottomTenExcluded(ts: seq<Total>)
    ensures var r := Pick(ts, NSmallest(Values(ts, TurnoverOf), 10));
      forall x :: x in ts && x !in r ==> forall k :: 0 <= k < |r| ==> r[k].turnover <= x.turnover
  {
    var sel := NSmallest(Values(ts, TurnoverOf), 10);
    var r := Pick(ts, sel);
    forall x | x in ts && x !in r ensures forall k :: 0 <= k < |r| ==> r[k].turnover <= x.turnover {
      var p :| 0 <= p < |ts| && ts[p] == x;
      assert forall k :: 0 <= k < |sel| ==> sel[k].pos != p;
    }
  }

  lemma BottomTenTies(ts: seq<Total>)
    ensures var r := Pick(ts, NSmallest(Values(ts, TurnoverOf), 10));
      SortedBy(Keys(ts), StrLess) ==> forall i, j :: 0 <= i < j < |r| && r[i].turnover == r[j].turnover ==> StrLess(r[i].key, r[j].key)
  {
  }

  lemma BottomTenCutoff(ts: seq<Total>)
    ensures var r := Pick(ts, NSmallest(Values(ts, TurnoverOf), 10));
      SortedBy(Keys(ts), StrLess) ==>
      forall x :: x in ts && x !in r ==> forall k :: 0 <= k < |r| ==> AheadInBottom(r[k], x)
  {
    var sel := NSmallest(Values(ts, TurnoverOf), 10);
    var r := Pick(ts, sel);
    if SortedBy(Keys(ts), StrLess) {
      forall x | x in ts && x !in r ensures forall k :: 0 <= k < |r| ==> AheadInBottom(r[k], x) {
        var p :| 0 <= p < |ts| && ts[p] == x;
        assert forall k :: 0 <= k < |sel| ==> sel[k].pos != p;
        forall k | 0 <= k < |r| ensures AheadInBottom(r[k], x) {
          var q := sel[k].pos;
          if q < p {
            assert StrLess(Keys(ts)[q], Keys(ts)[p]);
          }
        }
      }
    }
  }

  /** Lines 23 and 27-28 together: the top and bottom seller tables. A tie
      goes to the seller whose id comes first, both within a table and at
      its cutoff. */
  function SellerRankings(rows: seq<Item>): (r: (seq<Total>, seq<Total>))
    ensures |r.0| == |r.1| == Min(10, |GroupSum(rows, SellerOf)|)
    ensures forall k :: 0 <= k < |r.0| ==> r.0[k] in GroupSum(rows, SellerOf)
    ensures forall k :: 0 <= k < |r.1| ==> r.1[k] in GroupSum(rows, SellerOf)
    ensures forall i, j :: 0 <= i < j < |r.0| ==> AheadInTop(r.0[i], r.0[j])
    ensures forall i, j :: 0 <= i < j < |r.1| ==> AheadInBottom(r.1[i], r.1[j])
    ensures forall x :: x in GroupSum(rows, SellerOf) && x !in r.0 ==> forall k :: 0 <= k < |r.0| ==> AheadInTop(r.0[k], x)
    ensures forall x :: x in GroupSum(rows, SellerOf) && x !in r.1 ==> forall k :: 0 <= k < |r.1| ==> AheadInBottom(r.1[k], x)
  {
    var ts := GroupSum(rows, SellerOf);
    (TopTen(ts), BottomTen(ts))
  }

  // ----- Top product per category (lines 31-47) -----

  /** A row of `product_turnover` after the merge of line 35. */
  datatype ProductTotal = ProductTotal(productId: string, turnover: real, category: Option<string>)

  predicate TotalOfProduct(t: Total, p: Product) {
    t.key == p.productId
  }

  function WithCategory(t: Total, p: Product): ProductTotal {
    ProductTotal(t.key, t.turnover, p.category)
  }

  /** No product id occurs twice in the product table. */
  predicate UniqueProductIds(products: seq<Product>) {
    forall i, j :: 0 <= i < j < |products| ==> products[i].productId != products[j].productId
  }

  /** Lines 31-35: product turnover joined with the product's category. The
      merge keeps the order of the grouped totals, so with a product table
      free of repeated ids the rows are one per product, `product_id`
      ascending. */
  function ProductTurnover(rows: seq<Item>, products: seq<Product>): (r: seq<ProductTotal>)
    ensures forall x :: x in r <==>
      exists t, p :: t in GroupSum(rows, ProductOf) && p in products && TotalOfProduct(t, p) && x == WithCategory(t, p)
    ensures UniqueProductIds(products) ==>
      && |r| <= |GroupSum(rows, ProductOf)|
      && forall i, j :: 0 <= i < j < |r| ==> StrLess(r[i].productId, r[j].productId)
  {
    ProductTurnoverOrdered(GroupSum(rows, ProductOf), products);
    InnerMerge(GroupSum(rows, ProductOf), products, TotalOfProduct, WithCategory)
  }

  function TotalKey(t: Total): string {
    t.key
  }

  function ProductIdOf(x: ProductTotal): string {
    x.productId
  }

  lemma ProductTurnoverOrdered(ts: seq<Total>, products: seq<Product>)
    requires SortedBy(Keys(ts), StrLess)
    ensures var r := InnerMerge(ts, products, TotalOfProduct, WithCategory);
      UniqueProductIds(products) ==>
      && |r| <= |ts|
      && forall i, j :: 0 <= i < j < |r| ==> StrLess(r[i].productId, r[j].productId)
  {
    if UniqueProductIds(products) {
      forall i, j | 0 <= i < j < |ts| ensures StrLess(TotalKey(ts[i]), TotalKey(ts[j])) {
        assert Keys(ts)[i] == ts[i].key && Keys(ts)[j] == ts[j].key;
      }
      forall t | t in ts ensures |Matches(t, products, TotalOfProduct)| <= 1 {
        MatchesAtMostOne(t, products, TotalOfProduct);
      }
      InnerMergeOrdered(ts, products, TotalOfProduct, WithCategory, TotalKey, ProductIdOf, StrLess);
    }
  }

  function ProductCategory(x: ProductTotal): Option<string> {
    x.category
  }

  function ProductTurnoverOf(x: ProductTotal): real {
    x.turnover
  }

  /** Lines 39-43 as written, `get_top_products`: `nlargest(1)` picks the
      row with the highest turnover, but line 42 then overwrites its
      `product_id` with that of the group's first row. */
  function TopProductAsWritten(g: seq<ProductTotal>, c: string): (r: ProductTotal)
    requires |g| > 0
    ensures r.productId == g[0].productId
    ensures r.category == Some(c)
    ensures forall x :: x in g ==> x.turnover <= r.turnover
    ensures exists x :: x in g && x.turnover == r.turnover
  {
    var top := NLargest(Values(g, ProductTurnoverOf), 1)[0];
    NLargestOne(Values(g, ProductTurnoverOf));
    assert g[top.pos] in g;
    ProductTotal(g[0].productId, top.value, Some(c))
  }

  /** `get_top_products` as evidently intended: the row with the highest
      turnover, the first such row on a tie, with its own product. */
  function TopProduct(g: seq<ProductTotal>, c: string): (r: ProductTotal)
    requires |g| > 0 && forall x :: x in g ==> x.category == Some(c)
    ensures r in g
    ensures forall x :: x in g ==> x.turnover <= r.turnover
    ensures forall i :: 0 <= i < |g| && g[i].turnover == r.turnover ==> g[IndexOf(g, r)] == r && IndexOf(g, r) <= i
  {
    var top := NLargest(Values(g, ProductTurnoverOf), 1)[0];
    NLargestOne(Values(g, ProductTurnoverOf));
    var r := g[top.pos];
    assert r in g;
    var q := IndexOf(g, r);
    assert q <= top.pos;
    r
  }

  /** Lines 46-47 as written: one row per category, categories ascending,
      each with the category's highest turnover and the product id of the
      category's first row. */
  function TopProductsAsWritten(pt: seq<ProductTotal>): (r: seq<ProductTotal>)
    ensures |r| == |CategoryKeys(pt)|
    ensures forall j :: 0 <= j < |r| ==> r[j] == TopProductAsWritten(CategoryGroup(pt, CategoryKeys(pt)[j]), CategoryKeys(pt)[j])
    ensures forall j :: 0 <= j < |r| ==> r[j].category == Some(CategoryKeys(pt)[j])
    ensures forall j, x :: 0 <= j < |r| && x in pt && x.category == Some(CategoryKeys(pt)[j]) ==> x.turnover <= r[j].turnover
  {
    var cats := CategoryKeys(pt);
    seq(|cats|, j requires 0 <= j < |cats| => TopProductAsWritten(CategoryGroup(pt, cats[j]), cats[j]))
  }

  /** Lines 46-47 as intended: one row per category, categories ascending,
      each the category's top row. */
  function TopProducts(pt: seq<ProductTotal>): (r: seq<ProductTotal>)
    ensures |r| == |CategoryKeys(pt)|
    ensures forall j :: 0 <= j < |r| ==> r[j] == TopProduct(CategoryGroup(pt, CategoryKeys(pt)[j]), CategoryKeys(pt)[j])
    ensures forall j :: 0 <= j < |r| ==> r[j] in pt && r[j].category == Some(CategoryKeys(pt)[j])
    ensures forall j, x :: 0 <= j < |r| && x in pt && x.category == Some(CategoryKeys(pt)[j]) ==> x.turnover <= r[j].turnover
  {
    var cats := CategoryKeys(pt);
    seq(|cats|, j requires 0 <= j < |cats| => TopProduct(CategoryGroup(pt, cats[j]), cats[j]))
  }

  /** The categories of `groupby('product_category_name_english')`: present
      ones only, ascending. */
  function CategoryKeys(pt: seq<ProductTotal>): (cs: seq<string>)
    ensures SortedBy(cs, StrLess)
    ensures forall c :: c in cs <==> HasKey(pt, ProductCategory, c)
  {
    StrLessStrictTotal();
    GroupKeys(pt, ProductCategory, StrLess)
  }

  /** The rows of one category, in order; never empty for a listed category. */
  function CategoryGroup(pt: seq<ProductTotal>, c: string): (g: seq<ProductTotal>)
    requires c in CategoryKeys(pt)
    ensures |g| > 0
    ensures forall x :: x in g <==> x in pt && x.category == Some(c)
  {
    GroupNonEmpty(pt, ProductCategory, c);
    Group(pt, ProductCategory, c)
  }

  /** Theorem (lines 39-47): every category yields exactly one row, whose
      turnover is the category's highest; the corrected row is moreover a
      row of the category, so its product is one with that turnover. */
  lemma TopProductsSpec(pt: seq<ProductTotal>)
    ensures var cs := CategoryKeys(pt); var w := TopProductsAsWritten(pt); var r := TopProducts(pt);
      && |w| == |r| == |cs|
      && forall j :: 0 <= j < |cs| ==>
           && w[j].category == r[j].category == Some(cs[j])
           && w[j].turnover == r[j].turnover
           && r[j] in pt
           && (forall x :: x in pt && x.category == Some(cs[j]) ==> x.turnover <= r[j].turnover)
  {
    var cs := CategoryKeys(pt);
    forall j | 0 <= j < |cs|
      ensures TopProductsAsWritten(pt)[j].turnover == TopProducts(pt)[j].turnover
    {
      var g := CategoryGroup(pt, cs[j]);
      var w := TopProductAsWritten(g, cs[j]);
      var r := TopProduct(g, cs[j]);
      var x :| x in g && x.turnover == w.turnover;
      assert x.turnover <= r.turnover && r.turnover <= w.turnover;
    }
  }

  /** `a` has the smaller product id. */
  predicate IdLess(a: ProductTotal, b: ProductTotal) {
    StrLess(a.productId, b.productId)
  }

  /** On a table ascending by product id, the first row of a category's
      group has the category's smallest product id. */
  lemma FirstRowSmallestId(pt: seq<ProductTotal>, c: string)
    requires c in CategoryKeys(pt)
    requires forall i, j :: 0 <= i < j < |pt| ==> StrLess(pt[i].productId, pt[j].productId)
    ensures var g := CategoryGroup(pt, c);
      forall x :: x in pt && x.category == Some(c) ==> x == g[0] || StrLess(g[0].productId, x.productId)
  {
    assert SortedBy(pt, IdLess);
    FilterSorted(pt, KeyIs(ProductCategory, c), IdLess);
    var g := CategoryGroup(pt, c);
    forall x | x in pt && x.category == Some(c) ensures x == g[0] || StrLess(g[0].productId, x.productId) {
      var k :| 0 <= k < |g| && g[k] == x;
      if k > 0 {
        assert IdLess(g[0], g[k]);
      }
    }
  }

  /** Theorem (lines 31-47): with a product table free of repeated ids, the
      row line 42 reports for a category carries that category's smallest
      product id, whichever product has the highest turnover. */
  lemma AsWrittenSmallestId(rows: seq<Item>, products: seq<Product>)
    requires UniqueProductIds(products)
    ensures var pt := ProductTurnover(rows, products);
      var w := TopProductsAsWritten(pt);
      forall j, x :: 0 <= j < |w| && x in pt && x.category == Some(CategoryKeys(pt)[j]) ==>
        x.productId == w[j].productId || StrLess(w[j].productId, x.productId)
  {
    var pt := ProductTurnover(rows, products);
    var w := TopProductsAsWritten(pt);
    var cs := CategoryKeys(pt);
    forall j, x | 0 <= j < |w| && x in pt && x.category == Some(cs[j])
      ensures x.productId == w[j].productId || StrLess(w[j].productId, x.productId)
    {
      FirstRowSmallestId(pt, cs[j]);
    }
  }

  /** A category whose first product is not its best seller. */
  function QuirkTable(): (pt: seq<ProductTotal>)
    ensures |pt| == 2 && forall x :: x in pt ==> x.category == Some("toys")
  {
    [ProductTotal("p1", 1.0, Some("toys")), ProductTotal("p2", 5.0, Some("toys"))]
  }

  /** Finding (line 42): on `QuirkTable`, the row reported as written pairs
      the first product with the best product's turnover, a row that is not
      in the table. */
  lemma TopProductQuirk()
    ensures TopProductsAsWritten(QuirkTable()) == [ProductTotal("p1", 5.0, Some("toys"))]
    ensures ProductTotal("p1", 5.0, Some("toys")) !in QuirkTable()
  {
    var g := QuirkGroup();
    SingleCategoryTop(QuirkTable(), "toys");
    QuirkRow();
  }

  /** The row `get_top_products` reports for the one category of
      `QuirkTable`, as written. */
  lemma QuirkRow()
    ensures TopProductAsWritten(QuirkTable(), "toys") == ProductTotal("p1", 5.0, Some("toys"))
  {
    var g := QuirkTable();
    var w := TopProductAsWritten(g, "toys");
    assert g[1] in g;
    assert w.turnover >= 5.0;
  }

  /** The corrected `get_top_products` reports the best product's own row
      on `QuirkTable`. */
  lemma TopProductCorrected()
    ensures TopProducts(QuirkTable()) == [ProductTotal("p2", 5.0, Some("toys"))]
  {
    var g := QuirkGroup();
    SingleCategoryTop(QuirkTable(), "toys");
    CorrectedRow();
  }

  /** The row the corrected `get_top_products` reports for the one category
      of `QuirkTable`. */
  lemma CorrectedRow()
    ensures TopProduct(QuirkTable(), "toys") == ProductTotal("p2", 5.0, Some("toys"))
  {
    var g := QuirkTable();
    var r := TopProduct(g, "toys");
    assert g[1] in g;
    assert r.turnover >= 5.0;
  }

  /** On a table with one category, each version reports one row, the one
      for that category. */
  lemma SingleCategoryTop(pt: seq<ProductTotal>, c: string)
    requires CategoryKeys(pt) == [c]
    ensures TopProductsAsWritten(pt) == [TopProductAsWritten(CategoryGroup(pt, c), c)]
    ensures TopProducts(pt) == [TopProduct(CategoryGroup(pt, c), c)]
  {
    assert CategoryKeys(pt)[0] == c;
  }

  lemma QuirkGroup() returns (g: seq<ProductTotal>)
    ensures CategoryKeys(QuirkTable()) == ["toys"]
    ensures g == CategoryGroup(QuirkTable(), "toys") == QuirkTable()
  {
    var pt := QuirkTable();
    OneCategory(pt, "toys");
    g := CategoryGroup(pt, "toys");
    FilterAll(pt, KeyIs(ProductCategory, "toys"));
  }

  /** A table whose rows all have category `c` has that one category. */
  lemma OneCategory(pt: seq<ProductTotal>, c: string)
    requires |pt| > 0 && forall x :: x in pt ==> x.category == Some(c)
    ensures CategoryKeys(pt) == [c]
  {
    var cs := CategoryKeys(pt);
    assert ProductCategory(pt[0]) == Some(c);
    assert c in cs;
    forall d | d in cs ensures d == c {
      var i :| 0 <= i < |pt| && ProductCategory(pt[i]) == Some(d);
      assert pt[i] in pt;
    }
    if |cs| > 1 {
      assert cs[0] in cs && cs[1] in cs;
      assert StrLess(cs[0], cs[1]);
      StrLessIrreflexive(c);
    }
  }

  // ----- Top and bottom seller per category (lines 51-68) -----

  /** A row of `top_sellers_by_category` or `bottom_sellers_by_category`. */
  datatype SellerStat = SellerStat(sellerId: string, turnover: real, category: string)

  /** `get_seller_stats` (lines 51-56) on the rows of category `c`: the
      sellers' turnovers within the category, and the seller with the
      highest and the one with the lowest, the first on a tie. */
  function SellerStats(g: seq<Item>, c: string): (r: (SellerStat, SellerStat))
    requires |g| > 0
    ensures r.0.category == c && r.1.category == c
    ensures Total(r.0.sellerId, r.0.turnover) in GroupSum(g, SellerOf)
    ensures Total(r.1.sellerId, r.1.turnover) in GroupSum(g, SellerOf)
    ensures forall t :: t in GroupSum(g, SellerOf) ==> r.1.turnover <= t.turnover <= r.0.turnover
    ensures forall t :: t in GroupSum(g, SellerOf) && t.turnover == r.0.turnover ==>
      t.key == r.0.sellerId || StrLess(r.0.sellerId, t.key)
    ensures forall t :: t in GroupSum(g, SellerOf) && t.turnover == r.1.turnover ==>
      t.key == r.1.sellerId || StrLess(r.1.sellerId, t.key)
  {
    var ts := GroupSum(g, SellerOf);
    SellersNonEmpty(g);
    var vs := Values(ts, TurnoverOf);
    var top := ts[NLargest(vs, 1)[0].pos];
    var bottom := ts[NSmallest(vs, 1)[0].pos];
    ExtremeRows(ts);
    FirstTop(ts);
    FirstBottom(ts);
    (SellerStat(top.key, top.turnover, c), SellerStat(bottom.key, bottom.turnover, c))
  }

  lemma SellersNonEmpty(g: seq<Item>)
    requires |g| > 0
    ensures |GroupSum(g, SellerOf)| > 0
  {
    var ts := GroupSum(g, SellerOf);
    assert HasKey(g, SellerOf, g[0].sellerId);
    assert g[0].sellerId in Keys(ts);
  }

  /** The rows picked by `nlargest(1)` and `nsmallest(1)` bound every row. */
  lemma ExtremeRows(ts: seq<Total>)
    requires |ts| > 0
    ensures var vs := Values(ts, TurnoverOf);
      var top := ts[NLargest(vs, 1)[0].pos];
      var bottom := ts[NSmallest(vs, 1)[0].pos];
      forall t :: t in ts ==> bottom.turnover <= t.turnover <= top.turnover
  {
    var vs := Values(ts, TurnoverOf);
    NLargestOne(vs);
    NSmallestOne(vs);
    var top := ts[NLargest(vs, 1)[0].pos];
    var bottom := ts[NSmallest(vs, 1)[0].pos];
    forall t | t in ts ensures bottom.turnover <= t.turnover <= top.turnover {
      var p :| 0 <= p < |ts| && ts[p] == t;
    }
  }

  /** On a key-sorted table, `nlargest(1)` picks the smallest key among the
      rows that share the highest turnover. */
  lemma FirstTop(ts: seq<Total>)
    requires |ts| > 0 && SortedBy(Keys(ts), StrLess)
    ensures var top := ts[NLargest(Values(ts, TurnoverOf), 1)[0].pos];
      forall t :: t in ts && t.turnover == top.turnover ==> t.key == top.key || StrLess(top.key, t.key)
  {
    var vs := Values(ts, TurnoverOf);
    NLargestOne(vs);
    var a := NLargest(vs, 1)[0].pos;
    forall t | t in ts && t.turnover == ts[a].turnover ensures t.key == ts[a].key || StrLess(ts[a].key, t.key) {
      var p :| 0 <= p < |ts| && ts[p] == t;
      if a < p {
        assert StrLess(Keys(ts)[a], Keys(ts)[p]);
      }
    }
  }

  /** On a key-sorted table, `nsmallest(1)` picks the smallest key among the
      rows that share the lowest turnover. */
  lemma FirstBottom(ts: seq<Total>)
    requires |ts| > 0 && SortedBy(Keys(ts), StrLess)
    ensures var bottom := ts[NSmallest(Values(ts, TurnoverOf), 1)[0].pos];
      forall t :: t in ts && t.turnover == bottom.turnover ==> t.key == bottom.key || StrLess(bottom.key, t.key)
  {
    var vs := Values(ts, TurnoverOf);
    NSmallestOne(vs);
    var b := NSmallest(vs, 1)[0].pos;
    forall t | t in ts && t.turnover == ts[b].turnover ensures t.key == ts[b].key || StrLess(ts[b].key, t.key) {
      var p :| 0 <= p < |ts| && ts[p] == t;
      if b < p {
        assert StrLess(Keys(ts)[b], Keys(ts)[p]);
      }
    }
  }

  /** The categories of the joined rows that have one: ascending. */
  function ItemCategories(rows: seq<Item>): (cs: seq<string>)
    ensures SortedBy(cs, StrLess)
    ensures forall c :: c in cs <==> HasKey(rows, CategoryOf, c)
  {
    StrLessStrictTotal();
    GroupKeys(rows, CategoryOf, StrLess)
  }

  /** `top` and `bottom` are rows of category `c`'s seller turnovers, with
      the highest and the lowest turnover among them, each the seller with
      the smallest id among those that share its turnover. */
  predicate ExtremesOf(rows: seq<Item>, c: string, top: SellerStat, bottom: SellerStat) {
    var ts := GroupSum(Group(rows, CategoryOf, c), SellerOf);
    && top.category == c && bottom.category == c
    && Total(top.sellerId, top.turnover) in ts
    && Total(bottom.sellerId, bottom.turnover) in ts
    && (forall t :: t in ts ==> bottom.turnover <= t.turnover <= top.turnover)
    && (forall t :: t in ts && t.turnover == top.turnover ==> t.key == top.sellerId || StrLess(top.sellerId, t.key))
    && (forall t :: t in ts && t.turnover == bottom.turnover ==> t.key == bottom.sellerId || StrLess(bottom.sellerId, t.key))
  }

  /** The message of `pd.concat([])`. */
  const NoObjectsError := "ValueError: No objects to concatenate"

  /** Lines 59-68: the per-category loop, one top and one bottom row per
      category, categories ascending. When no row has a category the lists
      stay empty and the `pd.concat` of line 67 raises. */
  method SellersByCategory(rows: seq<Item>) returns (r: Result<(seq<SellerStat>, seq<SellerStat>)>)
    ensures r.Failure? <==> ItemCategories(rows) == []
    ensures r.Failure? ==> r.error == NoObjectsError
    ensures r.Success? ==> |r.value.0| == |r.value.1| == |ItemCategories(rows)|
    ensures r.Success? ==> forall j :: 0 <= j < |r.value.0| ==>
      ExtremesOf(rows, ItemCategories(rows)[j], r.value.0[j], r.value.1[j])
  {
    var cs := ItemCategories(rows);
    var tops: seq<SellerStat> := [];
    var bottoms: seq<SellerStat> := [];
    for j := 0 to |cs|
      invariant StatsUpTo(rows, cs, j, tops, bottoms)
    {
      var stats := CategoryStats(rows, cs[j]);
      StatsStep(rows, cs, j, tops, bottoms, stats.0, stats.1);
      tops, bottoms := tops + [stats.0], bottoms + [stats.1];
    }
    if tops == [] {
      return Failure(NoObjectsError);
    }
    r := Success((tops, bottoms));
  }

  /** The first `j` categories of `cs` have their extremes in `tops` and
      `bottoms`. */
  ghost predicate StatsUpTo(rows: seq<Item>, cs: seq<string>, j: nat, tops: seq<SellerStat>, bottoms: seq<SellerStat>) {
    && j <= |cs| && |tops| == |bottoms| == j
    && forall i :: 0 <= i < j ==> ExtremesOf(rows, cs[i], tops[i], bottoms[i])
  }

  lemma StatsStep(rows: seq<Item>, cs: seq<string>, j: nat, tops: seq<SellerStat>, bottoms: seq<SellerStat>,
                  top: SellerStat, bottom: SellerStat)
    requires StatsUpTo(rows, cs, j, tops, bottoms) && j < |cs|
    requires ExtremesOf(rows, cs[j], top, bottom)
    ensures StatsUpTo(rows, cs, j + 1, tops + [top], bottoms + [bottom])
  {
    var tops', bottoms' := tops + [top], bottoms + [bottom];
    forall i | 0 <= i < j + 1 ensures ExtremesOf(rows, cs[i], tops'[i], bottoms'[i]) {
      if i < j {
        assert tops'[i] == tops[i] && bottoms'[i] == bottoms[i];
      } else {
        assert tops'[i] == top && bottoms'[i] == bottom;
      }
    }
  }

  /** Lines 62-65, one iteration: `get_seller_stats` on the rows of a
      category present in the data. */
  function CategoryStats(rows: seq<Item>, c: string): (r: (SellerStat, SellerStat))
    requires HasKey(rows, CategoryOf, c)
    ensures ExtremesOf(rows, c, r.0, r.1)
  {
    GroupNonEmpty(rows, CategoryOf, c);
    SellerStats(Group(rows, CategoryOf, c), c)
  }

  /** Theorem (lines 51-56 and 62-65): in a category with one seller, the
      top and the bottom seller are that seller, with the same turnover. */
  lemma SingleSellerCategory(g: seq<Item>, c: string)
    requires |g| > 0 && forall x :: x in g ==> x.sellerId == g[0].sellerId
    ensures SellerStats(g, c).0 == SellerStats(g, c).1
    ensures SellerStats(g, c).0.sellerId == g[0].sellerId
  {
    var ts := GroupSum(g, SellerOf);
    var r := SellerStats(g, c);
    forall t | t in ts ensures t.key == g[0].sellerId {
      assert t.key in Keys(ts);
      var i :| 0 <= i < |g| && SellerOf(g[i]) == Some(t.key);
      assert g[i] in g;
    }
    assert Total(r.0.sellerId, r.0.turnover) == Total(r.1.sellerId, r.1.turnover) by {
      var t0 := Total(r.0.sellerId, r.0.turnover);
      var t1 := Total(r.1.sellerId, r.1.turnover);
      var p :| 0 <= p < |ts| && ts[p] == t0;
      var q :| 0 <= q < |ts| && ts[q] == t1;
      assert Keys(ts)[p] == Keys(ts)[q];
      if p != q {
        if p < q { assert StrLess(Keys(ts)[p], Keys(ts)[q]); } else { assert StrLess(Keys(ts)[q], Keys(ts)[p]); }
        StrLessIrreflexive(Keys(ts)[p]);
      }
    }
  }
}
