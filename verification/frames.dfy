/** The small relational vocabulary the scripts use through pandas: row filters,
  sums, inner and left merges, and group-by over keys that may be missing.

  Every operation here keeps row order the way pandas does: a filter keeps the
  surviving rows in order, a merge emits the rows of the left table in order and,
  for each, its matches in the right table in order, and a groupby visits its
  keys in ascending order and drops rows whose key is missing (`dropna=True`).
*/
module Frames {
  import opened Wrappers
  import opened Order

  /** The rows satisfying `keep`, in their original order (boolean indexing). */
  function Filter<R(!new)>(rows: seq<R>, keep: R -> bool): (r: seq<R>)
    ensures |r| <= |rows|
    ensures forall x :: x in r <==> x in rows && keep(x)
  {
    if rows == [] then []
    else
      var last := rows[|rows| - 1];
      assert forall x :: x in rows <==> x in rows[..|rows| - 1] || x == last;
      Filter(rows[..|rows| - 1], keep) + (if keep(last) then [last] else [])
  }

  lemma {:induction false} FilterAppend<R(!new)>(a: seq<R>, b: seq<R>, keep: R -> bool)
    ensures Filter(a + b, keep) == Filter(a, keep) + Filter(b, keep)
    decreases |b|
  {
    if b != [] {
      var b' := b[..|b| - 1];
      assert (a + b)[..|a + b| - 1] == a + b';
      FilterAppend(a, b', keep);
    } else {
      assert a + b == a;
    }
  }

  /** Filtering by a test every row passes keeps the rows as they are. */
  lemma {:induction false} FilterAll<R(!new)>(rows: seq<R>, keep: R -> bool)
    requires forall i :: 0 <= i < |rows| ==> keep(rows[i])
    ensures Filter(rows, keep) == rows
    decreases |rows|
  {
    if rows != [] {
      var n := |rows| - 1;
      var init, last := rows[..n], rows[n];
      assert forall i :: 0 <= i < n ==> init[i] == rows[i];
      FilterAll(init, keep);
      SplitLast(rows);
      FilterSnoc(init, last, keep);
      assert keep(last);
      calc {
        Filter(rows, keep);
        Filter(init + [last], keep);
        Filter(init, keep) + [last];
        init + [last];
      }
    }
  }

  lemma SplitLast<R>(rows: seq<R>)
    requires |rows| > 0
    ensures rows[..|rows| - 1] + [rows[|rows| - 1]] == rows
  {
  }

  lemma FilterSnoc<R(!new)>(init: seq<R>, last: R, keep: R -> bool)
    ensures Filter(init + [last], keep) == Filter(init, keep) + (if keep(last) then [last] else [])
  {
    assert (init + [last])[..|init|] == init;
  }

  /** Filtering keeps a strictly ascending sequence ascending. */
  lemma {:induction false} FilterSorted<R(!new)>(rows: seq<R>, keep: R -> bool, lt: (R, R) -> bool)
    requires SortedBy(rows, lt)
    ensures SortedBy(Filter(rows, keep), lt)
    decreases |rows|
  {
    if rows != [] {
      var init := rows[..|rows| - 1];
      var last := rows[|rows| - 1];
      assert SortedBy(init, lt) by {
        forall i, j | 0 <= i < j < |init| ensures lt(init[i], init[j]) {
          assert init[i] == rows[i] && init[j] == rows[j];
        }
      }
      FilterSorted(init, keep, lt);
      var f := Filter(init, keep);
      var r := f + (if keep(last) then [last] else []);
      forall i, j | 0 <= i < j < |r| ensures lt(r[i], r[j]) {
        if j >= |f| {
          assert r[i] in f;
          var k :| 0 <= k < |init| && init[k] == r[i];
          assert rows[k] == r[i];
        }
      }
    }
  }

  /** Sum of a column of reals (`Series.sum()`; 0 for an empty column). */
  function Sum(xs: seq<real>): real {
    if xs == [] then 0.0 else Sum(xs[..|xs| - 1]) + xs[|xs| - 1]
  }

  lemma {:induction false} SumAppend(a: seq<real>, b: seq<real>)
    ensures Sum(a + b) == Sum(a) + Sum(b)
    decreases |b|
  {
    if b != [] {
      assert (a + b)[..|a + b| - 1] == a + b[..|b| - 1];
      SumAppend(a, b[..|b| - 1]);
    } else {
      assert a + b == a;
    }
  }

  /** Sum of `val` over the rows. */
  function SumOf<R>(rows: seq<R>, val: R -> real): real {
    if rows == [] then 0.0 else SumOf(rows[..|rows| - 1], val) + val(rows[|rows| - 1])
  }

  lemma {:induction false} SumOfAppend<R>(a: seq<R>, b: seq<R>, val: R -> real)
    ensures SumOf(a + b, val) == SumOf(a, val) + SumOf(b, val)
    decreases |b|
  {
    if b != [] {
      assert (a + b)[..|a + b| - 1] == a + b[..|b| - 1];
      SumOfAppend(a, b[..|b| - 1], val);
    } else {
      assert a + b == a;
    }
  }

  /** The rows of `right` that `on` pairs with `l`. */
  function Matches<L, R(!new)>(l: L, right: seq<R>, on: (L, R) -> bool): (ms: seq<R>)
    ensures forall x :: x in ms <==> x in right && on(l, x)
  {
    Filter(right, PairedWith(l, on))
  }

  /** The row test "is paired with `l`". */
  function PairedWith<L, R>(l: L, on: (L, R) -> bool): R -> bool {
    r => on(l, r)
  }

  /** A left row matches at most one right row when no two right rows both
      match it. */
  lemma MatchesAtMostOne<L, R(!new)>(l: L, right: seq<R>, on: (L, R) -> bool)
    requires forall i, j :: 0 <= i < j < |right| && on(l, right[i]) ==> !on(l, right[j])
    ensures |Matches(l, right, on)| <= 1
  {
    FilterAtMostOne(right, PairedWith(l, on));
  }

  /** `o` is the combination of a left row and a right row that `on` pairs. */
  ghost predicate Paired<L(!new), R(!new), O>(left: seq<L>, right: seq<R>, on: (L, R) -> bool,
                                        combine: (L, R) -> O, o: O) {
    exists a, b :: a in left && b in right && on(a, b) && o == combine(a, b)
  }

  /** The combinations of one left row with each of its matches, in order. */
  function Combined<L, R(!new), O(!new)>(l: L, right: seq<R>, on: (L, R) -> bool, combine: (L, R) -> O): (r: seq<O>)
    ensures |r| == |Matches(l, right, on)|
    ensures forall o :: o in r <==> exists b :: b in right && on(l, b) && o == combine(l, b)
  {
    var ms := Matches(l, right, on);
    var r := seq(|ms|, k requires 0 <= k < |ms| => combine(l, ms[k]));
    assert forall b :: b in right && on(l, b) ==> combine(l, b) in r by {
      forall b | b in right && on(l, b) ensures combine(l, b) in r {
        var k :| 0 <= k < |ms| && ms[k] == b;
        assert r[k] == combine(l, b);
      }
    }
    r
  }

  /** `pd.merge(left, right, how='inner')`: one output row per matching pair,
      left rows in order and, within one left row, its matches in order. A
      row is in the result exactly when it combines a matching pair. */
  function InnerMerge<L(!new), R(!new), O(!new)>(left: seq<L>, right: seq<R>, on: (L, R) -> bool,
                                                 combine: (L, R) -> O): (r: seq<O>)
    ensures forall o :: o in r <==> Paired(left, right, on, combine, o)
  {
    if left == [] then []
    else
      var init := left[..|left| - 1];
      var l := left[|left| - 1];
      var r := InnerMerge(init, right, on, combine) + Combined(l, right, on, combine);
      PairedStep(left, right, on, combine);
      r
  }

  /** Pairing with `left` splits between its prefix and its last row. */
  lemma PairedStep<L(!new), R(!new), O(!new)>(left: seq<L>, right: seq<R>, on: (L, R) -> bool, combine: (L, R) -> O)
    requires |left| > 0
    ensures forall o :: Paired(left, right, on, combine, o) <==>
      || Paired(left[..|left| - 1], right, on, combine, o)
      || exists b :: b in right && on(left[|left| - 1], b) && o == combine(left[|left| - 1], b)
  {
    var init := left[..|left| - 1];
    var l := left[|left| - 1];
    assert forall a :: a in left <==> a in init || a == l;
  }

  lemma {:induction false} InnerMergeAppend<L(!new), R(!new), O(!new)>(a: seq<L>, b: seq<L>, right: seq<R>,
                                                     on: (L, R) -> bool, combine: (L, R) -> O)
    ensures InnerMerge(a + b, right, on, combine) == InnerMerge(a, right, on, combine) + InnerMerge(b, right, on, combine)
    decreases |b|
  {
    if b != [] {
      assert (a + b)[..|a + b| - 1] == a + b[..|b| - 1];
      InnerMergeAppend(a, b[..|b| - 1], right, on, combine);
    } else {
      assert a + b == a;
    }
  }

  /** Filtering by a test no row passes leaves nothing. */
  lemma {:induction false} FilterNone<R(!new)>(rows: seq<R>, keep: R -> bool)
    requires forall x :: x in rows ==> !keep(x)
    ensures |Filter(rows, keep)| == 0
    decreases |rows|
  {
    if rows != [] {
      var n := |rows| - 1;
      assert forall x :: x in rows[..n] ==> x in rows;
      FilterNone(rows[..n], keep);
      assert !keep(rows[n]);
    }
  }

  /** Filtering keeps at most one row when no two rows both pass. */
  lemma {:induction false} FilterAtMostOne<R(!new)>(rows: seq<R>, keep: R -> bool)
    requires forall i, j :: 0 <= i < j < |rows| && keep(rows[i]) ==> !keep(rows[j])
    ensures |Filter(rows, keep)| <= 1
    decreases |rows|
  {
    if rows != [] {
      var n := |rows| - 1;
      var init := rows[..n];
      assert forall i, j :: 0 <= i < j < |init| && keep(init[i]) ==> !keep(init[j]) by {
        assert forall i :: 0 <= i < |init| ==> init[i] == rows[i];
      }
      FilterAtMostOne(init, keep);
      if keep(rows[n]) {
        forall x | x in init ensures !keep(x) {
          var i :| 0 <= i < |init| && init[i] == x;
          assert rows[i] == x;
        }
        FilterNone(init, keep);
      }
    }
  }

  /** An inner merge follows the order of the left frame: when every left
      row matches at most one right row and the output row carries the key
      of its left row, left keys ascending make output keys ascending, with
      at most one output row per left row. */
  lemma {:induction false} InnerMergeOrdered<L(!new), R(!new), O(!new), K>(left: seq<L>, right: seq<R>, on: (L, R) -> bool,
                                                     combine: (L, R) -> O, lk: L -> K, ok: O -> K, lt: (K, K) -> bool)
    requires forall i, j :: 0 <= i < j < |left| ==> lt(lk(left[i]), lk(left[j]))
    requires forall a, b :: on(a, b) ==> ok(combine(a, b)) == lk(a)
    requires forall a :: a in left ==> |Matches(a, right, on)| <= 1
    ensures var r := InnerMerge(left, right, on, combine);
      && |r| <= |left|
      && forall i, j :: 0 <= i < j < |r| ==> lt(ok(r[i]), ok(r[j]))
    decreases |left|
  {
    if left != [] {
      var n := |left| - 1;
      var init, l := left[..n], left[n];
      assert forall i :: 0 <= i < n ==> init[i] == left[i];
      InnerMergeOrdered(init, right, on, combine, lk, ok, lt);
      var m0 := InnerMerge(init, right, on, combine);
      var c := Combined(l, right, on, combine);
      var r := m0 + c;
      assert r == InnerMerge(left, right, on, combine);
      forall i, j | 0 <= i < j < |r| ensures lt(ok(r[i]), ok(r[j])) {
        if j >= |m0| {
          assert i < |m0| && r[i] in m0 && r[j] in c;
          var a, b :| a in init && b in right && on(a, b) && r[i] == combine(a, b);
          var b' :| b' in right && on(l, b') && r[j] == combine(l, b');
          var p :| 0 <= p < n && init[p] == a;
        }
      }
    }
  }

  /** No row of `right` is paired with `l`. */
  ghost predicate NoMatch<L, R(!new)>(l: L, right: seq<R>, on: (L, R) -> bool) {
    forall b :: b in right ==> !on(l, b)
  }

  /** `o` is a row that a left merge emits for the left row `a`: `a` combined
      with one of its matches, or with nothing when it has none. */
  ghost predicate LeftRowOf<L, R(!new), O>(a: L, right: seq<R>, on: (L, R) -> bool,
                                         combine: (L, Option<R>) -> O, o: O) {
    || (exists b :: b in right && on(a, b) && o == combine(a, Some(b)))
    || (NoMatch(a, right, on) && o == combine(a, None))
  }

  /** The rows a left merge emits for one left row, in order. */
  function LeftCombined<L, R(!new), O(!new)>(l: L, right: seq<R>, on: (L, R) -> bool,
                                             combine: (L, Option<R>) -> O): (r: seq<O>)
    ensures |r| >= 1
    ensures forall o :: o in r <==> LeftRowOf(l, right, on, combine, o)
  {
    var ms := Matches(l, right, on);
    if ms == [] then
      assert NoMatch(l, right, on);
      [combine(l, None)]
    else
      var r := seq(|ms|, k requires 0 <= k < |ms| => combine(l, Some(ms[k])));
      assert !NoMatch(l, right, on) by {
        assert ms[0] in right && on(l, ms[0]);
      }
      assert forall b :: b in right && on(l, b) ==> combine(l, Some(b)) in r by {
        forall b | b in right && on(l, b) ensures combine(l, Some(b)) in r {
          var k :| 0 <= k < |ms| && ms[k] == b;
          assert r[k] == combine(l, Some(b));
        }
      }
      r
  }

  /** `pd.merge(left, right, how='left')`: like the inner merge, but a left row
      without any match is kept once, paired with nothing (NaN). */
  function LeftMerge<L(!new), R(!new), O(!new)>(left: seq<L>, right: seq<R>, on: (L, R) -> bool,
                                                combine: (L, Option<R>) -> O): (r: seq<O>)
    ensures |r| >= |left|
    ensures forall o :: o in r <==> exists a :: a in left && LeftRowOf(a, right, on, combine, o)
  {
    if left == [] then []
    else
      var init := left[..|left| - 1];
      var l := left[|left| - 1];
      assert forall a :: a in left <==> a in init || a == l;
      LeftMerge(init, right, on, combine) + LeftCombined(l, right, on, combine)
  }

  /** Some row has key `k`. */
  predicate HasKey<R, K(==)>(rows: seq<R>, key: R -> Option<K>, k: K) {
    exists i :: 0 <= i < |rows| && key(rows[i]) == Some(k)
  }

  /** The non-missing keys of the rows, in row order. */
  function KeysOf<R, K(!new)>(rows: seq<R>, key: R -> Option<K>): (r: seq<K>)
    ensures forall k :: k in r <==> HasKey(rows, key, k)
  {
    if rows == [] then []
    else
      var init := rows[..|rows| - 1];
      var last := rows[|rows| - 1];
      var r := KeysOf(init, key) + (if key(last).Some? then [key(last).value] else []);
      assert forall k :: HasKey(rows, key, k) <==> HasKey(init, key, k) || key(last) == Some(k) by {
        forall k ensures HasKey(rows, key, k) <==> HasKey(init, key, k) || key(last) == Some(k) {
          if HasKey(rows, key, k) {
            var i :| 0 <= i < |rows| && key(rows[i]) == Some(k);
            if i < |init| { assert key(init[i]) == Some(k); }
          }
          if HasKey(init, key, k) {
            var i :| 0 <= i < |init| && key(init[i]) == Some(k);
            assert key(rows[i]) == Some(k);
          }
        }
      }
      r
  }

  /** The group labels of `groupby(key)`: distinct non-missing keys, ascending. */
  function GroupKeys<R, K(!new,==)>(rows: seq<R>, key: R -> Option<K>, lt: (K, K) -> bool): (r: seq<K>)
    requires StrictTotal(lt)
    ensures SortedBy(r, lt)
    ensures forall k :: k in r <==> HasKey(rows, key, k)
  {
    SortedDistinct(KeysOf(rows, key), lt)
  }

  /** The row test "the key is `k`". */
  function KeyIs<R, K(==)>(key: R -> Option<K>, k: K): R -> bool {
    r => key(r) == Some(k)
  }

  /** The row test "the key is not missing". */
  function KeyPresent<R, K>(key: R -> Option<K>): R -> bool {
    r => key(r).Some?
  }

  /** The column of values `val` takes on the rows, in row order. */
  function Values<R>(rows: seq<R>, val: R -> real): (vs: seq<real>)
    ensures |vs| == |rows| && forall i :: 0 <= i < |rows| ==> vs[i] == val(rows[i])
  {
    seq(|rows|, i requires 0 <= i < |rows| => val(rows[i]))
  }

  /** The rows of group `k`, in their original order. */
  function Group<R(!new), K(==)>(rows: seq<R>, key: R -> Option<K>, k: K): seq<R> {
    Filter(rows, KeyIs(key, k))
  }
  /** A key that occurs has a non-empty group. */
  lemma GroupNonEmpty<R(!new), K>(rows: seq<R>, key: R -> Option<K>, k: K)
    requires HasKey(rows, key, k)
    ensures |Group(rows, key, k)| > 0
  {
    var i :| 0 <= i < |rows| && key(rows[i]) == Some(k);
    assert rows[i] in Group(rows, key, k);
  }


  /** Sum of `val` over each listed group, added up. */
  function SumGroups<R(!new), K(==)>(rows: seq<R>, key: R -> Option<K>, val: R -> real, ks: seq<K>): real {
    if ks == [] then 0.0
    else SumGroups(rows, key, val, ks[..|ks| - 1]) + SumOf(Group(rows, key, ks[|ks| - 1]), val)
  }

  /** Summing per group over every key loses and duplicates nothing: the group
      totals add up to the total over all rows whose key is present. */
  lemma {:induction false} SumOverGroups<R(!new), K(!new)>(rows: seq<R>, key: R -> Option<K>, val: R -> real,
                                                        lt: (K, K) -> bool)
    requires StrictTotal(lt)
    ensures SumGroups(rows, key, val, GroupKeys(rows, key, lt)) == SumOf(Filter(rows, KeyPresent(key)), val)
  {
    var ks := GroupKeys(rows, key, lt);
    SumGroupsCovering(rows, key, val, ks, lt);
  }

  lemma {:induction false} SumGroupsCovering<R(!new), K(!new)>(rows: seq<R>, key: R -> Option<K>, val: R -> real,
                                                            ks: seq<K>, lt: (K, K) -> bool)
    requires StrictTotal(lt) && SortedBy(ks, lt)
    requires forall r :: r in rows && key(r).Some? ==> key(r).value in ks
    ensures SumGroups(rows, key, val, ks) == SumOf(Filter(rows, KeyPresent(key)), val)
    decreases |rows|
  {
    if rows == [] {
      SumGroupsEmpty(key, val, ks);
    } else {
      var init := rows[..|rows| - 1];
      var last := rows[|rows| - 1];
      var tail: seq<R> := if key(last).Some? then [last] else [];
      SplitLast(rows);
      assert forall r :: r in init ==> r in rows;
      assert last in rows;
      SumGroupsCovering(init, key, val, ks, lt);
      SumGroupsSnoc(init, last, key, val, ks, lt);
      FilterSnoc(init, last, KeyPresent(key));
      SumOfAppend(Filter(init, KeyPresent(key)), tail, val);
      assert SumOf(tail, val) == if key(last).Some? then val(last) else 0.0 by {
        assert tail == [] || tail[..0] == [];
      }
    }
  }

  lemma {:induction false} SumGroupsEmpty<R(!new), K>(key: R -> Option<K>, val: R -> real, ks: seq<K>)
    ensures SumGroups([], key, val, ks) == 0.0
    decreases |ks|
  {
    if ks != [] {
      SumGroupsEmpty(key, val, ks[..|ks| - 1]);
    }
  }

  lemma {:induction false} SumGroupsSnoc<R(!new), K(!new)>(rows: seq<R>, x: R, key: R -> Option<K>, val: R -> real,
                                                        ks: seq<K>, lt: (K, K) -> bool)
    requires StrictTotal(lt) && SortedBy(ks, lt)
    ensures SumGroups(rows + [x], key, val, ks)
         == SumGroups(rows, key, val, ks) + (if key(x).Some? && key(x).value in ks then val(x) else 0.0)
    decreases |ks|
  {
    if ks != [] {
      var init := ks[..|ks| - 1];
      var k := ks[|ks| - 1];
      SumGroupsSnoc(rows, x, key, val, init, lt);
      FilterAppend(rows, [x], KeyIs(key, k));
      assert Filter([x], KeyIs(key, k)) == (if key(x) == Some(k) then [x] else []) by {
        assert [x][..0] == [];
      }
      SumOfAppend(Group(rows, key, k), Filter([x], KeyIs(key, k)), val);
      if key(x) == Some(k) {
        assert k !in init by {
          forall i | 0 <= i < |init| ensures init[i] != k {
            assert lt(ks[i], ks[|ks| - 1]);
          }
        }
      }
      assert forall y :: y in ks <==> y in init || y == k;
    }
  }
}
