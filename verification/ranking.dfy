/** pandas `nlargest(n)` and `nsmallest(n)` with their default `keep='first'`:
  the `n` rows with the largest (smallest) values, in order of value, where a
  tie between equal values goes to the row that comes first in the frame.
  This is the same as a stable sort on the value followed by taking a
  prefix; here it is a strict total order on (value, position) pairs.
*/
module Ranking {
  import opened Order

  /** A value together with the position of its row in the frame. */
  datatype Ranked = Ranked(value: real, pos: int)

  /** `a` comes before `b` in `nlargest`: a larger value, or the same value
      in an earlier row. */
  predicate Larger(a: Ranked, b: Ranked) {
    a.value > b.value || (a.value == b.value && a.pos < b.pos)
  }

  /** `a` comes before `b` in `nsmallest`: a smaller value, or the same value
      in an earlier row. */
  predicate Smaller(a: Ranked, b: Ranked) {
    a.value < b.value || (a.value == b.value && a.pos < b.pos)
  }

  lemma LargerStrictTotal()
    ensures StrictTotal(Larger)
  {
  }

  lemma SmallerStrictTotal()
    ensures StrictTotal(Smaller)
  {
  }

  /** The column with each value tagged by its row position. */
  function Positioned(vals: seq<real>): (r: seq<Ranked>)
    ensures |r| == |vals| && Distinct(r)
    ensures forall x: Ranked :: x in r <==> 0 <= x.pos < |vals| && x.value == vals[x.pos]
  {
    var r := seq(|vals|, i requires 0 <= i < |vals| => Ranked(vals[i], i));
    assert forall x: Ranked :: 0 <= x.pos < |vals| && x.value == vals[x.pos] ==> r[x.pos] == x;
    r
  }

  function Min(a: nat, b: nat): nat {
    if a < b then a else b
  }

  /** The first `n` rows of the frame sorted by `before`. */
  function Select(vals: seq<real>, n: nat, before: (Ranked, Ranked) -> bool): (r: seq<Ranked>)
    requires StrictTotal(before)
    ensures |r| == Min(n, |vals|)
    ensures SortedBy(r, before)
    ensures forall k :: 0 <= k < |r| ==> 0 <= r[k].pos < |vals| && r[k].value == vals[r[k].pos]
    ensures forall x :: x in Positioned(vals) && x !in r ==> forall k :: 0 <= k < |r| ==> before(r[k], x)
    ensures n >= |vals| ==> forall x :: x in Positioned(vals) ==> x in r
  {
    var all := SortedDistinct(Positioned(vals), before);
    var r := all[..Min(n, |vals|)];
    assert n >= |vals| ==> r == all;
    assert forall k :: 0 <= k < |r| ==> r[k] in all;
    forall x | x in Positioned(vals) && x !in r ensures forall k :: 0 <= k < |r| ==> before(r[k], x) {
      var q :| 0 <= q < |all| && all[q] == x;
      assert q >= |r|;
    }
    r
  }

  /** `nlargest(n)`: the rows with the largest values, largest first, a tie
      going to the earlier row; every row left out is behind every row
      kept. */
  function NLargest(vals: seq<real>, n: nat): (r: seq<Ranked>)
    ensures |r| == Min(n, |vals|)
    ensures forall k :: 0 <= k < |r| ==> 0 <= r[k].pos < |vals| && r[k].value == vals[r[k].pos]
    ensures forall i, j :: 0 <= i < j < |r| ==>
      r[i].value > r[j].value || (r[i].value == r[j].value && r[i].pos < r[j].pos)
    ensures forall p :: 0 <= p < |vals| && (forall k :: 0 <= k < |r| ==> r[k].pos != p) ==>
      forall k :: 0 <= k < |r| ==> r[k].value > vals[p] || (r[k].value == vals[p] && r[k].pos < p)
    ensures n >= |vals| ==> forall p :: 0 <= p < |vals| ==> Ranked(vals[p], p) in r
  {
    LargerStrictTotal();
    var r := Select(vals, n, Larger);
    assert n >= |vals| ==> forall p :: 0 <= p < |vals| ==> Ranked(vals[p], p) in r by {
      if n >= |vals| {
        forall p | 0 <= p < |vals| ensures Ranked(vals[p], p) in r {
          assert Ranked(vals[p], p) in Positioned(vals);
        }
      }
    }
    forall p | 0 <= p < |vals| && (forall k :: 0 <= k < |r| ==> r[k].pos != p)
      ensures forall k :: 0 <= k < |r| ==> Larger(r[k], Ranked(vals[p], p))
    {
      assert Ranked(vals[p], p) in Positioned(vals);
    }
    r
  }

  /** `nsmallest(n)`: the rows with the smallest values, smallest first, a
      tie going to the earlier row; every row left out is behind every row
      kept. */
  function NSmallest(vals: seq<real>, n: nat): (r: seq<Ranked>)
    ensures |r| == Min(n, |vals|)
    ensures forall k :: 0 <= k < |r| ==> 0 <= r[k].pos < |vals| && r[k].value == vals[r[k].pos]
    ensures forall i, j :: 0 <= i < j < |r| ==>
      r[i].value < r[j].value || (r[i].value == r[j].value && r[i].pos < r[j].pos)
    ensures forall p :: 0 <= p < |vals| && (forall k :: 0 <= k < |r| ==> r[k].pos != p) ==>
      forall k :: 0 <= k < |r| ==> r[k].value < vals[p] || (r[k].value == vals[p] && r[k].pos < p)
  {
    SmallerStrictTotal();
    var r := Select(vals, n, Smaller);
    forall p | 0 <= p < |vals| && (forall k :: 0 <= k < |r| ==> r[k].pos != p)
      ensures forall k :: 0 <= k < |r| ==> Smaller(r[k], Ranked(vals[p], p))
    {
      assert Ranked(vals[p], p) in Positioned(vals);
    }
    r
  }

  /** Theorem: `nlargest(1)` of a non-empty column is its first maximum. */
  lemma NLargestOne(vals: seq<real>)
    requires |vals| > 0
    ensures var r := NLargest(vals, 1);
      && |r| == 1
      && (forall p :: 0 <= p < |vals| ==> vals[p] <= r[0].value)
      && (forall p :: 0 <= p < r[0].pos ==> vals[p] < r[0].value)
  {
    var r := NLargest(vals, 1);
    forall p | 0 <= p < |vals| ensures vals[p] <= r[0].value && (p < r[0].pos ==> vals[p] < r[0].value) {
      if p != r[0].pos {
        assert forall k :: 0 <= k < |r| ==> r[k].pos != p;
      }
    }
  }

  /** Theorem: `nsmallest(1)` of a non-empty column is its first minimum. */
  lemma NSmallestOne(vals: seq<real>)
    requires |vals| > 0
    ensures var r := NSmallest(vals, 1);
      && |r| == 1
      && (forall p :: 0 <= p < |vals| ==> r[0].value <= vals[p])
      && (forall p :: 0 <= p < r[0].pos ==> r[0].value < vals[p])
  {
    var r := NSmallest(vals, 1);
    forall p | 0 <= p < |vals| ensures r[0].value <= vals[p] && (p < r[0].pos ==> r[0].value < vals[p]) {
      if p != r[0].pos {
        assert forall k :: 0 <= k < |r| ==> r[k].pos != p;
      }
    }
  }

  /** Theorem: on a column of one row both selections pick that row. */
  lemma SingleRow(v: real)
    ensures NLargest([v], 1) == NSmallest([v], 1) == [Ranked(v, 0)]
  {
  }
}
