/** The forecasting loop of both scripts: a 14-day forecast frame indexed by
  the days after the last history day (task1_1.py line 41, task1_2.py line
  44), and one attempt per category, each inside its own `try`, so that a
  category whose fit or forecast raises is reported and skipped while the
  loop goes on (task1_1.py lines 43-61, task1_2.py lines 46-71).

  The statistical fit itself (Holt-Winters smoothing in task1_1.py, auto-ARIMA
  in task1_2.py) is a parameter: a total function from a history column to
  either the forecast values or the message of the exception it raised.
*/
module Forecast {
  import opened Wrappers
  import opened Calendar
  import opened DailySales

  /** `steps=14` / `n_periods=14` / `periods=14`. */
  const Horizon: nat := 14

  /** The fitted model's forecast for a history column, or the exception. */
  type Fit = Column -> Result<seq<real>>

  /** The message pandas raises when `daily_sales.index[-1]` is taken of an
      empty index. */
  const EmptyIndexMessage: string := "index -1 is out of bounds for axis 0 with size 0"

  /** The message of the `ValueError` pandas raises when values of length
      `n`, not aligned by an index, are assigned as a column of the 14-row
      frame. */
  function LengthMessage(n: nat): string {
    "Length of values (" + Decimal(n) + ") does not match length of index (" + Decimal(Horizon) + ")"
  }

  function DigitChar(d: nat): (c: char)
    requires d < 10
    ensures '0' <= c <= '9' && (c as int) - ('0' as int) == d
  {
    ('0' as int + d) as char
  }

  /** `str(n)`: the decimal digits of `n`, without leading zeros. */
  function Decimal(n: nat): (s: string)
    ensures |s| > 0 && (forall k :: 0 <= k < |s| ==> '0' <= s[k] <= '9')
    ensures |s| > 1 ==> s[0] != '0'
    decreases n
  {
    if n < 10 then [DigitChar(n)] else Decimal(n / 10) + [DigitChar(n % 10)]
  }

  /** The number a string of decimal digits denotes. */
  function DigitsValue(s: string): nat
    requires forall k :: 0 <= k < |s| ==> '0' <= s[k] <= '9'
  {
    if s == [] then 0
    else DigitsValue(s[..|s| - 1]) * 10 + ((s[|s| - 1] as int) - ('0' as int))
  }

  /** Lemma: reading back the digits of `n` gives `n`. */
  lemma {:induction false} DecimalRoundTrip(n: nat)
    ensures DigitsValue(Decimal(n)) == n
    decreases n
  {
    if n >= 10 {
      DecimalRoundTrip(n / 10);
      var s := Decimal(n);
      assert s[..|s| - 1] == Decimal(n / 10);
    } else {
      assert Decimal(n)[..0] == [];
    }
  }

  /** task1_1.py line 41 (task1_2.py lines 44 and 57): the 14 days that follow
      the last history day; it raises on a history without any day. */
  function ForecastIndex(days: seq<int>): (r: Result<seq<int>>)
    ensures r.Success? <==> |days| > 0
    ensures r.Success? ==>
      && |r.value| == Horizon
      && r.value[0] == days[|days| - 1] + 1
      && forall i :: 0 <= i < Horizon ==> r.value[i] == r.value[0] + i
    ensures r.Failure? ==> r.error == EmptyIndexMessage
  {
    if |days| == 0 then Failure(EmptyIndexMessage)
    else Success(DateRange(days[|days| - 1] + 1, Horizon))
  }

  /** The fit's result is usable as a forecast column: it did not raise and it
      has one value per forecast day. */
  predicate Accepted(res: Result<seq<real>>) {
    res.Success? && |res.value| == Horizon
  }

  /** The outcome of one iteration of the loop for one category. */
  datatype Outcome =
    | Forecasted(category: string, values: seq<real>)
    | Failed(category: string, message: string)

  /** The line printed by the `except` clause (task1_1.py line 61). */
  function ErrorLine(category: string, e: string): (line: string)
    ensures |line| == |"Error processing category "| + |category| + 2 + |e|
    ensures line[..|"Error processing category "|] == "Error processing category "
    ensures line[|"Error processing category "|..|"Error processing category "| + |category|] == category
    ensures line[|line| - |e|..] == e
  {
    "Error processing category " + category + ": " + e
  }

  /** One iteration of the loop body (task1_1.py lines 44-49 and 60-61,
      task1_2.py lines 47-58 and 70-71): the category's forecast when the
      fit succeeds with 14 values, and otherwise the reported error. */
  function Attempt(category: string, history: Column, fit: Fit): (o: Outcome)
    ensures o.category == category
    ensures o.Forecasted? <==> Accepted(fit(history))
    ensures o.Forecasted? ==> o.values == fit(history).value && |o.values| == Horizon
    ensures o.Failed? && fit(history).Failure? ==> o.message == ErrorLine(category, fit(history).error)
    ensures o.Failed? && fit(history).Success? ==> o.message == ErrorLine(category, LengthMessage(|fit(history).value|))
  {
    match fit(history)
    case Failure(e) => Failed(category, ErrorLine(category, e))
    case Success(vs) =>
      if |vs| == Horizon then Forecasted(category, vs) else Failed(category, ErrorLine(category, LengthMessage(|fit(history).value|)))
  }

  /** The outcomes of the whole loop, one per category in column order: each
      depends on its own column only. */
  function Outcomes(t: DayTable, fit: Fit): (os: seq<Outcome>)
    requires WellFormed(t)
    ensures |os| == |t.categories|
    ensures forall j :: 0 <= j < |os| ==>
      && os[j].category == t.categories[j]
      && (os[j].Forecasted? <==> Accepted(fit(t.columns[j])))
  {
    seq(|t.categories|, j requires 0 <= j < |t.categories| => Attempt(t.categories[j], t.columns[j], fit))
  }

  /** What the loop has accumulated: the forecast columns added so far, with
      their categories, and the error lines printed so far. */
  datatype Tally = Tally(categories: seq<string>, columns: seq<seq<real>>, log: seq<string>)

  /** The category was forecast in `os`. */
  predicate ForecastedIn(os: seq<Outcome>, c: string) {
    exists k :: 0 <= k < |os| && os[k].Forecasted? && os[k].category == c
  }

  /** The outcomes folded in order: a success appends a column, a failure
      appends an error line. */
  function Collect(os: seq<Outcome>): (r: Tally)
    requires forall k :: 0 <= k < |os| && os[k].Forecasted? ==> |os[k].values| == Horizon
    ensures |r.categories| == |r.columns|
    ensures |r.categories| + |r.log| == |os|
    ensures forall k :: 0 <= k < |r.columns| ==> |r.columns[k]| == Horizon
    ensures forall c :: c in r.categories <==> ForecastedIn(os, c)
    ensures forall k :: 0 <= k < |r.categories| ==>
      exists i :: 0 <= i < |os| && os[i] == Forecasted(r.categories[k], r.columns[k])
  {
    if os == [] then Tally([], [], [])
    else
      var n := |os| - 1;
      var prev := Collect(os[..n]);
      var o := os[n];
      CollectStep(os);
      match o
      case Forecasted(c, vs) => Tally(prev.categories + [c], prev.columns + [vs], prev.log)
      case Failed(_, m) => Tally(prev.categories, prev.columns, prev.log + [m])
  }

  /** Forecast membership in `os` splits between its prefix and its last outcome. */
  /** The outcomes of the first `j` categories, where every forecast has
      `Horizon` values, tally up to `tally`. */
  ghost predicate Tallied(os: seq<Outcome>, j: nat, tally: Tally) {
    && j <= |os|
    && (forall k :: 0 <= k < |os| && os[k].Forecasted? ==> |os[k].values| == Horizon)
    && tally == Collect(os[..j])
  }

  /** The loop step: one more outcome extends the tally by that outcome. */
  lemma TallyStep(os: seq<Outcome>, j: nat, tally: Tally)
    requires Tallied(os, j, tally) && j < |os|
    ensures Tallied(os, j + 1, match os[j]
      case Forecasted(c, vs) => Tally(tally.categories + [c], tally.columns + [vs], tally.log)
      case Failed(_, m) => Tally(tally.categories, tally.columns, tally.log + [m]))
  {
    assert os[..j + 1][..j] == os[..j];
  }

  lemma TallyDone(os: seq<Outcome>, tally: Tally)
    requires Tallied(os, |os|, tally)
    ensures tally == Collect(os)
  {
    assert os[..|os|] == os;
  }

  lemma CollectStep(os: seq<Outcome>)
    requires |os| > 0
    ensures forall c :: ForecastedIn(os, c) <==>
      ForecastedIn(os[..|os| - 1], c) || (os[|os| - 1].Forecasted? && os[|os| - 1].category == c)
  {
    var n := |os| - 1;
    forall c ensures ForecastedIn(os, c) <==> ForecastedIn(os[..n], c) || (os[n].Forecasted? && os[n].category == c) {
      if ForecastedIn(os, c) {
        var k :| 0 <= k < |os| && os[k].Forecasted? && os[k].category == c;
        if k < n { assert os[..n][k] == os[k]; }
      }
      if ForecastedIn(os[..n], c) {
        var k :| 0 <= k < n && os[..n][k].Forecasted? && os[..n][k].category == c;
        assert os[k] == os[..n][k];
      }
    }
  }

  /** The forecast frame: its index and one column per forecast category. */
  datatype ForecastTable = ForecastTable(index: seq<int>, categories: seq<string>, columns: seq<seq<real>>)

  /** The run of task1_1.py (`Smoothing`), or of task1_2.py (`Arima`), which
      re-sets the frame's index to a freshly built 14-day range after each
      successful category (lines 57-59). */
  datatype Variant = Smoothing | Arima

  /** The result of the script's forecasting part: the frame printed at the
      end and the error lines printed along the way. */
  datatype Run = Run(table: ForecastTable, log: seq<string>)

  /** Lines 40-61: the forecasting loop. The history must hold at least one
      day, or line 41 raises before the loop; otherwise every category is
      attempted in column order and its outcome depends on its own column
      only. */
  method RunForecasts(t: DayTable, fit: Fit, variant: Variant) returns (r: Result<Run>)
    requires WellFormed(t)
    ensures r.Failure? <==> |t.days| == 0
    ensures r.Failure? ==> r.error == EmptyIndexMessage
    ensures r.Success? ==> var tally := Collect(Outcomes(t, fit));
      && r.value.table == ForecastTable(ForecastIndex(t.days).value, tally.categories, tally.columns)
      && r.value.log == tally.log
  {
    var index :- ForecastIndex(t.days);
    var os := Outcomes(t, fit);
    var cats: seq<string> := [];
    var cols: seq<seq<real>> := [];
    var log: seq<string> := [];
    for j := 0 to |os|
      invariant Tallied(os, j, Tally(cats, cols, log))
      invariant index == ForecastIndex(t.days).value
    {
      TallyStep(os, j, Tally(cats, cols, log));
      match Attempt(t.categories[j], t.columns[j], fit)
      case Forecasted(c, vs) =>
        cats := cats + [c];
        cols := cols + [vs];
        if variant == Arima {
          index := ForecastIndex(t.days).value;
        }
      case Failed(_, m) =>
        log := log + [m];
    }
    TallyDone(os, Tally(cats, cols, log));
    return Success(Run(ForecastTable(index, cats, cols), log));
  }

  /** Theorem (task1_1.py lines 41-61, task1_2.py lines 44-71): when the
      history has days, the forecast frame's index is the 14 days after the
      last one, whichever variant ran (the re-set of task1_2.py leaves it
      as it was); a category gets a forecast column exactly when its own fit
      succeeds with 14 values, and that column is the fit's forecast; every
      other category is reported, so columns and error lines together
      account for every category. */
  lemma RunForecastsSpec(t: DayTable, fit: Fit)
    requires WellFormed(t) && |t.days| > 0
    ensures var tally := Collect(Outcomes(t, fit));
      && (forall c :: c in tally.categories <==>
            exists j :: 0 <= j < |t.categories| && t.categories[j] == c && Accepted(fit(t.columns[j])))
      && (forall k :: 0 <= k < |tally.categories| ==>
            exists j :: 0 <= j < |t.categories| && t.categories[j] == tally.categories[k]
              && fit(t.columns[j]) == Success(tally.columns[k]))
      && |tally.categories| + |tally.log| == |t.categories|
  {
    var os := Outcomes(t, fit);
    var tally := Collect(os);
    forall c ensures c in tally.categories <==>
      exists j :: 0 <= j < |t.categories| && t.categories[j] == c && Accepted(fit(t.columns[j]))
    {
      if c in tally.categories {
        var j :| 0 <= j < |os| && os[j].Forecasted? && os[j].category == c;
        assert Accepted(fit(t.columns[j]));
      }
      if exists j :: 0 <= j < |t.categories| && t.categories[j] == c && Accepted(fit(t.columns[j])) {
        var j :| 0 <= j < |t.categories| && t.categories[j] == c && Accepted(fit(t.columns[j]));
        assert ForecastedIn(os, c);
      }
    }
    forall k | 0 <= k < |tally.categories|
      ensures exists j ::
        0 <= j < |t.categories| && t.categories[j] == tally.categories[k] && fit(t.columns[j]) == Success(tally.columns[k])
    {
      var i :| 0 <= i < |os| && os[i] == Forecasted(tally.categories[k], tally.columns[k]);
      assert os[i] == Attempt(t.categories[i], t.columns[i], fit);
    }
  }

  /** Theorem (the per-category `try`): a category's outcome is the same
      whatever the fit does on the other categories' columns, raising
      included. */
  lemma Isolation(t: DayTable, fit: Fit, fit': Fit, j: int)
    requires WellFormed(t) && 0 <= j < |t.categories|
    requires fit(t.columns[j]) == fit'(t.columns[j])
    ensures Outcomes(t, fit)[j] == Outcomes(t, fit')[j]
  {
  }
}
