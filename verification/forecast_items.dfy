/** The entries of an OpenWeather forecast list, as both weather services
    read them, and the numeric folds (minimum, maximum, mean) their daily
    summaries take. Temperatures are exact reals. */
module ForecastItems {
  import opened Common

  /** One three-hour entry: the local day of its `dt`, `main.temp`,
      `weather[0].description`, `weather[0].icon`, and `pop` when present. */
  datatype Sample = Sample(day: int, temp: real, description: string, icon: string, pop: Option<real>)

  function Temps(xs: seq<Sample>): (ts: seq<real>)
    ensures |ts| == |xs|
    ensures forall i :: 0 <= i < |xs| ==> ts[i] == xs[i].temp
  {
    if |xs| == 0 then [] else Temps(xs[..|xs| - 1]) + [xs[|xs| - 1].temp]
  }

  lemma TempsAppend(a: seq<Sample>, b: seq<Sample>)
    ensures Temps(a + b) == Temps(a) + Temps(b)
  {
  }

  /** Python's `min` of a non-empty list. */
  function MinOf(xs: seq<real>): (m: real)
    requires |xs| > 0
    ensures m in xs
    ensures forall i :: 0 <= i < |xs| ==> m <= xs[i]
  {
    if |xs| == 1 then xs[0]
    else
      var m := MinOf(xs[..|xs| - 1]);
      assert forall i :: 0 <= i < |xs| - 1 ==> xs[..|xs| - 1][i] == xs[i];
      if xs[|xs| - 1] < m then xs[|xs| - 1] else m
  }

  /** Python's `max` of a non-empty list. */
  function MaxOf(xs: seq<real>): (m: real)
    requires |xs| > 0
    ensures m in xs
    ensures forall i :: 0 <= i < |xs| ==> xs[i] <= m
  {
    if |xs| == 1 then xs[0]
    else
      var m := MaxOf(xs[..|xs| - 1]);
      assert forall i :: 0 <= i < |xs| - 1 ==> xs[..|xs| - 1][i] == xs[i];
      if xs[|xs| - 1] > m then xs[|xs| - 1] else m
  }

  function Sum(xs: seq<real>): real {
    if |xs| == 0 then 0.0 else Sum(xs[..|xs| - 1]) + xs[|xs| - 1]
  }

  /** The sum of a list lies between its length times any lower bound and
      its length times any upper bound. */
  lemma {:induction false} SumBounds(xs: seq<real>, lo: real, hi: real)
    requires forall i :: 0 <= i < |xs| ==> lo <= xs[i] <= hi
    ensures |xs| as real * lo <= Sum(xs) <= |xs| as real * hi
    decreases |xs|
  {
    if |xs| > 0 {
      var init := xs[..|xs| - 1];
      assert forall i :: 0 <= i < |init| ==> init[i] == xs[i];
      SumBounds(init, lo, hi);
    }
  }

  lemma DivideBounds(total: real, n: real, lo: real, hi: real)
    requires n > 0.0 && n * lo <= total <= n * hi
    ensures lo <= total / n <= hi
  {
    var q := total / n;
    assert q * n == total;
  }

  /** `sum(t) / len(t)`, the mean of a non-empty list. */
  function Mean(xs: seq<real>): (a: real)
    requires |xs| > 0
    ensures MinOf(xs) <= a <= MaxOf(xs)
  {
    SumBounds(xs, MinOf(xs), MaxOf(xs));
    DivideBounds(Sum(xs), |xs| as real, MinOf(xs), MaxOf(xs));
    Sum(xs) / |xs| as real
  }
}
