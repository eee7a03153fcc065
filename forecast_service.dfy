/** The forecast engine: the error returns of the Prophet path and the
    hand-rolled exponential-smoothing fallback. Prophet's own fit and predict
    are not modelled; what they did is the `ProphetRun` input. */
module ForecastService {
  import opened Frames

  const ALPHA: real := 0.3
  const WINDOW: nat := 5
  const MIN_VALUES: nat := 3
  const METHOD_NAME: string := "exponential_smoothing"
  const INSUFFICIENT_DATA: string := "Insufficient data for forecasting"
  const PROPHET_MISSING: string := "Prophet library not installed"
  const INSTALL_HINT: string := "Install with: pip install prophet"
  /** Stands for numpy's TypeError text when the smoothing meets text values. */
  const NON_NUMERIC_VALUES: string := "unsupported operand type(s) for smoothing"

  datatype Point = Point(ds: string, yhat: real)

  /** The dicts the engine returns. Only `ErrorResult` has an "error" key. */
  datatype ForecastResult =
    | ErrorResult(error: string, hint: Option<string>)
    | ProphetForecast(points: seq<Point>, lowerBound: seq<real>, upperBound: seq<real>, periods: int)
    | SmoothedForecast(values: seq<real>, methodName: string, periods: int)

  /** `"error" in result` */
  predicate HasErrorKey(r: ForecastResult) {
    r.ErrorResult?
  }

  datatype PredictedRow = PredictedRow(ds: string, yhat: real, yhatLower: real, yhatUpper: real)

  /** What the Prophet part of `forecast_time_series` did: building the
      (ds, y) frame raised (outside the try), fitting or predicting raised
      (inside it), or Prophet predicted these rows (history and future). */
  datatype ProphetRun = PrepareRaised(message: string) | FitRaised(message: string) | Predicted(rows: seq<PredictedRow>)

  /** `DataFrame.tail(n)`: the last n rows, or for negative n all but the first -n. */
  function Tail<T>(s: seq<T>, n: int): (r: seq<T>)
    ensures |r| <= |s| && r == s[|s| - |r|..]
    ensures |r| == if n >= 0 then Min(n, |s|) else Max(|s| + n, 0)
  {
    if n >= 0 then s[|s| - Min(n, |s|)..] else s[Min(-n, |s|)..]
  }

  /** `forecast_time_series`: an error dict when Prophet is missing or fitting
      raises; an exception from preparing the frame propagates. */
  function ForecastTimeSeries(prophetAvailable: bool, run: ProphetRun, periods: int): (r: Outcome<ForecastResult>)
    ensures r.Raised? <==> prophetAvailable && run.PrepareRaised?
    ensures r.Returned? ==> (HasErrorKey(r.value) <==> !prophetAvailable || run.FitRaised?)
    ensures !prophetAvailable ==> r == Returned(ErrorResult(PROPHET_MISSING, Some(INSTALL_HINT)))
    ensures prophetAvailable && run.FitRaised? ==> r == Returned(ErrorResult(run.message, None))
    ensures r.Returned? && r.value.ProphetForecast? ==>
      && r.value.periods == periods
      && |r.value.points| == |r.value.lowerBound| == |r.value.upperBound| == |Tail(run.rows, periods)|
  {
    if !prophetAvailable then Returned(ErrorResult(PROPHET_MISSING, Some(INSTALL_HINT)))
    else match run
      case PrepareRaised(e) => Raised(e)
      case FitRaised(e) => Returned(ErrorResult(e, None))
      case Predicted(rows) =>
        var tail := Tail(rows, periods);
        Returned(ProphetForecast(
          seq(|tail|, i requires 0 <= i < |tail| => Point(tail[i].ds, tail[i].yhat)),
          seq(|tail|, i requires 0 <= i < |tail| => tail[i].yhatLower),
          seq(|tail|, i requires 0 <= i < |tail| => tail[i].yhatUpper),
          periods))
  }

  /** `values[-5:]` */
  function LastWindow<T>(values: seq<T>): (w: seq<T>)
    ensures |w| == Min(WINDOW, |values|)
  {
    values[|values| - Min(WINDOW, |values|)..]
  }

  predicate AllNumbers(cells: seq<Cell>) {
    forall i :: 0 <= i < |cells| ==> cells[i].Num?
  }

  function Numbers(cells: seq<Cell>): (xs: seq<real>)
    requires AllNumbers(cells)
    ensures |xs| == |cells|
  {
    seq(|cells|, i requires 0 <= i < |cells| => cells[i].value)
  }

  function Sum(xs: seq<real>): real {
    if xs == [] then 0.0 else Sum(xs[..|xs| - 1]) + xs[|xs| - 1]
  }

  /** `np.mean` */
  function Mean(xs: seq<real>): real
    requires |xs| > 0
  {
    Sum(xs) / |xs| as real
  }

  /** One step of the loop: `alpha * last_value + (1 - alpha) * mean`. */
  function Step(estimate: real, mean: real): real {
    ALPHA * estimate + (1.0 - ALPHA) * mean
  }

  /** The estimate after k steps, starting from the last observed value. */
  function Estimate(last: real, mean: real, k: nat): real {
    if k == 0 then last else Step(Estimate(last, mean, k - 1), mean)
  }

  /** The first n estimates after the seed: the forecast list. */
  function Estimates(last: real, mean: real, n: nat): (r: seq<real>)
    ensures |r| == n
    ensures forall j :: 0 <= j < n ==> r[j] == Estimate(last, mean, j + 1)
  {
    if n == 0 then [] else Estimates(last, mean, n - 1) + [Estimate(last, mean, n)]
  }

  function KeyErrorText(name: string): string {
    "'" + name + "'"
  }

  /** What `simple_forecast(df, value_col, periods)` returns or raises. */
  function SimpleForecastSpec(f: Frame, valueCol: string, periods: int): Outcome<ForecastResult> {
    match Lookup(f.columns, valueCol)
    case None => Raised(KeyErrorText(valueCol))
    case Some(col) =>
      var values := NonMissing(col.cells);
      if |values| < MIN_VALUES then Returned(ErrorResult(INSUFFICIENT_DATA, None))
      else if periods <= 0 then Returned(SmoothedForecast([], METHOD_NAME, periods))
      else
        var window := LastWindow(values);
        if !AllNumbers(window) then Raised(NON_NUMERIC_VALUES)
        else
          var xs := Numbers(window);
          Returned(SmoothedForecast(Estimates(xs[|xs| - 1], Mean(xs), periods), METHOD_NAME, periods))
  }

  /** `simple_forecast`, step by step. */
  method SimpleForecast(f: Frame, valueCol: string, periods: int) returns (r: Outcome<ForecastResult>)
    ensures r == SimpleForecastSpec(f, valueCol, periods)
  {
    var found := Lookup(f.columns, valueCol);
    if found.None? {
      return Raised(KeyErrorText(valueCol));
    }
    var values := NonMissing(found.value.cells);
    if |values| < MIN_VALUES {
      return Returned(ErrorResult(INSUFFICIENT_DATA, None));
    }
    var window := LastWindow(values);
    var forecast: seq<real> := [];
    if periods > 0 {
      if !AllNumbers(window) {
        return Raised(NON_NUMERIC_VALUES);
      }
      var xs := Numbers(window);
      var lastValue := xs[|xs| - 1];
      var k := 0;
      while k < periods
        invariant 0 <= k <= periods
        invariant lastValue == Estimate(xs[|xs| - 1], Mean(xs), k)
        invariant forecast == Estimates(xs[|xs| - 1], Mean(xs), k)
      {
        lastValue := ALPHA * lastValue + (1.0 - ALPHA) * Mean(xs);
        forecast := forecast + [lastValue];
        k := k + 1;
      }
    }
    r := Returned(SmoothedForecast(forecast, METHOD_NAME, periods));
  }

  function Pow(x: real, k: nat): real {
    if k == 0 then 1.0 else x * Pow(x, k - 1)
  }

  lemma {:induction false} PowAlphaBounds(k: nat)
    ensures 0.0 < Pow(ALPHA, k) <= 1.0
  {
    if k > 0 {
      PowAlphaBounds(k - 1);
    }
  }

  /** The distance to the mean shrinks by the factor 0.3 every step:
      est_k - m == 0.3^k * (last - m). */
  lemma {:induction false} EstimateDistance(last: real, mean: real, k: nat)
    ensures Estimate(last, mean, k) - mean == Pow(ALPHA, k) * (last - mean)
  {
    if k > 0 {
      EstimateDistance(last, mean, k - 1);
      var e := Estimate(last, mean, k - 1);
      calc {
        Estimate(last, mean, k) - mean;
        ALPHA * e + (1.0 - ALPHA) * mean - mean;
        ALPHA * (e - mean);
        ALPHA * (Pow(ALPHA, k - 1) * (last - mean));
        (ALPHA * Pow(ALPHA, k - 1)) * (last - mean);
      }
    }
  }

  /** Each estimate is a convex combination of the last value and the mean,
      with weight 0.3^k on the last value. */
  lemma EstimateConvex(last: real, mean: real, k: nat)
    ensures var w := Pow(ALPHA, k);
      0.0 < w <= 1.0 && Estimate(last, mean, k) == w * last + (1.0 - w) * mean
  {
    EstimateDistance(last, mean, k);
    PowAlphaBounds(k);
  }

  /** Every estimate lies between the last value and the mean. */
  lemma EstimateBetween(last: real, mean: real, k: nat)
    ensures Min2(last, mean) <= Estimate(last, mean, k) <= Max2(last, mean)
  {
    EstimateDistance(last, mean, k);
    PowAlphaBounds(k);
    var w := Pow(ALPHA, k);
    if last <= mean {
      assert w * (last - mean) <= 0.0;
      assert w * (last - mean) >= last - mean;
    } else {
      assert w * (last - mean) >= 0.0;
      assert w * (last - mean) <= last - mean;
    }
  }

  /** When the last value equals the mean, every forecast equals it. */
  lemma EstimateFixedPoint(last: real, mean: real, k: nat)
    requires last == mean
    ensures Estimate(last, mean, k) == mean
  {
    EstimateDistance(last, mean, k);
  }

  function Min2(a: real, b: real): real {
    if a <= b then a else b
  }

  function Max2(a: real, b: real): real {
    if a <= b then b else a
  }

  /** The shape of the fallback's result: a missing column raises KeyError;
      fewer than three non-missing values give an error dict; otherwise the
      result carries exactly max(periods, 0) forecasts, the method name and
      the requested periods, each forecast between the last value and the
      mean of the last five. */
  lemma SimpleForecastShape(f: Frame, valueCol: string, periods: int)
    ensures Lookup(f.columns, valueCol).None? ==> SimpleForecastSpec(f, valueCol, periods) == Raised(KeyErrorText(valueCol))
    ensures Lookup(f.columns, valueCol).Some? && |NonMissing(Lookup(f.columns, valueCol).value.cells)| < MIN_VALUES ==>
      SimpleForecastSpec(f, valueCol, periods) == Returned(ErrorResult(INSUFFICIENT_DATA, None))
    ensures Lookup(f.columns, valueCol).Some? ==>
      var values := NonMissing(Lookup(f.columns, valueCol).value.cells);
      |values| >= MIN_VALUES && AllNumbers(LastWindow(values)) ==>
        var xs := Numbers(LastWindow(values));
        var r := SimpleForecastSpec(f, valueCol, periods);
        && r.Returned? && r.value.SmoothedForecast?
        && |r.value.values| == Max(periods, 0)
        && r.value.methodName == METHOD_NAME && r.value.periods == periods
        && forall j :: 0 <= j < |r.value.values| ==>
             Min2(xs[|xs| - 1], Mean(xs)) <= r.value.values[j] <= Max2(xs[|xs| - 1], Mean(xs))
  {
    match Lookup(f.columns, valueCol)
    case None =>
    case Some(col) =>
      var values := NonMissing(col.cells);
      if |values| >= MIN_VALUES && AllNumbers(LastWindow(values)) && periods > 0 {
        var xs := Numbers(LastWindow(values));
        assert SimpleForecastSpec(f, valueCol, periods)
          == Returned(SmoothedForecast(Estimates(xs[|xs| - 1], Mean(xs), periods), METHOD_NAME, periods));
        EstimatesBetween(xs[|xs| - 1], Mean(xs), periods);
      }
  }

  /** Every entry of the forecast list lies between the last value and m. */
  lemma EstimatesBetween(last: real, mean: real, n: nat)
    ensures forall j :: 0 <= j < |Estimates(last, mean, n)| ==>
      Min2(last, mean) <= Estimates(last, mean, n)[j] <= Max2(last, mean)
  {
    var es := Estimates(last, mean, n);
    forall j | 0 <= j < |es|
      ensures Min2(last, mean) <= es[j] <= Max2(last, mean)
    {
      EstimateBetween(last, mean, j + 1);
    }
  }
}
