/** The `POST /forecast` handler: load the frame, try Prophet, fall back to
    the smoothing forecast when the primary result has an "error" key, and map
    every exception to HTTP 500 with its text. */
module ForecastRoute {
  import opened Frames
  import FileService
  import opened ForecastService

  const INTERNAL_ERROR: nat := 500

  /** The request body; pydantic fills `periods` with 12 when it is absent. */
  datatype ForecastRequest = ForecastRequest(dateColumn: string, valueColumn: string, periods: int)

  /** A 200 response carrying a result dict, or an `HTTPException`. */
  datatype Response = Ok(body: ForecastResult) | HttpError(status: nat, detail: string)

  /** `forecast(file_id, filename, config)`. `read` is what pandas' reader made
      of the stored file (a parsed frame is well-formed, distinct names included); `prophetAvailable` and `run` stand for the Prophet
      import and for what Prophet did on the loaded frame. */
  method Forecast(fileId: string, filename: string, config: ForecastRequest,
                  read: Outcome<Frame>, prophetAvailable: bool, run: ProphetRun)
    returns (resp: Response)
    requires read.Returned? ==> WellFormed(read.value)
    ensures FileService.LoadDataframe(fileId, filename).Raised? ==>
      resp == HttpError(INTERNAL_ERROR, FileService.LoadDataframe(fileId, filename).message)
    ensures FileService.LoadDataframe(fileId, filename).Returned? && read.Raised? ==>
      resp == HttpError(INTERNAL_ERROR, read.message)
    ensures FileService.LoadDataframe(fileId, filename).Returned? && read.Returned? ==>
      var primary := ForecastTimeSeries(prophetAvailable, run, config.periods);
      var fallback := SimpleForecastSpec(read.value, config.valueColumn, config.periods);
      && (primary.Raised? ==> resp == HttpError(INTERNAL_ERROR, primary.message))
      && (primary.Returned? && !HasErrorKey(primary.value) ==> resp == Ok(primary.value))
      && (primary.Returned? && HasErrorKey(primary.value) ==>
            resp == if fallback.Raised? then HttpError(INTERNAL_ERROR, fallback.message) else Ok(fallback.value))
    // The fallback is not re-checked: an error dict in a 200 response comes
    // from the fallback, after the primary result also had an "error" key.
    ensures resp.Ok? && HasErrorKey(resp.body) ==>
      && read.Returned?
      && ForecastTimeSeries(prophetAvailable, run, config.periods).Returned?
      && HasErrorKey(ForecastTimeSeries(prophetAvailable, run, config.periods).value)
      && SimpleForecastSpec(read.value, config.valueColumn, config.periods) == Returned(resp.body)
    ensures resp.HttpError? ==> resp.status == INTERNAL_ERROR
  {
    var plan := FileService.LoadDataframe(fileId, filename);
    if plan.Raised? {
      return HttpError(INTERNAL_ERROR, plan.message);
    }
    if read.Raised? {
      return HttpError(INTERNAL_ERROR, read.message);
    }
    var df := read.value;
    var primary := ForecastTimeSeries(prophetAvailable, run, config.periods);
    if primary.Raised? {
      return HttpError(INTERNAL_ERROR, primary.message);
    }
    var result := primary.value;
    if HasErrorKey(result) {
      var fallback := SimpleForecast(df, config.valueColumn, config.periods);
      if fallback.Raised? {
        return HttpError(INTERNAL_ERROR, fallback.message);
      }
      result := fallback.value;
    }
    resp := Ok(result);
  }
}
