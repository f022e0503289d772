/**
 * Interpretation of a World Bank indicator response (scripts/data_economicos.py):
 * the observations are element 1 of the decoded payload, kept only when the
 * request returned status 200 and that element is present and non-empty.
 * Every failure yields no data instead of an exception.
 */
module EconomicData {
  import opened Wrappers
  import opened Json

  const StatusOk: int := 200

  /** The outcome of the HTTP GET. */
  datatype Response =
    | RequestFailed                             // `requests.get` raised (connection refused, timeout, ...)
    | Received(status: int, body: Option<Json>) // `body` is None when `response.json()` raises

  /**
   * `data[1]`, guarded by `len(data) > 1`; None when the guard is false or either
   * expression raises: `len` of null, a boolean or a number raises TypeError, and
   * `data[1]` on an object raises KeyError since JSON object keys are strings.
   * Indexing a string yields a one-character string.
   */
  function SecondElement(payload: Json): (e: Option<Json>)
    ensures payload.JArr? ==> (e.Some? <==> |payload.items| > 1)
    ensures payload.JArr? && e.Some? ==> e.value == payload.items[1]
    ensures payload.JStr? ==> (e.Some? <==> |payload.s| > 1)
    ensures payload.JStr? && e.Some? ==> e.value == JStr([payload.s[1]]) && Truthy(e.value)
    ensures !payload.JArr? && !payload.JStr? ==> e.None?
  {
    match payload
    case JArr(items) => if |items| > 1 then Some(items[1]) else None
    case JStr(s) => if |s| > 1 then Some(JStr([s[1]])) else None
    case JObj(_) => None
    case JNull => None
    case JBool(_) => None
    case JNum(_) => None
  }

  /** `fetch_economic_data` over the response it receives: the observations, or None. */
  function FetchEconomicData(response: Response): (data: Option<Json>)
    ensures response.RequestFailed? ==> data.None?
    ensures response.Received? && response.status != StatusOk ==> data.None?
    ensures response.Received? && response.body.None? ==> data.None?
    ensures data.Some? <==> response.Received? && response.status == StatusOk && response.body.Some?
                            && SecondElement(response.body.value).Some?
                            && Truthy(SecondElement(response.body.value).value)
    ensures data.Some? ==> Truthy(data.value)
    ensures data.Some? ==> response.Received? && response.status == StatusOk && response.body.Some?
                           && SecondElement(response.body.value) == data
  {
    match response
    case RequestFailed => None
    case Received(status, body) =>
      if status != StatusOk then None
      else if body.None? then None
      else
        var observations := SecondElement(body.value);
        if observations.Some? && Truthy(observations.value) then observations else None
  }

  /** The usual World Bank shape, `[metadata, observations]`, with observations: they are returned exactly. */
  lemma FetchReturnsObservations(metadata: Json, observations: seq<Json>, rest: seq<Json>)
    requires observations != []
    ensures FetchEconomicData(Received(StatusOk, Some(JArr([metadata, JArr(observations)] + rest)))) == Some(JArr(observations))
  {
    var payload := [metadata, JArr(observations)] + rest;
    assert payload[1] == JArr(observations);
  }

  /**
   * The decision in full, for a list payload: data is returned exactly when the status
   * is 200, the list has more than one element and element 1 is non-empty, and the
   * data is then element 1.
   */
  lemma FetchListPayload(status: int, items: seq<Json>)
    ensures var data := FetchEconomicData(Received(status, Some(JArr(items))));
      data.Some? <==> status == StatusOk && |items| > 1 && Truthy(items[1])
    ensures var data := FetchEconomicData(Received(status, Some(JArr(items))));
      data.Some? ==> data.value == items[1]
  {
  }

  /** Payloads that are neither lists nor strings give no data, whatever the status. */
  lemma FetchUnusablePayload(payload: Json)
    requires !payload.JArr? && !payload.JStr?
    ensures forall status :: FetchEconomicData(Received(status, Some(payload))).None?
  {
  }

  /** `save_economic_data`: the document written, present only for non-empty data. */
  function SaveEconomicData(data: Option<Json>): (written: Option<Json>)
    ensures written.Some? <==> data.Some? && Truthy(data.value)
    ensures written.Some? ==> written == data
  {
    if data.Some? && Truthy(data.value) then data else None
  }

  /** The script's main path: fetch, then save when something was found. */
  function RunEconomicIngest(response: Response): (written: Option<Json>)
    ensures written.Some? <==> FetchEconomicData(response).Some?
    ensures written.Some? ==> written == FetchEconomicData(response)
  {
    var economicData := FetchEconomicData(response);
    if economicData.Some? && Truthy(economicData.value) then SaveEconomicData(economicData) else None
  }
}
