/** The query parameters of each request the client sends to the service's one
    endpoint. Each key carries a single value, so a url.Values map is modelled as
    a map from key to that value; encoding it into the URL is not modelled. */
module Requests {

  type Params = map<string, string>

  /** The service selector passed to getNumber; the client does not validate it. */
  type Service = string

  /** The status codes setStatus understands for the two calls that use it. */
  const SET_STATUS_DONE := "6"
  const SET_STATUS_CANCEL := "8"

  function BalanceParams(apiKey: string): Params
  {
    map["api_key" := apiKey, "action" := "getBalance"]
  }

  /** The getNumber request. The optional price ceiling is variadic in the client:
      only its first value is used, and it is given here as the text the client
      renders with two decimals. */
  method NumberParams(apiKey: string, service: Service, maxPrice: seq<string>) returns (params: Params)
    ensures params.Keys == {"api_key", "action", "service"} + (if |maxPrice| > 0 then {"maxPrice"} else {})
    ensures params["api_key"] == apiKey && params["action"] == "getNumber" && params["service"] == service
    ensures |maxPrice| > 0 ==> params["maxPrice"] == maxPrice[0]
  {
    params := map["api_key" := apiKey, "action" := "getNumber", "service" := service];
    if |maxPrice| > 0 {
      params := params["maxPrice" := maxPrice[0]];
    }
  }

  /** The getStatus request the polling loop sends on every tick. */
  function StatusParams(apiKey: string, id: string): Params
  {
    map["api_key" := apiKey, "action" := "getStatus", "id" := id]
  }

  /** The setStatus request behind Done (status 6) and Cancel (status 8). */
  function SetStatusParams(apiKey: string, id: string, status: string): Params
  {
    map["api_key" := apiKey, "action" := "setStatus", "id" := id, "status" := status]
  }

  /** The requests built as plain data all carry the key, and their actions tell them apart. */
  lemma ActionsAreDistinct(apiKey: string, id: string, status: string)
    ensures BalanceParams(apiKey)["api_key"] == StatusParams(apiKey, id)["api_key"]
      == SetStatusParams(apiKey, id, status)["api_key"] == apiKey
    ensures BalanceParams(apiKey)["action"] != StatusParams(apiKey, id)["action"]
    ensures BalanceParams(apiKey)["action"] != SetStatusParams(apiKey, id, status)["action"]
    ensures StatusParams(apiKey, id)["action"] != SetStatusParams(apiKey, id, status)["action"]
  {
  }

  /** Done and Cancel on one rental send the same request except for the status code. */
  lemma DoneAndCancelDifferOnlyInStatus(apiKey: string, id: string)
    ensures SetStatusParams(apiKey, id, SET_STATUS_DONE).Keys == SetStatusParams(apiKey, id, SET_STATUS_CANCEL).Keys
    ensures forall k :: k in SetStatusParams(apiKey, id, SET_STATUS_DONE) && k != "status" ==>
      SetStatusParams(apiKey, id, SET_STATUS_DONE)[k] == SetStatusParams(apiKey, id, SET_STATUS_CANCEL)[k]
    ensures SetStatusParams(apiKey, id, SET_STATUS_DONE)["status"] != SetStatusParams(apiKey, id, SET_STATUS_CANCEL)["status"]
  {
  }
}
