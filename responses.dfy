/** How `createMetric` reads the service's answer: Jackson binds the body to
    `BoundaryResponse { Success result; }` with `Success { boolean success; }`,
    and the call succeeds only when `result.success` is true. */
module Responses {
  import opened Wrappers
  import opened Json

  /** `BoundaryResponse.Success`. */
  datatype SuccessField = SuccessField(success: bool)

  /** `BoundaryResponse`; a JSON null or absent `result` leaves it null. */
  datatype BoundaryResponse = BoundaryResponse(result: Option<SuccessField>)

  /** What `ObjectMapper.readValue` gives: an exception, a null reference, or an object. */
  datatype Bound<+T> = BindError | BoundNull | Bound(value: T)

  /** Binding of the `result` property, with Jackson's defaults: unknown
      properties fail, an absent or null primitive `success` is false. */
  function BindSuccess(j: Value): Bound<SuccessField> {
    match j
    case JNull => BoundNull
    case JObject(f) =>
      if !(f.Keys <= {"success"}) then BindError
      else if "success" !in f then Bound(SuccessField(false))
      else (match f["success"]
        case JBool(b) => Bound(SuccessField(b))
        case JNull => Bound(SuccessField(false))
        case _ => BindError)
    case _ => BindError
  }

  /** `mapper.readValue(body, BoundaryResponse.class)`; `body` is None when
      the entity is not JSON text at all. */
  function ReadBoundaryResponse(body: Option<Value>): (d: Bound<BoundaryResponse>)
    ensures body.None? ==> d.BindError?
    ensures d.BoundNull? <==> body == Some(JNull)
    ensures d.Bound? ==> body.Some? && body.value.JObject? && body.value.fields.Keys <= {"result"}
  {
    match body
    case None => BindError
    case Some(JNull) => BoundNull
    case Some(JObject(f)) =>
      if !(f.Keys <= {"result"}) then BindError
      else if "result" !in f then Bound(BoundaryResponse(None))
      else (match BindSuccess(f["result"])
        case BindError => BindError
        case BoundNull => Bound(BoundaryResponse(None))
        case Bound(s) => Bound(BoundaryResponse(Some(s))))
    case Some(_) => BindError
  }

  /** `br.result.success`, where a null `br` or `result` throws and the
      caller's catch-all leaves the answer false. */
  function Succeeded(d: Bound<BoundaryResponse>): (ok: bool)
    ensures ok <==> d == Bound(BoundaryResponse(Some(SuccessField(true))))
  {
    d.Bound? && d.value.result.Some? && d.value.result.value.success
  }

  /** The one document shape that reports success: `{"result": {"success": true}}`. */
  predicate ConfirmsSuccess(j: Value) {
    && j.JObject? && j.fields.Keys == {"result"}
    && j.fields["result"].JObject? && j.fields["result"].fields.Keys == {"success"}
    && j.fields["result"].fields["success"] == JBool(true)
  }

  /** The interpretation answers true exactly for the success document;
      every other body, malformed or not JSON, answers false. */
  lemma SucceededIff(body: Option<Value>)
    ensures Succeeded(ReadBoundaryResponse(body)) <==> body.Some? && ConfirmsSuccess(body.value)
  {
  }
}
