/** `MetricsClient`: the reporting client. It holds the base URL and the
    Basic credential, both fixed at construction, and shapes the three
    requests it sends. The HTTP exchange itself is not modelled: a request
    is the record of what is sent, and what comes back is an input. */
module Client {
  import opened Wrappers
  import opened Primitives
  import opened Json
  import opened Payloads
  import opened Responses
  import Auth
  import Paths

  datatype Verb = Put | Post

  /** `baseResource` blocks the caller until the response arrives;
      `asyncWebResource` hands the request off and returns. */
  datatype Channel = Blocking | Async

  /** What one call sends: method, channel, base URL, path, the
      Authorization header, the Content-Type header and the JSON body. */
  datatype Request = Request(
    verb: Verb,
    channel: Channel,
    baseUrl: string,
    path: string,
    authorization: string,
    contentType: string,
    body: Value)

  const ApplicationJson: string := "application/json"

  /** The Jersey `Client` handed to the constructor; only its presence matters here. */
  datatype HttpClient = HttpClient

  /** The `NullPointerException`s of `checkNotNull`. */
  datatype ConfigError = NullClient | NullBaseUrl

  /** A `ClientHandlerException` out of `put`/`post`, which is not caught. */
  datatype IoError = TransportError

  /** The `NullPointerException` `ImmutableList.of` throws for the row of
      `metrics[index]`, whose reading is missing; it is not caught. */
  datatype MeasurementError = NullReading(index: nat)

  /** How a blocking exchange ended: the transport failed, or a response came
      back whose entity is JSON (Some) or not (None). */
  datatype Exchange = TransportFailure | Received(body: Option<Value>)

  class MetricsClient {
    const baseUrl: string
    const auth: string

    constructor (baseUrl: string, user: string, token: string)
      ensures this.baseUrl == baseUrl
      ensures auth == Auth.AuthHeader(user, token)
    {
      this.baseUrl := baseUrl;
      this.auth := Auth.AuthHeader(user, token);
    }

    /** `new MetricsClient(client, baseUrl, user, token)`: both references
        are checked for null, the client first; the credential is computed
        here, once. */
    static method Create(client: Option<HttpClient>, baseUrl: Option<string>, user: string, token: string)
      returns (r: Result<MetricsClient, ConfigError>)
      ensures client.None? ==> r == Failure(NullClient)
      ensures client.Some? && baseUrl.None? ==> r == Failure(NullBaseUrl)
      ensures client.Some? && baseUrl.Some? ==>
        r.Success? && r.value.baseUrl == baseUrl.value && r.value.auth == Auth.AuthHeader(user, token)
    {
      if client.None? {
        return Failure(NullClient);
      }
      if baseUrl.None? {
        return Failure(NullBaseUrl);
      }
      var c := new MetricsClient(baseUrl.value, user, token);
      r := Success(c);
    }

    /** `createMetric`: PUT the update record to `v1/metrics/{name}`, then
        answer whether the body confirmed success; a decoding failure or a
        missing field answers false, a transport failure escapes. */
    method CreateMetric(metric: Metric, pollFrequency: int32, exchange: Exchange)
      returns (request: Request, r: Result<bool, IoError>)
      ensures request == Request(Put, Blocking, baseUrl, "v1/metrics/" + metric.name, auth, ApplicationJson,
                                 UpdateMetric(metric, pollFrequency).ToJson())
      ensures exchange.TransportFailure? ==> r == Failure(TransportError)
      ensures exchange.Received? ==>
        r.Success? && (r.value <==> exchange.body.Some? && ConfirmsSuccess(exchange.body.value))
    {
      request := Request(Put, Blocking, baseUrl, Paths.MetricPath(metric.name), auth, ApplicationJson,
                         UpdateMetric(metric, pollFrequency).ToJson());
      if exchange.TransportFailure? {
        return request, Failure(TransportError);
      }
      var result := false;
      var decoded := ReadBoundaryResponse(exchange.body);
      if decoded.Bound? && decoded.value.result.Some? {
        result := decoded.value.result.value.success;
      }
      SucceededIff(exchange.body);
      r := Success(result);
    }

    /** `bevent`: POST the event document to `v1/events`; the response is
        closed unread, a transport failure escapes. */
    method Bevent(source: string, title: string, message: string, exchange: Exchange)
      returns (request: Request, outcome: Outcome<IoError>)
      ensures request == Request(Post, Blocking, baseUrl, Paths.EventsPath(), auth, ApplicationJson,
                                 EventDocument(Event(source, title, message)))
      ensures outcome == if exchange.TransportFailure? then Fail(TransportError) else Pass
    {
      var eMap: map<string, Value> := map[];
      var sMap: map<string, Value> := map[];
      var fpList: seq<Value> := [];
      sMap := sMap["type" := JString("host")];
      sMap := sMap["ref" := JString(source)];
      eMap := eMap["source" := JObject(sMap)];
      eMap := eMap["title" := JString(title)];
      eMap := eMap["message" := JString(message)];
      fpList := fpList + [JString("@title")];
      fpList := fpList + [JString("@message")];
      eMap := eMap["fingerprintFields" := JArray(fpList)];
      ghost var doc := EventDocument(Event(source, title, message)).fields;
      assert fpList == [JString("@title"), JString("@message")];
      assert JObject(sMap) == doc["source"];
      assert eMap.Keys == doc.Keys;
      assert eMap == doc;
      request := Request(Post, Blocking, baseUrl, Paths.EventsPath(), auth, ApplicationJson, JObject(eMap));
      outcome := if exchange.TransportFailure? then Fail(TransportError) else Pass;
    }

    /** `addMeasurements`: fix the one timestamp before the loop (the
        explicit one, else `now`), then build one row per monitored metric,
        in order, each `[source, metric name, reading, timestamp]`, and hand
        the batch to the asynchronous channel for `v1/measurements`. When a
        metric has no reading, `ImmutableList.of` throws on the null and
        nothing is posted. */
    method AddMeasurements(metrics: seq<MonitoredMetric>, measurements: map<int32, Number>,
                           optionalTimestamp: Option<int64>, now: int64)
      returns (r: Result<Request, MeasurementError>)
      ensures r.Success? <==> HasAllReadings(metrics, measurements)
      ensures r.Success? ==>
        r.value == Request(Post, Async, baseUrl, "v1/measurements", auth, ApplicationJson,
                           BatchDocument(Batch(metrics, measurements, BatchTimestamp(optionalTimestamp, now))))
      ensures r.Failure? ==>
        && r.error.index < |metrics|
        && metrics[r.error.index].ipmiid !in measurements
        && forall k :: 0 <= k < r.error.index ==> metrics[k].ipmiid in measurements
    {
      var payload: seq<Value> := [];
      var timestamp := optionalTimestamp.GetOr(now);
      for i := 0 to |metrics|
        invariant |payload| == i
        invariant forall k :: 0 <= k < i ==> metrics[k].ipmiid in measurements
        invariant forall k :: 0 <= k < i ==>
          payload[k] == SampleRow(Sample(metrics[k].source, metrics[k].metric.name,
                                         measurements[metrics[k].ipmiid], timestamp))
      {
        var m := metrics[i];
        if m.ipmiid !in measurements {
          return Failure(NullReading(i));
        }
        var value := measurements[m.ipmiid];
        payload := payload + [JArray([JString(m.source), JString(m.metric.name), JNum(value), JNum(Integral(timestamp as int))])];
      }
      assert payload == Rows(Batch(metrics, measurements, timestamp));
      r := Success(Request(Post, Async, baseUrl, Paths.MeasurementsPath(), auth, ApplicationJson, JArray(payload)));
    }
  }
}
