/** The request bodies the client sends, as JSON values: the metric-update
    record (PUT v1/metrics/{name}), the event document (POST v1/events) and
    the measurement batch (POST v1/measurements). Each has a reading back out
    of JSON, and the lemmas show the document carries exactly its inputs. */
module Payloads {
  import opened Wrappers
  import opened Primitives
  import opened Json

  /** `MonitoredMetric.Metric`: the descriptor the poller hands over. */
  datatype Metric = Metric(
    name: string,
    description: string,
    displayName: string,
    displayNameShort: string,
    unit: string,
    aggregate: string)

  /** `MonitoredMetric`: a metric read from one source under one IPMI id. */
  datatype MonitoredMetric = MonitoredMetric(source: string, ipmiid: int32, metric: Metric)

  // ---------------------------------------------------------------------
  // Metric update

  /** `UpdateMetric`: a metric and the poll frequency, exposed to Jackson
      through eight getters. */
  datatype UpdateMetric = UpdateMetric(metric: Metric, frequency: int32) {
    /** The getters' properties; nothing else of the object is serialised. */
    function ToJson(): (j: Value)
      ensures j.JObject? && j.fields.Keys == UpdateMetricKeys
      ensures j.fields["defaultResolutionMS"] == JNum(Integral(frequency as int))
      ensures j.fields["isDisabled"] == JBool(false)
      ensures j.fields["defaultAggregate"] == JString(metric.aggregate)
    {
      JObject(map[
        "name" := JString(metric.name),
        "description" := JString(metric.description),
        "displayName" := JString(metric.displayName),
        "displayNameShort" := JString(metric.displayNameShort),
        "unit" := JString(metric.unit),
        "defaultAggregate" := JString(metric.aggregate),
        "defaultResolutionMS" := JNum(Integral(frequency as int)),
        "isDisabled" := JBool(false)])
    }
  }

  const UpdateMetricKeys: set<string> :=
    {"name", "description", "displayName", "displayNameShort", "unit",
     "defaultAggregate", "defaultResolutionMS", "isDisabled"}

  /** A string-valued property of an object. */
  function StringField(fields: map<string, Value>, key: string): Option<string> {
    if key in fields && fields[key].JString? then Some(fields[key].s) else None
  }

  /** The metric and frequency an update document describes, or None when it
      has other properties, a property of the wrong kind, or a metric marked
      disabled. */
  function ParseUpdateMetric(j: Value): Option<UpdateMetric> {
    if !j.JObject? || j.fields.Keys != UpdateMetricKeys then None
    else
      var f := j.fields;
      match (StringField(f, "name"), StringField(f, "description"), StringField(f, "displayName"),
             StringField(f, "displayNameShort"), StringField(f, "unit"), StringField(f, "defaultAggregate"))
      case (Some(name), Some(description), Some(displayName), Some(displayNameShort), Some(unit), Some(aggregate)) =>
        if f["isDisabled"] == JBool(false) && f["defaultResolutionMS"].JNum? && f["defaultResolutionMS"].n.Integral?
          && -0x8000_0000 <= f["defaultResolutionMS"].n.i < 0x8000_0000
        then Some(UpdateMetric(Metric(name, description, displayName, displayNameShort, unit, aggregate),
                               f["defaultResolutionMS"].n.i as int32))
        else None
      case _ => None
  }

  /** The update document gives back the metric's six fields and the frequency. */
  lemma ParseUpdateMetricToJson(u: UpdateMetric)
    ensures ParseUpdateMetric(u.ToJson()) == Some(u)
  {
  }

  /** ... and it is the only document that does. */
  lemma ParseUpdateMetricExact(j: Value, u: UpdateMetric)
    requires ParseUpdateMetric(j) == Some(u)
    ensures j == u.ToJson()
  {
  }

  // ---------------------------------------------------------------------
  // Event

  /** An annotation event raised against a host. */
  datatype Event = Event(source: string, title: string, message: string)

  /** `{source: {type: "host", ref}, title, message, fingerprintFields}`; the
      fingerprint fields, which the service deduplicates events on, are
      `"@title"` then `"@message"`. */
  function EventDocument(e: Event): (j: Value)
    ensures j.JObject? && j.fields.Keys == {"source", "title", "message", "fingerprintFields"}
    ensures j.fields["source"] == JObject(map["type" := JString("host"), "ref" := JString(e.source)])
    ensures j.fields["fingerprintFields"] == JArray([JString("@title"), JString("@message")])
  {
    JObject(map[
      "source" := JObject(map["type" := JString("host"), "ref" := JString(e.source)]),
      "title" := JString(e.title),
      "message" := JString(e.message),
      "fingerprintFields" := JArray([JString("@title"), JString("@message")])])
  }

  /** The event a document describes, or None when it is not of the fixed shape. */
  function ParseEvent(j: Value): Option<Event> {
    if !j.JObject? || j.fields.Keys != {"source", "title", "message", "fingerprintFields"} then None
    else
      var f := j.fields;
      var src := f["source"];
      if src.JObject? && src.fields.Keys == {"type", "ref"} && src.fields["type"] == JString("host")
        && src.fields["ref"].JString? && f["title"].JString? && f["message"].JString?
        && f["fingerprintFields"] == JArray([JString("@title"), JString("@message")])
      then Some(Event(src.fields["ref"].s, f["title"].s, f["message"].s))
      else None
  }

  lemma ParseEventDocument(e: Event)
    ensures ParseEvent(EventDocument(e)) == Some(e)
  {
  }

  lemma ParseEventExact(j: Value, e: Event)
    requires ParseEvent(j) == Some(e)
    ensures j == EventDocument(e)
  {
    var f := j.fields;
    var g := EventDocument(e).fields;
    assert f["source"].fields == g["source"].fields;
    assert f.Keys == g.Keys;
    forall k | k in f.Keys ensures f[k] == g[k] {
    }
  }

  // ---------------------------------------------------------------------
  // Measurements

  /** One measurement on the wire: `[source, metricName, value, timestamp]`. */
  datatype Sample = Sample(source: string, metricName: string, value: Number, timestamp: int64)

  /** `optionalTimestamp.or(new DateTime()).getMillis()`, with the clock
      reading passed in as `now`. */
  function BatchTimestamp(explicit: Option<int64>, now: int64): (t: int64)
    ensures explicit.Some? ==> t == explicit.value
    ensures explicit.None? ==> t == now
  {
    explicit.GetOr(now)
  }

  /** Every monitored metric has a reading. Otherwise `measurements.get`
      returns null, and `ImmutableList.of` refuses the row. */
  predicate HasAllReadings(metrics: seq<MonitoredMetric>, measurements: map<int32, Number>) {
    forall i :: 0 <= i < |metrics| ==> metrics[i].ipmiid in measurements
  }

  /** The batch: one sample per monitored metric, in order, all stamped alike. */
  function Batch(metrics: seq<MonitoredMetric>, measurements: map<int32, Number>, timestamp: int64): (b: seq<Sample>)
    requires HasAllReadings(metrics, measurements)
    ensures |b| == |metrics|
    ensures forall i :: 0 <= i < |b| ==>
      b[i] == Sample(metrics[i].source, metrics[i].metric.name, measurements[metrics[i].ipmiid], timestamp)
    ensures forall i :: 0 <= i < |b| ==> b[i].timestamp == timestamp
  {
    if |metrics| == 0 then []
    else
      var m := metrics[0];
      [Sample(m.source, m.metric.name, measurements[m.ipmiid], timestamp)]
        + Batch(metrics[1..], measurements, timestamp)
  }

  /** A sample as a four-element JSON array, which reads back as the sample. */
  function SampleRow(s: Sample): (r: Value)
    ensures ParseSample(r) == Some(s)
  {
    JArray([JString(s.source), JString(s.metricName), JNum(s.value), JNum(Integral(s.timestamp as int))])
  }

  /** The rows of a batch, in order. */
  function Rows(b: seq<Sample>): (r: seq<Value>)
    ensures |r| == |b|
    ensures forall i :: 0 <= i < |r| ==> r[i] == SampleRow(b[i])
  {
    if |b| == 0 then [] else [SampleRow(b[0])] + Rows(b[1..])
  }

  /** The measurement body: an array of rows. */
  function BatchDocument(b: seq<Sample>): Value {
    JArray(Rows(b))
  }

  /** The sample a row describes, or None when it is not a four-element row
      of two strings, a number, and a 64-bit integer. */
  function ParseSample(j: Value): Option<Sample> {
    if j.JArray? && |j.items| == 4 && j.items[0].JString? && j.items[1].JString?
      && j.items[2].JNum? && j.items[3].JNum? && j.items[3].n.Integral?
      && -0x8000_0000_0000_0000 <= j.items[3].n.i < 0x8000_0000_0000_0000
    then Some(Sample(j.items[0].s, j.items[1].s, j.items[2].n, j.items[3].n.i as int64))
    else None
  }

  function ParseRows(rows: seq<Value>): Option<seq<Sample>> {
    if |rows| == 0 then Some([])
    else match (ParseSample(rows[0]), ParseRows(rows[1..]))
      case (Some(s), Some(rest)) => Some([s] + rest)
      case _ => None
  }

  function ParseBatch(j: Value): Option<seq<Sample>> {
    if j.JArray? then ParseRows(j.items) else None
  }

  lemma {:induction false} ParseRowsOfRows(b: seq<Sample>)
    ensures ParseRows(Rows(b)) == Some(b)
  {
    if |b| > 0 {
      var r := Rows(b);
      assert r == [SampleRow(b[0])] + Rows(b[1..]);
      assert r[0] == SampleRow(b[0]) && r[1..] == Rows(b[1..]);
      ParseRowsOfRows(b[1..]);
      assert [b[0]] + b[1..] == b;
    }
  }

  /** The measurement body gives back the batch, row for row. */
  lemma ParseBatchDocument(b: seq<Sample>)
    ensures ParseBatch(BatchDocument(b)) == Some(b)
  {
    ParseRowsOfRows(b);
  }
}
