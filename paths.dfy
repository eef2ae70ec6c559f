/** Request paths, built with Guava's `Joiner.on('/')`. */
module Paths {

  /** `Joiner.join`: the parts with one separator between neighbours. */
  function Join(sep: char, parts: seq<string>): string {
    if |parts| == 0 then ""
    else if |parts| == 1 then parts[0]
    else parts[0] + [sep] + Join(sep, parts[1..])
  }

  /** The inverse reading: the text cut at every separator. */
  function Split(sep: char, s: string): (r: seq<string>)
    ensures |r| >= 1
  {
    if |s| == 0 then [""]
    else
      var rest := Split(sep, s[1..]);
      if s[0] == sep then [""] + rest else [[s[0]] + rest[0]] + rest[1..]
  }

  lemma {:induction false} SplitSegment(sep: char, seg: string, tail: string)
    requires sep !in seg
    ensures Split(sep, seg) == [seg]
    ensures Split(sep, seg + [sep] + tail) == [seg] + Split(sep, tail)
  {
    if |seg| > 0 {
      SplitSegment(sep, seg[1..], tail);
      assert (seg + [sep] + tail)[1..] == seg[1..] + [sep] + tail;
      assert [seg[0]] + seg[1..] == seg;
    } else {
      assert seg + [sep] + tail == [sep] + tail;
      assert ([sep] + tail)[1..] == tail;
    }
  }

  /** Joining parts that contain no separator can be undone by splitting. */
  lemma {:induction false} SplitJoin(sep: char, parts: seq<string>)
    requires |parts| >= 1
    requires forall i :: 0 <= i < |parts| ==> sep !in parts[i]
    ensures Split(sep, Join(sep, parts)) == parts
  {
    if |parts| == 1 {
      SplitSegment(sep, parts[0], "");
    } else {
      SplitJoin(sep, parts[1..]);
      SplitSegment(sep, parts[0], Join(sep, parts[1..]));
      assert [parts[0]] + parts[1..] == parts;
    }
  }

  /** `PATH_JOINER.join("v1", "metrics", metric.name)`. */
  function MetricPath(name: string): (p: string)
    ensures p == "v1/metrics/" + name
  {
    var parts := ["v1", "metrics", name];
    assert parts[1..] == ["metrics", name] && parts[1..][1..] == [name];
    assert Join('/', parts[1..]) == "metrics" + "/" + name;
    assert "v1/metrics/" + name == "v1" + "/" + ("metrics" + "/" + name);
    Join('/', parts)
  }

  /** A metric name without '/' is recovered as the path's third segment. */
  lemma MetricPathSegments(name: string)
    requires '/' !in name
    ensures Split('/', MetricPath(name)) == ["v1", "metrics", name]
  {
    SplitJoin('/', ["v1", "metrics", name]);
  }

  /** `PATH_JOINER.join("v1", "measurements")`. */
  function MeasurementsPath(): (p: string)
    ensures p == "v1/measurements"
  {
    var parts := ["v1", "measurements"];
    assert parts[1..] == ["measurements"];
    Join('/', parts)
  }

  /** The literal event path: the two segments `v1` and `events`. */
  function EventsPath(): (p: string)
    ensures Split('/', p) == ["v1", "events"]
  {
    var parts := ["v1", "events"];
    assert Join('/', parts) == "v1/events" by {
      assert parts[1..] == ["events"];
    }
    SplitJoin('/', parts);
    "v1/events"
  }
}
