# MetricsClient model

This project models the request shaping of `MetricsClient`, the HTTPS reporting client of the Boundary IPMI integration. The client publishes metric definitions, measurement batches and annotation events to the Boundary metrics API. The model covers four things:

- the Basic credential computed once at construction;
- the metric-update record that `createMetric` PUTs to `v1/metrics/{name}`, and how it reads the reply;
- the event document that `bevent` POSTs to `v1/events`;
- the measurement batch that `addMeasurements` posts asynchronously to `v1/measurements`.

The HTTP exchange is not modelled, so a request is represented as a record of what would be sent: verb, channel, base URL, path, Authorization header, Content-Type and JSON body. Anything that comes back is an input. The JSON reply is an `Exchange`, and the wall clock is a `now` parameter.

Modules, one per concern of the file:

- `Wrappers`: `Option`, `Result`, `Outcome`.
- `Primitives`: Java `byte`, `int` and `long` as bounded newtypes.
- `Json`: JSON values. Objects are maps, because the Java `HashMap`s and bean properties they come from are unordered.
- `Utf8`: the bytes `String.getBytes()` gives, with a decoder and its round trip.
- `Base64`: section 4 of RFC 4648, with a decoder and its round trip.
- `Auth`: the `Authorization` value, and how a server reads it back.
- `Paths`: Guava `Joiner.on('/')`, with the splitting that undoes it.
- `Payloads`: the three request bodies. Each has a parser, and lemmas show the document carries exactly its inputs.
- `Responses`: Jackson's binding of `BoundaryResponse` and the success test of `createMetric`.
- `Client`: the class `MetricsClient` and its operations. Its constant fields `baseUrl` and `auth` are fixed by the constructor. Every request carries the same `auth`.

On these points the model follows what the code does:

- The constructor only checks for null (`checkNotNull`). An empty base URL is accepted.
- An exception thrown by the PUT in `createMetric`, or by the POST in `bevent`, is not caught. Only decoding of the reply sits inside the `try`. So `CreateMetric` and `Bevent` return a transport failure as an error, and any received response counts as a normal return.
- `addMeasurements` builds each row with Guava's `ImmutableList.of`, which throws `NullPointerException` on a null element. So when a monitored metric's IPMI id has no reading, `measurements.get` gives null, the call throws inside the loop, and nothing is posted. `AddMeasurements` models this as a failure that names the first such metric.
- This file has one client shape: integer IPMI ids, string unit and aggregate, a verifying `createMetric`, and `bevent`. The second client variant, keyed by source and metric-name maps, is not part of this model.

## Model

| member | source | states |
|---|---|---|
| Client.MetricsClient.constructor | src/main/java/com/boundary/metrics/ipmi/client/metrics/MetricsClient.java:70-77 | stores the base URL and `auth == "Basic " + base64(utf8(user + ":" + token))` once, in immutable fields |
| Client.MetricsClient.Create | src/main/java/com/boundary/metrics/ipmi/client/metrics/MetricsClient.java:70-77 | a null client fails first and a null base URL fails second; otherwise a client with that URL and credential is returned |
| Client.MetricsClient.CreateMetric | src/main/java/com/boundary/metrics/ipmi/client/metrics/MetricsClient.java:86-99 | PUT on the blocking channel to `"v1/metrics/" + name`, carrying the client's `auth` and the update record; on a received reply the answer is true iff the body is `{"result":{"success":true}}`, and false for non-JSON, null or malformed bodies; a transport failure escapes as an error |
| Client.MetricsClient.Bevent | src/main/java/com/boundary/metrics/ipmi/client/metrics/MetricsClient.java:101-118 | the maps built step by step equal the event document; POST on the blocking channel to `v1/events` with the client's `auth`; the reply is ignored, and only a transport failure is reported |
| Client.MetricsClient.AddMeasurements | src/main/java/com/boundary/metrics/ipmi/client/metrics/MetricsClient.java:120-129 | succeeds iff every monitored metric's IPMI id has a reading; on success, the loop's payload equals the rows of `Batch(metrics, measurements, timestamp)`, where the timestamp is the explicit one or else `now`, and the batch is posted on the async channel to `v1/measurements` with the client's `auth`; on failure, the error names the first metric without a reading (the null `ImmutableList.of` refuses), and nothing is posted |
| Payloads.Batch | src/main/java/com/boundary/metrics/ipmi/client/metrics/MetricsClient.java:121-125 | for metrics that all have readings: one sample per monitored metric, in input order; sample i is `(metrics[i].source, metrics[i].metric.name, measurements[metrics[i].ipmiid], timestamp)`; every sample shares the one timestamp |
| Payloads.BatchTimestamp | src/main/java/com/boundary/metrics/ipmi/client/metrics/MetricsClient.java:122 | the explicit timestamp when supplied, otherwise the single clock reading `now` |
| Payloads.Rows | src/main/java/com/boundary/metrics/ipmi/client/metrics/MetricsClient.java:123-124 | one JSON row per sample, in order; row i is the four-element array of sample i |
| Payloads.ParseBatchDocument | src/main/java/com/boundary/metrics/ipmi/client/metrics/MetricsClient.java:121-125 | reading the measurement body back as four-element rows gives the batch unchanged |
| Payloads.SampleRow | src/main/java/com/boundary/metrics/ipmi/client/metrics/MetricsClient.java:124 | the row is `[source, name, value, millis]`, and it reads back as its sample |
| Payloads.UpdateMetric.ToJson | src/main/java/com/boundary/metrics/ipmi/client/metrics/MetricsClient.java:37-59 | the record has exactly the eight properties `name`, `description`, `displayName`, `displayNameShort`, `unit`, `defaultAggregate` (= `metric.aggregate`), `defaultResolutionMS` (= poll frequency) and `isDisabled` (= false) |
| Payloads.ParseUpdateMetricToJson | src/main/java/com/boundary/metrics/ipmi/client/metrics/MetricsClient.java:37-59 | the update document gives back the metric's six copied fields and the frequency |
| Payloads.ParseUpdateMetricExact | src/main/java/com/boundary/metrics/ipmi/client/metrics/MetricsClient.java:37-59 | any document that reads as a given update record is exactly that record's document: nothing extra, and `isDisabled` is false |
| Payloads.EventDocument | src/main/java/com/boundary/metrics/ipmi/client/metrics/MetricsClient.java:101-112 | the document has exactly the keys `source`, `title`, `message` and `fingerprintFields`; `source` is `{type: "host", ref: source}`; the fingerprint list is `["@title", "@message"]` in that order |
| Payloads.ParseEventDocument | src/main/java/com/boundary/metrics/ipmi/client/metrics/MetricsClient.java:101-112 | the event document gives back source, title and message |
| Payloads.ParseEventExact | src/main/java/com/boundary/metrics/ipmi/client/metrics/MetricsClient.java:101-112 | any document that reads as an event is exactly that event's document |
| Responses.SucceededIff | src/main/java/com/boundary/metrics/ipmi/client/metrics/MetricsClient.java:79-96 | `br.result.success`, with null, decode and binding failures all giving false, is true exactly for `{"result":{"success":true}}` |
| Responses.ReadBoundaryResponse | src/main/java/com/boundary/metrics/ipmi/client/metrics/MetricsClient.java:93 | a body that is not JSON fails to bind; the result is a null reference exactly for the JSON `null` document; a bound object came from a JSON object with no property other than `result` |
| Responses.Succeeded | src/main/java/com/boundary/metrics/ipmi/client/metrics/MetricsClient.java:94-96 | `br.result.success` with the catch-all: true exactly for the bound value whose `result` is present with `success == true` |
| Paths.MetricPath | src/main/java/com/boundary/metrics/ipmi/client/metrics/MetricsClient.java:67 | joining `"v1"`, `"metrics"` and the name with `'/'` gives `"v1/metrics/" + name` |
| Paths.MetricPathSegments | src/main/java/com/boundary/metrics/ipmi/client/metrics/MetricsClient.java:88 | for a name without `'/'`, splitting the metric path gives back exactly the three segments |
| Paths.SplitJoin | src/main/java/com/boundary/metrics/ipmi/client/metrics/MetricsClient.java:67 | splitting a join of separator-free parts at the separator gives back the parts |
| Paths.MeasurementsPath | src/main/java/com/boundary/metrics/ipmi/client/metrics/MetricsClient.java:126 | joining `"v1"` and `"measurements"` gives `"v1/measurements"` |
| Paths.EventsPath | src/main/java/com/boundary/metrics/ipmi/client/metrics/MetricsClient.java:113 | the literal event path `v1/events`, whose segments are exactly `v1` and `events` |
| Paths.Join | src/main/java/com/boundary/metrics/ipmi/client/metrics/MetricsClient.java:67 | Guava's `Joiner.on('/').join`; specified by `Paths.SplitJoin`, `Paths.MetricPath` and `Paths.MeasurementsPath` |
| Auth.AuthHeader | src/main/java/com/boundary/metrics/ipmi/client/metrics/MetricsClient.java:75 | the header starts with `"Basic "` and is all US-ASCII |
| Auth.AuthHeaderCarriesCredentials | src/main/java/com/boundary/metrics/ipmi/client/metrics/MetricsClient.java:75 | stripping `"Basic "`, Base64-decoding and UTF-8-decoding the header gives exactly `user + ":" + token` |
| Auth.CredentialBytes | src/main/java/com/boundary/metrics/ipmi/client/metrics/MetricsClient.java:75 | the encoded credential is the user's bytes, one `:` byte (58), then the token's bytes |
| Auth.Rfc7617Example | src/main/java/com/boundary/metrics/ipmi/client/metrics/MetricsClient.java:75 | `AuthHeader("test", "123£") == "Basic dGVzdDoxMjPCow=="`, the example of section 2.1 of RFC 7617 in the UTF-8 charset |
| Auth.Rfc7617Bytes | src/main/java/com/boundary/metrics/ipmi/client/metrics/MetricsClient.java:75 | the bytes of `"test:123£"` are the ASCII codes followed by `0xC2 0xA3` for `£` |
| Base64.Encode | src/main/java/com/boundary/metrics/ipmi/client/metrics/MetricsClient.java:75 | output length is 4·⌈n/3⌉ |
| Base64.EncodeAlphabet | src/main/java/com/boundary/metrics/ipmi/client/metrics/MetricsClient.java:75 | every character of an encoding is in the RFC 4648 alphabet or is `=`, so the US-ASCII decoding leaves it unchanged |
| Base64.EncodeAppendGroups | src/main/java/com/boundary/metrics/ipmi/client/metrics/MetricsClient.java:75 | full three-octet groups encode independently of what follows them |
| Base64.Rfc4648Vectors | src/main/java/com/boundary/metrics/ipmi/client/metrics/MetricsClient.java:75 | the encoder gives the test vectors of section 10 of RFC 4648, `""` through `"foobar"` → `"Zm9vYmFy"`, which pins the alphabet table |
| Base64.DecodeEncode | src/main/java/com/boundary/metrics/ipmi/client/metrics/MetricsClient.java:75 | decoding the encoding gives back the octets |
| Utf8.Encode | src/main/java/com/boundary/metrics/ipmi/client/metrics/MetricsClient.java:75 | the bytes of `user + ":" + token`: at least one byte per character; specified character by character by `Utf8.EncodeScalar`, and by `Utf8.EncodeAppend` and `Utf8.DecodeEncode` |
| Utf8.EncodeScalar | src/main/java/com/boundary/metrics/ipmi/client/metrics/MetricsClient.java:75 | 1 to 4 bytes per character; characters below 0x80 give one byte equal to themselves; the lead byte announces the length; the rest are continuation bytes |
| Utf8.DecodeEncodeScalar | src/main/java/com/boundary/metrics/ipmi/client/metrics/MetricsClient.java:75 | the bytes of a character decode to its scalar value |
| Utf8.EncodeAppend | src/main/java/com/boundary/metrics/ipmi/client/metrics/MetricsClient.java:75 | the bytes of a concatenation are the concatenation of the bytes |
| Utf8.EncodeAscii | src/main/java/com/boundary/metrics/ipmi/client/metrics/MetricsClient.java:75 | an ASCII string encodes to its own character codes, one byte each |
| Utf8.DecodeEncode | src/main/java/com/boundary/metrics/ipmi/client/metrics/MetricsClient.java:75 | decoding a string's bytes gives back the string |

## Left out

- HTTP dispatch through Jersey (`put`, `post`, `close`, the two `WebResource`s): the model returns the request record that would be sent, and takes what came back as an input.
- The asynchronous completion listener of `addMeasurements` (the status-200 check, the `WebApplicationException`, the caught `ExecutionException`): it runs later on a transport thread, and its only effects are logging and a swallowed exception. The model ends when the request goes to the `Async` channel.
- Jackson's conversion between JSON text and JSON values: the reply is given as `Option<Value>`, where None means not JSON at all. For serialisation, the property names and values are modelled, but not their text or order.
- Responses.ReadBoundaryResponse: models Jackson's default binding (unknown property fails; an absent or null `success` is false), but not its coercion of strings or numbers to `boolean`, which is treated as a binding failure.
- Utf8.Encode: `String.getBytes()` uses the platform charset. UTF-8 is assumed. Java strings may hold unpaired surrogates, which a Dafny `char` cannot, and those are not modelled.
- Utf8.Decode: overlong forms are accepted. It only inverts `Encode`, and does not validate all of RFC 3629.
- Base64.Decode: it does not reject non-zero padding bits. It only inverts `Encode`.
- Percent-escaping of the metric name by Jersey's `path()`: it is not visible in this file, so the path holds the raw name.
- The wall clock (`new DateTime()`): it is read on every call, but only used when no timestamp is given. It is the `now` parameter.
- Null strings (a null name, source, user or token) and null values stored in the measurement map: the model's strings and numbers are never null. The only null the model has is the one `measurements.get` returns for an absent key, which makes `addMeasurements` throw.
- Floating-point readings are modelled as exact reals (`Number.Floating`), without NaN or infinities.
- SLF4J logging.
- `MonitoredMetric` is not part of this model beyond the fields the client reads: `source`, `ipmiid`, and `metric` with its name, description, display names, unit and aggregate.
