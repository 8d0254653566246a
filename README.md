# node-internet-radio: station resolution, modelled in Dafny

`node-internet-radio` finds the track now playing on an internet radio stream,
with its listener count and bitrate, given only the stream URL. It knows four
server dialects: SHOUTcast v1, SHOUTcast v2, Icecast, and metadata sent inside
an ICY stream. `getStationInfo(url, callback, method)` runs the one handler a
method tag names. Without a recognised tag it probes the handlers in a fixed
order (v2, v1, Icecast, ICY) and reports the first station found.

This project models that resolver, the two SHOUTcast handlers and the Icecast
handler:

- `stations.dfy` (module `Stations`) holds the shared values. `Station` is the
  record a handler reports. `Outcome` is what the callback receives:
  `Found(station)`, `Failed(error)`, or `NoStation` for `callback(null)` with no
  station. `Reply` is the result of an HTTP GET, and `Decoded` is the result
  of a foreign decoder.
- `js_strings.dfy` (module `JsStrings`) models JavaScript `split`, `slice` and
  `join` on the comma, with their round trips.
- `body_regex.dfy` (module `BodyRegex`) models `/<body>(.*)<\/body>/im.exec`
  exactly. The match starts at the leftmost `<body>` that has a `</body>`
  later on the same line, tag letters match in either case, and the greedy
  `(.*)` runs to the last `</body>` before a line terminator.
- `shoutcast.dfy` (module `Shoutcast`) models `getShoutcastV1Station`,
  `parseV1Response`, `getShoutcastV2Station` and `parseV2Response`.
  The v2 stream loop is a `while` method, proved equal to its specification
  function.
- `icecast.dfy` (module `Icecast`) models `getIcecastStation` and
  `parseIcecastResponse`. The mount loop with its early return is a `while`
  method, proved equal to its specification function.
- `resolver.dfy` (module `Resolver`) models `getStationInfo` and `findStation`.
  The fallback is a loop over the priority list. A ghost trace records which
  handlers were invoked, so its contract can state order, short-circuit and
  "no later probe runs".

The model replaces each collaborator with a function parameter: the HTTP client
(`get`), `url.parse`, xml2js, `JSON.parse`, `fixTrackTitle` and
`getStreamStation`. `fixTrackTitle` is left uninterpreted. `Resolver.Env`
bundles these parameters.

Where the documented design and the code disagree, the model follows the code:

- The v1 capture runs to the last `</body>` on the line, not the first.
- The v2 parser needs only a `SONGTITLE` element to be present. xml2js gives an
  array, which is truthy even when the title text is empty.
- A `source` that is a single object, not an array, gives the Icecast "Unable to
  determine" error.
- The Icecast parser does not check that the title is non-empty.
- Content types are compared exactly, so `text/html; charset=utf-8` is refused.
- `url.parse` may give a null protocol, hostname or port. Concatenation then
  writes it as `"null"`, and the model keeps that.

## Model

| member | source | states |
|---|---|---|
| `Stations.JsString` | src/lib/shoutcast.ts:39-45 | a string part is written as it is, and a null part as `"null"` |
| `Stations.Origin` | src/lib/shoutcast.ts:39-44 | `protocol//hostname:port` starts with the protocol and `//` and ends with `:` and the port, which is `:null` when `url.parse` gives no port |
| `JsStrings.Split` | src/lib/shoutcast.ts:71 | `split(',')` yields one field more than there are commas, and no field contains a comma |
| `JsStrings.Join` | src/lib/shoutcast.ts:77 | `join(',')` starts with the first field, and a comma follows it when there is a second. `JoinSplit` and `SplitJoin` make it the inverse of `split` |
| `JsStrings.JoinSplit` | src/lib/shoutcast.ts:71-77 | joining the split fields with commas gives back the original text |
| `JsStrings.SplitJoin` | src/lib/shoutcast.ts:71-77 | splitting a comma-join of comma-free fields gives back those fields |
| `JsStrings.SplitAt` | src/lib/shoutcast.ts:71 | splitting at a comma equals splitting the text on each side of it and concatenating the results |
| `JsStrings.NthIndex` | src/lib/shoutcast.ts:77 | the n-th comma is a comma with exactly n-1 commas before it |
| `JsStrings.SliceJoinIsSuffix` | src/lib/shoutcast.ts:77 | `split(',').slice(k).join(',')` is the text after the k-th comma, or "" when there are fewer than k commas |
| `BodyRegex.LastClose` | src/lib/shoutcast.ts:65 | finds the last `</body>` that `.*` can reach without crossing a line terminator, or reports that none is reachable |
| `BodyRegex.FirstMatch` | src/lib/shoutcast.ts:65 | finds the leftmost match start at or after a position, with the greedy end for that start, or reports that none exists |
| `BodyRegex.Exec` | src/lib/shoutcast.ts:65 | the regex matches exactly when some `<body>`/`</body>` pair lies on one line; the match chosen is the leftmost, then the longest |
| `Shoutcast.V1Title` | src/lib/shoutcast.ts:72-78 | seven fields: field 6 as it stands. Fewer: `fixTrackTitle("")`. More: `fixTrackTitle` of field 6 onwards with its commas put back |
| `Shoutcast.ParseV1Response` | src/lib/shoutcast.ts:64-94 | "Nothing to parse" exactly when the regex has no match. Seven fields: field 6 is the title verbatim, with no `fixTrackTitle`. Any other count: the title is `fixTrackTitle` of the text after the sixth comma. listeners = field 0, bitrate = field 5 (`undefined` if absent), fetchsource SHOUTCAST_V1. An empty title gives "Unable to determine…". The outcome is never a null error. |
| `Shoutcast.V1SevenFieldRoundTrip` | src/lib/shoutcast.ts:64-94 | a page of seven comma-free one-line fields inside `<body>` parses back to those fields |
| `Shoutcast.V1SevenFieldExample` | src/lib/shoutcast.ts:74-88 | `<body>12,0,0,0,0,128,My Song</body>` gives listeners "12", bitrate "128", title "My Song" |
| `Shoutcast.JoinStaysOnOneLine` | src/lib/shoutcast.ts:65 | joining fields that have no line terminators gives text with no line terminators |
| `Shoutcast.ShoutcastV1Station` | src/lib/shoutcast.ts:8-35 | requests `url + '/7.html'`. A rejected request passes on its error. The status is checked first ("HTTP error."), then an exact `text/html` content type ("Not valid metadata"). Only a reply that passes both reaches the parser, whose outcome is passed on. |
| `Shoutcast.V1MetadataUrl` | src/lib/shoutcast.ts:9 | the v1 URL is the whole stream URL, path and query included, followed by `/7.html` |
| `Shoutcast.V1MetadataUrlInjective` | src/lib/shoutcast.ts:9 | the v1 URL is the whole stream URL followed by `/7.html`, so different stream URLs give different v1 URLs |
| `Shoutcast.V1RefusesCharsetContentType` | src/lib/shoutcast.ts:27-29 | a 200 reply typed `text/html; charset=utf-8` is refused as "Not valid metadata" |
| `Shoutcast.V2StatsUrl` | src/lib/shoutcast.ts:38-45 | the statistics URL is `protocol//hostname:port/statistics`, with each null part written `"null"` (a null port gives `:null/statistics`) |
| `Shoutcast.V2StatsUrlIgnoresPath` | src/lib/shoutcast.ts:38-45 | changing the path or query of the stream URL leaves the statistics URL unchanged |
| `Shoutcast.LastMatchIndex` | src/lib/shoutcast.ts:109-115 | the index of the last stream whose SERVERURL equals the url, or none when no stream has it |
| `Shoutcast.SelectedStream` | src/lib/shoutcast.ts:101-116 | a lone stream is taken whatever its SERVERURL. Otherwise a stream is selected exactly when one matches the url, and it is the last match. |
| `Shoutcast.V2Result` | src/lib/shoutcast.ts:96-129 | an XML error is passed on, and it is the only error. A station appears exactly when a stream is selected and it has a SONGTITLE. It carries that stream's CURRENTLISTENERS, BITRATE and `fixTrackTitle(SONGTITLE)`, with fetchsource SHOUTCAST_V2. Otherwise the result is a null error and no station. |
| `Shoutcast.ParseV2Response` | src/lib/shoutcast.ts:96-129 | the loop that overwrites the selection at each match computes exactly `V2Result` |
| `Shoutcast.V2PrefersMatchingMount` | src/lib/shoutcast.ts:107-124 | with several streams, when the first does not name the url and one that does has a title, a station is found and the first stream is not the one selected |
| `Shoutcast.ShoutcastV2Station` | src/lib/shoutcast.ts:37-62 | requests the statistics URL. A rejected request passes on its error. A status other than 200 gives "HTTP error.". There is no content-type check. A 200 body is decoded and parsed against the original url. |
| `Icecast.IcecastUrl` | src/lib/icecast.ts:8-15 | the status URL is `protocol//hostname:port/status-json.xsl`, with each null part written `"null"` (a null port gives `:null/status-json.xsl`) |
| `Icecast.IcecastUrlIgnoresPath` | src/lib/icecast.ts:8-15 | changing the path or query of the stream URL leaves the status URL unchanged |
| `Icecast.FirstMatchIndex` | src/lib/icecast.ts:58-60 | the index of the first mount whose `listenurl` is strictly equal to the url, or none when no mount has it |
| `Icecast.IcecastResult` | src/lib/icecast.ts:40-74 | a JSON error is passed on. A missing, empty or single-object `source` gives "Unable to determine…". A station appears exactly when some mount's `listenurl` is the url, and it is built from the first such mount: listeners and bitrate unchanged, title `fixTrackTitle(title)` even if empty, fetchsource ICECAST. Every other failure is "Unable to determine…", and the result is never a null error. |
| `Icecast.ParseIcecastResponse` | src/lib/icecast.ts:40-74 | the loop that returns at the first match computes exactly `IcecastResult` |
| `Icecast.LaterMountsIgnored` | src/lib/icecast.ts:58-69 | once the list has a matching mount, appending more mounts does not change the outcome |
| `Icecast.SingleMountExample` | src/lib/icecast.ts:61-68 | one matching mount with listeners 5 and bitrate 128 gives Station(5, 128, fixTrackTitle("A - B"), ICECAST) |
| `Icecast.IcecastStation` | src/lib/icecast.ts:7-38 | the status is checked first ("HTTP error."), then an exact `text/xml` content type ("Not valid metadata"), even though the body is JSON. Only a reply that passes both is parsed, and the parser's outcome is passed on. |
| `Resolver.MethodHandler` | src/index.ts:12-26 | a method tag selects a provider exactly when it equals that provider's tag string. An absent or unknown tag selects none. |
| `Resolver.ProbeStation` | src/index.ts:66-109 | each promise wrapper resolves with the handler's station when there is one. A handler's error and a null error both resolve with no station, so the error is dropped |
| `Resolver.FindStation` | src/index.ts:49-109 | probes run in the order v2, v1, Icecast, ICY. Every probe before the last found nothing. The result is the last probe's station, so nothing runs after a success. Finding nothing means all four probes ran. The result equals the reference `FirstStation`: the first station along the priority list. |
| `Resolver.GetStationInfo` | src/index.ts:9-43 | a recognised tag invokes only that handler and passes its outcome on untouched. Otherwise the fallback runs: the first station along the priority list is reported with a null error, and exhausting the list gives a null error and no station. In fallback mode no probe's error ever reaches the caller. |
| `Resolver.IcecastOnlyFallback` | src/index.ts:50-61 | when only Icecast answers, the probes are exactly v2, v1, Icecast, and the result is an ICECAST station |

## Left out

- HTTP: the request options are not modelled: the User-Agent header, the 1500 ms timeouts and the `responseType`. The model's `get` parameter gives each URL's reply. The v2 request uses axios's default response type, which would decode a JSON-looking body to an object; that is not modelled.
- `url.parse`, xml2js and `JSON.parse` are parameters. The model does not cover documents whose shape makes the source throw a `TypeError` from property access. Examples: no `SHOUTCASTSERVER.STREAMSTATS[0].STREAM`, a stream without `SERVERURL`, `CURRENTLISTENERS` or `BITRATE`, or a `source` array element that is null. Each stream field is taken as its array's element 0.
- Stations.UrlParts: of the object `url.parse` returns, only the protocol, hostname, port, path and query are kept. The other members (auth, hash, host) are read by no fetcher.
- Icecast.IceSource: the mount's `title` is a string. A missing or non-string title, passed to `fixTrackTitle`, is not modelled.
- Icecast.SourceField: a truthy `source` that is neither an array nor an object, such as a string or number, is not modelled. The source reports "Unable to determine…" for it, as for a single object.
- JSON numbers are integers here. Fractional values and object- or array-valued members of a mount are not modelled.
- `fixTrackTitle` (in `src/lib/utils`) is not part of this model. It is an uninterpreted parameter, and no trimming rule is assumed.
- `getStreamStation` (in `src/lib/icystream`) is not part of this model. It is the abstract fourth handler `streamStation`.
- `StreamSource` (in `src/lib/StreamSource`) is not part of this model. Its string values are taken to be the member names.
- Callbacks and promises are not modelled. Each handler calls its callback once, and the model returns that call as an `Outcome`. Not modelled: a callback that throws and is then called again from a `catch`, the `reject` branches of the promise wrappers, and a handler that never calls back.
- The trace of invoked probes in `FindStation` is ghost. The source records no such trace; it exists only to state the order.
