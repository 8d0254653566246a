/** Values shared by every provider: the station record a handler reports, the
    tags naming the providers, the outcome a handler hands to its callback, and
    the inputs that the model takes in place of the network and the decoders. */
module Stations {

  datatype Option<+T> = None | Some(value: T)

  /** The provider that produced a station (`StreamSource` in the library). */
  datatype StreamSource = ShoutcastV1 | ShoutcastV2 | Icecast | Stream

  /** A JavaScript primitive as the source copies it from a decoded document into
      a station, without coercion: a CSV field is a string, a JSON member may be a
      number, and a missing array element or member is `undefined`. */
  datatype JsValue = Undefined | Null | Bool(b: bool) | Num(n: int) | Str(s: string)

  datatype Station = Station(listeners: JsValue, bitrate: JsValue, title: string, fetchsource: StreamSource)

  /** An `Error` object; only its message is observable. */
  datatype Error = Error(message: string)

  const HttpErrorMessage := "HTTP error."
  const NotValidMetadataMessage := "Not valid metadata"
  const NothingToParseMessage := "Nothing to parse"
  const UnableToDetermineMessage := "Unable to determine current station information."

  /** What a handler passes to its callback: `callback(null, station)`,
      `callback(error)`, or `callback(null)` with no station at all. */
  datatype Outcome = Found(station: Station) | Failed(error: Error) | NoStation

  /** The result of an HTTP GET: the request promise rejects (network failure,
      timeout, a status the client refuses) or it resolves with a response. */
  datatype Reply = Rejected(error: Error) | Response(status: int, contentType: Option<string>, body: string)

  /** The result of a foreign decoder (xml2js, JSON.parse): an error or a value. */
  datatype Decoded<T> = DecodeFailure(error: Error) | Decoded(value: T)

  /** The parts of `url.parse(url)`; each may be null. The fetchers read the
      protocol, hostname and port; the path and query are kept so that the
      model can say they are dropped. */
  datatype UrlParts = UrlParts(protocol: Option<string>, hostname: Option<string>, port: Option<string>,
                               pathname: Option<string>, search: Option<string>)

  /** JavaScript string concatenation of a possibly-null string: null becomes "null". */
  function JsString(s: Option<string>): (r: string)
    ensures s.Some? ==> r == s.value
    ensures s.None? ==> r == "null"
  {
    match s
    case Some(v) => v
    case None => "null"
  }

  /** `protocol + '//' + hostname + ':' + port`, the prefix that both the SHOUTcast
      v2 and the Icecast status URLs share. */
  function Origin(parts: UrlParts): (r: string)
    // It starts with the protocol and `//` ...
    ensures var p := JsString(parts.protocol) + "//"; |p| <= |r| && r[..|p|] == p
    // ... and ends with `:` and the port, written "null" when there is none.
    ensures var q := ":" + JsString(parts.port); |q| <= |r| && r[|r| - |q|..] == q
    ensures parts.port.None? ==> |r| >= 5 && r[|r| - 5..] == ":null"
  {
    JsString(parts.protocol) + "//" + JsString(parts.hostname) + ":" + JsString(parts.port)
  }
}
