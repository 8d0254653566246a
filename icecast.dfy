/** The Icecast fetcher and parser of `src/lib/icecast.ts`. The HTTP client,
    `url.parse`, `JSON.parse` and `fixTrackTitle` are parameters. */
module Icecast {
  import opened Stations

  /** The Icecast status URL, built from the parsed stream URL. */
  function IcecastUrl(parts: UrlParts): (r: string)
    // `protocol//hostname:port/status-json.xsl`, each null part written "null" ...
    ensures r == JsString(parts.protocol) + "//" + JsString(parts.hostname) + ":"
                 + JsString(parts.port) + "/status-json.xsl"
    ensures parts.port.None? ==>
      r == JsString(parts.protocol) + "//" + JsString(parts.hostname) + ":null/status-json.xsl"
    // ... so the document is named by the server alone, whatever the stream's path.
    ensures |r| >= 16 && r[|r| - 16..] == "/status-json.xsl"
  {
    Origin(parts) + "/status-json.xsl"
  }

  /** One mount point of `icestats.source`, with the members the parser reads. */
  datatype IceSource = IceSource(listenurl: JsValue, listeners: JsValue, bitrate: JsValue, title: string)

  /** `stationObject?.icestats?.source` of the decoded document: missing or
      falsy, an array of mount points, or a single mount object (what some
      servers send for one mount, which has no numeric `length`). */
  datatype SourceField = Missing | Sources(entries: seq<IceSource>) | SingleSource(entry: IceSource)

  /** The index of the first mount whose `listenurl` is strictly equal to `url`. */
  function FirstMatchIndex(entries: seq<IceSource>, url: string): (r: Option<nat>)
    ensures r.Some? ==> r.value < |entries| && entries[r.value].listenurl == Str(url)
    ensures r.Some? ==> forall j :: 0 <= j < r.value ==> entries[j].listenurl != Str(url)
    ensures r.None? ==> forall j :: 0 <= j < |entries| ==> entries[j].listenurl != Str(url)
  {
    if entries == [] then None
    else if entries[0].listenurl == Str(url) then Some(0)
    else
      match FirstMatchIndex(entries[1..], url)
      case None => None
      case Some(i) => Some(i + 1)
  }

  /** The station the parser builds from a matching mount. */
  function IceStation(source: IceSource, fixTrackTitle: string -> string): Station
  {
    Station(source.listeners, source.bitrate, fixTrackTitle(source.title), Icecast)
  }

  /** What `parseIcecastResponse` reports for a decoded (or undecodable) body. */
  function IcecastResult(url: string, decoded: Decoded<SourceField>, fixTrackTitle: string -> string): (r: Outcome)
    // The JSON error is passed on as it is.
    ensures decoded.DecodeFailure? ==> r == Failed(decoded.error)
    // Every other failure is the one "Unable to determine" error; there is never a null error.
    ensures decoded.Decoded? && r.Failed? ==> r.error == Error(UnableToDetermineMessage)
    ensures !r.NoStation?
    // Missing, empty or single-object sources find nothing.
    ensures (decoded.Decoded? && (decoded.value.Missing? || decoded.value.SingleSource? || decoded.value == Sources([])))
            ==> r == Failed(Error(UnableToDetermineMessage))
    // A station exactly when some mount's listenurl is the url ...
    ensures r.Found? <==> decoded.Decoded? && decoded.value.Sources? &&
                          exists i :: 0 <= i < |decoded.value.entries| && decoded.value.entries[i].listenurl == Str(url)
    // ... and it is built from the first such mount, whatever its title.
    ensures r.Found? ==> exists i :: 0 <= i < |decoded.value.entries| &&
                          decoded.value.entries[i].listenurl == Str(url) &&
                          (forall j :: 0 <= j < i ==> decoded.value.entries[j].listenurl != Str(url)) &&
                          r.station == IceStation(decoded.value.entries[i], fixTrackTitle)
  {
    match decoded
    case DecodeFailure(e) => Failed(e)
    case Decoded(Sources(entries)) =>
      (match FirstMatchIndex(entries, url)
       case Some(i) => Found(IceStation(entries[i], fixTrackTitle))
       case None => Failed(Error(UnableToDetermineMessage)))
    case Decoded(_) => Failed(Error(UnableToDetermineMessage))
  }

  /** `parseIcecastResponse(url, body, callback)` after `JSON.parse` has run:
      the loop over the mounts returns at the first match. */
  method ParseIcecastResponse(url: string, decoded: Decoded<SourceField>, fixTrackTitle: string -> string)
    returns (r: Outcome)
    ensures r == IcecastResult(url, decoded, fixTrackTitle)
  {
    if decoded.DecodeFailure? {
      return Failed(decoded.error);
    }
    var source := decoded.value;
    if source.Missing? || (source.Sources? && |source.entries| == 0) {
      return Failed(Error(UnableToDetermineMessage));
    }
    if source.SingleSource? {
      // `length` is undefined, so the loop does not run.
      return Failed(Error(UnableToDetermineMessage));
    }
    var sources := source.entries;
    var i := 0;
    while i < |sources|
      invariant i <= |sources|
      invariant forall j :: 0 <= j < i ==> sources[j].listenurl != Str(url)
    {
      if sources[i].listenurl == Str(url) {
        return Found(IceStation(sources[i], fixTrackTitle));
      }
      i := i + 1;
    }
    return Failed(Error(UnableToDetermineMessage));
  }

  /** `getIcecastStation(url, callback)`, given the reply to its GET. */
  function IcecastStation(url: string, parseUrl: string -> UrlParts, get: string -> Reply,
                          decodeJson: string -> Decoded<SourceField>,
                          fixTrackTitle: string -> string): (r: Outcome)
    ensures var reply := get(IcecastUrl(parseUrl(url)));
      && (reply.Rejected? ==> r == Failed(reply.error))
      // The status is checked first, whatever the content type.
      && (reply.Response? && reply.status != 200 ==> r == Failed(Error(HttpErrorMessage)))
      // Then the content type must be exactly `text/xml`, although the body is JSON.
      && (reply.Response? && reply.status == 200 && reply.contentType != Some("text/xml") ==>
            r == Failed(Error(NotValidMetadataMessage)))
      && (reply.Response? && reply.status == 200 && reply.contentType == Some("text/xml") ==>
            r == IcecastResult(url, decodeJson(reply.body), fixTrackTitle))
      && (r.Found? ==> reply.Response? && reply.status == 200 && reply.contentType == Some("text/xml"))
  {
    match get(IcecastUrl(parseUrl(url)))
    case Rejected(e) => Failed(e)
    case Response(status, contentType, body) =>
      if status != 200 then Failed(Error(HttpErrorMessage))
      else if contentType != Some("text/xml") then Failed(Error(NotValidMetadataMessage))
      else IcecastResult(url, decodeJson(body), fixTrackTitle)
  }

  /** Mounts after the first match are never looked at: appending any mounts
      to a list that already matches leaves the outcome unchanged. */
  lemma {:induction false} LaterMountsIgnored(url: string, entries: seq<IceSource>, more: seq<IceSource>,
                                              fixTrackTitle: string -> string)
    requires exists i :: 0 <= i < |entries| && entries[i].listenurl == Str(url)
    ensures IcecastResult(url, Decoded(Sources(entries + more)), fixTrackTitle)
            == IcecastResult(url, Decoded(Sources(entries)), fixTrackTitle)
  {
    var k := FirstMatchIndex(entries, url).value;
    assert (entries + more)[k] == entries[k];
    assert forall j :: 0 <= j < k ==> (entries + more)[j] == entries[j];
    FirstMatchUnique(entries + more, url, k);
  }

  /** The first-match characterisation determines the index. */
  lemma FirstMatchUnique(entries: seq<IceSource>, url: string, k: nat)
    requires k < |entries| && entries[k].listenurl == Str(url)
    requires forall j :: 0 <= j < k ==> entries[j].listenurl != Str(url)
    ensures FirstMatchIndex(entries, url) == Some(k)
  {
  }

  /** The status URL drops the path and query of the stream URL: every mount
      of one server is looked up in the same document. */
  lemma IcecastUrlIgnoresPath(parts: UrlParts, pathname: Option<string>, search: Option<string>)
    ensures IcecastUrl(parts.(pathname := pathname, search := search)) == IcecastUrl(parts)
  {
  }

  /** One mount whose `listenurl` is the stream URL: its listeners and bitrate
      are reported as the JSON gave them, its title through `fixTrackTitle`. */
  lemma SingleMountExample(url: string, fixTrackTitle: string -> string)
    ensures IcecastResult(url, Decoded(Sources([IceSource(Str(url), Num(5), Num(128), "A - B")])), fixTrackTitle)
            == Found(Station(Num(5), Num(128), fixTrackTitle("A - B"), Icecast))
  {
  }
}
