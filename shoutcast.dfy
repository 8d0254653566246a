/** The SHOUTcast fetchers and parsers of `src/lib/shoutcast.ts`. The HTTP
    client, `url.parse`, the XML decoder and `fixTrackTitle` are parameters. */
module Shoutcast {
  import opened Stations
  import opened JsStrings
  import BodyRegex

  // ---------------------------------------------------------------------------
  // SHOUTcast v1: GET <url>/7.html, then a CSV line inside <body>...</body>
  // ---------------------------------------------------------------------------

  /** The v1 metadata URL: the stream URL followed by `/7.html`. */
  function V1MetadataUrl(url: string): (r: string)
    ensures |r| == |url| + 7 && r[..|url|] == url && r[|url|..] == "/7.html"
  {
    url + "/7.html"
  }

  /** The title the v1 parser computes from the comma-separated fields. */
  function V1Title(fields: seq<string>, fixTrackTitle: string -> string): (r: string)
    // Exactly seven fields: the last is the title as it stands.
    ensures |fields| == 7 ==> r == fields[6]
    // Fewer: there is no title text, and `fixTrackTitle` sees "".
    ensures |fields| < 7 ==> r == fixTrackTitle("")
    // More: the title is everything from field 6 on, with its commas put back.
    ensures |fields| > 7 ==> r == fixTrackTitle(fields[6] + [','] + Join(fields[7..], ','))
  {
    assert |fields| > 7 ==> Slice(fields, 6)[1..] == fields[7..];
    if |fields| == 7 then fields[6] else fixTrackTitle(Join(Slice(fields, 6), ','))
  }

  /** The element of `fields` at index `i`, or `undefined` past the end. */
  function FieldAt(fields: seq<string>, i: nat): JsValue
  {
    if i < |fields| then Str(fields[i]) else Undefined
  }

  /** `parseV1Response(body, callback)`. */
  function ParseV1Response(body: string, fixTrackTitle: string -> string): (r: Outcome)
    // Without a <body>...</body> pair on one line, and only then, nothing is parsed.
    ensures r == Failed(Error(NothingToParseMessage))
            <==> forall o: nat, c: nat :: !BodyRegex.BodyMatch(body, o, c)
    ensures r.Failed? ==> r.error.message in {NothingToParseMessage, UnableToDetermineMessage}
    ensures !r.NoStation?
    ensures r.Found? ==> r.station.fetchsource == ShoutcastV1 && r.station.title != ""
    ensures BodyRegex.Exec(body).Some? ==>
      var text := BodyRegex.Captured(body, BodyRegex.Exec(body).value);
      var fields := Split(text, ',');
      // The station, when there is one, reports field 0 and field 5.
      && (r.Found? ==> r.station.listeners == Str(fields[0]) && r.station.bitrate == FieldAt(fields, 5))
      // Seven fields: field 6 is the title, verbatim.
      && (|fields| == 7 ==> (r.Found? <==> fields[6] != "") && (r.Found? ==> r.station.title == fields[6]))
      // Otherwise: the text after the sixth comma (empty if there is none) is normalised.
      && (|fields| != 7 ==>
            var raw := After(text, ',', 6);
            (r.Found? <==> fixTrackTitle(raw) != "") && (r.Found? ==> r.station.title == fixTrackTitle(raw)))
      && (r.Failed? ==> r.error == Error(UnableToDetermineMessage))
  {
    match BodyRegex.Exec(body)
    case None => Failed(Error(NothingToParseMessage))
    case Some(m) =>
      var fields := Split(BodyRegex.Captured(body, m), ',');
      var title := V1Title(fields, fixTrackTitle);
      SliceJoinIsSuffix(BodyRegex.Captured(body, m), ',', 6);
      if title != "" then Found(Station(Str(fields[0]), FieldAt(fields, 5), title, ShoutcastV1))
      else Failed(Error(UnableToDetermineMessage))
  }

  /** `getShoutcastV1Station(url, callback)`, given the reply to its GET. */
  function ShoutcastV1Station(url: string, get: string -> Reply, fixTrackTitle: string -> string): (r: Outcome)
    ensures var reply := get(V1MetadataUrl(url));
      // A rejected request reports the client's own error.
      && (reply.Rejected? ==> r == Failed(reply.error))
      // The status is checked first, whatever the content type.
      && (reply.Response? && reply.status != 200 ==> r == Failed(Error(HttpErrorMessage)))
      // Then the content type must be exactly `text/html`.
      && (reply.Response? && reply.status == 200 && reply.contentType != Some("text/html") ==>
            r == Failed(Error(NotValidMetadataMessage)))
      // Only a 200 `text/html` reply reaches the parser, whose outcome is passed on.
      && (reply.Response? && reply.status == 200 && reply.contentType == Some("text/html") ==>
            r == ParseV1Response(reply.body, fixTrackTitle))
      && (r.Found? ==> reply.Response? && reply.status == 200 && reply.contentType == Some("text/html"))
  {
    match get(V1MetadataUrl(url))
    case Rejected(e) => Failed(e)
    case Response(status, contentType, body) =>
      if status != 200 then Failed(Error(HttpErrorMessage))
      else if contentType != Some("text/html") then Failed(Error(NotValidMetadataMessage))
      else ParseV1Response(body, fixTrackTitle)
  }

  // ---------------------------------------------------------------------------
  // SHOUTcast v2: GET protocol//hostname:port/statistics, then XML
  // ---------------------------------------------------------------------------

  /** The v2 statistics URL, built from the parsed stream URL. */
  function V2StatsUrl(parts: UrlParts): (r: string)
    // `protocol//hostname:port/statistics`, each null part written "null" ...
    ensures r == JsString(parts.protocol) + "//" + JsString(parts.hostname) + ":"
                 + JsString(parts.port) + "/statistics"
    ensures parts.port.None? ==>
      r == JsString(parts.protocol) + "//" + JsString(parts.hostname) + ":null/statistics"
    // ... so the document is named by the server alone, whatever the stream's path.
    ensures |r| >= 11 && r[|r| - 11..] == "/statistics"
  {
    Origin(parts) + "/statistics"
  }

  /** One `STREAM` element of `SHOUTCASTSERVER.STREAMSTATS[0]` as xml2js
      decodes it: each child is an array whose element 0 the parser reads.
      `songTitle` is None when the element has no `SONGTITLE` child. */
  datatype StreamStats = StreamStats(serverUrl: string, currentListeners: string, bitrate: string, songTitle: Option<string>)

  /** The index of the last stream whose `SERVERURL` equals `url`. */
  function LastMatchIndex(streams: seq<StreamStats>, url: string): (r: Option<nat>)
    ensures r.Some? ==> r.value < |streams| && streams[r.value].serverUrl == url
    ensures r.Some? ==> forall j :: r.value < j < |streams| ==> streams[j].serverUrl != url
    ensures r.None? ==> forall j :: 0 <= j < |streams| ==> streams[j].serverUrl != url
  {
    if streams == [] then None
    else if streams[|streams| - 1].serverUrl == url then Some(|streams| - 1)
    else LastMatchIndex(streams[..|streams| - 1], url)
  }

  /** The mount the v2 parser reports on. */
  function SelectedStream(streams: seq<StreamStats>, url: string): (r: Option<StreamStats>)
    // A lone stream is taken whatever its SERVERURL.
    ensures |streams| == 1 ==> r == Some(streams[0])
    // Otherwise a stream is selected exactly when one has SERVERURL == url ...
    ensures |streams| != 1 ==>
      (r.Some? <==> exists i :: 0 <= i < |streams| && streams[i].serverUrl == url)
    // ... and it is the last such stream.
    ensures |streams| != 1 && r.Some? ==>
      && r.value.serverUrl == url
      && exists i :: 0 <= i < |streams| && streams[i] == r.value &&
           forall j :: i < j < |streams| ==> streams[j].serverUrl != url
  {
    if |streams| == 1 then Some(streams[0])
    else
      match LastMatchIndex(streams, url)
      case None => None
      case Some(i) => Some(streams[i])
  }

  /** The station a selected stream yields, if it has a `SONGTITLE`. */
  function V2Station(stats: StreamStats, fixTrackTitle: string -> string): Option<Station>
  {
    match stats.songTitle
    case None => None
    case Some(title) =>
      Some(Station(Str(stats.currentListeners), Str(stats.bitrate), fixTrackTitle(title), ShoutcastV2))
  }

  /** What `parseV2Response` reports for a decoded (or undecodable) body. */
  function V2Result(url: string, decoded: Decoded<seq<StreamStats>>, fixTrackTitle: string -> string): (r: Outcome)
    // A decoding error is passed on; it is the only error.
    ensures decoded.DecodeFailure? ==> r == Failed(decoded.error)
    ensures decoded.Decoded? ==> !r.Failed?
    ensures r.Found? ==> r.station.fetchsource == ShoutcastV2
    // A station comes from the selected stream and carries its fields; no
    // selection, or a selection without SONGTITLE, is a null error and no station.
    ensures decoded.Decoded? ==>
      var sel := SelectedStream(decoded.value, url);
      && (r.Found? <==> sel.Some? && sel.value.songTitle.Some?)
      && (r.Found? ==> r.station == Station(Str(sel.value.currentListeners), Str(sel.value.bitrate),
                                            fixTrackTitle(sel.value.songTitle.value), ShoutcastV2))
  {
    match decoded
    case DecodeFailure(e) => Failed(e)
    case Decoded(streams) =>
      match SelectedStream(streams, url)
      case None => NoStation
      case Some(stats) =>
        match V2Station(stats, fixTrackTitle)
        case None => NoStation
        case Some(station) => Found(station)
  }

  /** `parseV2Response(url, body, callback)` after xml2js has run: the loop
      over the streams overwrites the selection at every match, so the last
      matching stream wins. */
  method ParseV2Response(url: string, decoded: Decoded<seq<StreamStats>>, fixTrackTitle: string -> string)
    returns (r: Outcome)
    ensures r == V2Result(url, decoded, fixTrackTitle)
  {
    if decoded.DecodeFailure? {
      return Failed(decoded.error);
    }
    var streams := decoded.value;
    var stationStats: Option<StreamStats> := None;
    if |streams| == 1 {
      stationStats := Some(streams[0]);
    } else {
      var i := 0;
      while i < |streams|
        invariant i <= |streams|
        invariant stationStats == match LastMatchIndex(streams[..i], url)
                                  case None => None
                                  case Some(k) => Some(streams[k])
      {
        assert streams[..i + 1][..i] == streams[..i];
        if streams[i].serverUrl == url {
          stationStats := Some(streams[i]);
        }
        i := i + 1;
      }
      assert streams[..i] == streams;
    }
    if stationStats.Some? && stationStats.value.songTitle.Some? {
      var stats := stationStats.value;
      r := Found(Station(Str(stats.currentListeners), Str(stats.bitrate),
                         fixTrackTitle(stats.songTitle.value), ShoutcastV2));
    } else {
      r := NoStation;
    }
  }

  /** `getShoutcastV2Station(url, callback)`, given the reply to its GET. */
  function ShoutcastV2Station(url: string, parseUrl: string -> UrlParts, get: string -> Reply,
                              decodeXml: string -> Decoded<seq<StreamStats>>,
                              fixTrackTitle: string -> string): (r: Outcome)
    ensures var reply := get(V2StatsUrl(parseUrl(url)));
      && (reply.Rejected? ==> r == Failed(reply.error))
      && (reply.Response? && reply.status != 200 ==> r == Failed(Error(HttpErrorMessage)))
      // No content-type check: any 200 reply is decoded and parsed against the ORIGINAL url.
      && (reply.Response? && reply.status == 200 ==>
            r == V2Result(url, decodeXml(reply.body), fixTrackTitle))
      && (r.Found? ==> reply.Response? && reply.status == 200)
  {
    match get(V2StatsUrl(parseUrl(url)))
    case Rejected(e) => Failed(e)
    case Response(status, _, body) =>
      if status != 200 then Failed(Error(HttpErrorMessage))
      else V2Result(url, decodeXml(body), fixTrackTitle)
  }

  // ---------------------------------------------------------------------------
  // Properties relating several calls
  // ---------------------------------------------------------------------------

  /** The v1 metadata URL keeps the whole stream URL, path and query included,
      and adds `/7.html`; distinct stream URLs query distinct documents. */
  lemma V1MetadataUrlInjective(url1: string, url2: string)
    ensures V1MetadataUrl(url1)[..|url1|] == url1
    ensures V1MetadataUrl(url1)[|url1|..] == "/7.html"
    ensures V1MetadataUrl(url1) == V1MetadataUrl(url2) ==> url1 == url2
  {
    if V1MetadataUrl(url1) == V1MetadataUrl(url2) {
      assert |url1| == |url2|;
      assert url1 == V1MetadataUrl(url1)[..|url1|];
      assert url2 == V1MetadataUrl(url2)[..|url2|];
    }
  }

  /** The v2 statistics URL drops the path and query of the stream URL: two
      stream URLs on the same server query the same document. */
  lemma V2StatsUrlIgnoresPath(parts: UrlParts, pathname: Option<string>, search: Option<string>)
    ensures V2StatsUrl(parts.(pathname := pathname, search := search)) == V2StatsUrl(parts)
  {
  }

  /** A `content-type` carrying a charset is refused by the v1 fetcher. */
  lemma V1RefusesCharsetContentType(url: string, get: string -> Reply, fixTrackTitle: string -> string)
    requires get(V1MetadataUrl(url)).Response?
    requires get(V1MetadataUrl(url)).status == 200
    requires get(V1MetadataUrl(url)).contentType == Some("text/html; charset=utf-8")
    ensures ShoutcastV1Station(url, get, fixTrackTitle) == Failed(Error(NotValidMetadataMessage))
  {
  }

  /** With several streams that disagree, the one naming the stream URL is
      reported, never simply the first. */
  lemma V2PrefersMatchingMount(url: string, streams: seq<StreamStats>, i: nat, fixTrackTitle: string -> string)
    requires |streams| > 1 && i < |streams| && streams[i].serverUrl == url
    requires streams[0].serverUrl != url
    requires forall j :: 0 <= j < |streams| && streams[j].serverUrl == url ==> streams[j].songTitle.Some?
    ensures V2Result(url, Decoded(streams), fixTrackTitle).Found?
    ensures SelectedStream(streams, url) != Some(streams[0])
  {
  }

  /** Text free of line terminators stays so when joined with commas. */
  lemma {:induction false} JoinStaysOnOneLine(fields: seq<string>)
    requires forall i, k :: 0 <= i < |fields| && 0 <= k < |fields[i]| ==> !BodyRegex.IsLineTerminator(fields[i][k])
    ensures forall k :: 0 <= k < |Join(fields, ',')| ==> !BodyRegex.IsLineTerminator(Join(fields, ',')[k])
  {
    if |fields| > 1 {
      JoinStaysOnOneLine(fields[1..]);
      var tail := Join(fields[1..], ',');
      var head := fields[0] + [','];
      assert Join(fields, ',') == head + tail;
      forall k | 0 <= k < |head + tail|
        ensures !BodyRegex.IsLineTerminator((head + tail)[k])
      {
        if k >= |head| {
          assert (head + tail)[k] == tail[k - |head|];
        }
      }
    }
  }

  /** A v1 page written the way the server writes one (seven comma-free
      fields on one line inside `<body>`, a non-empty title) parses back to
      those fields: field 0 as listeners, field 5 as bitrate, field 6 as the
      title, untouched by `fixTrackTitle`. */
  lemma V1SevenFieldRoundTrip(fields: seq<string>, fixTrackTitle: string -> string)
    requires |fields| == 7 && fields[6] != ""
    requires forall i :: 0 <= i < 7 ==> ',' !in fields[i]
    requires forall i, k :: 0 <= i < 7 && 0 <= k < |fields[i]| ==> !BodyRegex.IsLineTerminator(fields[i][k])
    ensures ParseV1Response(BodyRegex.Open + Join(fields, ',') + BodyRegex.Close, fixTrackTitle)
            == Found(Station(Str(fields[0]), Str(fields[5]), fields[6], ShoutcastV1))
  {
    var text := Join(fields, ',');
    var body := BodyRegex.Open + text + BodyRegex.Close;
    var close := |BodyRegex.Open| + |text|;
    JoinStaysOnOneLine(fields);
    assert body[..6] == BodyRegex.Open;
    assert body[close..] == BodyRegex.Close;
    assert body[6..close] == text;
    assert BodyRegex.LiteralAt(body, 0, BodyRegex.Open);
    assert BodyRegex.LiteralAt(body, close, BodyRegex.Close);
    assert BodyRegex.SameLine(body, 6, close);
    assert BodyRegex.BodyMatch(body, 0, close);
    assert BodyRegex.Exec(body) == Some(BodyRegex.Span(0, close));
    SplitJoin(fields, ',');
  }

  /** The page `<body>12,0,0,0,0,128,My Song</body>`, written as the
      server builds it. */
  lemma V1SevenFieldExample(fixTrackTitle: string -> string)
    ensures ParseV1Response(BodyRegex.Open + Join(["12", "0", "0", "0", "0", "128", "My Song"], ',') + BodyRegex.Close,
                            fixTrackTitle)
            == Found(Station(Str("12"), Str("128"), "My Song", ShoutcastV1))
  {
    V1SevenFieldRoundTrip(["12", "0", "0", "0", "0", "128", "My Song"], fixTrackTitle);
  }
}
