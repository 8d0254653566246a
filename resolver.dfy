/** `getStationInfo` of `src/index.ts`: a recognised method tag runs one
    handler and hands its outcome to the caller; anything else probes the four
    providers in a fixed order and reports the first station found. */
module Resolver {
  import opened Stations
  import Shoutcast
  import Icecast

  /** The collaborators the handlers call: `url.parse`, the HTTP client, the
      two decoders, `fixTrackTitle`, and `getStreamStation`, which reads ICY
      metadata from the stream itself. */
  datatype Env = Env(
    parseUrl: string -> UrlParts,
    get: string -> Reply,
    decodeXml: string -> Decoded<seq<Shoutcast.StreamStats>>,
    decodeJson: string -> Decoded<Icecast.SourceField>,
    fixTrackTitle: string -> string,
    streamStation: string -> Outcome)

  /** The string value of each `StreamSource` member, as a caller passes it. */
  function TagName(source: StreamSource): string
  {
    match source
    case ShoutcastV1 => "SHOUTCAST_V1"
    case ShoutcastV2 => "SHOUTCAST_V2"
    case Icecast => "ICECAST"
    case Stream => "STREAM"
  }

  /** The `switch (method)`: the provider a method tag names, if any. */
  function MethodHandler(methodTag: Option<string>): (h: Option<StreamSource>)
    ensures forall source :: h == Some(source) <==> methodTag == Some(TagName(source))
  {
    match methodTag
    case None => None
    case Some(tag) =>
      if tag == "SHOUTCAST_V1" then Some(ShoutcastV1)
      else if tag == "SHOUTCAST_V2" then Some(ShoutcastV2)
      else if tag == "ICECAST" then Some(Icecast)
      else if tag == "STREAM" then Some(Stream)
      else None
  }

  /** The handler of each provider, applied to the stream URL. */
  function Handle(env: Env, source: StreamSource, url: string): Outcome
  {
    match source
    case ShoutcastV1 => Shoutcast.ShoutcastV1Station(url, env.get, env.fixTrackTitle)
    case ShoutcastV2 => Shoutcast.ShoutcastV2Station(url, env.parseUrl, env.get, env.decodeXml, env.fixTrackTitle)
    case Icecast => Icecast.IcecastStation(url, env.parseUrl, env.get, env.decodeJson, env.fixTrackTitle)
    case Stream => env.streamStation(url)
  }

  /** The fallback order of `findStation`. */
  const ProbeOrder: seq<StreamSource> := [ShoutcastV2, ShoutcastV1, Icecast, Stream]

  /** The promise wrappers `V1`, `V2`, `Ice` and `Icy`: they resolve with the
      station alone, so a handler's error is dropped. */
  function ProbeStation(outcome: Outcome): (r: Option<Station>)
    // A station is passed on as it is ...
    ensures r.Some? <==> outcome.Found?
    ensures outcome.Found? ==> r == Some(outcome.station)
    // ... while an error and a null error both become "no station".
    ensures outcome.Failed? ==> r.None?
  {
    if outcome.Found? then Some(outcome.station) else None
  }

  /** The first station that the handlers of `order` yield, trying them in turn. */
  function FirstStation(order: seq<StreamSource>, env: Env, url: string): Option<Station>
  {
    if order == [] then None
    else
      match ProbeStation(Handle(env, order[0], url))
      case Some(station) => Some(station)
      case None => FirstStation(order[1..], env, url)
  }

  /** `findStation(url)`: probes in `ProbeOrder` until one yields a station.
      `probed` records which handlers were invoked, in order. */
  method FindStation(url: string, env: Env) returns (station: Option<Station>, ghost probed: seq<StreamSource>)
    // The probes run in the fixed order, starting with the first ...
    ensures 1 <= |probed| <= |ProbeOrder| && probed == ProbeOrder[..|probed|]
    // ... each one before the last found nothing ...
    ensures forall k :: 0 <= k < |probed| - 1 ==> ProbeStation(Handle(env, probed[k], url)).None?
    // ... and the last one's station, if any, is the result, so no probe runs after a success.
    ensures station == ProbeStation(Handle(env, probed[|probed| - 1], url))
    // Nothing found means every probe ran.
    ensures station.None? ==> probed == ProbeOrder
    // The result is the first station along the priority list.
    ensures station == FirstStation(ProbeOrder, env, url)
  {
    station := None;
    probed := [];
    var i := 0;
    while i < |ProbeOrder| && station.None?
      invariant 0 <= i <= |ProbeOrder|
      invariant probed == ProbeOrder[..i]
      invariant forall k :: 0 <= k < i - 1 ==> ProbeStation(Handle(env, ProbeOrder[k], url)).None?
      invariant i == 0 ==> station.None?
      invariant i > 0 ==> station == ProbeStation(Handle(env, ProbeOrder[i - 1], url))
      invariant FirstStation(ProbeOrder, env, url)
                == if station.Some? then station else FirstStation(ProbeOrder[i..], env, url)
    {
      station := ProbeStation(Handle(env, ProbeOrder[i], url));
      probed := probed + [ProbeOrder[i]];
      i := i + 1;
    }
  }

  /** `getStationInfo(url, callback, method)`, with the outcome the callback receives. */
  method GetStationInfo(url: string, env: Env, methodTag: Option<string>)
    returns (r: Outcome, ghost probed: seq<StreamSource>)
    // A recognised tag runs that handler only and passes its outcome through untouched.
    ensures MethodHandler(methodTag).Some? ==>
      var source := MethodHandler(methodTag).value;
      probed == [source] && r == Handle(env, source, url)
    // Otherwise the probes run in order, each one only if all before it found nothing ...
    ensures MethodHandler(methodTag).None? ==>
      && 1 <= |probed| <= |ProbeOrder| && probed == ProbeOrder[..|probed|]
      && (forall k :: 0 <= k < |probed| - 1 ==> ProbeStation(Handle(env, probed[k], url)).None?)
    // ... the first station found is reported with a null error ...
    ensures MethodHandler(methodTag).None? ==>
      var last := Handle(env, probed[|probed| - 1], url);
      && (last.Found? ==> r == Found(last.station))
      && (!last.Found? ==> r == NoStation && probed == ProbeOrder)
    // ... which is the first station along the priority list ...
    ensures MethodHandler(methodTag).None? ==>
      r == match FirstStation(ProbeOrder, env, url)
           case Some(station) => Found(station)
           case None => NoStation
    // ... and no probe's error ever reaches the caller.
    ensures MethodHandler(methodTag).None? ==> !r.Failed?
  {
    var handler := MethodHandler(methodTag);
    if handler.Some? {
      r := Handle(env, handler.value, url);
      probed := [handler.value];
      return;
    }
    var station;
    station, probed := FindStation(url, env);
    r := if station.Some? then Found(station.value) else NoStation;
  }

  /** The fallback scenario where only Icecast knows the stream: the two
      SHOUTcast probes run and fail, Icecast answers, the ICY probe never runs. */
  method IcecastOnlyFallback(url: string, env: Env) returns (r: Outcome, ghost probed: seq<StreamSource>)
    requires !Handle(env, ShoutcastV2, url).Found? && !Handle(env, ShoutcastV1, url).Found?
    requires Handle(env, Icecast, url).Found?
    ensures probed == [ShoutcastV2, ShoutcastV1, Icecast]
    ensures r.Found? && r.station.fetchsource == Icecast
  {
    r, probed := GetStationInfo(url, env, None);
    // The run stops at the first station, so it neither ends before probe 2
    // (Icecast) nor goes past it.
    assert forall k :: 0 <= k < |probed| ==> probed[k] == ProbeOrder[k];
    assert |probed| == 4 ==> ProbeStation(Handle(env, probed[2], url)).None?;
    IcecastStationsAreTagged(url, env);
  }

  /** A station from the Icecast handler is tagged ICECAST. */
  lemma IcecastStationsAreTagged(url: string, env: Env)
    requires Handle(env, Icecast, url).Found?
    ensures Handle(env, Icecast, url).station.fetchsource == Icecast
  {
  }
}
