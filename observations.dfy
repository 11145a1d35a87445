/**
 * The observation collector's work on one batch of stations: the retry loop of
 * `fetch_station_data`, the enrichment of each data point in
 * `fetch_and_publish_station_data`, and the batch itself, whose stations run one
 * after another.
 */
module Observations {
  import opened Effects

  const RealTimeTopic: string := "weather-real-time"
  const Retries: nat := 3
  const StationPause: nat := 1200

  // ---------------------------------------------------------------------------
  // fetch_station_data
  // ---------------------------------------------------------------------------

  /** A 200 reply: the loop returns its JSON. */
  predicate Ok(resp: Response) {
    resp.Reply? && resp.status == 200
  }

  /** A network error or a 429, 500 or 503: the attempt ends with a backoff. */
  predicate Backoff(resp: Response) {
    resp.NetworkError? || resp.status == 429 || resp.status == 500 || resp.status == 503
  }

  /** `response.json()` on a 200 reply: a text that is not JSON raises. */
  function Decoded(resp: Response): (r: Outcome<Json>)
    requires Ok(resp)
    ensures r.Raised? <==> resp.json.None?
    ensures r.Returned? ==> r.value == resp.json.value
  {
    if resp.json.Some? then Returned(resp.json.value) else Raised
  }

  /** The effects of attempt `attempt` receiving `resp`: the request, then 2^attempt s after a backoff. */
  function TryEvents(sid: Json, resp: Response, attempt: nat): seq<Event>
  {
    if Backoff(resp) then [Request(StationData(sid)), Sleep(1000 * Pow2(attempt))] else [Request(StationData(sid))]
  }

  /** Attempts `attempt`, ..., 3 of `fetch_station_data(station_id)`, whose next request is `api(k)`. */
  function StationAttempts(sid: Json, api: Api, k: nat, attempt: nat): Run<Outcome<Json>>
    requires 1 <= attempt
    decreases Retries + 1 - attempt
  {
    if attempt > Retries then Run(Returned(JNull), [], k)
    else if Ok(api(k)) then Run(Decoded(api(k)), [Request(StationData(sid))], k + 1)
    else After(TryEvents(sid, api(k), attempt), StationAttempts(sid, api, k + 1, attempt + 1))
  }

  /** Unfolds one attempt of a loop that has attempts left. */
  lemma StationStep(sid: Json, api: Api, k: nat, attempt: nat)
    requires 1 <= attempt <= Retries
    ensures StationAttempts(sid, api, k, attempt)
      == if Ok(api(k)) then Run(Decoded(api(k)), [Request(StationData(sid))], k + 1)
         else After(TryEvents(sid, api(k), attempt), StationAttempts(sid, api, k + 1, attempt + 1))
  {
  }

  method FetchStationData(sid: Json, api: Api, k: nat) returns (data: Outcome<Json>, trace: seq<Event>, next: nat)
    ensures Run(data, trace, next) == StationAttempts(sid, api, k, 1)
  {
    trace, next := [], k;
    for attempt := 1 to Retries + 1
      invariant StationAttempts(sid, api, k, 1) == After(trace, StationAttempts(sid, api, next, attempt))
    {
      var resp := api(next);
      StationStep(sid, api, next, attempt);
      if Ok(resp) {
        return Decoded(resp), trace + [Request(StationData(sid))], next + 1;
      }
      AfterAfter(trace, TryEvents(sid, resp, attempt), StationAttempts(sid, api, next + 1, attempt + 1));
      if Backoff(resp) {
        trace := trace + [Request(StationData(sid)), Sleep(1000 * Pow2(attempt))];
      } else {
        trace := trace + [Request(StationData(sid))];
      }
      next := next + 1;
    }
    data := Returned(JNull);
  }

  /** The effects of consecutive attempts, numbered from `attempt`, receiving `rs`. */
  function Tries(sid: Json, rs: seq<Response>, attempt: nat): seq<Event>
  {
    if rs == [] then [] else TryEvents(sid, rs[0], attempt) + Tries(sid, rs[1..], attempt + 1)
  }

  lemma {:induction false} TriesEffects(sid: Json, rs: seq<Response>, attempt: nat)
    ensures Requests(Tries(sid, rs, attempt)) == |rs| && Publications(Tries(sid, rs, attempt)) == []
  {
    if rs != [] {
      var es := TryEvents(sid, rs[0], attempt);
      TriesEffects(sid, rs[1..], attempt + 1);
      RequestsAppend(es, Tries(sid, rs[1..], attempt + 1));
      PublicationsAppend(es, Tries(sid, rs[1..], attempt + 1));
      assert Requests(es) == 1 && Publications(es) == [] by {
        assert es[1..] == [] || es[1..][1..] == [];
      }
    }
  }

  /**
   * Closed form of the run `r` of the loop from attempt `attempt` and request `k`: it
   * sends `n` requests, at most the attempts left, with the effects of those attempts;
   * no response but the last is a 200; it stops before its last attempt only on a 200;
   * and it gives the JSON of that 200, or `None` when no response was a 200.
   */
  predicate StationShape(r: Run<Outcome<Json>>, sid: Json, api: Api, k: nat, attempt: nat)
  {
    var n := r.next - k;
    var rs := Upcoming(api, k, if n < 0 then 0 else n);
    && k <= r.next
    && n <= Retries + 1 - attempt
    && r.trace == Tries(sid, rs, attempt)
    && (forall j :: 0 <= j < n - 1 ==> !Ok(rs[j]))
    && (n < Retries + 1 - attempt ==> n >= 1 && Ok(rs[n - 1]))
    && r.value == (if n >= 1 && Ok(rs[n - 1]) then Decoded(rs[n - 1]) else Returned(JNull))
  }

  lemma {:induction false} StationClosedForm(sid: Json, api: Api, k: nat, attempt: nat)
    requires 1 <= attempt <= Retries + 1
    ensures StationShape(StationAttempts(sid, api, k, attempt), sid, api, k, attempt)
    decreases Retries + 1 - attempt
  {
    if attempt > Retries {
      assert Upcoming(api, k, 0) == [];
    } else if Ok(api(k)) {
      StationShapeOk(sid, api, k, attempt);
    } else {
      var rest := StationAttempts(sid, api, k + 1, attempt + 1);
      StationClosedForm(sid, api, k + 1, attempt + 1);
      assert StationAttempts(sid, api, k, attempt) == After(TryEvents(sid, api(k), attempt), rest);
      StationShapeCons(rest, sid, api, k, attempt);
    }
  }

  /** A 200: the run that stops there is in closed form. */
  lemma StationShapeOk(sid: Json, api: Api, k: nat, attempt: nat)
    requires 1 <= attempt <= Retries && Ok(api(k))
    ensures StationShape(StationAttempts(sid, api, k, attempt), sid, api, k, attempt)
  {
    StationStep(sid, api, k, attempt);
    var rs := Upcoming(api, k, 1);
    assert rs[1..] == [] && rs[0] == api(k);
    assert Tries(sid, rs, attempt) == TryEvents(sid, api(k), attempt) + Tries(sid, [], attempt + 1);
  }

  /** A failed attempt before a run in closed form gives a run in closed form. */
  lemma StationShapeCons(rest: Run<Outcome<Json>>, sid: Json, api: Api, k: nat, attempt: nat)
    requires 1 <= attempt <= Retries && !Ok(api(k))
    requires StationShape(rest, sid, api, k + 1, attempt + 1)
    ensures StationShape(After(TryEvents(sid, api(k), attempt), rest), sid, api, k, attempt)
  {
    var r := After(TryEvents(sid, api(k), attempt), rest);
    var n := rest.next - (k + 1);
    var tail := Upcoming(api, k + 1, n);
    var rs := Upcoming(api, k, n + 1);
    assert r.next - k == n + 1;
    assert rs[0] == api(k) && rs[1..] == tail;
    assert r.trace == Tries(sid, rs, attempt);
    forall j | 0 <= j < n ensures !Ok(rs[j]) {
      if j > 0 { assert rs[j] == tail[j - 1]; }
    }
    if n >= 1 {
      assert rs[n] == tail[n - 1];
    }
  }

  /**
   * `fetch_station_data(station_id)` sends between one and three requests and
   * publishes nothing. Its effects are those of its attempts: each sends one request,
   * and a network error or a 429, 500 or 503 on attempt a adds a pause of 2^a s. Every
   * response but the last is not a 200. It stops early only on a 200 and returns that
   * reply's JSON (or raises when the text is not JSON). When the three responses are
   * not 200 it returns `None`.
   */
  lemma FetchStationContract(sid: Json, api: Api, k: nat)
    ensures k + 1 <= StationAttempts(sid, api, k, 1).next <= k + Retries
    ensures var r := StationAttempts(sid, api, k, 1);
      var n := r.next - k;
      var rs := Upcoming(api, k, n);
      && Requests(r.trace) == n && Publications(r.trace) == []
      && r.trace == Tries(sid, rs, 1)
      && (forall j :: 0 <= j < n - 1 ==> !Ok(rs[j]))
      && (n < Retries ==> Ok(rs[n - 1]))
      && r.value == (if Ok(rs[n - 1]) then Decoded(rs[n - 1]) else Returned(JNull))
  {
    var r := StationAttempts(sid, api, k, 1);
    StationClosedForm(sid, api, k, 1);
    TriesEffects(sid, Upcoming(api, k, r.next - k), 1);
  }

  /** A first reply 200 with a JSON body: one request, no pause, that JSON. */
  lemma FetchOkAtOnce(sid: Json, api: Api, k: nat, v: Json)
    requires api(k).Reply? && api(k).status == 200 && api(k).json == Some(v)
    ensures StationAttempts(sid, api, k, 1) == Run(Returned(v), [Request(StationData(sid))], k + 1)
  {
  }

  /** Three failures of any kind: three requests, and `None`. */
  lemma FetchExhausted(sid: Json, api: Api, k: nat)
    requires !Ok(api(k)) && !Ok(api(k + 1)) && !Ok(api(k + 2))
    ensures var r := StationAttempts(sid, api, k, 1);
      r.value == Returned(JNull) && r.next == k + 3
      && r.trace == TryEvents(sid, api(k), 1) + TryEvents(sid, api(k + 1), 2) + TryEvents(sid, api(k + 2), 3)
  {
    assert StationAttempts(sid, api, k + 2, 3) == After(TryEvents(sid, api(k + 2), 3), Run(Returned(JNull), [], k + 3));
    AfterAfter(TryEvents(sid, api(k), 1), TryEvents(sid, api(k + 1), 2), StationAttempts(sid, api, k + 2, 3));
  }

  // ---------------------------------------------------------------------------
  // Enrichment
  // ---------------------------------------------------------------------------

  /** The station's metadata that opens each published record. */
  function StationMeta(sid: Json, station: map<string, Json>): map<string, Json>
  {
    map["station_id" := sid, "name" := GetOrNull(station, "name"),
        "type" := GetOrNull(station, "type"), "start_date" := GetOrNull(station, "start_date")]
  }

  /** `{"station_id": ..., "name": ..., "type": ..., "start_date": ..., **data_point}`; `**` on a non-object raises. */
  function Enrich(sid: Json, station: map<string, Json>, point: Json): Outcome<Json>
  {
    if point.JObj? then Returned(JObj(StationMeta(sid, station) + point.fields)) else Raised
  }

  /**
   * The enriched record holds the keys of the data point and the four metadata keys,
   * and no other. The data point's own value wins on every key it has; a metadata key
   * it lacks takes the station id or the station's value (`None` when absent). Only
   * an object can be merged.
   */
  lemma EnrichMerge(sid: Json, station: map<string, Json>, point: Json)
    ensures Enrich(sid, station, point).Raised? <==> !point.JObj?
    ensures point.JObj? ==>
      var e := Enrich(sid, station, point).value;
      && e.JObj?
      && (forall key :: key in e.fields <==> key in point.fields || key in {"station_id", "name", "type", "start_date"})
      && (forall key :: key in point.fields ==> e.fields[key] == point.fields[key])
      && ("station_id" !in point.fields ==> e.fields["station_id"] == sid)
      && (forall key :: key in {"name", "type", "start_date"} && key !in point.fields ==> e.fields[key] == GetOrNull(station, key))
  {
  }

  // ---------------------------------------------------------------------------
  // fetch_and_publish_station_data
  // ---------------------------------------------------------------------------

  /** The enrichment of each data point of a station. */
  function EnrichOf(sid: Json, station: map<string, Json>): Json -> Outcome<Json>
  {
    point => Enrich(sid, station, point)
  }

  /**
   * The loop over the data points `points[i..]`: one message per enriched point,
   * stopping at a point whose enrichment raises. The enrichment is a parameter so
   * that the loop's proofs do not depend on how a record is built.
   */
  function PointsFrom(sid: Json, enrich: Json -> Outcome<Json>, points: seq<Json>, i: nat): (Outcome<()>, seq<Event>)
    requires i <= |points|
    decreases |points| - i
  {
    if i == |points| then (Returned(()), [])
    else
      match enrich(points[i])
      case Raised => (Raised, [])
      case Returned(e) =>
        var rest := PointsFrom(sid, enrich, points, i + 1);
        (rest.0, [Publish(RealTimeTopic, Some(sid), e)] + rest.1)
  }

  method PublishPoints(sid: Json, enrich: Json -> Outcome<Json>, points: seq<Json>) returns (outcome: Outcome<()>, published: seq<Event>)
    ensures (outcome, published) == PointsFrom(sid, enrich, points, 0)
  {
    published := [];
    var i := 0;
    assert [] + PointsFrom(sid, enrich, points, 0).1 == PointsFrom(sid, enrich, points, 0).1;
    while i < |points|
      invariant i <= |points|
      invariant PointsFrom(sid, enrich, points, 0).0 == PointsFrom(sid, enrich, points, i).0
      invariant PointsFrom(sid, enrich, points, 0).1 == published + PointsFrom(sid, enrich, points, i).1
      decreases |points| - i
    {
      var enriched := enrich(points[i]);
      if enriched.Raised? {
        assert published + [] == published;
        return Raised, published;
      }
      var m := Publish(RealTimeTopic, Some(sid), enriched.value);
      assert published + ([m] + PointsFrom(sid, enrich, points, i + 1).1) == (published + [m]) + PointsFrom(sid, enrich, points, i + 1).1;
      published := published + [m];
      i := i + 1;
    }
    assert published + [] == published;
    outcome := Returned(());
  }

  /**
   * One message per data point, in list order, on "weather-real-time" keyed by the
   * station id, each the enriched point. Publishing stops only at the first point
   * whose enrichment raises.
   */
  lemma {:induction false} PointsPublished(sid: Json, enrich: Json -> Outcome<Json>, points: seq<Json>, i: nat)
    requires i <= |points|
    ensures var r := PointsFrom(sid, enrich, points, i);
      && |r.1| <= |points| - i
      && (forall j :: i <= j < i + |r.1| ==>
            (enrich(points[j]).Returned? && r.1[j - i] == Publish(RealTimeTopic, Some(sid), enrich(points[j]).value)))
      && (r.0.Returned? ==> |r.1| == |points| - i)
      && (r.0.Raised? ==> |r.1| < |points| - i && enrich(points[i + |r.1|]).Raised?)
    decreases |points| - i
  {
    if i < |points| && enrich(points[i]).Returned? {
      PointsPublished(sid, enrich, points, i + 1);
      PointsCons(sid, enrich, points, i);
    }
  }

  /** The step of `PointsPublished`. */
  lemma PointsCons(sid: Json, enrich: Json -> Outcome<Json>, points: seq<Json>, i: nat)
    requires i < |points| && enrich(points[i]).Returned?
    requires var r := PointsFrom(sid, enrich, points, i + 1);
      && |r.1| <= |points| - (i + 1)
      && (forall j :: i + 1 <= j < i + 1 + |r.1| ==>
            (enrich(points[j]).Returned? && r.1[j - (i + 1)] == Publish(RealTimeTopic, Some(sid), enrich(points[j]).value)))
      && (r.0.Returned? ==> |r.1| == |points| - (i + 1))
      && (r.0.Raised? ==> |r.1| < |points| - (i + 1) && enrich(points[i + 1 + |r.1|]).Raised?)
    ensures var r := PointsFrom(sid, enrich, points, i);
      && |r.1| <= |points| - i
      && (forall j :: i <= j < i + |r.1| ==>
            (enrich(points[j]).Returned? && r.1[j - i] == Publish(RealTimeTopic, Some(sid), enrich(points[j]).value)))
      && (r.0.Returned? ==> |r.1| == |points| - i)
      && (r.0.Raised? ==> |r.1| < |points| - i && enrich(points[i + |r.1|]).Raised?)
  {
    var rest := PointsFrom(sid, enrich, points, i + 1);
    var r := PointsFrom(sid, enrich, points, i);
    assert r.0 == rest.0;
    assert r.1 == [Publish(RealTimeTopic, Some(sid), enrich(points[i]).value)] + rest.1;
    forall j | i + 1 <= j < i + |r.1|
      ensures enrich(points[j]).Returned? && r.1[j - i] == Publish(RealTimeTopic, Some(sid), enrich(points[j]).value)
    {
      assert r.1[j - i] == rest.1[j - (i + 1)];
    }
  }

  /**
   * The messages of a station's data points: the enriched points, in list order, up to
   * the first point that is not an object, where the loop raises.
   */
  lemma PointsMessages(sid: Json, station: map<string, Json>, points: seq<Json>)
    ensures var (o, ps) := PointsFrom(sid, EnrichOf(sid, station), points, 0);
      && |ps| <= |points|
      && (forall j :: 0 <= j < |ps| ==>
            (points[j].JObj? && ps[j] == Publish(RealTimeTopic, Some(sid), JObj(StationMeta(sid, station) + points[j].fields))))
      && (o.Returned? ==> |ps| == |points|)
      && (o.Raised? ==> |ps| < |points| && !points[|ps|].JObj?)
  {
    var enrich := EnrichOf(sid, station);
    PointsPublished(sid, enrich, points, 0);
    var ps := PointsFrom(sid, enrich, points, 0).1;
    forall j | 0 <= j <= |ps| && j < |points|
      ensures enrich(points[j]) == if points[j].JObj? then Returned(JObj(StationMeta(sid, station) + points[j].fields)) else Raised
    {
    }
  }

  /** The publications of a message list are the list itself. */
  lemma {:induction false} OnlyPublications(ps: seq<Event>)
    requires forall j :: 0 <= j < |ps| ==> ps[j].Publish?
    ensures Publications(ps) == ps
  {
    if ps != [] {
      OnlyPublications(ps[1..]);
      assert [ps[0]] + ps[1..] == ps;
    }
  }

  /**
   * `fetch_and_publish_station_data(station)`: `station["station_id"]` (which raises on
   * an entry without it), a 1.2 s pause, the fetch, then the enriched data points.
   */
  function StationRun(station: Json, api: Api, k: nat): Run<Outcome<()>>
  {
    match StationIdOf(station)
    case Raised => Run(Raised, [], k)
    case Returned(sid) => AfterFetch(sid, station.fields, StationAttempts(sid, api, k, 1))
  }

  /**
   * The 1.2 s pause and the fetch `f`, then one message per data point when the fetch
   * gave a non-empty list; anything else publishes nothing.
   */
  function AfterFetch(sid: Json, station: map<string, Json>, f: Run<Outcome<Json>>): Run<Outcome<()>>
  {
    After([Sleep(StationPause)],
      if f.value.Raised? then Run(Raised, f.trace, f.next)
      else if Listed(f.value.value) then
        var p := PointsFrom(sid, EnrichOf(sid, station), f.value.value.items, 0);
        Run(p.0, f.trace + p.1, f.next)
      else Run(Returned(()), f.trace, f.next))
  }

  /** `if raw_data:` and `isinstance(raw_data, list)` */
  predicate Listed(raw: Json) {
    Truthy(raw) && raw.JArr?
  }

  method FetchAndPublishStationData(station: Json, api: Api, k: nat) returns (outcome: Outcome<()>, trace: seq<Event>, next: nat)
    ensures Run(outcome, trace, next) == StationRun(station, api, k)
  {
    var id := StationIdOf(station);
    if id.Raised? {
      return Raised, [], k;
    }
    var sid := id.value;
    var raw, fetched, n := FetchStationData(sid, api, k);
    trace, next := [Sleep(StationPause)] + fetched, n;
    if raw.Raised? {
      return Raised, trace, next;
    }
    outcome := Returned(());
    if Listed(raw.value) {
      var published;
      outcome, published := PublishPoints(sid, EnrichOf(sid, station.fields), raw.value.items);
      assert [Sleep(StationPause)] + (fetched + published) == trace + published;
      trace := trace + published;
    }
  }

  /**
   * A station's messages are exactly the enriched points of the list its fetch
   * returned, up to the first point that is not an object; nothing is published when
   * the fetch raised or gave a falsy value or a value that is not a list. Every
   * message is on "weather-real-time", keyed by the station id. The run sends between
   * one and three requests, after a 1.2 s pause; an entry without "station_id" raises
   * before anything happens.
   */
  lemma StationContract(station: Json, api: Api, k: nat)
    ensures StationIdOf(station).Raised? ==> StationRun(station, api, k) == Run(Raised, [], k)
    ensures StationIdOf(station).Returned? ==>
      var sid := StationIdOf(station).value;
      StationKeeps(sid, station.fields, StationAttempts(sid, api, k, 1), StationRun(station, api, k), k)
  {
    if StationIdOf(station).Returned? {
      var sid := StationIdOf(station).value;
      FetchStationContract(sid, api, k);
      AfterFetchKeeps(sid, station.fields, StationAttempts(sid, api, k, 1), k);
    }
  }

  /**
   * What a station run `r` whose fetch ran as `f` from request `k` does: between one
   * and three requests, first a 1.2 s pause, the enriched points of a listed result as
   * its messages and otherwise none, all on "weather-real-time" keyed by the station.
   */
  predicate StationKeeps(sid: Json, station: map<string, Json>, f: Run<Outcome<Json>>, r: Run<Outcome<()>>, k: nat)
  {
    var listed := f.value.Returned? && Listed(f.value.value);
    && k + 1 <= r.next <= k + Retries && Requests(r.trace) == r.next - k
    && r.trace[0] == Sleep(StationPause)
    && (!listed ==> Publications(r.trace) == [] && r.value == (if f.value.Raised? then Raised else Returned(())))
    && (listed ==> Publications(r.trace) == PointsFrom(sid, EnrichOf(sid, station), f.value.value.items, 0).1
                   && r.value == PointsFrom(sid, EnrichOf(sid, station), f.value.value.items, 0).0)
    && AllKeyedOn(Publications(r.trace), RealTimeTopic)
    && (forall j :: 0 <= j < |Publications(r.trace)| ==> Publications(r.trace)[j].key == Some(sid))
  }

  lemma AfterFetchKeeps(sid: Json, station: map<string, Json>, f: Run<Outcome<Json>>, k: nat)
    requires k + 1 <= f.next <= k + Retries && Requests(f.trace) == f.next - k && Publications(f.trace) == []
    ensures StationKeeps(sid, station, f, AfterFetch(sid, station, f), k)
  {
    if f.value.Returned? && Listed(f.value.value) {
      AfterFetchListed(sid, station, f, k);
    } else {
      var r := AfterFetch(sid, station, f);
      assert r.trace == [Sleep(StationPause)] + (f.trace + []);
      PauseFetchPoints(f.trace, []);
    }
  }

  lemma AfterFetchListed(sid: Json, station: map<string, Json>, f: Run<Outcome<Json>>, k: nat)
    requires k + 1 <= f.next <= k + Retries && Requests(f.trace) == f.next - k && Publications(f.trace) == []
    requires f.value.Returned? && Listed(f.value.value)
    ensures StationKeeps(sid, station, f, AfterFetch(sid, station, f), k)
  {
    var r := AfterFetch(sid, station, f);
    var ps := PointsFrom(sid, EnrichOf(sid, station), f.value.value.items, 0).1;
    PointsKeyed(sid, station, f.value.value.items, ps);
    assert r.trace == [Sleep(StationPause)] + (f.trace + ps);
    PauseFetchPoints(f.trace, ps);
    KeyedBy(ps, sid);
  }

  /** The messages of a station's data points are publications on "weather-real-time" keyed by the station. */
  lemma PointsKeyed(sid: Json, station: map<string, Json>, items: seq<Json>, ps: seq<Event>)
    requires ps == PointsFrom(sid, EnrichOf(sid, station), items, 0).1
    ensures forall j :: 0 <= j < |ps| ==> ps[j].Publish? && ps[j].topic == RealTimeTopic && ps[j].key == Some(sid)
  {
    PointsPublished(sid, EnrichOf(sid, station), items, 0);
    forall j | 0 <= j < |ps| ensures ps[j].Publish? && ps[j].topic == RealTimeTopic && ps[j].key == Some(sid) {
      assert 0 <= j < 0 + |ps| && j < |items|;
      assert ps[j - 0] == Publish(RealTimeTopic, Some(sid), EnrichOf(sid, station)(items[j]).value);
    }
  }

  /** The pause, a fetch that publishes nothing and a list of messages: those messages, and the fetch's requests. */
  lemma PauseFetchPoints(fetched: seq<Event>, ps: seq<Event>)
    requires Publications(fetched) == [] && forall j :: 0 <= j < |ps| ==> ps[j].Publish?
    ensures Publications([Sleep(StationPause)] + (fetched + ps)) == ps
    ensures Requests([Sleep(StationPause)] + (fetched + ps)) == Requests(fetched)
  {
    OnlyPublications(ps);
    NoRequestsIn(ps);
    RequestsAppend(fetched, ps);
    PublicationsAppend(fetched, ps);
    RequestsAppend([Sleep(StationPause)], fetched + ps);
    PublicationsAppend([Sleep(StationPause)], fetched + ps);
  }

  /** A sequence of publications sends no request. */
  lemma {:induction false} NoRequestsIn(ps: seq<Event>)
    requires forall j :: 0 <= j < |ps| ==> ps[j].Publish?
    ensures Requests(ps) == 0
  {
    if ps != [] {
      NoRequestsIn(ps[1..]);
    }
  }

  /** Publications on "weather-real-time" all keyed by `sid` are keyed on that topic. */
  lemma {:induction false} KeyedBy(ps: seq<Event>, sid: Json)
    requires forall j :: 0 <= j < |ps| ==> ps[j].Publish? && ps[j].topic == RealTimeTopic && ps[j].key == Some(sid)
    ensures AllKeyedOn(ps, RealTimeTopic)
  {
    if ps != [] {
      KeyedBy(ps[1..], sid);
    }
  }

  // ---------------------------------------------------------------------------
  // What a station run never does
  // ---------------------------------------------------------------------------

  /** Only requests, publications and pauses of at most 8 s: no lock check and no pause of the batch loop. */
  predicate WorkOnly(trace: seq<Event>) {
    forall i :: 0 <= i < |trace| ==> trace[i].Request? || trace[i].Publish? || (trace[i].Sleep? && trace[i].ms <= 8000)
  }

  lemma WorkOnlyAppend(a: seq<Event>, b: seq<Event>)
    requires WorkOnly(a) && WorkOnly(b)
    ensures WorkOnly(a + b)
  {
    forall i | 0 <= i < |a + b|
      ensures (a + b)[i].Request? || (a + b)[i].Publish? || ((a + b)[i].Sleep? && (a + b)[i].ms <= 8000)
    {
      if i >= |a| {
        assert (a + b)[i] == b[i - |a|];
      } else {
        assert (a + b)[i] == a[i];
      }
    }
  }

  /** Attempts 1 to 3 pause at most 2^3 s. */
  lemma {:induction false} TriesWorkOnly(sid: Json, rs: seq<Response>, attempt: nat)
    requires 1 <= attempt && attempt + |rs| <= Retries + 1
    ensures WorkOnly(Tries(sid, rs, attempt))
    decreases |rs|
  {
    if rs != [] {
      assert Pow2(attempt) <= 8 by {
        assert attempt <= 3;
        assert Pow2(1) == 2 && Pow2(2) == 4 && Pow2(3) == 8;
      }
      TriesWorkOnly(sid, rs[1..], attempt + 1);
      WorkOnlyAppend(TryEvents(sid, rs[0], attempt), Tries(sid, rs[1..], attempt + 1));
    }
  }

  /** A station run only sends requests, publishes and pauses for at most 8 s at a time. */
  lemma StationWorkOnly(station: Json, api: Api, k: nat)
    ensures WorkOnly(StationRun(station, api, k).trace)
  {
    if StationIdOf(station).Returned? {
      var sid := StationIdOf(station).value;
      var f := StationAttempts(sid, api, k, 1);
      FetchStationContract(sid, api, k);
      TriesWorkOnly(sid, Upcoming(api, k, f.next - k), 1);
      AfterFetchWorkOnly(sid, station.fields, f);
    }
  }

  lemma AfterFetchWorkOnly(sid: Json, station: map<string, Json>, f: Run<Outcome<Json>>)
    requires WorkOnly(f.trace)
    ensures WorkOnly(AfterFetch(sid, station, f).trace)
  {
    var ps: seq<Event> := [];
    if f.value.Returned? && Listed(f.value.value) {
      ps := PointsFrom(sid, EnrichOf(sid, station), f.value.value.items, 0).1;
      PointsKeyed(sid, station, f.value.value.items, ps);
    } else {
      assert f.trace + ps == f.trace;
    }
    assert AfterFetch(sid, station, f).trace == [Sleep(StationPause)] + (f.trace + ps);
    assert WorkOnly(ps);
    WorkOnlyAppend(f.trace, ps);
    WorkOnlyAppend([Sleep(StationPause)], f.trace + ps);
  }
}
