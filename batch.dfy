/**
 * One batch of the climatological producer (`process_batch`).
 *
 * Creation phase: for every station, a 2.5 s pause, then a command; the station's
 * command id is stored in `station_cmd_ids` when creation returns ok with a truthy id.
 * Pass loop: up to five passes. Each pass polls every outstanding command once,
 * after a 2.5 s pause. It publishes the rows of every "done" command on
 * "weather-verified" and marks "done" and "error" entries as resolved. It then keeps
 * only the unresolved entries, and pauses 60 s whenever some are left.
 *
 * The dictionary is an association list in insertion order, as a Python dict.
 */
module BatchConvergence {
  import opened Effects
  import opened CsvRecords
  import opened RemoteCommands
  import opened StationDict
  import opened PassLoop

  // ---------------------------------------------------------------------------
  // Creation phase
  // ---------------------------------------------------------------------------

  /** `if ok and cmd_id:` */
  predicate Stored(res: (Json, bool)) {
    res.1 && Truthy(res.0)
  }

  /** The dict after `create_one_station` got `res` for `sid`. */
  function StoreOne(d: Commands, sid: Json, res: (Json, bool)): Commands
  {
    if Stored(res) then Assign(d, sid, res.0) else d
  }

  /** The dict after storing the creation results `rs` of `ids`, in order, into an empty dict. */
  function StoreAll(ids: seq<Json>, rs: seq<(Json, bool)>): Commands
    requires |ids| == |rs|
  {
    if ids == [] then []
    else StoreOne(StoreAll(ids[..|ids| - 1], rs[..|rs| - 1]), ids[|ids| - 1], rs[|rs| - 1])
  }

  /**
   * The creation phase's dict: its keys are unique and are exactly the stations whose
   * creation returned ok with a truthy id, every command id in it is truthy, and each
   * station maps to the id of its last successful creation.
   */
  lemma StoreAllKeys(ids: seq<Json>, rs: seq<(Json, bool)>)
    requires |ids| == |rs|
    ensures var d := StoreAll(ids, rs);
      && UniqueKeys(d)
      && (forall key :: key in Keys(d) <==> exists j :: 0 <= j < |ids| && ids[j] == key && Stored(rs[j]))
      && (forall i :: 0 <= i < |d| ==> Truthy(d[i].1))
      && (forall j :: 0 <= j < |ids| && LastStored(ids, rs, j) ==>
            ids[j] in AsMap(d) && AsMap(d)[ids[j]] == rs[j].0)
  {
    StoreAllUnique(ids, rs);
    StoreAllKeySet(ids, rs);
    StoreAllValues(ids, rs);
    StoreAllLatest(ids, rs);
  }

  /** Result `j` is stored and no later result for the same station is. */
  predicate LastStored(ids: seq<Json>, rs: seq<(Json, bool)>, j: nat)
    requires |ids| == |rs| && j < |ids|
  {
    Stored(rs[j]) && forall j2 :: j < j2 < |ids| && ids[j2] == ids[j] ==> !Stored(rs[j2])
  }

  /** A station created twice keeps the id of its last successful creation. */
  lemma {:induction false} StoreAllLatest(ids: seq<Json>, rs: seq<(Json, bool)>)
    requires |ids| == |rs|
    ensures forall j :: 0 <= j < |ids| && LastStored(ids, rs, j) ==>
      ids[j] in AsMap(StoreAll(ids, rs)) && AsMap(StoreAll(ids, rs))[ids[j]] == rs[j].0
  {
    if ids != [] {
      var n := |ids| - 1;
      var prev := StoreAll(ids[..n], rs[..n]);
      StoreAllLatest(ids[..n], rs[..n]);
      if Stored(rs[n]) {
        AssignIsUpdate(prev, ids[n], rs[n].0);
      }
      forall j | 0 <= j < |ids| && LastStored(ids, rs, j)
        ensures ids[j] in AsMap(StoreAll(ids, rs)) && AsMap(StoreAll(ids, rs))[ids[j]] == rs[j].0
      {
        if j < n {
          assert LastStored(ids[..n], rs[..n], j) by {
            forall j2 | j < j2 < n && ids[..n][j2] == ids[..n][j]
              ensures !Stored(rs[..n][j2])
            {
              assert ids[j2] == ids[j];
            }
          }
          assert ids[..n][j] == ids[j] && rs[..n][j] == rs[j];
        }
      }
    }
  }

  lemma {:induction false} StoreAllUnique(ids: seq<Json>, rs: seq<(Json, bool)>)
    requires |ids| == |rs|
    ensures UniqueKeys(StoreAll(ids, rs))
  {
    if ids != [] {
      var n := |ids| - 1;
      StoreAllUnique(ids[..n], rs[..n]);
      if Stored(rs[n]) {
        AssignUnique(StoreAll(ids[..n], rs[..n]), ids[n], rs[n].0);
      }
    }
  }

  lemma {:induction false} StoreAllValues(ids: seq<Json>, rs: seq<(Json, bool)>)
    requires |ids| == |rs|
    ensures forall i :: 0 <= i < |StoreAll(ids, rs)| ==> Truthy(StoreAll(ids, rs)[i].1)
  {
    if ids != [] {
      var n := |ids| - 1;
      StoreAllValues(ids[..n], rs[..n]);
      if Stored(rs[n]) {
        AssignValues(StoreAll(ids[..n], rs[..n]), ids[n], rs[n].0);
      }
    }
  }

  lemma {:induction false} StoreAllKeySet(ids: seq<Json>, rs: seq<(Json, bool)>)
    requires |ids| == |rs|
    ensures forall key :: key in Keys(StoreAll(ids, rs)) <==> exists j :: 0 <= j < |ids| && ids[j] == key && Stored(rs[j])
  {
    if ids != [] {
      var n := |ids| - 1;
      var prev := StoreAll(ids[..n], rs[..n]);
      StoreAllKeySet(ids[..n], rs[..n]);
      if Stored(rs[n]) {
        AssignKeys(prev, ids[n], rs[n].0);
      }
      forall key ensures key in Keys(StoreAll(ids, rs)) <==> exists j :: 0 <= j < |ids| && ids[j] == key && Stored(rs[j]) {
        if key in Keys(StoreAll(ids, rs)) && key != ids[n] {
          var j :| 0 <= j < n && ids[..n][j] == key && Stored(rs[..n][j]);
          assert ids[j] == key && Stored(rs[j]);
        }
        if exists j :: 0 <= j < |ids| && ids[j] == key && Stored(rs[j]) {
          var j :| 0 <= j < |ids| && ids[j] == key && Stored(rs[j]);
          if j < n {
            assert ids[..n][j] == key && Stored(rs[..n][j]);
          }
        }
      }
    }
  }

  /**
   * `station["station_id"]` for every station of the batch, or `None` when one raises.
   * The lookups run before any task's first pause, so an exception there ends the
   * batch before any request is sent.
   */
  function StationIds(batch: seq<Json>): (ids: Option<seq<Json>>)
    ensures ids.Some? <==> forall i :: 0 <= i < |batch| ==> StationIdOf(batch[i]).Returned?
    ensures ids.Some? ==> |ids.value| == |batch| && forall i :: 0 <= i < |batch| ==> ids.value[i] == StationIdOf(batch[i]).value
  {
    if forall i :: 0 <= i < |batch| ==> StationIdOf(batch[i]).Returned? then
      Some(seq(|batch|, i requires 0 <= i < |batch| => StationIdOf(batch[i]).value))
    else None
  }

  /** One `create_one_station` task: a 2.5 s pause, then the command creation. */
  function CreateOne(sid: Json, start: string, end: string, api: Api, k: nat): Run<Outcome<(Json, bool)>>
  {
    After([Sleep(DelayBetweenRequests)], CreateFrom(sid, start, end, api, k))
  }

  /** The creation results of the stations `ids`, one after another; an exception stops them. */
  function CreateEach(ids: seq<Json>, start: string, end: string, api: Api, k: nat): (r: Run<Outcome<seq<(Json, bool)>>>)
    ensures r.value.Returned? ==> |r.value.value| == |ids|
  {
    if ids == [] then Run(Returned([]), [], k)
    else
      var c := CreateOne(ids[0], start, end, api, k);
      match c.value
      case Raised => Run(Raised, c.trace, c.next)
      case Returned(res) => Continued([res], c.trace, CreateEach(ids[1..], start, end, api, c.next))
  }

  /** Steps 1 of `process_batch`: the dict once every creation task is done. */
  function CreationPhase(batch: seq<Json>, start: string, end: string, api: Api, k: nat): Run<Outcome<Commands>>
  {
    match StationIds(batch)
    case None => Run(Raised, [], k)
    case Some(ids) =>
      var c := CreateEach(ids, start, end, api, k);
      Run(if c.value.Raised? then Raised else Returned(StoreAll(ids, c.value.value)), c.trace, c.next)
  }

  method CreateOneStation(sid: Json, start: string, end: string, api: Api, k: nat, stationCmdIds: Commands)
    returns (result: Outcome<Commands>, trace: seq<Event>, next: nat)
    ensures var c := CreateOne(sid, start, end, api, k);
      && trace == c.trace && next == c.next
      && result == (if c.value.Raised? then Raised else Returned(StoreOne(stationCmdIds, sid, c.value.value)))
  {
    var outcome, created, n := CreateCommandForStation(sid, start, end, api, k);
    trace, next := [Sleep(DelayBetweenRequests)] + created, n;
    match outcome {
      case Raised => result := Raised;
      case Returned((cmdId, ok)) =>
        if ok && Truthy(cmdId) {
          result := Returned(Assign(stationCmdIds, sid, cmdId));
        } else {
          result := Returned(stationCmdIds);
        }
    }
  }

  lemma {:induction false} StoreAllSnoc(ids: seq<Json>, rs: seq<(Json, bool)>, sid: Json, res: (Json, bool))
    requires |ids| == |rs|
    ensures StoreAll(ids + [sid], rs + [res]) == StoreOne(StoreAll(ids, rs), sid, res)
  {
    assert (ids + [sid])[..|ids|] == ids;
    assert (rs + [res])[..|rs|] == rs;
  }

  method LookupStationIds(batch: seq<Json>) returns (ids: Option<seq<Json>>)
    ensures ids == StationIds(batch)
  {
    var found: seq<Json> := [];
    for i := 0 to |batch|
      invariant |found| == i && forall j :: 0 <= j < i ==> StationIdOf(batch[j]) == Returned(found[j])
    {
      match StationIdOf(batch[i]) {
        case Raised => return None;
        case Returned(sid) => found := found + [sid];
      }
    }
    assert StationIds(batch).Some?;
    assert StationIds(batch).value == found;
    return Some(found);
  }

  method RunCreationPhase(batch: seq<Json>, start: string, end: string, api: Api, k: nat)
    returns (result: Outcome<Commands>, trace: seq<Event>, next: nat)
    ensures Run(result, trace, next) == CreationPhase(batch, start, end, api, k)
  {
    var lookup := LookupStationIds(batch);
    if lookup.None? {
      return Raised, [], k;
    }
    var ids := lookup.value;
    var stationCmdIds: Commands := [];
    ghost var done: seq<(Json, bool)> := [];
    trace, next := [], k;
    assert ids[0..] == ids;
    ContinuedNothing(CreateEach(ids, start, end, api, k));
    for j := 0 to |ids|
      invariant |done| == j
      invariant stationCmdIds == StoreAll(ids[..j], done)
      invariant CreateEach(ids, start, end, api, k) == Continued(done, trace, CreateEach(ids[j..], start, end, api, next))
    {
      ghost var c := CreateOne(ids[j], start, end, api, next);
      assert ids[j..][1..] == ids[j + 1..];
      var outcome, t, n := CreateOneStation(ids[j], start, end, api, next, stationCmdIds);
      match outcome {
        case Raised =>
          return Raised, trace + t, n;
        case Returned(d) =>
          ContinuedTwice(done, trace, [c.value.value], t, CreateEach(ids[j + 1..], start, end, api, n));
          StoreAllSnoc(ids[..j], done, ids[j], c.value.value);
          assert ids[..j + 1] == ids[..j] + [ids[j]];
          done := done + [c.value.value];
          stationCmdIds := d;
          trace, next := trace + t, n;
      }
    }
    assert ids[..|ids|] == ids && ids[|ids|..] == [];
    assert done + [] == done && trace + [] == trace;
    return Returned(stationCmdIds), trace, next;
  }

  /** One creation task sends one to three requests and publishes nothing. */
  lemma CreateOneQuiet(sid: Json, start: string, end: string, api: Api, k: nat)
    ensures var c := CreateOne(sid, start, end, api, k);
      && k < c.next && Requests(c.trace) == c.next - k <= MaxAttempts
      && Publications(c.trace) == []
  {
    var r := CreateFrom(sid, start, end, api, k);
    CreateContract(sid, start, end, api, k);
    AttemptsPublishNothing(CreateCommand(sid, start, end), api, k, 1, CreateVerdict, Returned(Rejected));
    RequestsAppend([Sleep(DelayBetweenRequests)], r.trace);
    PublicationsAppend([Sleep(DelayBetweenRequests)], r.trace);
  }

  /** The creation tasks send at most three requests per station and publish nothing. */
  lemma {:induction false} CreateEachQuiet(ids: seq<Json>, start: string, end: string, api: Api, k: nat)
    ensures var c := CreateEach(ids, start, end, api, k);
      && k <= c.next && Requests(c.trace) == c.next - k <= MaxAttempts * |ids|
      && Publications(c.trace) == []
  {
    if ids != [] {
      var c := CreateOne(ids[0], start, end, api, k);
      CreateOneQuiet(ids[0], start, end, api, k);
      if c.value.Returned? {
        var rest := CreateEach(ids[1..], start, end, api, c.next);
        CreateEachQuiet(ids[1..], start, end, api, c.next);
        RequestsAppend(c.trace, rest.trace);
        PublicationsAppend(c.trace, rest.trace);
      }
    }
  }

  /** Storing creation results adds at most one entry per station. */
  lemma {:induction false} StoreAllSize(ids: seq<Json>, rs: seq<(Json, bool)>)
    requires |ids| == |rs|
    ensures |StoreAll(ids, rs)| <= |ids|
  {
    if ids != [] {
      var n := |ids| - 1;
      StoreAllSize(ids[..n], rs[..n]);
      if Stored(rs[n]) {
        AssignKeys(StoreAll(ids[..n], rs[..n]), ids[n], rs[n].0);
      }
    }
  }

  /**
   * The creation phase publishes nothing and sends at most three requests per
   * station; the dict it builds holds each station once, no more entries than the
   * batch has stations, and a truthy command id in every entry.
   */
  lemma CreationFacts(batch: seq<Json>, start: string, end: string, api: Api, k: nat)
    ensures CreatedWell(CreationPhase(batch, start, end, api, k), k, |batch|)
  {
    var ids := StationIds(batch);
    if ids.Some? {
      var c := CreateEach(ids.value, start, end, api, k);
      CreateEachQuiet(ids.value, start, end, api, k);
      if c.value.Returned? {
        StoreAllKeys(ids.value, c.value.value);
        StoreAllSize(ids.value, c.value.value);
        var d := StoreAll(ids.value, c.value.value);
        assert forall i :: 0 <= i < |d| ==> d[i].1 != JNull by {
          forall i | 0 <= i < |d| ensures d[i].1 != JNull {
            assert Truthy(d[i].1);
          }
        }
      }
    }
  }

  // ---------------------------------------------------------------------------
  // Pass loop
  // ---------------------------------------------------------------------------

  /** The rows as the JSON list of objects they are published as (`None` stays `null`). */
  function RowsJson(rows: Option<seq<Row>>): Json
  {
    match rows
    case None => JNull
    case Some(rs) => JArr(seq(|rs|, i requires 0 <= i < |rs| => JObj(rs[i])))
  }

  /** `{"station_id": station_id, "rows": dict_data}` */
  function VerifiedMessage(sid: Json, rows: Option<seq<Row>>): Json
  {
    JObj(map["station_id" := sid, "rows" := RowsJson(rows)])
  }

  /** One `do_fetch` task: a 2.5 s pause, the retrieval, and the publication when "done". */
  function FetchOne(sid: Json, cid: Json, api: Api, k: nat): Run<Poll>
  {
    var f := FetchFrom(cid, api, k);
    Run(f.value, [Sleep(DelayBetweenRequests)] + f.trace + Published(sid, Some(f.value)), f.next)
  }

  /** The poll reported "done". */
  predicate IsDone(v: Option<Poll>) {
    v.Some? && v.value.status == Done
  }

  /** The message `do_fetch` publishes when its poll is "done", and nothing otherwise. */
  function Published(sid: Json, v: Option<Poll>): seq<Event>
  {
    if IsDone(v) then [Publish(VerifiedTopic, Some(sid), VerifiedMessage(sid, v.value.rows))] else []
  }

  /**
   * One pass over the entries `d`, in dict order: the poll of every entry whose
   * command is not `None`, and `None` for the skipped ones.
   */
  function PassFrom(d: Commands, api: Api, k: nat): (r: Run<seq<Option<Poll>>>)
    ensures |r.value| == |d|
  {
    if d == [] then Run([], [], k)
    else if d[0].1 == JNull then Then([None], [], PassFrom(d[1..], api, k))
    else
      var f := FetchOne(d[0].0, d[0].1, api, k);
      Then([Some(f.value)], f.trace, PassFrom(d[1..], api, f.next))
  }

  /** The entry after its poll: "done" and "error" set the command to `None`; "pending" keeps it. */
  function MarkOne(e: (Json, Json), v: Option<Poll>): (Json, Json)
  {
    if v.Some? && v.value.status != Pending then (e.0, JNull) else e
  }

  /** Every entry of `d` after its poll in `vs`. */
  function Mark(d: Commands, vs: seq<Option<Poll>>): (m: Commands)
    requires |vs| == |d|
    ensures |m| == |d|
  {
    if d == [] then [] else [MarkOne(d[0], vs[0])] + Mark(d[1..], vs[1..])
  }

  lemma {:induction false} MarkIndex(d: Commands, vs: seq<Option<Poll>>)
    requires |vs| == |d|
    ensures forall i :: 0 <= i < |d| ==> Mark(d, vs)[i] == MarkOne(d[i], vs[i])
  {
    if d != [] {
      MarkIndex(d[1..], vs[1..]);
      forall i | 1 <= i < |d| ensures Mark(d, vs)[i] == MarkOne(d[i], vs[i]) {
        assert Mark(d, vs)[i] == Mark(d[1..], vs[1..])[i - 1];
      }
    }
  }

  /** `{sid: cid for sid, cid in station_cmd_ids.items() if cid is not None}` */
  function Rebuild(d: Commands): Commands
  {
    if d == [] then []
    else (if d[0].1 != JNull then [d[0]] else []) + Rebuild(d[1..])
  }

  /** The publications of a pass with polls `vs`: one per "done" poll, in dict order. */
  function DoneMessages(d: Commands, vs: seq<Option<Poll>>): seq<Event>
    requires |vs| == |d|
  {
    if d == [] then [] else Published(d[0].0, vs[0]) + DoneMessages(d[1..], vs[1..])
  }

  /**
   * One `do_fetch`: one to three requests, and a publication on "weather-verified",
   * keyed by the station, of the station and its rows exactly when the status is "done".
   */
  lemma FetchOneContract(sid: Json, cid: Json, api: Api, k: nat)
    ensures var f := FetchOne(sid, cid, api, k);
      && k < f.next && Requests(f.trace) == f.next - k <= MaxAttempts
      && Publications(f.trace) == Published(sid, Some(f.value))
  {
    FetchQuiet(cid, api, k);
    PauseFetchPublish(sid, FetchFrom(cid, api, k), k);
  }

  /** The pause, a quiet retrieval `r` from index `k`, then its publication. */
  lemma PauseFetchPublish(sid: Json, r: Run<Poll>, k: nat)
    requires k < r.next && Requests(r.trace) == r.next - k <= MaxAttempts && Publications(r.trace) == []
    ensures var trace := [Sleep(DelayBetweenRequests)] + r.trace + Published(sid, Some(r.value));
      Requests(trace) == r.next - k && Publications(trace) == Published(sid, Some(r.value))
  {
    var published := Published(sid, Some(r.value));
    assert [Sleep(DelayBetweenRequests)] + r.trace + published == [Sleep(DelayBetweenRequests)] + (r.trace + published);
    RequestsAppend([Sleep(DelayBetweenRequests)], r.trace + published);
    RequestsAppend(r.trace, published);
    NoRequests(published);
    PublicationsAppend([Sleep(DelayBetweenRequests)], r.trace + published);
    PublicationsAppend(r.trace, published);
  }

  /**
   * One pass polls exactly the entries whose command is not `None`, each once and in
   * dict order, sends at most three requests for each entry, and publishes exactly one
   * message per "done" poll.
   */
  lemma {:induction false} PassContract(d: Commands, api: Api, k: nat)
    ensures var p := PassFrom(d, api, k);
      && (forall i :: 0 <= i < |d| ==> (p.value[i].Some? <==> d[i].1 != JNull))
      && k <= p.next && Requests(p.trace) == p.next - k <= MaxAttempts * |d|
      && Publications(p.trace) == DoneMessages(d, p.value)
  {
    if d != [] {
      var p := PassFrom(d, api, k);
      var here, trace, k' := if d[0].1 == JNull then None else Some(FetchOne(d[0].0, d[0].1, api, k).value),
        (if d[0].1 == JNull then [] else FetchOne(d[0].0, d[0].1, api, k).trace),
        (if d[0].1 == JNull then k else FetchOne(d[0].0, d[0].1, api, k).next);
      var rest := PassFrom(d[1..], api, k');
      PassContract(d[1..], api, k');
      assert p == Then([here], trace, rest);
      if d[0].1 != JNull {
        FetchOneContract(d[0].0, d[0].1, api, k);
      }
      assert Requests(trace) == k' - k <= MaxAttempts && Publications(trace) == Published(d[0].0, here);
      RequestsAppend(trace, rest.trace);
      PublicationsAppend(trace, rest.trace);
      assert p.value[1..] == rest.value;
      forall i | 1 <= i < |d| ensures (p.value[i].Some? <==> d[i].1 != JNull) {
        assert p.value[i] == rest.value[i - 1] && d[i] == d[1..][i - 1];
      }
    }
  }

  /**
   * The cleaning keeps, in order, the entries whose command is not `None`: its keys
   * are exactly those, its entries come from the dict, and it keeps keys unique.
   */
  lemma RebuildKeys(d: Commands)
    ensures var r := Rebuild(d);
      && |r| <= |d|
      && (forall i :: 0 <= i < |r| ==> r[i].1 != JNull && r[i] in d)
      && (forall key :: key in Keys(r) <==> exists i :: 0 <= i < |d| && d[i].0 == key && d[i].1 != JNull)
      && (UniqueKeys(d) ==> UniqueKeys(r))
  {
    RebuildShorter(d);
    RebuildEntries(d);
    RebuildKeySet(d);
    if UniqueKeys(d) {
      RebuildUnique(d);
    }
  }

  lemma {:induction false} RebuildEntries(d: Commands)
    ensures forall i :: 0 <= i < |Rebuild(d)| ==> Rebuild(d)[i].1 != JNull && Rebuild(d)[i] in d
  {
    if d != [] {
      var h := if d[0].1 != JNull then [d[0]] else [];
      var rest := Rebuild(d[1..]);
      RebuildEntries(d[1..]);
      var r := h + rest;
      assert Rebuild(d) == r;
      forall i | 0 <= i < |r| ensures r[i].1 != JNull && r[i] in d {
        if i >= |h| {
          assert r[i] == rest[i - |h|] && rest[i - |h|] in d[1..];
        }
      }
    }
  }

  lemma {:induction false} RebuildKeySet(d: Commands)
    ensures forall key :: key in Keys(Rebuild(d)) <==> exists i :: 0 <= i < |d| && d[i].0 == key && d[i].1 != JNull
  {
    if d != [] {
      var h := if d[0].1 != JNull then [d[0]] else [];
      var rest := Rebuild(d[1..]);
      RebuildKeySet(d[1..]);
      KeysAppend(h, rest);
      assert Keys(Rebuild(d)) == Keys(h) + Keys(rest);
      forall key ensures key in Keys(Rebuild(d)) <==> exists i :: 0 <= i < |d| && d[i].0 == key && d[i].1 != JNull {
        if exists i :: 0 <= i < |d| && d[i].0 == key && d[i].1 != JNull {
          var i :| 0 <= i < |d| && d[i].0 == key && d[i].1 != JNull;
          if i > 0 {
            assert d[1..][i - 1].0 == key && d[1..][i - 1].1 != JNull;
            assert key in Keys(rest);
          } else {
            assert Keys(h) == [key];
          }
        }
        if key in Keys(rest) {
          var i :| 0 <= i < |d| - 1 && d[1..][i].0 == key && d[1..][i].1 != JNull;
          assert d[i + 1].0 == key && d[i + 1].1 != JNull;
        }
      }
    }
  }

  lemma {:induction false} RebuildUnique(d: Commands)
    requires UniqueKeys(d)
    ensures UniqueKeys(Rebuild(d))
  {
    if d != [] {
      var rest := Rebuild(d[1..]);
      UniqueTail(d);
      RebuildUnique(d[1..]);
      if d[0].1 != JNull {
        RebuildKeySet(d[1..]);
        KeysIndex(d[1..]);
        forall x | x in Keys(rest) ensures x in Keys(d[1..]) {
          var i :| 0 <= i < |d| - 1 && d[1..][i].0 == x && d[1..][i].1 != JNull;
          assert Keys(d[1..])[i] == x;
        }
        assert Rebuild(d) == [d[0]] + rest;
        UniqueCons(d[0], rest);
      } else {
        assert Rebuild(d) == rest;
      }
    }
  }

  /** The entries kept after marking are entries of the dict. */
  lemma MarkedEntries(d: Commands, vs: seq<Option<Poll>>)
    requires |vs| == |d|
    ensures forall i :: 0 <= i < |Rebuild(Mark(d, vs))| ==> Rebuild(Mark(d, vs))[i] in d
  {
    var m := Mark(d, vs);
    var left := Rebuild(m);
    RebuildKeys(m);
    MarkIndex(d, vs);
    forall i | 0 <= i < |left| ensures left[i] in d {
      var j :| 0 <= j < |m| && m[j] == left[i];
      assert m[j] == d[j];
    }
  }

  lemma {:induction false} RebuildShorter(d: Commands)
    ensures |Rebuild(d)| <= |d|
  {
    if d != [] {
      RebuildShorter(d[1..]);
    }
  }

  /** Marking keeps the stations of the dict, in order. */
  lemma {:induction false} MarkKeys(d: Commands, vs: seq<Option<Poll>>)
    requires |vs| == |d|
    ensures Keys(Mark(d, vs)) == Keys(d)
  {
    if d != [] {
      MarkKeys(d[1..], vs[1..]);
      KeysCons(d);
      KeysCons(Mark(d, vs));
    }
  }

  /**
   * The dict after a pass with polls `vs`: no larger, each station once, and only
   * stations of the dict.
   */
  lemma CleanedKeys(d: Commands, vs: seq<Option<Poll>>)
    requires |vs| == |d| && UniqueKeys(d)
    ensures UniqueKeys(Rebuild(Mark(d, vs))) && |Rebuild(Mark(d, vs))| <= |d|
    ensures forall x :: x in Keys(Rebuild(Mark(d, vs))) ==> x in Keys(d)
  {
    MarkKeys(d, vs);
    MarkedEntries(d, vs);
    KeysOfEntries(Rebuild(Mark(d, vs)), d);
    RebuildKeys(Mark(d, vs));
  }

  lemma CleanedUnique(d: Commands, vs: seq<Option<Poll>>)
    requires |vs| == |d| && UniqueKeys(d)
    ensures UniqueKeys(Rebuild(Mark(d, vs)))
  {
    CleanedKeys(d, vs);
  }

  /**
   * After a pass with polls `vs` (a poll exactly for the entries holding a command),
   * the cleaned dict keeps exactly the entries polled "pending": "done" and "error"
   * entries are dropped, and so are the entries that held no command.
   */
  lemma LeftAfter(d: Commands, vs: seq<Option<Poll>>)
    requires |vs| == |d| && UniqueKeys(d)
    requires forall i :: 0 <= i < |d| ==> (vs[i].Some? <==> d[i].1 != JNull)
    ensures forall i :: 0 <= i < |d| ==>
      (d[i].0 in Keys(Rebuild(Mark(d, vs))) <==> vs[i].Some? && vs[i].value.status == Pending)
  {
    MarkIndex(d, vs);
    KeysIndex(d);
    RebuildKeySet(Mark(d, vs));
    forall i | 0 <= i < |d| ensures (d[i].0 in Keys(Rebuild(Mark(d, vs))) <==> vs[i].Some? && vs[i].value.status == Pending) {
      LeftAfterAt(d, vs, i);
    }
  }

  /** `LeftAfter` for the entry at `i`. */
  lemma LeftAfterAt(d: Commands, vs: seq<Option<Poll>>, i: nat)
    requires |vs| == |d| && UniqueKeys(d) && i < |d|
    requires vs[i].Some? <==> d[i].1 != JNull
    requires forall j :: 0 <= j < |d| ==> Mark(d, vs)[j] == MarkOne(d[j], vs[j])
    requires forall j :: 0 <= j < |d| ==> Keys(d)[j] == d[j].0
    requires forall key :: key in Keys(Rebuild(Mark(d, vs))) <==>
      exists j :: 0 <= j < |Mark(d, vs)| && Mark(d, vs)[j].0 == key && Mark(d, vs)[j].1 != JNull
    ensures d[i].0 in Keys(Rebuild(Mark(d, vs))) <==> vs[i].Some? && vs[i].value.status == Pending
  {
    var m := Mark(d, vs);
    if d[i].0 in Keys(Rebuild(m)) {
      var j :| 0 <= j < |m| && m[j].0 == d[i].0 && m[j].1 != JNull;
      assert m[j].0 == d[j].0;
      NoDupAt(Keys(d), i, j);
    } else {
      assert !(m[i].0 == d[i].0 && m[i].1 != JNull);
    }
  }

  // Publications, as the stations they are keyed by

  /** The stations of the entries polled "done", in dict order. */
  function DoneStations(d: Commands, vs: seq<Option<Poll>>): seq<Json>
    requires |vs| == |d|
  {
    if d == [] then [] else (if IsDone(vs[0]) then [d[0].0] else []) + DoneStations(d[1..], vs[1..])
  }

  /**
   * The publications of a pass with polls `vs` are all on "weather-verified", keyed
   * by the stations polled "done", in dict order.
   */
  lemma {:induction false} DoneMessagesShape(d: Commands, vs: seq<Option<Poll>>)
    requires |vs| == |d|
    ensures AllKeyedOn(DoneMessages(d, vs), VerifiedTopic)
    ensures Stations(DoneMessages(d, vs)) == DoneStations(d, vs)
  {
    if d != [] {
      var h := Published(d[0].0, vs[0]);
      DoneMessagesShape(d[1..], vs[1..]);
      AllKeyedOnAppend(h, DoneMessages(d[1..], vs[1..]), VerifiedTopic);
      StationsAppend(h, DoneMessages(d[1..], vs[1..]));
    }
  }

  /**
   * With each station once in the dict, the stations polled "done" are distinct
   * stations of the dict, none of them left after the pass.
   */
  lemma {:induction false} DoneStationsResolved(d: Commands, vs: seq<Option<Poll>>)
    requires |vs| == |d| && UniqueKeys(d)
    ensures NoDup(DoneStations(d, vs))
    ensures forall x :: x in DoneStations(d, vs) ==> x in Keys(d) && x !in Keys(Rebuild(Mark(d, vs)))
  {
    if d != [] {
      UniqueTail(d);
      DoneStationsResolved(d[1..], vs[1..]);
      CleanedKeys(d[1..], vs[1..]);
      KeysCons(d);
      var m0 := MarkOne(d[0], vs[0]);
      var tail := Rebuild(Mark(d[1..], vs[1..]));
      var kept := if m0.1 != JNull then [m0] else [];
      assert Mark(d, vs) == [m0] + Mark(d[1..], vs[1..]);
      assert ([m0] + Mark(d[1..], vs[1..]))[1..] == Mark(d[1..], vs[1..]);
      assert Rebuild(Mark(d, vs)) == kept + tail;
      KeysAppend(kept, tail);
      var ds := DoneStations(d[1..], vs[1..]);
      assert forall x :: x in ds ==> x != d[0].0;
      if IsDone(vs[0]) {
        assert ([d[0].0] + ds)[1..] == ds;
      } else {
        assert [] + ds == ds;
      }
    }
  }

  /**
   * With each station once in the dict, after a pass with polls `vs`: the dict left
   * holds each station once, only stations of the dict, and none of the stations
   * polled "done", which are distinct stations of the dict.
   */
  lemma PassFacts(d: Commands, vs: seq<Option<Poll>>)
    requires |vs| == |d| && UniqueKeys(d)
    ensures UniqueKeys(Rebuild(Mark(d, vs)))
    ensures forall x :: x in Keys(Rebuild(Mark(d, vs))) ==> x in Keys(d)
    ensures NoDup(DoneStations(d, vs))
    ensures forall x :: x in DoneStations(d, vs) ==> x in Keys(d) && x !in Keys(Rebuild(Mark(d, vs)))
  {
    CleanedKeys(d, vs);
    DoneStationsResolved(d, vs);
  }

  // ---------------------------------------------------------------------------
  // The pass of `process_batch` and the batch
  // ---------------------------------------------------------------------------

  /** One pass of `process_batch`: the polls, then the cleaned dict. */
  function PassResult(d: Commands, api: Api, k: nat): Run<Commands>
  {
    var p := PassFrom(d, api, k);
    Run(Rebuild(Mark(d, p.value)), p.trace, p.next)
  }

  /** The pass `process_batch` runs against `api`. */
  function PassOf(api: Api): Pass
  {
    (d: Commands, k: nat) => PassResult(d, api, k)
  }

  /** One pass of `process_batch` keeps the pass contract of the pass loop. */
  lemma OnePass(d: Commands, api: Api, k: nat)
    ensures PassKeeps(d, k, PassResult(d, api, k))
  {
    var p := PassFrom(d, api, k);
    PassContract(d, api, k);
    DoneMessagesShape(d, p.value);
    MarkedEntries(d, p.value);
    RebuildShorter(Mark(d, p.value));
    if UniqueKeys(d) {
      PassFacts(d, p.value);
    }
  }

  /** Every pass the loop of `process_batch` runs keeps the pass contract, whatever the responses. */
  lemma {:induction false} PassOfKeeps(api: Api, d: Commands, done: nat, k: nat)
    requires done <= MaxPasses
    ensures EveryPassKeeps(d, done, PassOf(api), k)
    decreases MaxPasses - done
  {
    if done < MaxPasses && HasOutstanding(d) {
      var p := PassResult(d, api, k);
      assert PassOf(api)(d, k) == p;
      OnePass(d, api, k);
      PassOfKeeps(api, p.value, done + 1, p.next);
    }
  }

  /** `process_batch`: the creation phase, then, unless it raised, the passes. */
  function BatchSpec(batch: seq<Json>, start: string, end: string, api: Api, k: nat): Run<Outcome<BatchReport>>
  {
    AfterCreation(CreationPhase(batch, start, end, api, k), PassOf(api))
  }

  method DoFetch(sid: Json, cid: Json, api: Api, k: nat) returns (result: Poll, trace: seq<Event>, next: nat)
    ensures Run(result, trace, next) == FetchOne(sid, cid, api, k)
  {
    var fetched;
    result, fetched, next := FetchFileForStation(cid, api, k);
    trace := [Sleep(DelayBetweenRequests)] + fetched;
    if result.status == Done {
      trace := trace + [Publish(VerifiedTopic, Some(sid), VerifiedMessage(sid, result.rows))];
    }
  }

  /**
   * One pass: polls the outstanding entries in order, marks the resolved ones in
   * place, then keeps the entries still holding a command.
   */
  method RunPass(stationCmdIds: Commands, api: Api, k: nat) returns (left: Commands, trace: seq<Event>, next: nat)
    ensures Run(left, trace, next) == PassResult(stationCmdIds, api, k)
  {
    var marked;
    marked, trace, next := stationCmdIds, [], k;
    ghost var done: seq<Option<Poll>> := [];
    assert stationCmdIds[0..] == stationCmdIds;
    ThenNothing(PassFrom(stationCmdIds, api, k));
    for i := 0 to |stationCmdIds|
      invariant |done| == i && |marked| == |stationCmdIds|
      invariant forall j :: 0 <= j < i ==> marked[j] == MarkOne(stationCmdIds[j], done[j])
      invariant forall j :: i <= j < |stationCmdIds| ==> marked[j] == stationCmdIds[j]
      invariant PassFrom(stationCmdIds, api, k) == Then(done, trace, PassFrom(stationCmdIds[i..], api, next))
    {
      assert stationCmdIds[i..][1..] == stationCmdIds[i + 1..];
      var (sid, cid) := stationCmdIds[i];
      if cid == JNull {
        ThenTwice(done, trace, [None], [], PassFrom(stationCmdIds[i + 1..], api, next));
        assert trace + [] == trace;
        done := done + [None];
      } else {
        var status, t, n := DoFetch(sid, cid, api, next);
        ThenTwice(done, trace, [Some(status)], t, PassFrom(stationCmdIds[i + 1..], api, n));
        trace, next := trace + t, n;
        if status.status != Pending {
          marked := marked[i := (sid, JNull)];
        }
        done := done + [Some(status)];
      }
    }
    assert stationCmdIds[|stationCmdIds|..] == [];
    assert done + [] == done && trace + [] == trace;
    MarkIndex(stationCmdIds, done);
    assert marked == Mark(stationCmdIds, done);
    assert PassFrom(stationCmdIds, api, k) == Run(done, trace, next);
    left := Rebuild(marked);
  }

  /** Step 2 of `process_batch`: up to five passes from the dict left by the creation phase. */
  method RunPasses(created: Commands, api: Api, k: nat)
    returns (left: Commands, passes: nat, trace: seq<Event>, next: nat)
    ensures Run((left, passes), trace, next) == PassesFrom(created, 0, PassOf(api), k)
  {
    left, passes, trace, next := created, 0, [], k;
    ghost var whole := PassesFrom(created, 0, PassOf(api), k);
    assert [] + whole.trace == whole.trace;
    for done := 0 to MaxPasses
      invariant passes == done
      invariant whole == After(trace, PassesFrom(left, done, PassOf(api), next))
    {
      if !HasOutstanding(left) {
        PassesIdle(left, done, PassOf(api), next);
        assert whole == Run((left, passes), trace, next);
        return;
      }
      var l, t, n := RunPass(left, api, next);
      assert PassOf(api)(left, next) == Run(l, t, n);
      PassesContinue(whole, trace, left, done, PassOf(api), next, Run(l, t, n));
      left, trace, next := l, trace + t, n;
      passes := done + 1;
      if left == [] {
        return;
      }
      trace := trace + [Sleep(PassPause)];
    }
    PassesIdle(left, passes, PassOf(api), next);
  }

  /** `process_batch`: the creation phase, then the passes. */
  method ProcessBatch(batch: seq<Json>, start: string, end: string, api: Api, k: nat)
    returns (result: Outcome<BatchReport>, trace: seq<Event>, next: nat)
    ensures Run(result, trace, next) == BatchSpec(batch, start, end, api, k)
  {
    var creation;
    creation, trace, next := RunCreationPhase(batch, start, end, api, k);
    if creation.Raised? {
      return Raised, trace, next;
    }
    var left, passes, t, n := RunPasses(creation.value, api, next);
    return Returned(BatchReport(creation.value, left, passes)), trace + t, n;
  }

  /**
   * A batch publishes only on "weather-verified", keyed by station, never the same
   * station twice, and only stations that got a command and are not left at the end;
   * a batch that raises has published nothing.
   */
  lemma BatchPublications(batch: seq<Json>, start: string, end: string, api: Api, k: nat)
    ensures PublishesResolvedOnly(BatchSpec(batch, start, end, api, k))
  {
    var c := CreationPhase(batch, start, end, api, k);
    CreationFacts(batch, start, end, api, k);
    if c.value.Returned? {
      PassOfKeeps(api, c.value.value, 0, c.next);
    }
    CreationThenPublications(c, PassOf(api), k, |batch|);
  }

  /** A batch sends at most three requests per station for its creation and for each pass. */
  lemma BatchRequests(batch: seq<Json>, start: string, end: string, api: Api, k: nat)
    ensures WithinBatchBudget(BatchSpec(batch, start, end, api, k), k, |batch|)
  {
    var c := CreationPhase(batch, start, end, api, k);
    CreationFacts(batch, start, end, api, k);
    if c.value.Returned? {
      PassOfKeeps(api, c.value.value, 0, c.next);
    }
    CreationThenRequests(c, PassOf(api), k, |batch|);
  }

  /**
   * A batch runs at most five passes and stops earlier only once every command is
   * resolved; the dict left holds each station once, with entries of the dict built
   * by the creation phase.
   */
  lemma BatchPasses(batch: seq<Json>, start: string, end: string, api: Api, k: nat)
    ensures Converges(BatchSpec(batch, start, end, api, k))
  {
    var c := CreationPhase(batch, start, end, api, k);
    CreationFacts(batch, start, end, api, k);
    if c.value.Returned? {
      PassOfKeeps(api, c.value.value, 0, c.next);
    }
    CreationThenConverges(c, PassOf(api), k, |batch|);
  }
}
