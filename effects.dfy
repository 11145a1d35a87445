/**
 * Values and observable effects shared by the two producers.
 *
 * The remote HTTP API is an oracle: the k-th request of a run receives `api(k)`.
 * Every operation of the model returns a `Run`: its Python result, the trace of
 * effects it performed (requests, sleeps, publications on a topic) and the index
 * of the next request, so that operations compose by running one after another.
 */
module Effects {

  datatype Option<+T> = None | Some(value: T)

  /** A decoded JSON value. Python's `None` is `JNull` throughout the model. */
  datatype Json =
    | JNull
    | JBool(b: bool)
    | JNum(n: real)
    | JStr(s: string)
    | JArr(items: seq<Json>)
    | JObj(fields: map<string, Json>)

  /** Python truthiness of a decoded JSON value (`if x:`). */
  predicate Truthy(v: Json) {
    match v
    case JNull => false
    case JBool(b) => b
    case JNum(n) => n != 0.0
    case JStr(s) => s != ""
    case JArr(items) => items != []
    case JObj(fields) => fields != map[]
  }

  /** The remote calls the producers make. */
  datatype Call =
    | CreateCommand(station: Json, start: string, end: string)  // GET /commande-station/horaire
    | FetchFile(command: Json)                                   // GET /commande/fichier
    | StationData(station: Json)                                 // GET /station/infrahoraire-6m

  /**
   * What a request gives back: an `httpx.RequestError`, or a reply with its status
   * code, its text and its body decoded as JSON (`None` when the text is not JSON).
   */
  datatype Response = NetworkError | Reply(status: int, text: string, json: Option<Json>)

  type Api = nat -> Response

  /** Observable effects, in the order they happen. Sleeps are in milliseconds. */
  datatype Event =
    | Request(call: Call)
    | Sleep(ms: nat)
    | Publish(topic: string, key: Option<Json>, value: Json)
    | ReadLatest(topic: string)  // a read of the latest message of a topic

  /** A Python call either returns a value or lets an exception escape. */
  datatype Outcome<+T> = Returned(value: T) | Raised

  /** Result, effects and next request index of one run of an operation. */
  datatype Run<+T> = Run(value: T, trace: seq<Event>, next: nat)

  /** `r` preceded by the effects `prefix`. */
  function After<T>(prefix: seq<Event>, r: Run<T>): (s: Run<T>)
    ensures s.value == r.value && s.next == r.next && s.trace == prefix + r.trace
  {
    Run(r.value, prefix + r.trace, r.next)
  }

  /** The request index after the runs `rs`, started at `k`. */
  function ChainEnd<T>(rs: seq<Run<T>>, k: nat): nat
  {
    if rs == [] then k else rs[|rs| - 1].next
  }

  /** The run `r` continuing results `done` and effects `trace`, unless it raised. */
  function Continued<T>(done: seq<T>, trace: seq<Event>, r: Run<Outcome<seq<T>>>): (s: Run<Outcome<seq<T>>>)
    ensures s.trace == trace + r.trace && s.next == r.next
    ensures s.value.Raised? <==> r.value.Raised?
  {
    Run(if r.value.Raised? then Raised else Returned(done + r.value.value), trace + r.trace, r.next)
  }

  lemma ContinuedTwice<T>(a: seq<T>, t: seq<Event>, b: seq<T>, u: seq<Event>, r: Run<Outcome<seq<T>>>)
    ensures Continued(a, t, Continued(b, u, r)) == Continued(a + b, t + u, r)
  {
    assert t + (u + r.trace) == (t + u) + r.trace;
    if r.value.Returned? {
      assert a + (b + r.value.value) == (a + b) + r.value.value;
    }
  }

  lemma ContinuedNothing<T>(r: Run<Outcome<seq<T>>>)
    ensures Continued([], [], r) == r
  {
    assert [] + r.trace == r.trace;
    if r.value.Returned? {
      assert [] + r.value.value == r.value.value;
    }
  }

  /** The run `r` continuing results `done` and effects `trace`. */
  function Then<T>(done: seq<T>, trace: seq<Event>, r: Run<seq<T>>): (s: Run<seq<T>>)
    ensures s.value == done + r.value && s.trace == trace + r.trace && s.next == r.next
  {
    Run(done + r.value, trace + r.trace, r.next)
  }

  lemma ThenTwice<T>(a: seq<T>, t: seq<Event>, b: seq<T>, u: seq<Event>, r: Run<seq<T>>)
    ensures Then(a, t, Then(b, u, r)) == Then(a + b, t + u, r)
  {
    assert t + (u + r.trace) == (t + u) + r.trace;
    assert a + (b + r.value) == (a + b) + r.value;
  }

  lemma ThenNothing<T>(r: Run<seq<T>>)
    ensures Then([], [], r) == r
  {
    assert [] + r.value == r.value && [] + r.trace == r.trace;
  }

  lemma AfterAfter<T>(a: seq<Event>, b: seq<Event>, r: Run<T>)
    ensures After(a, After(b, r)) == After(a + b, r)
  {
    assert a + (b + r.trace) == (a + b) + r.trace;
  }

  /** The next `n` responses of `api`, from request index `k` on. */
  function Upcoming(api: Api, k: nat, n: nat): (rs: seq<Response>)
    ensures |rs| == n
    ensures forall j :: 0 <= j < n ==> rs[j] == api(k + j)
  {
    seq(n, j requires 0 <= j < n => api(k + j))
  }

  /** Number of requests in a trace. */
  function Requests(trace: seq<Event>): nat
  {
    if trace == [] then 0
    else (if trace[0].Request? then 1 else 0) + Requests(trace[1..])
  }

  lemma {:induction false} RequestsAppend(a: seq<Event>, b: seq<Event>)
    ensures Requests(a + b) == Requests(a) + Requests(b)
  {
    if a != [] {
      assert (a + b)[1..] == a[1..] + b;
      RequestsAppend(a[1..], b);
    } else {
      assert a + b == b;
    }
  }

  /** The publications of a trace, in order. */
  function Publications(trace: seq<Event>): (ps: seq<Event>)
    ensures |ps| <= |trace|
    ensures forall i :: 0 <= i < |ps| ==> ps[i].Publish? && ps[i] in trace
  {
    if trace == [] then []
    else (if trace[0].Publish? then [trace[0]] else []) + Publications(trace[1..])
  }

  lemma {:induction false} PublicationsAppend(a: seq<Event>, b: seq<Event>)
    ensures Publications(a + b) == Publications(a) + Publications(b)
  {
    if a != [] {
      assert (a + b)[1..] == a[1..] + b;
      PublicationsAppend(a[1..], b);
    } else {
      assert a + b == b;
    }
  }

  /** The stations a sequence of publications is keyed by, in order. */
  function Stations(ps: seq<Event>): seq<Json>
  {
    if ps == [] then []
    else (if ps[0].Publish? && ps[0].key.Some? then [ps[0].key.value] else []) + Stations(ps[1..])
  }

  /** Every event is a publication on `topic` keyed by some station. */
  predicate AllKeyedOn(ps: seq<Event>, topic: string)
  {
    ps == [] || (ps[0].Publish? && ps[0].topic == topic && ps[0].key.Some? && AllKeyedOn(ps[1..], topic))
  }

  lemma {:induction false} StationsAppend(a: seq<Event>, b: seq<Event>)
    ensures Stations(a + b) == Stations(a) + Stations(b)
  {
    if a != [] {
      assert (a + b)[1..] == a[1..] + b;
      StationsAppend(a[1..], b);
    } else {
      assert a + b == b;
    }
  }

  lemma {:induction false} AllKeyedOnAppend(a: seq<Event>, b: seq<Event>, topic: string)
    requires AllKeyedOn(a, topic) && AllKeyedOn(b, topic)
    ensures AllKeyedOn(a + b, topic)
  {
    if a != [] {
      assert (a + b)[1..] == a[1..] + b;
      AllKeyedOnAppend(a[1..], b, topic);
    } else {
      assert a + b == b;
    }
  }

  /** The number of occurrences of `e` in a trace. */
  function Count(trace: seq<Event>, e: Event): nat
  {
    if trace == [] then 0
    else (if trace[0] == e then 1 else 0) + Count(trace[1..], e)
  }

  lemma {:induction false} CountAppend(a: seq<Event>, b: seq<Event>, e: Event)
    ensures Count(a + b, e) == Count(a, e) + Count(b, e)
  {
    if a != [] {
      assert (a + b)[1..] == a[1..] + b;
      CountAppend(a[1..], b, e);
    } else {
      assert a + b == b;
    }
  }

  /** A trace without `e` counts no `e`. */
  lemma {:induction false} CountAbsent(trace: seq<Event>, e: Event)
    requires forall i :: 0 <= i < |trace| ==> trace[i] != e
    ensures Count(trace, e) == 0
  {
    if trace != [] {
      CountAbsent(trace[1..], e);
    }
  }

  /** A pause between two runs adds no request and no publication. */
  lemma PauseBetween(a: seq<Event>, ms: nat, b: seq<Event>)
    ensures Publications(a + [Sleep(ms)] + b) == Publications(a) + Publications(b)
    ensures Requests(a + [Sleep(ms)] + b) == Requests(a) + Requests(b)
  {
    PublicationsAppend(a + [Sleep(ms)], b);
    PublicationsAppend(a, [Sleep(ms)]);
    RequestsAppend(a + [Sleep(ms)], b);
    RequestsAppend(a, [Sleep(ms)]);
  }

  /**
   * `station["station_id"]` on an entry of a batch file: a `KeyError` or `TypeError`
   * escapes unless the entry is an object holding that key.
   */
  function StationIdOf(station: Json): (r: Outcome<Json>)
    ensures r.Returned? <==> station.JObj? && "station_id" in station.fields
    ensures r.Returned? ==> r.value == station.fields["station_id"]
  {
    if station.JObj? && "station_id" in station.fields then Returned(station.fields["station_id"]) else Raised
  }

  /** `obj.get(key)` on an object: the value, or `None` when the key is absent. */
  function GetOrNull(fields: map<string, Json>, key: string): (v: Json)
    ensures key in fields ==> v == fields[key]
    ensures key !in fields ==> v == JNull
  {
    if key in fields then fields[key] else JNull
  }

  /** Where the JSON batch file is read: it is missing or corrupt, or it holds a list of batches. */
  datatype Load<+T> = LoadFailed | Loaded(batches: seq<seq<T>>)

  /** 2^n */
  function Pow2(n: nat): nat
  {
    if n == 0 then 1 else 2 * Pow2(n - 1)
  }
}
