/**
 * The two remote calls of the climatological producer, each an attempt loop of at
 * most three requests: command creation (`create_command_for_station`) and file
 * retrieval (`fetch_file_for_station`).
 *
 * Both loops have the same shape. Each attempt sends one request. A reply is always
 * followed by the 2.5 s pause between requests; a 429 adds a 90 s backoff and goes
 * on to the next attempt, and any other reply ends the loop with a verdict. A
 * network error is followed by a pause of 5 s times the attempt number and goes on
 * to the next attempt. When the three attempts are used up the loop gives its
 * exhausted value.
 */
module RemoteCommands {
  import opened Effects
  import opened CsvRecords

  const DelayBetweenRequests: nat := 2500
  const QuotaBackoff: nat := 90000
  const MaxAttempts: nat := 3
  const CommandKey: string := "elaboreProduitAvecDemandeResponse"
  const ReturnKey: string := "return"

  /** The attempt loop goes on after this response (a network error or a 429). */
  predicate Retried(resp: Response) {
    resp.NetworkError? || resp.status == 429
  }

  /** The effects of one attempt that receives `resp`. */
  function AttemptEvents(call: Call, resp: Response, attempt: nat): (es: seq<Event>)
    ensures |es| >= 2 && es[0] == Request(call)
  {
    match resp
    case NetworkError => [Request(call), Sleep(5000 * attempt)]
    case Reply(status, _, _) =>
      if status == 429 then [Request(call), Sleep(DelayBetweenRequests), Sleep(QuotaBackoff)]
      else [Request(call), Sleep(DelayBetweenRequests)]
  }

  /**
   * Attempts `attempt`, ..., 3 of a loop whose next request is `api(k)`; `decide`
   * turns the reply that ends the loop into its result.
   */
  function Attempts<V>(call: Call, api: Api, k: nat, attempt: nat, decide: Response -> V, exhausted: V): Run<V>
    requires 1 <= attempt
    decreases MaxAttempts + 1 - attempt
  {
    if attempt > MaxAttempts then Run(exhausted, [], k)
    else if Retried(api(k)) then
      After(AttemptEvents(call, api(k), attempt), Attempts(call, api, k + 1, attempt + 1, decide, exhausted))
    else
      Run(decide(api(k)), AttemptEvents(call, api(k), attempt), k + 1)
  }

  /** The effects of consecutive attempts, numbered from `attempt`, receiving `rs`. */
  function Segments(call: Call, rs: seq<Response>, attempt: nat): seq<Event>
  {
    if rs == [] then [] else AttemptEvents(call, rs[0], attempt) + Segments(call, rs[1..], attempt + 1)
  }

  lemma {:induction false} SegmentsAppend(call: Call, rs: seq<Response>, r: Response, attempt: nat)
    ensures Segments(call, rs + [r], attempt) == Segments(call, rs, attempt) + AttemptEvents(call, r, attempt + |rs|)
  {
    if rs == [] {
      assert rs + [r] == [r];
      assert Segments(call, [r], attempt) == AttemptEvents(call, r, attempt) + Segments(call, [], attempt + 1);
    } else {
      var all, tail := rs + [r], rs[1..];
      var head := AttemptEvents(call, rs[0], attempt);
      var last := AttemptEvents(call, r, attempt + |rs|);
      var mid := Segments(call, tail, attempt + 1);
      assert all[0] == rs[0] && all[1..] == tail + [r];
      SegmentsAppend(call, tail, r, attempt + 1);
      assert Segments(call, all, attempt) == head + (mid + last);
      assert head + (mid + last) == (head + mid) + last;
    }
  }

  /** Every request of a trace is immediately followed by a pause. */
  predicate RequestsThenSleep(trace: seq<Event>) {
    forall i :: 0 <= i < |trace| && trace[i].Request? ==> i + 1 < |trace| && trace[i + 1].Sleep?
  }

  lemma RequestsThenSleepAppend(a: seq<Event>, b: seq<Event>)
    requires RequestsThenSleep(a) && RequestsThenSleep(b)
    ensures RequestsThenSleep(a + b)
  {
    forall i | 0 <= i < |a + b| && (a + b)[i].Request?
      ensures i + 1 < |a + b| && (a + b)[i + 1].Sleep?
    {
      if i < |a| {
        assert a[i].Request?;
        assert (a + b)[i + 1] == a[i + 1];
      } else {
        assert b[i - |a|].Request?;
        assert (a + b)[i + 1] == b[i - |a| + 1];
      }
    }
  }

  lemma {:induction false} SegmentsShape(call: Call, rs: seq<Response>, attempt: nat)
    ensures Requests(Segments(call, rs, attempt)) == |rs|
    ensures RequestsThenSleep(Segments(call, rs, attempt))
  {
    if rs != [] {
      var es := AttemptEvents(call, rs[0], attempt);
      SegmentsShape(call, rs[1..], attempt + 1);
      RequestsAppend(es, Segments(call, rs[1..], attempt + 1));
      assert es[1..][1..] == es[2..];
      assert Requests(es) == 1 by {
        NoRequests(es[1..]);
      }
      RequestsThenSleepAppend(es, Segments(call, rs[1..], attempt + 1));
    }
  }

  /** Unfolds one attempt of a loop that has attempts left. */
  lemma AttemptsStep<V>(call: Call, api: Api, k: nat, attempt: nat, decide: Response -> V, exhausted: V)
    requires 1 <= attempt <= MaxAttempts
    ensures Attempts(call, api, k, attempt, decide, exhausted)
      == if Retried(api(k)) then After(AttemptEvents(call, api(k), attempt), Attempts(call, api, k + 1, attempt + 1, decide, exhausted))
         else Run(decide(api(k)), AttemptEvents(call, api(k), attempt), k + 1)
  {
  }

  lemma {:induction false} NoRequests(es: seq<Event>)
    requires forall i :: 0 <= i < |es| ==> !es[i].Request?
    ensures Requests(es) == 0
  {
    if es != [] {
      NoRequests(es[1..]);
    }
  }

  /**
   * Closed form of the run `r` of an attempt loop from attempt `attempt` and request
   * index `k`. It sends `n` requests, at most the attempts left; the trace is the
   * effects of those `n` attempts; every response but the last lets the loop go on;
   * the loop stops before its last attempt only on a reply that ends it; and the
   * result is that reply's verdict, or the exhausted value when every response let
   * the loop go on.
   */
  ghost predicate ClosedForm<V>(r: Run<V>, call: Call, api: Api, k: nat, attempt: nat, decide: Response -> V, exhausted: V)
  {
    var n := r.next - k;
    var rs := Upcoming(api, k, if n < 0 then 0 else n);
    && k <= r.next
    && n <= MaxAttempts + 1 - attempt
    && r.trace == Segments(call, rs, attempt)
    && (forall j :: 0 <= j < n - 1 ==> Retried(rs[j]))
    && (n < MaxAttempts + 1 - attempt ==> n >= 1 && !Retried(rs[n - 1]))
    && r.value == (if n >= 1 && !Retried(rs[n - 1]) then decide(rs[n - 1]) else exhausted)
  }

  lemma {:induction false} AttemptsClosedForm<V>(call: Call, api: Api, k: nat, attempt: nat, decide: Response -> V, exhausted: V)
    requires 1 <= attempt <= MaxAttempts + 1
    ensures ClosedForm(Attempts(call, api, k, attempt, decide, exhausted), call, api, k, attempt, decide, exhausted)
    decreases MaxAttempts + 1 - attempt
  {
    if attempt > MaxAttempts {
      assert Upcoming(api, k, 0) == [];
    } else if Retried(api(k)) {
      AttemptsClosedForm(call, api, k + 1, attempt + 1, decide, exhausted);
      ClosedFormStep(call, api, k, attempt, decide, exhausted);
    } else {
      assert Upcoming(api, k, 1)[1..] == [];
    }
  }

  /** The retried attempt, then the closed form of the rest of the loop. */
  lemma ClosedFormStep<V>(call: Call, api: Api, k: nat, attempt: nat, decide: Response -> V, exhausted: V)
    requires 1 <= attempt <= MaxAttempts && Retried(api(k))
    requires ClosedForm(Attempts(call, api, k + 1, attempt + 1, decide, exhausted), call, api, k + 1, attempt + 1, decide, exhausted)
    ensures ClosedForm(Attempts(call, api, k, attempt, decide, exhausted), call, api, k, attempt, decide, exhausted)
  {
    var rest := Attempts(call, api, k + 1, attempt + 1, decide, exhausted);
    assert Attempts(call, api, k, attempt, decide, exhausted) == After(AttemptEvents(call, api(k), attempt), rest);
    ClosedFormCons(rest, call, api, k, attempt, decide, exhausted);
  }

  /** A retried attempt before a run in closed form gives a run in closed form. */
  lemma ClosedFormCons<V>(rest: Run<V>, call: Call, api: Api, k: nat, attempt: nat, decide: Response -> V, exhausted: V)
    requires 1 <= attempt <= MaxAttempts && Retried(api(k))
    requires ClosedForm(rest, call, api, k + 1, attempt + 1, decide, exhausted)
    ensures ClosedForm(After(AttemptEvents(call, api(k), attempt), rest), call, api, k, attempt, decide, exhausted)
  {
    var r := After(AttemptEvents(call, api(k), attempt), rest);
    var n := rest.next - (k + 1);
    var tail := Upcoming(api, k + 1, n);
    var rs := Upcoming(api, k, n + 1);
    assert r.next - k == n + 1;
    assert rs == [api(k)] + tail;
    assert rs[0] == api(k) && rs[1..] == tail;
    assert r.trace == Segments(call, rs, attempt);
    assert forall j :: 0 <= j < n ==> Retried(rs[j]) by {
      forall j | 0 <= j < n ensures Retried(rs[j]) {
        if j > 0 { assert rs[j] == tail[j - 1]; }
      }
    }
    assert n >= 1 ==> rs[n] == tail[n - 1];
  }

  /** An attempt loop sends one to three requests, and each is followed immediately by a pause. */
  lemma AttemptsBound<V>(call: Call, api: Api, k: nat, decide: Response -> V, exhausted: V)
    ensures var r := Attempts(call, api, k, 1, decide, exhausted);
      && 1 <= Requests(r.trace) == r.next - k <= MaxAttempts
      && RequestsThenSleep(r.trace)
  {
    var r := Attempts(call, api, k, 1, decide, exhausted);
    AttemptsClosedForm(call, api, k, 1, decide, exhausted);
    SegmentsShape(call, Upcoming(api, k, r.next - k), 1);
  }

  lemma {:induction false} NoPublications(es: seq<Event>)
    requires forall i :: 0 <= i < |es| ==> !es[i].Publish?
    ensures Publications(es) == []
  {
    if es != [] {
      NoPublications(es[1..]);
    }
  }

  /** An attempt loop publishes nothing. */
  lemma {:induction false} AttemptsPublishNothing<V>(call: Call, api: Api, k: nat, attempt: nat, decide: Response -> V, exhausted: V)
    requires 1 <= attempt
    ensures Publications(Attempts(call, api, k, attempt, decide, exhausted).trace) == []
    decreases MaxAttempts + 1 - attempt
  {
    if attempt <= MaxAttempts {
      var es := AttemptEvents(call, api(k), attempt);
      NoPublications(es);
      if Retried(api(k)) {
        AttemptsPublishNothing(call, api, k + 1, attempt + 1, decide, exhausted);
        PublicationsAppend(es, Attempts(call, api, k + 1, attempt + 1, decide, exhausted).trace);
      }
    }
  }

  // ---------------------------------------------------------------------------
  // create_command_for_station
  // ---------------------------------------------------------------------------

  /**
   * `resp.json()["elaboreProduitAvecDemandeResponse"]["return"]`: the id, a `KeyError`
   * when either key is missing, or another exception (text that is not JSON, a value
   * that cannot be indexed by a string) that the loop does not catch.
   */
  datatype IdLookup = Found(id: Json) | KeyMissing | Unindexable

  function CommandIdOf(body: Option<Json>): IdLookup
  {
    match body
    case None => Unindexable
    case Some(JObj(outer)) =>
      if CommandKey !in outer then KeyMissing
      else (match outer[CommandKey]
            case JObj(inner) => if ReturnKey in inner then Found(inner[ReturnKey]) else KeyMissing
            case _ => Unindexable)
    case Some(_) => Unindexable
  }

  /**
   * The id is found exactly when the body is an object whose command key holds an
   * object with a "return" key, and it is that value; a `KeyError` exactly when the
   * body is an object lacking the command key, or whose command key holds an object
   * lacking "return".
   */
  lemma CommandIdLookup(body: Option<Json>)
    ensures CommandIdOf(body).Found? <==>
      (&& body.Some? && body.value.JObj? && CommandKey in body.value.fields
       && body.value.fields[CommandKey].JObj? && ReturnKey in body.value.fields[CommandKey].fields)
    ensures CommandIdOf(body).Found? ==> CommandIdOf(body).id == body.value.fields[CommandKey].fields[ReturnKey]
    ensures CommandIdOf(body).KeyMissing? <==>
      (&& body.Some? && body.value.JObj?
       && (CommandKey !in body.value.fields
           || (body.value.fields[CommandKey].JObj? && ReturnKey !in body.value.fields[CommandKey].fields)))
  {
  }

  /** `(None, False)` */
  const Rejected: (Json, bool) := (JNull, false)

  /** The result of the reply that ends the creation loop. */
  function CreateVerdict(resp: Response): Outcome<(Json, bool)>
  {
    if resp.Reply? && resp.status == 202 then
      match CommandIdOf(resp.json)
      case Found(id) => Returned((id, true))
      case KeyMissing => Returned(Rejected)
      case Unindexable => Raised
    else
      // 400, 401, 404 and 500 are logged as errors, any other code as unexpected:
      // both give up at once.
      Returned(Rejected)
  }

  function CreateFrom(station: Json, start: string, end: string, api: Api, k: nat): Run<Outcome<(Json, bool)>>
  {
    Attempts(CreateCommand(station, start, end), api, k, 1, CreateVerdict, Returned(Rejected))
  }

  method CreateCommandForStation(station: Json, start: string, end: string, api: Api, k: nat)
    returns (result: Outcome<(Json, bool)>, trace: seq<Event>, next: nat)
    ensures Run(result, trace, next) == CreateFrom(station, start, end, api, k)
  {
    var call := CreateCommand(station, start, end);
    trace, next := [], k;
    for attempt := 1 to MaxAttempts + 1
      invariant CreateFrom(station, start, end, api, k)
        == After(trace, Attempts(call, api, next, attempt, CreateVerdict, Returned(Rejected)))
    {
      var resp := api(next);
      AttemptsStep(call, api, next, attempt, CreateVerdict, Returned(Rejected));
      AfterAfter(trace, AttemptEvents(call, resp, attempt), Attempts(call, api, next + 1, attempt + 1, CreateVerdict, Returned(Rejected)));
      next := next + 1;
      match resp {
        case NetworkError =>
          trace := trace + [Request(call), Sleep(5000 * attempt)];
        case Reply(status, _, body) =>
          if status == 429 {
            trace := trace + [Request(call), Sleep(DelayBetweenRequests), Sleep(QuotaBackoff)];
          } else if status == 202 {
            trace := trace + [Request(call), Sleep(DelayBetweenRequests)];
            var lookup := CommandIdOf(body);
            assert CreateVerdict(resp) == match lookup
              case Found(id) => Returned((id, true))
              case KeyMissing => Returned(Rejected)
              case Unindexable => Raised;
            if lookup.Found? {
              return Returned((lookup.id, true)), trace, next;
            } else if lookup.KeyMissing? {
              return Returned(Rejected), trace, next;
            } else {
              return Raised, trace, next;
            }
          } else {
            trace := trace + [Request(call), Sleep(DelayBetweenRequests)];
            return Returned(Rejected), trace, next;
          }
      }
    }
    return Returned(Rejected), trace, next;
  }

  /**
   * The creation contract: one to three requests, each followed by a pause, the loop
   * going on exactly while it gets a network error or a 429. The result is `(id, True)`
   * exactly when a 202 carrying the id ends the loop; an exception escapes exactly when
   * a 202 body cannot be indexed; and it is `(None, False)` in every other case: a 202
   * without the key, any code other than 202 and 429, or three retried attempts.
   */
  lemma CreateContract(station: Json, start: string, end: string, api: Api, k: nat)
    ensures var r := CreateFrom(station, start, end, api, k);
      var n := r.next - k;
      var last := api(k + n - 1);
      && 1 <= n == Requests(r.trace) <= MaxAttempts
      && RequestsThenSleep(r.trace)
      && (n < MaxAttempts ==> !Retried(last))
      && (forall j :: 0 <= j < n - 1 ==> Retried(Upcoming(api, k, n)[j]))
      && (forall id :: r.value == Returned((id, true)) <==>
            (!Retried(last) && last.status == 202 && CommandIdOf(last.json) == Found(id)))
      && (r.value.Raised? <==> !Retried(last) && last.status == 202 && CommandIdOf(last.json).Unindexable?)
      && (r.value == Returned(Rejected) <==>
            Retried(last) || last.status != 202 || CommandIdOf(last.json).KeyMissing?)
      && (r.value.Returned? && !r.value.value.1 ==> r.value.value == Rejected)
  {
    var call := CreateCommand(station, start, end);
    AttemptsClosedForm(call, api, k, 1, CreateVerdict, Returned(Rejected));
    AttemptsBound(call, api, k, CreateVerdict, Returned(Rejected));
  }

  /** A first reply 202 with the id: one request, one pause, `(id, True)`. */
  lemma CreateAcceptedAtOnce(station: Json, start: string, end: string, api: Api, k: nat, id: Json)
    requires api(k).Reply? && api(k).status == 202 && CommandIdOf(api(k).json) == Found(id)
    ensures CreateFrom(station, start, end, api, k)
      == Run(Returned((id, true)), [Request(CreateCommand(station, start, end)), Sleep(DelayBetweenRequests)], k + 1)
  {
  }

  /** Three 429 replies use up the three attempts: `(None, False)` after three 90 s backoffs. */
  lemma CreateQuotaExhausted(station: Json, start: string, end: string, api: Api, k: nat)
    requires forall j :: k <= j < k + 3 ==> api(j).Reply? && api(j).status == 429
    ensures var call := CreateCommand(station, start, end);
      var quota := [Request(call), Sleep(DelayBetweenRequests), Sleep(QuotaBackoff)];
      CreateFrom(station, start, end, api, k) == Run(Returned(Rejected), quota + quota + quota, k + 3)
  {
    assert api(k).status == 429 && api(k + 1).status == 429 && api(k + 2).status == 429;
  }

  /** Network errors pause 5 s, 10 s, then 15 s, without the 2.5 s pause, and end in `(None, False)`. */
  lemma CreateNetworkExhausted(station: Json, start: string, end: string, api: Api, k: nat)
    requires forall j :: k <= j < k + 3 ==> api(j).NetworkError?
    ensures var call := CreateCommand(station, start, end);
      CreateFrom(station, start, end, api, k)
        == Run(Returned(Rejected), [Request(call), Sleep(5000), Request(call), Sleep(10000), Request(call), Sleep(15000)], k + 3)
  {
    assert api(k).NetworkError? && api(k + 1).NetworkError? && api(k + 2).NetworkError?;
  }

  // ---------------------------------------------------------------------------
  // fetch_file_for_station
  // ---------------------------------------------------------------------------

  /** The status strings "done", "pending" and "error". */
  datatype PollStatus = Done | Pending | Failed

  /** The pair `(rows or None, status)`. */
  datatype Poll = Poll(rows: Option<seq<Row>>, status: PollStatus)

  /** How the reply that ends the retrieval loop is read: a 201 with its CSV text, or a status. */
  datatype FileReply = FileReady(text: string) | FileMissing | FileError

  function FileVerdict(resp: Response): FileReply
  {
    if resp.Reply? && resp.status == 201 then FileReady(resp.text)
    else if resp.Reply? && (resp.status == 204 || resp.status == 404) then FileMissing
    else
      // 401, 410, 500 and 507 are logged as errors, any other code as unexpected.
      FileError
  }

  /** The pair the retrieval returns for the way its loop ended. */
  function PollOf(f: FileReply): Poll
  {
    match f
    case FileReady(text) => Poll(Some(CsvTable(text, ';')), Done)
    case FileMissing => Poll(None, Pending)
    case FileError => Poll(None, Failed)
  }

  function FetchAttempts(command: Json, api: Api, k: nat): Run<FileReply>
  {
    Attempts(FetchFile(command), api, k, 1, FileVerdict, FileError)
  }

  function FetchFrom(command: Json, api: Api, k: nat): Run<Poll>
  {
    var r := FetchAttempts(command, api, k);
    Run(PollOf(r.value), r.trace, r.next)
  }

  /** The attempt loop of the retrieval, up to the reply that ends it. */
  method AwaitFile(command: Json, api: Api, k: nat)
    returns (reply: FileReply, trace: seq<Event>, next: nat)
    ensures Run(reply, trace, next) == FetchAttempts(command, api, k)
  {
    var call := FetchFile(command);
    trace, next := [], k;
    for attempt := 1 to MaxAttempts + 1
      invariant FetchAttempts(command, api, k) == After(trace, Attempts(call, api, next, attempt, FileVerdict, FileError))
    {
      var resp := api(next);
      AttemptsStep(call, api, next, attempt, FileVerdict, FileError);
      AfterAfter(trace, AttemptEvents(call, resp, attempt), Attempts(call, api, next + 1, attempt + 1, FileVerdict, FileError));
      next := next + 1;
      match resp {
        case NetworkError =>
          trace := trace + [Request(call), Sleep(5000 * attempt)];
        case Reply(status, text, _) =>
          if status == 429 {
            trace := trace + [Request(call), Sleep(DelayBetweenRequests), Sleep(QuotaBackoff)];
          } else {
            trace := trace + [Request(call), Sleep(DelayBetweenRequests)];
            if status == 201 {
              return FileReady(text), trace, next;
            } else if status == 204 || status == 404 {
              return FileMissing, trace, next;
            } else {
              return FileError, trace, next;
            }
          }
      }
    }
    return FileError, trace, next;
  }

  /**
   * The retrieval: the loop, then on a 201 the rows of the reply's text; the reading
   * has no effect of its own, so it may follow the loop instead of sitting in it.
   */
  method FetchFileForStation(command: Json, api: Api, k: nat)
    returns (result: Poll, trace: seq<Event>, next: nat)
    ensures Run(result, trace, next) == FetchFrom(command, api, k)
  {
    var reply;
    reply, trace, next := AwaitFile(command, api, k);
    match reply {
      case FileReady(text) =>
        var rowsAsDict := CsvToDicts(text, ';');
        result := Poll(Some(rowsAsDict), Done);
      case FileMissing =>
        result := Poll(None, Pending);
      case FileError =>
        result := Poll(None, Failed);
    }
  }

  /**
   * The retrieval contract: one to three requests, each followed by a pause; rows are
   * present exactly when the status is "done", which happens exactly when a 201 ends
   * the loop, the rows then being that reply's text read as CSV; "pending" exactly
   * when a 204 or 404 ends it; "error" otherwise, including when the attempts run out.
   */
  lemma FetchContract(command: Json, api: Api, k: nat)
    ensures var r := FetchFrom(command, api, k);
      var n := r.next - k;
      var last := api(k + n - 1);
      && 1 <= n == Requests(r.trace) <= MaxAttempts
      && RequestsThenSleep(r.trace)
      && (n < MaxAttempts ==> !Retried(last))
      && (r.value.rows.Some? <==> r.value.status == Done)
      && (r.value.status == Done <==> last.Reply? && last.status == 201)
      && (r.value.status == Done ==> last.Reply? && r.value.rows == Some(CsvTable(last.text, ';')))
      && (r.value.status == Pending <==> !Retried(last) && (last.status == 204 || last.status == 404))
      && (forall j :: 0 <= j < n - 1 ==> Retried(Upcoming(api, k, n)[j]))
  {
    var call := FetchFile(command);
    AttemptsClosedForm(call, api, k, 1, FileVerdict, FileError);
    AttemptsBound(call, api, k, FileVerdict, FileError);
  }

  /** A retrieval sends one to three requests and publishes nothing. */
  lemma FetchQuiet(command: Json, api: Api, k: nat)
    ensures var r := FetchFrom(command, api, k);
      && k < r.next && Requests(r.trace) == r.next - k <= MaxAttempts
      && Publications(r.trace) == []
  {
    FetchContract(command, api, k);
    AttemptsPublishNothing(FetchFile(command), api, k, 1, FileVerdict, FileError);
  }

  /** A first reply 204: one request, one pause, `(None, "pending")`. */
  lemma FetchPendingAtOnce(command: Json, api: Api, k: nat)
    requires api(k).Reply? && api(k).status == 204
    ensures FetchFrom(command, api, k) == Run(Poll(None, Pending), [Request(FetchFile(command)), Sleep(DelayBetweenRequests)], k + 1)
  {
  }

  /** A 429, a network error, then a 201: a third request whose CSV is the result. */
  lemma FetchAfterQuotaAndNetwork(command: Json, api: Api, k: nat)
    requires api(k).Reply? && api(k).status == 429
    requires api(k + 1).NetworkError?
    requires api(k + 2).Reply? && api(k + 2).status == 201
    ensures var call := FetchFile(command);
      FetchFrom(command, api, k)
        == Run(Poll(Some(CsvTable(api(k + 2).text, ';')), Done),
               [Request(call), Sleep(DelayBetweenRequests), Sleep(QuotaBackoff),
                Request(call), Sleep(10000),
                Request(call), Sleep(DelayBetweenRequests)], k + 3)
  {
  }
}
