/**
 * The observation collector's `main`: each cycle waits for the lock, loads the
 * batches, and processes them in index order, waiting for the lock again before each
 * batch and pausing 60 s between two batches; a failed load or an empty list is
 * followed by a 10 s pause, a completed cycle by a 30 s pause.
 *
 * `process_batch` runs its stations as concurrent tasks; here they run one after
 * another, and the first exception of a station ends the batch, as with `gather`.
 */
module Observer {
  import opened Effects
  import opened StatusLock
  import opened Observations

  const BatchPause: nat := 60000
  const LoadRetryPause: nat := 10000
  const CyclePause: nat := 30000

  // ---------------------------------------------------------------------------
  // process_batch
  // ---------------------------------------------------------------------------

  /** The stations `batch[i..]` of `process_batch`, from request `k`. */
  function BatchFrom(batch: seq<Json>, i: nat, api: Api, k: nat): Run<Outcome<()>>
    requires i <= |batch|
    decreases |batch| - i
  {
    if i == |batch| then Run(Returned(()), [], k)
    else
      var s := StationRun(batch[i], api, k);
      if s.value.Raised? then s else After(s.trace, BatchFrom(batch, i + 1, api, s.next))
  }

  method ProcessBatch(batch: seq<Json>, api: Api, k: nat) returns (outcome: Outcome<()>, trace: seq<Event>, next: nat)
    ensures Run(outcome, trace, next) == BatchFrom(batch, 0, api, k)
  {
    trace, next := [], k;
    var i := 0;
    assert [] + BatchFrom(batch, 0, api, k).trace == BatchFrom(batch, 0, api, k).trace;
    while i < |batch|
      invariant i <= |batch|
      invariant BatchFrom(batch, 0, api, k) == After(trace, BatchFrom(batch, i, api, next))
      decreases |batch| - i
    {
      var o, t, n := FetchAndPublishStationData(batch[i], api, next);
      if o.Raised? {
        return Raised, trace + t, n;
      }
      AfterAfter(trace, t, BatchFrom(batch, i + 1, api, n));
      trace, next, i := trace + t, n, i + 1;
    }
    assert trace + [] == trace;
    outcome := Returned(());
  }

  /** What a run of one station, from request `k`, is known to do. */
  predicate StationFacts(station: Json, k: nat, s: Run<Outcome<()>>)
  {
    && (StationIdOf(station).Raised? ==> s == Run(Raised, [], k))
    && (StationIdOf(station).Returned? ==>
          && k + 1 <= s.next <= k + Retries && Requests(s.trace) == s.next - k
          && AllKeyedOn(Publications(s.trace), RealTimeTopic)
          && (forall x :: x in Stations(Publications(s.trace)) ==> StationIdOf(station) == Returned(x)))
    && WorkOnly(s.trace)
  }

  lemma StationFactsHold(station: Json, api: Api, k: nat)
    ensures StationFacts(station, k, StationRun(station, api, k))
  {
    StationContract(station, api, k);
    StationWorkOnly(station, api, k);
    if StationIdOf(station).Returned? {
      var s := StationRun(station, api, k);
      StationsKeyed(Publications(s.trace), StationIdOf(station).value);
    }
  }

  /** Publications all keyed by `sid` name no other station. */
  lemma {:induction false} StationsKeyed(ps: seq<Event>, sid: Json)
    requires forall j :: 0 <= j < |ps| ==> ps[j].Publish? && ps[j].key == Some(sid)
    ensures forall x :: x in Stations(ps) ==> x == sid
  {
    if ps != [] {
      StationsKeyed(ps[1..], sid);
    }
  }

  /**
   * What a run `r` of the stations `batch[i..]` from request `k` does: at most three
   * requests per station, at least one per station when it returns (each station then
   * had a "station_id"), messages on "weather-real-time" keyed by stations of the batch
   * only, and no lock check and no pause longer than 8 s.
   */
  predicate BatchKeeps(batch: seq<Json>, i: nat, k: nat, r: Run<Outcome<()>>)
    requires i <= |batch|
  {
    && k <= r.next <= k + Retries * (|batch| - i)
    && Requests(r.trace) == r.next - k
    && (r.value.Returned? ==>
          (k + (|batch| - i) <= r.next && forall m :: i <= m < |batch| ==> StationIdOf(batch[m]).Returned?))
    && WorkOnly(r.trace)
    && AllKeyedOn(Publications(r.trace), RealTimeTopic)
    && (forall x :: x in Stations(Publications(r.trace)) ==> exists m :: i <= m < |batch| && StationIdOf(batch[m]) == Returned(x))
  }

  lemma {:induction false} BatchContract(batch: seq<Json>, i: nat, api: Api, k: nat)
    requires i <= |batch|
    ensures BatchKeeps(batch, i, k, BatchFrom(batch, i, api, k))
    decreases |batch| - i
  {
    if i < |batch| {
      var s := StationRun(batch[i], api, k);
      StationFactsHold(batch[i], api, k);
      if s.value.Raised? {
        BatchStops(batch, i, k, s);
      } else {
        BatchContract(batch, i + 1, api, s.next);
        BatchCons(batch, i, k, s, BatchFrom(batch, i + 1, api, s.next));
      }
    } else {
      assert Publications([]) == [];
    }
  }

  /** A station that raises ends the batch. */
  lemma BatchStops(batch: seq<Json>, i: nat, k: nat, s: Run<Outcome<()>>)
    requires i < |batch| && StationFacts(batch[i], k, s) && s.value.Raised?
    ensures BatchKeeps(batch, i, k, s)
  {
    if StationIdOf(batch[i]).Raised? {
      assert Publications(s.trace) == [];
    }
    forall x | x in Stations(Publications(s.trace))
      ensures exists m :: i <= m < |batch| && StationIdOf(batch[m]) == Returned(x)
    {
      assert StationIdOf(batch[i]) == Returned(x);
    }
  }

  /** A station that returns, then the rest of the batch. */
  lemma BatchCons(batch: seq<Json>, i: nat, k: nat, s: Run<Outcome<()>>, rest: Run<Outcome<()>>)
    requires i < |batch| && StationFacts(batch[i], k, s) && s.value.Returned?
    requires BatchKeeps(batch, i + 1, s.next, rest)
    ensures BatchKeeps(batch, i, k, After(s.trace, rest))
  {
    var r := After(s.trace, rest);
    RequestsAppend(s.trace, rest.trace);
    PublicationsAppend(s.trace, rest.trace);
    WorkOnlyAppend(s.trace, rest.trace);
    AllKeyedOnAppend(Publications(s.trace), Publications(rest.trace), RealTimeTopic);
    StationsAppend(Publications(s.trace), Publications(rest.trace));
    IdsCons(batch, i, Stations(Publications(s.trace)), Stations(Publications(rest.trace)));
  }

  /** The stations of the first station's messages, then those of the rest of the batch. */
  lemma IdsCons(batch: seq<Json>, i: nat, now: seq<Json>, later: seq<Json>)
    requires i < |batch|
    requires forall x :: x in now ==> StationIdOf(batch[i]) == Returned(x)
    requires forall x :: x in later ==> exists m :: i + 1 <= m < |batch| && StationIdOf(batch[m]) == Returned(x)
    ensures forall x :: x in now + later ==> exists m :: i <= m < |batch| && StationIdOf(batch[m]) == Returned(x)
  {
    forall x | x in now + later
      ensures exists m :: i <= m < |batch| && StationIdOf(batch[m]) == Returned(x)
    {
      if x in now {
        assert StationIdOf(batch[i]) == Returned(x);
      } else {
        var m :| i + 1 <= m < |batch| && StationIdOf(batch[m]) == Returned(x);
      }
    }
  }

  /** A trace of station work holds no lock check. */
  lemma WorkOnlyNoChecks(trace: seq<Event>)
    requires WorkOnly(trace)
    ensures NoChecks(trace)
  {
  }

  /** Station work neither checks the lock nor takes a pause longer than 8 s. */
  lemma WorkOnlyCount(trace: seq<Event>, e: Event)
    requires WorkOnly(trace) && (e.ReadLatest? || (e.Sleep? && e.ms > 8000))
    ensures Count(trace, e) == 0
  {
    CountAbsent(trace, e);
  }

  // ---------------------------------------------------------------------------
  // main
  // ---------------------------------------------------------------------------

  /**
   * How a cycle of `main` ends: it goes on to the next cycle, an exception escapes
   * `main`, or, in this model, a wait runs out of polls while the lock is held.
   */
  datatype Ending = Finished | Crashed | Stalled

  /** The ending of a cycle whose wait did not return. */
  function Halted(w: Waited): Ending
  {
    if w == StillHeld then Stalled else Crashed
  }

  /** The 60 s pause after batch `i`, unless it is the last. */
  function BetweenBatches(batches: seq<seq<Json>>, i: nat): seq<Event>
  {
    if i + 1 < |batches| then [Sleep(BatchPause)] else []
  }

  /** How a cycle runs one batch from request `k`. */
  type BatchRunner = (seq<Json>, nat) -> Run<Outcome<()>>

  /** `asyncio.run(process_batch(batch))` on the responses of `api`. */
  function BatchOf(api: Api): BatchRunner
  {
    (batch: seq<Json>, k: nat) => BatchFrom(batch, 0, api, k)
  }

  /**
   * The batches `batches[i..]` of a cycle, each run by `run`, from read index `j` and request `k`, each
   * after a wait for the lock, which returns only when the lock is free (the abort
   * when it does not is never taken). The value holds the ending and the next read index.
   */
  function BatchesFrom(batches: seq<seq<Json>>, i: nat, lock: Reads, j: nat, polls: nat, run: BatchRunner, k: nat): Run<(Ending, nat)>
    requires i <= |batches|
    decreases |batches| - i
  {
    if i == |batches| then Run((Finished, j), [], k)
    else
      var w := WaitFrom(lock, j, k, polls);
      if w.value.0 != Freed then Run((Halted(w.value.0), w.value.1), w.trace, k)
      else
        var b := run(batches[i], k);
        if b.value.Raised? then Run((Crashed, w.value.1), w.trace + b.trace, b.next)
        else After(w.trace + b.trace + BetweenBatches(batches, i), BatchesFrom(batches, i + 1, lock, w.value.1, polls, run, b.next))
  }

  /** The three ways one step of the batch loop can go. */
  lemma BatchesUnfold(batches: seq<seq<Json>>, i: nat, lock: Reads, j: nat, polls: nat, run: BatchRunner, k: nat,
                      w: Run<(Waited, nat)>, b: Run<Outcome<()>>)
    requires i < |batches| && w == WaitFrom(lock, j, k, polls) && b == run(batches[i], k)
    ensures w.value.0 != Freed ==> BatchesFrom(batches, i, lock, j, polls, run, k) == Run((Halted(w.value.0), w.value.1), w.trace, k)
    ensures w.value.0 == Freed && b.value.Raised? ==>
      BatchesFrom(batches, i, lock, j, polls, run, k) == Run((Crashed, w.value.1), w.trace + b.trace, b.next)
    ensures w.value.0 == Freed && b.value.Returned? ==>
      BatchesFrom(batches, i, lock, j, polls, run, k)
        == After(w.trace + b.trace + BetweenBatches(batches, i), BatchesFrom(batches, i + 1, lock, w.value.1, polls, run, b.next))
  {
  }

  /** One step of the batch loop: the wait for the lock, then the batch run after it. */
  datatype Step = Step(wait: Run<(Waited, nat)>, batch: Run<Outcome<()>>)

  /**
   * The steps for every batch of `batches[i..]`, each wait from the read index the
   * previous wait stopped at and each batch from the request the previous batch
   * stopped at, whatever the previous step ended with: the reference `BatchesFrom` is
   * checked against.
   */
  function StepChain(batches: seq<seq<Json>>, i: nat, lock: Reads, j: nat, polls: nat, run: BatchRunner, k: nat)
    : (ss: seq<Step>)
    requires i <= |batches|
    ensures |ss| == |batches| - i
    decreases |batches| - i
  {
    if i == |batches| then []
    else
      var w := WaitFrom(lock, j, k, polls);
      var b := run(batches[i], k);
      [Step(w, b)] + StepChain(batches, i + 1, lock, w.value.1, polls, run, b.next)
  }

  /** Every wait of `ss` found the lock free and every batch after it returned. */
  predicate AllGo(ss: seq<Step>) {
    forall m :: 0 <= m < |ss| ==> ss[m].wait.value.0 == Freed && ss[m].batch.value.Returned?
  }

  /** The effects of the steps `ss` for batches `i`, `i + 1`, ...: wait, batch, then the pause between batches. */
  function Laid(ss: seq<Step>, batches: seq<seq<Json>>, i: nat): seq<Event>
    decreases |ss|
  {
    if ss == [] then [] else ss[0].wait.trace + ss[0].batch.trace + BetweenBatches(batches, i) + Laid(ss[1..], batches, i + 1)
  }

  /** Step `m` of the chain waits from where the previous wait stopped and runs batch `i + m` from where the previous batch stopped. */
  lemma {:induction false} StepChainLinks(batches: seq<seq<Json>>, i: nat, lock: Reads, j: nat, polls: nat, run: BatchRunner, k: nat, m: nat)
    requires i + m < |batches|
    ensures var ss := StepChain(batches, i, lock, j, polls, run, k);
      && ss[m].wait == WaitFrom(lock, if m == 0 then j else ss[m - 1].wait.value.1, if m == 0 then k else ss[m - 1].batch.next, polls)
      && ss[m].batch == run(batches[i + m], if m == 0 then k else ss[m - 1].batch.next)
    decreases m
  {
    if m > 0 {
      var w := WaitFrom(lock, j, k, polls);
      var b := run(batches[i], k);
      StepChainLinks(batches, i + 1, lock, w.value.1, polls, run, b.next, m - 1);
    }
  }

  /**
   * The batch loop finishes exactly when, for every batch in order, the wait before
   * it found the lock free and the batch returned. Its trace is then, batch after
   * batch, the wait, the batch, and the 60 s pause unless it is the last batch; the
   * read index and the request index it stops at are the last step's.
   */
  lemma {:induction false} BatchesInOrder(batches: seq<seq<Json>>, i: nat, lock: Reads, j: nat, polls: nat, run: BatchRunner, k: nat)
    requires i <= |batches|
    ensures var r := BatchesFrom(batches, i, lock, j, polls, run, k);
      var ss := StepChain(batches, i, lock, j, polls, run, k);
      && (r.value.0 == Finished <==> AllGo(ss))
      && (r.value.0 == Finished ==>
            && r.trace == Laid(ss, batches, i)
            && r.value.1 == (if ss == [] then j else ss[|ss| - 1].wait.value.1)
            && r.next == (if ss == [] then k else ss[|ss| - 1].batch.next))
    decreases |batches| - i
  {
    if i < |batches| {
      var w := WaitFrom(lock, j, k, polls);
      var b := run(batches[i], k);
      var rest := StepChain(batches, i + 1, lock, w.value.1, polls, run, b.next);
      assert StepChain(batches, i, lock, j, polls, run, k) == [Step(w, b)] + rest;
      StepCons(Step(w, b), rest, batches, i);
      BatchesUnfold(batches, i, lock, j, polls, run, k, w, b);
      if w.value.0 == Freed && b.value.Returned? {
        BatchesInOrder(batches, i + 1, lock, w.value.1, polls, run, b.next);
      }
    }
  }

  /** A chain of steps is its first step followed by the rest. */
  lemma StepCons(s: Step, rest: seq<Step>, batches: seq<seq<Json>>, i: nat)
    ensures ([s] + rest)[0] == s && ([s] + rest)[1..] == rest
    ensures AllGo([s] + rest) <==> s.wait.value.0 == Freed && s.batch.value.Returned? && AllGo(rest)
    ensures Laid([s] + rest, batches, i) == s.wait.trace + s.batch.trace + BetweenBatches(batches, i) + Laid(rest, batches, i + 1)
  {
    var ss := [s] + rest;
    assert ss[1..] == rest;
    if s.wait.value.0 == Freed && s.batch.value.Returned? && AllGo(rest) {
      forall m | 0 <= m < |ss| ensures ss[m].wait.value.0 == Freed && ss[m].batch.value.Returned? {
        if m > 0 { assert ss[m] == rest[m - 1]; }
      }
    }
    if AllGo(ss) {
      assert ss[0] == s;
      forall m | 0 <= m < |rest| ensures rest[m].wait.value.0 == Freed && rest[m].batch.value.Returned? {
        assert rest[m] == ss[m + 1];
      }
    }
  }

  /** One cycle of `main`'s outer loop, from read index `j` and request `k`. */
  function ObserverCycle(load: Load<Json>, lock: Reads, j: nat, polls: nat, api: Api, k: nat): Run<(Ending, nat)>
  {
    var w := WaitFrom(lock, j, k, polls);
    if w.value.0 != Freed then Run((Halted(w.value.0), w.value.1), w.trace, k)
    else if load.LoadFailed? || load.batches == [] then Run((Finished, w.value.1), w.trace + [Sleep(LoadRetryPause)], k)
    else
      var r := BatchesFrom(load.batches, 0, lock, w.value.1, polls, BatchOf(api), k);
      if r.value.0 == Finished then Run(r.value, w.trace + r.trace + [Sleep(CyclePause)], r.next)
      else After(w.trace, r)
  }

  method MainCycle(load: Load<Json>, lock: Reads, j: nat, polls: nat, api: Api, k: nat)
    returns (ending: Ending, readIndex: nat, trace: seq<Event>, next: nat)
    ensures Run((ending, readIndex), trace, next) == ObserverCycle(load, lock, j, polls, api, k)
  {
    var waited, r, wt := WaitUntilLockFree(lock, j, k, polls);
    if waited != Freed {
      return Halted(waited), r, wt, k;
    }
    if load.LoadFailed? || load.batches == [] {
      return Finished, r, wt + [Sleep(LoadRetryPause)], k;
    }
    var batches := load.batches;
    var done: seq<Event> := [];
    readIndex, next := r, k;
    var i := 0;
    assert [] + BatchesFrom(batches, 0, lock, r, polls, BatchOf(api), k).trace == BatchesFrom(batches, 0, lock, r, polls, BatchOf(api), k).trace;
    while i < |batches|
      invariant i <= |batches|
      invariant BatchesFrom(batches, 0, lock, r, polls, BatchOf(api), k) == After(done, BatchesFrom(batches, i, lock, readIndex, polls, BatchOf(api), next))
      decreases |batches| - i
    {
      var freed, r2, t2 := WaitUntilLockFree(lock, readIndex, next, polls);
      BatchesUnfold(batches, i, lock, readIndex, polls, BatchOf(api), next, Run((freed, r2), t2, next), BatchOf(api)(batches[i], next));
      if freed != Freed {
        return Halted(freed), r2, wt + (done + t2), next;
      }
      var o, bt, bn := ProcessBatch(batches[i], api, next);
      assert BatchOf(api)(batches[i], next) == Run(o, bt, bn);
      if o.Raised? {
        return Crashed, r2, wt + (done + (t2 + bt)), bn;
      }
      var pause := BetweenBatches(batches, i);
      AfterAfter(done, t2 + bt + pause, BatchesFrom(batches, i + 1, lock, r2, polls, BatchOf(api), bn));
      done, readIndex, next, i := done + (t2 + bt + pause), r2, bn, i + 1;
    }
    assert done + [] == done;
    return Finished, readIndex, wt + done + [Sleep(CyclePause)], next;
  }

  // ---------------------------------------------------------------------------
  // Every request is sent while the latest lock check read "free"
  // ---------------------------------------------------------------------------

  /** A gated wait that ends on "free", work without lock checks, then a gated rest. */
  lemma GatedCons(wt: seq<Event>, work: seq<Event>, rest: seq<Event>, lock: Reads, j: nat, free: bool, j2: nat, jEnd: nat)
    requires Gated(wt, lock, j, free) && GateAfter(wt, lock, j, free) == (j2, true)
    requires NoChecks(work)
    requires Gated(rest, lock, j2, true) && GateAfter(rest, lock, j2, true).0 == jEnd
    ensures Gated(wt + work + rest, lock, j, free) && GateAfter(wt + work + rest, lock, j, free).0 == jEnd
  {
    GatedNoChecks(work, lock, j2);
    GatedAppend(wt, work, lock, j, free);
    GatedAppend(wt + work, rest, lock, j, free);
  }

  /** The batch loop of a cycle sends every request while the latest lock check read "free". */
  lemma {:induction false} BatchesGated(batches: seq<seq<Json>>, i: nat, lock: Reads, j: nat, polls: nat, run: BatchRunner, k: nat, free: bool)
    requires i <= |batches| && Behaves(run)
    ensures var r := BatchesFrom(batches, i, lock, j, polls, run, k);
      Gated(r.trace, lock, j, free) && GateAfter(r.trace, lock, j, free).0 == r.value.1
    decreases |batches| - i
  {
    var r := BatchesFrom(batches, i, lock, j, polls, run, k);
    if i == |batches| {
      assert r.trace == [] && r.value.1 == j;
    } else {
      var w := WaitFrom(lock, j, k, polls);
      WaitGated(lock, j, k, polls, free);
      if w.value.0 != Freed {
        assert r == Run((Halted(w.value.0), w.value.1), w.trace, k);
      } else {
        var b := run(batches[i], k);
        assert RunFacts(k, b);
        if b.value.Raised? {
          assert r == Run((Crashed, w.value.1), w.trace + b.trace, b.next);
          GatedStep(r, w, b.trace, [], Run((Crashed, w.value.1), [], b.next), lock, j, free);
        } else {
          var rest := BatchesFrom(batches, i + 1, lock, w.value.1, polls, run, b.next);
          BatchesGated(batches, i + 1, lock, w.value.1, polls, run, b.next, true);
          assert r == After(w.trace + b.trace + BetweenBatches(batches, i), rest);
          GatedStep(r, w, b.trace, BetweenBatches(batches, i), rest, lock, j, free);
        }
      }
    }
  }

  /** A wait that found the lock free, a batch, a pause or nothing, then the rest of the loop. */
  lemma GatedStep(r: Run<(Ending, nat)>, w: Run<(Waited, nat)>, bt: seq<Event>, pause: seq<Event>, rest: Run<(Ending, nat)>,
                  lock: Reads, j: nat, free: bool)
    requires Gated(w.trace, lock, j, free) && GateAfter(w.trace, lock, j, free) == (w.value.1, true)
    requires NoChecks(bt) && (pause == [] || pause == [Sleep(BatchPause)])
    requires Gated(rest.trace, lock, w.value.1, true) && GateAfter(rest.trace, lock, w.value.1, true).0 == rest.value.1
    requires r.trace == w.trace + bt + pause + rest.trace && r.value.1 == rest.value.1
    ensures Gated(r.trace, lock, j, free) && GateAfter(r.trace, lock, j, free).0 == r.value.1
  {
    assert NoChecks(pause) by {
      assert pause == [] || pause[1..] == [];
    }
    NoChecksAppend(bt, pause);
    GatedCons(w.trace, bt + pause, rest.trace, lock, j, free, w.value.1, rest.value.1);
    assert w.trace + bt + pause + rest.trace == w.trace + (bt + pause) + rest.trace;
  }

  /**
   * A cycle of the observer sends every request while the latest check of the lock
   * read "free": before the first batch and before each later one it waits for the
   * lock, and a failed load or an empty batch list sends nothing.
   */
  lemma CycleGated(load: Load<Json>, lock: Reads, j: nat, polls: nat, api: Api, k: nat, free: bool)
    ensures Gated(ObserverCycle(load, lock, j, polls, api, k).trace, lock, j, free)
  {
    var c := ObserverCycle(load, lock, j, polls, api, k);
    var w := WaitFrom(lock, j, k, polls);
    WaitGated(lock, j, k, polls, free);
    if w.value.0 == Freed {
      if load.LoadFailed? || load.batches == [] {
        assert c.trace == w.trace + [Sleep(LoadRetryPause)];
        CycleGatedStep(c.trace, w, [], [Sleep(LoadRetryPause)], lock, j, free);
      } else {
        var r := BatchesFrom(load.batches, 0, lock, w.value.1, polls, BatchOf(api), k);
        BatchOfBehaves(api);
        BatchesGated(load.batches, 0, lock, w.value.1, polls, BatchOf(api), k, true);
        var tail := if r.value.0 == Finished then [Sleep(CyclePause)] else [];
        assert c.trace == w.trace + r.trace + tail;
        CycleGatedStep(c.trace, w, r.trace, tail, lock, j, free);
      }
    }
  }

  /** A wait that found the lock free, the batch loop or nothing, then a pause or nothing. */
  lemma CycleGatedStep(ct: seq<Event>, w: Run<(Waited, nat)>, rt: seq<Event>, tail: seq<Event>, lock: Reads, j: nat, free: bool)
    requires Gated(w.trace, lock, j, free) && GateAfter(w.trace, lock, j, free) == (w.value.1, true)
    requires Gated(rt, lock, w.value.1, true)
    requires tail == [] || (|tail| == 1 && tail[0].Sleep?)
    requires ct == w.trace + rt + tail
    ensures Gated(ct, lock, j, free)
  {
    GatedNoChecks([], lock, w.value.1);
    GatedCons(w.trace, [], rt, lock, j, free, w.value.1, GateAfter(rt, lock, w.value.1, true).0);
    assert w.trace + [] + rt == w.trace + rt;
    var ga := GateAfter(w.trace + rt, lock, j, free);
    GatedAppend(w.trace + rt, tail, lock, j, free);
    TailGated(tail, lock, ga.0, ga.1);
  }

  /** A single pause, or nothing, is gated whatever the verdict. */
  lemma TailGated(tail: seq<Event>, lock: Reads, j: nat, free: bool)
    requires tail == [] || (|tail| == 1 && tail[0].Sleep?)
    ensures Gated(tail, lock, j, free)
  {
    assert tail == [] || tail[1..] == [];
  }

  // ---------------------------------------------------------------------------
  // Pauses, lock checks and publications of a cycle
  // ---------------------------------------------------------------------------

  lemma Count4(a: seq<Event>, b: seq<Event>, c: seq<Event>, d: seq<Event>, e: Event)
    ensures Count(a + b + c + d, e) == Count(a, e) + Count(b, e) + Count(c, e) + Count(d, e)
  {
    CountAppend(a + b + c, d, e);
    CountAppend(a + b, c, e);
    CountAppend(a, b, e);
  }

  /**
   * A batch loop that finishes takes exactly one 60 s pause fewer than it has
   * batches, and checks the lock at least once per batch. Where the pauses and the
   * checks fall is stated by `BatchesInOrder`.
   */
  lemma {:induction false} BatchesPauses(batches: seq<seq<Json>>, i: nat, lock: Reads, j: nat, polls: nat, run: BatchRunner, k: nat)
    requires i <= |batches| && Behaves(run)
    ensures var r := BatchesFrom(batches, i, lock, j, polls, run, k);
      r.value.0 == Finished ==>
        && Count(r.trace, Sleep(BatchPause)) == (if i < |batches| then |batches| - i - 1 else 0)
        && Count(r.trace, ReadLatest(StatusTopic)) >= |batches| - i
    decreases |batches| - i
  {
    if i < |batches| {
      var w := WaitFrom(lock, j, k, polls);
      var b := run(batches[i], k);
      BatchesUnfold(batches, i, lock, j, polls, run, k, w, b);
      if w.value.0 == Freed && b.value.Returned? {
        var rest := BatchesFrom(batches, i + 1, lock, w.value.1, polls, run, b.next);
        BatchesPauses(batches, i + 1, lock, w.value.1, polls, run, b.next);
        if rest.value.0 == Finished {
          WaitQuiet(lock, j, k, polls);
          assert RunFacts(k, b);
          PausesCons(w.trace, b.trace, BetweenBatches(batches, i), rest.trace, |batches| - i);
        }
      }
    }
  }

  /** A wait takes no 60 s pause, and one that ends on "free" checked the lock at least once. */
  lemma WaitQuiet(lock: Reads, j: nat, k: nat, polls: nat)
    ensures var w := WaitFrom(lock, j, k, polls);
      && Count(w.trace, Sleep(BatchPause)) == 0
      && (w.value.0 == Freed ==> Count(w.trace, ReadLatest(StatusTopic)) >= 1)
  {
    WaitClosedForm(lock, j, k, polls);
    WaitCounts(lock, j, k, polls, Sleep(BatchPause));
    WaitCounts(lock, j, k, polls, ReadLatest(StatusTopic));
  }

  /** What a run `b` of a batch from request `k` is known to do. */
  predicate RunFacts(k: nat, b: Run<Outcome<()>>)
  {
    && NoChecks(b.trace)
    && k <= b.next && Requests(b.trace) == b.next - k
    && AllKeyedOn(Publications(b.trace), RealTimeTopic)
    && Count(b.trace, Sleep(BatchPause)) == 0 && Count(b.trace, ReadLatest(StatusTopic)) == 0
  }

  /** Every run of `run` keeps `RunFacts`. */
  ghost predicate Behaves(run: BatchRunner)
  {
    forall batch, k :: RunFacts(k, run(batch, k))
  }

  /**
   * A batch checks no lock, takes no 60 s pause, sends one request per request index
   * it uses and publishes keyed messages on "weather-real-time" only.
   */
  lemma BatchBehaves(batch: seq<Json>, api: Api, k: nat)
    ensures RunFacts(k, BatchFrom(batch, 0, api, k))
  {
    var b := BatchFrom(batch, 0, api, k);
    BatchContract(batch, 0, api, k);
    WorkOnlyNoChecks(b.trace);
    WorkOnlyCount(b.trace, Sleep(BatchPause));
    WorkOnlyCount(b.trace, ReadLatest(StatusTopic));
  }

  lemma BatchOfBehaves(api: Api)
    ensures Behaves(BatchOf(api))
  {
    forall batch, k ensures RunFacts(k, BatchOf(api)(batch, k)) {
      BatchBehaves(batch, api, k);
    }
  }

  /** Counts of one wait, one batch, the pause after it and the rest of the loop. */
  lemma PausesCons(wt: seq<Event>, bt: seq<Event>, pause: seq<Event>, rest: seq<Event>, m: nat)
    requires 1 <= m
    requires Count(wt, Sleep(BatchPause)) == 0 && Count(wt, ReadLatest(StatusTopic)) >= 1
    requires Count(bt, Sleep(BatchPause)) == 0 && Count(bt, ReadLatest(StatusTopic)) == 0
    requires pause == if 1 < m then [Sleep(BatchPause)] else []
    requires Count(rest, Sleep(BatchPause)) == (if 1 < m then m - 2 else 0)
    requires Count(rest, ReadLatest(StatusTopic)) >= m - 1
    ensures Count(wt + bt + pause + rest, Sleep(BatchPause)) == m - 1
    ensures Count(wt + bt + pause + rest, ReadLatest(StatusTopic)) >= m
  {
    Count4(wt, bt, pause, rest, Sleep(BatchPause));
    Count4(wt, bt, pause, rest, ReadLatest(StatusTopic));
    assert Count(pause, Sleep(BatchPause)) == (if 1 < m then 1 else 0) by {
      assert pause == [] || pause[1..] == [];
    }
    assert Count(pause, ReadLatest(StatusTopic)) == 0 by {
      assert pause == [] || pause[1..] == [];
    }
  }

  /** The batch loop of a cycle sends one request per request index it uses and publishes only keyed data on "weather-real-time". */
  lemma {:induction false} BatchesEffects(batches: seq<seq<Json>>, i: nat, lock: Reads, j: nat, polls: nat, run: BatchRunner, k: nat)
    requires i <= |batches| && Behaves(run)
    ensures var r := BatchesFrom(batches, i, lock, j, polls, run, k);
      k <= r.next && Requests(r.trace) == r.next - k && AllKeyedOn(Publications(r.trace), RealTimeTopic)
    decreases |batches| - i
  {
    var r := BatchesFrom(batches, i, lock, j, polls, run, k);
    if i == |batches| {
      assert r.trace == [];
    } else {
      var w := WaitFrom(lock, j, k, polls);
      WaitSilent(lock, j, k, polls);
      if w.value.0 != Freed {
        assert r == Run((Halted(w.value.0), w.value.1), w.trace, k);
      } else {
        var b := run(batches[i], k);
        assert RunFacts(k, b);
        if b.value.Raised? {
          assert r == Run((Crashed, w.value.1), w.trace + b.trace, b.next);
          EffectsStep(r, w.trace, b, [], Run((Crashed, w.value.1), [], b.next), k);
        } else {
          var rest := BatchesFrom(batches, i + 1, lock, w.value.1, polls, run, b.next);
          BatchesEffects(batches, i + 1, lock, w.value.1, polls, run, b.next);
          assert r == After(w.trace + b.trace + BetweenBatches(batches, i), rest);
          EffectsStep(r, w.trace, b, BetweenBatches(batches, i), rest, k);
        }
      }
    }
  }

  /** A wait, a batch, a pause or nothing, then the rest of the loop. */
  lemma EffectsStep(r: Run<(Ending, nat)>, wt: seq<Event>, b: Run<Outcome<()>>, pause: seq<Event>, rest: Run<(Ending, nat)>, k: nat)
    requires Requests(wt) == 0 && Publications(wt) == [] && RunFacts(k, b)
    requires pause == [] || pause == [Sleep(BatchPause)]
    requires b.next <= rest.next && Requests(rest.trace) == rest.next - b.next
    requires AllKeyedOn(Publications(rest.trace), RealTimeTopic)
    requires r.trace == wt + b.trace + pause + rest.trace && r.next == rest.next
    ensures k <= r.next && Requests(r.trace) == r.next - k && AllKeyedOn(Publications(r.trace), RealTimeTopic)
  {
    EffectsCons(wt, b.trace, pause, rest.trace);
  }

  /** Effects of a wait, a batch, a pause or nothing, then the rest of the loop. */
  lemma EffectsCons(wt: seq<Event>, bt: seq<Event>, pause: seq<Event>, rest: seq<Event>)
    requires Requests(wt) == 0 && Publications(wt) == []
    requires pause == [] || pause == [Sleep(BatchPause)]
    requires AllKeyedOn(Publications(bt), RealTimeTopic) && AllKeyedOn(Publications(rest), RealTimeTopic)
    ensures Requests(wt + bt + pause + rest) == Requests(bt) + Requests(rest)
    ensures AllKeyedOn(Publications(wt + bt + pause + rest), RealTimeTopic)
  {
    RequestsAppend(wt + bt + pause, rest);
    RequestsAppend(wt + bt, pause);
    RequestsAppend(wt, bt);
    PublicationsAppend(wt + bt + pause, rest);
    PublicationsAppend(wt + bt, pause);
    PublicationsAppend(wt, bt);
    assert Requests(pause) == 0 && Publications(pause) == [] by {
      assert pause == [] || pause[1..] == [];
    }
    assert Publications(wt + bt) == Publications(bt);
    assert Publications(wt + bt + pause) == Publications(bt);
    AllKeyedOnAppend(Publications(bt), Publications(rest), RealTimeTopic);
  }

  /**
   * A cycle whose load failed or found no batches sends nothing and publishes
   * nothing; when the lock was free it ends on the 10 s pause.
   */
  lemma CycleIdle(load: Load<Json>, lock: Reads, j: nat, polls: nat, api: Api, k: nat)
    requires load.LoadFailed? || load.batches == []
    ensures var c := ObserverCycle(load, lock, j, polls, api, k);
      && c.next == k && Requests(c.trace) == 0 && Publications(c.trace) == []
      && (c.value.0 == Finished ==> c.trace != [] && c.trace[|c.trace| - 1] == Sleep(LoadRetryPause))
  {
    var w := WaitFrom(lock, j, k, polls);
    WaitClosedForm(lock, j, k, polls);
    if w.value.0 == Freed {
      PauseBetween(w.trace, LoadRetryPause, []);
      assert w.trace + [Sleep(LoadRetryPause)] + [] == w.trace + [Sleep(LoadRetryPause)];
    }
  }

  /**
   * A cycle that goes through all its batches paused 60 s between each two of them
   * and never after the last, checked the lock before it started and before every
   * batch, and ends on the 30 s pause.
   */
  lemma CycleCompleted(load: Load<Json>, lock: Reads, j: nat, polls: nat, api: Api, k: nat)
    requires load.Loaded? && load.batches != []
    ensures var c := ObserverCycle(load, lock, j, polls, api, k);
      c.value.0 == Finished ==>
        && Count(c.trace, Sleep(BatchPause)) == |load.batches| - 1
        && Count(c.trace, ReadLatest(StatusTopic)) >= |load.batches| + 1
        && c.trace[|c.trace| - 1] == Sleep(CyclePause)
  {
    var w := WaitFrom(lock, j, k, polls);
    if w.value.0 == Freed {
      var r := BatchesFrom(load.batches, 0, lock, w.value.1, polls, BatchOf(api), k);
      if r.value.0 == Finished {
        WaitQuiet(lock, j, k, polls);
        BatchOfBehaves(api);
        BatchesPauses(load.batches, 0, lock, w.value.1, polls, BatchOf(api), k);
        CountAppend(w.trace + r.trace, [Sleep(CyclePause)], Sleep(BatchPause));
        CountAppend(w.trace + r.trace, [Sleep(CyclePause)], ReadLatest(StatusTopic));
        CountAppend(w.trace, r.trace, Sleep(BatchPause));
        CountAppend(w.trace, r.trace, ReadLatest(StatusTopic));
        assert [Sleep(CyclePause)][1..] == [];
      }
    }
  }

  /**
   * A cycle sends one request per request index it uses and publishes only keyed
   * messages on "weather-real-time": the observer never writes the status topic.
   */
  lemma CycleEffects(load: Load<Json>, lock: Reads, j: nat, polls: nat, api: Api, k: nat)
    ensures var c := ObserverCycle(load, lock, j, polls, api, k);
      && k <= c.next && Requests(c.trace) == c.next - k
      && AllKeyedOn(Publications(c.trace), RealTimeTopic)
  {
    var w := WaitFrom(lock, j, k, polls);
    WaitSilent(lock, j, k, polls);
    if w.value.0 == Freed {
      if load.LoadFailed? || load.batches == [] {
        CycleIdle(load, lock, j, polls, api, k);
      } else {
        var r := BatchesFrom(load.batches, 0, lock, w.value.1, polls, BatchOf(api), k);
        BatchOfBehaves(api);
        BatchesEffects(load.batches, 0, lock, w.value.1, polls, BatchOf(api), k);
        var tail := if r.value.0 == Finished then [Sleep(CyclePause)] else [];
        assert ObserverCycle(load, lock, j, polls, api, k) == Run(r.value, w.trace + r.trace + tail, r.next);
        TailEffects(w.trace, r.trace, tail);
      }
    }
  }

  /** A wait sends nothing and publishes nothing. */
  lemma WaitSilent(lock: Reads, j: nat, k: nat, polls: nat)
    ensures var w := WaitFrom(lock, j, k, polls);
      Requests(w.trace) == 0 && Publications(w.trace) == []
  {
    WaitClosedForm(lock, j, k, polls);
  }

  /** Effects of a wait, the batch loop and the pause or nothing after it. */
  lemma TailEffects(wt: seq<Event>, rt: seq<Event>, tail: seq<Event>)
    requires Requests(wt) == 0 && Publications(wt) == []
    requires tail == [] || tail == [Sleep(CyclePause)]
    ensures Requests(wt + rt + tail) == Requests(rt)
    ensures Publications(wt + rt + tail) == Publications(rt)
  {
    RequestsAppend(wt + rt, tail);
    RequestsAppend(wt, rt);
    PublicationsAppend(wt + rt, tail);
    PublicationsAppend(wt, rt);
    assert Requests(tail) == 0 && Publications(tail) == [] by {
      assert tail == [] || tail[1..] == [];
    }
  }
}
