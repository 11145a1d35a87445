/**
 * The climatological producer's `main`: it takes the lock by publishing "busy" on
 * the status topic, pauses 60 s for the quotas, loads the batches, computes the
 * retrieval window once, processes the batches in order with a 60 s pause between
 * two of them, pauses 60 s again and releases the lock by publishing "free".
 *
 * The two `utcnow()` timestamps are parameters, as is the clock the window is
 * computed from; the batch file is a `Load`.
 */
module ClimateMain {
  import opened Effects
  import opened StatusLock
  import opened RetrievalWindow
  import opened PassLoop
  import opened RemoteCommands
  import BatchConvergence

  const QuotaPause: nat := 60000
  const BatchGap: nat := 60000

  /** `{"status": status, "timestamp": at}` */
  function StatusMessage(status: string, at: string): (m: Json)
    ensures m.JObj? && "status" in m.fields && m.fields["status"] == JStr(status)
  {
    JObj(map["status" := JStr(status), "timestamp" := JStr(at)])
  }

  /** `notify_observation_busy` / `notify_observation_resume`: an unkeyed message on the status topic. */
  function Notify(status: string, at: string): Event
  {
    Publish(StatusTopic, None, StatusMessage(status, at))
  }

  /** How `main` ends. */
  datatype Ending =
    | LoadAborted   // the batch file could not be loaded
    | NoBatches     // it held an empty list
    | Completed     // every batch was processed and "free" was published
    | Crashed       // an exception escaped a batch, and with it `main`

  /** The 60 s pause after batch `i`, unless it is the last. */
  function Gap(batches: seq<seq<Json>>, i: nat): seq<Event>
  {
    if i + 1 < |batches| then [Sleep(BatchGap)] else []
  }

  /** The batches `batches[i..]`, in order, each run by `asyncio.run(process_batch(...))`, from request `k`. */
  function BatchesFrom(batches: seq<seq<Json>>, i: nat, start: string, end: string, api: Api, k: nat): Run<Outcome<()>>
    requires i <= |batches|
    decreases |batches| - i
  {
    if i == |batches| then Run(Returned(()), [], k)
    else
      var b := BatchConvergence.BatchSpec(batches[i], start, end, api, k);
      if b.value.Raised? then Run(Raised, b.trace, b.next)
      else After(b.trace + Gap(batches, i), BatchesFrom(batches, i + 1, start, end, api, b.next))
  }

  /**
   * The runs of every batch of `batches[i..]`, each from the request after the previous
   * one's last, whether or not an earlier one raised: the reference `BatchesFrom` is
   * checked against.
   */
  function BatchChain(batches: seq<seq<Json>>, i: nat, start: string, end: string, api: Api, k: nat)
    : (rs: seq<Run<Outcome<BatchReport>>>)
    requires i <= |batches|
    ensures |rs| == |batches| - i
    decreases |batches| - i
  {
    if i == |batches| then []
    else
      var b := BatchConvergence.BatchSpec(batches[i], start, end, api, k);
      [b] + BatchChain(batches, i + 1, start, end, api, b.next)
  }

  /** The effects of the runs `rs` of batches `i`, `i + 1`, ..., each followed by its gap. */
  function Spaced(rs: seq<Run<Outcome<BatchReport>>>, batches: seq<seq<Json>>, i: nat): seq<Event>
    decreases |rs|
  {
    if rs == [] then [] else rs[0].trace + Gap(batches, i) + Spaced(rs[1..], batches, i + 1)
  }

  /** Each run of the chain is its batch, started where the previous run stopped. */
  lemma {:induction false} BatchChainLinks(batches: seq<seq<Json>>, i: nat, start: string, end: string, api: Api, k: nat, m: nat)
    requires i + m < |batches|
    ensures var rs := BatchChain(batches, i, start, end, api, k);
      rs[m] == BatchConvergence.BatchSpec(batches[i + m], start, end, api, if m == 0 then k else rs[m - 1].next)
    decreases m
  {
    if m > 0 {
      var b := BatchConvergence.BatchSpec(batches[i], start, end, api, k);
      BatchChainLinks(batches, i + 1, start, end, api, b.next, m - 1);
    }
  }

  /**
   * The batch loop runs the batches in order, each from where the previous one
   * stopped, with a 60 s pause between two batches and none after the last. It returns
   * exactly when every batch returns; otherwise it stops with the first batch that
   * raises.
   */
  lemma BatchesInOrder(batches: seq<seq<Json>>, i: nat, start: string, end: string, api: Api, k: nat)
    requires i <= |batches|
    ensures var r := BatchesFrom(batches, i, start, end, api, k);
      var rs := BatchChain(batches, i, start, end, api, k);
      && (r.value.Returned? <==> AllReturned(rs))
      && (r.value.Returned? ==> r.trace == Spaced(rs, batches, i) && r.next == ChainEnd(rs, k))
    ensures var r := BatchesFrom(batches, i, start, end, api, k);
      var rs := BatchChain(batches, i, start, end, api, k);
      forall m :: 0 <= m < |rs| && rs[m].value.Raised? && AllReturned(rs[..m]) ==>
        r.trace == Spaced(rs[..m], batches, i) + rs[m].trace && r.next == rs[m].next
  {
    BatchesReturnInOrder(batches, i, start, end, api, k);
    var rs := BatchChain(batches, i, start, end, api, k);
    forall m | 0 <= m < |rs| && rs[m].value.Raised? && AllReturned(rs[..m])
      ensures BatchesFrom(batches, i, start, end, api, k).trace == Spaced(rs[..m], batches, i) + rs[m].trace
      ensures BatchesFrom(batches, i, start, end, api, k).next == rs[m].next
    {
      BatchesStopAt(batches, i, start, end, api, k, m);
    }
  }

  /** Every run of `rs` returned. */
  predicate AllReturned(rs: seq<Run<Outcome<BatchReport>>>) {
    forall m :: 0 <= m < |rs| ==> rs[m].value.Returned?
  }

  lemma {:induction false} BatchesReturnInOrder(batches: seq<seq<Json>>, i: nat, start: string, end: string, api: Api, k: nat)
    requires i <= |batches|
    ensures var r := BatchesFrom(batches, i, start, end, api, k);
      var rs := BatchChain(batches, i, start, end, api, k);
      && (r.value.Returned? <==> AllReturned(rs))
      && (r.value.Returned? ==> r.trace == Spaced(rs, batches, i) && r.next == ChainEnd(rs, k))
    decreases |batches| - i
  {
    if i < |batches| {
      var b := BatchConvergence.BatchSpec(batches[i], start, end, api, k);
      var rest := BatchChain(batches, i + 1, start, end, api, b.next);
      var rs := [b] + rest;
      assert BatchChain(batches, i, start, end, api, k) == rs;
      ChainCons(b, rest);
      if b.value.Returned? {
        BatchesReturnInOrder(batches, i + 1, start, end, api, b.next);
      }
    }
  }

  /** A chain is its first run followed by the rest. */
  lemma ChainCons(b: Run<Outcome<BatchReport>>, rest: seq<Run<Outcome<BatchReport>>>)
    ensures ([b] + rest)[0] == b && ([b] + rest)[1..] == rest
    ensures AllReturned([b] + rest) <==> b.value.Returned? && AllReturned(rest)
    ensures forall k :: ChainEnd([b] + rest, k) == ChainEnd(rest, b.next)
  {
    var rs := [b] + rest;
    if b.value.Returned? && AllReturned(rest) {
      forall m | 0 <= m < |rs| ensures rs[m].value.Returned? {
        if m > 0 { assert rs[m] == rest[m - 1]; }
      }
    }
    if AllReturned(rs) {
      forall m | 0 <= m < |rest| ensures rest[m].value.Returned? { assert rest[m] == rs[m + 1]; }
    }
  }

  lemma {:induction false} BatchesStopAt(batches: seq<seq<Json>>, i: nat, start: string, end: string, api: Api, k: nat, m: nat)
    requires i <= |batches|
    requires var rs := BatchChain(batches, i, start, end, api, k);
      m < |rs| && rs[m].value.Raised? && AllReturned(rs[..m])
    ensures var r := BatchesFrom(batches, i, start, end, api, k);
      var rs := BatchChain(batches, i, start, end, api, k);
      r.trace == Spaced(rs[..m], batches, i) + rs[m].trace && r.next == rs[m].next
    decreases m
  {
    var b := BatchConvergence.BatchSpec(batches[i], start, end, api, k);
    var rest := BatchChain(batches, i + 1, start, end, api, b.next);
    assert BatchChain(batches, i, start, end, api, k) == [b] + rest;
    ChainCons(b, rest);
    if m == 0 {
      assert ([b] + rest)[..0] == [] && b.value.Raised?;
      assert BatchesFrom(batches, i, start, end, api, k) == Run(Raised, b.trace, b.next);
    } else {
      StopCons(b, rest, m, batches, i);
      var r' := BatchesFrom(batches, i + 1, start, end, api, b.next);
      BatchesStopAt(batches, i + 1, start, end, api, b.next, m - 1);
      assert BatchesFrom(batches, i, start, end, api, k) == After(b.trace + Gap(batches, i), r');
      Regroup(b.trace, Gap(batches, i), Spaced(rest[..m - 1], batches, i + 1), rest[m - 1].trace);
    }
  }

  lemma Regroup(a: seq<Event>, b: seq<Event>, c: seq<Event>, d: seq<Event>)
    ensures a + b + (c + d) == (a + b + c) + d
  {
  }

  /** A batch that stops after the first run: the rest of the chain stops one run earlier. */
  lemma StopCons(b: Run<Outcome<BatchReport>>, rest: seq<Run<Outcome<BatchReport>>>, m: nat, batches: seq<seq<Json>>, i: nat)
    requires 0 < m <= |rest| && AllReturned(([b] + rest)[..m])
    ensures b.value.Returned? && ([b] + rest)[m] == rest[m - 1] && AllReturned(rest[..m - 1])
    ensures Spaced(([b] + rest)[..m], batches, i) == b.trace + Gap(batches, i) + Spaced(rest[..m - 1], batches, i + 1)
  {
    var rs := [b] + rest;
    assert rs[..m][0] == b && rs[..m][1..] == rest[..m - 1];
    var pre := rest[..m - 1];
    forall m2 | 0 <= m2 < |pre| ensures pre[m2].value.Returned? {
      assert pre[m2] == rs[..m][m2 + 1];
    }
  }

  /** One run of `main`, from request `k`. */
  function MainSpec(load: Load<Json>, clock: Clock, busyAt: string, freeAt: string, api: Api, k: nat): Run<Ending>
  {
    var head := Head(busyAt);
    if load.LoadFailed? then Run(LoadAborted, head, k)
    else if load.batches == [] then Run(NoBatches, head, k)
    else
      var (start, end) := GetDynamicDates(clock);
      var r := BatchesFrom(load.batches, 0, start, end, api, k);
      if r.value.Raised? then Run(Crashed, head + r.trace, r.next)
      else Run(Completed, head + r.trace + Tail(freeAt), r.next)
  }

  method RunCycle(load: Load<Json>, clock: Clock, busyAt: string, freeAt: string, api: Api, k: nat)
    returns (ending: Ending, trace: seq<Event>, next: nat)
    ensures Run(ending, trace, next) == MainSpec(load, clock, busyAt, freeAt, api, k)
  {
    trace, next := Head(busyAt), k;
    if load.LoadFailed? {
      return LoadAborted, trace, next;
    }
    var batches := load.batches;
    if batches == [] {
      return NoBatches, trace, next;
    }
    var (start, end) := GetDynamicDates(clock);
    var head := trace;
    ghost var whole := BatchesFrom(batches, 0, start, end, api, k);
    var done: seq<Event> := [];
    assert [] + whole.trace == whole.trace;
    for i := 0 to |batches|
      invariant whole == After(done, BatchesFrom(batches, i, start, end, api, next))
      invariant trace == head + done
    {
      var result, t, n := BatchConvergence.ProcessBatch(batches[i], start, end, api, next);
      if result.Raised? {
        return Crashed, head + (done + t), n;
      }
      var gap := Gap(batches, i);
      AfterAfter(done, t + gap, BatchesFrom(batches, i + 1, start, end, api, n));
      done, next := done + (t + gap), n;
      trace := head + done;
    }
    assert done + [] == done;
    trace := trace + Tail(freeAt);
    ending := Completed;
  }

  // ---------------------------------------------------------------------------
  // What a run of main publishes and sends
  // ---------------------------------------------------------------------------

  /** The messages a trace publishes on the status topic, in order. */
  function StatusLog(trace: seq<Event>): seq<Json>
  {
    if trace == [] then []
    else (if trace[0].Publish? && trace[0].topic == StatusTopic then [trace[0].value] else []) + StatusLog(trace[1..])
  }

  lemma {:induction false} StatusLogAppend(a: seq<Event>, b: seq<Event>)
    ensures StatusLog(a + b) == StatusLog(a) + StatusLog(b)
  {
    if a != [] {
      assert (a + b)[1..] == a[1..] + b;
      StatusLogAppend(a[1..], b);
    } else {
      assert a + b == b;
    }
  }

  /** Publications that are all on another topic than the status topic add nothing to its log. */
  lemma {:induction false} StatusLogElsewhere(trace: seq<Event>, topic: string)
    requires topic != StatusTopic && AllKeyedOn(Publications(trace), topic)
    ensures StatusLog(trace) == []
  {
    if trace != [] {
      var ps := Publications(trace);
      if trace[0].Publish? {
        assert ps == [trace[0]] + Publications(trace[1..]);
        assert ps[1..] == Publications(trace[1..]);
        assert AllKeyedOn(ps[1..], topic);
      } else {
        assert ps == Publications(trace[1..]);
      }
      StatusLogElsewhere(trace[1..], topic);
    }
  }

  /** The stations of `batches[i..]`, added up. */
  function StationTotal(batches: seq<seq<Json>>, i: nat): nat
    requires i <= |batches|
    decreases |batches| - i
  {
    if i == |batches| then 0 else |batches[i]| + StationTotal(batches, i + 1)
  }

  /**
   * The batch loop publishes only on "weather-verified", keyed by station, and sends
   * at most three requests per station for the creation phase and for each of the
   * five passes, counted by the request index.
   */
  lemma {:induction false} BatchesEffects(batches: seq<seq<Json>>, i: nat, start: string, end: string, api: Api, k: nat)
    requires i <= |batches|
    ensures var r := BatchesFrom(batches, i, start, end, api, k);
      && k <= r.next && Requests(r.trace) == r.next - k
      && r.next - k <= MaxAttempts * (1 + MaxPasses) * StationTotal(batches, i)
      && AllKeyedOn(Publications(r.trace), VerifiedTopic)
    decreases |batches| - i
  {
    if i < |batches| {
      var b := BatchConvergence.BatchSpec(batches[i], start, end, api, k);
      BatchConvergence.BatchPublications(batches[i], start, end, api, k);
      BatchConvergence.BatchRequests(batches[i], start, end, api, k);
      if b.value.Returned? {
        var rest := BatchesFrom(batches, i + 1, start, end, api, b.next);
        BatchesEffects(batches, i + 1, start, end, api, b.next);
        GapCons(b.trace, Gap(batches, i), rest.trace);
        BudgetCons(k, b.next, rest.next, |batches[i]|, StationTotal(batches, i + 1));
      }
    } else {
      assert Publications([]) == [];
    }
  }

  /** A batch, the pause after it, then the rest of the loop. */
  lemma GapCons(bt: seq<Event>, gap: seq<Event>, rest: seq<Event>)
    requires gap == [] || gap == [Sleep(BatchGap)]
    requires AllKeyedOn(Publications(bt), VerifiedTopic) && AllKeyedOn(Publications(rest), VerifiedTopic)
    ensures Requests(bt + gap + rest) == Requests(bt) + Requests(rest)
    ensures AllKeyedOn(Publications(bt + gap + rest), VerifiedTopic)
  {
    RequestsAppend(bt + gap, rest);
    RequestsAppend(bt, gap);
    PublicationsAppend(bt + gap, rest);
    PublicationsAppend(bt, gap);
    assert Requests(gap) == 0 && Publications(gap) == [] by {
      assert gap == [] || gap[1..] == [];
    }
    assert Publications(bt + gap) == Publications(bt);
    AllKeyedOnAppend(Publications(bt), Publications(rest), VerifiedTopic);
  }

  lemma BudgetCons(k: nat, mid: nat, end: nat, here: nat, later: nat)
    requires k <= mid <= end
    requires mid - k <= MaxAttempts * here * (1 + MaxPasses)
    requires end - mid <= MaxAttempts * (1 + MaxPasses) * later
    ensures end - k <= MaxAttempts * (1 + MaxPasses) * (here + later)
  {
  }

  /** The busy message and the 60 s pause `main` starts with. */
  function Head(busyAt: string): seq<Event>
  {
    [Notify("busy", busyAt), Sleep(QuotaPause)]
  }

  /** The 60 s pause and the free message a completed `main` ends with. */
  function Tail(freeAt: string): seq<Event>
  {
    [Sleep(QuotaPause), Notify("free", freeAt)]
  }

  /** The prefix sends nothing and publishes the busy message only. */
  lemma HeadFacts(busyAt: string)
    ensures Requests(Head(busyAt)) == 0
    ensures Publications(Head(busyAt)) == [Notify("busy", busyAt)]
    ensures StatusLog(Head(busyAt)) == [StatusMessage("busy", busyAt)]
  {
    var h := Head(busyAt);
    assert h[1..][1..] == [];
    assert Requests(h[1..]) == Requests(h[1..][1..]) && StatusLog(h[1..]) == StatusLog(h[1..][1..]);
  }

  /** The suffix sends nothing and publishes the free message only. */
  lemma TailFacts(freeAt: string)
    ensures Requests(Tail(freeAt)) == 0
    ensures Publications(Tail(freeAt)) == [Notify("free", freeAt)]
    ensures StatusLog(Tail(freeAt)) == [StatusMessage("free", freeAt)]
  {
    var h := Tail(freeAt);
    assert h[1..][1..] == [];
    assert Requests(h[1..]) == Requests(h[1..][1..]);
    assert StatusLog(h[1..]) == [StatusMessage("free", freeAt)] + StatusLog(h[1..][1..]);
  }

  /**
   * How a loaded, non-empty run of `main` is made up: "busy" and a wait, the batches in
   * order with a 60 s pause between two of them, then a wait and "free" exactly when
   * every batch returned. Otherwise it crashes with the first batch that raises.
   */
  lemma MainParts(load: Load<Json>, clock: Clock, busyAt: string, freeAt: string, api: Api, k: nat)
    requires load.Loaded? && load.batches != []
    ensures var m := MainSpec(load, clock, busyAt, freeAt, api, k);
      var r := BatchesFrom(load.batches, 0, GetDynamicDates(clock).0, GetDynamicDates(clock).1, api, k);
      && m.next == r.next
      && (m.value == Completed <==> r.value.Returned?)
      && (m.value == Completed || m.value == Crashed)
      && m.trace == Head(busyAt) + r.trace + (if m.value == Completed then Tail(freeAt) else [])
    ensures var m := MainSpec(load, clock, busyAt, freeAt, api, k);
      var rs := BatchChain(load.batches, 0, GetDynamicDates(clock).0, GetDynamicDates(clock).1, api, k);
      && (m.value == Completed <==> AllReturned(rs))
      && (m.value == Completed ==>
            m.trace == Head(busyAt) + Spaced(rs, load.batches, 0) + Tail(freeAt) && m.next == ChainEnd(rs, k))
      && (forall j :: 0 <= j < |rs| && rs[j].value.Raised? && AllReturned(rs[..j]) ==>
            m.trace == Head(busyAt) + (Spaced(rs[..j], load.batches, 0) + rs[j].trace) && m.next == rs[j].next)
  {
    var (start, end) := GetDynamicDates(clock);
    var r := BatchesFrom(load.batches, 0, start, end, api, k);
    var rs := BatchChain(load.batches, 0, start, end, api, k);
    BatchesReturnInOrder(load.batches, 0, start, end, api, k);
    if r.value.Raised? {
      assert Head(busyAt) + r.trace + [] == Head(busyAt) + r.trace;
      forall j | 0 <= j < |rs| && rs[j].value.Raised? && AllReturned(rs[..j])
        ensures r.trace == Spaced(rs[..j], load.batches, 0) + rs[j].trace && r.next == rs[j].next
      {
        BatchesStopAt(load.batches, 0, start, end, api, k, j);
      }
    }
  }

  /**
   * `main` publishes "busy" on the status topic before anything else. Its status
   * log is "busy" then "free" when every batch was processed, and "busy" alone
   * otherwise: a failed load, an empty batch list or an escaping exception leave the
   * lock taken.
   */
  lemma MainStatuses(load: Load<Json>, clock: Clock, busyAt: string, freeAt: string, api: Api, k: nat)
    ensures var m := MainSpec(load, clock, busyAt, freeAt, api, k);
      && m.trace != [] && m.trace[0] == Notify("busy", busyAt)
      && StatusLog(m.trace) == [StatusMessage("busy", busyAt)] + (if m.value == Completed then [StatusMessage("free", freeAt)] else [])
      && (m.value == Completed ==> m.trace[|m.trace| - 1] == Notify("free", freeAt))
  {
    HeadFacts(busyAt);
    if load.Loaded? && load.batches != [] {
      var m := MainSpec(load, clock, busyAt, freeAt, api, k);
      var r := BatchesFrom(load.batches, 0, GetDynamicDates(clock).0, GetDynamicDates(clock).1, api, k);
      MainParts(load, clock, busyAt, freeAt, api, k);
      BatchesEffects(load.batches, 0, GetDynamicDates(clock).0, GetDynamicDates(clock).1, api, k);
      StatusLogElsewhere(r.trace, VerifiedTopic);
      var tail := if m.value == Completed then Tail(freeAt) else [];
      TailFacts(freeAt);
      assert StatusLog(tail) == (if m.value == Completed then [StatusMessage("free", freeAt)] else []);
      StatusLogAppend(Head(busyAt), r.trace);
      StatusLogAppend(Head(busyAt) + r.trace, tail);
    }
  }

  /**
   * A run of `main` sends one request per request index it uses; one that stops at
   * the load sends none and is over after the busy message and the pause. Every
   * message it publishes is on the status topic or on "weather-verified".
   */
  lemma MainEffects(load: Load<Json>, clock: Clock, busyAt: string, freeAt: string, api: Api, k: nat)
    ensures var m := MainSpec(load, clock, busyAt, freeAt, api, k);
      && k <= m.next && Requests(m.trace) == m.next - k
      && (m.value == LoadAborted || m.value == NoBatches ==> m.next == k && |m.trace| == 2)
      && (forall i :: 0 <= i < |Publications(m.trace)| ==>
            Publications(m.trace)[i].topic == VerifiedTopic || Publications(m.trace)[i].topic == StatusTopic)
  {
    HeadFacts(busyAt);
    if load.Loaded? && load.batches != [] {
      var m := MainSpec(load, clock, busyAt, freeAt, api, k);
      var r := BatchesFrom(load.batches, 0, GetDynamicDates(clock).0, GetDynamicDates(clock).1, api, k);
      MainParts(load, clock, busyAt, freeAt, api, k);
      BatchesEffects(load.batches, 0, GetDynamicDates(clock).0, GetDynamicDates(clock).1, api, k);
      TailFacts(freeAt);
      HeadTail(Head(busyAt), r.trace, if m.value == Completed then Tail(freeAt) else []);
    }
  }

  /** Requests and topics of the busy prefix, the batch loop and the free suffix or nothing. */
  lemma HeadTail(head: seq<Event>, rt: seq<Event>, tail: seq<Event>)
    requires Requests(head) == 0 && Requests(tail) == 0
    requires forall i :: 0 <= i < |Publications(head)| ==> Publications(head)[i].topic == StatusTopic
    requires forall i :: 0 <= i < |Publications(tail)| ==> Publications(tail)[i].topic == StatusTopic
    requires AllKeyedOn(Publications(rt), VerifiedTopic)
    ensures Requests(head + rt + tail) == Requests(rt)
    ensures forall i :: 0 <= i < |Publications(head + rt + tail)| ==>
      Publications(head + rt + tail)[i].topic == VerifiedTopic || Publications(head + rt + tail)[i].topic == StatusTopic
  {
    RequestsAppend(head + rt, tail);
    RequestsAppend(head, rt);
    PublicationsAppend(head + rt, tail);
    PublicationsAppend(head, rt);
    KeyedTopics(Publications(rt), VerifiedTopic);
  }

  /** Every event of an all-keyed sequence is on its topic. */
  lemma {:induction false} KeyedTopics(ps: seq<Event>, topic: string)
    requires AllKeyedOn(ps, topic)
    ensures forall i :: 0 <= i < |ps| ==> ps[i].Publish? && ps[i].topic == topic
  {
    if ps != [] {
      KeyedTopics(ps[1..], topic);
      assert forall i :: 1 <= i < |ps| ==> ps[i] == ps[1..][i - 1];
    }
  }
}
