/**
 * The busy/free protocol between the two producers. The climatological producer is
 * the only writer of the status topic; the observation collector reads its latest
 * message before starting and before each batch. A read of the topic sees the log
 * of status messages written so far, and its latest message decides.
 */
module Coordination {
  import opened Effects
  import opened StatusLock
  import opened RetrievalWindow
  import Observations
  import PassLoop
  import Observer
  import ClimateMain

  /** A publication on the status topic. */
  predicate IsStatus(e: Event) {
    e.Publish? && e.topic == StatusTopic
  }

  /** A trace adds nothing to the status log exactly when none of its events is a status publication. */
  lemma {:induction false} StatusLogEmpty(trace: seq<Event>)
    ensures ClimateMain.StatusLog(trace) == [] <==> forall i :: 0 <= i < |trace| ==> !IsStatus(trace[i])
  {
    if trace != [] {
      StatusLogEmpty(trace[1..]);
      if !IsStatus(trace[0]) && (forall i :: 0 <= i < |trace[1..]| ==> !IsStatus(trace[1..][i])) {
        forall i | 0 <= i < |trace| ensures !IsStatus(trace[i]) {
          if i > 0 {
            assert trace[i] == trace[1..][i - 1];
          }
        }
      }
    }
  }

  /** A trace that starts with a status message `v` and holds no other one up to `n` logs `v` alone. */
  lemma OnlyFirst(trace: seq<Event>, n: nat)
    requires 1 <= n <= |trace| && IsStatus(trace[0])
    requires forall i :: 0 < i < n ==> !IsStatus(trace[i])
    ensures ClimateMain.StatusLog(trace[..n]) == [trace[0].value]
  {
    var p := trace[..n];
    assert p[1..] == trace[1..n];
    forall i | 0 <= i < |p[1..]| ensures !IsStatus(p[1..][i]) {
      assert p[1..][i] == trace[i + 1];
    }
    StatusLogEmpty(p[1..]);
  }

  /** "busy" is not "free": the status message "busy" holds the lock. */
  lemma BusyHolds(at: string)
    ensures LockFree(Some(ClimateMain.StatusMessage("busy", at))) == Returned(false)
  {
    LowerIsFree("busy");
    LockFreeCases(Some(ClimateMain.StatusMessage("busy", at)));
  }

  /** The status message "free" releases it. */
  lemma FreeReleases(at: string)
    ensures LockFree(Some(ClimateMain.StatusMessage("free", at))) == Returned(true)
  {
    LowerIsFree("free");
    LockFreeCases(Some(ClimateMain.StatusMessage("free", at)));
  }

  /**
   * In a run of `main`, the busy message comes first, and the only other status
   * message, if any, is the free message at the very end of a completed run.
   */
  lemma MainStatusAt(load: Load<Json>, clock: Clock, busyAt: string, freeAt: string, api: Api, k: nat)
    ensures var m := ClimateMain.MainSpec(load, clock, busyAt, freeAt, api, k);
      && m.trace != [] && m.trace[0] == ClimateMain.Notify("busy", busyAt)
      && forall i :: 0 < i < |m.trace| - (if m.value == ClimateMain.Completed then 1 else 0) ==> !IsStatus(m.trace[i])
  {
    var m := ClimateMain.MainSpec(load, clock, busyAt, freeAt, api, k);
    var h := ClimateMain.Head(busyAt);
    if load.Loaded? && load.batches != [] {
      var (start, end) := GetDynamicDates(clock);
      var r := ClimateMain.BatchesFrom(load.batches, 0, start, end, api, k);
      ClimateMain.MainParts(load, clock, busyAt, freeAt, api, k);
      ClimateMain.BatchesEffects(load.batches, 0, start, end, api, k);
      ClimateMain.StatusLogElsewhere(r.trace, PassLoop.VerifiedTopic);
      StatusLogEmpty(r.trace);
      InsideMain(h, r.trace, if m.value == ClimateMain.Completed then ClimateMain.Tail(freeAt) else [], m.trace);
    }
  }

  /** The busy prefix, a loop without status messages, and the free suffix or nothing. */
  lemma InsideMain(h: seq<Event>, rt: seq<Event>, tail: seq<Event>, t: seq<Event>)
    requires |h| == 2 && !IsStatus(h[1]) && (tail == [] || (|tail| == 2 && !IsStatus(tail[0])))
    requires forall i :: 0 <= i < |rt| ==> !IsStatus(rt[i])
    requires t == h + rt + tail
    ensures forall i :: 0 < i < |t| - (if tail == [] then 0 else 1) ==> !IsStatus(t[i])
  {
    forall i | 0 < i < |t| - (if tail == [] then 0 else 1) ensures !IsStatus(t[i]) {
      if i == 1 {
        assert t[i] == h[1];
      } else if i < 2 + |rt| {
        assert t[i] == rt[i - 2];
      } else {
        assert t[i] == tail[0];
      }
    }
  }

  /**
   * From its busy message until its free message, a run of `main` holds the lock:
   * whatever the status log held before, a check of the lock at any point of the run
   * after the busy message, and before the free message, finds it held.
   */
  lemma HeldDuringMain(load: Load<Json>, clock: Clock, busyAt: string, freeAt: string, api: Api, k: nat, log: seq<Json>, n: nat)
    requires var m := ClimateMain.MainSpec(load, clock, busyAt, freeAt, api, k);
      1 <= n <= |m.trace| - (if m.value == ClimateMain.Completed then 1 else 0)
    ensures var m := ClimateMain.MainSpec(load, clock, busyAt, freeAt, api, k);
      LockFree(Latest(log + ClimateMain.StatusLog(m.trace[..n]))) == Returned(false)
  {
    var m := ClimateMain.MainSpec(load, clock, busyAt, freeAt, api, k);
    MainStatusAt(load, clock, busyAt, freeAt, api, k);
    OnlyFirst(m.trace, n);
    BusyHolds(busyAt);
  }

  /** A completed run of `main` leaves the lock free. */
  lemma ReleasedAfterMain(load: Load<Json>, clock: Clock, busyAt: string, freeAt: string, api: Api, k: nat, log: seq<Json>)
    requires ClimateMain.MainSpec(load, clock, busyAt, freeAt, api, k).value == ClimateMain.Completed
    ensures var m := ClimateMain.MainSpec(load, clock, busyAt, freeAt, api, k);
      LockFree(Latest(log + ClimateMain.StatusLog(m.trace))) == Returned(true)
  {
    ClimateMain.MainStatuses(load, clock, busyAt, freeAt, api, k);
    FreeReleases(freeAt);
  }

  /**
   * A run of `main` that stops at the load or on an escaping exception leaves the lock
   * taken: it never publishes "free".
   */
  lemma HeldAfterEarlyEnd(load: Load<Json>, clock: Clock, busyAt: string, freeAt: string, api: Api, k: nat, log: seq<Json>)
    requires ClimateMain.MainSpec(load, clock, busyAt, freeAt, api, k).value != ClimateMain.Completed
    ensures var m := ClimateMain.MainSpec(load, clock, busyAt, freeAt, api, k);
      LockFree(Latest(log + ClimateMain.StatusLog(m.trace))) == Returned(false)
  {
    ClimateMain.MainStatuses(load, clock, busyAt, freeAt, api, k);
    BusyHolds(busyAt);
  }

  /** The observation collector never writes the status log. */
  lemma ObserverLeavesLog(load: Load<Json>, lock: StatusLock.Reads, j: nat, polls: nat, api: Api, k: nat)
    ensures ClimateMain.StatusLog(Observer.ObserverCycle(load, lock, j, polls, api, k).trace) == []
  {
    Observer.CycleEffects(load, lock, j, polls, api, k);
    ClimateMain.StatusLogElsewhere(Observer.ObserverCycle(load, lock, j, polls, api, k).trace, Observations.RealTimeTopic);
  }

  /**
   * While every check finds the lock held, a cycle of the observation collector sends
   * no request and publishes nothing: it only reads the status topic and waits.
   */
  lemma ObserverYields(load: Load<Json>, lock: StatusLock.Reads, j: nat, polls: nat, api: Api, k: nat)
    requires forall i :: j <= i ==> LockFree(lock(i)) == Returned(false)
    ensures var c := Observer.ObserverCycle(load, lock, j, polls, api, k);
      && c.value.0 == Observer.Stalled && c.next == k
      && Requests(c.trace) == 0 && Publications(c.trace) == []
  {
    var w := WaitFrom(lock, j, k, polls);
    WaitClosedForm(lock, j, k, polls);
  }

  /**
   * The two producers together: while each check of the lock by the observation
   * collector reads the status log as it stood at some point of a run of `main`
   * after its busy message and before its free message, the collector sends no
   * request and publishes nothing.
   */
  lemma ObserverYieldsToMain(load: Load<Json>, clock: Clock, busyAt: string, freeAt: string, api: Api, k: nat,
                             log: seq<Json>, obsLoad: Load<Json>, lock: StatusLock.Reads, j: nat, polls: nat, obsApi: Api, obsK: nat)
    requires var m := ClimateMain.MainSpec(load, clock, busyAt, freeAt, api, k);
      forall i :: j <= i ==> (exists n :: (1 <= n <= |m.trace| - (if m.value == ClimateMain.Completed then 1 else 0)
        && lock(i) == Latest(log + ClimateMain.StatusLog(m.trace[..n]))))
    ensures var c := Observer.ObserverCycle(obsLoad, lock, j, polls, obsApi, obsK);
      && c.value.0 == Observer.Stalled && Requests(c.trace) == 0 && Publications(c.trace) == []
  {
    var m := ClimateMain.MainSpec(load, clock, busyAt, freeAt, api, k);
    forall i | j <= i ensures LockFree(lock(i)) == Returned(false) {
      var n :| 1 <= n <= |m.trace| - (if m.value == ClimateMain.Completed then 1 else 0)
        && lock(i) == Latest(log + ClimateMain.StatusLog(m.trace[..n]));
      HeldDuringMain(load, clock, busyAt, freeAt, api, k, log, n);
    }
    ObserverYields(obsLoad, lock, j, polls, obsApi, obsK);
  }

  /**
   * Once `main` has completed, the observation collector's next wait returns after a
   * single check, without a pause.
   */
  lemma ObserverResumes(load: Load<Json>, clock: Clock, busyAt: string, freeAt: string, api: Api, k: nat,
                        log: seq<Json>, lock: StatusLock.Reads, j: nat, polls: nat, obsK: nat)
    requires ClimateMain.MainSpec(load, clock, busyAt, freeAt, api, k).value == ClimateMain.Completed
    requires lock(j) == Latest(log + ClimateMain.StatusLog(ClimateMain.MainSpec(load, clock, busyAt, freeAt, api, k).trace))
    requires 1 <= polls
    ensures WaitFrom(lock, j, obsK, polls) == Run((Freed, j + 1), [ReadLatest(StatusTopic)], obsK)
  {
    ReleasedAfterMain(load, clock, busyAt, freeAt, api, k, log);
  }
}
