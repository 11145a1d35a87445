/**
 * The pass loop of `process_batch`: up to five passes over the dict, a 60 s pause
 * after every pass that leaves entries, and an early stop once no entry holds a
 * command.
 *
 * The loop is stated over any pass that keeps the contract below (a budget of
 * requests, a dict that shrinks, publications keyed by resolved stations);
 * `BatchConvergence.PassOfKeeps` shows that the pass of `process_batch` keeps it.
 */
module PassLoop {
  import opened Effects
  import opened StationDict
  import opened RemoteCommands

  const VerifiedTopic: string := "weather-verified"
  const MaxPasses: nat := 5
  const PassPause: nat := 60000

  /** Some entry still has a command: the pass creates at least one task. */
  predicate HasOutstanding(d: Commands) {
    exists i :: 0 <= i < |d| && d[i].1 != JNull
  }

  /** Three requests per entry for one more pass, over a dict no larger. */
  lemma BudgetStep(a: nat, b: nat, x: nat, y: nat, n: nat)
    requires b <= a && x <= MaxAttempts * a && y <= MaxAttempts * b * n
    ensures x + y <= MaxAttempts * a * (n + 1)
  {
    assert b * n <= a * n;
  }

  /** One pass from the dict and the index of its first request: the dict it leaves, its effects, the next index. */
  type Pass = (Commands, nat) -> Run<Commands>

  /**
   * The contract of one pass from the dict `d` at request index `k` with run `r`: at
   * most three requests per entry, counted by the request index; a dict left that
   * holds entries of `d` and no more of them; publications only on
   * "weather-verified", keyed by station; and, when `d` holds each station once, a
   * dict left that does too and publications of distinct stations of `d` that are
   * not in the dict left.
   */
  ghost predicate PassKeeps(d: Commands, k: nat, r: Run<Commands>)
  {
    && k <= r.next && Requests(r.trace) == r.next - k <= MaxAttempts * |d|
    && |r.value| <= |d| && (forall i :: 0 <= i < |r.value| ==> r.value[i] in d)
    && AllKeyedOn(Publications(r.trace), VerifiedTopic)
    && (UniqueKeys(d) ==>
      && UniqueKeys(r.value)
      && NoDup(Stations(Publications(r.trace)))
      && forall x :: x in Stations(Publications(r.trace)) ==> x in Keys(d) && x !in Keys(r.value))
  }

  /** Every pass the loop runs from `d`, once `done` passes have run, keeps the pass contract. */
  ghost predicate EveryPassKeeps(d: Commands, done: nat, passFn: Pass, k: nat)
    requires done <= MaxPasses
    decreases MaxPasses - done
  {
    done == MaxPasses || !HasOutstanding(d) ||
      (PassKeeps(d, k, passFn(d, k)) && EveryPassKeeps(passFn(d, k).value, done + 1, passFn, passFn(d, k).next))
  }

  /**
   * The passes of `passFn` that remain once `done` passes have run, from the dict
   * `d`: the dict left and the number of passes run in all.
   */
  function PassesFrom(d: Commands, done: nat, passFn: Pass, k: nat): Run<(Commands, nat)>
    requires done <= MaxPasses
    decreases MaxPasses - done
  {
    if done == MaxPasses || !HasOutstanding(d) then Run((d, done), [], k)
    else
      var p := passFn(d, k);
      if p.value != [] then After(p.trace + [Sleep(PassPause)], PassesFrom(p.value, done + 1, passFn, p.next))
      else Run((p.value, done + 1), p.trace, p.next)
  }

  /** `n` passes in a row from the dict `d`, each on the dict the previous one left. */
  function PassChain(d: Commands, passFn: Pass, k: nat, n: nat): (ps: seq<Run<Commands>>)
    ensures |ps| == n
    decreases n
  {
    if n == 0 then [] else var p := passFn(d, k); [p] + PassChain(p.value, passFn, p.next, n - 1)
  }

  /** The dict pass `m` of the chain `ps` started from. */
  function DictBefore(ps: seq<Run<Commands>>, d: Commands, m: nat): Commands
    requires m < |ps|
  {
    if m == 0 then d else ps[m - 1].value
  }

  /** The effects of the passes `ps`, each followed by a 60 s pause when it left entries. */
  function Paused(ps: seq<Run<Commands>>): seq<Event>
    decreases |ps|
  {
    if ps == [] then [] else ps[0].trace + (if ps[0].value != [] then [Sleep(PassPause)] else []) + Paused(ps[1..])
  }

  /**
   * The pass loop is the chain of the passes it runs: each on the dict the previous
   * one left, each on a dict with some command outstanding, each followed by a 60 s
   * pause when it left entries; the dict left is the last pass's.
   */
  lemma {:induction false} PassesInOrder(d: Commands, done: nat, passFn: Pass, k: nat)
    requires done <= MaxPasses
    ensures done <= PassesFrom(d, done, passFn, k).value.1
    ensures var r := PassesFrom(d, done, passFn, k);
      var ps := PassChain(d, passFn, k, r.value.1 - done);
      && r.trace == Paused(ps) && r.next == ChainEnd(ps, k)
      && r.value.0 == (if ps == [] then d else ps[|ps| - 1].value)
      && (forall m :: 0 <= m < |ps| ==> HasOutstanding(DictBefore(ps, d, m)))
    decreases MaxPasses - done
  {
    if done < MaxPasses && HasOutstanding(d) {
      var p := passFn(d, k);
      var r := PassesFrom(d, done, passFn, k);
      if p.value != [] {
        var r1 := PassesFrom(p.value, done + 1, passFn, p.next);
        PassesInOrder(p.value, done + 1, passFn, p.next);
        var ps1 := PassChain(p.value, passFn, p.next, r1.value.1 - done - 1);
        assert PassChain(d, passFn, k, r.value.1 - done) == [p] + ps1;
        PassChainCons(p, ps1, d);
      } else {
        assert PassChain(d, passFn, k, 1) == [p] + PassChain(p.value, passFn, p.next, 0);
        PassChainCons(p, [], d);
      }
    }
  }

  /** A chain of passes is its first pass followed by the rest. */
  lemma PassChainCons(p: Run<Commands>, rest: seq<Run<Commands>>, d: Commands)
    requires HasOutstanding(d)
    requires forall m :: 0 <= m < |rest| ==> HasOutstanding(DictBefore(rest, p.value, m))
    ensures ([p] + rest)[1..] == rest
    ensures Paused([p] + rest) == p.trace + (if p.value != [] then [Sleep(PassPause)] else []) + Paused(rest)
    ensures forall k :: ChainEnd([p] + rest, k) == ChainEnd(rest, p.next)
    ensures ([p] + rest)[|rest|].value == (if rest == [] then p.value else rest[|rest| - 1].value)
    ensures forall m :: 0 <= m < |rest| + 1 ==> HasOutstanding(DictBefore([p] + rest, d, m))
  {
    var ps := [p] + rest;
    assert ps[1..] == rest;
    forall m | 0 <= m < |ps| ensures HasOutstanding(DictBefore(ps, d, m)) {
      if m > 0 {
        assert DictBefore(ps, d, m) == DictBefore(rest, p.value, m - 1);
      }
    }
  }

  /** With nothing outstanding, or once the five passes are done, the loop stops. */
  lemma PassesIdle(d: Commands, done: nat, passFn: Pass, k: nat)
    requires done <= MaxPasses && (done == MaxPasses || !HasOutstanding(d))
    ensures PassesFrom(d, done, passFn, k) == Run((d, done), [], k)
  {
  }

  /** A run of passes that performs one more pass, seen after the effects `before`. */
  lemma PassesContinue(whole: Run<(Commands, nat)>, before: seq<Event>, d: Commands, done: nat, passFn: Pass, k: nat, p: Run<Commands>)
    requires done < MaxPasses && HasOutstanding(d) && p == passFn(d, k)
    requires whole == After(before, PassesFrom(d, done, passFn, k))
    ensures p.value == [] ==> whole == Run((p.value, done + 1), before + p.trace, p.next)
    ensures p.value != [] ==> whole == After((before + p.trace) + [Sleep(PassPause)], PassesFrom(p.value, done + 1, passFn, p.next))
  {
    if p.value != [] {
      AfterAfter(before, p.trace + [Sleep(PassPause)], PassesFrom(p.value, done + 1, passFn, p.next));
      assert before + (p.trace + [Sleep(PassPause)]) == (before + p.trace) + [Sleep(PassPause)];
    }
  }

  /**
   * A pass, then the remaining passes from the dict it leaves (none when it leaves
   * nothing): the same outcome, and the effects of the pass followed by theirs.
   */
  lemma PassesUnfold(d: Commands, done: nat, passFn: Pass, k: nat)
    requires done < MaxPasses && HasOutstanding(d)
    ensures var p := passFn(d, k);
      var r := PassesFrom(d, done, passFn, k);
      var rest := PassesFrom(p.value, done + 1, passFn, p.next);
      && r.value == rest.value && r.next == rest.next
      && Publications(r.trace) == Publications(p.trace) + Publications(rest.trace)
      && Requests(r.trace) == Requests(p.trace) + Requests(rest.trace)
  {
    var p := passFn(d, k);
    var rest := PassesFrom(p.value, done + 1, passFn, p.next);
    if p.value != [] {
      PauseBetween(p.trace, PassPause, rest.trace);
    } else {
      assert rest == Run(([], done + 1), [], p.next);
      assert p.trace + rest.trace == p.trace;
    }
  }

  /**
   * The pass loop runs at most five passes, and fewer only when no entry holds a
   * command any more.
   */
  lemma {:induction false} PassesCount(d: Commands, done: nat, passFn: Pass, k: nat)
    requires done <= MaxPasses
    ensures var r := PassesFrom(d, done, passFn, k);
      && done <= r.value.1 <= MaxPasses
      && (r.value.1 < MaxPasses ==> !HasOutstanding(r.value.0))
    decreases MaxPasses - done
  {
    if done < MaxPasses && HasOutstanding(d) {
      var p := passFn(d, k);
      PassesCount(p.value, done + 1, passFn, p.next);
    }
  }

  /** The dict the pass loop leaves is no larger and holds entries of the dict it started from. */
  lemma {:induction false} PassesEntries(d: Commands, done: nat, passFn: Pass, k: nat)
    requires done <= MaxPasses && EveryPassKeeps(d, done, passFn, k)
    ensures var r := PassesFrom(d, done, passFn, k);
      |r.value.0| <= |d| && forall i :: 0 <= i < |r.value.0| ==> r.value.0[i] in d
    decreases MaxPasses - done
  {
    if done < MaxPasses && HasOutstanding(d) {
      var p := passFn(d, k);
      PassesEntries(p.value, done + 1, passFn, p.next);
    }
  }

  /** The dict the pass loop leaves holds each station once, if the dict it started from did. */
  lemma {:induction false} PassesUnique(d: Commands, done: nat, passFn: Pass, k: nat)
    requires done <= MaxPasses && EveryPassKeeps(d, done, passFn, k) && UniqueKeys(d)
    ensures UniqueKeys(PassesFrom(d, done, passFn, k).value.0)
    decreases MaxPasses - done
  {
    if done < MaxPasses && HasOutstanding(d) {
      var p := passFn(d, k);
      PassesUnique(p.value, done + 1, passFn, p.next);
    }
  }

  /** The loop sends at most three requests per entry for each pass it may still run, and `next` counts them. */
  lemma {:induction false} PassesRequests(d: Commands, done: nat, passFn: Pass, k: nat)
    requires done <= MaxPasses && EveryPassKeeps(d, done, passFn, k)
    ensures var r := PassesFrom(d, done, passFn, k);
      k <= r.next && Requests(r.trace) == r.next - k <= MaxAttempts * |d| * (MaxPasses - done)
    decreases MaxPasses - done
  {
    if done < MaxPasses && HasOutstanding(d) {
      var p := passFn(d, k);
      PassesRequests(p.value, done + 1, passFn, p.next);
      RequestsStep(d, done, passFn, k);
    }
  }

  /** The step of `PassesRequests`: this pass within its budget, then the remaining passes within theirs. */
  lemma RequestsStep(d: Commands, done: nat, passFn: Pass, k: nat)
    requires done < MaxPasses && HasOutstanding(d) && EveryPassKeeps(d, done, passFn, k)
    requires var p := passFn(d, k);
      var rest := PassesFrom(p.value, done + 1, passFn, p.next);
      && p.next <= rest.next
      && Requests(rest.trace) == rest.next - p.next <= MaxAttempts * |p.value| * (MaxPasses - (done + 1))
    ensures var r := PassesFrom(d, done, passFn, k);
      k <= r.next && Requests(r.trace) == r.next - k <= MaxAttempts * |d| * (MaxPasses - done)
  {
    var p := passFn(d, k);
    var rest := PassesFrom(p.value, done + 1, passFn, p.next);
    PassesUnfold(d, done, passFn, k);
    BudgetStep(|d|, |p.value|, Requests(p.trace), Requests(rest.trace), MaxPasses - (done + 1));
  }

  /** The pass loop publishes only on "weather-verified", keyed by station. */
  lemma {:induction false} PassesTopic(d: Commands, done: nat, passFn: Pass, k: nat)
    requires done <= MaxPasses && EveryPassKeeps(d, done, passFn, k)
    ensures AllKeyedOn(Publications(PassesFrom(d, done, passFn, k).trace), VerifiedTopic)
    decreases MaxPasses - done
  {
    if done < MaxPasses && HasOutstanding(d) {
      var p := passFn(d, k);
      PassesTopic(p.value, done + 1, passFn, p.next);
      TopicStep(d, done, passFn, k);
    }
  }

  /** The step of `PassesTopic`. */
  lemma TopicStep(d: Commands, done: nat, passFn: Pass, k: nat)
    requires done < MaxPasses && HasOutstanding(d) && EveryPassKeeps(d, done, passFn, k)
    requires var p := passFn(d, k);
      AllKeyedOn(Publications(PassesFrom(p.value, done + 1, passFn, p.next).trace), VerifiedTopic)
    ensures AllKeyedOn(Publications(PassesFrom(d, done, passFn, k).trace), VerifiedTopic)
  {
    var p := passFn(d, k);
    PassesUnfold(d, done, passFn, k);
    AllKeyedOnAppend(Publications(p.trace), Publications(PassesFrom(p.value, done + 1, passFn, p.next).trace), VerifiedTopic);
  }

  /**
   * With each station once in the dict, every station the pass loop publishes is a
   * station of the dict that is not in the dict left at the end.
   */
  lemma {:induction false} PassesResolved(d: Commands, done: nat, passFn: Pass, k: nat)
    requires done <= MaxPasses && UniqueKeys(d) && EveryPassKeeps(d, done, passFn, k)
    ensures var r := PassesFrom(d, done, passFn, k);
      forall x :: x in Stations(Publications(r.trace)) ==> x in Keys(d) && x !in Keys(r.value.0)
    decreases MaxPasses - done
  {
    if done < MaxPasses && HasOutstanding(d) {
      var p := passFn(d, k);
      PassesResolved(p.value, done + 1, passFn, p.next);
      ResolvedStep(d, done, passFn, k);
    }
  }

  /** The step of `PassesResolved`. */
  lemma ResolvedStep(d: Commands, done: nat, passFn: Pass, k: nat)
    requires done < MaxPasses && HasOutstanding(d) && UniqueKeys(d) && EveryPassKeeps(d, done, passFn, k)
    requires var p := passFn(d, k);
      var rest := PassesFrom(p.value, done + 1, passFn, p.next);
      forall x :: x in Stations(Publications(rest.trace)) ==> x in Keys(p.value) && x !in Keys(rest.value.0)
    ensures var r := PassesFrom(d, done, passFn, k);
      forall x :: x in Stations(Publications(r.trace)) ==> x in Keys(d) && x !in Keys(r.value.0)
  {
    var p := passFn(d, k);
    var rest := PassesFrom(p.value, done + 1, passFn, p.next);
    PassesEntries(p.value, done + 1, passFn, p.next);
    KeysOfEntries(rest.value.0, p.value);
    KeysOfEntries(p.value, d);
    PassesUnfold(d, done, passFn, k);
    StationsAppend(Publications(p.trace), Publications(rest.trace));
    StationsResolvedStep(Stations(Publications(p.trace)), Stations(Publications(rest.trace)), Keys(d), Keys(p.value), Keys(rest.value.0));
  }

  /** The stations of this pass, then those of the later passes: all of the dict, none left at the end. */
  lemma StationsResolvedStep(now: seq<Json>, later: seq<Json>, keys: seq<Json>, left: seq<Json>, final: seq<Json>)
    requires forall x :: x in now ==> x in keys && x !in left
    requires forall x :: x in later ==> x in left && x !in final
    requires forall x :: x in left ==> x in keys
    requires forall x :: x in final ==> x in left
    ensures forall x :: x in now + later ==> x in keys && x !in final
  {
  }

  /** With each station once in the dict, the pass loop publishes no station twice. */
  lemma {:induction false} PassesNoDup(d: Commands, done: nat, passFn: Pass, k: nat)
    requires done <= MaxPasses && UniqueKeys(d) && EveryPassKeeps(d, done, passFn, k)
    ensures NoDup(Stations(Publications(PassesFrom(d, done, passFn, k).trace)))
    decreases MaxPasses - done
  {
    if done < MaxPasses && HasOutstanding(d) {
      var p := passFn(d, k);
      PassesNoDup(p.value, done + 1, passFn, p.next);
      NoDupStep(d, done, passFn, k);
    }
  }

  /** The step of `PassesNoDup`. */
  lemma NoDupStep(d: Commands, done: nat, passFn: Pass, k: nat)
    requires done < MaxPasses && HasOutstanding(d) && UniqueKeys(d) && EveryPassKeeps(d, done, passFn, k)
    requires var p := passFn(d, k);
      NoDup(Stations(Publications(PassesFrom(p.value, done + 1, passFn, p.next).trace)))
    ensures NoDup(Stations(Publications(PassesFrom(d, done, passFn, k).trace)))
  {
    var p := passFn(d, k);
    PassesResolved(p.value, done + 1, passFn, p.next);
    NoDupJoinAt(d, done, passFn, k);
  }

  /**
   * A pass that publishes distinct stations, none of them left, then passes that
   * publish distinct stations, all of them left: no station twice.
   */
  lemma NoDupJoinAt(d: Commands, done: nat, passFn: Pass, k: nat)
    requires done < MaxPasses && HasOutstanding(d)
    requires var p := passFn(d, k);
      var now := Stations(Publications(p.trace));
      var later := Stations(Publications(PassesFrom(p.value, done + 1, passFn, p.next).trace));
      && NoDup(now) && NoDup(later)
      && (forall x :: x in now ==> x !in Keys(p.value))
      && (forall x :: x in later ==> x in Keys(p.value))
    ensures NoDup(Stations(Publications(PassesFrom(d, done, passFn, k).trace)))
  {
    var p := passFn(d, k);
    var rest := PassesFrom(p.value, done + 1, passFn, p.next);
    PassesUnfold(d, done, passFn, k);
    StationsAppend(Publications(p.trace), Publications(rest.trace));
    NoDupAppend(Stations(Publications(p.trace)), Stations(Publications(rest.trace)));
  }

  // ---------------------------------------------------------------------------
  // The batch: the creation phase, then the pass loop
  // ---------------------------------------------------------------------------

  /** What a batch ends with: the dict after creation, the dict left, and the passes run. */
  datatype BatchReport = BatchReport(created: Commands, left: Commands, passes: nat)

  /** The creation phase's run `c`, then, unless it raised, the passes from the dict it built. */
  function AfterCreation(c: Run<Outcome<Commands>>, passFn: Pass): Run<Outcome<BatchReport>>
  {
    match c.value
    case Raised => Run(Raised, c.trace, c.next)
    case Returned(created) =>
      var p := PassesFrom(created, 0, passFn, c.next);
      Run(Returned(BatchReport(created, p.value.0, p.value.1)), c.trace + p.trace, p.next)
  }

  /**
   * A creation phase from request index `k` over as many stations as `stations`: at
   * most three requests per station, counted by the request index; no publication;
   * and, unless it raised, a dict holding each station once, no more entries than
   * stations, and a command in every entry.
   */
  predicate CreatedWell(c: Run<Outcome<Commands>>, k: nat, stations: nat)
  {
    && k <= c.next && Requests(c.trace) == c.next - k <= MaxAttempts * stations
    && Publications(c.trace) == []
    && (c.value.Returned? ==>
      && UniqueKeys(c.value.value) && |c.value.value| <= stations
      && forall i :: 0 <= i < |c.value.value| ==> c.value.value[i].1 != JNull)
  }

  /** Every pass the loop runs after the creation phase `c` keeps the pass contract. */
  ghost predicate PassesKeepAfter(c: Run<Outcome<Commands>>, passFn: Pass)
  {
    c.value.Returned? ==> EveryPassKeeps(c.value.value, 0, passFn, c.next)
  }

  /**
   * The publications of a batch are all on "weather-verified", keyed by station, with
   * no station twice, and are of stations of the dict built that are not in the dict
   * left; a batch that raised has published nothing.
   */
  predicate PublishesResolvedOnly(r: Run<Outcome<BatchReport>>)
  {
    && AllKeyedOn(Publications(r.trace), VerifiedTopic)
    && NoDup(Stations(Publications(r.trace)))
    && (r.value.Raised? ==> Publications(r.trace) == [])
    && (r.value.Returned? ==> forall x :: x in Stations(Publications(r.trace)) ==>
          x in Keys(r.value.value.created) && x !in Keys(r.value.value.left))
  }

  /** At most three requests per station for the creation and for each of the five passes, counted by the request index. */
  predicate WithinBatchBudget(r: Run<Outcome<BatchReport>>, k: nat, stations: nat)
  {
    k <= r.next && Requests(r.trace) == r.next - k <= MaxAttempts * stations * (1 + MaxPasses)
  }

  /**
   * At most five passes, fewer only when no entry is left; the dict left holds each
   * station once, with entries of the dict built.
   */
  predicate Converges(r: Run<Outcome<BatchReport>>)
  {
    r.value.Returned? ==>
      var rep := r.value.value;
      && rep.passes <= MaxPasses
      && (rep.passes < MaxPasses ==> rep.left == [])
      && UniqueKeys(rep.left)
      && forall i :: 0 <= i < |rep.left| ==> rep.left[i] in rep.created
  }

  lemma CreationThenPublications(c: Run<Outcome<Commands>>, passFn: Pass, k: nat, stations: nat)
    requires CreatedWell(c, k, stations) && PassesKeepAfter(c, passFn)
    ensures PublishesResolvedOnly(AfterCreation(c, passFn))
  {
    if c.value.Returned? {
      var created := c.value.value;
      var p := PassesFrom(created, 0, passFn, c.next);
      PassesTopic(created, 0, passFn, c.next);
      PassesNoDup(created, 0, passFn, c.next);
      PassesResolved(created, 0, passFn, c.next);
      PublicationsAppend(c.trace, p.trace);
      assert Publications(c.trace + p.trace) == Publications(p.trace);
    }
  }

  lemma CreationThenRequests(c: Run<Outcome<Commands>>, passFn: Pass, k: nat, stations: nat)
    requires CreatedWell(c, k, stations) && PassesKeepAfter(c, passFn)
    ensures WithinBatchBudget(AfterCreation(c, passFn), k, stations)
  {
    if c.value.Returned? {
      var created := c.value.value;
      var p := PassesFrom(created, 0, passFn, c.next);
      PassesRequests(created, 0, passFn, c.next);
      var r := AfterCreation(c, passFn);
      assert r.trace == c.trace + p.trace && r.next == p.next;
      RequestsAppend(c.trace, p.trace);
      BatchBudget(k, c.next, p.next, stations, |created|);
    } else {
      assert AfterCreation(c, passFn) == Run(Raised, c.trace, c.next);
      BatchBudget(k, c.next, c.next, stations, 0);
    }
  }

  lemma CreationThenConverges(c: Run<Outcome<Commands>>, passFn: Pass, k: nat, stations: nat)
    requires CreatedWell(c, k, stations) && PassesKeepAfter(c, passFn)
    ensures Converges(AfterCreation(c, passFn))
  {
    if c.value.Returned? {
      var created := c.value.value;
      var left := PassesFrom(created, 0, passFn, c.next).value.0;
      PassesCount(created, 0, passFn, c.next);
      PassesEntries(created, 0, passFn, c.next);
      PassesUnique(created, 0, passFn, c.next);
      if left != [] {
        assert left[0] in created;
      }
    }
  }

  /**
   * Creation within three requests per station from `k` to `mid`, then five passes
   * within three requests per entry from `mid` to `end`: within the batch budget.
   */
  lemma BatchBudget(k: nat, mid: nat, end: nat, stations: nat, entries: nat)
    requires k <= mid <= end && mid - k <= MaxAttempts * stations
    requires entries <= stations && end - mid <= MaxAttempts * entries * (MaxPasses - 0)
    ensures end - k <= MaxAttempts * stations * (1 + MaxPasses)
  {
  }
}
