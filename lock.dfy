/**
 * The lock the two producers share: the latest message of the topic
 * "climatologique-status". The observation collector reads it before every cycle
 * and every batch (`check_latest_lock_status`, `wait_until_lock_free`); the
 * climatological producer writes "busy" and "free" messages to it.
 *
 * A read of the topic is an oracle: the j-th read of a run gives `lock(j)`, the
 * latest message then (`None` when the topic is empty or could not be read).
 */
module StatusLock {
  import opened Effects

  const StatusTopic: string := "climatologique-status"
  const LockPoll: nat := 5000

  type Reads = nat -> Option<Json>

  function LowerChar(c: char): char
  {
    if 'A' <= c <= 'Z' then (c as int + 32) as char else c
  }

  /** `str.lower()` on ASCII letters. */
  function Lower(s: string): (r: string)
    ensures |r| == |s|
    ensures forall i :: 0 <= i < |s| ==> r[i] == LowerChar(s[i])
  {
    if s == [] then [] else [LowerChar(s[0])] + Lower(s[1..])
  }

  /** A lower-case letter is the lowering of itself and of its capital, and of nothing else. */
  lemma LowerCharIs(c: char, lo: char, up: char)
    requires 'a' <= lo <= 'z' && up as int == lo as int - 32
    ensures LowerChar(c) == lo <==> c == lo || c == up
  {
  }

  /** Four characters spell "free" exactly when each of them does. */
  lemma SpellsFree(l: string)
    ensures l == "free" <==> |l| == 4 && l[0] == 'f' && l[1] == 'r' && l[2] == 'e' && l[3] == 'e'
  {
  }

  /** A status reads "free" whatever the case of each of its letters. */
  lemma LowerIsFree(s: string)
    ensures Lower(s) == "free" <==>
      |s| == 4 && (s[0] == 'f' || s[0] == 'F') && (s[1] == 'r' || s[1] == 'R')
      && (s[2] == 'e' || s[2] == 'E') && (s[3] == 'e' || s[3] == 'E')
  {
    SpellsFree(Lower(s));
    if |s| == 4 {
      LowerCharIs(s[0], 'f', 'F');
      LowerCharIs(s[1], 'r', 'R');
      LowerCharIs(s[2], 'e', 'E');
      LowerCharIs(s[3], 'e', 'E');
    }
  }

  /** The latest message of a topic holding the messages `log`, oldest first. */
  function Latest(log: seq<Json>): (m: Option<Json>)
    ensures m.None? <==> log == []
    ensures log != [] ==> m.value == log[|log| - 1]
  {
    if log == [] then None else Some(log[|log| - 1])
  }

  /**
   * Messages written later hide the earlier ones: after more messages, the latest is
   * the last of them, and writing none leaves it unchanged.
   */
  lemma LatestAppend(log: seq<Json>, more: seq<Json>)
    ensures Latest(log + more) == if more == [] then Latest(log) else Latest(more)
    ensures forall v :: Latest(log + [v]) == Some(v)
  {
    if more == [] {
      assert log + more == log;
    } else {
      assert (log + more)[|log + more| - 1] == more[|more| - 1];
    }
  }

  /**
   * `status_msg and status_msg.get("status", "").lower() == "free"` on the latest
   * status message. A truthy message that is not an object, or whose status is not a
   * string, makes `.get` or `.lower()` raise.
   */
  function LockFree(latest: Option<Json>): Outcome<bool>
  {
    match latest
    case None => Returned(false)
    case Some(msg) =>
      if !Truthy(msg) then Returned(false)
      else if !msg.JObj? then Raised
      else
        var status := if "status" in msg.fields then msg.fields["status"] else JStr("");
        if status.JStr? then Returned(Lower(status.s) == "free") else Raised
  }

  /**
   * The lock is free only when the latest message is an object whose "status" is a
   * string spelling "free" in any case; no message, a falsy message or an object
   * without "status" mean held, and a truthy message that is not an object, or a
   * status that is not a string, raise.
   */
  lemma LockFreeCases(latest: Option<Json>)
    ensures var r := LockFree(latest);
      && (latest.None? ==> r == Returned(false))
      && (latest.Some? && !Truthy(latest.value) ==> r == Returned(false))
      && ((latest.Some? && latest.value.JObj? && latest.value.fields != map[] && "status" !in latest.value.fields)
            ==> r == Returned(false))
      && (r == Returned(true) <==>
            latest.Some? && latest.value.JObj? && "status" in latest.value.fields
            && latest.value.fields["status"].JStr? && Lower(latest.value.fields["status"].s) == "free")
      && (r.Raised? <==>
            latest.Some? && Truthy(latest.value)
            && (!latest.value.JObj? || ("status" in latest.value.fields && !latest.value.fields["status"].JStr?)))
  {
  }

  /**
   * How `wait_until_lock_free` ends: it returns (always `True`), an exception escapes
   * the check, or, in this model, its budget of polls runs out while the lock is held.
   */
  datatype Waited = Freed | CheckRaised | StillHeld

  /**
   * `wait_until_lock_free(poll_interval=5)` from read index `j`, with at most `polls`
   * reads: a read, then a 5 s pause after every read that does not find the lock free.
   * The value holds the ending and the next read index.
   */
  function WaitFrom(lock: Reads, j: nat, k: nat, polls: nat): Run<(Waited, nat)>
    decreases polls
  {
    if polls == 0 then Run((StillHeld, j), [], k)
    else
      match LockFree(lock(j))
      case Raised => Run((CheckRaised, j + 1), [ReadLatest(StatusTopic)], k)
      case Returned(free) =>
        if free then Run((Freed, j + 1), [ReadLatest(StatusTopic)], k)
        else After([ReadLatest(StatusTopic), Sleep(LockPoll)], WaitFrom(lock, j + 1, k, polls - 1))
  }

  method WaitUntilLockFree(lock: Reads, j: nat, k: nat, polls: nat) returns (waited: Waited, next: nat, trace: seq<Event>)
    ensures Run((waited, next), trace, k) == WaitFrom(lock, j, k, polls)
  {
    trace := [];
    var i, left := j, polls;
    assert [] + WaitFrom(lock, j, k, polls).trace == WaitFrom(lock, j, k, polls).trace;
    while left > 0
      invariant WaitFrom(lock, j, k, polls) == After(trace, WaitFrom(lock, i, k, left))
      decreases left
    {
      var status := LockFree(lock(i));
      if status.Raised? {
        return CheckRaised, i + 1, trace + [ReadLatest(StatusTopic)];
      }
      if status.value {
        return Freed, i + 1, trace + [ReadLatest(StatusTopic)];
      }
      AfterAfter(trace, [ReadLatest(StatusTopic), Sleep(LockPoll)], WaitFrom(lock, i + 1, k, left - 1));
      trace := trace + [ReadLatest(StatusTopic), Sleep(LockPoll)];
      i, left := i + 1, left - 1;
    }
    return StillHeld, i, trace;
  }

  /**
   * Closed form of a wait: it reads `n` times, at most its budget, sends no request and
   * publishes nothing. Every read but the last found the lock held, and each of them is
   * followed by a 5 s pause. It returns only once a read finds the lock free, raises only
   * when the last read's check raised, and runs out only after using its whole budget.
   */
  predicate WaitShape(r: Run<(Waited, nat)>, lock: Reads, j: nat, k: nat, polls: nat)
  {
    var n := r.value.1 - j;
    && r.next == k && j <= r.value.1 && n <= polls
    && Requests(r.trace) == 0 && Publications(r.trace) == []
    && (r.value.0 == StillHeld ==> n == polls && |r.trace| == 2 * n)
    && (r.value.0 != StillHeld ==> n >= 1 && |r.trace| == 2 * n - 1)
    && (forall m :: 0 <= m < |r.trace| ==> r.trace[m] == if m % 2 == 0 then ReadLatest(StatusTopic) else Sleep(LockPoll))
    && (forall i :: j <= i < j + n - (if r.value.0 == StillHeld then 0 else 1) ==> LockFree(lock(i)) == Returned(false))
    && (r.value.0 == Freed ==> LockFree(lock(j + n - 1)) == Returned(true))
    && (r.value.0 == CheckRaised ==> LockFree(lock(j + n - 1)).Raised?)
  }

  lemma {:induction false} WaitClosedForm(lock: Reads, j: nat, k: nat, polls: nat)
    ensures WaitShape(WaitFrom(lock, j, k, polls), lock, j, k, polls)
    decreases polls
  {
    if polls > 0 && LockFree(lock(j)) == Returned(false) {
      var rest := WaitFrom(lock, j + 1, k, polls - 1);
      WaitClosedForm(lock, j + 1, k, polls - 1);
      assert WaitFrom(lock, j, k, polls) == After([ReadLatest(StatusTopic), Sleep(LockPoll)], rest);
      WaitShapeCons(rest, lock, j, k, polls);
    } else if polls > 0 {
      assert [ReadLatest(StatusTopic)][1..] == [];
    }
  }

  /** A read that finds the lock held and its pause, before a wait in closed form, give a wait in closed form. */
  lemma WaitShapeCons(rest: Run<(Waited, nat)>, lock: Reads, j: nat, k: nat, polls: nat)
    requires polls > 0 && LockFree(lock(j)) == Returned(false)
    requires WaitShape(rest, lock, j + 1, k, polls - 1)
    ensures WaitShape(After([ReadLatest(StatusTopic), Sleep(LockPoll)], rest), lock, j, k, polls)
  {
    var pre := [ReadLatest(StatusTopic), Sleep(LockPoll)];
    assert pre[1..][1..] == [];
    RequestsAppend(pre, rest.trace);
    PublicationsAppend(pre, rest.trace);
    var t := pre + rest.trace;
    forall m | 2 <= m < |t| ensures t[m] == if m % 2 == 0 then ReadLatest(StatusTopic) else Sleep(LockPoll) {
      assert t[m] == rest.trace[m - 2];
    }
  }

  // ---------------------------------------------------------------------------
  // Requests gated by lock checks
  // ---------------------------------------------------------------------------

  /**
   * Walks `trace` from read index `j`, `free` telling whether the latest lock check so
   * far read "free": every request in `trace` is sent while the latest check read "free".
   */
  predicate Gated(trace: seq<Event>, lock: Reads, j: nat, free: bool)
    decreases |trace|
  {
    trace == [] ||
    match trace[0]
    case ReadLatest(_) => Gated(trace[1..], lock, j + 1, LockFree(lock(j)) == Returned(true))
    case Request(_) => free && Gated(trace[1..], lock, j, free)
    case _ => Gated(trace[1..], lock, j, free)
  }

  /** The read index and the latest check's verdict once `trace` has been walked. */
  function GateAfter(trace: seq<Event>, lock: Reads, j: nat, free: bool): (nat, bool)
    decreases |trace|
  {
    if trace == [] then (j, free)
    else
      match trace[0]
      case ReadLatest(_) => GateAfter(trace[1..], lock, j + 1, LockFree(lock(j)) == Returned(true))
      case _ => GateAfter(trace[1..], lock, j, free)
  }

  lemma {:induction false} GatedAppend(a: seq<Event>, b: seq<Event>, lock: Reads, j: nat, free: bool)
    ensures Gated(a + b, lock, j, free) <==>
      Gated(a, lock, j, free) && Gated(b, lock, GateAfter(a, lock, j, free).0, GateAfter(a, lock, j, free).1)
    ensures GateAfter(a + b, lock, j, free) ==
      GateAfter(b, lock, GateAfter(a, lock, j, free).0, GateAfter(a, lock, j, free).1)
    decreases |a|
  {
    if a == [] {
      assert a + b == b;
    } else {
      assert (a + b)[0] == a[0] && (a + b)[1..] == a[1..] + b;
      match a[0]
      case ReadLatest(_) => GatedAppend(a[1..], b, lock, j + 1, LockFree(lock(j)) == Returned(true));
      case _ => GatedAppend(a[1..], b, lock, j, free);
    }
  }

  /** No lock check in the trace. */
  predicate NoChecks(trace: seq<Event>)
  {
    forall i :: 0 <= i < |trace| ==> !trace[i].ReadLatest?
  }

  lemma NoChecksAppend(a: seq<Event>, b: seq<Event>)
    requires NoChecks(a) && NoChecks(b)
    ensures NoChecks(a + b)
  {
    forall i | 0 <= i < |a + b| ensures !(a + b)[i].ReadLatest? {
      if i >= |a| {
        assert (a + b)[i] == b[i - |a|];
      }
    }
  }

  /** A trace without lock checks, run while the latest check read "free", is gated and leaves that verdict. */
  lemma {:induction false} GatedNoChecks(trace: seq<Event>, lock: Reads, j: nat)
    requires NoChecks(trace)
    ensures Gated(trace, lock, j, true) && GateAfter(trace, lock, j, true) == (j, true)
    decreases |trace|
  {
    if trace != [] {
      assert !trace[0].ReadLatest?;
      assert NoChecks(trace[1..]) by {
        forall i | 0 <= i < |trace[1..]| ensures !trace[1..][i].ReadLatest? {
          assert trace[1..][i] == trace[i + 1];
        }
      }
      GatedNoChecks(trace[1..], lock, j);
    }
  }

  /**
   * A wait sends no request, so it is gated; it leaves the read index after its last
   * read, and, when it returns, the verdict "free".
   */
  lemma {:induction false} WaitGated(lock: Reads, j: nat, k: nat, polls: nat, free: bool)
    ensures var r := WaitFrom(lock, j, k, polls);
      && Gated(r.trace, lock, j, free)
      && GateAfter(r.trace, lock, j, free).0 == r.value.1
      && (r.value.0 == Freed ==> GateAfter(r.trace, lock, j, free).1)
    decreases polls
  {
    if polls > 0 {
      var t := [ReadLatest(StatusTopic)];
      assert t[1..] == [];
      if LockFree(lock(j)) == Returned(false) {
        var rest := WaitFrom(lock, j + 1, k, polls - 1);
        var pre := [ReadLatest(StatusTopic), Sleep(LockPoll)];
        WaitGated(lock, j + 1, k, polls - 1, false);
        GatedAppend(pre, rest.trace, lock, j, free);
        assert pre[1..][1..] == [];
      }
    }
  }

  /** A wait's only events are its reads and the 5 s pauses: it counts one read per read index it uses. */
  lemma {:induction false} WaitCounts(lock: Reads, j: nat, k: nat, polls: nat, e: Event)
    requires e != Sleep(LockPoll)
    ensures var w := WaitFrom(lock, j, k, polls);
      j <= w.value.1 && Count(w.trace, e) == (if e == ReadLatest(StatusTopic) then w.value.1 - j else 0)
    decreases polls
  {
    if polls > 0 {
      var t := [ReadLatest(StatusTopic)];
      assert t[1..] == [];
      if LockFree(lock(j)) == Returned(false) {
        var pre := [ReadLatest(StatusTopic), Sleep(LockPoll)];
        assert pre[1..][1..] == [];
        WaitCounts(lock, j + 1, k, polls - 1, e);
        CountAppend(pre, WaitFrom(lock, j + 1, k, polls - 1).trace, e);
      }
    }
  }
}
