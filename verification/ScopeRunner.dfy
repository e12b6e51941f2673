/** `ScopeRunner`: a lock-free counter of running handlers with a state in which no more may
    start. Every atomic access is one step; any number of calls interleave in any order, and a
    weak compare-and-exchange may fail for no reason. */
module ScopeRunner {
  /** One call of `continue_lock` (with the lock it returns) or of `stop`. */
  type CallId = nat

  /** Where a call stands. `expected` is the local variable of `continue_lock`. */
  datatype Call =
    | Trying(expected: int)
    | Denied
    | Live
    | Released
    | Stopping
    | Stopped

  datatype State = State(count: int, calls: map<CallId, Call>)

  const INITIAL := State(0, map[])

  /** The steps: `continue_lock` is entered and loads the count; it compares and exchanges; it
      leaves its loop with a negative value; a lock is released; `stop` is entered; it compares and
      exchanges. `spurious` says that the exchange fails although the values agree. */
  datatype Step =
    | Enter(id: CallId)
    | Acquire(id: CallId, spurious: bool)
    | GiveUp(id: CallId)
    | Release(id: CallId)
    | EnterStop(id: CallId)
    | TryStop(id: CallId, spurious: bool)

  predicate Enabled(s: State, step: Step) {
    match step
    case Enter(id) => id !in s.calls
    case EnterStop(id) => id !in s.calls
    case Acquire(id, _) => id in s.calls && s.calls[id].Trying? && s.calls[id].expected >= 0
    case GiveUp(id) => id in s.calls && s.calls[id].Trying? && s.calls[id].expected < 0
    case Release(id) => id in s.calls && s.calls[id].Live?
    case TryStop(id, _) => id in s.calls && s.calls[id].Stopping?
  }

  function Apply(s: State, step: Step): (r: State)
    requires Enabled(s, step)
  {
    match step
    case Enter(id) => s.(calls := s.calls[id := Trying(s.count)])
    case EnterStop(id) => s.(calls := s.calls[id := Stopping])
    case Acquire(id, spurious) =>
      if s.count == s.calls[id].expected && !spurious
      then State(s.count + 1, s.calls[id := Live])
      else s.(calls := s.calls[id := Trying(s.count)])
    case GiveUp(id) => s.(calls := s.calls[id := Denied])
    case Release(id) => State(s.count - 1, s.calls[id := Released])
    case TryStop(id, spurious) =>
      if s.count == 0 && !spurious then State(-1, s.calls[id := Stopped])
      else if s.count < 0 then s.(calls := s.calls[id := Stopped])
      else s
  }

  /** Every step is possible when its turn comes. */
  predicate IsRun(s: State, steps: seq<Step>)
    decreases |steps|
  {
    steps == [] || (Enabled(s, steps[0]) && IsRun(Apply(s, steps[0]), steps[1..]))
  }

  function After(s: State, steps: seq<Step>): (r: State)
    requires IsRun(s, steps)
    decreases |steps|
  {
    if steps == [] then s else After(Apply(s, steps[0]), steps[1..])
  }

  /** The locks that have been granted and not released. */
  function LiveLocks(s: State): (locks: set<CallId>) {
    set id | id in s.calls && s.calls[id].Live?
  }

  /** The count is the number of live locks, or -1 with none; and who was denied or has stopped
      the runner finds it stopped. */
  ghost predicate Safe(s: State) {
    && (s.count == -1 || s.count == |LiveLocks(s)|)
    && (s.count == -1 ==> LiveLocks(s) == {})
    && (forall id :: id in s.calls && s.calls[id].Trying? ==> s.calls[id].expected >= -1)
    && (forall id :: id in s.calls && s.calls[id].Trying? && s.calls[id].expected < 0 ==> s.count == -1)
    && (forall id :: id in s.calls && (s.calls[id].Denied? || s.calls[id].Stopped?) ==> s.count == -1)
  }

  lemma InitiallySafe()
    ensures Safe(INITIAL)
  {
    assert LiveLocks(INITIAL) == {};
  }

  /** How a step changes the live locks. */
  lemma LiveLocksAfter(s: State, step: Step)
    requires Enabled(s, step)
    ensures LiveLocks(Apply(s, step))
            == match step
               case Acquire(id, spurious) =>
                 if s.count == s.calls[id].expected && !spurious then LiveLocks(s) + {id} else LiveLocks(s)
               case Release(id) => LiveLocks(s) - {id}
               case _ => LiveLocks(s)
  {
  }

  lemma StepIsSafe(s: State, step: Step)
    requires Safe(s) && Enabled(s, step)
    ensures Safe(Apply(s, step))
    ensures s.count == -1 ==> Apply(s, step).count == -1
    ensures Apply(s, step).count == -1 ==> LiveLocks(s) == {}
  {
    LiveLocksAfter(s, step);
    CountIsRight(s, step);
    CallsAreRight(s, step);
  }

  /** The count changes with the live locks. */
  lemma CountIsRight(s: State, step: Step)
    requires Safe(s) && Enabled(s, step)
    ensures var t := Apply(s, step);
            && (t.count == -1 || t.count == |LiveLocks(t)|) && (t.count == -1 ==> LiveLocks(t) == {})
            && (s.count == -1 ==> t.count == -1)
            && (t.count == -1 ==> LiveLocks(s) == {})
  {
    LiveLocksAfter(s, step);
    match step
    case Acquire(id, _) => assert id !in LiveLocks(s);
    case Release(id) => assert id in LiveLocks(s);
    case TryStop(_, _) => if s.count == 0 { NoLiveLocks(s); }
    case _ =>
  }

  lemma NoLiveLocks(s: State)
    requires Safe(s) && s.count == 0
    ensures LiveLocks(s) == {}
  {
  }

  lemma CallsAreRight(s: State, step: Step)
    requires Safe(s) && Enabled(s, step)
    ensures var t := Apply(s, step);
            && (forall id :: id in t.calls && t.calls[id].Trying? ==> t.calls[id].expected >= -1)
            && (forall id :: id in t.calls && t.calls[id].Trying? && t.calls[id].expected < 0 ==> t.count == -1)
            && (forall id :: id in t.calls && (t.calls[id].Denied? || t.calls[id].Stopped?) ==> t.count == -1)
  {
    if step.Release? {
      assert step.id in LiveLocks(s);
    }
  }

  /** Every reachable state is safe. */
  lemma {:induction false} RunIsSafe(s: State, steps: seq<Step>)
    requires Safe(s) && IsRun(s, steps)
    ensures Safe(After(s, steps))
    ensures s.count == -1 ==> After(s, steps).count == -1
    decreases |steps|
  {
    if steps != [] {
      StepIsSafe(s, steps[0]);
      RunIsSafe(Apply(s, steps[0]), steps[1..]);
    }
  }

  lemma ReachableIsSafe(steps: seq<Step>)
    requires IsRun(INITIAL, steps)
    ensures Safe(After(INITIAL, steps))
  {
    InitiallySafe();
    RunIsSafe(INITIAL, steps);
  }

  /** Once `stop` has returned to anyone, the runner is stopped with no lock live, and stays so
      in every continuation, in which no lock is ever granted: whoever is live then was never,
      and the calls that held locks before are the same. */
  lemma StopIsFinal(before: seq<Step>, id: CallId, rest: seq<Step>)
    requires IsRun(INITIAL, before)
    requires id in After(INITIAL, before).calls && After(INITIAL, before).calls[id].Stopped?
    requires IsRun(After(INITIAL, before), rest)
    ensures After(INITIAL, before).count == -1 && LiveLocks(After(INITIAL, before)) == {}
    ensures var s := After(After(INITIAL, before), rest);
            s.count == -1 && LiveLocks(s) == {} && Granted(s) == Granted(After(INITIAL, before))
  {
    ReachableIsSafe(before);
    StoppedGrantsNothing(After(INITIAL, before), rest);
  }

  /** The calls that were ever given a lock. */
  function Granted(s: State): (ids: set<CallId>) {
    set id | id in s.calls && (s.calls[id].Live? || s.calls[id].Released?)
  }

  lemma {:induction false} StoppedGrantsNothing(s: State, steps: seq<Step>)
    requires Safe(s) && s.count == -1 && IsRun(s, steps)
    ensures var r := After(s, steps); r.count == -1 && LiveLocks(r) == {} && Granted(r) == Granted(s)
    decreases |steps|
  {
    if steps != [] {
      var next := Apply(s, steps[0]);
      StepIsSafe(s, steps[0]);
      assert forall id :: id in s.calls && s.calls[id].Live? ==> id in LiveLocks(s);
      assert Granted(next) == Granted(s);
      StoppedGrantsNothing(next, steps[1..]);
    }
  }

  /** The step that stops the runner is taken with no lock live: `stop` waits for all of them. */
  lemma StoppingStep(steps: seq<Step>, step: Step)
    requires IsRun(INITIAL, steps) && Enabled(After(INITIAL, steps), step)
    requires var s := After(INITIAL, steps); s.count != -1 && Apply(s, step).count == -1
    ensures step.TryStop? && LiveLocks(After(INITIAL, steps)) == {}
  {
    ReachableIsSafe(steps);
    var s := After(INITIAL, steps);
    StepIsSafe(s, step);
    assert forall id :: id in s.calls && s.calls[id].Live? ==> id in LiveLocks(s);
  }

  /** No one is blocked by anyone but the holders of locks: in every reachable state, two tries
      without interference grant a lock or refuse it for good, and one try stops an idle runner. */
  lemma LockIsObstructionFree(steps: seq<Step>, id: CallId)
    requires IsRun(INITIAL, steps)
    requires id in After(INITIAL, steps).calls && After(INITIAL, steps).calls[id].Trying?
    ensures var s := After(INITIAL, steps);
            if s.calls[id].expected < 0 then
              Enabled(s, GiveUp(id)) && s.count == -1
            else
              var t := Apply(s, Acquire(id, false));
              t.calls[id].Live? || (t.calls[id].Trying? &&
                                    if t.count < 0 then Enabled(t, GiveUp(id))
                                    else Enabled(t, Acquire(id, false)) && Apply(t, Acquire(id, false)).calls[id].Live?)
  {
    ReachableIsSafe(steps);
  }

  lemma StopIsObstructionFree(steps: seq<Step>, id: CallId)
    requires IsRun(INITIAL, steps)
    requires id in After(INITIAL, steps).calls && After(INITIAL, steps).calls[id].Stopping?
    ensures var s := After(INITIAL, steps);
            Apply(s, TryStop(id, false)).calls[id].Stopped? <==> LiveLocks(s) == {}
  {
    ReachableIsSafe(steps);
  }
}
