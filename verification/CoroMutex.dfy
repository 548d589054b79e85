/** coro_mutex on a wait_queue (os/atomic/mutex.cc, os/utils/wait_queue.h).  Each step is
    what one task does while it holds the guard spinlock. */
module CoroMutex {
  datatype Pc =
    | Outside
    | Asleep         // in the wait queue
    | Woken          // taken from the wait queue, about to look again
    | Spinning       // found it locked but may not yield, about to look again
    | Holder

  datatype State = State(locked: bool, sleepers: seq<nat>, pcs: map<nat, Pc>)

  datatype Event =
    | Attempt(t: nat, noYield: bool)    // one round of the loop in lock()
    | Release(t: nat)                   // unlock()

  predicate Enabled(s: State, e: Event)
  {
    e.t in s.pcs &&
    match e
    case Attempt(t, _) => s.pcs[t] == Outside || s.pcs[t] == Woken || s.pcs[t] == Spinning
    case Release(t) => s.pcs[t] == Holder
  }

  function Next(s: State, e: Event): (s': State)
    requires Enabled(s, e)
  {
    match e
    case Attempt(t, noYield) =>
      if !s.locked then State(true, s.sleepers, s.pcs[t := Holder])
      else if noYield then s.(pcs := s.pcs[t := Spinning])
      else State(true, s.sleepers + [t], s.pcs[t := Asleep])
    case Release(t) =>
      if s.sleepers == [] then State(false, [], s.pcs[t := Outside])
      else State(false, s.sleepers[1..], s.pcs[t := Outside][s.sleepers[0] := Woken])
  }

  /** The wait queue holds exactly the sleeping tasks, once each. */
  ghost predicate QueueOk(s: State)
  {
    && (forall i, j :: 0 <= i < j < |s.sleepers| ==> s.sleepers[i] != s.sleepers[j])
    && (forall t :: t in s.sleepers <==> t in s.pcs && s.pcs[t] == Asleep)
  }

  /** At most one holder, and one exactly when the flag is set. */
  ghost predicate Exclusive(s: State)
  {
    && (forall t, u :: t in s.pcs && u in s.pcs && s.pcs[t] == Holder && s.pcs[u] == Holder ==> t == u)
    && (s.locked <==> exists t :: t in s.pcs && s.pcs[t] == Holder)
  }

  /** No lost wake-up: if the mutex is free and some task sleeps, a task taken from the wait queue is
      on its way. */
  ghost predicate WakeupPending(s: State)
  {
    !s.locked && s.sleepers != [] ==> exists t :: t in s.pcs && s.pcs[t] == Woken
  }

  ghost predicate Inv(s: State)
  {
    QueueOk(s) && Exclusive(s) && WakeupPending(s)
  }

  lemma QueueKept(s: State, e: Event)
    requires Inv(s) && Enabled(s, e)
    ensures QueueOk(Next(s, e))
  {
    var s' := Next(s, e);
    forall t ensures t in s'.sleepers <==> t in s'.pcs && s'.pcs[t] == Asleep {
      if e.Release? && s.sleepers != [] && t in s.sleepers {
        var i :| 0 <= i < |s.sleepers| && s.sleepers[i] == t;
        if i > 0 { assert s'.sleepers[i - 1] == t; }
      }
    }
  }

  lemma ExclusionKept(s: State, e: Event)
    requires Inv(s) && Enabled(s, e)
    ensures Exclusive(Next(s, e))
  {
    var s' := Next(s, e);
    if s'.locked {
      var h := if s.locked then (var t :| t in s.pcs && s.pcs[t] == Holder; t) else e.t;
      assert s'.pcs[h] == Holder;
    }
  }

  /** Even with barging arrivals and tasks that spin instead of sleeping. */
  lemma WakeupKept(s: State, e: Event)
    requires Inv(s) && Enabled(s, e)
    ensures WakeupPending(Next(s, e))
  {
    var s' := Next(s, e);
    if e.Release? && s.sleepers != [] {
      assert s'.pcs[s.sleepers[0]] == Woken;
    }
  }

  lemma StepKeeps(s: State, e: Event)
    requires Inv(s) && Enabled(s, e)
    ensures Inv(Next(s, e))
  {
    QueueKept(s, e);
    ExclusionKept(s, e);
    WakeupKept(s, e);
  }

  ghost predicate IsRun(s: State, events: seq<Event>)
    decreases |events|
  {
    events == [] || (Enabled(s, events[0]) && IsRun(Next(s, events[0]), events[1..]))
  }

  ghost function Final(s: State, events: seq<Event>): (r: State)
    requires IsRun(s, events)
    decreases |events|
  {
    if events == [] then s else Final(Next(s, events[0]), events[1..])
  }

  /** Mutual exclusion and no lost wake-up over every interleaving in which only holders
      unlock. */
  lemma {:induction false} RunSafe(s: State, events: seq<Event>)
    requires Inv(s) && IsRun(s, events)
    ensures Inv(Final(s, events))
    decreases |events|
  {
    hide Inv, Next, Enabled;
    if events != [] {
      StepKeeps(s, events[0]);
      RunSafe(Next(s, events[0]), events[1..]);
    }
  }

  /** Progress: from any state in which the mutex is free and wanted, the woken task's next
      step takes it. */
  lemma WokenTaskTakesIt(s: State)
    requires Inv(s) && !s.locked && s.sleepers != []
    ensures exists t :: t in s.pcs && s.pcs[t] == Woken && Next(s, Attempt(t, false)).pcs[t] == Holder
  {
    var t :| t in s.pcs && s.pcs[t] == Woken;
    assert Next(s, Attempt(t, false)).pcs[t] == Holder;
  }

  // ------------------------------------------------------------ the order of the queue

  /** The task that a step puts to sleep, if it does. */
  ghost function Sleeps(s: State, e: Event): (r: seq<nat>)
    requires Enabled(s, e)
  {
    if Next(s, e).pcs[e.t] == Asleep then [e.t] else []
  }

  ghost predicate WokenBy(s: State, e: Event, u: nat)
    requires Enabled(s, e)
  {
    u in s.pcs && s.pcs[u] == Asleep && u in Next(s, e).pcs && Next(s, e).pcs[u] != Asleep
  }

  /** The task that a step wakes, if it does. */
  ghost function Wakes(s: State, e: Event): (r: seq<nat>)
    requires Enabled(s, e)
  {
    if exists u :: WokenBy(s, e, u) then (var u :| WokenBy(s, e, u); [u]) else []
  }

  ghost function AllSleeps(s: State, events: seq<Event>): (r: seq<nat>)
    requires IsRun(s, events)
    decreases |events|
  {
    if events == [] then [] else Sleeps(s, events[0]) + AllSleeps(Next(s, events[0]), events[1..])
  }

  ghost function AllWakes(s: State, events: seq<Event>): (r: seq<nat>)
    requires IsRun(s, events)
    decreases |events|
  {
    if events == [] then [] else Wakes(s, events[0]) + AllWakes(Next(s, events[0]), events[1..])
  }

  /** Who sleeps and who is woken: a task that finds the mutex locked sleeps if and only if it may yield;
      unlock wakes the task that has slept longest, and only that one. */
  lemma StepOrder(s: State, e: Event)
    requires Inv(s) && Enabled(s, e)
    ensures Sleeps(s, e) == (if e.Attempt? && s.locked && !e.noYield then [e.t] else [])
    ensures Wakes(s, e) == (if e.Release? && s.sleepers != [] then [s.sleepers[0]] else [])
    ensures s.sleepers + Sleeps(s, e) == Wakes(s, e) + Next(s, e).sleepers
  {
    if e.Release? && s.sleepers != [] {
      assert WokenBy(s, e, s.sleepers[0]);
    }
    forall u | WokenBy(s, e, u) ensures e.Release? && s.sleepers != [] && u == s.sleepers[0] { }
  }

  /** Over every run tasks leave the queue in the order in which they entered it: those there at the start
      and those that went to sleep are, in this order, those that were woken and those still there. */
  lemma {:induction false} FirstInFirstOut(s: State, events: seq<Event>)
    requires Inv(s) && IsRun(s, events)
    ensures s.sleepers + AllSleeps(s, events) == AllWakes(s, events) + Final(s, events).sleepers
    decreases |events|
  {
    hide Inv, Next, Enabled, Sleeps, Wakes;
    if events != [] {
      var s' := Next(s, events[0]);
      StepKeeps(s, events[0]);
      StepOrder(s, events[0]);
      FirstInFirstOut(s', events[1..]);
      var a, b := Sleeps(s, events[0]), Wakes(s, events[0]);
      var c, d := AllSleeps(s', events[1..]), AllWakes(s', events[1..]);
      assert s.sleepers + (a + c) == (s.sleepers + a) + c == b + (s'.sleepers + c);
      assert b + (d + Final(s', events[1..]).sleepers) == (b + d) + Final(s', events[1..]).sleepers;
    }
  }

  class Mutex {
    var locked: bool
    var sleepers: seq<nat>
    var pcs: map<nat, Pc>

    ghost function S(): (s: State)
      reads this
    {
      State(locked, sleepers, pcs)
    }

    constructor (tasks: set<nat>)
      ensures Inv(S()) && !locked && sleepers == []
    {
      locked, sleepers := false, [];
      pcs := map t | t in tasks :: Outside;
    }

    /** One round of the loop in lock(), under the guard lock. */
    method Lock(t: nat, noYield: bool) returns (got: bool)
      requires Inv(S()) && Enabled(S(), Attempt(t, noYield))
      modifies this
      ensures Inv(S()) && S() == Next(old(S()), Attempt(t, noYield))
      ensures got == !old(locked) && locked
      ensures got ==> pcs == old(pcs)[t := Holder] && sleepers == old(sleepers)
      ensures !got && !noYield ==> pcs == old(pcs)[t := Asleep] && sleepers == old(sleepers) + [t]
      ensures !got && noYield ==> pcs == old(pcs)[t := Spinning] && sleepers == old(sleepers)
    {
      StepKeeps(S(), Attempt(t, noYield));
      got := !locked;
      if got {
        locked := true;
        pcs := pcs[t := Holder];
      } else if noYield {
        pcs := pcs[t := Spinning];
      } else {
        sleepers := sleepers + [t];
        pcs := pcs[t := Asleep];
      }
    }

    method Unlock(t: nat)
      requires Inv(S()) && Enabled(S(), Release(t))
      modifies this
      ensures Inv(S()) && S() == Next(old(S()), Release(t)) && !locked
      ensures old(sleepers) == [] ==> sleepers == [] && pcs == old(pcs)[t := Outside]
      ensures old(sleepers) != [] ==>
                && old(sleepers) == [old(sleepers)[0]] + sleepers
                && pcs == old(pcs)[t := Outside][old(sleepers)[0] := Woken]
    {
      StepKeeps(S(), Release(t));
      locked := false;
      pcs := pcs[t := Outside];
      if |sleepers| > 0 {
        pcs := pcs[sleepers[0] := Woken];
        sleepers := sleepers[1..];
      }
    }
  }
}
