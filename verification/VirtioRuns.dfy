/** Whole runs of the block driver: tasks, the device and the interrupt handler in any order. */
module VirtioRuns {
  import opened Basics
  import opened VirtioRing

  datatype Step =
    | Try(t: nat, cmd: Command)                 // disk_command up to its first suspension
    | Device(step: DeviceStep)
    | Interrupted(race: seq<seq<DeviceStep>>)   // virtio_disk_intr, with the device's steps meanwhile
    | Collect(t: nat)                           // disk_command after its wait loop

  /** Where the requests and the tasks are, which descriptors are free, who waits for them, and what each task
      has asked for. */
  datatype View = View(stage: map<nat, Stage>, pcs: map<nat, Pc>, free: seq<bool>, queue: seq<nat>,
                       asked: map<nat, Command>)

  ghost function ViewOf(d: Disk): (v: View)
    reads d
  {
    View(d.stage, d.pcs, d.free, d.queue, d.asked)
  }

  ghost predicate MayTry(a: View, t: nat)
  {
    t in a.pcs && (a.pcs[t] == Idle || a.pcs[t] == Woken)
  }

  ghost predicate MayCollect(a: View, t: nat)
  {
    t in a.pcs && a.pcs[t].InFlight? && a.pcs[t].a in a.stage && a.stage[a.pcs[t].a] == Complete
  }

  /** The request of task t has been posted, behind all others, under three descriptors that were free. */
  ghost predicate Launched(a: View, t: nat, b: View)
  {
    && t in b.pcs && b.pcs[t].InFlight? && |a.free| == NUM
    && var pc := b.pcs[t];
       && pc.a < NUM && pc.b < NUM && pc.c < NUM && a.free[pc.a] && a.free[pc.b] && a.free[pc.c]
       && b.free == Taken3(a.free, pc.a, pc.b, pc.c)
       && pc.a in b.stage && b.stage[pc.a].Posted? && b.stage == a.stage[pc.a := b.stage[pc.a]]
       && forall h :: h in a.stage && a.stage[h].Posted? ==> a.stage[h].i < b.stage[pc.a].i
  }

  /** The device has done steps of race, and the handler has completed returned heads, oldest first. */
  ghost predicate HandledBy(a: map<nat, Stage>, race: seq<seq<DeviceStep>>, b: map<nat, Stage>)
  {
    exists stages, events, n: nat :: Log(a, race, b, stages, events, n)
  }

  /** Nothing has changed but where requests are. */
  ghost predicate Untouched(a: View, b: View)
  {
    b.pcs == a.pcs && b.free == a.free && b.queue == a.queue && b.asked == a.asked
  }

  /** What a step does; one that is not possible does nothing. */
  ghost predicate Does(a: View, step: Step, b: View)
  {
    match step
    case Try(t, cmd) =>
      if !MayTry(a, t) then b == a
      else
        if |FreeSet(a.free)| >= 3 then
          Launched(a, t, b) && Turned(a.queue, a.pcs, 0, t, b.queue, b.pcs, []) && b.asked == a.asked[t := cmd]
        else
          && b.asked == a.asked && t in b.pcs && b.pcs[t] == Asleep && b.free == a.free && b.stage == a.stage
          && Turned(a.queue, a.pcs, |FreeSet(a.free)|, t, b.queue, b.pcs, [t])
    case Device(s) => Untouched(a, b) && DeviceDid(a.stage, s, b.stage)
    case Interrupted(race) =>
      && Untouched(a, b) && HandledBy(a.stage, race, b.stage)
      && forall h :: h in b.stage ==> !b.stage[h].Returned?
    case Collect(t) =>
      if !MayCollect(a, t) then b == a
      else
        && Turned(a.queue, a.pcs, 3, t, b.queue, b.pcs, []) && t in b.pcs && b.pcs[t] == Idle && b.asked == a.asked
        && b.stage == a.stage - {a.pcs[t].a} && |a.free| == |b.free| == NUM
        && forall i :: 0 <= i < NUM ==> b.free[i] == (a.free[i] || Member(a.pcs[t], i))
  }

  ghost predicate Steps(trace: seq<View>, steps: seq<Step>)
  {
    |trace| == |steps| + 1 && forall i :: 0 <= i < |steps| ==> Does(trace[i], steps[i], trace[i + 1])
  }

  lemma CompleteIsDone(d: Disk, t: nat)
    requires d.Valid() && t in d.pcs && d.pcs[t].InFlight?
    ensures |d.done| == NUM && d.pcs[t].a < NUM && d.pcs[t].a in d.stage
    ensures d.done[d.pcs[t].a] <==> d.stage[d.pcs[t].a] == Complete
  {
    hide Avail, Used, QueueOk, Wakeups, Meant, StatusOk;
  }

  lemma PostedBefore(d: Disk)
    requires d.Valid()
    ensures forall h :: h in d.stage && d.stage[h].Posted? ==> d.stage[h].i < d.posted
  {
    hide Parts, Used, Heads, QueueOk, Wakeups, Meant, StatusOk;
  }

  method Do(d: Disk, step: Step)
    requires d.Valid()
    modifies d
    ensures d.Valid() && Does(old(ViewOf(d)), step, ViewOf(d))
  {
    hide Disk.Valid, Turned, FreeSet, DeviceDid, Log, Taken3, Member;
    match step
    case Try(t, cmd) =>
      PostedBefore(d);
      if t in d.pcs && (d.pcs[t] == Idle || d.pcs[t] == Woken) { var ok := d.Submit(t, cmd); }
    case Device(s) => d.DeviceDo(s);
    case Interrupted(race) =>
      ghost var stages, events, n := d.Interrupt(race);
      assert Log(old(d.stage), race, d.stage, stages, events, n);
    case Collect(t) =>
      if t in d.pcs && d.pcs[t].InFlight? {
        CompleteIsDone(d, t);
        if d.done[d.pcs[t].a] { d.Finish(t); }
      }
  }

  /** Every run, in whatever order tasks, device and interrupts come, keeps the invariant, and each step
      does what it should and nothing else. */
  method Run(d: Disk, steps: seq<Step>) returns (ghost trace: seq<View>)
    requires d.Valid()
    modifies d
    ensures d.Valid() && Steps(trace, steps) && trace[0] == old(ViewOf(d)) && trace[|steps|] == ViewOf(d)
  {
    hide Disk.Valid, Does;
    trace := [ViewOf(d)];
    for i := 0 to |steps|
      invariant d.Valid() && Steps(trace, steps[..i]) && trace[0] == old(ViewOf(d)) && trace[i] == ViewOf(d)
    {
      Do(d, steps[i]);
      trace := trace + [ViewOf(d)];
    }
    assert steps[..|steps|] == steps;
  }

  // ------------------------------------------------------------ what the device reads

  /** In every state, and so at every moment of every run, the device finds in the chain of a task in flight
      the type, the sector and the buffer that the task asked for last, and a status byte of its own. */
  lemma DeviceSees(d: Disk, t: nat)
    requires d.Valid() && t in d.pcs && d.pcs[t].InFlight?
    ensures |d.next| == |d.more| == |d.fields| == |d.ops| == NUM && t in d.asked
    ensures var cmd := d.asked[t];
            Read(d.next, d.more, d.fields, d.ops, d.pcs[t].a)
            == Some(Reading(cmd.kind, cmd.block * 1024 / 512, cmd.buf, cmd.kind != 1 && cmd.kind != 4, d.pcs[t].a))
  {
    hide Parts, Avail, Used, Heads, QueueOk, Wakeups, Meant, StatusOk, Read;
    PartsLengths(d.free, d.next, d.more, d.owner, d.pcs);
    MeantLengths(d.fields, d.ops, d.asked, d.pcs);
    DeviceReads(d.free, d.next, d.more, d.owner, d.pcs, d.fields, d.ops, d.asked, t);
  }

  // ------------------------------------------------------------ the order of request_queue

  /** The task that a step puts to sleep, if it does. */
  ghost function Slept(a: View, step: Step): (r: seq<nat>)
  {
    if step.Try? && MayTry(a, step.t) && |FreeSet(a.free)| < 3 then [step.t] else []
  }

  /** The tasks that a step wakes: the first ones of the queue, one for each descriptor given back. */
  ghost function WokenIn(a: View, step: Step): (r: seq<nat>)
  {
    var n := if step.Try? && MayTry(a, step.t) && |FreeSet(a.free)| < 3 then |FreeSet(a.free)|
             else if step.Collect? && MayCollect(a, step.t) then 3 else 0;
    if n <= |a.queue| then a.queue[..n] else a.queue
  }

  ghost function AllSlept(trace: seq<View>, steps: seq<Step>, n: nat): (r: seq<nat>)
    requires n <= |steps| < |trace|
  {
    if n == 0 then [] else AllSlept(trace, steps, n - 1) + Slept(trace[n - 1], steps[n - 1])
  }

  ghost function AllWoken(trace: seq<View>, steps: seq<Step>, n: nat): (r: seq<nat>)
    requires n <= |steps| < |trace|
  {
    if n == 0 then [] else AllWoken(trace, steps, n - 1) + WokenIn(trace[n - 1], steps[n - 1])
  }

  lemma StepOrder(a: View, step: Step, b: View)
    requires Does(a, step, b)
    ensures a.queue + Slept(a, step) == WokenIn(a, step) + b.queue
    ensures step.Try? || step.Collect? ==>
              forall u :: u in WokenIn(a, step) && u in a.pcs && u != step.t ==> u in b.pcs && b.pcs[u] == Woken
  {
    hide FreeSet, Launched, HandledBy, DeviceDid;
  }

  /** Over every run tasks leave request_queue in the order in which they entered it. */
  lemma {:induction false} FirstInFirstOut(trace: seq<View>, steps: seq<Step>, n: nat)
    requires Steps(trace, steps) && n <= |steps|
    ensures trace[0].queue + AllSlept(trace, steps, n) == AllWoken(trace, steps, n) + trace[n].queue
  {
    hide Does, Slept, WokenIn;
    if n > 0 {
      FirstInFirstOut(trace, steps, n - 1);
      var a, b, s, w := trace[n - 1], trace[n], Slept(trace[n - 1], steps[n - 1]), WokenIn(trace[n - 1], steps[n - 1]);
      StepOrder(a, steps[n - 1], b);
      var s0, w0 := AllSlept(trace, steps, n - 1), AllWoken(trace, steps, n - 1);
      assert trace[0].queue + (s0 + s) == (w0 + a.queue) + s == w0 + (w + b.queue);
    }
  }

  /** In this step the device returns head h. */
  ghost predicate Returns(step: Step, h: nat)
  {
    match step
    case Device(s) => s == ReturnHead(h)
    case Interrupted(race) => exists i :: 0 <= i < |race| && ReturnHead(h) in race[i]
    case _ => false
  }

  /** A request that the device has not returned is not completed. */
  lemma NotBefore(a: View, step: Step, b: View, h: nat)
    requires Does(a, step, b) && h in a.stage && Rank(a.stage[h]) <= 1 && h in b.stage && !Returns(step, h)
    ensures Rank(b.stage[h]) <= 1
  {
    hide Turned, FreeSet, Taken3, Member;
    match step
    case Interrupted(race) => InterruptKeeps(a, race, b, h);
    case _ =>
  }

  lemma InterruptKeeps(a: View, race: seq<seq<DeviceStep>>, b: View, h: nat)
    requires HandledBy(a.stage, race, b.stage) && h in a.stage && Rank(a.stage[h]) <= 1 && h in b.stage
    requires !Returns(Interrupted(race), h)
    ensures Rank(b.stage[h]) <= 1
  {
    hide Log, Rank;
    var stages, events, n: nat :| Log(a.stage, race, b.stage, stages, events, n);
    DoneMeansReturned(a.stage, race, b.stage, stages, events, n, h);
  }

  /** Over every run: between the moment a request is posted and the moment it is complete lies a
      step in which the device returns it. */
  lemma {:induction false} ReturnedFirst(trace: seq<View>, steps: seq<Step>, i: nat, j: nat, h: nat)
    requires Steps(trace, steps) && i <= j < |trace| && (forall k :: i <= k <= j ==> h in trace[k].stage)
    requires Rank(trace[i].stage[h]) <= 1 && trace[j].stage[h] == Complete
    ensures exists k :: i <= k < j && Returns(steps[k], h)
    decreases j - i
  {
    hide Does, Returns;
    if i < j && !Returns(steps[i], h) {
      NotBefore(trace[i], steps[i], trace[i + 1], h);
      ReturnedFirst(trace, steps, i + 1, j, h);
    }
  }
}
