/** thread.cc, scheduler.cc and synch.cc as one step machine.  A step is a stretch of kernel code that
    runs with interrupts off; between steps anything may happen: the running thread goes on, an
    interrupt handler signals a semaphore, or the timer makes the running thread yield. */
module Kernel {
  import opened Options

  type Tid = int
  type Sid = nat


  datatype Status = JustCreated | Running | Ready | Blocked

  /** Where a thread continues once SWITCH returns to it. */
  datatype Resume =
    | Nowhere            // it is running now
    | Fresh              // it has never run: ThreadRoot, which does no cleaning up
    | InYield            // Yield
    | InP(s: Sid)        // the waiting loop of P on semaphore s
    | InFinish           // Finish: it must not run again

  datatype Thread = Thread(status: Status, resume: Resume)

  /** A semaphore, with the number of completed P and V operations. */
  datatype Semaphore = Semaphore(value: int, queue: seq<Tid>, initial: nat, ps: nat, vs: nat)

  /** What the kernel is in the middle of. */
  datatype Phase =
    | Executing          // the current thread runs
    | Rechecking(s: Sid) // the current thread was woken in P and is about to test the value again
    | Sleeping           // in Sleep, about to look for a thread to run
    | Idling             // in Sleep, waiting for an interrupt because none was ready

  datatype State = State(
    current: Tid, phase: Phase, ready: seq<Tid>, threads: map<Tid, Thread>,
    sems: seq<Semaphore>, toBeDestroyed: Option<Tid>, deleted: set<Tid>)

  // ---- the pieces of kernel code ------------------------------------------------------------

  function SetThread(k: State, t: Tid, status: Status, resume: Resume): State {
    k.(threads := k.threads[t := Thread(status, resume)])
  }

  /** Scheduler::ReadyToRun. */
  function ReadyToRun(k: State, t: Tid): State
    requires t in k.threads
  {
    SetThread(k, t, Ready, k.threads[t].resume).(ready := k.ready + [t])
  }

  /** The code after SWITCH: delete the thread that finished. */
  function CleanUp(k: State): State {
    if k.toBeDestroyed.None? then k else
    k.(threads := k.threads - {k.toBeDestroyed.value}, deleted := k.deleted + {k.toBeDestroyed.value}, toBeDestroyed := None)
  }

  /** Take the first ready thread and run it (FindNextToRun, then Run). */
  function RunNext(k: State): State
    requires k.ready != [] && k.ready[0] in k.threads
  {
    var next, how := k.ready[0], k.threads[k.ready[0]].resume;
    var k1 := SetThread(k, next, Running, if how.InP? then how else Nowhere).(current := next, ready := k.ready[1..]);
    var k2 := if how.Fresh? then k1 else CleanUp(k1);
    k2.(phase := if how.InP? then Rechecking(how.s) else Executing)
  }

  /** The test at the head of P's loop: consume the value, or queue up and go to sleep. */
  function TestValue(k: State, s: Sid): State
    requires s < |k.sems|
  {
    var m := k.sems[s];
    if m.value == 0
    then SetThread(k, k.current, Blocked, InP(s)).(sems := k.sems[s := m.(queue := m.queue + [k.current])], phase := Sleeping)
    else SetThread(k, k.current, Running, Nowhere).(sems := k.sems[s := m.(value := m.value - 1, ps := m.ps + 1)], phase := Executing)
  }

  /** Semaphore::V, by the current thread or by an interrupt handler. */
  function Signal(k: State, s: Sid): State
    requires s < |k.sems| && (k.sems[s].queue != [] ==> k.sems[s].queue[0] in k.threads)
  {
    var m := k.sems[s];
    var k1 := if m.queue == [] then k else ReadyToRun(k, m.queue[0]);
    k1.(sems := k.sems[s := m.(value := m.value + 1, vs := m.vs + 1, queue := if m.queue == [] then [] else m.queue[1..])])
  }

  // ---- the machine ----------------------------------------------------------------------------

  datatype Step =
    | Create(t: Tid)     // new Thread
    | Fork(t: Tid)
    | P(s: Sid)
    | V(s: Sid)
    | Yield
    | Finish
    | Recheck            // the rest of P, after being woken
    | Schedule           // the loop of Sleep: run the next thread, or start idling
    | WakeUp             // Idle returns to the loop of Sleep

  predicate Enabled(k: State, step: Step) {
    match step
    case Create(t) => k.phase == Executing && t !in k.threads && t !in k.deleted
    case Fork(t) => k.phase == Executing && t in k.threads && k.threads[t].status == JustCreated
    case P(s) => k.phase == Executing && s < |k.sems|
    case V(s) => (k.phase == Executing || k.phase == Idling) && s < |k.sems| && (k.sems[s].queue != [] ==> k.sems[s].queue[0] in k.threads)
    case Yield => k.phase == Executing && (k.ready != [] ==> k.ready[0] in k.threads)
    case Finish => k.phase == Executing
    case Recheck => k.phase.Rechecking? && k.phase.s < |k.sems|
    case Schedule => k.phase == Sleeping && (k.ready != [] ==> k.ready[0] in k.threads)
    case WakeUp => k.phase == Idling
  }

  function Apply(k: State, step: Step): State
    requires Enabled(k, step)
  {
    match step
    case Create(t) => SetThread(k, t, JustCreated, Fresh)
    case Fork(t) => ReadyToRun(k, t)
    case P(s) => TestValue(k, s)
    case V(s) => Signal(k, s)
    case Yield =>
      if k.ready == [] then k
      else RunNext(SetThread(k, k.current, Ready, InYield).(ready := k.ready + [k.current]))
    case Finish => SetThread(k, k.current, Blocked, InFinish).(toBeDestroyed := Some(k.current), phase := Sleeping)
    case Recheck => TestValue(k, k.phase.s)
    case Schedule => if k.ready == [] then k.(phase := Idling) else RunNext(k)
    case WakeUp => k.(phase := Sleeping)
  }

  // ---- the invariant --------------------------------------------------------------------------

  ghost predicate Distinct(s: seq<Tid>) {
    forall i, j :: 0 <= i < j < |s| ==> s[i] != s[j]
  }

  ghost predicate OnCpu(k: State) {
    k.phase == Executing || k.phase.Rechecking?
  }

  /** A thread that can still run some day is in exactly the place its status says. */
  ghost predicate Placed(k: State, t: Tid)
    requires t in k.threads
  {
    match k.threads[t].status
    case JustCreated => k.threads[t].resume == Fresh
    case Running => t == k.current && OnCpu(k) && k.threads[t].resume == (if k.phase.Rechecking? then InP(k.phase.s) else Nowhere)
    case Ready => t in k.ready && CanResume(k, k.threads[t].resume)
    case Blocked => k.threads[t].resume.InFinish? || (k.threads[t].resume.InP? && Queued(k, t, k.threads[t].resume.s))
  }

  ghost predicate CanResume(k: State, how: Resume) {
    how.Fresh? || how.InYield? || (how.InP? && how.s < |k.sems|)
  }

  ghost predicate Queued(k: State, t: Tid, s: Sid) {
    s < |k.sems| && t in k.sems[s].queue
  }

  ghost predicate PlacesOk(k: State) {
    && k.current in k.threads && k.threads.Keys !! k.deleted
    && Distinct(k.ready) && (forall t :: t in k.ready ==> t in k.threads && k.threads[t].status == Ready)
    && (forall s :: 0 <= s < |k.sems| ==> Distinct(k.sems[s].queue))
    && (forall s, t :: 0 <= s < |k.sems| && t in k.sems[s].queue ==> t in k.threads && k.threads[t] == Thread(Blocked, InP(s)))
    && (forall t :: t in k.threads ==> Placed(k, t))
    && (OnCpu(k) ==> k.threads[k.current].status == Running)
    && (k.phase.Rechecking? ==> k.phase.s < |k.sems|)
    && (k.toBeDestroyed.Some? ==> k.toBeDestroyed.value in k.threads && k.threads[k.toBeDestroyed.value].resume == InFinish)
  }

  /** Threads signalled on s that have not tested the value again yet. */
  ghost function Woken(k: State, s: Sid): set<Tid>
    requires s < |k.sems|
  {
    set t | t in k.threads && k.threads[t].resume == InP(s) && t !in k.sems[s].queue
  }

  ghost predicate SemOk(k: State, s: Sid)
    requires s < |k.sems|
  {
    var m := k.sems[s];
    && m.value >= 0 && m.value == m.initial + m.vs - m.ps
    && (m.queue != [] ==> m.value <= |Woken(k, s)|)
  }

  ghost predicate Inv(k: State) {
    PlacesOk(k) && forall s :: 0 <= s < |k.sems| ==> SemOk(k, s)
  }

  // ---- each piece of kernel code keeps the places -------------------------------------------

  lemma ReadyKeepsPlaces(k: State, t: Tid)
    requires PlacesOk(k) && t in k.threads && k.threads[t] == Thread(JustCreated, Fresh)
    ensures PlacesOk(ReadyToRun(k, t))
  {
    var k' := ReadyToRun(k, t);
    assert forall u :: u in k.threads && u != t ==> Placed(k, u) && k'.threads[u] == k.threads[u];
    assert forall u :: u in k'.threads ==> Placed(k', u);
  }

  lemma BlockKeepsPlaces(k: State, s: Sid)
    requires PlacesOk(k) && s < |k.sems| && OnCpu(k) && k.sems[s].value == 0
    ensures PlacesOk(TestValue(k, s))
  {
    var k', c, q := TestValue(k, s), k.current, k.sems[s].queue;
    assert c !in q && c !in k.ready;
    assert forall u :: u in k.threads && u != c ==> Placed(k, u) && k'.threads[u] == k.threads[u];
    forall u | u in k'.threads
      ensures Placed(k', u)
    {
      assert u == c ==> c in q + [c];
      assert u != c ==> Placed(k, u);
    }
  }

  lemma ConsumeKeepsPlaces(k: State, s: Sid)
    requires PlacesOk(k) && s < |k.sems| && OnCpu(k) && k.sems[s].value != 0
    ensures PlacesOk(TestValue(k, s))
  {
    var k', c := TestValue(k, s), k.current;
    assert forall r :: 0 <= r < |k.sems| ==> k'.sems[r].queue == k.sems[r].queue;
    forall u | u in k'.threads
      ensures Placed(k', u)
    {
      assert u != c ==> Placed(k, u);
    }
  }

  lemma PostKeepsPlaces(k: State, s: Sid)
    requires PlacesOk(k) && s < |k.sems| && k.sems[s].queue == []
    ensures PlacesOk(Signal(k, s))
  {
    var k' := Signal(k, s);
    assert forall r :: 0 <= r < |k.sems| ==> k'.sems[r].queue == k.sems[r].queue;
    forall u | u in k'.threads
      ensures Placed(k', u)
    {
      assert Placed(k, u);
    }
  }

  lemma QueueTail(q: seq<Tid>)
    requires Distinct(q) && q != []
    ensures Distinct(q[1..]) && q[0] !in q[1..] && forall t :: t in q <==> t == q[0] || t in q[1..]
  {
    assert q == [q[0]] + q[1..];
  }

  lemma WakeKeepsQueues(k: State, s: Sid, r: Sid)
    requires PlacesOk(k) && s < |k.sems| && r < |k.sems| && k.sems[s].queue != [] && k.sems[s].queue[0] in k.threads
    ensures var k', h := Signal(k, s), k.sems[s].queue[0];
      && Distinct(k'.sems[r].queue)
      && forall t :: t in k'.sems[r].queue <==> t in k.sems[r].queue && t != h
  {
    QueueTail(k.sems[s].queue);
    assert k.sems[s].queue[0] in k.sems[s].queue;
  }

  lemma WakeKeepsPlaces(k: State, s: Sid)
    requires PlacesOk(k) && s < |k.sems| && k.sems[s].queue != [] && k.sems[s].queue[0] in k.threads
    ensures PlacesOk(Signal(k, s))
  {
    var k', h := Signal(k, s), k.sems[s].queue[0];
    assert h in k.sems[s].queue;
    assert h !in k.ready;
    forall r | 0 <= r < |k.sems|
      ensures Distinct(k'.sems[r].queue) && forall t :: t in k'.sems[r].queue <==> t in k.sems[r].queue && t != h
    {
      WakeKeepsQueues(k, s, r);
    }
    forall u | u in k'.threads
      ensures Placed(k', u)
    {
      assert Placed(k, u);
    }
  }

  /** Deleting the finished thread: it is in no queue, not ready, and not the one now running. */
  lemma CleanUpKeepsPlaces(k: State)
    requires PlacesOk(k) && OnCpu(k)
    ensures PlacesOk(CleanUp(k))
  {
    var k' := CleanUp(k);
    assert forall u :: u in k'.threads ==> Placed(k, u) && k'.threads[u] == k.threads[u];
    assert forall u :: u in k'.threads ==> Placed(k', u);
  }

  /** RunNext before the cleaning up. */
  function Started(k: State): State
    requires k.ready != [] && k.ready[0] in k.threads
  {
    var next, how := k.ready[0], k.threads[k.ready[0]].resume;
    SetThread(k, next, Running, if how.InP? then how else Nowhere)
      .(current := next, ready := k.ready[1..], phase := if how.InP? then Rechecking(how.s) else Executing)
  }

  lemma StartKeepsPlaces(k: State)
    requires PlacesOk(k) && !OnCpu(k) && k.ready != [] && k.ready[0] in k.threads
    ensures PlacesOk(Started(k))
  {
    var k', next := Started(k), k.ready[0];
    QueueTail(k.ready);
    assert Placed(k, next);
    forall u | u in k'.threads
      ensures Placed(k', u)
    {
      assert u != next ==> Placed(k, u);
    }
  }

  lemma RunKeepsPlaces(k: State)
    requires PlacesOk(k) && !OnCpu(k) && k.ready != [] && k.ready[0] in k.threads
    ensures PlacesOk(RunNext(k))
  {
    StartKeepsPlaces(k);
    CleanUpKeepsPlaces(Started(k));
    assert RunNext(k) == if k.threads[k.ready[0]].resume.Fresh? then Started(k) else CleanUp(Started(k));
  }

  /** The current thread leaves the processor: to the end of the ready list, or for good. */
  function Parked(k: State): State {
    SetThread(k, k.current, Ready, InYield).(ready := k.ready + [k.current], phase := Sleeping)
  }

  function Ended(k: State): State {
    SetThread(k, k.current, Blocked, InFinish).(toBeDestroyed := Some(k.current), phase := Sleeping)
  }

  lemma ParkKeepsPlaces(k: State)
    requires PlacesOk(k) && k.phase == Executing
    ensures PlacesOk(Parked(k))
  {
    var k' := Parked(k);
    forall u | u in k'.threads
      ensures Placed(k', u)
    {
      assert u != k.current ==> Placed(k, u);
    }
  }

  lemma FinishKeepsPlaces(k: State)
    requires PlacesOk(k) && k.phase == Executing
    ensures PlacesOk(Ended(k))
  {
    var k' := Ended(k);
    forall u | u in k'.threads
      ensures Placed(k', u)
    {
      assert u != k.current ==> Placed(k, u);
    }
  }

  lemma StepKeepsPlaces(k: State, step: Step)
    requires PlacesOk(k) && Enabled(k, step)
    ensures PlacesOk(Apply(k, step))
  {
    match step
    case Create(t) => CreateKeepsPlaces(k, t);
    case Fork(t) => assert Placed(k, t); ReadyKeepsPlaces(k, t);
    case P(s) => if k.sems[s].value == 0 { BlockKeepsPlaces(k, s); } else { ConsumeKeepsPlaces(k, s); }
    case V(s) => if k.sems[s].queue == [] { PostKeepsPlaces(k, s); } else { WakeKeepsPlaces(k, s); }
    case Yield =>
      if k.ready != [] {
        ParkKeepsPlaces(k);
        RunKeepsPlaces(Parked(k));
      }
    case Finish => FinishKeepsPlaces(k);
    case Recheck => if k.sems[k.phase.s].value == 0 { BlockKeepsPlaces(k, k.phase.s); } else { ConsumeKeepsPlaces(k, k.phase.s); }
    case Schedule => if k.ready != [] { RunKeepsPlaces(k); } else { PhaseKeepsPlaces(k, Idling); }
    case WakeUp => PhaseKeepsPlaces(k, Sleeping);
  }

  lemma PhaseKeepsPlaces(k: State, phase: Phase)
    requires PlacesOk(k) && !OnCpu(k) && (phase == Sleeping || phase == Idling)
    ensures PlacesOk(k.(phase := phase))
  {
    assert forall u :: u in k.threads ==> Placed(k, u) && Placed(k.(phase := phase), u);
  }

  lemma CreateKeepsPlaces(k: State, t: Tid)
    requires PlacesOk(k) && t !in k.threads && t !in k.deleted
    ensures PlacesOk(SetThread(k, t, JustCreated, Fresh))
  {
    var k' := SetThread(k, t, JustCreated, Fresh);
    assert forall u :: u in k'.threads ==> (u == t || Placed(k, u)) && Placed(k', u);
  }

  // ---- each step keeps the semaphores -------------------------------------------------------

  ghost predicate WaitsIn(k: State, t: Tid, s: Sid) {
    t in k.threads && k.threads[t].resume == InP(s)
  }

  /** A step that neither touches semaphore s nor who is inside its P keeps what holds of it. */
  lemma SemUntouched(k: State, k': State, s: Sid)
    requires s < |k.sems| && SemOk(k, s) && k'.sems == k.sems
    requires forall t :: WaitsIn(k, t, s) <==> WaitsIn(k', t, s)
    ensures SemOk(k', s)
  {
    forall t
      ensures t in Woken(k', s) <==> t in Woken(k, s)
    {
      assert WaitsIn(k, t, s) <==> WaitsIn(k', t, s);
    }
    assert Woken(k', s) == Woken(k, s);
  }

  lemma TestKeepsSem(k: State, s: Sid, r: Sid)
    requires PlacesOk(k) && s < |k.sems| && r < |k.sems| && SemOk(k, r) && SemOk(k, s)
    requires k.phase == Executing || k.phase == Rechecking(s)
    ensures SemOk(TestValue(k, s), r)
  {
    var k', c := TestValue(k, s), k.current;
    assert Placed(k, c);
    if r != s {
      assert forall t :: WaitsIn(k, t, r) <==> WaitsIn(k', t, r);
      assert Woken(k', r) == Woken(k, r) by {
        assert forall t :: t in Woken(k', r) <==> WaitsIn(k', t, r) && t !in k.sems[r].queue;
        assert forall t :: t in Woken(k, r) <==> WaitsIn(k, t, r) && t !in k.sems[r].queue;
      }
    } else if k.sems[s].value > 0 {
      assert Woken(k, s) - {c} == Woken(k', s);
    }
  }

  lemma SignalKeepsSem(k: State, s: Sid, r: Sid)
    requires PlacesOk(k) && s < |k.sems| && r < |k.sems| && SemOk(k, r)
    requires k.sems[s].queue != [] ==> k.sems[s].queue[0] in k.threads
    ensures SemOk(Signal(k, s), r)
  {
    var k', q := Signal(k, s), k.sems[s].queue;
    assert forall t :: WaitsIn(k, t, r) <==> WaitsIn(k', t, r);
    if r != s || q == [] {
      assert Woken(k', r) == Woken(k, r) by {
        assert forall t :: t in Woken(k', r) <==> WaitsIn(k', t, r) && t !in k.sems[r].queue;
        assert forall t :: t in Woken(k, r) <==> WaitsIn(k, t, r) && t !in k.sems[r].queue;
      }
    } else {
      WakeKeepsQueues(k, s, s);
      assert q[0] in q;
      assert Woken(k', s) == Woken(k, s) + {q[0]};
    }
  }

  lemma RunKeepsWaiters(k: State, s: Sid, t: Tid)
    requires PlacesOk(k) && !OnCpu(k) && k.ready != [] && k.ready[0] in k.threads
    ensures WaitsIn(k, t, s) <==> WaitsIn(RunNext(k), t, s)
  {
    assert Placed(k, k.ready[0]);
  }

  lemma RunKeepsSem(k: State, r: Sid)
    requires PlacesOk(k) && !OnCpu(k) && k.ready != [] && k.ready[0] in k.threads && r < |k.sems| && SemOk(k, r)
    ensures SemOk(RunNext(k), r)
  {
    forall t
      ensures WaitsIn(k, t, r) <==> WaitsIn(RunNext(k), t, r)
    {
      RunKeepsWaiters(k, r, t);
    }
    SemUntouched(k, RunNext(k), r);
  }

  lemma YieldKeepsSem(k: State, r: Sid)
    requires Inv(k) && Enabled(k, Yield) && r < |k.sems| && k.ready != []
    ensures SemOk(Apply(k, Yield), r)
  {
    ParkKeepsPlaces(k);
    assert Placed(k, k.current);
    SemUntouched(k, Parked(k), r);
    RunKeepsSem(Parked(k), r);
    assert Apply(k, Yield) == RunNext(Parked(k));
  }

  lemma StepKeepsSems(k: State, step: Step, r: Sid)
    requires Inv(k) && Enabled(k, step) && r < |k.sems|
    ensures |Apply(k, step).sems| == |k.sems| && SemOk(Apply(k, step), r)
  {
    var k' := Apply(k, step);
    match step
    case P(s) => TestKeepsSem(k, s, r);
    case Recheck => TestKeepsSem(k, k.phase.s, r);
    case V(s) => SignalKeepsSem(k, s, r);
    case Yield =>
      if k.ready != [] {
        YieldKeepsSem(k, r);
      }
    case Schedule =>
      if k.ready != [] {
        RunKeepsSem(k, r);
      } else {
        SemUntouched(k, k', r);
      }
    case Finish => assert Placed(k, k.current); SemUntouched(k, k', r);
    case Create(t) => SemUntouched(k, k', r);
    case Fork(t) => SemUntouched(k, k', r);
    case WakeUp => SemUntouched(k, k', r);
  }

  // ---- every run --------------------------------------------------------------------------------

  /** Only the main thread exists and runs; every semaphore has its initial value. */
  ghost predicate Initial(k: State) {
    && k.phase == Executing && k.ready == [] && k.threads == map[k.current := Thread(Running, Nowhere)]
    && k.toBeDestroyed == None && k.deleted == {}
    && forall s :: 0 <= s < |k.sems| ==> k.sems[s] == Semaphore(k.sems[s].initial, [], k.sems[s].initial, 0, 0)
  }

  ghost predicate IsRun(k: State, steps: seq<Step>)
    decreases steps
  {
    steps != [] ==> Enabled(k, steps[0]) && IsRun(Apply(k, steps[0]), steps[1..])
  }

  ghost function After(k: State, steps: seq<Step>): State
    requires IsRun(k, steps)
    decreases steps
  {
    if steps == [] then k else After(Apply(k, steps[0]), steps[1..])
  }

  lemma {:induction false} RunKeepsInv(k: State, steps: seq<Step>)
    requires Inv(k) && IsRun(k, steps)
    ensures Inv(After(k, steps))
    decreases steps
  {
    if steps != [] {
      StepKeepsPlaces(k, steps[0]);
      forall r | 0 <= r < |k.sems|
        ensures |Apply(k, steps[0]).sems| == |k.sems| && SemOk(Apply(k, steps[0]), r)
      {
        StepKeepsSems(k, steps[0], r);
      }
      SemsKept(k, steps[0]);
      RunKeepsInv(Apply(k, steps[0]), steps[1..]);
    }
  }

  lemma SemsKept(k: State, step: Step)
    requires Enabled(k, step)
    ensures |Apply(k, step).sems| == |k.sems|
  {
  }

  /** In every reachable state each live thread that has not finished is in exactly one place. */
  lemma EveryThreadPlaced(k: State, steps: seq<Step>, t: Tid)
    requires Initial(k) && IsRun(k, steps)
    ensures var k' := After(k, steps);
      && PlacesOk(k')
      && (t in k'.threads && k'.threads[t].status != JustCreated && k'.threads[t].resume != InFinish ==>
            ExactlyOnePlace(k', t))
      && (t in k'.deleted ==> t != k'.current && t !in k'.ready && forall s :: 0 <= s < |k'.sems| ==> t !in k'.sems[s].queue)
  {
    InitialInv(k);
    RunKeepsInv(k, steps);
    PlacedOnce(After(k, steps), t);
  }

  lemma PlacedOnce(k: State, t: Tid)
    requires PlacesOk(k)
    ensures t in k.threads && k.threads[t].status != JustCreated && k.threads[t].resume != InFinish ==> ExactlyOnePlace(k, t)
  {
    if t in k.threads {
      assert Placed(k, t);
      if k.threads[t].status == Ready {
        OnceIn(k.ready, t);
      } else if k.threads[t].status == Blocked && k.threads[t].resume.InP? {
        OnceIn(k.sems[k.threads[t].resume.s].queue, t);
        assert OnlyQueue(k, t, k.threads[t].resume.s);
      }
    }
  }

  lemma OnceIn(q: seq<Tid>, t: Tid)
    requires Distinct(q) && t in q
    ensures Once(q, t)
  {
    var i :| 0 <= i < |q| && q[i] == t;
  }

  /** On the processor, on the ready list once, or on one semaphore's queue once. */
  ghost predicate ExactlyOnePlace(k: State, t: Tid) {
    var running := OnCpu(k) && k.current == t;
    || (running && t !in k.ready && forall s :: 0 <= s < |k.sems| ==> t !in k.sems[s].queue)
    || (!running && Once(k.ready, t) && forall s :: 0 <= s < |k.sems| ==> t !in k.sems[s].queue)
    || (!running && t !in k.ready && exists s :: OnlyQueue(k, t, s))
  }

  ghost predicate OnlyQueue(k: State, t: Tid, s: int) {
    && 0 <= s < |k.sems| && Once(k.sems[s].queue, t)
    && forall r :: 0 <= r < |k.sems| && r != s ==> t !in k.sems[r].queue
  }

  ghost predicate Once(q: seq<Tid>, t: Tid) {
    exists i :: 0 <= i < |q| && q[i] == t && forall j :: 0 <= j < |q| && j != i ==> q[j] != t
  }

  lemma InitialInv(k: State)
    requires Initial(k)
    ensures Inv(k)
  {
    assert Placed(k, k.current);
  }

  /** No wakeup is lost: when the machine idles with nothing ready, a semaphore that anyone waits on
      has the value 0; and every value is the initial one plus the V's minus the P's. */
  lemma NoLostWakeup(k: State, steps: seq<Step>, s: Sid)
    requires Initial(k) && IsRun(k, steps) && s < |After(k, steps).sems|
    ensures var k' := After(k, steps); var m := k'.sems[s];
      && m.value == m.initial + m.vs - m.ps >= 0
      && (m.queue != [] ==> m.value <= |Woken(k', s)|)
      && (k'.phase == Idling && k'.ready == [] && m.queue != [] ==> m.value == 0)
  {
    InitialInv(k);
    RunKeepsInv(k, steps);
    var k' := After(k, steps);
    assert SemOk(k', s);
    if k'.phase == Idling && k'.ready == [] {
      forall t | t in k'.threads
        ensures t !in Woken(k', s)
      {
        assert Placed(k', t);
      }
      assert Woken(k', s) == {};
    }
  }

  // ---- what each step does, counted from the steps ----------------------------------------------

  /** The threads a step makes ready: the one forked, the first one queued on a semaphore that is signalled,
      or the one that yields to others. */
  ghost function MadeReady(k: State, step: Step): seq<Tid>
    requires Enabled(k, step)
  {
    match step
    case Fork(t) => [t]
    case V(s) => if k.sems[s].queue == [] then [] else [k.sems[s].queue[0]]
    case Yield => if k.ready == [] then [] else [k.current]
    case _ => []
  }

  /** Yield and the loop of Sleep look for another thread; if one is ready, this is who has the processor then. */
  ghost function Dispatched(k: State, step: Step): seq<Tid>
    requires Enabled(k, step)
  {
    if (step.Yield? || step.Schedule?) && k.ready != [] then [Apply(k, step).current] else []
  }

  /** Whether the step tests the value of semaphore s, at the head of P's loop. */
  ghost predicate Tests(k: State, step: Step, s: Sid) {
    step == P(s) || (step == Recheck && k.phase == Rechecking(s))
  }

  /** P returns: the test was made and its caller goes on. */
  ghost predicate Passes(k: State, step: Step, s: Sid)
    requires Enabled(k, step)
  {
    Tests(k, step, s) && Apply(k, step).phase == Executing
  }

  /** The thread that queues up on s, and the one that a V takes off. */
  ghost function QueuesUp(k: State, step: Step, s: Sid): seq<Tid>
    requires Enabled(k, step)
  {
    if Tests(k, step, s) && !Passes(k, step, s) then [k.current] else []
  }

  ghost function TakenOff(k: State, step: Step, s: Sid): seq<Tid>
    requires Enabled(k, step) && s < |k.sems|
  {
    if step == V(s) && k.sems[s].queue != [] then [k.sems[s].queue[0]] else []
  }

  /** The ready list is a queue: what is made ready goes to its end, and who gets the processor comes off its
      front; nobody else gets it. */
  lemma ReadyStep(k: State, step: Step)
    requires Enabled(k, step)
    ensures k.ready + MadeReady(k, step) == Dispatched(k, step) + Apply(k, step).ready
    ensures Dispatched(k, step) == [] ==> Apply(k, step).current == k.current
  {
    if step.Yield? && k.ready != [] {
      assert (k.ready + [k.current])[0] == k.ready[0];
      assert k.ready + [k.current] == [k.ready[0]] + (k.ready + [k.current])[1..];
    } else if step.Schedule? && k.ready != [] {
      assert k.ready == [k.ready[0]] + k.ready[1..];
    }
  }

  /** So is each semaphore's; and its value goes up by one with each V, down by one with each P that returns,
      which is when the value tested was positive. */
  lemma SemStep(k: State, step: Step, s: Sid)
    requires Enabled(k, step) && s < |k.sems| && k.sems[s].value >= 0
    ensures |Apply(k, step).sems| == |k.sems|
    ensures k.sems[s].queue + QueuesUp(k, step, s) == TakenOff(k, step, s) + Apply(k, step).sems[s].queue
    ensures Apply(k, step).sems[s].value ==
      k.sems[s].value + (if step == V(s) then 1 else 0) - (if Passes(k, step, s) then 1 else 0)
    ensures Tests(k, step, s) ==> (Passes(k, step, s) <==> k.sems[s].value > 0)
    ensures Tests(k, step, s) && !Passes(k, step, s) ==> Apply(k, step).phase == Sleeping
  {
    var q := k.sems[s].queue;
    if step == V(s) && q != [] {
      assert q == [q[0]] + q[1..];
    }
  }

  /** The semaphore in whose P a thread is, if any. */
  ghost function InsideOf(k: State, t: Tid): Option<Sid> {
    if t in k.threads && k.threads[t].resume.InP? then Some(k.threads[t].resume.s) else None
  }

  /** A thread is inside P from a test that fails to one that succeeds; nothing else takes it in or out, except
      that a thread that is deleted or just made is in none. */
  lemma InsideStep(k: State, step: Step, t: Tid)
    requires PlacesOk(k) && Enabled(k, step) && t in Apply(k, step).threads && t in k.threads
    ensures InsideOf(Apply(k, step), t) ==
      if t == k.current && step.P? then (if Passes(k, step, step.s) then None else Some(step.s))
      else if t == k.current && step.Recheck? && Passes(k, step, k.phase.s) then None
      else InsideOf(k, t)
  {
    assert Placed(k, t) && Placed(k, k.current);
    if step.Yield? || step.Schedule? {
      DispatchKeepsInside(k, step, t);
    }
  }

  lemma DispatchKeepsInside(k: State, step: Step, t: Tid)
    requires PlacesOk(k) && Enabled(k, step) && t in Apply(k, step).threads && t in k.threads && (step.Yield? || step.Schedule?)
    ensures InsideOf(Apply(k, step), t) == InsideOf(k, t)
  {
    assert Placed(k, t) && Placed(k, k.current);
    assert k.ready != [] ==> Placed(k, k.ready[0]);
  }

  /** Where control is after a step.  The machine starts to idle only in Sleep, and only when no thread is ready;
      a thread that gets the processor goes on in P if it is inside one. */
  ghost function PhaseAfter(k: State, step: Step): Phase
    requires Enabled(k, step)
  {
    if Dispatched(k, step) != [] then
      (match InsideOf(k, Dispatched(k, step)[0])
       case Some(s) => Rechecking(s)
       case None => Executing)
    else match step
      case Schedule => Idling
      case P(s) => if Passes(k, step, s) then Executing else Sleeping
      case Recheck => if k.phase.Rechecking? && Passes(k, step, k.phase.s) then Executing else Sleeping
      case Finish => Sleeping
      case WakeUp => Sleeping
      case _ => k.phase
  }

  lemma PhaseStep(k: State, step: Step)
    requires PlacesOk(k) && Enabled(k, step)
    ensures Apply(k, step).phase == PhaseAfter(k, step)
    ensures Apply(k, step).phase == Idling && k.phase != Idling ==> step == Schedule && k.ready == []
    ensures k.phase == Sleeping && k.ready != [] ==> step == Schedule && Apply(k, step).current == k.ready[0]
  {
    if Dispatched(k, step) != [] {
      assert Placed(k, k.ready[0]) && Placed(k, k.current);
    }
  }

  ghost predicate IsFresh(k: State, t: Tid) {
    t in k.threads && k.threads[t].resume == Fresh
  }

  /** Who is deleted by a step: the finished thread, when a thread that has run before gets the processor. */
  ghost function DeletedBy(k: State, step: Step): set<Tid>
    requires Enabled(k, step)
  {
    if Dispatched(k, step) != [] && !IsFresh(k, Dispatched(k, step)[0]) && k.toBeDestroyed.Some?
    then {k.toBeDestroyed.value} else {}
  }

  lemma RunDeletes(k: State)
    requires k.ready != [] && k.ready[0] in k.threads
    ensures var k' := RunNext(k);
      var gone := if k.threads[k.ready[0]].resume != Fresh && k.toBeDestroyed.Some? then {k.toBeDestroyed.value} else {};
      && k'.deleted == k.deleted + gone && k'.threads.Keys == k.threads.Keys - gone
      && k'.toBeDestroyed == (if gone != {} then None else k.toBeDestroyed)
      && k'.current == k.ready[0]
  {
  }

  /** What a step does to the set of threads and to toBeDestroyed, told from who it deletes. */
  ghost predicate Deletes(k: State, step: Step)
    requires Enabled(k, step)
  {
    var k', gone := Apply(k, step), DeletedBy(k, step);
    && k'.deleted == k.deleted + gone
    && k'.threads.Keys == k.threads.Keys + (if step.Create? then {step.t} else {}) - gone
    && k'.toBeDestroyed == (if step == Finish then Some(k.current) else if gone != {} then None else k.toBeDestroyed)
  }

  lemma YieldDeletes(k: State)
    requires PlacesOk(k) && Enabled(k, Yield) && k.ready != []
    ensures Deletes(k, Yield)
  {
    assert Placed(k, k.ready[0]) && Placed(k, k.current);
    assert Apply(k, Yield) == RunNext(Parked(k));
    RunDeletes(Parked(k));
  }

  lemma ScheduleDeletes(k: State)
    requires PlacesOk(k) && Enabled(k, Schedule) && k.ready != []
    ensures Deletes(k, Schedule)
  {
    RunDeletes(k);
  }

  /** A finished thread is deleted by the next switch to a thread that has run before, and no other way; Create is
      the only way a thread comes. */
  lemma DeletionStep(k: State, step: Step)
    requires PlacesOk(k) && Enabled(k, step)
    ensures Deletes(k, step)
  {
    if Dispatched(k, step) == [] {
      assert Placed(k, k.current);
    } else if step == Yield {
      YieldDeletes(k);
    } else {
      ScheduleDeletes(k);
    }
  }

  /** A thread is fresh from its creation until it first gets the processor. */
  lemma FreshStep(k: State, step: Step, t: Tid)
    requires PlacesOk(k) && Enabled(k, step) && t in Apply(k, step).threads
    ensures IsFresh(Apply(k, step), t) <==> step == Create(t) || (IsFresh(k, t) && Dispatched(k, step) != [t])
  {
    assert Placed(k, k.current) && (t in k.threads ==> Placed(k, t));
    if Dispatched(k, step) != [] {
      assert Placed(k, k.ready[0]);
    }
  }

  // ---- the same over every run --------------------------------------------------------------------

  ghost function AllMadeReady(k: State, steps: seq<Step>): seq<Tid>
    requires IsRun(k, steps)
    decreases steps
  {
    if steps == [] then [] else MadeReady(k, steps[0]) + AllMadeReady(Apply(k, steps[0]), steps[1..])
  }

  ghost function AllDispatched(k: State, steps: seq<Step>): seq<Tid>
    requires IsRun(k, steps)
    decreases steps
  {
    if steps == [] then [] else Dispatched(k, steps[0]) + AllDispatched(Apply(k, steps[0]), steps[1..])
  }

  lemma Rotate(a: seq<Tid>, b: seq<Tid>, c: seq<Tid>, d: seq<Tid>, e: seq<Tid>, f: seq<Tid>, g: seq<Tid>)
    requires a + b == c + d && d + e == f + g
    ensures a + (b + e) == (c + f) + g
  {
    assert a + (b + e) == (a + b) + e;
    assert (c + d) + e == c + (d + e);
    assert c + (f + g) == (c + f) + g;
  }

  /** Over every run threads get the processor in the order they were made ready, each as often as it was. */
  lemma {:induction false} ReadyIsFifo(k: State, steps: seq<Step>)
    requires IsRun(k, steps)
    ensures k.ready + AllMadeReady(k, steps) == AllDispatched(k, steps) + After(k, steps).ready
    decreases steps
  {
    if steps != [] {
      var k1 := Apply(k, steps[0]);
      ReadyStep(k, steps[0]);
      ReadyIsFifo(k1, steps[1..]);
      Rotate(k.ready, MadeReady(k, steps[0]), Dispatched(k, steps[0]), k1.ready, AllMadeReady(k1, steps[1..]),
             AllDispatched(k1, steps[1..]), After(k, steps).ready);
    }
  }

  ghost function AllQueuedUp(k: State, steps: seq<Step>, s: Sid): seq<Tid>
    requires IsRun(k, steps)
    decreases steps
  {
    if steps == [] then [] else QueuesUp(k, steps[0], s) + AllQueuedUp(Apply(k, steps[0]), steps[1..], s)
  }

  ghost function AllTakenOff(k: State, steps: seq<Step>, s: Sid): seq<Tid>
    requires IsRun(k, steps)
    decreases steps
  {
    if steps == [] then [] else
    (if s < |k.sems| then TakenOff(k, steps[0], s) else []) + AllTakenOff(Apply(k, steps[0]), steps[1..], s)
  }

  /** How many of the steps are V(s). */
  function Signals(steps: seq<Step>, s: Sid): nat {
    if steps == [] then 0 else (if steps[0] == V(s) then 1 else 0) + Signals(steps[1..], s)
  }

  /** How many P's on s returned. */
  ghost function Returns(k: State, steps: seq<Step>, s: Sid): nat
    requires IsRun(k, steps)
    decreases steps
  {
    if steps == [] then 0 else (if Passes(k, steps[0], s) then 1 else 0) + Returns(Apply(k, steps[0]), steps[1..], s)
  }

  /** Over every run: a semaphore's value is what it was, plus the V's, minus the P's that returned, and never
      negative; and threads are taken off its queue in the order they queued up. */
  lemma {:induction false} SemaphoreCounts(k: State, steps: seq<Step>, s: Sid)
    requires Inv(k) && IsRun(k, steps) && s < |k.sems|
    ensures |After(k, steps).sems| == |k.sems|
    ensures After(k, steps).sems[s].value == k.sems[s].value + Signals(steps, s) - Returns(k, steps, s) >= 0
    ensures k.sems[s].queue + AllQueuedUp(k, steps, s) == AllTakenOff(k, steps, s) + After(k, steps).sems[s].queue
    decreases steps
  {
    assert SemOk(k, s);
    if steps != [] {
      var k1 := Apply(k, steps[0]);
      StepKeepsInv(k, steps[0]);
      SemStep(k, steps[0], s);
      SemaphoreCounts(k1, steps[1..], s);
      Rotate(k.sems[s].queue, QueuesUp(k, steps[0], s), TakenOff(k, steps[0], s), k1.sems[s].queue,
             AllQueuedUp(k1, steps[1..], s), AllTakenOff(k1, steps[1..], s), After(k, steps).sems[s].queue);
    }
  }

  lemma StepKeepsInv(k: State, step: Step)
    requires Inv(k) && Enabled(k, step)
    ensures Inv(Apply(k, step))
  {
    StepKeepsPlaces(k, step);
    SemsKept(k, step);
    forall r | 0 <= r < |k.sems|
      ensures SemOk(Apply(k, step), r)
    {
      StepKeepsSems(k, step, r);
    }
  }

  /** What can happen next: everything the running thread may do, and nothing else, while it runs; then the one
      thing the kernel is in the middle of; and interrupts that signal, while it idles. */
  lemma EnabledExactly(k: State, step: Step)
    requires Inv(k)
    ensures Enabled(k, step) <==>
      match k.phase
      case Executing =>
        (step.Create? && step.t !in k.threads && step.t !in k.deleted) ||
        (step.Fork? && step.t in k.threads && k.threads[step.t].status == JustCreated) ||
        ((step.P? || step.V?) && step.s < |k.sems|) || step == Yield || step == Finish
      case Rechecking(s) => step == Recheck
      case Sleeping => step == Schedule
      case Idling => (step.V? && step.s < |k.sems|) || step == WakeUp
  {
    if step.V? && step.s < |k.sems| && k.sems[step.s].queue != [] {
      QueuedAreThreads(k, step.s, k.sems[step.s].queue[0]);
    }
    if k.ready != [] {
      ReadyAreThreads(k, k.ready[0]);
    }
  }

  lemma ReadyAreThreads(k: State, t: Tid)
    requires PlacesOk(k) && t in k.ready
    ensures t in k.threads
  {
  }

  lemma QueuedAreThreads(k: State, s: Sid, t: Tid)
    requires PlacesOk(k) && s < |k.sems| && t in k.sems[s].queue
    ensures t in k.threads
  {
  }
}
