/**
 The sleep/wake/switch protocol of the scheduler as a state machine.

 Threads and processors are numbered.  A step is what one processor does under the locks it holds:
 waking, poking, scheduling and the three parts of a switch hold the scheduler lock, so they exclude
 one another; a thread that prepares to sleep or dies holds only its own lock, so those two steps
 happen in between, also while another processor is in the middle of a switch.
 */
module Scheduler {
  import opened Seqs

  datatype Status = Building | Awake | Sleeping | Exited | Idle

  /** What the code of the thread is about to do when it runs: anything, switch away after preparing
      to sleep, or switch away for good. */
  datatype Plan = Working | Prepared | Dying

  datatype Thread = Thread(status: Status, active: bool, plan: Plan)

  /** The processor that holds the scheduler lock for a switch, and how far it got. */
  datatype Phase = Unlocked | Deactivated(cpu: nat) | Picked(cpu: nat, next: nat)

  datatype State = State(
    threads: seq<Thread>,
    queue: seq<nat>,      // queued_threads, front first
    list: set<nat>,       // the list of all threads
    current: seq<nat>,    // per processor
    idle: seq<nat>,       // per processor
    phase: Phase,
    up: bool)             // tasking_up

  datatype Step =
    | SleepPrepare(cpu: nat)
    | Die(cpu: nat)
    | Wake(t: nat)
    | Poke(t: nat)
    | Schedule(t: nat)
    | SwitchBegin(cpu: nat, voluntary: bool)
    | PickNext
    | SwitchFinish
    | TaskingUp

  // ---------------------------------------------------------------------------------------------
  // The steps

  function SetStatus(s: State, t: nat, st: Status): State
    requires t < |s.threads|
  {
    s.(threads := s.threads[t := s.threads[t].(status := st)])
  }

  function Enqueue(s: State, t: nat): State {
    s.(queue := [t] + s.queue)
  }

  function DoWake(s: State, t: nat): State
    requires t < |s.threads|
  {
    if s.threads[t].status == Awake then s else
      var s' := if s.threads[t].status == Sleeping then SetStatus(s, t, Awake) else s;
      if !s.threads[t].active then Enqueue(s', t) else s'
  }

  /** `deactivate_thread` */
  function Deactivate(s: State, t: nat): State
    requires t < |s.threads|
  {
    match s.threads[t].status
    case Awake => Enqueue(s, t)
    case Exited => s.(list := s.list - {t})
    case _ => s
  }

  predicate Switching(s: State, cpu: nat) {
    s.phase != Unlocked && s.phase.cpu == cpu
  }

  /** The processor executes the code of an ordinary thread. */
  predicate Executes(s: State, cpu: nat) {
    && cpu < |s.current| && !Switching(s, cpu)
    && s.current[cpu] < |s.threads| && s.threads[s.current[cpu]].status != Idle
  }

  /** When the code can reach the step. */
  predicate Enabled(s: State, step: Step) {
    match step
    case SleepPrepare(cpu) => Executes(s, cpu) && s.threads[s.current[cpu]].plan == Working
    case Die(cpu) => Executes(s, cpu) && s.threads[s.current[cpu]].plan == Working
    case Wake(t) => s.phase == Unlocked && t < |s.threads|
    case Poke(t) => s.phase == Unlocked && t < |s.threads|
    case Schedule(t) => s.phase == Unlocked && t < |s.threads| && s.threads[t].status == Building
    case SwitchBegin(cpu, voluntary) =>
      && s.phase == Unlocked && cpu < |s.current| && s.current[cpu] < |s.threads|
      && (s.threads[s.current[cpu]].plan == Dying ==> voluntary)
    case PickNext => s.phase.Deactivated? && s.phase.cpu < |s.current|
    case SwitchFinish => s.phase.Picked? && s.phase.cpu < |s.current|
    case TaskingUp => true
  }

  predicate Wakeable(th: Thread) {
    th.status == Awake || th.status == Sleeping || th.active
  }

  /** A wake is aimed at a thread that sleeps, is awake or is still active. */
  predicate Aimed(s: State, step: Step) {
    step.Wake? && step.t < |s.threads| ==> Wakeable(s.threads[step.t])
  }

  /** The conditions whose failure makes the step panic. */
  predicate Safe(s: State, step: Step)
    requires Enabled(s, step)
  {
    match step
    case SleepPrepare(cpu) =>
      s.threads[s.current[cpu]].active && s.threads[s.current[cpu]].status == Awake
    case SwitchBegin(cpu, _) =>
      var prev := s.threads[s.current[cpu]];
      prev.status != Building && (prev.status == Awake ==> prev.active)
    case PickNext =>
      && s.phase.cpu < |s.idle| && s.idle[s.phase.cpu] < |s.threads|
      && (s.up && s.queue != [] ==> s.queue[0] < |s.threads| && s.threads[s.queue[0]].status == Awake)
    case SwitchFinish =>
      var prev, next := s.current[s.phase.cpu], s.phase.next;
      && prev < |s.threads| && next < |s.threads|
      && (prev != next ==> !s.threads[next].active)
      && s.threads[next].status in {Idle, Awake}
    case _ => true
  }

  function Do(s: State, step: Step): State
    requires Enabled(s, step) && Safe(s, step)
  {
    match step
    case SleepPrepare(cpu) =>
      var t := s.current[cpu];
      s.(threads := s.threads[t := s.threads[t].(status := Sleeping, plan := Prepared)])
    case Die(cpu) =>
      var t := s.current[cpu];
      s.(threads := s.threads[t := s.threads[t].(status := Exited, plan := Dying)])
    case Wake(t) => DoWake(s, t)
    case Poke(t) => if s.threads[t].status == Sleeping then DoWake(s, t) else s
    case Schedule(t) => DoWake(SetStatus(s.(list := s.list + {t}), t, Sleeping), t)
    case SwitchBegin(cpu, voluntary) =>
      var prev := s.current[cpu];
      var s' := Deactivate(s, prev).(phase := Deactivated(cpu));
      if voluntary && s.threads[prev].plan == Prepared
      then s'.(threads := s'.threads[prev := s'.threads[prev].(plan := Working)])
      else s'
    case PickNext =>
      var cpu := s.phase.cpu;
      if s.up && s.queue != []
      then s.(queue := s.queue[1..], phase := Picked(cpu, s.queue[0]))
      else s.(phase := Picked(cpu, s.idle[cpu]))
    case SwitchFinish =>
      var cpu, next := s.phase.cpu, s.phase.next;
      var ts := s.threads[s.current[cpu] := s.threads[s.current[cpu]].(active := false)];
      s.(threads := ts[next := ts[next].(active := true)], current := s.current[cpu := next], phase := Unlocked)
    case TaskingUp => s.(up := true)
  }

  // ---------------------------------------------------------------------------------------------
  // The invariant

  ghost predicate Current(s: State, t: nat) {
    exists c :: 0 <= c < |s.current| && s.current[c] == t
  }

  ghost predicate Leaving(s: State, t: nat) {
    s.phase != Unlocked && s.phase.cpu < |s.current| && s.current[s.phase.cpu] == t
  }

  /** The threads the run queue must hold: awake and not running; the thread being switched from once
      it is back on the queue; not the one just taken off it. */
  ghost predicate ShouldQueue(s: State, t: nat)
    requires t < |s.threads|
  {
    && s.threads[t].status == Awake
    && (!s.threads[t].active || Leaving(s, t))
    && (s.phase.Picked? ==> t != s.phase.next)
  }

  ghost predicate Shape(s: State) {
    && |s.idle| == |s.current| && Distinct(s.idle) && Distinct(s.current)
    && (forall c :: 0 <= c < |s.idle| ==> s.idle[c] < |s.threads| && s.threads[s.idle[c]].status == Idle)
    && (forall c :: 0 <= c < |s.current| ==> s.current[c] < |s.threads|)
    && (forall c :: 0 <= c < |s.current| && s.threads[s.current[c]].status == Idle ==> s.current[c] == s.idle[c])
    && (s.phase != Unlocked ==> s.phase.cpu < |s.current|)
    && (s.phase.Picked? ==>
          && s.phase.next < |s.threads|
          && (s.phase.next == s.idle[s.phase.cpu]
              || (s.threads[s.phase.next].status == Awake
                  && (!s.threads[s.phase.next].active || Leaving(s, s.phase.next)))))
  }

  ghost predicate QueueOk(s: State) {
    && Distinct(s.queue)
    && (forall t :: t in s.queue ==> t < |s.threads|)
    && (forall t {:trigger t in s.queue} :: 0 <= t < |s.threads| ==> (t in s.queue <==> ShouldQueue(s, t)))
  }

  ghost predicate ThreadOk(s: State, t: nat)
    requires t < |s.threads|
  {
    var th := s.threads[t];
    && (th.status != Idle ==> (th.active <==> Current(s, t)))
    && (th.status == Idle && th.active ==> Current(s, t))
    && (th.plan == Dying <==> th.status == Exited)
    && (th.status == Building ==> !th.active && th.plan == Working)
    && (t in s.list <==> th.status in {Awake, Sleeping} || (th.status == Exited && th.active && !Leaving(s, t)))
    && (th.status == Sleeping && th.active && !Leaving(s, t) ==> th.plan == Prepared)
  }

  ghost predicate Inv(s: State) {
    Shape(s) && QueueOk(s) && forall t :: 0 <= t < |s.threads| ==> ThreadOk(s, t)
  }

  /** No step that the code can reach panics. */
  lemma NoPanic(s: State, step: Step)
    requires Inv(s) && Enabled(s, step)
    ensures Safe(s, step)
  {
    match step
    case SleepPrepare(cpu) =>
      assert ThreadOk(s, s.current[cpu]) && Current(s, s.current[cpu]);
    case SwitchBegin(cpu, _) =>
      assert ThreadOk(s, s.current[cpu]) && Current(s, s.current[cpu]);
    case PickNext =>
      if s.up && s.queue != [] {
        assert s.queue[0] in s.queue;
      }
    case SwitchFinish =>
      assert ThreadOk(s, s.phase.next);
    case _ =>
  }

  // ---------------------------------------------------------------------------------------------
  // Every step keeps the invariant

  lemma SleepPrepareKeeps(s: State, cpu: nat)
    requires Inv(s) && Enabled(s, SleepPrepare(cpu)) && Safe(s, SleepPrepare(cpu))
    ensures Inv(Do(s, SleepPrepare(cpu)))
  {
    var t, s' := s.current[cpu], Do(s, SleepPrepare(cpu));
    forall u | 0 <= u < |s.threads|
      ensures ThreadOk(s', u) && (u in s.queue <==> ShouldQueue(s', u))
    {
      assert ThreadOk(s, u);
    }
  }

  lemma DieKeeps(s: State, cpu: nat)
    requires Inv(s) && Enabled(s, Die(cpu))
    ensures Inv(Do(s, Die(cpu)))
  {
    var s' := Do(s, Die(cpu));
    forall u | 0 <= u < |s.threads|
      ensures ThreadOk(s', u) && (u in s.queue <==> ShouldQueue(s', u))
    {
      assert ThreadOk(s, u) && ThreadOk(s, s.current[cpu]) && Current(s, s.current[cpu]);
    }
  }

  /** Waking a thread that sleeps, wherever it is. */
  lemma WakeSleeper(s: State, t: nat)
    requires Inv(s) && s.phase == Unlocked && t < |s.threads| && s.threads[t].status == Sleeping
    ensures Inv(DoWake(s, t))
  {
    var s' := DoWake(s, t);
    assert ThreadOk(s, t);
    assert t !in s.queue;
    Prepend(s.queue, t);
    forall u | 0 <= u < |s.threads|
      ensures ThreadOk(s', u) && (u in s'.queue <==> ShouldQueue(s', u))
    {
      assert ThreadOk(s, u);
    }
  }

  lemma ScheduleKeeps(s: State, t: nat)
    requires Inv(s) && Enabled(s, Schedule(t))
    ensures Inv(Do(s, Schedule(t)))
  {
    var s' := Do(s, Schedule(t));
    assert ThreadOk(s, t);
    assert t !in s.queue;
    Prepend(s.queue, t);
    forall u | 0 <= u < |s.threads|
      ensures ThreadOk(s', u) && (u in s'.queue <==> ShouldQueue(s', u))
    {
      assert ThreadOk(s, u);
    }
  }

  /** The running thread goes back on the queue, or off the thread list, or stays asleep. */
  lemma DeactivateKeeps(s: State, cpu: nat)
    requires Inv(s) && s.phase == Unlocked && cpu < |s.current|
    ensures Inv(Deactivate(s, s.current[cpu]).(phase := Deactivated(cpu)))
  {
    var t := s.current[cpu];
    var s' := Deactivate(s, t).(phase := Deactivated(cpu));
    assert ThreadOk(s, t) && Current(s, t);
    if s.threads[t].status == Awake {
      assert t !in s.queue;
      Prepend(s.queue, t);
    }
    assert s'.threads == s.threads && forall u :: Leaving(s', u) <==> u == t;
    forall u | 0 <= u < |s.threads|
      ensures ThreadOk(s', u)
    {
      assert ThreadOk(s, u);
      assert Current(s', u) <==> Current(s, u);
    }
    assert forall u :: 0 <= u < |s.threads| ==> (u in s'.queue <==> ShouldQueue(s', u));
  }

  /** A thread that switches away of its own accord will find itself past the switch when it runs again. */
  lemma PlanDone(s: State, cpu: nat)
    requires Inv(s) && s.phase == Deactivated(cpu) && cpu < |s.current| && s.threads[s.current[cpu]].plan == Prepared
    ensures var t := s.current[cpu]; Inv(s.(threads := s.threads[t := s.threads[t].(plan := Working)]))
  {
    var t := s.current[cpu];
    var s' := s.(threads := s.threads[t := s.threads[t].(plan := Working)]);
    assert ThreadOk(s, t) && Current(s, t);
    forall u | 0 <= u < |s.threads|
      ensures ThreadOk(s', u) && (u in s'.queue <==> ShouldQueue(s', u))
    {
      assert ThreadOk(s, u);
    }
  }

  lemma SwitchBeginKeeps(s: State, cpu: nat, voluntary: bool)
    requires Inv(s) && Enabled(s, SwitchBegin(cpu, voluntary)) && Safe(s, SwitchBegin(cpu, voluntary))
    ensures Inv(Do(s, SwitchBegin(cpu, voluntary)))
  {
    hide Inv;
    DeactivateKeeps(s, cpu);
    if voluntary && s.threads[s.current[cpu]].plan == Prepared {
      PlanDone(Deactivate(s, s.current[cpu]).(phase := Deactivated(cpu)), cpu);
    }
  }

  lemma PickNextKeeps(s: State)
    requires Inv(s) && Enabled(s, PickNext) && Safe(s, PickNext)
    ensures Inv(Do(s, PickNext))
  {
    var s' := Do(s, PickNext);
    if s.up && s.queue != [] {
      Tail(s.queue);
      assert s.queue[0] in s.queue;
    }
    assert s'.threads == s.threads && forall u :: Leaving(s', u) <==> Leaving(s, u);
    forall u | 0 <= u < |s.threads|
      ensures ThreadOk(s', u) && (u in s'.queue <==> ShouldQueue(s', u))
    {
      assert ThreadOk(s, u);
      assert Current(s', u) <==> Current(s, u);
    }
  }

  lemma SwitchFinishKeeps(s: State)
    requires Inv(s) && Enabled(s, SwitchFinish) && Safe(s, SwitchFinish)
    ensures Inv(Do(s, SwitchFinish))
  {
    hide DoWake, Deactivate, Executes, Aimed;
    var s' := Do(s, SwitchFinish);
    var cpu, prev, next := s.phase.cpu, s.current[s.phase.cpu], s.phase.next;
    assert ThreadOk(s, next);
    forall c | 0 <= c < |s.current| && c != cpu
      ensures s.current[c] != next
    {
      assert ThreadOk(s, s.current[c]) && Current(s, s.current[c]);
    }
    forall u | 0 <= u < |s.threads|
      ensures ThreadOk(s', u) && (u in s'.queue <==> ShouldQueue(s', u))
    {
      assert ThreadOk(s, u);
      FinishCurrent(s, s', u);
    }
  }

  lemma FinishCurrent(s: State, s': State, u: nat)
    requires s.phase.Picked? && s.phase.cpu < |s.current| && s'.current == s.current[s.phase.cpu := s.phase.next]
    requires Distinct(s.current)
    ensures Current(s', u) <==> u == s.phase.next || (Current(s, u) && u != s.current[s.phase.cpu])
  {
    assert s'.current[s.phase.cpu] == s.phase.next;
    if u != s.current[s.phase.cpu] && Current(s, u) {
      var c :| 0 <= c < |s.current| && s.current[c] == u;
      assert s'.current[c] == u;
    }
  }

  lemma StepKeeps(s: State, step: Step)
    requires Inv(s) && Enabled(s, step) && Aimed(s, step)
    ensures Safe(s, step) && Inv(Do(s, step))
  {
    hide Inv, Enabled, Safe, Aimed;
    NoPanic(s, step);
    match step
    case SleepPrepare(cpu) => SleepPrepareKeeps(s, cpu);
    case Die(cpu) => DieKeeps(s, cpu);
    case Wake(t) => WakeKeeps(s, t);
    case Poke(t) => PokeKeeps(s, t);
    case Schedule(t) => ScheduleKeeps(s, t);
    case SwitchBegin(cpu, voluntary) => SwitchBeginKeeps(s, cpu, voluntary);
    case PickNext => PickNextKeeps(s);
    case SwitchFinish => SwitchFinishKeeps(s);
    case TaskingUp => UpKeeps(s);
  }

  lemma WakeKeeps(s: State, t: nat)
    requires Inv(s) && Enabled(s, Wake(t)) && Aimed(s, Wake(t))
    ensures Inv(Do(s, Wake(t)))
  {
    if s.threads[t].status == Sleeping {
      WakeSleeper(s, t);
    }
  }

  lemma PokeKeeps(s: State, t: nat)
    requires Inv(s) && Enabled(s, Poke(t))
    ensures Inv(Do(s, Poke(t)))
  {
    if s.threads[t].status == Sleeping {
      WakeSleeper(s, t);
    }
  }

  lemma UpKeeps(s: State)
    requires Inv(s)
    ensures Inv(Do(s, TaskingUp))
  {
    var s' := Do(s, TaskingUp);
    forall u | 0 <= u < |s.threads|
      ensures ThreadOk(s', u) && (u in s'.queue <==> ShouldQueue(s', u))
    {
      assert ThreadOk(s, u);
    }
  }

  // ---------------------------------------------------------------------------------------------
  // Runs

  /** A schedule is any sequence of steps; one that the code cannot reach at its turn does not happen. A
      panic stops everything. */
  function Run(s: State, steps: seq<Step>): State
    decreases |steps|
  {
    if steps == [] then s
    else if !Enabled(s, steps[0]) then Run(s, steps[1..])
    else if !Safe(s, steps[0]) then s
    else Run(Do(s, steps[0]), steps[1..])
  }

  /** Every wake of the run is aimed. */
  predicate AimedRun(s: State, steps: seq<Step>)
    decreases |steps|
  {
    steps != [] ==>
      if !Enabled(s, steps[0]) then AimedRun(s, steps[1..])
      else Aimed(s, steps[0]) && (Safe(s, steps[0]) ==> AimedRun(Do(s, steps[0]), steps[1..]))
  }

  lemma {:induction false} RunKeeps(s: State, steps: seq<Step>)
    requires Inv(s) && AimedRun(s, steps)
    ensures Inv(Run(s, steps))
    decreases |steps|
  {
    hide Inv, Enabled, Safe, Do, Aimed;
    if steps != [] {
      if Enabled(s, steps[0]) {
        StepKeeps(s, steps[0]);
        RunKeeps(Do(s, steps[0]), steps[1..]);
      } else {
        RunKeeps(s, steps[1..]);
      }
    }
  }

  /** Every processor runs its idle thread; all other threads are still being built. */
  ghost predicate Start(s: State) {
    && |s.idle| == |s.current| && s.current == s.idle && Distinct(s.idle)
    && (forall c :: 0 <= c < |s.idle| ==>
          s.idle[c] < |s.threads| && s.threads[s.idle[c]] == Thread(Idle, false, Working))
    && (forall t :: 0 <= t < |s.threads| && s.threads[t].status != Idle ==>
          s.threads[t] == Thread(Building, false, Working))
    && (forall t :: 0 <= t < |s.threads| && s.threads[t].status == Idle ==> t in s.idle && !s.threads[t].active)
    && s.queue == [] && s.list == {} && s.phase == Unlocked
  }

  lemma StartInv(s: State)
    requires Start(s)
    ensures Inv(s)
  {
    forall t | 0 <= t < |s.threads|
      ensures ThreadOk(s, t)
    {
      assert Current(s, t) ==> s.threads[t].status == Idle;
      assert s.threads[t].status == Idle ==> s.threads[t].plan == Working;
    }
  }

  /** At any point of any run with aimed wakes where the scheduler lock is free: the run queue holds each thread that is
      awake and not running exactly once and nothing else, no thread is current on two processors, the
      ordinary threads that are active are exactly those that are current, and no reachable step panics. */
  lemma EveryRun(s0: State, steps: seq<Step>)
    requires Start(s0) && AimedRun(s0, steps)
    ensures var s := Run(s0, steps);
            && Distinct(s.queue) && Distinct(s.current)
            && (s.phase == Unlocked ==>
                  forall t :: 0 <= t < |s.threads| ==>
                    (t in s.queue <==> s.threads[t].status == Awake && !s.threads[t].active))
            && (forall t :: 0 <= t < |s.threads| && s.threads[t].status != Idle ==>
                  (s.threads[t].active <==> Current(s, t)))
            && (forall step :: Enabled(s, step) ==> Safe(s, step))
  {
    StartInv(s0);
    RunKeeps(s0, steps);
    var s := Run(s0, steps);
    forall step | Enabled(s, step)
      ensures Safe(s, step)
    {
      NoPanic(s, step);
    }
    forall t | 0 <= t < |s.threads|
      ensures s.threads[t].status != Idle ==> (s.threads[t].active <==> Current(s, t))
    {
      assert ThreadOk(s, t);
    }
  }

  // ---------------------------------------------------------------------------------------------
  // Wake-ups are not lost

  /** The code of thread `t` itself takes the step. */
  predicate TakenBy(s: State, step: Step, t: nat) {
    match step
    case SleepPrepare(cpu) => cpu < |s.current| && s.current[cpu] == t
    case Die(cpu) => cpu < |s.current| && s.current[cpu] == t
    case _ => false
  }

  /** `t` neither prepares to sleep nor dies during the run. */
  predicate KeepsGoing(s: State, steps: seq<Step>, t: nat)
    decreases |steps|
  {
    steps != [] ==>
      if !Enabled(s, steps[0]) then KeepsGoing(s, steps[1..], t)
      else !TakenBy(s, steps[0], t) && (Safe(s, steps[0]) ==> KeepsGoing(Do(s, steps[0]), steps[1..], t))
  }

  lemma StaysAwake(s: State, step: Step, t: nat)
    requires Enabled(s, step) && Safe(s, step) && !TakenBy(s, step, t)
    requires t < |s.threads| && s.threads[t].status == Awake
    ensures t < |Do(s, step).threads| && Do(s, step).threads[t].status == Awake
  {
  }

  lemma {:induction false} AwakeUntilItSleeps(s: State, steps: seq<Step>, t: nat)
    requires KeepsGoing(s, steps, t)
    requires t < |s.threads| && s.threads[t].status == Awake
    ensures t < |Run(s, steps).threads| && Run(s, steps).threads[t].status == Awake
    decreases |steps|
  {
    hide TakenBy;
    if steps != [] {
      if Enabled(s, steps[0]) && Safe(s, steps[0]) {
        StaysAwake(s, steps[0], t);
        AwakeUntilItSleeps(Do(s, steps[0]), steps[1..], t);
      } else if !Enabled(s, steps[0]) {
        AwakeUntilItSleeps(s, steps[1..], t);
      }
    }
  }

  /** A wake or a poke, also one that lands between `thread_sleep_prepare` and the switch, is not lost: until the
      thread itself goes to sleep again or dies, whenever the scheduler lock is free the thread is
      either running or on the run queue. */
  lemma WakeNotLost(s: State, t: nat, call: Step, steps: seq<Step>)
    requires call == Wake(t) || call == Poke(t)
    requires Inv(s) && Enabled(s, call) && (s.threads[t].status == Awake || s.threads[t].status == Sleeping)
    requires Safe(s, call) && AimedRun(Do(s, call), steps) && KeepsGoing(Do(s, call), steps, t)
    ensures var s' := Run(Do(s, call), steps);
            t < |s'.threads| && (s'.phase == Unlocked ==> Current(s', t) || t in s'.queue)
  {
    hide AimedRun, KeepsGoing, Run, Shape;
    StepKeeps(s, call);
    StatusMoves(s, call, t);
    var w := Do(s, call);
    AwakeUntilItSleeps(w, steps, t);
    RunKeeps(w, steps);
    assert ThreadOk(Run(w, steps), t);
  }

  /** What a step is to a thread: its own code puts it to sleep or ends it, a wake or a poke ends its sleep whether
      it still runs or not, starting it makes it awake, and nothing else touches its status. */
  lemma StatusMoves(s: State, step: Step, t: nat)
    requires Enabled(s, step) && Safe(s, step) && t < |s.threads|
    ensures |Do(s, step).threads| == |s.threads|
    ensures Do(s, step).threads[t].status ==
            if TakenBy(s, step, t) then (if step.Die? then Exited else Sleeping)
            else if step == Schedule(t) || (s.threads[t].status == Sleeping && (step == Wake(t) || step == Poke(t)))
            then Awake
            else s.threads[t].status
  {
    match step
    case SleepPrepare(_) =>
    case Die(_) =>
    case SwitchBegin(_, _) =>
    case SwitchFinish =>
    case _ =>
  }

  /** No processor is ever stuck: with the scheduler lock free every processor can switch, of its own accord or by
      force unless its thread is dying, and a switch that was begun can go on. */
  lemma NeverStuck(s: State)
    requires Inv(s)
    ensures match s.phase
            case Unlocked =>
              forall cpu :: 0 <= cpu < |s.current| ==>
                && s.current[cpu] < |s.threads| && Enabled(s, SwitchBegin(cpu, true))
                && (Enabled(s, SwitchBegin(cpu, false)) <==> s.threads[s.current[cpu]].plan != Dying)
            case Deactivated(_) => Enabled(s, PickNext)
            case Picked(_, _) => Enabled(s, SwitchFinish)
  {
  }

  // ---------------------------------------------------------------------------------------------
  // A whole switch

  function WholeSwitch(cpu: nat, voluntary: bool): seq<Step> {
    [SwitchBegin(cpu, voluntary), PickNext, SwitchFinish]
  }

  /** The thread that a switch gives the processor to: the queue is a stack, so a thread that stays awake gets the
      processor back at once; otherwise the last one queued has it, and the idle thread if there is none. */
  function Successor(s: State, cpu: nat): nat
    requires cpu < |s.current| == |s.idle| && s.current[cpu] < |s.threads|
  {
    if s.up && s.threads[s.current[cpu]].status == Awake then s.current[cpu]
    else if s.up && s.queue != [] then s.queue[0]
    else s.idle[cpu]
  }

  /** A switch, from taking the scheduler lock to dropping it: the processor goes to the successor, which comes off the
      queue; the thread before it is on the queue if it is awake and lost the processor, and off the thread list if
      it has exited; nothing else changes. */
  lemma SwitchDoes(s: State, cpu: nat, voluntary: bool)
    requires Inv(s) && Enabled(s, SwitchBegin(cpu, voluntary))
    ensures cpu < |s.current| == |s.idle| && s.current[cpu] < |s.threads|
    ensures var t := Run(s, WholeSwitch(cpu, voluntary));
            SwitchedLists(s, cpu, t) && forall u :: 0 <= u < |s.threads| ==> SwitchedThread(s, cpu, voluntary, t, u)
  {
    hide Inv, Do, Enabled, Safe, SwitchedLists, Deactivate, Run;
    var begin := SwitchBegin(cpu, voluntary);
    StepKeeps(s, begin);
    var s1 := Do(s, begin);
    Begun(s, cpu, voluntary);
    StepKeeps(s1, PickNext);
    var s2 := Do(s1, PickNext);
    Chosen(s1);
    StepKeeps(s2, SwitchFinish);
    ThreeSteps(s, begin, PickNext, SwitchFinish);
    BegunThreads(s, cpu, voluntary);
    SwitchLists(s, cpu, s1, s2);
    forall u | 0 <= u < |s.threads|
      ensures SwitchedThread(s, cpu, voluntary, Do(s2, SwitchFinish), u)
    {
      FinishedThread(s2, u);
    }
  }

  ghost predicate SwitchedLists(s: State, cpu: nat, t: State)
    requires cpu < |s.current| == |s.idle| && s.current[cpu] < |s.threads|
  {
    var prev, next := s.current[cpu], Successor(s, cpu);
    && t.phase == Unlocked && t.up == s.up && t.idle == s.idle && |t.threads| == |s.threads|
    && t.current == s.current[cpu := next]
    && t.queue == (if s.threads[prev].status == Awake then (if s.up then s.queue else [prev] + s.queue)
                   else if s.up && s.queue != [] then s.queue[1..] else s.queue)
    && t.list == (if s.threads[prev].status == Exited then s.list - {prev} else s.list)
  }

  ghost predicate SwitchedThread(s: State, cpu: nat, voluntary: bool, t: State, u: nat)
    requires cpu < |s.current| == |s.idle| && s.current[cpu] < |s.threads| && u < |s.threads|
  {
    var prev := s.current[cpu];
    && u < |t.threads| && t.threads[u].status == s.threads[u].status
    && t.threads[u].active == (u == Successor(s, cpu) || (u != prev && s.threads[u].active))
    && t.threads[u].plan == (if u == prev && voluntary && s.threads[u].plan == Prepared
                             then Working else s.threads[u].plan)
  }

  lemma Begun(s: State, cpu: nat, voluntary: bool)
    requires Inv(s) && Enabled(s, SwitchBegin(cpu, voluntary)) && Safe(s, SwitchBegin(cpu, voluntary))
    ensures Enabled(Do(s, SwitchBegin(cpu, voluntary)), PickNext)
    ensures cpu < |s.current| == |s.idle| && s.current[cpu] < |s.threads|
  {
    Bounds(s, cpu);
  }

  lemma Chosen(s: State)
    requires Enabled(s, PickNext) && Safe(s, PickNext)
    ensures Enabled(Do(s, PickNext), SwitchFinish)
  {
  }

  lemma SwitchLists(s: State, cpu: nat, s1: State, s2: State)
    requires cpu < |s.current| == |s.idle| && s.current[cpu] < |s.threads|
    requires s1.(threads := s.threads) == Deactivate(s, s.current[cpu]).(phase := Deactivated(cpu))
    requires |s1.threads| == |s.threads|
    requires Enabled(s1, PickNext) && Safe(s1, PickNext) && s2 == Do(s1, PickNext)
    requires Enabled(s2, SwitchFinish) && Safe(s2, SwitchFinish)
    ensures s2.phase == Picked(cpu, Successor(s, cpu)) && s2.current == s.current && s2.threads == s1.threads
    ensures SwitchedLists(s, cpu, Do(s2, SwitchFinish))
  {
  }

  lemma BegunThreads(s: State, cpu: nat, voluntary: bool)
    requires Enabled(s, SwitchBegin(cpu, voluntary)) && Safe(s, SwitchBegin(cpu, voluntary))
    ensures var t := Do(s, SwitchBegin(cpu, voluntary));
            && t.(threads := s.threads) == Deactivate(s, s.current[cpu]).(phase := Deactivated(cpu))
            && |t.threads| == |s.threads|
            && forall u :: 0 <= u < |s.threads| ==>
                 && t.threads[u].status == s.threads[u].status && t.threads[u].active == s.threads[u].active
                 && t.threads[u].plan == (if u == s.current[cpu] && voluntary && s.threads[u].plan == Prepared
                                          then Working else s.threads[u].plan)
  {
  }

  lemma FinishedThread(s: State, u: nat)
    requires Enabled(s, SwitchFinish) && Safe(s, SwitchFinish) && u < |s.threads|
    ensures var t := Do(s, SwitchFinish);
            && u < |t.threads|
            && t.threads[u] == s.threads[u].(active := t.threads[u].active)
            && t.threads[u].active == (u == s.phase.next || (u != s.current[s.phase.cpu] && s.threads[u].active))
  {
  }

  lemma Bounds(s: State, cpu: nat)
    requires Inv(s) && cpu < |s.current|
    ensures cpu < |s.idle| == |s.current| && s.current[cpu] < |s.threads| && s.idle[cpu] < |s.threads|
  {
  }

  lemma ThreeSteps(s: State, a: Step, b: Step, c: Step)
    requires Enabled(s, a) && Safe(s, a)
    requires Enabled(Do(s, a), b) && Safe(Do(s, a), b)
    requires Enabled(Do(Do(s, a), b), c) && Safe(Do(Do(s, a), b), c)
    ensures Run(s, [a, b, c]) == Do(Do(Do(s, a), b), c)
  {
    hide Enabled, Safe, Do;
    assert [a, b, c] == [a] + ([b] + ([c] + []));
    OneStep(s, a, [b] + ([c] + []));
    OneStep(Do(s, a), b, [c] + []);
    OneStep(Do(Do(s, a), b), c, []);
  }

  /** The last thread woken is the next to run, on whichever processor is free first. */
  lemma LastWokenRunsNext(s: State, t: nat, cpu: nat, voluntary: bool)
    requires Inv(s) && s.up && Enabled(s, Wake(t)) && s.threads[t].status == Sleeping && !s.threads[t].active
    requires var w := Do(s, Wake(t));
             Enabled(w, SwitchBegin(cpu, voluntary)) && w.threads[w.current[cpu]].status != Awake
    ensures Run(Do(s, Wake(t)), WholeSwitch(cpu, voluntary)).current == s.current[cpu := t]
  {
    StepKeeps(s, Wake(t));
    SwitchDoes(Do(s, Wake(t)), cpu, voluntary);
  }

  /** The restriction on `thread_wake` is exact: waking keeps the queue in order if and only if the
      target sleeps, is awake or is active. Otherwise a thread that must not run lands on the queue. */
  lemma WakeExactly(s: State, t: nat)
    requires Inv(s) && s.phase == Unlocked && t < |s.threads|
    ensures Inv(DoWake(s, t)) <==> Aimed(s, Wake(t))
  {
    if s.threads[t].status == Sleeping {
      WakeSleeper(s, t);
    } else if s.threads[t].status != Awake && !s.threads[t].active {
      assert t in DoWake(s, t).queue;
      assert !ShouldQueue(DoWake(s, t), t);
    }
  }

  /** And then the panic is two steps away, on any processor that is idle. */
  lemma BadWakePanics(s: State, t: nat, cpu: nat)
    requires Inv(s) && s.phase == Unlocked && s.up && t < |s.threads| && cpu < |s.current|
    requires !Wakeable(s.threads[t])
    requires s.threads[s.current[cpu]].status == Idle && s.threads[s.current[cpu]].plan == Working
    ensures var begin := SwitchBegin(cpu, true); var w := DoWake(s, t);
            && Enabled(w, begin) && Safe(w, begin)
            && Enabled(Do(w, begin), PickNext) && !Safe(Do(w, begin), PickNext)
  {
  }

  // ---------------------------------------------------------------------------------------------
  // A run that ends in the panic

  /** One processor with its idle thread, and one thread to be started. */
  function OneProcessor(): State {
    State([Thread(Idle, false, Working), Thread(Building, false, Working)], [], {}, [0], [0], Unlocked, false)
  }

  /** The processor is idle; thread 1 is switched away. */
  function Parked(idle: bool, st: Status, plan: Plan, queue: seq<nat>, list: set<nat>): State {
    State([Thread(Idle, idle, Working), Thread(st, false, plan)], queue, list, [0], [0], Unlocked, true)
  }

  /** The processor runs thread 1. */
  function Running(st: Status, plan: Plan, list: set<nat>): State {
    State([Thread(Idle, false, Working), Thread(st, true, plan)], [], list, [1], [0], Unlocked, true)
  }

  function Switch(): seq<Step> {
    [SwitchBegin(0, true), PickNext, SwitchFinish]
  }

  lemma OneStep(s: State, step: Step, rest: seq<Step>)
    requires Enabled(s, step) && Safe(s, step)
    ensures Run(s, [step] + rest) == Run(Do(s, step), rest)
  {
    hide Enabled, Safe, Do;
    assert ([step] + rest)[1..] == rest;
  }

  lemma OneSwitch(s: State, rest: seq<Step>)
    requires Enabled(s, SwitchBegin(0, true)) && Safe(s, SwitchBegin(0, true))
    requires var s1 := Do(s, SwitchBegin(0, true));
             && Enabled(s1, PickNext) && Safe(s1, PickNext)
             && var s2 := Do(s1, PickNext); Enabled(s2, SwitchFinish) && Safe(s2, SwitchFinish)
    ensures Run(s, Switch() + rest) ==
            Run(Do(Do(Do(s, SwitchBegin(0, true)), PickNext), SwitchFinish), rest)
  {
    hide Enabled, Safe, Do, Run;
    var s1 := Do(s, SwitchBegin(0, true));
    var s2 := Do(s1, PickNext);
    OneStep(s, SwitchBegin(0, true), [PickNext, SwitchFinish] + rest);
    OneStep(s1, PickNext, [SwitchFinish] + rest);
    OneStep(s2, SwitchFinish, rest);
    assert Switch() + rest == [SwitchBegin(0, true)] + ([PickNext, SwitchFinish] + rest);
    assert [PickNext, SwitchFinish] + rest == [PickNext] + ([SwitchFinish] + rest);
  }

  /** The idle processor takes the thread off the queue. */
  lemma TakesTurn(idle: bool, list: set<nat>, rest: seq<Step>)
    ensures Run(Parked(idle, Awake, Working, [1], list), Switch() + rest) == Run(Running(Awake, Working, list), rest)
  {
    hide Run;
    var s := Parked(idle, Awake, Working, [1], list);
    OneSwitch(s, rest);
    var t := Do(Do(Do(s, SwitchBegin(0, true)), PickNext), SwitchFinish);
    assert t.threads == Running(Awake, Working, list).threads;
    assert t.queue == [] && t.current == Running(Awake, Working, list).current;
    assert t == Running(Awake, Working, list);
  }

  /** The thread switches away, asleep or for good. */
  lemma LeavesAsleep(list: set<nat>, rest: seq<Step>)
    ensures Run(Running(Sleeping, Prepared, list), Switch() + rest) ==
            Run(Parked(true, Sleeping, Working, [], list), rest)
  {
    hide Run;
    var s := Running(Sleeping, Prepared, list);
    OneSwitch(s, rest);
    var t := Do(Do(Do(s, SwitchBegin(0, true)), PickNext), SwitchFinish);
    assert t.threads == Parked(true, Sleeping, Working, [], list).threads;
    assert t.queue == [] && t.current == Parked(true, Sleeping, Working, [], list).current;
    assert t == Parked(true, Sleeping, Working, [], list);
  }

  lemma LeavesDead(list: set<nat>, rest: seq<Step>)
    ensures Run(Running(Exited, Dying, list), Switch() + rest) ==
            Run(Parked(true, Exited, Dying, [], list - {1}), rest)
  {
    hide Run;
    var s := Running(Exited, Dying, list);
    OneSwitch(s, rest);
    var t := Do(Do(Do(s, SwitchBegin(0, true)), PickNext), SwitchFinish);
    assert t.threads == Parked(true, Exited, Dying, [], list - {1}).threads;
    assert t.queue == [] && t.current == Parked(true, Exited, Dying, [], list - {1}).current;
    assert t == Parked(true, Exited, Dying, [], list - {1});
  }

  /** The timer wakes the dead thread, and the idle processor looks for something to run. */
  function TimerFires(): seq<Step> {
    [Wake(1)] + [SwitchBegin(0, true)]
  }

  /** A signal wakes the sleeping thread early, and it dies of it. The timer is still set. */
  function DiesOfSignal(): seq<Step> {
    [Poke(1)] + (Switch() + ([Die(0)] + (Switch() + TimerFires())))
  }

  /** A thread is started and goes to sleep with a timer set to wake it. */
  function SleepsWithTimer(): seq<Step> {
    [TaskingUp] + ([Schedule(1)] + (Switch() + ([SleepPrepare(0)] + (Switch() + DiesOfSignal()))))
  }

  lemma DeadThreadWoken(list: set<nat>)
    ensures var s := Run(Parked(true, Exited, Dying, [], list), TimerFires());
            Enabled(s, PickNext) && !Safe(s, PickNext)
  {
    var s := Parked(true, Exited, Dying, [], list);
    OneStep(s, Wake(1), [SwitchBegin(0, true)]);
    var s1 := Do(s, Wake(1));
    assert [SwitchBegin(0, true)] == [SwitchBegin(0, true)] + [];
    OneStep(s1, SwitchBegin(0, true), []);
  }

  /** `msleep` leaves its timer set when a signal wakes the thread early. If the thread dies of the signal and is
      switched away before the timer fires, the timer wakes a dead thread, and the scheduler panics over its
      state. */
  lemma TimerAfterDeath()
    ensures Start(OneProcessor())
    ensures var s := Run(OneProcessor(), SleepsWithTimer());
            Enabled(s, PickNext) && !Safe(s, PickNext)
  {
    hide Run;
    var list: set<nat> := {1};
    StartsAndSleeps(list);
    SignalKills(list);
    DeadThreadWoken(list - {1});
  }

  lemma StartsAndSleeps(list: set<nat>)
    requires list == {1}
    ensures Run(OneProcessor(), SleepsWithTimer()) == Run(Parked(true, Sleeping, Working, [], list), DiesOfSignal())
  {
    hide Run, DiesOfSignal;
    var rest3 := Switch() + DiesOfSignal();
    var rest2 := Switch() + ([SleepPrepare(0)] + rest3);
    OneStep(OneProcessor(), TaskingUp, [Schedule(1)] + rest2);
    OneStep(Do(OneProcessor(), TaskingUp), Schedule(1), rest2);
    assert Do(Do(OneProcessor(), TaskingUp), Schedule(1)) == Parked(false, Awake, Working, [1], list);
    TakesTurn(false, list, [SleepPrepare(0)] + rest3);
    OneStep(Running(Awake, Working, list), SleepPrepare(0), rest3);
    assert Do(Running(Awake, Working, list), SleepPrepare(0)) == Running(Sleeping, Prepared, list);
    LeavesAsleep(list, DiesOfSignal());
  }

  lemma SignalKills(list: set<nat>)
    ensures Run(Parked(true, Sleeping, Working, [], list), DiesOfSignal()) ==
            Run(Parked(true, Exited, Dying, [], list - {1}), TimerFires())
  {
    hide Run, TimerFires;
    var rest2 := Switch() + TimerFires();
    OneStep(Parked(true, Sleeping, Working, [], list), Poke(1), Switch() + ([Die(0)] + rest2));
    assert Do(Parked(true, Sleeping, Working, [], list), Poke(1)) == Parked(true, Awake, Working, [1], list);
    TakesTurn(true, list, [Die(0)] + rest2);
    OneStep(Running(Awake, Working, list), Die(0), rest2);
    assert Do(Running(Awake, Working, list), Die(0)) == Running(Exited, Dying, list);
    LeavesDead(list, TimerFires());
  }
}
