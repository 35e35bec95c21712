/**
 Semaphores on top of the scheduler: any number of semaphores, whose waiting threads are put to sleep and
 woken by the scheduler, with one flag per thread that says it is on some wait list.

 A step of a semaphore is what happens under its lock; where it prepares the thread to sleep or wakes one, it
 contains that step of the scheduler.
 */
module Waiting {
  import opened Common
  import opened Seqs
  import Sched = Scheduler

  datatype Sem = Sem(count: nat, waiters: seq<nat>)

  datatype State = State(
    sched: Sched.State,
    sems: seq<Sem>,
    insem: set<nat>,         // the threads with THREAD_FLAG_INSEM
    downing: map<nat, nat>)  // the threads that yielded inside a down, and of which semaphore

  /** `keep` is the value of the caller's condition, when the step evaluates it. */
  datatype Step =
    | Other(step: Sched.Step)
    | Down(cpu: nat, sem: nat, keep: bool)
    | Resume(cpu: nat, keep: bool)
    | Up(sem: nat)

  /** The processor executes the code of a thread that is neither about to switch away nor dying. */
  predicate Works(s: State, cpu: nat) {
    Sched.Enabled(s.sched, Sched.SleepPrepare(cpu))
  }

  /** Threads inside a down do not prepare to sleep otherwise and do not die: they come back to the down. */
  predicate Enabled(s: State, step: Step) {
    match step
    case Other(st) =>
      && Sched.Enabled(s.sched, st) && Sched.Aimed(s.sched, st)
      && (st.SleepPrepare? || st.Die? ==> s.sched.current[st.cpu] !in s.downing)
    case Down(cpu, k, _) =>
      k < |s.sems| && Works(s, cpu) && s.sched.current[cpu] !in s.downing
    case Resume(cpu, _) =>
      Works(s, cpu) && s.sched.current[cpu] in s.downing && s.downing[s.sched.current[cpu]] < |s.sems|
    case Up(k) => k < |s.sems| && s.sched.phase == Sched.Unlocked
  }

  /** The token that was promised to a woken thread is gone. */
  predicate NoToken(s: State, step: Step)
    requires Enabled(s, step)
  {
    step.Resume? && var t := s.sched.current[step.cpu]; t !in s.insem && s.sems[s.downing[t]].count == 0
  }

  /** The conditions whose failure makes the step panic, and the condition under which the scheduler keeps
      its promises when a thread is woken. */
  predicate Safe(s: State, step: Step)
    requires Enabled(s, step)
  {
    && !NoToken(s, step)
    && match step
       case Other(st) => Sched.Safe(s.sched, st)
       case Down(cpu, k, keep) =>
         s.sems[k].count == 0 ==>
           s.sched.current[cpu] !in s.insem && (keep ==> Sched.Safe(s.sched, Sched.SleepPrepare(cpu)))
       case Resume(cpu, keep) =>
         s.sched.current[cpu] in s.insem && keep ==> Sched.Safe(s.sched, Sched.SleepPrepare(cpu))
       case Up(k) =>
         s.sems[k].waiters != [] ==>
           var w := s.sems[k].waiters[0];
           w in s.insem && w < |s.sched.threads| && Sched.Aimed(s.sched, Sched.Wake(w))
  }

  function SetSem(s: State, k: nat, sem: Sem): State
    requires k < |s.sems|
  {
    s.(sems := s.sems[k := sem])
  }

  function Take(s: State, k: nat): State
    requires k < |s.sems| && s.sems[k].count > 0
  {
    SetSem(s, k, s.sems[k].(count := s.sems[k].count - 1))
  }

  function Do(s: State, step: Step): State
    requires Enabled(s, step) && Safe(s, step)
  {
    match step
    case Other(st) => s.(sched := Sched.Do(s.sched, st))
    case Down(cpu, k, keep) =>
      var t := s.sched.current[cpu];
      if s.sems[k].count > 0 then Take(s, k)
      else if !keep then s  // put on the wait list, and taken off it again
      else
        SetSem(s, k, s.sems[k].(waiters := [t] + s.sems[k].waiters))
        .(insem := s.insem + {t}, downing := s.downing[t := k], sched := Sched.Do(s.sched, Sched.SleepPrepare(cpu)))
    case Resume(cpu, keep) =>
      var t := s.sched.current[cpu];
      var k := s.downing[t];
      if t !in s.insem then Take(s, k).(downing := s.downing - {t})
      else if keep then s.(sched := Sched.Do(s.sched, Sched.SleepPrepare(cpu)))
      else
        SetSem(s, k, s.sems[k].(waiters := Without(s.sems[k].waiters, t)))
        .(insem := s.insem - {t}, downing := s.downing - {t})
    case Up(k) =>
      var sem := s.sems[k];
      var more := (sem.count + 1) % TWO32;
      if sem.waiters == [] then SetSem(s, k, Sem(more, []))
      else
        SetSem(s, k, Sem(more, sem.waiters[1..]))
        .(insem := s.insem - {sem.waiters[0]}, sched := Sched.Do(s.sched, Sched.Wake(sem.waiters[0])))
  }

  /** A run; steps that are not possible in their state are left out, and a panic stops everything. */
  function Run(s: State, steps: seq<Step>): State
    decreases |steps|
  {
    if steps == [] then s
    else if !Enabled(s, steps[0]) then Run(s, steps[1..])
    else if !Safe(s, steps[0]) then s
    else Run(Do(s, steps[0]), steps[1..])
  }

  // ---------------------------------------------------------------------------------------------
  // The invariant

  /** Asleep or awake, not dead. */
  predicate Alive(s: Sched.State, t: nat) {
    t < |s.threads| && (s.threads[t].status == Sched.Awake || s.threads[t].status == Sched.Sleeping)
  }

  /** The wait list of a semaphore holds the threads inside its down that have the flag, once each. */
  ghost predicate ListOk(s: State, k: nat)
    requires k < |s.sems|
  {
    && Distinct(s.sems[k].waiters)
    && (forall t :: t in s.sems[k].waiters <==> t in s.insem && t in s.downing && s.downing[t] == k)
  }

  ghost predicate Inv(s: State) {
    && Sched.Inv(s.sched)
    && (forall k :: 0 <= k < |s.sems| ==> ListOk(s, k))
    && (forall t :: t in s.insem ==> t in s.downing)
    && (forall t :: t in s.downing ==> s.downing[t] < |s.sems| && Alive(s.sched, t))
  }

  /** Only its own death takes a thread out of the living. */
  lemma StaysAlive(s: Sched.State, step: Sched.Step, t: nat)
    requires Sched.Enabled(s, step) && Sched.Safe(s, step) && Alive(s, t)
    requires step.Die? ==> s.current[step.cpu] != t
    ensures Alive(Sched.Do(s, step), t)
  {
  }

  /** No check fails but the one for the token, and whoever a semaphore wakes is alive. */
  lemma StepSafe(s: State, step: Step)
    requires Inv(s) && Enabled(s, step) && !NoToken(s, step)
    ensures Safe(s, step)
    ensures step.Up? && s.sems[step.sem].waiters != [] ==> Alive(s.sched, s.sems[step.sem].waiters[0])
  {
    hide Sched.Inv, Sched.Safe;
    match step
    case Other(st) => Sched.NoPanic(s.sched, st);
    case Down(cpu, _, _) => Sched.NoPanic(s.sched, Sched.SleepPrepare(cpu));
    case Resume(cpu, _) => Sched.NoPanic(s.sched, Sched.SleepPrepare(cpu));
    case Up(k) =>
      assert ListOk(s, k);
      if s.sems[k].waiters != [] {
        assert s.sems[k].waiters[0] in s.sems[k].waiters;
      }
  }

  // ---------------------------------------------------------------------------------------------
  // Every step keeps the invariant

  /** A step of the scheduler inside a step of this machine. */
  lemma SchedStep(s: State, st: Sched.Step)
    requires Inv(s) && Sched.Enabled(s.sched, st) && Sched.Safe(s.sched, st) && Sched.Aimed(s.sched, st)
    requires st.Die? ==> s.sched.current[st.cpu] !in s.downing
    ensures Sched.Inv(Sched.Do(s.sched, st))
    ensures forall t :: t in s.downing ==> Alive(Sched.Do(s.sched, st), t)
  {
    hide Sched.Inv, Sched.Safe, Sched.Do, Sched.Enabled, ListOk;
    Sched.StepKeeps(s.sched, st);
    forall t | t in s.downing
      ensures Alive(Sched.Do(s.sched, st), t)
    {
      StaysAlive(s.sched, st, t);
    }
  }

  lemma DownKeeps(s: State, cpu: nat, k: nat, keep: bool)
    requires Inv(s) && Enabled(s, Down(cpu, k, keep)) && Safe(s, Down(cpu, k, keep))
    ensures Inv(Do(s, Down(cpu, k, keep)))
  {
    hide Sched.Inv, Sched.Safe, Sched.Do;
    var t, s' := s.sched.current[cpu], Do(s, Down(cpu, k, keep));
    if s.sems[k].count == 0 && keep {
      SchedStep(s, Sched.SleepPrepare(cpu));
      FallsAsleep(s.sched, cpu);
      assert ListOk(s, k);
      Prepend(s.sems[k].waiters, t);
    }
    forall j | 0 <= j < |s'.sems|
      ensures ListOk(s', j)
    {
      assert ListOk(s, j);
    }
  }

  lemma FallsAsleep(s: Sched.State, cpu: nat)
    requires Sched.Enabled(s, Sched.SleepPrepare(cpu)) && Sched.Safe(s, Sched.SleepPrepare(cpu))
    ensures Alive(Sched.Do(s, Sched.SleepPrepare(cpu)), s.current[cpu])
  {
  }

  lemma ResumeKeeps(s: State, cpu: nat, keep: bool)
    requires Inv(s) && Enabled(s, Resume(cpu, keep)) && Safe(s, Resume(cpu, keep))
    ensures Inv(Do(s, Resume(cpu, keep)))
  {
    hide Sched.Inv, Sched.Safe, Sched.Do;
    var t, s' := s.sched.current[cpu], Do(s, Resume(cpu, keep));
    var k := s.downing[t];
    assert ListOk(s, k);
    if t in s.insem && keep {
      SchedStep(s, Sched.SleepPrepare(cpu));
    }
    WithoutElements(s.sems[k].waiters, t);
    forall j | 0 <= j < |s'.sems|
      ensures ListOk(s', j)
    {
      assert ListOk(s, j);
    }
  }

  lemma UpKeeps(s: State, k: nat)
    requires Inv(s) && Enabled(s, Up(k)) && Safe(s, Up(k))
    ensures Inv(Do(s, Up(k)))
  {
    hide Sched.Inv, Sched.Do;
    var s' := Do(s, Up(k));
    assert ListOk(s, k);
    if s.sems[k].waiters != [] {
      Tail(s.sems[k].waiters);
      SchedStep(s, Sched.Wake(s.sems[k].waiters[0]));
    }
    forall j | 0 <= j < |s'.sems|
      ensures ListOk(s', j)
    {
      assert ListOk(s, j);
    }
  }

  lemma StepKeeps(s: State, step: Step)
    requires Inv(s) && Enabled(s, step) && Safe(s, step)
    ensures Inv(Do(s, step))
  {
    hide Sched.Inv, Sched.Do, Sched.Safe, Sched.Enabled, Works, NoToken;
    match step
    case Other(st) =>
      SchedStep(s, st);
      forall j | 0 <= j < |s.sems|
        ensures ListOk(Do(s, step), j)
      {
        assert ListOk(s, j);
      }
    case Down(cpu, k, keep) => DownKeeps(s, cpu, k, keep);
    case Resume(cpu, keep) => ResumeKeeps(s, cpu, keep);
    case Up(k) => UpKeeps(s, k);
  }

  lemma {:induction false} RunKeeps(s: State, steps: seq<Step>)
    requires Inv(s)
    ensures Inv(Run(s, steps))
    decreases |steps|
  {
    hide Inv, Enabled, Safe, Do;
    if steps != [] {
      if !Enabled(s, steps[0]) {
        RunKeeps(s, steps[1..]);
      } else if Safe(s, steps[0]) {
        StepKeeps(s, steps[0]);
        RunKeeps(Do(s, steps[0]), steps[1..]);
      }
    }
  }

  /** The scheduler as it starts, and semaphores nobody waits for. */
  ghost predicate Start(s: State) {
    && Sched.Start(s.sched)
    && (forall k :: 0 <= k < |s.sems| ==> s.sems[k].waiters == [])
    && s.insem == {} && s.downing == map[]
  }

  ghost predicate OnBoth(s: State, t: nat, j: nat, k: nat)
    requires j < |s.sems| && k < |s.sems|
  {
    t in s.sems[j].waiters && t in s.sems[k].waiters
  }

  /** In every run of any number of semaphores over any number of threads and processors: the scheduler's
      invariant holds, a thread has the flag exactly if it is on a wait list, and then on one only; no check can
      fail but the one for a token; and a thread that a semaphore is about to wake sleeps or is awake, as the
      scheduler needs it. */
  lemma EveryRun(s0: State, steps: seq<Step>)
    requires Start(s0)
    ensures var s := Run(s0, steps);
            && Sched.Inv(s.sched)
            && (forall t :: t in s.insem <==> exists k :: 0 <= k < |s.sems| && t in s.sems[k].waiters)
            && (forall t, j, k :: 0 <= j < |s.sems| && 0 <= k < |s.sems| && OnBoth(s, t, j, k) ==> j == k)
            && (forall step :: Enabled(s, step) && !NoToken(s, step) ==> Safe(s, step))
            && (forall k :: 0 <= k < |s.sems| && s.sems[k].waiters != [] ==> Alive(s.sched, s.sems[k].waiters[0]))
  {
    hide Sched.Inv, Run, Safe, Enabled, NoToken, Sched.Start;
    Sched.StartInv(s0.sched);
    RunKeeps(s0, steps);
    var s := Run(s0, steps);
    forall t
      ensures t in s.insem <==> exists k :: 0 <= k < |s.sems| && t in s.sems[k].waiters
    {
      if t in s.insem {
        assert ListOk(s, s.downing[t]) && t in s.sems[s.downing[t]].waiters;
      }
      forall k | 0 <= k < |s.sems| && t in s.sems[k].waiters
        ensures t in s.insem
      {
        assert ListOk(s, k);
      }
    }
    forall t, j, k | 0 <= j < |s.sems| && 0 <= k < |s.sems| && OnBoth(s, t, j, k)
      ensures j == k
    {
      assert ListOk(s, j) && ListOk(s, k);
    }
    forall step | Enabled(s, step) && !NoToken(s, step)
      ensures Safe(s, step)
    {
      StepSafe(s, step);
    }
    forall k | 0 <= k < |s.sems| && s.sems[k].waiters != []
      ensures Alive(s.sched, s.sems[k].waiters[0])
    {
      assert ListOk(s, k) && s.sems[k].waiters[0] in s.sems[k].waiters;
    }
  }
}
