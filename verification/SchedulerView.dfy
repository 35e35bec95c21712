/**
 The scheduler under the semaphores: a run of threads, processors and semaphores together is a run of the scheduler
 in which every wake is aimed, and a thread that a semaphore wakes gets to run.
 */
module SchedulerView {
  import opened Common
  import W = Waiting
  import Sched = Scheduler

  /** What a step is to the scheduler: a thread that has to wait prepares to sleep, and the first of the waiting
      threads is woken by an up. */
  ghost function StepOf(s: W.State, step: W.Step): Option<Sched.Step>
    requires W.Enabled(s, step)
  {
    match step
    case Other(st) => Some(st)
    case Down(cpu, k, keep) => if s.sems[k].count == 0 && keep then Some(Sched.SleepPrepare(cpu)) else None
    case Resume(cpu, keep) =>
      if s.sched.current[cpu] in s.insem && keep then Some(Sched.SleepPrepare(cpu)) else None
    case Up(k) => if s.sems[k].waiters != [] then Some(Sched.Wake(s.sems[k].waiters[0])) else None
  }

  lemma StepProjects(s: W.State, step: W.Step)
    requires W.Inv(s) && W.Enabled(s, step) && W.Safe(s, step)
    ensures match StepOf(s, step)
            case None => W.Do(s, step).sched == s.sched
            case Some(st) =>
              && Sched.Enabled(s.sched, st) && Sched.Safe(s.sched, st) && Sched.Aimed(s.sched, st)
              && W.Do(s, step).sched == Sched.Do(s.sched, st)
  {
    hide Sched.Do, Sched.Inv;
    if step.Up? {
      assert W.ListOk(s, step.sem);
    }
  }

  /** The steps of a run that are steps of the scheduler. */
  ghost function Trace(s: W.State, steps: seq<W.Step>): seq<Sched.Step>
    decreases |steps|
  {
    if steps == [] then []
    else if !W.Enabled(s, steps[0]) then Trace(s, steps[1..])
    else if !W.Safe(s, steps[0]) then []
    else
      var rest := Trace(W.Do(s, steps[0]), steps[1..]);
      match StepOf(s, steps[0])
      case None => rest
      case Some(st) => [st] + rest
  }

  lemma {:induction false} RunProjects(s: W.State, steps: seq<W.Step>)
    requires W.Inv(s)
    ensures W.Run(s, steps).sched == Sched.Run(s.sched, Trace(s, steps)) && Sched.AimedRun(s.sched, Trace(s, steps))
    decreases |steps|
  {
    hide W.Inv, W.Enabled, W.Safe, W.Do, StepOf, Sched.Do, Sched.Enabled, Sched.Safe, Sched.Aimed;
    if steps != [] {
      var step := steps[0];
      if !W.Enabled(s, step) {
        RunProjects(s, steps[1..]);
      } else if W.Safe(s, step) {
        W.StepKeeps(s, step);
        StepProjects(s, step);
        var s' := W.Do(s, step);
        RunProjects(s', steps[1..]);
        if StepOf(s, step).Some? {
          assert Trace(s, steps)[1..] == Trace(s', steps[1..]);
        }
      }
    }
  }

  /** In every run of the whole, a thread that an up takes off a wait list gets to run: until it goes to sleep again or
      dies, whenever the scheduler lock is free it is on a processor or on the run queue. */
  lemma WokenRuns(s: W.State, k: nat, steps: seq<W.Step>)
    requires W.Inv(s) && W.Enabled(s, W.Up(k)) && W.Safe(s, W.Up(k)) && s.sems[k].waiters != []
    requires var t := W.Do(s, W.Up(k)); Sched.KeepsGoing(t.sched, Trace(t, steps), s.sems[k].waiters[0])
    ensures var w, t := s.sems[k].waiters[0], W.Run(W.Do(s, W.Up(k)), steps).sched;
            w < |t.threads| && (t.phase == Sched.Unlocked ==> Sched.Current(t, w) || w in t.queue)
  {
    hide W.Run, Sched.Run, Trace, Sched.AimedRun, Sched.KeepsGoing, Sched.Do, Sched.Inv;
    var up, w := W.Up(k), s.sems[k].waiters[0];
    W.StepSafe(s, up);
    W.StepKeeps(s, up);
    StepProjects(s, up);
    var t := W.Do(s, up);
    RunProjects(t, steps);
    Sched.WakeNotLost(s.sched, w, Sched.Wake(w), Trace(t, steps));
  }

  /** A thread that waits has prepared to sleep. */
  lemma WaiterSleeps(s: W.State, cpu: nat, k: nat)
    requires W.Inv(s) && W.Enabled(s, W.Down(cpu, k, true)) && s.sems[k].count == 0
    ensures W.Safe(s, W.Down(cpu, k, true))
    ensures var t, u := s.sched.current[cpu], W.Do(s, W.Down(cpu, k, true));
            && t in u.sems[k].waiters && t in u.insem && t < |u.sched.threads|
            && u.sched.threads[t].status == Sched.Sleeping && u.sched.threads[t].plan == Sched.Prepared
  {
    W.StepSafe(s, W.Down(cpu, k, true));
  }
}
