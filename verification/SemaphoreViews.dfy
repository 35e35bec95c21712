/**
 Each semaphore of the kernel, seen alone: a run of threads, processors and semaphores together is, for every
 semaphore, a run of that semaphore. So what holds of a semaphore by itself holds of it in the whole.
 */
module SemaphoreViews {
  import opened Common
  import opened Seqs
  import W = Waiting
  import S = Semaphore

  ghost function Downers(s: W.State, k: nat): set<nat> {
    set t | t in s.downing && s.downing[t] == k
  }

  ghost function Waiters(s: W.State, k: nat): set<nat>
    requires k < |s.sems|
  {
    set t | t in s.sems[k].waiters
  }

  /** Semaphore `k`, with the calls counted so far. */
  ghost function View(s: W.State, k: nat, ups: nat, obtained: nat): S.State
    requires k < |s.sems|
  {
    S.State(s.sems[k].count, s.sems[k].waiters, Waiters(s, k), Downers(s, k), ups, obtained, false, false)
  }

  /** What a step is to semaphore `k`. */
  ghost function StepOf(s: W.State, step: W.Step, k: nat): Option<S.Step>
    requires W.Enabled(s, step)
  {
    match step
    case Other(_) => None
    case Down(cpu, j, keep) => if j == k then Some(S.Down(s.sched.current[cpu], keep)) else None
    case Resume(cpu, keep) =>
      var t := s.sched.current[cpu];
      if s.downing[t] == k then Some(S.Resume(t, keep)) else None
    case Up(j) => if j == k then Some(S.Up) else None
  }

  /** The steps of a run that are steps of semaphore `k`. */
  ghost function Trace(s: W.State, steps: seq<W.Step>, k: nat): seq<S.Step>
    decreases |steps|
  {
    if steps == [] then []
    else if !W.Enabled(s, steps[0]) then Trace(s, steps[1..], k)
    else if !W.Safe(s, steps[0]) then []
    else
      var rest := Trace(W.Do(s, steps[0]), steps[1..], k);
      match StepOf(s, steps[0], k)
      case None => rest
      case Some(st) => [st] + rest
  }

  // ---------------------------------------------------------------------------------------------
  // One step

  /** `t` is the semaphore `k` as it is after the step of the whole. */
  ghost predicate Matches(s: W.State, k: nat, t: S.State) {
    k < |s.sems| && t == View(s, k, t.ups, t.obtained)
  }

  lemma OtherProjects(s: W.State, step: W.Step, k: nat, t: S.State)
    requires W.Inv(s) && W.Enabled(s, step) && W.Safe(s, step) && Matches(s, k, t)
    requires StepOf(s, step, k).None?
    ensures Matches(W.Do(s, step), k, t)
  {
    hide W.Sched.Do, W.Sched.Safe, W.Sched.Inv;
    var s' := W.Do(s, step);
    assert s'.sems[k] == s.sems[k];
    assert Downers(s', k) == Downers(s, k);
  }

  lemma DownProjects(s: W.State, cpu: nat, keep: bool, k: nat, t: S.State)
    requires var step := W.Down(cpu, k, keep);
             W.Inv(s) && W.Enabled(s, step) && W.Safe(s, step) && Matches(s, k, t)
    ensures var own := S.Down(s.sched.current[cpu], keep);
            S.Enabled(t, own) && Matches(W.Do(s, W.Down(cpu, k, keep)), k, S.Do(t, own))
  {
    hide W.Sched.Do, W.Sched.Safe, W.Sched.Inv;
    var x, s' := s.sched.current[cpu], W.Do(s, W.Down(cpu, k, keep));
    var t' := S.Do(t, S.Down(x, keep));
    assert W.ListOk(s, k);
    assert x !in t.waiters;
    Prepend(t.waiters, x);
    WithoutFirst([x] + t.waiters);
    assert t'.downing == Downers(s', k);
    assert t'.insem == Waiters(s', k);
  }

  lemma ResumeProjects(s: W.State, cpu: nat, keep: bool, k: nat, t: S.State)
    requires var step := W.Resume(cpu, keep);
             W.Inv(s) && W.Enabled(s, step) && W.Safe(s, step) && Matches(s, k, t)
             && s.downing[s.sched.current[cpu]] == k
    ensures var own := S.Resume(s.sched.current[cpu], keep);
            S.Enabled(t, own) && Matches(W.Do(s, W.Resume(cpu, keep)), k, S.Do(t, own))
  {
    hide W.Sched.Do, W.Sched.Safe, W.Sched.Inv;
    var x, s' := s.sched.current[cpu], W.Do(s, W.Resume(cpu, keep));
    var t' := S.Do(t, S.Resume(x, keep));
    assert W.ListOk(s, k);
    WithoutElements(t.waiters, x);
    assert t'.downing == Downers(s', k);
    assert t'.insem == Waiters(s', k);
  }

  lemma UpProjects(s: W.State, k: nat, t: S.State)
    requires W.Inv(s) && W.Enabled(s, W.Up(k)) && W.Safe(s, W.Up(k)) && Matches(s, k, t)
    ensures S.Enabled(t, S.Up) && Matches(W.Do(s, W.Up(k)), k, S.Do(t, S.Up))
  {
    hide W.Sched.Do, W.Sched.Safe, W.Sched.Inv;
    var s', t' := W.Do(s, W.Up(k)), S.Do(t, S.Up);
    assert W.ListOk(s, k);
    if t.waiters != [] {
      WithoutFirst(t.waiters);
      WithoutElements(t.waiters, t.waiters[0]);
    }
    assert t'.downing == Downers(s', k);
    assert t'.insem == Waiters(s', k);
  }

  lemma WithoutFirst(q: seq<nat>)
    requires q != [] && Distinct(q)
    ensures Without(q, q[0]) == q[1..]
  {
    WithoutAbsent(q[1..], q[0]) by { Tail(q); }
  }

  lemma {:induction false} WithoutAbsent(q: seq<nat>, x: nat)
    requires x !in q
    ensures Without(q, x) == q
  {
    if q != [] {
      WithoutAbsent(q[1..], x);
    }
  }

  /** Each step of the whole is a step of semaphore `k`, or leaves it alone. */
  lemma StepProjects(s: W.State, step: W.Step, k: nat, t: S.State)
    requires W.Inv(s) && W.Enabled(s, step) && W.Safe(s, step) && Matches(s, k, t)
    ensures match StepOf(s, step, k)
            case None => Matches(W.Do(s, step), k, t)
            case Some(own) => S.Enabled(t, own) && Matches(W.Do(s, step), k, S.Do(t, own))
  {
    hide W.Do, W.Inv, W.Safe, Matches, S.Do, S.Enabled;
    if StepOf(s, step, k).None? {
      OtherProjects(s, step, k, t);
    } else {
      match step
      case Down(cpu, _, keep) => DownProjects(s, cpu, keep, k, t);
      case Resume(cpu, keep) => ResumeProjects(s, cpu, keep, k, t);
      case Up(_) => UpProjects(s, k, t);
    }
  }

  // ---------------------------------------------------------------------------------------------
  // Runs

  /** A run of the whole is, for semaphore `k`, the run of its own steps. */
  lemma {:induction false} RunProjects(s: W.State, steps: seq<W.Step>, k: nat, t: S.State)
    requires W.Inv(s) && Matches(s, k, t)
    ensures Matches(W.Run(s, steps), k, S.Run(t, Trace(s, steps, k)))
    decreases |steps|
  {
    hide W.Inv, W.Enabled, W.Safe, W.Do, Matches, StepOf, S.Do, S.Enabled;
    if steps != [] {
      var step := steps[0];
      if !W.Enabled(s, step) {
        RunProjects(s, steps[1..], k, t);
      } else if W.Safe(s, step) {
        W.StepKeeps(s, step);
        StepProjects(s, step, k, t);
        var s', own := W.Do(s, step), StepOf(s, step, k);
        RunProjects(s', steps[1..], k, if own.None? then t else S.Do(t, own.value));
        if own.Some? {
          assert Trace(s, steps, k)[1..] == Trace(s', steps[1..], k);
        }
      }
    }
  }

  /** Every run of the whole is for every semaphore a run of it alone, from its first count. Its count is therefore
      the first one, plus its ups, less the downs that obtained a token, as a 32-bit number. */
  lemma EveryCount(s0: W.State, steps: seq<W.Step>, k: nat)
    requires W.Start(s0) && k < |s0.sems| && s0.sems[k].count < TWO32
    ensures var s, own := W.Run(s0, steps), S.Run(S.Init(s0.sems[k].count), Trace(s0, steps, k));
            && k < |s.sems| && s.sems[k].waiters == own.waiters && s.sems[k].count == own.count
            && Downers(s, k) == own.downing
            && exists wraps: int :: s.sems[k].count == s0.sems[k].count + own.ups - own.obtained + wraps * TWO32
  {
    hide W.Run, S.Run, Trace, W.Sched.Start;
    Projected(s0, steps, k);
    S.EveryRun(s0.sems[k].count, Trace(s0, steps, k));
  }

  lemma Projected(s0: W.State, steps: seq<W.Step>, k: nat)
    requires W.Start(s0) && k < |s0.sems|
    ensures Matches(W.Run(s0, steps), k, S.Run(S.Init(s0.sems[k].count), Trace(s0, steps, k)))
  {
    hide W.Run, S.Run, Trace, W.Sched.Start, W.Sched.Inv;
    W.Sched.StartInv(s0.sched);
    assert W.Inv(s0);
    assert Waiters(s0, k) == {} && Downers(s0, k) == {};
    RunProjects(s0, steps, k, S.Init(s0.sems[k].count));
  }

  // ---------------------------------------------------------------------------------------------
  // Tokens

  /** No step of the run takes a token of semaphore `k` that a woken thread is owed, and none overflows its count. */
  ghost predicate OrderlyAt(s0: W.State, steps: seq<W.Step>, k: nat)
    requires k < |s0.sems|
  {
    S.Orderly(S.Init(s0.sems[k].count), Trace(s0, steps, k))
  }

  /** In an orderly run a thread that semaphore `k` woke finds its token. */
  lemma TokenIsThere(s0: W.State, steps: seq<W.Step>, k: nat, t: nat)
    requires W.Start(s0) && k < |s0.sems| && s0.sems[k].count < TWO32 && OrderlyAt(s0, steps, k)
    ensures var s := W.Run(s0, steps);
            k < |s.sems| && (t in s.downing && s.downing[t] == k && t !in s.sems[k].waiters ==> s.sems[k].count > 0)
  {
    hide W.Run, S.Run, Trace, W.Start, S.Orderly, S.Inv;
    var s, first := W.Run(s0, steps), S.Init(s0.sems[k].count);
    var own := S.Run(first, Trace(s0, steps, k));
    Projected(s0, steps, k);
    S.EveryRun(s0.sems[k].count, []);
    assert S.Run(first, []) == first by { Unmoved(first); }
    S.OrderlyNeverPanics(first, s0.sems[k].count, Trace(s0, steps, k));
    if t in s.downing && s.downing[t] == k && t !in s.sems[k].waiters {
      assert t in S.Woken(own);
    }
  }

  lemma Unmoved(s: S.State)
    ensures S.Run(s, []) == s
  {
  }

  /** Where every semaphore is used in order, no check fails at all: no step that is possible in the state that a
      run reaches panics. */
  lemma OrderlyIsSafe(s0: W.State, steps: seq<W.Step>, step: W.Step)
    requires W.Start(s0) && W.Enabled(W.Run(s0, steps), step)
    requires forall k :: 0 <= k < |s0.sems| ==> s0.sems[k].count < TWO32 && OrderlyAt(s0, steps, k)
    ensures W.Safe(W.Run(s0, steps), step)
  {
    hide W.Run, W.Safe, W.Sched.Start, OrderlyAt;
    var s := W.Run(s0, steps);
    W.Sched.StartInv(s0.sched);
    W.RunKeeps(s0, steps);
    SameSems(s0, steps);
    if step.Resume? {
      var t := s.sched.current[step.cpu];
      assert W.ListOk(s, s.downing[t]);
      TokenIsThere(s0, steps, s.downing[t], t);
    }
    W.StepSafe(s, step);
  }

  lemma {:induction false} SameSems(s: W.State, steps: seq<W.Step>)
    ensures |W.Run(s, steps).sems| == |s.sems|
    decreases |steps|
  {
    hide W.Sched.Enabled, W.Sched.Safe, W.Sched.Do;
    if steps != [] {
      if !W.Enabled(s, steps[0]) {
        SameSems(s, steps[1..]);
      } else if W.Safe(s, steps[0]) {
        assert |W.Do(s, steps[0]).sems| == |s.sems|;
        SameSems(W.Do(s, steps[0]), steps[1..]);
      }
    }
  }

  /** With one thread that downs semaphore `k`, and any number that up it, that thread always finds its token. */
  lemma OneDownerHasToken(s0: W.State, steps: seq<W.Step>, k: nat, d: nat)
    requires W.Start(s0) && k < |s0.sems| && s0.sems[k].count < TWO32
    requires forall own :: own in Trace(s0, steps, k) ==> own.Up? || own.t == d
    requires S.Fits(S.Init(s0.sems[k].count), Trace(s0, steps, k))
    ensures forall cpu: nat, keep: bool :: var s := W.Run(s0, steps);
              W.Enabled(s, W.Resume(cpu, keep)) && s.downing[s.sched.current[cpu]] == k ==>
                !W.NoToken(s, W.Resume(cpu, keep))
  {
    hide W.Run, S.Run, Trace, W.Sched.Start, S.Orderly, S.Fits, OrderlyAt;
    var s := W.Run(s0, steps);
    assert OrderlyAt(s0, steps, k) by { Alone(s0, steps, k, d); }
    W.Sched.StartInv(s0.sched);
    W.RunKeeps(s0, steps);
    forall cpu: nat, keep: bool | W.Enabled(s, W.Resume(cpu, keep)) && s.downing[s.sched.current[cpu]] == k
      ensures !W.NoToken(s, W.Resume(cpu, keep))
    {
      assert W.ListOk(s, k);
      TokenIsThere(s0, steps, k, s.sched.current[cpu]);
    }
  }

  lemma Alone(s0: W.State, steps: seq<W.Step>, k: nat, d: nat)
    requires k < |s0.sems|
    requires forall own :: own in Trace(s0, steps, k) ==> own.Up? || own.t == d
    requires S.Fits(S.Init(s0.sems[k].count), Trace(s0, steps, k))
    ensures OrderlyAt(s0, steps, k)
  {
    S.AloneIsOrderly(S.Init(s0.sems[k].count), d, Trace(s0, steps, k));
  }
}
