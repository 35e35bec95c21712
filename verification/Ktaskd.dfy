/**
 The daemon that starts kernel tasks for others: requests are pushed on a list and announced by a
 semaphore, and the daemon, the only thread that downs it, takes one request for each token.

 A request holds the daemon's list lock over the push and the semaphore up; these are two steps, since
 the daemon's down does not take that lock. The list is last in, first out.
 */
module Ktaskd {
  import opened Common
  import Sem = Semaphore

  type Request = nat

  /** The daemon as a thread. */
  const DAEMON: Sem.Thread := 0

  const NOBODY: set<Sem.Thread> := {}

  datatype State = State(
    sem: Sem.State,
    reqs: seq<Request>,
    pushed: bool,           // a requester is between its push and its up, and holds the lock
    token: bool,            // the daemon's down returned, and it has not looked at the list
    taken: seq<Request>,    // the request in the daemon's hands, if any
    issued: seq<Request>,   // for the specification: every request so far
    fulfilled: seq<Request>,
    foundEmpty: bool)       // and whether the daemon ever found no request for a token

  datatype Step = Push(r: Request) | Signal | Down | Resume | Pop | Fulfil

  /** Requests live in a 32-bit address space, so there are never 2^32 of them. */
  predicate Enabled(s: State, step: Step) {
    match step
    case Push(r) => !s.pushed && r !in s.issued && |s.reqs| < TWO32 - 1
    case Signal => s.pushed && Sem.Enabled(s.sem, Sem.Up)
    case Down => !s.token && s.taken == [] && Sem.Enabled(s.sem, Sem.Down(DAEMON, true))
    case Resume => Sem.Enabled(s.sem, Sem.Resume(DAEMON, true))
    case Pop => s.token && !s.pushed
    case Fulfil => s.taken != []
  }

  /** A step of the daemon inside the semaphore; it has a token if the semaphore gave one away. */
  function Within(s: State, sem: Sem.State): State {
    s.(sem := sem, token := sem.obtained > s.sem.obtained)
  }

  function Do(s: State, step: Step): State {
    match step
    case Push(r) => s.(reqs := [r] + s.reqs, issued := s.issued + [r], pushed := true)
    case Signal => s.(sem := Sem.Do(s.sem, Sem.Up), pushed := false)
    case Down => Within(s, Sem.Do(s.sem, Sem.Down(DAEMON, true)))
    case Resume => Within(s, Sem.Do(s.sem, Sem.Resume(DAEMON, true)))
    case Pop =>
      if s.reqs == [] then s.(token := false, foundEmpty := true)
      else s.(token := false, taken := [s.reqs[0]], reqs := s.reqs[1..])
    case Fulfil => s.(fulfilled := s.fulfilled + s.taken, taken := [])
  }

  function Start(): State {
    State(Sem.Init(0), [], false, false, [], [], [], false)
  }

  /** A run; steps that are not possible in their state are left out. */
  function Run(s: State, steps: seq<Step>): State
    decreases |steps|
  {
    if steps == [] then s
    else Run(if Enabled(s, steps[0]) then Do(s, steps[0]) else s, steps[1..])
  }

  // ---------------------------------------------------------------------------------------------
  // The invariant

  function Bit(b: bool): nat {
    if b then 1 else 0
  }

  /** The semaphore, downed by the daemon alone. */
  ghost predicate SemOk(sem: Sem.State) {
    && Sem.Inv(sem, 0)
    && !sem.noToken
    && !Sem.Short(sem)
    && DaemonOnly(sem)
  }

  predicate DaemonOnly(sem: Sem.State) {
    sem.downing <= {DAEMON} && (sem.insem != NOBODY ==> sem.count == 0)
  }

  /** Tokens and requests match, and every request is in one place. */
  ghost predicate Inv(s: State) {
    && SemOk(s.sem)
    && |s.reqs| == s.sem.count + Bit(s.token) + Bit(s.pushed) < TWO32
    && (s.token || s.taken != [] ==> s.sem.downing == NOBODY)
    && (s.token ==> s.taken == [])
    && |s.taken| <= 1
    && !s.foundEmpty
    && multiset(s.issued) == multiset(s.reqs) + multiset(s.taken) + multiset(s.fulfilled)
    && (forall r :: multiset(s.issued)[r] <= 1)
  }

  /** What a semaphore step does when one thread downs it. */
  lemma SemKeeps(sem: Sem.State, step: Sem.Step)
    requires SemOk(sem) && Sem.Enabled(sem, step)
    requires step.Up? || (step.t == DAEMON && step.keep)
    requires step == Sem.Up ==> sem.count < TWO32 - 1
    ensures var next := Sem.Do(sem, step);
            && SemOk(next)
            && if step == Sem.Up then next.count == sem.count + 1 && next.downing == sem.downing
                                      && next.obtained == sem.obtained
               else if next.obtained > sem.obtained
               then next.count == sem.count - 1 && next.downing == NOBODY && next.obtained == sem.obtained + 1
               else && next.count == sem.count == 0 && DAEMON in next.downing && next.obtained == sem.obtained
                    && DAEMON in next.insem
  {
    if step.Down? {
      assert sem.downing == {};
      assert Sem.Woken(sem) == {};
    }
    Sem.StepKeeps(sem, 0, step);
    Sem.PromiseKept(sem, 0, step);
    SemEffect(sem, step);
  }

  lemma SemEffect(sem: Sem.State, step: Sem.Step)
    requires SemOk(sem) && Sem.Enabled(sem, step)
    requires step.Up? || (step.t == DAEMON && step.keep)
    requires step == Sem.Up ==> sem.count < TWO32 - 1
    requires !Sem.Do(sem, step).noToken
    ensures var next := Sem.Do(sem, step);
            && DaemonOnly(next)
            && if step == Sem.Up then next.count == sem.count + 1 && next.downing == sem.downing
                                      && next.obtained == sem.obtained
               else if next.obtained > sem.obtained
               then next.count == sem.count - 1 && next.downing == NOBODY && next.obtained == sem.obtained + 1
               else && next.count == sem.count == 0 && DAEMON in next.downing && next.obtained == sem.obtained
                    && DAEMON in next.insem
  {
    if step.Up? {
      assert sem.insem <= {DAEMON};
      if sem.waiters != [] {
        assert sem.waiters[0] in sem.insem;
        assert sem.insem - {sem.waiters[0]} == {};
      } else {
        assert forall t :: t in sem.insem ==> t in sem.waiters;
        assert sem.insem == {};
      }
    }
  }

  lemma StepKeeps(s: State, step: Step)
    requires Inv(s) && Enabled(s, step)
    ensures Inv(Do(s, step))
  {
    hide Inv;
    if step.Push? {
      PushKeeps(s, step.r);
    } else if step.Pop? || step.Fulfil? {
      TakeKeeps(s, step);
    } else {
      SignalKeeps(s, step);
    }
  }

  lemma PushKeeps(s: State, r: Request)
    requires Inv(s) && Enabled(s, Push(r))
    ensures Inv(Do(s, Push(r)))
  {
    hide SemOk, Sem.Do, Sem.Enabled;
    assert multiset(s.issued + [r]) == multiset(s.issued) + multiset{r};
    assert multiset([r] + s.reqs) == multiset{r} + multiset(s.reqs);
    assert multiset(s.issued)[r] == 0;
  }

  lemma TakeKeeps(s: State, step: Step)
    requires Inv(s) && Enabled(s, step) && (step.Pop? || step.Fulfil?)
    ensures Inv(Do(s, step))
  {
    hide SemOk, Sem.Do, Sem.Enabled;
    if step.Pop? {
      assert s.reqs == [s.reqs[0]] + s.reqs[1..];
      assert multiset(s.reqs) == multiset{s.reqs[0]} + multiset(s.reqs[1..]);
    } else {
      assert multiset(s.fulfilled + s.taken) == multiset(s.fulfilled) + multiset(s.taken);
    }
  }

  lemma SignalKeeps(s: State, step: Step)
    requires Inv(s) && Enabled(s, step) && (step.Signal? || step.Down? || step.Resume?)
    ensures Inv(Do(s, step))
  {
    hide SemOk, Sem.Do;
    if step.Signal? {
      SemKeeps(s.sem, Sem.Up);
    } else if step.Down? {
      SemKeeps(s.sem, Sem.Down(DAEMON, true));
    } else {
      assert s.sem.downing != {};
      SemKeeps(s.sem, Sem.Resume(DAEMON, true));
    }
  }

  lemma {:induction false} RunKeeps(s: State, steps: seq<Step>)
    requires Inv(s)
    ensures Inv(Run(s, steps))
    decreases |steps|
  {
    hide Inv;
    if steps != [] {
      if Enabled(s, steps[0]) {
        StepKeeps(s, steps[0]);
      }
      RunKeeps(if Enabled(s, steps[0]) then Do(s, steps[0]) else s, steps[1..]);
    }
  }

  lemma StartInv()
    ensures Inv(Start())
  {
    assert Sem.Init(0).count == 0 + 0 - 0 + 0 * TWO32;
  }

  // ---------------------------------------------------------------------------------------------
  // What every run does

  /** In every run: the daemon never panics for want of a token and never finds the list empty; a request is
      fulfilled at most once, and until then it is on the list or in the daemon's hands, once. */
  lemma EveryRequestOnce(steps: seq<Step>, r: Request)
    requires r in Run(Start(), steps).issued
    ensures var s := Run(Start(), steps);
            && !s.sem.noToken && !s.foundEmpty
            && multiset(s.fulfilled)[r] + multiset(s.taken)[r] + multiset(s.reqs)[r] == 1
  {
    StartInv();
    RunKeeps(Start(), steps);
    var s := Run(Start(), steps);
    assert multiset(s.issued)[r] == 1;
  }

  /** In every run: nothing is fulfilled that was not asked for. */
  lemma NothingMadeUp(steps: seq<Step>, r: Request)
    ensures var s := Run(Start(), steps);
            r in s.fulfilled || r in s.taken || r in s.reqs ==> r in s.issued
  {
    StartInv();
    RunKeeps(Start(), steps);
    var s := Run(Start(), steps);
    assert r in multiset(s.fulfilled) + multiset(s.taken) + multiset(s.reqs) ==> r in multiset(s.issued);
  }

  /** In every run: when the daemon is on the wait list and no requester is halfway, there is nothing to do. */
  lemma AsleepOnlyWhenIdle(steps: seq<Step>)
    ensures var s := Run(Start(), steps);
            DAEMON in s.sem.insem && !s.pushed ==> s.reqs == [] && s.taken == []
  {
    StartInv();
    RunKeeps(Start(), steps);
    var s := Run(Start(), steps);
    assert DAEMON in s.sem.insem ==> DAEMON in s.sem.downing;
  }

  // ---------------------------------------------------------------------------------------------
  // Every request is served

  /** One turn of the daemon's loop, from wherever the daemon is. */
  function Turn(): seq<Step> {
    [Fulfil, Down, Resume, Pop, Fulfil]
  }

  function Apply(s: State, step: Step): State {
    if Enabled(s, step) then Do(s, step) else s
  }

  lemma ApplyKeeps(s: State, step: Step)
    requires Inv(s)
    ensures Inv(Apply(s, step))
  {
    if Enabled(s, step) {
      StepKeeps(s, step);
    }
  }

  lemma TurnUnfolds(s: State)
    ensures Run(s, Turn()) ==
            Apply(Apply(Apply(Apply(Apply(s, Fulfil), Down), Resume), Pop), Fulfil)
  {
    hide Enabled, Do;
    var s1, steps := Apply(s, Fulfil), Turn();
    assert steps[1..] == [Down, Resume, Pop, Fulfil];
    var s2 := Apply(s1, Down);
    assert Run(s1, steps[1..]) == Run(s2, [Resume, Pop, Fulfil]) by {
      assert steps[1..][1..] == [Resume, Pop, Fulfil];
    }
    var s3 := Apply(s2, Resume);
    assert Run(s2, [Resume, Pop, Fulfil]) == Run(s3, [Pop, Fulfil]) by {
      assert [Resume, Pop, Fulfil][1..] == [Pop, Fulfil];
    }
    var s4 := Apply(s3, Pop);
    assert Run(s3, [Pop, Fulfil]) == Run(s4, [Fulfil]) by {
      assert [Pop, Fulfil][1..] == [Fulfil];
    }
    assert Run(s4, [Fulfil]) == Run(Apply(s4, Fulfil), []) by {
      assert [Fulfil][1..] == [];
    }
  }

  /** With a request on the list and empty hands, the daemon gets a token without waiting. */
  lemma GetsToken(s: State)
    requires Inv(s) && !s.pushed && s.taken == [] && s.reqs != []
    ensures var t := Apply(Apply(s, Down), Resume);
            Inv(t) && t == s.(sem := t.sem, token := true)
  {
    hide Sem.Do;
    var u := Apply(s, Down);
    ApplyKeeps(s, Down);
    ApplyKeeps(u, Resume);
    if Enabled(s, Down) {
      SemKeeps(s.sem, Sem.Down(DAEMON, true));
      assert s.sem.count > 0;
      assert u.token && DAEMON !in u.sem.downing;
    } else if !s.token {
      assert u == s && DAEMON in s.sem.downing;
      SemKeeps(s.sem, Sem.Resume(DAEMON, true));
      assert s.sem.count > 0;
    }
  }

  lemma EmptiesHands(s: State)
    ensures Apply(s, Fulfil) == s.(fulfilled := s.fulfilled + s.taken, taken := [])
  {
    assert s.taken == [] ==> s.fulfilled + s.taken == s.fulfilled;
  }

  /** One turn serves the front of the list. */
  lemma TurnServes(s: State)
    requires Inv(s) && !s.pushed && s.reqs != []
    ensures var t := Run(s, Turn());
            && Inv(t) && !t.pushed && t.taken == []
            && t.reqs == s.reqs[1..] && t.issued == s.issued
            && t.fulfilled == s.fulfilled + s.taken + [s.reqs[0]]
  {
    hide Run, Do, Enabled, Apply, Inv, Turn;
    TurnUnfolds(s);
    var s1 := Apply(s, Fulfil);
    ApplyKeeps(s, Fulfil);
    EmptiesHands(s);
    GetsToken(s1);
    var s3 := Apply(Apply(s1, Down), Resume);
    ServeToken(s3);
  }

  lemma ServeToken(s: State)
    requires Inv(s) && !s.pushed && s.token && s.reqs != []
    ensures var t := Apply(Apply(s, Pop), Fulfil);
            && Inv(t)
            && t == s.(token := false, taken := [], reqs := s.reqs[1..], fulfilled := s.fulfilled + [s.reqs[0]])
  {
    ApplyKeeps(s, Pop);
    ApplyKeeps(Apply(s, Pop), Fulfil);
  }

  /** The list is last in, first out: whatever waits, a request that is made now is the next one served. */
  lemma NewestServedNext(s: State, r: Request)
    requires Inv(s) && Enabled(s, Push(r))
    ensures var t := Run(s, [Push(r), Signal] + Turn());
            && Inv(t) && !t.pushed && t.taken == []
            && t.reqs == s.reqs && t.issued == s.issued + [r]
            && t.fulfilled == s.fulfilled + s.taken + [r]
  {
    hide Inv, Sem.Do, Sem.Enabled, Turn;
    var steps := [Push(r), Signal] + Turn();
    var s1 := Do(s, Push(r));
    StepKeeps(s, Push(r));
    assert steps[1..] == [Signal] + Turn();
    assert Run(s, steps) == Run(s1, steps[1..]);
    SignalEnabled(s1);
    StepKeeps(s1, Signal);
    var s2 := Do(s1, Signal);
    assert steps[1..][1..] == Turn();
    assert Run(s1, steps[1..]) == Run(s2, Turn());
    TurnServes(s2);
    assert s2.reqs[1..] == s.reqs;
  }

  /** A requester that has pushed can always announce its request. */
  lemma SignalEnabled(s: State)
    requires Inv(s) && s.pushed
    ensures Enabled(s, Signal)
  {
  }

  /** The requests that a run takes in. */
  function Asked(s: State, steps: seq<Step>): seq<Request>
    decreases |steps|
  {
    if steps == [] then []
    else (if Enabled(s, steps[0]) && steps[0].Push? then [steps[0].r] else []) + Asked(Apply(s, steps[0]), steps[1..])
  }

  lemma {:induction false} IssuedIsAsked(s: State, steps: seq<Step>)
    ensures Run(s, steps).issued == s.issued + Asked(s, steps)
    decreases |steps|
  {
    hide Enabled, Sem.Do;
    if steps == [] {
      assert s.issued + [] == s.issued;
    } else {
      var t := Apply(s, steps[0]);
      IssuedIsAsked(t, steps[1..]);
      var first := if Enabled(s, steps[0]) && steps[0].Push? then [steps[0].r] else [];
      assert t.issued == s.issued + first;
      assert s.issued + (first + Asked(t, steps[1..])) == t.issued + Asked(t, steps[1..]);
    }
  }

  /** In every run each request that was made, and nothing else, is fulfilled, in the daemon's hands or on the list,
      once. */
  lemma EveryRequestAccounted(steps: seq<Step>)
    ensures var s := Run(Start(), steps);
            multiset(Asked(Start(), steps)) == multiset(s.fulfilled) + multiset(s.taken) + multiset(s.reqs)
  {
    StartInv();
    RunKeeps(Start(), steps);
    IssuedIsAsked(Start(), steps);
    assert [] + Asked(Start(), steps) == Asked(Start(), steps);
  }

  /** `n` turns */
  function Turns(s: State, n: nat): State
    decreases n
  {
    if n == 0 then s else Turns(Run(s, Turn()), n - 1)
  }

  /** Once the requesters are quiet, as many turns as there are requests on the list serve all of them, and
      everything ever asked for has then been fulfilled exactly once. */
  lemma {:induction false} AllServed(s: State)
    requires Inv(s) && !s.pushed && s.reqs != []
    ensures var t := Turns(s, |s.reqs|);
            t.reqs == [] && t.taken == [] && t.issued == s.issued && multiset(t.fulfilled) == multiset(s.issued)
    decreases |s.reqs|
  {
    hide Run, Turn;
    TurnServes(s);
    var t := Run(s, Turn());
    if t.reqs == [] {
      assert Turns(s, |s.reqs|) == Turns(t, 0) == t;
    } else {
      AllServed(t);
    }
  }
}
