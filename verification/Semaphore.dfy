/**
 The counting semaphore. Everything between taking and dropping the semaphore's lock is one step, so a
 `semaphore_down` is one step when a token is there, and otherwise a first step that puts the thread on
 the wait list and one step each time the thread runs again, woken or not.

 A thread that `semaphore_up` takes off the wait list is promised a token but does not hold it: it
 takes it when it runs again, and finds none if another thread came first. `Short` says in which states
 that happens.
 */
module Semaphore {
  import opened Common
  import opened Seqs

  type Thread = nat

  datatype State = State(
    count: nat,            // an unsigned 32-bit number
    waiters: seq<Thread>,
    insem: set<Thread>,    // the threads with THREAD_FLAG_INSEM
    downing: set<Thread>,  // the threads that yielded inside a down
    ups: nat,              // for the specification: calls of semaphore_up
    obtained: nat,         // and downs that returned with a token
    noToken: bool,         // BUG_ON(!sem->count) fired
    badFlag: bool)         // one of the BUG_ONs on THREAD_FLAG_INSEM fired

  /** `keep` is the value of the caller's condition, when the step evaluates it. */
  datatype Step =
    | Down(t: Thread, keep: bool)
    | Resume(t: Thread, keep: bool)
    | Up

  /** `_semaphore_waitlist_add`: insertion in front */
  function Add(s: State, t: Thread): State {
    s.(waiters := [t] + s.waiters, badFlag := s.badFlag || t in s.insem, insem := s.insem + {t})
  }

  /** `_semaphore_waitlist_rm` */
  function Remove(s: State, t: Thread): State {
    s.(waiters := Without(s.waiters, t), badFlag := s.badFlag || t !in s.insem, insem := s.insem - {t})
  }

  /** `_semaphore_down_end_obtained`; the decrement of a count of zero is not reached. */
  function Obtain(s: State, t: Thread): State {
    if s.count == 0 then s.(noToken := true)
    else s.(count := s.count - 1, obtained := s.obtained + 1, downing := s.downing - {t})
  }

  /** The body of the retry loop: give up, or yield. */
  function Retry(s: State, t: Thread, keep: bool): State {
    if keep then s.(downing := s.downing + {t}, badFlag := s.badFlag || t !in s.insem)
    else Remove(s, t).(downing := s.downing - {t})
  }

  /** A panic stops the machine. */
  predicate Enabled(s: State, step: Step) {
    && !s.noToken && !s.badFlag
    && match step
       case Down(t, _) => t !in s.downing
       case Resume(t, _) => t in s.downing
       case Up => true
  }

  function Do(s: State, step: Step): State {
    match step
    case Down(t, keep) => if s.count == 0 then Retry(Add(s, t), t, keep) else Obtain(s, t)
    case Resume(t, keep) => if t in s.insem then Retry(s, t, keep) else Obtain(s, t)
    case Up =>
      var u := s.(count := (s.count + 1) % TWO32, ups := s.ups + 1);
      if u.waiters == [] then u else Remove(u, u.waiters[0])
  }

  function Init(count: nat): State {
    State(count, [], {}, {}, 0, 0, false, false)
  }

  /** A run; steps that are not possible in their state are left out. */
  function Run(s: State, steps: seq<Step>): State
    decreases |steps|
  {
    if steps == [] then s
    else Run(if Enabled(s, steps[0]) then Do(s, steps[0]) else s, steps[1..])
  }

  // ---------------------------------------------------------------------------------------------
  // The wait list and the count

  /** The list holds exactly the threads with the flag, once each, and all of them are inside a down. No
      check of the flag fails. The count is what was put in less what was taken out, as a 32-bit number. */
  ghost predicate Inv(s: State, initial: nat) {
    && Distinct(s.waiters)
    && (forall t :: t in s.waiters <==> t in s.insem)
    && s.insem <= s.downing
    && !s.badFlag
    && s.count < TWO32
    && exists wraps: int :: s.count == initial + s.ups - s.obtained + wraps * TWO32
  }

  /** The checks of the flag, exactly: a thread that is put on the list must not have it, and one that waits on or is
      taken off the list must. */
  lemma FlagChecked(s: State, step: Step)
    requires Enabled(s, step)
    ensures Do(s, step).badFlag <==>
              match step
              case Down(t, _) => s.count == 0 && t in s.insem
              case Resume(_, _) => false
              case Up => s.waiters != [] && s.waiters[0] !in s.insem
  {
    hide Without;
  }

  lemma UpCount(count: nat, total: int, wraps: int)
    requires count < TWO32 && count == total + wraps * TWO32
    ensures (count + 1) % TWO32 == total + 1 + (if count + 1 == TWO32 then wraps - 1 else wraps) * TWO32
  {
  }

  lemma StepKeeps(s: State, initial: nat, step: Step)
    requires Inv(s, initial) && Enabled(s, step)
    ensures Inv(Do(s, step), initial)
  {
    var t := Do(s, step);
    var wraps :| s.count == initial + s.ups - s.obtained + wraps * TWO32;
    if step.Up? {
      UpCount(s.count, initial + s.ups - s.obtained, wraps);
      var more := if s.count + 1 == TWO32 then wraps - 1 else wraps;
      assert t.count == initial + t.ups - t.obtained + more * TWO32;
      if s.waiters != [] {
        WithoutElements(s.waiters, s.waiters[0]);
      }
    } else {
      assert t.count == initial + t.ups - t.obtained + wraps * TWO32;
      WithoutElements(s.waiters, step.t);
      if step.Down? {
        Prepend(s.waiters, step.t);
        WithoutElements([step.t] + s.waiters, step.t);
      }
    }
  }

  lemma {:induction false} RunKeeps(s: State, initial: nat, steps: seq<Step>)
    requires Inv(s, initial)
    ensures Inv(Run(s, steps), initial)
    decreases |steps|
  {
    if steps != [] {
      if Enabled(s, steps[0]) {
        StepKeeps(s, initial, steps[0]);
      }
      RunKeeps(if Enabled(s, steps[0]) then Do(s, steps[0]) else s, initial, steps[1..]);
    }
  }

  /** In every run of every semaphore: the wait list is exactly the flagged threads, the checks of the flag
      never fail, and the count is right. */
  lemma EveryRun(initial: nat, steps: seq<Step>)
    requires initial < TWO32
    ensures Inv(Run(Init(initial), steps), initial)
  {
    assert Init(initial).count == initial + 0 - 0 + 0 * TWO32;
    RunKeeps(Init(initial), initial, steps);
  }

  // ---------------------------------------------------------------------------------------------
  // Tokens promised to woken threads

  /** The threads that were taken off the list and have not run again. */
  function Woken(s: State): set<Thread> {
    s.downing - s.insem
  }

  /** More threads were woken than there are tokens. */
  predicate Short(s: State) {
    s.count < |Woken(s)|
  }

  /** A down that takes a token although a woken thread needs it. */
  predicate Steals(s: State, step: Step) {
    step.Down? && 0 < s.count <= |Woken(s)|
  }

  predicate Overflows(s: State, step: Step) {
    step.Up? && s.count == TWO32 - 1
  }

  function With(woken: set<Thread>, t: Thread): set<Thread> {
    woken + {t}
  }

  function Minus(woken: set<Thread>, t: Thread): set<Thread> {
    woken - {t}
  }

  /** Only an up with a waiter adds a woken thread, and only its own resume takes it away. */
  lemma WokenMoves(s: State, initial: nat, step: Step)
    requires Inv(s, initial) && Enabled(s, step)
    ensures s.count < TWO32
    ensures step.Up? && s.waiters != [] ==> Woken(Do(s, step)) == With(Woken(s), s.waiters[0])
    ensures step.Up? && s.waiters == [] ==> Woken(Do(s, step)) == Woken(s)
    ensures step.Down? ==> Woken(Do(s, step)) == Woken(s)
    ensures step.Resume? && step.t in s.insem ==> Woken(Do(s, step)) == Woken(s)
    ensures step.Resume? && step.t !in s.insem && s.count > 0 ==> Woken(Do(s, step)) == Minus(Woken(s), step.t)
  {
    hide Without;
  }

  /** Every step but a stealing down and an overflowing up keeps the promises, and none of them panics. */
  lemma PromiseKept(s: State, initial: nat, step: Step)
    requires Inv(s, initial) && Enabled(s, step) && !Short(s)
    requires !Steals(s, step) && !Overflows(s, step)
    ensures !Short(Do(s, step)) && !Do(s, step).noToken
  {
    hide Woken, Inv, Do, With, Minus;
    WokenMoves(s, initial, step);
    CountMoves(s, step);
    if step.Up? && s.waiters != [] {
      OneMore(Woken(s), s.waiters[0]);
    } else if step.Resume? && step.t !in s.insem {
      ResumedIsWoken(s, step.t);
      OneLess(Woken(s), step.t);
    }
  }

  /** What a step does to the count, short of an overflow. */
  lemma CountMoves(s: State, step: Step)
    requires Enabled(s, step) && !Overflows(s, step) && s.count < TWO32
    ensures var takes := (step.Down? || (step.Resume? && step.t !in s.insem)) && s.count > 0;
            && Do(s, step).count == s.count + (if step.Up? then 1 else 0) - (if takes then 1 else 0)
            && (Do(s, step).noToken <==> step.Resume? && step.t !in s.insem && s.count == 0)
  {
    hide Without;
  }

  /** The wait list is last in, first out: the thread that began to wait last is the first that an up wakes. */
  lemma LastWaitsShortest(s: State, t: Thread)
    requires Enabled(s, Down(t, true)) && s.count == 0 && t !in s.insem
    ensures var w := Do(s, Down(t, true));
            && t in w.insem && t in w.downing && Enabled(w, Up)
            && var u := Do(w, Up);
               && t in Woken(u) && u.count == 1 && u.insem == s.insem
               && forall x :: x != t ==> (x in Woken(u) <==> x in Woken(s))
  {
    hide Without;
  }

  lemma OneMore(woken: set<Thread>, t: Thread)
    ensures |With(woken, t)| <= |woken| + 1
  {
  }

  lemma OneLess(woken: set<Thread>, t: Thread)
    requires t in woken
    ensures |woken| > 0 && |Minus(woken, t)| == |woken| - 1
  {
  }

  lemma ResumedIsWoken(s: State, t: Thread)
    ensures t in s.downing && t !in s.insem ==> t in Woken(s)
  {
  }

  /** The woken threads run, one after the other. */
  function Resumes(order: seq<Thread>): seq<Step> {
    if order == [] then [] else [Resume(order[0], true)] + Resumes(order[1..])
  }

  /** The panic, exactly: if the woken threads run next, in any order, one of them finds no token if and
      only if the semaphore is short. */
  lemma {:induction false} PanicsIffShort(s: State, initial: nat, order: seq<Thread>)
    requires Inv(s, initial) && !s.noToken
    requires Distinct(order) && forall t :: t in order <==> t in Woken(s)
    ensures |Woken(s)| == |order|
    ensures Run(s, Resumes(order)).noToken <==> Short(s)
    decreases |order|
  {
    if order == [] {
      assert Woken(s) == {};
    } else {
      var t := order[0];
      var next := Do(s, Resume(t, true));
      assert t in Woken(s);
      assert Resumes(order)[1..] == Resumes(order[1..]);
      assert Run(s, Resumes(order)) == Run(next, Resumes(order[1..]));
      Tail(order);
      if s.count == 0 {
        Stopped(next, Resumes(order[1..]));
        assert |Woken(s)| > 0;
        SizeOf(order, Woken(s));
      } else {
        StepKeeps(s, initial, Resume(t, true));
        assert Woken(next) == Woken(s) - {t};
        PanicsIffShort(next, initial, order[1..]);
      }
    }
  }

  /** After a panic nothing happens. */
  lemma {:induction false} Stopped(s: State, steps: seq<Step>)
    requires s.noToken
    ensures Run(s, steps) == s
    decreases |steps|
  {
    if steps != [] {
      Stopped(s, steps[1..]);
    }
  }

  lemma {:induction false} SizeOf(q: seq<Thread>, all: set<Thread>)
    requires Distinct(q) && forall x :: x in q <==> x in all
    ensures |all| == |q|
  {
    if q == [] {
      assert all == {};
    } else {
      assert q[0] in all;
      Tail(q);
      SizeOf(q[1..], all - {q[0]});
    }
  }

  /** A down breaks a promise exactly if it steals: afterwards the woken threads, running in any order, panic
      if and only if the down took a token that one of them was owed. */
  lemma DownPanicsIff(s: State, initial: nat, t: Thread, keep: bool, order: seq<Thread>)
    requires Inv(s, initial) && Enabled(s, Down(t, keep)) && !Short(s)
    requires Distinct(order) && forall x :: x in order <==> x in Woken(s)
    ensures Run(Do(s, Down(t, keep)), Resumes(order)).noToken <==> Steals(s, Down(t, keep))
  {
    var next := Do(s, Down(t, keep));
    assert Woken(next) == Woken(s);
    StepKeeps(s, initial, Down(t, keep));
    PanicsIffShort(next, initial, order);
  }

  /** Three steps of two threads that end in the panic. */
  lemma StolenToken()
    ensures var s := Run(Init(0), [Down(1, true), Up, Down(2, true)]);
            && !s.noToken && 1 in Woken(s)
            && Do(s, Resume(1, true)).noToken
  {
    var s0 := Init(0);
    var s1 := Do(s0, Down(1, true));
    var s2 := Do(s1, Up);
    var s3 := Do(s2, Down(2, true));
    var steps := [Down(1, true), Up, Down(2, true)];
    assert Run(s0, steps) == Run(s1, steps[1..]);
    assert steps[1..] == [Up, Down(2, true)];
    assert Run(s1, steps[1..]) == Run(s2, steps[2..]);
    assert steps[2..] == [Down(2, true)];
    assert Run(s2, steps[2..]) == Run(s3, []);
  }

  // ---------------------------------------------------------------------------------------------
  // Runs that keep the promises

  /** No step of the run steals a token or overflows the count. */
  predicate Orderly(s: State, steps: seq<Step>)
    decreases |steps|
  {
    steps == [] ||
    if Enabled(s, steps[0])
    then !Steals(s, steps[0]) && !Overflows(s, steps[0]) && Orderly(Do(s, steps[0]), steps[1..])
    else Orderly(s, steps[1..])
  }

  lemma {:induction false} OrderlyNeverPanics(s: State, initial: nat, steps: seq<Step>)
    requires Inv(s, initial) && !Short(s) && !s.noToken && Orderly(s, steps)
    ensures !Run(s, steps).noToken && !Short(Run(s, steps))
    decreases |steps|
  {
    if steps != [] {
      if Enabled(s, steps[0]) {
        StepKeeps(s, initial, steps[0]);
        PromiseKept(s, initial, steps[0]);
      }
      OrderlyNeverPanics(if Enabled(s, steps[0]) then Do(s, steps[0]) else s, initial, steps[1..]);
    }
  }

  /** No up of the run overflows the count. */
  predicate Fits(s: State, steps: seq<Step>)
    decreases |steps|
  {
    steps == [] ||
    if Enabled(s, steps[0]) then !Overflows(s, steps[0]) && Fits(Do(s, steps[0]), steps[1..])
    else Fits(s, steps[1..])
  }

  predicate DownedOnlyBy(s: State, d: Thread) {
    s.downing <= {d}
  }

  /** A thread alone cannot steal from itself. */
  lemma {:induction false} AloneIsOrderly(s: State, d: Thread, steps: seq<Step>)
    requires DownedOnlyBy(s, d) && Fits(s, steps)
    requires forall step :: step in steps ==> step.Up? || step.t == d
    ensures Orderly(s, steps)
    decreases |steps|
  {
    if steps != [] {
      assert steps[0] in steps;
      assert forall step :: step in steps[1..] ==> step in steps;
      if Enabled(s, steps[0]) {
        if steps[0].Down? {
          assert s.downing == {};
          assert Woken(s) == {};
        }
        AloneIsOrderly(Do(s, steps[0]), d, steps[1..]);
      } else {
        AloneIsOrderly(s, d, steps[1..]);
      }
    }
  }

  /** With one downing thread and any number of others calling up, a down that waited always finds its
      token. */
  lemma OneConsumerNeverPanics(initial: nat, d: Thread, steps: seq<Step>)
    requires initial < TWO32 && Fits(Init(initial), steps)
    requires forall step :: step in steps ==> step.Up? || step.t == d
    ensures !Run(Init(initial), steps).noToken
  {
    assert Init(initial).count == initial + 0 - 0 + 0 * TWO32;
    AloneIsOrderly(Init(initial), d, steps);
    OrderlyNeverPanics(Init(initial), initial, steps);
  }
}
