/**
 The ticket spinlock: two 16-bit counters in one word, taken by up to 2^16 contenders.

 Each step is one atomic access to the lock by one contender, so the runs are all interleavings.  The
 history `grabs` (who took which ticket) and the number of releases `done` exist only to state what
 the two wrapping counters mean.
 */
module TicketLock {
  import opened Seqs

  const TICKETS: int := 0x1_0000
  const NONE: int := 0xFFFF

  /** Where a contender is inside `_spin_lock`, `_spin_trylock` or `_spin_unlock`. */
  datatype Place =
    | Outside
    | Snapped(head: int, tail: int)  // trylock has read the counters and found them equal
    | Waiting(ticket: int)           // lock has its ticket and spins
    | Entering                       // has the lock, has not recorded itself as holder
    | Holding
    | Leaving                        // holder cleared, head not yet advanced

  datatype State = State(
    head: int,
    tail: int,
    holder: int,
    places: seq<Place>,
    up: bool,           // percpu_up
    grabs: seq<nat>,
    done: nat,
    entries: seq<nat>)  // who got the lock, in order

  datatype Action = Grab | Spin | Snap | CompareExchange | Record | Forget | Advance

  predicate Owns(p: Place) {
    p.Entering? || p.Holding? || p.Leaving?
  }

  predicate Enabled(s: State, a: nat, act: Action) {
    a < |s.places| &&
    match act
    case Grab => s.places[a].Outside?
    case Spin => s.places[a].Waiting?
    case Snap => s.places[a].Outside?
    case CompareExchange => s.places[a].Snapped?
    case Record => s.places[a].Entering?
    case Forget => s.places[a].Holding?
    case Advance => s.places[a].Leaving?
  }

  /** The two checks that panic, "spinlock lock violation" and "spinlock unlock violation". */
  predicate Safe(s: State, a: nat, act: Action) {
    match act
    case Record => s.up ==> s.holder == NONE
    case Forget => s.up ==> s.holder != NONE
    case _ => true
  }

  function Move(s: State, a: nat, p: Place): State
    requires a < |s.places|
  {
    s.(places := s.places[a := p])
  }

  /** Contender `a` takes the next ticket and, if `entered`, has the lock at once. */
  function TakeTicket(s: State, a: nat, entered: bool): State
    requires a < |s.places|
  {
    s.(tail := (s.tail + 1) % TICKETS, grabs := s.grabs + [a],
       places := s.places[a := if entered then Entering else Waiting(s.tail)],
       entries := if entered then s.entries + [a] else s.entries)
  }

  function Do(s: State, a: nat, act: Action): State
    requires Enabled(s, a, act)
  {
    match act
    case Grab => TakeTicket(s, a, s.head == s.tail)
    case Spin =>
      if s.head == s.places[a].ticket then Move(s, a, Entering).(entries := s.entries + [a]) else s
    case Snap =>
      if s.head != s.tail then s else Move(s, a, Snapped(s.head, s.tail))
    case CompareExchange =>
      if s.head == s.places[a].head && s.tail == s.places[a].tail
      then TakeTicket(s, a, true) else Move(s, a, Outside)
    case Record => Move(if s.up then s.(holder := a) else s, a, Holding)
    case Forget => Move(if s.up then s.(holder := NONE) else s, a, Leaving)
    case Advance => Move(s.(head := (s.head + 1) % TICKETS, done := s.done + 1), a, Outside)
  }

  // ---------------------------------------------------------------------------------------------
  // The invariant

  /** The contender with ticket `i`, counted without wrapping: the first in line waits or owns the
      lock, the others wait for their own ticket. */
  ghost predicate InLine(s: State, i: int)
    requires 0 <= i < |s.grabs|
  {
    var a := s.grabs[i];
    && a < |s.places|
    && (s.places[a] == Waiting(i % TICKETS) || (i == s.done && Owns(s.places[a])))
  }

  ghost predicate HasPlace(s: State, a: nat) {
    exists i :: s.done <= i < |s.grabs| && s.grabs[i] == a
  }

  ghost predicate Line(s: State) {
    && s.done <= |s.grabs|
    && (forall i :: s.done <= i < |s.grabs| ==> InLine(s, i))
    && (forall i, j :: s.done <= i < j < |s.grabs| ==> s.grabs[i] != s.grabs[j])
    && (forall a :: 0 <= a < |s.places| && (Owns(s.places[a]) || s.places[a].Waiting?) ==> HasPlace(s, a))
  }

  ghost predicate Taken(s: State)
    requires s.done <= |s.grabs| && forall i :: s.done <= i < |s.grabs| ==> InLine(s, i)
  {
    s.done < |s.grabs| && InLine(s, s.done) && Owns(s.places[s.grabs[s.done]])
  }

  /** The holder field names the contender that holds the lock. The number of a contender must not be
      the mark for none. */
  ghost predicate HolderOk(s: State) {
    && (!s.up ==> s.holder == NONE)
    && (s.up ==> (s.holder == NONE || (0 <= s.holder < |s.places| && s.places[s.holder].Holding?)))
    && (s.up ==> forall a :: 0 <= a < |s.places| && s.places[a].Holding? ==> s.holder == a)
  }

  ghost predicate Inv(s: State) {
    && |s.places| <= TICKETS
    && s.head == s.done % TICKETS && s.tail == |s.grabs| % TICKETS
    && Line(s)
    && s.entries == s.grabs[..if Taken(s) then s.done + 1 else s.done]
    && (forall a :: 0 <= a < |s.places| && s.places[a].Snapped? ==> s.places[a].head == s.places[a].tail)
    && (|s.places| < TICKETS ==> HolderOk(s))
  }

  // ---------------------------------------------------------------------------------------------
  // No more contenders than tickets

  /** At most one ticket per contender is out. */
  lemma LineShort(s: State)
    requires Inv(s)
    ensures |s.grabs| - s.done <= |s.places|
  {
    var q := s.grabs[s.done..];
    assert forall i :: 0 <= i < |q| ==> q[i] < |s.places| by {
      assert forall i :: 0 <= i < |q| ==> q[i] == s.grabs[s.done + i] && InLine(s, s.done + i);
    }
    DistinctBelow(q, |s.places|);
  }

  /** A contender outside the line has no ticket, so equal counters mean an empty line to it. */
  lemma OutsideLine(s: State, a: nat)
    requires Inv(s) && a < |s.places| && (s.places[a].Outside? || s.places[a].Snapped?)
    ensures s.head == s.tail <==> |s.grabs| == s.done
  {
    var q := s.grabs[s.done..];
    assert forall i :: 0 <= i < |q| ==> q[i] < |s.places| && q[i] != a by {
      assert forall i :: 0 <= i < |q| ==> q[i] == s.grabs[s.done + i] && InLine(s, s.done + i);
    }
    DistinctBelow(q + [a], |s.places|);
    EqualResidues(s.done, |s.grabs|);
  }

  lemma EqualResidues(i: nat, j: nat)
    requires i <= j < i + TICKETS
    ensures i % TICKETS == j % TICKETS <==> i == j
  {
  }

  /** A contender that sees its ticket at the head is the first in line. */
  lemma FirstInLine(s: State, a: nat)
    requires Inv(s) && a < |s.places| && s.places[a].Waiting? && s.places[a].ticket == s.head
    ensures s.done < |s.grabs| && s.grabs[s.done] == a && !Taken(s)
  {
    LineShort(s);
    var i :| s.done <= i < |s.grabs| && s.grabs[i] == a;
    assert InLine(s, i);
    EqualResidues(s.done, i);
  }

  /** Mutual exclusion: whoever owns the lock is the first in line. */
  lemma OneOwner(s: State, a: nat)
    requires Inv(s) && a < |s.places| && Owns(s.places[a])
    ensures Taken(s) && s.grabs[s.done] == a
  {
    var i :| s.done <= i < |s.grabs| && s.grabs[i] == a;
    assert InLine(s, i);
  }

  // ---------------------------------------------------------------------------------------------
  // Every step keeps the invariant

  lemma NoViolation(s: State, a: nat, act: Action)
    requires Inv(s) && Enabled(s, a, act) && (s.up ==> |s.places| < TICKETS)
    ensures Safe(s, a, act)
  {
    if act == Record {
      OneOwner(s, a);
      if s.up && s.holder != NONE {
        OneOwner(s, s.holder);
      }
    }
  }

  /** Taking a ticket puts the contender at the end of the line. */
  lemma TakeTicketLine(s: State, a: nat, entered: bool)
    requires Line(s) && a < |s.places| && (s.places[a].Outside? || s.places[a].Snapped?)
    requires s.tail == |s.grabs| % TICKETS && (entered <==> |s.grabs| == s.done)
    ensures Line(TakeTicket(s, a, entered)) && (Taken(TakeTicket(s, a, entered)) <==> Taken(s) || entered)
  {
    var t := TakeTicket(s, a, entered);
    forall i | t.done <= i < |t.grabs|
      ensures InLine(t, i)
    {
      assert i < |s.grabs| ==> InLine(s, i);
    }
    forall b | 0 <= b < |t.places| && (Owns(t.places[b]) || t.places[b].Waiting?)
      ensures HasPlace(t, b)
    {
      if b == a {
        assert t.grabs[|s.grabs|] == a;
      } else {
        var i :| s.done <= i < |s.grabs| && s.grabs[i] == b;
        assert t.grabs[i] == b;
      }
    }
    forall i, j | t.done <= i < j < |t.grabs|
      ensures t.grabs[i] != t.grabs[j]
    {
      assert InLine(s, i);
    }
  }

  lemma TakeTicketKeeps(s: State, a: nat, entered: bool)
    requires Inv(s) && a < |s.places| && (s.places[a].Outside? || s.places[a].Snapped?)
    requires entered <==> s.head == s.tail
    ensures Inv(TakeTicket(s, a, entered))
  {
    hide Taken, HolderOk, HasPlace;
    OutsideLine(s, a);
    TakeTicketLine(s, a, entered);
    TakenLine(s);
    NextResidue(|s.grabs|);
    if |s.places| < TICKETS {
      TakeTicketHolder(s, a, entered);
    }
  }

  lemma TakenLine(s: State)
    requires Line(s)
    ensures Taken(s) ==> s.done < |s.grabs|
  {
  }

  lemma NextResidue(n: nat)
    ensures (n % TICKETS + 1) % TICKETS == (n + 1) % TICKETS
  {
  }

  lemma TakeTicketHolder(s: State, a: nat, entered: bool)
    requires HolderOk(s) && a < |s.places| && (s.places[a].Outside? || s.places[a].Snapped?)
    ensures HolderOk(TakeTicket(s, a, entered))
  {
  }

  /** A contender that is in line moves on without leaving it. */
  lemma MoveKeepsLine(s: State, a: nat, p: Place)
    requires Line(s) && a < |s.places| && HasPlace(s, a) && Owns(p)
    requires s.done < |s.grabs| && s.grabs[s.done] == a
    ensures Line(Move(s, a, p)) && Taken(Move(s, a, p))
  {
    var t := Move(s, a, p);
    forall i | t.done <= i < |t.grabs|
      ensures InLine(t, i)
    {
      assert InLine(s, i);
    }
    forall b | 0 <= b < |t.places| && (Owns(t.places[b]) || t.places[b].Waiting?)
      ensures HasPlace(t, b)
    {
      assert HasPlace(s, b);
      var i :| s.done <= i < |s.grabs| && s.grabs[i] == b;
      assert t.grabs[i] == b;
    }
  }

  lemma SpinKeeps(s: State, a: nat)
    requires Inv(s) && Enabled(s, a, Spin)
    ensures Inv(Do(s, a, Spin))
  {
    if s.head == s.places[a].ticket {
      FirstInLine(s, a);
      MoveKeepsLine(s.(entries := s.entries + [a]), a, Entering) by {
        LineIgnores(s, s.(entries := s.entries + [a]));
      }
    }
  }

  lemma LineIgnores(s: State, t: State)
    requires Line(s) && s.places == t.places && s.grabs == t.grabs && s.done == t.done
    ensures Line(t) && (Taken(t) <==> Taken(s)) && forall a :: HasPlace(s, a) ==> HasPlace(t, a)
  {
    assert forall i :: s.done <= i < |s.grabs| ==> InLine(s, i) && InLine(t, i);
    forall a | HasPlace(s, a)
      ensures HasPlace(t, a)
    {
      var i :| s.done <= i < |s.grabs| && s.grabs[i] == a;
      assert t.grabs[i] == a;
    }
  }

  /** A contender that is not in line moves without joining it. */
  lemma OutsiderKeeps(s: State, a: nat, p: Place)
    requires Inv(s) && a < |s.places| && (s.places[a].Outside? || s.places[a].Snapped?)
    requires p.Outside? || (p.Snapped? && p.head == p.tail)
    ensures Inv(Move(s, a, p))
  {
    var t := Move(s, a, p);
    forall i | t.done <= i < |t.grabs|
      ensures InLine(t, i)
    {
      assert InLine(s, i);
    }
    forall b | 0 <= b < |t.places| && (Owns(t.places[b]) || t.places[b].Waiting?)
      ensures HasPlace(t, b)
    {
      var i :| s.done <= i < |s.grabs| && s.grabs[i] == b;
      assert t.grabs[i] == b;
    }
    assert Taken(t) <==> Taken(s) by {
      assert s.done < |s.grabs| ==> InLine(s, s.done);
    }
  }

  /** A snapshot, however old, only lets its owner in when the line is empty now. */
  lemma CompareExchangeKeeps(s: State, a: nat)
    requires Inv(s) && Enabled(s, a, CompareExchange)
    ensures Inv(Do(s, a, CompareExchange))
  {
    if s.head == s.places[a].head && s.tail == s.places[a].tail {
      TakeTicketKeeps(s, a, true);
    } else {
      OutsiderKeeps(s, a, Outside);
    }
  }

  lemma RecordKeeps(s: State, a: nat)
    requires Inv(s) && Enabled(s, a, Record)
    ensures Inv(Do(s, a, Record))
  {
    OneOwner(s, a);
    var u := if s.up then s.(holder := a) else s;
    LineIgnores(s, u);
    MoveKeepsLine(u, a, Holding);
    forall b | 0 <= b < |s.places| && s.places[b].Holding?
      ensures b == a
    {
      OneOwner(s, b);
    }
  }

  lemma ForgetKeeps(s: State, a: nat)
    requires Inv(s) && Enabled(s, a, Forget)
    ensures Inv(Do(s, a, Forget))
  {
    OneOwner(s, a);
    var u := if s.up then s.(holder := NONE) else s;
    LineIgnores(s, u);
    MoveKeepsLine(u, a, Leaving);
  }

  /** Advancing the head lets the first in line out and nobody in. */
  lemma AdvanceLine(s: State, a: nat, t: State)
    requires Line(s) && s.done < |s.grabs| && s.grabs[s.done] == a && a < |s.places|
    requires t.places == s.places[a := Outside] && t.grabs == s.grabs && t.done == s.done + 1
    ensures Line(t) && !Taken(t)
  {
    forall i | t.done <= i < |t.grabs|
      ensures InLine(t, i) && !Owns(t.places[t.grabs[i]])
    {
      assert InLine(s, i);
    }
    forall b | 0 <= b < |t.places| && (Owns(t.places[b]) || t.places[b].Waiting?)
      ensures HasPlace(t, b)
    {
      var i :| s.done <= i < |s.grabs| && s.grabs[i] == b;
      assert t.grabs[i] == b;
    }
  }

  lemma AdvanceKeeps(s: State, a: nat)
    requires Inv(s) && Enabled(s, a, Advance)
    ensures Inv(Do(s, a, Advance))
  {
    hide Line;
    OneOwner(s, a);
    AdvanceLine(s, a, Do(s, a, Advance));
  }

  lemma StepKeeps(s: State, a: nat, act: Action)
    requires Inv(s) && Enabled(s, a, act)
    ensures Inv(Do(s, a, act))
  {
    hide Inv, Line;
    match act
    case Grab => TakeTicketKeeps(s, a, s.head == s.tail);
    case Spin => SpinKeeps(s, a);
    case Snap =>
      if s.head == s.tail {
        OutsiderKeeps(s, a, Snapped(s.head, s.tail));
      }
    case CompareExchange => CompareExchangeKeeps(s, a);
    case Record => RecordKeeps(s, a);
    case Forget => ForgetKeeps(s, a);
    case Advance => AdvanceKeeps(s, a);
  }

  // ---------------------------------------------------------------------------------------------
  // Runs

  /** Any interleaving; an access that its contender is not about to make does not happen. */
  function Run(s: State, steps: seq<(nat, Action)>): State
    decreases |steps|
  {
    if steps == [] then s
    else Run(if Enabled(s, steps[0].0, steps[0].1) then Do(s, steps[0].0, steps[0].1) else s, steps[1..])
  }

  lemma {:induction false} RunKeeps(s: State, steps: seq<(nat, Action)>)
    requires Inv(s)
    ensures Inv(Run(s, steps))
    decreases |steps|
  {
    hide Inv, Enabled, Do;
    if steps != [] {
      if Enabled(s, steps[0].0, steps[0].1) {
        StepKeeps(s, steps[0].0, steps[0].1);
        RunKeeps(Do(s, steps[0].0, steps[0].1), steps[1..]);
      } else {
        RunKeeps(s, steps[1..]);
      }
    }
  }

  /** `SPINLOCK_UNLOCKED` with nobody in sight. */
  function Unlocked(contenders: nat, up: bool): State {
    State(0, 0, NONE, seq(contenders, _ => Outside), up, [], 0, [])
  }

  lemma UnlockedInv(contenders: nat, up: bool)
    requires contenders <= TICKETS
    ensures Inv(Unlocked(contenders, up))
  {
  }

  /** In every interleaving: at most one contender owns the lock and the lock is obtained in ticket order
      (the order of entries is a prefix of the order of tickets, across wrap-around). No holder check
      panics, if holders are not recorded yet or there are fewer than 2^16 contenders. */
  lemma EveryRun(contenders: nat, up: bool, steps: seq<(nat, Action)>)
    requires contenders <= TICKETS
    ensures var s := Run(Unlocked(contenders, up), steps);
            && (forall a, b :: 0 <= a < |s.places| && 0 <= b < |s.places| && Owns(s.places[a]) && Owns(s.places[b]) ==>
                  a == b)
            && s.entries <= s.grabs
            && ((up ==> contenders < TICKETS) ==> forall a, act :: Enabled(s, a, act) ==> Safe(s, a, act))
  {
    UnlockedInv(contenders, up);
    RunKeeps(Unlocked(contenders, up), steps);
    RunSizes(Unlocked(contenders, up), steps);
    var s := Run(Unlocked(contenders, up), steps);
    forall a, b | 0 <= a < |s.places| && 0 <= b < |s.places| && Owns(s.places[a]) && Owns(s.places[b])
      ensures a == b
    {
      OneOwner(s, a);
      OneOwner(s, b);
    }
    if up ==> contenders < TICKETS {
      forall a: nat, act | Enabled(s, a, act)
        ensures Safe(s, a, act)
      {
        NoViolation(s, a, act);
      }
    }
  }

  lemma {:induction false} RunSizes(s: State, steps: seq<(nat, Action)>)
    ensures |Run(s, steps).places| == |s.places| && Run(s, steps).up == s.up
    decreases |steps|
  {
    if steps != [] {
      RunSizes(if Enabled(s, steps[0].0, steps[0].1) then Do(s, steps[0].0, steps[0].1) else s, steps[1..]);
    }
  }

  /** The lock is never stuck: when nobody owns it, the first in line gets it by looking at the head. */
  lemma FirstGetsIn(s: State)
    requires Inv(s) && !Taken(s) && s.done < |s.grabs|
    ensures var a := s.grabs[s.done]; Enabled(s, a, Spin) && Do(s, a, Spin).places[a].Entering?
  {
    assert InLine(s, s.done);
  }

  /** A trylock that nobody interferes with gets the lock if and only if nobody is in line, and otherwise leaves
      everything as it is. */
  lemma TryLockGets(s: State, a: nat)
    requires Inv(s) && Enabled(s, a, Snap)
    ensures var t := Do(s, a, Snap);
            if |s.grabs| == s.done
            then && Enabled(t, a, CompareExchange)
                 && var u := Do(t, a, CompareExchange);
                    && u.places == s.places[a := Entering]
                    && u.grabs == s.grabs + [a] && u.entries == s.entries + [a]
            else t == s
  {
    hide Line;
    OutsideLine(s, a);
  }

  /** A lock has the lock at once if and only if nobody is in line, and otherwise waits. */
  lemma LockGets(s: State, a: nat)
    requires Inv(s) && Enabled(s, a, Grab)
    ensures var t := Do(s, a, Grab);
            && t.places[a].Entering? == (|s.grabs| == s.done) && t.places[a].Waiting? == (|s.grabs| != s.done)
            && t.grabs == s.grabs + [a]
  {
    hide Line;
    OutsideLine(s, a);
  }

  /** Unlocking hands the lock to whoever is next in line. */
  lemma UnlockPasses(s: State, a: nat)
    requires Inv(s) && Enabled(s, a, Forget) && s.done + 1 < |s.grabs|
    ensures var t := Do(s, a, Forget);
            && Enabled(t, a, Advance)
            && var u := Do(t, a, Advance);
               && u.places[a].Outside? && Inv(u) && u.done == s.done + 1 && u.grabs == s.grabs
               && var b := s.grabs[s.done + 1]; Enabled(u, b, Spin) && Do(u, b, Spin).places[b].Entering?
  {
    hide Line;
    ForgetKeeps(s, a);
    var t := Do(s, a, Forget);
    AdvanceKeeps(t, a);
    var u := Do(t, a, Advance);
    NobodyIn(t, a);
    FirstGetsIn(u);
  }

  lemma NobodyIn(s: State, a: nat)
    requires Inv(s) && Enabled(s, a, Advance)
    ensures Inv(Do(s, a, Advance)) && !Taken(Do(s, a, Advance))
  {
    AdvanceKeeps(s, a);
    OneOwner(s, a);
    AdvanceLine(s, a, Do(s, a, Advance));
  }

  // ---------------------------------------------------------------------------------------------
  // The bounds are exact

  lemma {:induction false} RunAppend(s: State, steps: seq<(nat, Action)>, a: nat, act: Action)
    ensures var t := Run(s, steps);
            Run(s, steps + [(a, act)]) == if Enabled(t, a, act) then Do(t, a, act) else t
    decreases |steps|
  {
    var all := steps + [(a, act)];
    if steps == [] {
      assert all[1..] == [];
    } else {
      assert all[0] == steps[0] && all[1..] == steps[1..] + [(a, act)];
      RunAppend(if Enabled(s, all[0].0, all[0].1) then Do(s, all[0].0, all[0].1) else s, steps[1..], a, act);
    }
  }

  /** The contenders below `n` ask for the lock, one after the other. */
  function Grabs(n: nat): seq<(nat, Action)> {
    if n == 0 then [] else Grabs(n - 1) + [(n - 1, Grab)]
  }

  /** While tickets last, the first gets the lock and the others wait. */
  lemma {:induction false} QueueUp(contenders: nat, up: bool, n: nat)
    requires n <= contenders && n <= TICKETS
    ensures var s := Run(Unlocked(contenders, up), Grabs(n));
            && s.head == 0 && s.tail == n % TICKETS && |s.places| == contenders
            && (n > 0 ==> s.places[0].Entering?)
            && (forall a :: n <= a < contenders ==> s.places[a].Outside?)
  {
    if n > 0 {
      QueueUp(contenders, up, n - 1);
      RunAppend(Unlocked(contenders, up), Grabs(n - 1), n - 1, Grab);
    }
  }

  /** One contender more and exclusion is lost: when the first owns the lock and 2^16 - 1 others wait, the
      counters are equal again and the next one walks in. */
  lemma TwoOwners(contenders: nat, up: bool)
    requires contenders > TICKETS
    ensures var s := Run(Unlocked(contenders, up), Grabs(TICKETS + 1));
            |s.places| == contenders && Owns(s.places[0]) && Owns(s.places[TICKETS])
  {
    QueueUp(contenders, up, TICKETS);
    RunAppend(Unlocked(contenders, up), Grabs(TICKETS), TICKETS, Grab);
  }

  /** With 2^16 contenders the last one has the number that marks no holder: it takes the lock, records
      itself, and the check in its unlock fails. */
  lemma LastHolderPanics(contenders: nat)
    requires contenders > NONE
    ensures var s := Run(Unlocked(contenders, true), [(NONE, Grab), (NONE, Record)]);
            Enabled(s, NONE, Forget) && !Safe(s, NONE, Forget)
  {
    var s0 := Unlocked(contenders, true);
    var s1 := Do(s0, NONE, Grab);
    var steps: seq<(nat, Action)> := [(NONE, Grab), (NONE, Record)];
    assert Run(s0, steps) == Run(s1, steps[1..]);
    assert |steps[1..][1..]| == 0;
  }
}
