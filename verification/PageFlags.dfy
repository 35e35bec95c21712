/**
 What runs of the page allocator do to the flags of the pages and to its counters, which block an allocation
 takes, and which block comes next after a free.
 */
module PageFlags {
  import opened Bits
  import opened Common
  import opened BuddyBlocks
  import opened BuddyLists
  import opened BuddySteps
  import opened BuddyRuns

  predicate SameFlags(a: Page, b: Page) {
    a.used == b.used && a.perm == b.perm && a.cache == b.cache
  }

  // ---------------------------------------------------------------------------------------------
  // One operation

  /** An allocation marks its pages used, and as cache pages exactly if asked to. */
  lemma AllocFlags(m: Machine, n: nat, cache: bool, x: nat)
    requires Inv(m) && n > 0 && x < |m.s.ps|
    ensures var r, t := Alloc(m.s, n), Step(m, AllocPages(n, cache)).s.ps;
            && |t| == |m.s.ps|
            && if r.Allocated? && r.first <= x < r.first + n
               then IsFree(m.s.ps[x]) && t[x].used && !t[x].perm && t[x].cache == cache
               else SameFlags(t[x], m.s.ps[x])
  {
    hide Sound, Tracked, Alloc, Decomposed;
    AllocKeeps(m.s, n);
  }

  /** A free clears the flags of the pages of the allocation and of no other. */
  lemma FreeFlags(m: Machine, p: nat, x: nat)
    requires Inv(m) && p in m.live && x < |m.s.ps|
    ensures var t := Step(m, FreePages(p)).s.ps;
            && |t| == |m.s.ps|
            && if p <= x < p + m.live[p] then IsFree(t[x]) && !t[x].cache else SameFlags(t[x], m.s.ps[x])
  {
    hide Sound, Tracked, FreeAll;
    LiveIsFreeable(m, p);
    FreeAllKeeps(m.s, p, m.live[p]);
  }

  lemma ClaimFlags(m: Machine, i: nat, x: nat)
    requires Inv(m) && Allowed(m, ClaimPage(i)) && x < |m.s.ps|
    ensures var t := Step(m, ClaimPage(i)).s.ps;
            && |t| == |m.s.ps|
            && if x == i then IsFree(t[x]) && !t[x].cache else SameFlags(t[x], m.s.ps[x])
  {
    hide Sound, Tracked, Claim;
    ClaimKeeps(m.s, i);
  }

  // ---------------------------------------------------------------------------------------------
  // Runs

  /** The starts of the live allocations that were asked for as cache pages, after one operation. */
  ghost function Marks(m: Machine, marks: set<nat>, op: Op): set<nat>
    requires Inv(m) && Allowed(m, op)
  {
    match op
    case AllocPages(n, cache) =>
      if Alloc(m.s, n).Allocated? && cache then marks + {Alloc(m.s, n).first} else marks
    case FreePages(p) => marks - {p}
    case ClaimPage(_) => marks
  }

  /** And after a run. */
  ghost function MarksAfter(m: Machine, marks: set<nat>, ops: seq<Op>): set<nat>
    requires Inv(m)
    decreases |ops|
  {
    if ops == [] then marks
    else if Allowed(m, ops[0]) then
      StepKeeps(m, ops[0]);
      MarksAfter(Step(m, ops[0]), Marks(m, marks, ops[0]), ops[1..])
    else MarksAfter(m, marks, ops[1..])
  }

  /** The page belongs to a live allocation that was asked for as cache pages. */
  ghost predicate Marked(m: Machine, marks: set<nat>, x: nat) {
    exists p :: p in m.live && p in marks && p <= x < p + m.live[p]
  }

  ghost predicate FlagsOk(m: Machine, marks: set<nat>) {
    && (forall p :: p in marks ==> p in m.live)
    && (forall x :: 0 <= x < |m.s.ps| ==> (m.s.ps[x].cache <==> Marked(m, marks, x)))
  }

  lemma AllocMarks(m: Machine, marks: set<nat>, n: nat, cache: bool)
    requires Inv(m) && FlagsOk(m, marks) && n > 0
    ensures FlagsOk(Step(m, AllocPages(n, cache)), Marks(m, marks, AllocPages(n, cache)))
  {
    hide Sound, Alloc, Decomposed, Covered, CachePages;
    var op := AllocPages(n, cache);
    var m', marks', r := Step(m, op), Marks(m, marks, op), Alloc(m.s, n);
    if r.Allocated? {
      NewStart(m, n);
      forall x | 0 <= x < |m'.s.ps|
        ensures m'.s.ps[x].cache <==> Marked(m', marks', x)
      {
        AllocFlags(m, n, cache, x);
        if r.first <= x < r.first + n {
          assert r.first in m'.live && m'.live[r.first] == n;
          InsideNew(m, n, x);
        } else if Marked(m, marks, x) {
          var p :| p in m.live && p in marks && p <= x < p + m.live[p];
          assert p in m'.live && p in marks' && m'.live[p] == m.live[p];
        }
      }
    }
  }

  lemma NewStart(m: Machine, n: nat)
    requires Inv(m) && n > 0 && Alloc(m.s, n).Allocated?
    ensures Alloc(m.s, n).first !in m.live && |Alloc(m.s, n).state.ps| == |m.s.ps|
  {
    hide Sound, Alloc, Decomposed, Covered;
    AllocKeeps(m.s, n);
    var b := Alloc(m.s, n).first;
    assert IsFree(m.s.ps[b]);
  }

  /** No live allocation covers a page that an allocation takes. */
  lemma InsideNew(m: Machine, n: nat, x: nat)
    requires Inv(m) && n > 0 && Alloc(m.s, n).Allocated?
    requires Alloc(m.s, n).first <= x < Alloc(m.s, n).first + n
    ensures forall p :: p in m.live ==> !(p <= x < p + m.live[p])
  {
    hide Sound, Alloc, Decomposed, Covered;
    AllocKeeps(m.s, n);
    assert IsFree(m.s.ps[x]);
    forall p | p in m.live
      ensures !(p <= x < p + m.live[p])
    {
      assert Allocation(m.s, p, m.live[p]);
    }
  }

  lemma FreeMarks(m: Machine, marks: set<nat>, p: nat)
    requires Inv(m) && FlagsOk(m, marks) && p in m.live
    ensures FlagsOk(Step(m, FreePages(p)), Marks(m, marks, FreePages(p)))
  {
    hide Sound, FreeAll, Decomposed, Covered;
    var m', marks' := Step(m, FreePages(p)), Marks(m, marks, FreePages(p));
    forall x | 0 <= x < |m'.s.ps|
      ensures m'.s.ps[x].cache <==> Marked(m', marks', x)
    {
      FreedPages(m, p);
      FreeFlags(m, p, x);
      if p <= x < p + m.live[p] {
        assert forall q :: q in m'.live ==> !(q <= x < q + m'.live[q]);
      } else if Marked(m, marks, x) {
        var q :| q in m.live && q in marks && q <= x < q + m.live[q];
        assert q in m'.live && q in marks' && m'.live[q] == m.live[q];
      }
    }
  }

  lemma FreedPages(m: Machine, p: nat)
    requires Inv(m) && p in m.live
    ensures |Step(m, FreePages(p)).s.ps| == |m.s.ps|
    ensures forall q :: q in m.live && q != p ==> q + m.live[q] <= p || p + m.live[p] <= q
  {
    hide Sound, FreeAll, Decomposed, Covered, Intact;
    StepKeeps(m, FreePages(p));
  }

  lemma ClaimMarks(m: Machine, marks: set<nat>, i: nat)
    requires Inv(m) && FlagsOk(m, marks) && Allowed(m, ClaimPage(i))
    ensures FlagsOk(Step(m, ClaimPage(i)), marks)
  {
    hide Sound, Claim, Decomposed, Covered;
    var m' := Step(m, ClaimPage(i));
    StepKeeps(m, ClaimPage(i));
    forall x | 0 <= x < |m'.s.ps|
      ensures m'.s.ps[x].cache <==> Marked(m', marks, x)
    {
      ClaimFlags(m, i, x);
      if x == i {
        forall p | p in m.live
          ensures !(p <= x < p + m.live[p])
        {
          assert Allocation(m.s, p, m.live[p]);
        }
      } else if Marked(m, marks, x) {
        var p :| p in m.live && p in marks && p <= x < p + m.live[p];
        assert p in m'.live;
      }
    }
  }

  /** How many pages a run has claimed. */
  ghost function ClaimCount(m: Machine, ops: seq<Op>): nat
    requires Inv(m)
    decreases |ops|
  {
    if ops == [] then 0
    else if Allowed(m, ops[0]) then
      StepKeeps(m, ops[0]);
      (if ops[0].ClaimPage? then 1 else 0) + ClaimCount(Step(m, ops[0]), ops[1..])
    else ClaimCount(m, ops[1..])
  }

  lemma {:induction false} RunFlags(m: Machine, marks: set<nat>, ops: seq<Op>)
    requires Inv(m) && FlagsOk(m, marks)
    ensures FlagsOk(Run(m, ops), MarksAfter(m, marks, ops))
    ensures Run(m, ops).available == (m.available + ClaimCount(m, ops)) % TWO32
    decreases |ops|
  {
    hide Inv, FlagsOk, Step, Marks;
    if ops == [] {
      Below32(m);
    } else if Allowed(m, ops[0]) {
      var op := ops[0];
      StepKeeps(m, op);
      match op {
        case AllocPages(n, cache) => AllocMarks(m, marks, n, cache);
        case FreePages(p) => FreeMarks(m, marks, p);
        case ClaimPage(i) =>
          ClaimMarks(m, marks, i);
          assert Marks(m, marks, op) == marks by { ClaimMarksNothing(m, marks, i); }
      }
      RunFlags(Step(m, op), Marks(m, marks, op), ops[1..]);
      Available(m, op, ClaimCount(Step(m, op), ops[1..]));
    } else {
      RunFlags(m, marks, ops[1..]);
    }
  }

  lemma ClaimMarksNothing(m: Machine, marks: set<nat>, i: nat)
    requires Inv(m) && Allowed(m, ClaimPage(i))
    ensures Marks(m, marks, ClaimPage(i)) == marks
  {
  }

  lemma Below32(m: Machine)
    requires Inv(m)
    ensures m.available == m.available % TWO32
  {
  }

  lemma Available(m: Machine, op: Op, more: nat)
    requires Inv(m) && Allowed(m, op)
    ensures (Step(m, op).available + more) % TWO32 ==
            (m.available + ((if op.ClaimPage? then 1 else 0) + more)) % TWO32
  {
    hide Sound, Tracked, Alloc, FreeAll, Claim, CachePages;
    if op.ClaimPage? {
      WrapOnce(m.available, 1, more);
    }
  }

  lemma WrapOnce(a: int, b: int, c: int)
    ensures ((a + b) % TWO32 + c) % TWO32 == (a + (b + c)) % TWO32
  {
  }

  /** After every run from boot a page carries the cache flag exactly if the live allocation it belongs to was asked
      for as cache pages, a free or reserved page never does, and as many pages are available as were claimed. */
  lemma EveryFlag(n: nat, ops: seq<Op>)
    requires Aligned(n, MAX_ORDER + 1)
    ensures Inv(Boot(n))
    ensures var m, marks := Run(Boot(n), ops), MarksAfter(Boot(n), {}, ops);
            && (forall x :: 0 <= x < |m.s.ps| ==> (m.s.ps[x].cache <==> Marked(m, marks, x)))
            && (forall x :: 0 <= x < |m.s.ps| && m.s.ps[x].cache ==> m.s.ps[x].used && !m.s.ps[x].perm)
            && m.available == ClaimCount(Boot(n), ops) % TWO32
  {
    hide Sound, Run, MarksAfter, ClaimCount;
    BootInv(n);
    BootFlags(n);
    RunFlags(Boot(n), {}, ops);
    RunKeeps(Boot(n), ops);
    var m, marks := Run(Boot(n), ops), MarksAfter(Boot(n), {}, ops);
    forall x | 0 <= x < |m.s.ps| && m.s.ps[x].cache
      ensures m.s.ps[x].used && !m.s.ps[x].perm
    {
      var p :| p in m.live && p in marks && p <= x < p + m.live[p];
      assert Allocation(m.s, p, m.live[p]);
    }
  }

  lemma BootFlags(n: nat)
    ensures FlagsOk(Boot(n), {}) && Boot(n).available == 0
  {
  }

  // ---------------------------------------------------------------------------------------------
  // Which block is taken

  /** Best fit, last in first out: an allocation starts at the front block of the smallest order that has one and
      is big enough, which is a maximal run of free pages; no smaller maximal run would do. */
  lemma AllocTakesBest(s: State, n: nat)
    requires Ok(s, 0, 0) && n > 0 && Alloc(s, n).Allocated?
    ensures |s.lists| == MAX_ORDER + 1
    ensures exists k ::
              && TargetOrder(n) <= k <= MAX_ORDER && s.lists[k] != [] && s.lists[k][0] == Alloc(s, n).first
              && MaximalRun(s.ps, Alloc(s, n).first, k)
              && forall j: nat, h: nat :: TargetOrder(n) <= j < k ==> !MaximalRun(s.ps, h, j)
  {
    hide Sound, MaximalRun, Trim, TargetOrder;
    Sizes(s, 0, 0);
    var k := FirstList(s.lists, TargetOrder(n));
    assert s.lists[k][0] in s.lists[k];
    ListsAreMaximalRuns(s.ps, s.owner, s.lists, s.lists[k][0], k);
    forall j: nat, h: nat | TargetOrder(n) <= j < k
      ensures !MaximalRun(s.ps, h, j)
    {
      ListsAreMaximalRuns(s.ps, s.owner, s.lists, h, j);
    }
  }

  /** Block `h` is the first of its list, and covers the pages `lo..hi`. */
  ghost predicate InFront(t: State, lo: nat, hi: nat, h: nat) {
    && h < |t.ps| && |t.lists| == MAX_ORDER + 1 && t.ps[h].order <= MAX_ORDER
    && t.lists[t.ps[h].order] != [] && t.lists[t.ps[h].order][0] == h
    && h <= lo && hi <= h + Pow2(t.ps[h].order)
  }

  lemma {:induction false} RippleInFront(s: State, b: nat) returns (h: nat)
    requires FreeAt(s, b) && Ok(s, b, End(s, b))
    ensures InFront(Ripple(s, b), b, End(s, b), h)
    decreases MAX_ORDER - s.ps[b].order
  {
    hide Sound, RippleOnce, PairStart, InFront;
    if Joinable(s, b) {
      RippleFinds(s.ps, s.owner, s.lists, b, End(s, b));
      var m := PairStart(b, s.ps[b].order);
      var t := RippleOnce(s, b);
      RippleOnceKeeps(s, b, t, m);
      h := RippleInFront(t, m);
      PairCovers(s, b, t, m);
      Wider(Ripple(s, b), m, End(t, m), b, End(s, b), h);
    } else {
      h := b;
      PutInFront(s, b);
    }
  }

  lemma PairCovers(s: State, b: nat, t: State, m: nat)
    requires FreeAt(s, b) && Ok(s, b, End(s, b)) && Buddy(b, s.ps[b].order) >= 0 && m == PairStart(b, s.ps[b].order)
    requires m < |t.ps| && t.ps[m].order == s.ps[b].order + 1
    ensures m <= b && End(s, b) <= End(t, m)
  {
    hide Flagged, Listed, Coalesced;
    PairGeometry(b, s.ps[b].order) by { assert Placed(s.ps, s.owner, b); }
  }

  lemma Wider(t: State, lo: nat, hi: nat, lo': nat, hi': nat, h: nat)
    requires InFront(t, lo, hi, h) && lo <= lo' && hi' <= hi
    ensures InFront(t, lo', hi', h)
  {
  }

  lemma PutInFront(s: State, b: nat)
    requires FreeAt(s, b)
    ensures InFront(Put(s, b), b, End(s, b), b)
  {
  }

  /** A block that was freed is, joined with its buddies, the first of its list: the next allocation of its order
      gets it. */
  lemma FreedComesFirst(s: State, p: nat)
    requires Ok(s, 0, 0) && UsedAt(s, p)
    ensures exists h :: InFront(FreeOne(s, p), p, End(s, p), h)
  {
    hide Sound, Ripple, InFront;
    ClearOk(s, p);
    var h := RippleInFront(Clear(s, p), p);
    assert InFront(FreeOne(s, p), p, End(s, p), h);
  }
}
