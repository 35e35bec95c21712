/**
 Freeing, claiming and whole runs of the page allocator.
 */
module BuddyRuns {
  import opened Bits
  import opened Common
  import opened BuddyBlocks
  import opened BuddyLists
  import opened BuddySteps

  // ---------------------------------------------------------------------------------------------
  // Completeness of do_alloc_pages

  /** The out-of-memory panic is reached exactly when no aligned run of free pages is big enough. */
  lemma AllocFailsOnlyWhenFull(s: State, n: nat)
    requires Ok(s, 0, 0) && n > 0
    ensures Alloc(s, n).OutOfMemory? <==>
            TargetOrder(n) > MAX_ORDER || !exists p: nat :: FreeRun(s.ps, p, TargetOrder(n))
  {
    Sizes(s, 0, 0);
    var k := TargetOrder(n);
    var r := FirstList(s.lists, k);
    if r <= MAX_ORDER {
      ListHead(s, r);
      var b := s.lists[r][0];
      BlockIsRun(s.ps, s.owner, b);
      AlignedWeaken(b, k, r);
      Pow2Monotone(k, r);
      assert FreeRun(s.ps, b, k);
    }
    if k <= MAX_ORDER {
      forall p: nat | FreeRun(s.ps, p, k)
        ensures r <= MAX_ORDER
      {
        RunInOneBlock(s.ps, s.owner, s.lists, p, k);
        var h := s.owner[p];
        assert IsFree(s.ps[p]);
        assert FreeHead(s.ps, s.owner, h, 0, 0);
        assert h in s.lists[s.ps[h].order];
      }
    }
  }

  // ---------------------------------------------------------------------------------------------
  // free_page and free_pages

  /** `p` is the head of an allocated block. */
  ghost predicate UsedAt(s: State, p: nat) {
    p < |s.ps| == |s.owner| && s.owner[p] == p && s.ps[p].used && !s.ps[p].perm
  }

  ghost function Clear(s: State, p: nat): State
    requires p < |s.ps|
  {
    s.(ps := ClearPages(s.ps, p, End(s, p)))
  }

  lemma ClearOk(s: State, p: nat)
    requires Ok(s, 0, 0) && UsedAt(s, p)
    ensures FreeAt(Clear(s, p), p) && Ok(Clear(s, p), p, End(Clear(s, p), p))
    ensures End(s, p) <= |s.ps|
    ensures forall x :: p <= x < End(s, p) ==> s.ps[x].used && !s.ps[x].perm
  {
    assert Placed(s.ps, s.owner, p);
    assert Aligned(p, s.ps[p].order);
    BlockEnds(|s.ps|, p, s.ps[p].order);
    ClearKeeps(s.ps, s.owner, s.lists, p, Clear(s, p).ps);
    forall x | p <= x < End(s, p)
      ensures s.ps[x].used && !s.ps[x].perm
    {
      assert InBlock(s.ps, p, x) && Placed(s.ps, s.owner, x);
    }
  }

  ghost function FreeOne(s: State, p: nat): State
    requires Ok(s, 0, 0) && UsedAt(s, p)
  {
    ClearOk(s, p);
    Ripple(Clear(s, p), p)
  }

  /** What freeing the pages `lo..hi` does: they become free without flags, all other flags stay, and
      pages still in use keep their order and their block. */
  ghost predicate FreeEffect(s: State, lo: nat, hi: nat, t: State) {
    && |s.owner| == |s.ps| == |t.ps| == |t.owner|
    && (forall x :: 0 <= x < |s.ps| && lo <= x < hi ==> IsFree(t.ps[x]) && !t.ps[x].cache)
    && (forall x :: 0 <= x < |s.ps| && !(lo <= x < hi) ==> t.ps[x] == s.ps[x].(order := t.ps[x].order))
    && (forall x :: 0 <= x < |s.ps| && !(lo <= x < hi) && !IsFree(s.ps[x]) ==>
          t.ps[x] == s.ps[x] && t.owner[x] == s.owner[x])
  }

  lemma FreeOneKeeps(s: State, p: nat)
    requires Ok(s, 0, 0) && UsedAt(s, p)
    ensures Ok(FreeOne(s, p), 0, 0) && FreeEffect(s, p, End(s, p), FreeOne(s, p))
  {
    hide Sound, Ripple;
    Sizes(s, 0, 0);
    ClearOk(s, p);
    RippleKeeps(Clear(s, p), p);
  }

  /** An allocation as `free_pages` expects it: the pages are in use, in blocks that are the
      descending binary decomposition of their number. */
  ghost predicate Allocation(s: State, p: nat, n: nat) {
    && |s.owner| == |s.ps| && p + n <= |s.ps|
    && (forall x :: p <= x < p + n ==> s.ps[x].used && !s.ps[x].perm)
    && Decomposed(s.ps, s.owner, p, n)
  }

  ghost predicate Freeable(s: State, p: nat, n: nat) {
    Ok(s, 0, 0) && Allocation(s, p, n)
  }

  lemma AllocationFrame(s: State, t: State, q: nat, m: nat)
    requires Allocation(s, q, m) && |t.owner| == |t.ps| == |s.ps|
    requires forall x :: q <= x < q + m ==>
               t.ps[x].used && !t.ps[x].perm && t.ps[x].order == s.ps[x].order && t.owner[x] == s.owner[x]
    ensures Allocation(t, q, m)
  {
    DecompositionFrame(s.ps, s.owner, t.ps, t.owner, q, m);
  }

  /** Freeing the first block leaves the rest of the allocation as it was. */
  lemma FreeFirst(s: State, p: nat, n: nat)
    requires Freeable(s, p, n) && n > 0
    ensures UsedAt(s, p) && Ok(s, 0, 0) && s.ps[p].order == Log2(n)
    ensures n != s.ps[p].order
    ensures Ok(FreeOne(s, p), 0, 0)
    ensures FreeEffect(s, p, p + Pow2(Log2(n)), FreeOne(s, p))
    ensures Freeable(FreeOne(s, p), p + Pow2(Log2(n)), n - Pow2(Log2(n)))
  {
    hide Sound, FreeOne, Log2, Decomposed, Pow2;
    FirstBlock(s, p, n);
    FreeOneKeeps(s, p);
    Log2Below(n);
    var size := Pow2(Log2(n));
    RestOfAllocation(s, p, n, size);
    AllocationFrame(s, FreeOne(s, p), p + size, n - size);
  }

  lemma FirstBlock(s: State, p: nat, n: nat)
    requires Freeable(s, p, n) && n > 0
    ensures UsedAt(s, p) && s.ps[p].order == Log2(n) && Pow2(Log2(n)) <= n
  {
    hide Sound, Log2;
  }

  lemma RestOfAllocation(s: State, p: nat, n: nat, size: nat)
    requires Allocation(s, p, n) && n > 0 && size == Pow2(Log2(n))
    ensures Allocation(s, p + size, n - size)
  {
  }

  lemma {:induction false} Log2Below(n: nat)
    requires n > 0
    ensures Log2(n) < n
  {
    if n > 1 {
      Log2Below(n / 2);
    }
  }

  ghost function FreeAll(s: State, p: nat, n: nat): State
    requires Freeable(s, p, n)
    decreases n
  {
    hide Freeable, FreeEffect, FreeOne, Log2, UsedAt;
    if n == 0 then s else
      FreeFirst(s, p, n);
      FreeAll(FreeOne(s, p), p + Pow2(Log2(n)), n - Pow2(Log2(n)))
  }

  /** One round of the loop of `free_pages`. */
  lemma FreeAllStep(s: State, p: nat, n: nat, size: nat, t: State)
    requires n > 0 && Freeable(s, p, n) && Ok(s, 0, 0) && UsedAt(s, p) && t == FreeOne(s, p)
    requires size == Pow2(Log2(n)) && size <= n && Freeable(t, p + size, n - size)
    ensures FreeAll(s, p, n) == FreeAll(t, p + size, n - size)
  {
    hide Sound, Freeable, FreeOne, Log2, Pow2;
  }

  lemma FreeNone(s: State, p: nat)
    requires Freeable(s, p, 0)
    ensures FreeAll(s, p, 0) == s
  {
  }

  lemma {:induction false} FreeAllKeeps(s: State, p: nat, n: nat)
    requires Freeable(s, p, n)
    ensures Ok(FreeAll(s, p, n), 0, 0) && FreeEffect(s, p, p + n, FreeAll(s, p, n))
    decreases n
  {
    hide Sound, Allocation, FreeOne, UsedAt, Log2;
    Sizes(s, 0, 0);
    if n > 0 {
      FreeFirst(s, p, n);
      FreeAllKeeps(FreeOne(s, p), p + Pow2(Log2(n)), n - Pow2(Log2(n)));
    }
  }

  /** Freeing what was just allocated puts the same blocks back on every list. */
  lemma AllocThenFreeRestores(s: State, n: nat)
    requires Ok(s, 0, 0) && n > 0 && Alloc(s, n).Allocated?
    ensures var r := Alloc(s, n);
            && Ok(r.state, 0, 0) && Allocation(r.state, r.first, n)
            && |FreeAll(r.state, r.first, n).lists| == |s.lists| == MAX_ORDER + 1
            && forall k, h :: 0 <= k <= MAX_ORDER ==> (h in s.lists[k] <==> h in FreeAll(r.state, r.first, n).lists[k])
  {
    hide Partition, Flagged, Listed, Coalesced, Alloc, FreeAll;
    AllocKeeps(s, n);
    var r := Alloc(s, n);
    FreeAllKeeps(r.state, r.first, n);
    var t := FreeAll(r.state, r.first, n);
    Sizes(s, 0, 0);
    Sizes(t, 0, 0);
    SameFreePagesSameLists(s.ps, s.owner, s.lists, t.ps, t.owner, t.lists);
  }

  /** Two allocations may be freed in either order: the lists end up with the same blocks. */
  lemma FreesCommute(s: State, p: nat, n: nat, q: nat, m: nat)
    requires Ok(s, 0, 0) && Allocation(s, p, n) && Allocation(s, q, m) && (p + n <= q || q + m <= p)
    ensures Ok(FreeAll(s, p, n), 0, 0) && Allocation(FreeAll(s, p, n), q, m)
    ensures Ok(FreeAll(s, q, m), 0, 0) && Allocation(FreeAll(s, q, m), p, n)
    ensures var t, t' := FreeAll(FreeAll(s, p, n), q, m), FreeAll(FreeAll(s, q, m), p, n);
            && |t.lists| == |t'.lists| == MAX_ORDER + 1
            && forall k, h :: 0 <= k <= MAX_ORDER ==> (h in t.lists[k] <==> h in t'.lists[k])
  {
    hide Partition, Flagged, Listed, Coalesced, FreeAll;
    FreeLeaves(s, p, n, q, m);
    FreeLeaves(s, q, m, p, n);
    var a, b := FreeAll(s, p, n), FreeAll(s, q, m);
    FreeAllKeeps(s, p, n);
    FreeAllKeeps(s, q, m);
    FreeAllKeeps(a, q, m);
    FreeAllKeeps(b, p, n);
    var t, t' := FreeAll(a, q, m), FreeAll(b, p, n);
    Sizes(t, 0, 0);
    Sizes(t', 0, 0);
    SameFreePagesSameLists(t.ps, t.owner, t.lists, t'.ps, t'.owner, t'.lists);
  }

  /** Freeing one allocation leaves a disjoint one intact. */
  lemma FreeLeaves(s: State, p: nat, n: nat, q: nat, m: nat)
    requires Ok(s, 0, 0) && Allocation(s, p, n) && Allocation(s, q, m) && (p + n <= q || q + m <= p)
    ensures Ok(FreeAll(s, p, n), 0, 0) && Allocation(FreeAll(s, p, n), q, m)
  {
    hide Sound, FreeAll;
    FreeAllKeeps(s, p, n);
    var t := FreeAll(s, p, n);
    assert forall x :: q <= x < q + m ==> t.ps[x] == s.ps[x] && t.owner[x] == s.owner[x];
    DecompositionFrame(s.ps, s.owner, t.ps, t.owner, q, m);
  }

  // ---------------------------------------------------------------------------------------------
  // claim_page, and the ALLOC_CACHE flag

  /** Replaces the page `i` by one with the same order that is free or not as before. */
  lemma ReflagOk(s: State, ps': seq<Page>)
    requires Ok(s, 0, 0) && |ps'| == |s.ps|
    requires forall x :: 0 <= x < |s.ps| ==> ps'[x].order == s.ps[x].order && IsFree(ps'[x]) == IsFree(s.ps[x])
    requires forall x :: 0 <= x < |s.ps| && ps'[x].perm ==> s.ps[x].perm && ps'[x].used
    requires forall x :: 0 <= x < |s.ps| && ps'[x].cache ==> !IsFree(ps'[x])
    ensures Ok(s.(ps := ps'), 0, 0)
  {
    SameOrdersPartition(s.ps, s.owner, ps');
    forall x | 0 <= x < |s.ps|
      ensures Placed(ps', s.owner, x) && IsFree(ps'[x]) == IsFree(ps'[s.owner[x]])
    {
      assert Placed(s.ps, s.owner, x);
    }
    ListedFrame(s.ps, s.owner, s.lists, 0, 0, ps', s.owner, 0, 0);
  }

  lemma FreeHasNoCache(s: State)
    requires Ok(s, 0, 0)
    ensures forall x :: 0 <= x < |s.ps| && IsFree(s.ps[x]) ==> !s.ps[x].cache
    ensures forall x :: 0 <= x < |s.ps| && s.ps[x].perm ==> s.ps[x].used
  {
  }

  ghost function Unlock(s: State, i: nat): State
    requires i < |s.ps|
  {
    s.(ps := s.ps[i := s.ps[i].(perm := false)])
  }

  lemma UnlockOk(s: State, i: nat)
    requires Ok(s, 0, 0) && i < |s.ps| && s.ps[i].perm
    ensures Ok(Unlock(s, i), 0, 0) && UsedAt(Unlock(s, i), i) && Unlock(s, i).ps[i].order == 0
  {
    ReflagOk(s, Unlock(s, i).ps);
  }

  ghost function Claim(s: State, i: nat): State
    requires Ok(s, 0, 0) && i < |s.ps| && s.ps[i].perm
  {
    UnlockOk(s, i);
    FreeOne(Unlock(s, i), i)
  }

  lemma ClaimKeeps(s: State, i: nat)
    requires Ok(s, 0, 0) && i < |s.ps| && s.ps[i].perm
    ensures Ok(Claim(s, i), 0, 0) && FreeEffect(s, i, i + 1, Claim(s, i))
  {
    hide Sound, FreeOne;
    UnlockOk(s, i);
    FreeOneKeeps(Unlock(s, i), i);
  }

  function CachePages(ps: seq<Page>, lo: nat, hi: nat): (r: seq<Page>)
    ensures |r| == |ps|
    ensures forall x :: 0 <= x < |ps| ==> r[x] == if lo <= x < hi then ps[x].(cache := true) else ps[x]
  {
    seq(|ps|, x requires 0 <= x < |ps| => if lo <= x < hi then ps[x].(cache := true) else ps[x])
  }

  // ---------------------------------------------------------------------------------------------
  // Runs


  /** 32-bit addition and subtraction. */
  function Add32(a: int, b: int): (r: int)
    ensures 0 <= r < TWO32
  {
    (a + b) % TWO32
  }

  function Sub32(a: int, b: int): (r: int)
    ensures 0 <= r < TWO32
  {
    (a - b) % TWO32
  }

  lemma Sub32Twice(a: int, b: int, c: int)
    ensures Sub32(Sub32(a, b), c) == Sub32(a, b + c)
  {
  }

  /** The allocator together with its counters and, for the specification, the allocations that
      its clients hold (first page and number of pages). */
  datatype Machine = Machine(s: State, live: map<nat, nat>, inUse: int, available: int)

  datatype Op = AllocPages(n: nat, cache: bool) | FreePages(p: nat) | ClaimPage(i: nat)

  ghost predicate Covered(live: map<nat, nat>, x: nat) {
    exists p :: p in live && p <= x < p + live[p]
  }

  ghost predicate Intact(s: State, live: map<nat, nat>) {
    forall p :: p in live ==> live[p] > 0 && Allocation(s, p, live[p])
  }

  ghost predicate Apart(live: map<nat, nat>) {
    forall p, q :: p in live && q in live && p < q ==> p + live[p] <= q
  }

  /** Every live allocation is intact, no two overlap, and every page in use belongs to one. */
  ghost predicate Tracked(s: State, live: map<nat, nat>) {
    && Intact(s, live)
    && Apart(live)
    && (forall x :: 0 <= x < |s.ps| && s.ps[x].used && !s.ps[x].perm ==> Covered(live, x))
  }

  ghost predicate Inv(m: Machine) {
    Ok(m.s, 0, 0) && Tracked(m.s, m.live) && 0 <= m.inUse < TWO32 && 0 <= m.available < TWO32
  }

  /** A request the allocator accepts: a positive count, an allocation its client holds, or a page
      that was never claimed. */
  predicate Allowed(m: Machine, op: Op) {
    match op
    case AllocPages(n, _) => n > 0
    case FreePages(p) => p in m.live
    case ClaimPage(i) => i < |m.s.ps| && m.s.ps[i].perm
  }

  ghost function Step(m: Machine, op: Op): Machine
    requires Inv(m) && Allowed(m, op)
  {
    match op
    case AllocPages(n, cache) =>
      (match Alloc(m.s, n)
       case OutOfMemory => m
       case Allocated(p, t) =>
         Machine(if cache then t.(ps := CachePages(t.ps, p, p + n)) else t, m.live[p := n],
                 Add32(m.inUse, n), m.available))
    case FreePages(p) =>
      Machine(FreeAll(m.s, p, m.live[p]), m.live - {p}, Sub32(m.inUse, m.live[p]), m.available)
    case ClaimPage(i) =>
      Machine(Claim(m.s, i), m.live, Sub32(m.inUse, 1), Add32(m.available, 1))
  }

  /** Free pages and an allocation do not overlap. */
  lemma FreeApart(s: State, q: nat, m: nat, p: nat, n: nat)
    requires Allocation(s, q, m) && m > 0 && n > 0 && p + n <= |s.ps|
    requires forall x :: p <= x < p + n ==> IsFree(s.ps[x])
    ensures q + m <= p || p + n <= q
  {
    hide Decomposed;
    assert s.ps[q].used && IsFree(s.ps[p]);
  }

  lemma AllocTracked(s: State, live: map<nat, nat>, n: nat, p: nat, t: State)
    requires n > 0 && Tracked(s, live) && AllocEffect(s, n, p, t)
    ensures Tracked(t, live[p := n])
  {
    hide Decomposed;
    forall q | q in live
      ensures Allocation(t, q, live[q]) && (q + live[q] <= p || p + n <= q)
    {
      FreeApart(s, q, live[q], p, n);
      AllocationFrame(s, t, q, live[q]);
    }
    AllocCovered(s, live, n, p, t);
  }

  lemma AllocCovered(s: State, live: map<nat, nat>, n: nat, p: nat, t: State)
    requires n > 0 && Tracked(s, live) && AllocEffect(s, n, p, t) && p !in live
    ensures forall x :: 0 <= x < |t.ps| && t.ps[x].used && !t.ps[x].perm ==> Covered(live[p := n], x)
  {
    hide Intact, Apart, Decomposed;
    var live' := live[p := n];
    forall x | 0 <= x < |t.ps| && t.ps[x].used && !t.ps[x].perm
      ensures Covered(live', x)
    {
      if p <= x < p + n {
        assert p in live';
      } else {
        var q :| q in live && q <= x < q + live[q];
        assert q in live' && live'[q] == live[q];
      }
    }
  }

  lemma FreeTracked(s: State, live: map<nat, nat>, p: nat, t: State)
    requires Tracked(s, live) && p in live && FreeEffect(s, p, p + live[p], t)
    ensures Tracked(t, live - {p})
  {
    hide Decomposed;
    var live' := live - {p};
    forall q | q in live'
      ensures Allocation(t, q, live[q])
    {
      assert q + live[q] <= p || p + live[p] <= q;
      assert Allocation(s, q, live[q]);
      AllocationFrame(s, t, q, live[q]);
    }
    forall x | 0 <= x < |t.ps| && t.ps[x].used && !t.ps[x].perm
      ensures Covered(live', x)
    {
      var q :| q in live && q <= x < q + live[q];
      assert q in live';
    }
  }

  lemma ClaimTracked(s: State, live: map<nat, nat>, i: nat, t: State)
    requires Tracked(s, live) && i < |s.ps| && s.ps[i].perm && FreeEffect(s, i, i + 1, t)
    ensures Tracked(t, live)
  {
    hide Decomposed;
    forall q | q in live
      ensures Allocation(t, q, live[q])
    {
      assert Allocation(s, q, live[q]);
      AllocationFrame(s, t, q, live[q]);
    }
  }

  lemma CacheOk(s: State, live: map<nat, nat>, p: nat)
    requires Ok(s, 0, 0) && Tracked(s, live) && p in live
    ensures var t := s.(ps := CachePages(s.ps, p, p + live[p])); Ok(t, 0, 0) && Tracked(t, live)
  {
    hide Sound, Decomposed;
    Sizes(s, 0, 0);
    var ps' := CachePages(s.ps, p, p + live[p]);
    ReflagOk(s, ps') by {
      assert forall x :: p <= x < p + live[p] ==> s.ps[x].used && !s.ps[x].perm by {
        assert Allocation(s, p, live[p]);
      }
      FreeHasNoCache(s);
    }
    forall q | q in live
      ensures Allocation(s.(ps := ps'), q, live[q])
    {
      AllocationFrame(s, s.(ps := ps'), q, live[q]);
    }
  }

  /** Every allowed operation keeps the invariant. */
  lemma StepKeeps(m: Machine, op: Op)
    requires Inv(m) && Allowed(m, op)
    ensures Inv(Step(m, op)) && |Step(m, op).s.ps| == |m.s.ps|
  {
    hide Sound, Apart, Covered, Alloc, FreeAll, Claim;
    match op
    case AllocPages(n, cache) =>
      AllocKeeps(m.s, n);
      if Alloc(m.s, n).Allocated? {
        var p, t := Alloc(m.s, n).first, Alloc(m.s, n).state;
        AllocTracked(m.s, m.live, n, p, t);
        CacheOk(t, m.live[p := n], p);
      }
    case FreePages(p) =>
      FreeAllKeeps(m.s, p, m.live[p]);
      FreeTracked(m.s, m.live, p, FreeAll(m.s, p, m.live[p]));
    case ClaimPage(i) =>
      ClaimKeeps(m.s, i);
      ClaimTracked(m.s, m.live, i, Claim(m.s, i));
  }

  // ---------------------------------------------------------------------------------------------
  // Conservation

  /** The number of free pages among the first `n`. */
  function CountFree(ps: seq<Page>, n: nat): nat
    requires n <= |ps|
  {
    if n == 0 then 0 else CountFree(ps, n - 1) + (if IsFree(ps[n - 1]) then 1 else 0)
  }

  /** If `ps'` differs in having the free pages `lo..hi` in use, it has that many fewer. */
  lemma {:induction false} CountMoved(ps: seq<Page>, ps': seq<Page>, lo: nat, hi: nat, n: nat)
    requires |ps| == |ps'| && lo <= hi <= |ps| && n <= |ps|
    requires forall x :: 0 <= x < |ps| && !(lo <= x < hi) ==> IsFree(ps[x]) == IsFree(ps'[x])
    requires forall x :: lo <= x < hi ==> IsFree(ps[x]) && !IsFree(ps'[x])
    ensures CountFree(ps, n) == CountFree(ps', n) + (if n <= lo then 0 else if n <= hi then n - lo else hi - lo)
  {
    if n > 0 {
      CountMoved(ps, ps', lo, hi, n - 1);
    }
  }

  ghost function Total(m: Machine): int {
    (CountFree(m.s.ps, |m.s.ps|) + m.inUse) % TWO32
  }

  lemma ModShift(a: int, b: int, c: int, d: int)
    requires a + b == c + d
    ensures (a + b % TWO32) % TWO32 == (c + d) % TWO32
  {
  }

  lemma AllocCounts(s: State, n: nat, p: nat, t: State, ps': seq<Page>)
    requires AllocEffect(s, n, p, t) && (ps' == t.ps || ps' == CachePages(t.ps, p, p + n))
    ensures |ps'| == |s.ps| && CountFree(s.ps, |s.ps|) == CountFree(ps', |ps'|) + n
  {
    hide Decomposed;
    CountMoved(s.ps, ps', p, p + n, |ps'|);
  }

  lemma FreeCounts(s: State, lo: nat, hi: nat, t: State)
    requires FreeEffect(s, lo, hi, t) && lo <= hi <= |s.ps| && forall x :: lo <= x < hi ==> !IsFree(s.ps[x])
    ensures CountFree(t.ps, |t.ps|) == CountFree(s.ps, |s.ps|) + (hi - lo)
  {
    CountMoved(t.ps, s.ps, lo, hi, |t.ps|);
  }

  /** Free pages plus pages in use, as 32-bit values, are the same before and after every operation. */
  lemma StepConserves(m: Machine, op: Op)
    requires Inv(m) && Allowed(m, op)
    ensures Total(Step(m, op)) == Total(m)
  {
    hide Sound, Tracked, Alloc, AllocEffect, FreeEffect, FreeAll, Claim, CachePages, CountFree;
    var f, t := CountFree(m.s.ps, |m.s.ps|), Step(m, op).s;
    match op
    case AllocPages(n, cache) =>
      AllocKeeps(m.s, n);
      if Alloc(m.s, n).Allocated? {
        AllocCounts(m.s, n, Alloc(m.s, n).first, Alloc(m.s, n).state, t.ps);
        ModShift(CountFree(t.ps, |t.ps|), m.inUse + n, f, m.inUse);
      }
    case FreePages(p) =>
      LiveIsFreeable(m, p);
      FreeAllKeeps(m.s, p, m.live[p]);
      FreeableCounts(m.s, p, m.live[p], t);
      ModShift(CountFree(t.ps, |t.ps|), m.inUse - m.live[p], f, m.inUse);
    case ClaimPage(i) =>
      ClaimKeeps(m.s, i);
      FreeCounts(m.s, i, i + 1, t);
      ModShift(CountFree(t.ps, |t.ps|), m.inUse - 1, f, m.inUse);
  }

  lemma FreeableCounts(s: State, p: nat, n: nat, t: State)
    requires Freeable(s, p, n) && FreeEffect(s, p, p + n, t)
    ensures CountFree(t.ps, |t.ps|) == CountFree(s.ps, |s.ps|) + n
  {
    hide Sound, Decomposed;
    FreeCounts(s, p, p + n, t);
  }

  lemma LiveIsFreeable(m: Machine, p: nat)
    requires Inv(m) && p in m.live
    ensures Freeable(m.s, p, m.live[p])
  {
    hide Sound, Apart, Covered, Decomposed;
  }

  // ---------------------------------------------------------------------------------------------
  // Every run from boot

  /** The state `mm_init` sets up: every page in use and permanent, all lists empty. */
  function Boot(n: nat): Machine {
    Machine(State(seq(n, _ => Page(true, true, false, 0)), seq(n, i => i), seq(MAX_ORDER + 1, _ => [])),
            map[], 0, 0)
  }

  lemma BootInv(n: nat)
    requires Aligned(n, MAX_ORDER + 1)
    ensures Inv(Boot(n))
  {
    var s := Boot(n).s;
    forall x | 0 <= x < n
      ensures Placed(s.ps, s.owner, x) && Aligned(x, s.ps[x].order)
    {
      AlignedZero(x);
    }
    assert Partition(s.ps, s.owner);
  }

  /** A run of requests; those the allocator would not accept are not made. */
  ghost function Run(m: Machine, ops: seq<Op>): Machine
    requires Inv(m)
    decreases |ops|
  {
    if ops == [] then m
    else if Allowed(m, ops[0]) then StepKeeps(m, ops[0]); Run(Step(m, ops[0]), ops[1..])
    else Run(m, ops[1..])
  }

  lemma {:induction false} RunKeeps(m: Machine, ops: seq<Op>)
    requires Inv(m)
    ensures Inv(Run(m, ops)) && Total(Run(m, ops)) == Total(m) && |Run(m, ops).s.ps| == |m.s.ps|
    decreases |ops|
  {
    hide Inv, Total, Step, Allowed;
    if ops != [] {
      if Allowed(m, ops[0]) {
        StepKeeps(m, ops[0]);
        StepConserves(m, ops[0]);
        RunKeeps(Step(m, ops[0]), ops[1..]);
      } else {
        RunKeeps(m, ops[1..]);
      }
    }
  }

  /** After every run from boot every block is aligned to its size and its pages carry the orders of their
      offsets, the free lists hold exactly the maximal free runs, and an allocation panics only when no aligned
      run of free pages is big enough for it. */
  lemma EveryRun(n: nat, ops: seq<Op>)
    requires Aligned(n, MAX_ORDER + 1)
    ensures Inv(Boot(n))
    ensures var s := Run(Boot(n), ops).s;
            && |s.ps| == |s.owner| == n && Ok(s, 0, 0)
            && (forall h :: 0 <= h < n && s.owner[h] == h ==> WellShaped(s.ps, h))
            && (forall k, h :: 0 <= k <= MAX_ORDER && h >= 0 ==> (h in s.lists[k] <==> MaximalRun(s.ps, h, k)))
            && (forall c: nat :: c > 0 && TargetOrder(c) <= MAX_ORDER && Alloc(s, c).OutOfMemory? ==>
                  !exists p: nat :: FreeRun(s.ps, p, TargetOrder(c)))
  {
    hide Sound, Tracked, Boot, Run, WellShaped;
    BootInv(n);
    BootSize(n);
    RunKeeps(Boot(n), ops);
    var s := Run(Boot(n), ops).s;
    Sizes(s, 0, 0);
    forall h | 0 <= h < n && s.owner[h] == h
      ensures WellShaped(s.ps, h)
    {
      SoundShape(s.ps, s.owner, s.lists, h);
    }
    forall k, h | 0 <= k <= MAX_ORDER && h >= 0
      ensures h in s.lists[k] <==> MaximalRun(s.ps, h, k)
    {
      ListsAreMaximalRuns(s.ps, s.owner, s.lists, h, k);
    }
    forall c: nat | c > 0 && Alloc(s, c).OutOfMemory? && TargetOrder(c) <= MAX_ORDER
      ensures !exists p: nat :: FreeRun(s.ps, p, TargetOrder(c))
    {
      AllocFailsOnlyWhenFull(s, c);
    }
  }

  lemma SoundShape(ps: seq<Page>, owner: seq<nat>, lists: seq<seq<nat>>, h: nat)
    requires Sound(ps, owner, lists, 0, 0) && h < |ps| && |owner| == |ps| && owner[h] == h
    ensures WellShaped(ps, h)
  {
    BlockShape(ps, owner, h);
  }

  lemma BootSize(n: nat)
    ensures |Boot(n).s.ps| == n
  {
  }

  /** Two runs that leave the same pages free leave the same blocks on every list. */
  lemma RunsAgree(n: nat, ops: seq<Op>, ops': seq<Op>)
    requires Aligned(n, MAX_ORDER + 1) && Inv(Boot(n))
    requires var s, s' := Run(Boot(n), ops).s, Run(Boot(n), ops').s;
             |s.ps| == |s'.ps| && forall x :: 0 <= x < |s.ps| ==> IsFree(s.ps[x]) == IsFree(s'.ps[x])
    ensures var s, s' := Run(Boot(n), ops).s, Run(Boot(n), ops').s;
            && |s.lists| == |s'.lists| == MAX_ORDER + 1
            && forall k, h :: 0 <= k <= MAX_ORDER ==> (h in s.lists[k] <==> h in s'.lists[k])
  {
    hide Partition, Flagged, Listed, Coalesced, Tracked, Boot, Run;
    RunKeeps(Boot(n), ops);
    RunKeeps(Boot(n), ops');
    var s, s' := Run(Boot(n), ops).s, Run(Boot(n), ops').s;
    Sizes(s, 0, 0);
    Sizes(s', 0, 0);
    SameFreePagesSameLists(s.ps, s.owner, s.lists, s'.ps, s'.owner, s'.lists);
  }
}
