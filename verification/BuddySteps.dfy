/**
 The operations of the page allocator as functions on its state: the page array, the ghost owners
 and the free lists.  The methods of `PageAllocator` are proved to compute these functions; here the
 functions are proved to keep the blocks in order.
 */
module BuddySteps {
  import opened Bits
  import opened Seqs
  import opened BuddyBlocks
  import opened BuddyLists

  datatype State = State(ps: seq<Page>, owner: seq<nat>, lists: seq<seq<nat>>)

  ghost predicate Ok(s: State, lo: nat, hi: nat) {
    Sound(s.ps, s.owner, s.lists, lo, hi)
  }

  lemma Sizes(s: State, lo: nat, hi: nat)
    requires Ok(s, lo, hi)
    ensures |s.owner| == |s.ps| && |s.lists| == MAX_ORDER + 1
  {
  }

  /** `b` is the head of a free block. */
  ghost predicate FreeAt(s: State, b: nat) {
    && b < |s.ps| == |s.owner| && |s.lists| == MAX_ORDER + 1
    && s.owner[b] == b && IsFree(s.ps[b]) && s.ps[b].order <= MAX_ORDER
  }

  function End(s: State, b: nat): nat
    requires b < |s.ps|
  {
    b + Pow2(s.ps[b].order)
  }

  ghost function Taken(s: State, b: nat): State
    requires FreeAt(s, b)
  {
    s.(lists := s.lists[s.ps[b].order := Without(s.lists[s.ps[b].order], b)])
  }

  ghost function Put(s: State, b: nat): State
    requires FreeAt(s, b)
  {
    s.(lists := s.lists[s.ps[b].order := [b] + s.lists[s.ps[b].order]])
  }

  ghost function Split(s: State, b: nat): State
    requires FreeAt(s, b) && s.ps[b].order > 0
  {
    s.(ps := SetOrder(s.ps, b, s.ps[b].order - 1), owner := SplitOwner(s.ps, s.owner, b))
  }

  ghost function Join(s: State, m: nat, k: nat): State
    requires m < |s.ps|
  {
    s.(ps := SetOrder(s.ps, m, k + 1), owner := Reassign(s.owner, m, m + 2 * Pow2(k), m))
  }

  /** Flags are as before everywhere; pages in use also keep their order and owner. */
  ghost predicate Kept(s: State, s': State) {
    && |s.owner| == |s.ps| == |s'.ps| == |s'.owner|
    && (forall x :: 0 <= x < |s.ps| ==> s'.ps[x] == s.ps[x].(order := s'.ps[x].order))
    && (forall x :: 0 <= x < |s.ps| && !IsFree(s.ps[x]) ==> s'.ps[x] == s.ps[x] && s'.owner[x] == s.owner[x])
  }

  lemma KeptTransitive(s: State, s': State, s'': State)
    requires Kept(s, s') && Kept(s', s'')
    ensures Kept(s, s'')
  {
    assert forall x :: 0 <= x < |s.ps| ==> IsFree(s.ps[x]) == IsFree(s'.ps[x]);
  }

  /** The head of a block of order `k > 0` has an even index among the blocks of order `k - 1`. */
  lemma SubblockMaster(s: State, lo: nat, hi: nat, h: nat)
    requires Ok(s, lo, hi) && FreeAt(s, h)
    ensures s.ps[h].order == 0 || IsMaster(h, s.ps[h].order - 1)
  {
    var k := s.ps[h].order;
    assert Aligned(h, k);
    if k > 0 {
      AlignedWeaken(h, k - 1, k);
      MasterAligned(h, k - 1);
    }
  }

  // ---------------------------------------------------------------------------------------------
  // ripple_join

  /** The loop condition of `ripple_join`. */
  ghost predicate Joinable(s: State, b: nat)
    requires FreeAt(s, b)
  {
    var k := s.ps[b].order;
    && k < MAX_ORDER
    && 0 <= Buddy(b, k) < |s.ps|
    && IsFree(s.ps[Buddy(b, k)]) && s.ps[Buddy(b, k)].order == k
  }

  /** One round of `ripple_join`: the buddy leaves its list and is joined to the block. */
  ghost function RippleOnce(s: State, b: nat): State
    requires FreeAt(s, b) && Ok(s, b, End(s, b)) && Joinable(s, b)
  {
    var k := s.ps[b].order;
    RippleFinds(s.ps, s.owner, s.lists, b, End(s, b));
    Join(Taken(s, Buddy(b, k)), PairStart(b, k), k)
  }

  lemma RippleOnceKeeps(s: State, b: nat, s': State, m: nat)
    requires FreeAt(s, b) && Ok(s, b, End(s, b)) && Joinable(s, b)
    requires s' == RippleOnce(s, b) && m == PairStart(b, s.ps[b].order)
    ensures FreeAt(s', m) && s'.ps[m].order == s.ps[b].order + 1
    ensures Ok(s', m, End(s', m)) && Kept(s, s')
  {
    hide Partition, Flagged, Listed, Coalesced;
    var k := s.ps[b].order;
    var y: nat := Buddy(b, k);
    var hi := m + 2 * Pow2(k);
    RippleFinds(s.ps, s.owner, s.lists, b, End(s, b));
    var t := Taken(s, y);
    RippleTakes(s.ps, s.owner, s.lists, b, k, y, m, hi, t.lists);
    JoinKeeps(t.ps, t.owner, t.lists, m, k, hi, s'.ps, s'.owner);
    JoinIsKept(t, m, k);
  }

  lemma JoinIsKept(s: State, m: nat, k: nat)
    requires Partition(s.ps, s.owner) && Flagged(s.ps, s.owner) && FreePair(s.ps, s.owner, m, k)
    ensures Kept(s, Join(s, m, k))
  {
    PairIsFree(s.ps, s.owner, m, k);
  }

  lemma BuddyExists(s: State, b: nat)
    requires FreeAt(s, b) && Ok(s, b, End(s, b))
    ensures 0 <= Buddy(b, s.ps[b].order) < |s.ps|
  {
    RippleFinds(s.ps, s.owner, s.lists, b, End(s, b));
  }

  lemma RipplePair(s: State, b: nat)
    requires FreeAt(s, b) && Ok(s, b, End(s, b)) && Joinable(s, b)
    ensures var k := s.ps[b].order; FreeAt(s, Buddy(b, k)) && FreePair(s.ps, s.owner, PairStart(b, k), k)
  {
    hide Partition, Flagged, Listed, Coalesced;
    var k := s.ps[b].order;
    var y: nat := Buddy(b, k);
    var m := PairStart(b, k);
    RippleFinds(s.ps, s.owner, s.lists, b, End(s, b));
    RippleTakes(s.ps, s.owner, s.lists, b, k, y, m, m + 2 * Pow2(k), Taken(s, y).lists);
  }

  lemma RippleLast(s: State, b: nat)
    requires FreeAt(s, b) && Ok(s, b, End(s, b)) && !Joinable(s, b)
    ensures Ok(Put(s, b), 0, 0)
  {
    var k := s.ps[b].order;
    RippleFinds(s.ps, s.owner, s.lists, b, End(s, b));
    RippleDone(s.ps, s.owner, s.lists, b, End(s, b));
    PutKeeps(s.ps, s.owner, s.lists, b, End(s, b), b, 0, 0);
  }

  ghost function Ripple(s: State, b: nat): State
    requires FreeAt(s, b) && Ok(s, b, End(s, b))
    decreases MAX_ORDER - s.ps[b].order
  {
    if Joinable(s, b) then
      RippleFinds(s.ps, s.owner, s.lists, b, End(s, b));
      var m := PairStart(b, s.ps[b].order);
      RippleOnceKeeps(s, b, RippleOnce(s, b), m);
      Ripple(RippleOnce(s, b), m)
    else
      Put(s, b)
  }

  lemma {:induction false} RippleKeeps(s: State, b: nat)
    requires FreeAt(s, b) && Ok(s, b, End(s, b))
    ensures Ok(Ripple(s, b), 0, 0) && Kept(s, Ripple(s, b))
    decreases MAX_ORDER - s.ps[b].order
  {
    if Joinable(s, b) {
      RippleFinds(s.ps, s.owner, s.lists, b, End(s, b));
      var s', m := RippleOnce(s, b), PairStart(b, s.ps[b].order);
      RippleOnceKeeps(s, b, s', m);
      RippleKeeps(s', m);
      KeptTransitive(s, s', Ripple(s', m));
    } else {
      RippleLast(s, b);
    }
  }

  // ---------------------------------------------------------------------------------------------
  // trim_block

  lemma SplitOk(s: State, lo: nat, b: nat, s': State, y: nat)
    requires FreeAt(s, b) && lo <= b && Ok(s, lo, End(s, b)) && s.ps[b].order > 0
    requires s' == Split(s, b) && y == b + Pow2(s.ps[b].order - 1)
    ensures Ok(s', lo, End(s, b)) && Kept(s, s')
    ensures FreeAt(s', b) && FreeAt(s', y) && s'.ps[b].order == s'.ps[y].order == s.ps[b].order - 1
    ensures y == End(s', b) && End(s', y) == End(s, b)
    ensures Buddy(b, s'.ps[b].order) == y && Buddy(y, s'.ps[b].order) == b
    ensures End(s, b) <= |s.ps|
  {
    SplitSlave(s.ps, s.owner, b);
    SplitKeeps(s.ps, s.owner, s.lists, lo, End(s, b), b);
    BlockIsFree(s.ps, s.owner, b);
    assert forall x :: 0 <= x < |s.ps| ==> (b <= x < End(s, b) <==> InBlock(s.ps, b, x));
  }

  /** Releasing the upper half of a split block. */
  lemma ReleaseOk(s: State, lo: nat, b: nat, y: nat)
    requires FreeAt(s, b) && FreeAt(s, y) && lo <= b && Ok(s, lo, End(s, y))
    requires y == End(s, b) && s.ps[b].order == s.ps[y].order && Buddy(y, s.ps[y].order) == b
    ensures Ok(Put(s, y), lo, y)
  {
    OneHead(s.ps, s.owner, y);
    assert Placed(s.ps, s.owner, y);
    assert OnlyHead(s.ps, s.owner, y, lo, End(s, y), lo, y);
    PutKeeps(s.ps, s.owner, s.lists, lo, End(s, y), y, lo, y);
  }

  ghost predicate KeptOutside(s: State, s': State, lo: nat, hi: nat) {
    && |s.owner| == |s.ps| == |s'.ps| == |s'.owner|
    && forall x :: 0 <= x < |s.ps| && !(lo <= x < hi) ==> s'.ps[x] == s.ps[x] && s'.owner[x] == s.owner[x]
  }

  /** Where `trim_block` stands: `n` pages are still wanted from the block at `b`, and the pages from
      `lo` up to the end of that block are off the lists. */
  datatype Cut = Cut(s: State, b: nat, n: nat)

  ghost predicate CutOk(c: Cut, lo: nat) {
    FreeAt(c.s, c.b) && lo <= c.b && Ok(c.s, lo, End(c.s, c.b)) && 0 < c.n <= Pow2(c.s.ps[c.b].order)
  }

  /** One round of `trim_block`: split the block; then either release the upper half, or keep the
      lower half and go on in the upper one. */
  ghost function CutOnce(c: Cut): Cut
    requires FreeAt(c.s, c.b) && c.s.ps[c.b].order > 0 && FreeAt(Split(c.s, c.b), End(Split(c.s, c.b), c.b))
  {
    var s := Split(c.s, c.b);
    var half := Pow2(s.ps[c.b].order);
    if c.n <= half then Cut(Put(s, End(s, c.b)), c.b, c.n) else Cut(s, End(s, c.b), c.n - half)
  }

  lemma CutOnceKeeps(c: Cut, lo: nat)
    requires CutOk(c, lo) && c.n != Pow2(c.s.ps[c.b].order)
    ensures c.s.ps[c.b].order > 0 && FreeAt(Split(c.s, c.b), End(Split(c.s, c.b), c.b))
    ensures var d := CutOnce(c);
            && CutOk(d, lo) && Kept(c.s, d.s) && KeptOutside(c.s, d.s, c.b, End(c.s, c.b))
            && d.s.ps[d.b].order == c.s.ps[c.b].order - 1
            && c.b <= d.b && End(d.s, d.b) <= End(c.s, c.b) && d.b + d.n == c.b + c.n
            && d.s.owner[c.b] == c.b && d.s.ps[c.b].order == c.s.ps[c.b].order - 1
            && (d.b == c.b || (c.n > Pow2(d.s.ps[c.b].order) && d.b == End(d.s, c.b)))
  {
    hide Partition, Flagged, Listed, Coalesced;
    var s := Split(c.s, c.b);
    SplitOk(c.s, lo, c.b, s, End(s, c.b));
    ReleaseOk(s, lo, c.b, End(s, c.b));
  }

  ghost function Trim(c: Cut, lo: nat): State
    requires CutOk(c, lo)
    decreases c.s.ps[c.b].order
  {
    if c.n == Pow2(c.s.ps[c.b].order) then c.s else CutOnceKeeps(c, lo); Trim(CutOnce(c), lo)
  }

  /** One round of the loop, as the two branches of `trim_block` carry it out. */
  lemma TrimStep(c: Cut, lo: nat)
    requires CutOk(c, lo)
    ensures c.n == Pow2(c.s.ps[c.b].order) ==> Trim(c, lo) == c.s
    ensures c.n != Pow2(c.s.ps[c.b].order) ==>
              && c.s.ps[c.b].order > 0
              && var s := Split(c.s, c.b); var y := c.b + Pow2(c.s.ps[c.b].order - 1);
              && s.ps[c.b].order == c.s.ps[c.b].order - 1
              && FreeAt(s, y) && Ok(s, lo, End(s, y)) && Pow2(c.s.ps[c.b].order) == 2 * Pow2(s.ps[c.b].order)
              && var d := if c.n <= Pow2(s.ps[c.b].order) then Cut(Put(s, y), c.b, c.n)
                          else Cut(s, y, c.n - Pow2(s.ps[c.b].order));
              CutOk(d, lo) && d.s.ps[d.b].order == s.ps[c.b].order && Trim(c, lo) == Trim(d, lo)
  {
    hide Sound;
    if c.n != Pow2(c.s.ps[c.b].order) {
      CutOnceKeeps(c, lo);
      var s := Split(c.s, c.b);
      SplitOk(c.s, lo, c.b, s, End(s, c.b));
    }
  }

  /** Trimming keeps exactly the wanted pages off the lists, as the descending binary decomposition of
      their number, and touches only the block. */
  lemma {:induction false} TrimKeeps(c: Cut, lo: nat)
    requires CutOk(c, lo)
    ensures var t := Trim(c, lo);
            && Ok(t, lo, c.b + c.n) && Kept(c.s, t) && KeptOutside(c.s, t, c.b, End(c.s, c.b))
            && Decomposed(t.ps, t.owner, c.b, c.n)
    decreases c.s.ps[c.b].order
  {
    hide Sound, Split, CutOnce, Kept, KeptOutside, Decomposed, Pow2, Log2;
    if c.n == Pow2(c.s.ps[c.b].order) {
      WholeCut(c, lo);
    } else {
      CutOnceKeeps(c, lo);
      var d, t := CutOnce(c), Trim(CutOnce(c), lo);
      TrimKeeps(d, lo);
      KeptTransitive(c.s, d.s, t);
      ComposeCuts(c, d, t);
    }
  }

  lemma WholeCut(c: Cut, lo: nat)
    requires CutOk(c, lo) && c.n == Pow2(c.s.ps[c.b].order)
    ensures Kept(c.s, c.s) && KeptOutside(c.s, c.s, c.b, End(c.s, c.b)) && Decomposed(c.s.ps, c.s.owner, c.b, c.n)
  {
    Log2Unique(c.n, c.s.ps[c.b].order);
  }

  lemma ComposeCuts(c: Cut, d: Cut, t: State)
    requires c.b < |c.s.ps| && d.b < |d.s.ps| && c.b <= d.b && End(d.s, d.b) <= End(c.s, c.b) && c.n > 0
    requires KeptOutside(c.s, d.s, c.b, End(c.s, c.b)) && KeptOutside(d.s, t, d.b, End(d.s, d.b))
    requires Decomposed(t.ps, t.owner, d.b, d.n) && d.b + d.n == c.b + c.n <= End(c.s, c.b)
    requires d.s.owner[c.b] == c.b && d.s.ps[c.b].order == c.s.ps[c.b].order - 1
    requires d.b == c.b || (c.n > Pow2(d.s.ps[c.b].order) && d.b == End(d.s, c.b))
    requires c.n < Pow2(c.s.ps[c.b].order)
    ensures KeptOutside(c.s, t, c.b, End(c.s, c.b)) && Decomposed(t.ps, t.owner, c.b, c.n)
  {
    if d.b != c.b {
      Log2Unique(c.n, c.s.ps[c.b].order - 1);
    }
  }

  // ---------------------------------------------------------------------------------------------
  // Changing flags

  function MarkPages(ps: seq<Page>, lo: nat, hi: nat): (r: seq<Page>)
    ensures Marked(ps, lo, hi, r)
  {
    seq(|ps|, x requires 0 <= x < |ps| => if lo <= x < hi then ps[x].(used := true) else ps[x])
  }

  function ClearPages(ps: seq<Page>, lo: nat, hi: nat): (r: seq<Page>)
    ensures Cleared(ps, lo, hi, r)
  {
    seq(|ps|, x requires 0 <= x < |ps| =>
          if lo <= x < hi then ps[x].(used := false, perm := false, cache := false) else ps[x])
  }

  // ---------------------------------------------------------------------------------------------
  // do_alloc_pages

  /** The smallest order whose blocks hold `n` pages. */
  function TargetOrder(n: nat): nat
    requires n > 0
  {
    if n == Pow2(Log2(n)) then Log2(n) else Log2(n) + 1
  }

  lemma TargetFits(n: nat)
    requires n > 0
    ensures n <= Pow2(TargetOrder(n))
    ensures TargetOrder(n) > 0 ==> Pow2(TargetOrder(n) - 1) < n
  {
    assert Pow2(Log2(n) + 1) == 2 * Pow2(Log2(n));
  }

  /** The first order from `k` up whose list is not empty. */
  function FirstList(lists: seq<seq<nat>>, k: nat): (r: nat)
    requires |lists| == MAX_ORDER + 1
    ensures r <= MAX_ORDER ==> k <= r && lists[r] != []
    ensures forall j :: k <= j < r && j <= MAX_ORDER ==> lists[j] == []
    decreases MAX_ORDER + 1 - k
  {
    if k > MAX_ORDER then k else if lists[k] != [] then k else FirstList(lists, k + 1)
  }

  lemma FirstListStep(lists: seq<seq<nat>>, k: nat)
    requires |lists| == MAX_ORDER + 1
    ensures k > MAX_ORDER ==> FirstList(lists, k) == k
    ensures k <= MAX_ORDER ==> FirstList(lists, k) == if lists[k] != [] then k else FirstList(lists, k + 1)
  {
  }

  lemma ListHead(s: State, k: nat)
    requires Ok(s, 0, 0) && k <= MAX_ORDER && s.lists[k] != []
    ensures var b := s.lists[k][0]; FreeAt(s, b) && s.ps[b].order == k && Ok(Taken(s, b), b, End(s, b))
    ensures Without(s.lists[k], s.lists[k][0]) == s.lists[k][1..]
  {
    var b := s.lists[k][0];
    assert b in s.lists[k];
    assert FreeHead(s.ps, s.owner, b, 0, 0);
    assert Placed(s.ps, s.owner, b);
    OneHead(s.ps, s.owner, b);
    TakeKeeps(s.ps, s.owner, s.lists, 0, 0, b, Taken(s, b).lists, b, End(s, b));
  }

  datatype AllocResult = OutOfMemory | Allocated(first: nat, state: State)

  ghost function Alloc(s: State, n: nat): AllocResult
    requires Ok(s, 0, 0) && n > 0
  {
    var k := FirstList(s.lists, TargetOrder(n));
    if k > MAX_ORDER then
      OutOfMemory
    else
      ListHead(s, k);
      var b := s.lists[k][0];
      TargetFits(n);
      Pow2Monotone(TargetOrder(n), k);
      var t := Trim(Cut(Taken(s, b), b, n), b);
      Allocated(b, t.(ps := MarkPages(t.ps, b, b + n)))
  }

  /** What an allocation of `n` pages at `b` does. */
  ghost predicate AllocEffect(s: State, n: nat, b: nat, t: State) {
    && |s.owner| == |s.ps| == |t.ps| == |t.owner|
    && b + n <= |s.ps|
    && (forall x :: b <= x < b + n ==> IsFree(s.ps[x]) && t.ps[x].used && !t.ps[x].perm && !t.ps[x].cache)
    && (forall x :: 0 <= x < |s.ps| && !(b <= x < b + n) ==> t.ps[x] == s.ps[x].(order := t.ps[x].order))
    && (forall x :: 0 <= x < |s.ps| && !IsFree(s.ps[x]) ==> t.ps[x] == s.ps[x] && t.owner[x] == s.owner[x])
    && Decomposed(t.ps, t.owner, b, n)
  }

  lemma AllocKeeps(s: State, n: nat)
    requires Ok(s, 0, 0) && n > 0
    ensures Alloc(s, n).Allocated? ==>
              Ok(Alloc(s, n).state, 0, 0) && AllocEffect(s, n, Alloc(s, n).first, Alloc(s, n).state)
  {
    hide Sound, Kept, KeptOutside, AllocEffect, Trim, FirstList, TargetOrder, Decomposed;
    Sizes(s, 0, 0);
    var k := FirstList(s.lists, TargetOrder(n));
    if k <= MAX_ORDER {
      ListHead(s, k);
      TargetFits(n);
      Pow2Monotone(TargetOrder(n), k);
      var b := s.lists[k][0];
      var c := Cut(Taken(s, b), b, n);
      var t := Trim(c, b);
      assert Alloc(s, n) == Allocated(b, t.(ps := MarkPages(t.ps, b, b + n)));
      TrimKeeps(c, b);
      MarkTrimmed(s, b, n, t);
    }
  }

  lemma MarkTrimmed(s: State, b: nat, n: nat, t: State)
    requires Ok(s, 0, 0) && FreeAt(s, b) && 0 < n <= Pow2(s.ps[b].order)
    requires Ok(t, b, b + n) && Kept(Taken(s, b), t) && Decomposed(t.ps, t.owner, b, n)
    ensures var t' := t.(ps := MarkPages(t.ps, b, b + n)); Ok(t', 0, 0) && AllocEffect(s, n, b, t')
  {
    hide Partition, Flagged, Listed, Coalesced, InBlock;
    var ps' := MarkPages(t.ps, b, b + n);
    DecomposedWhole(t.ps, t.owner, b, n);
    MarkKeeps(t.ps, t.owner, t.lists, b, b + n, ps');
    FreeBlockPages(s, b);
    DecompositionFrame(t.ps, t.owner, ps', t.owner, b, n);
  }

  lemma FreeBlockPages(s: State, b: nat)
    requires Ok(s, 0, 0) && FreeAt(s, b)
    ensures End(s, b) <= |s.ps| && forall x :: b <= x < End(s, b) ==> IsFree(s.ps[x]) && !s.ps[x].cache
  {
    BlockIsRun(s.ps, s.owner, b);
  }

  /** A block of the order that was found is big enough to be trimmed. */
  lemma AllocFits(s: State, n: nat, k: nat)
    requires Ok(s, 0, 0) && n > 0 && |s.lists| == MAX_ORDER + 1
    requires k == FirstList(s.lists, TargetOrder(n)) <= MAX_ORDER
    ensures FreeAt(s, s.lists[k][0]) && CutOk(Cut(Taken(s, s.lists[k][0]), s.lists[k][0], n), s.lists[k][0])
  {
    hide Sound;
    ListHead(s, k);
    TargetFits(n);
    Pow2Monotone(TargetOrder(n), k);
  }

  /** The pages about to be marked used carry no flag. */
  lemma TrimmedPages(s: State, n: nat, b: nat, t: State)
    requires Ok(s, 0, 0) && FreeAt(s, b) && 0 < n <= Pow2(s.ps[b].order) && Kept(Taken(s, b), t)
    ensures b + n <= |t.ps| && forall x :: b <= x < b + n ==> IsFree(t.ps[x]) && !t.ps[x].cache
  {
    hide Sound;
    FreeBlockPages(s, b);
  }
}
