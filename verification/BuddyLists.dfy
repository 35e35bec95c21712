/**
 How each step of the page allocator acts on the free lists: taking a block off its list, putting
 one on, splitting and joining blocks that are off the lists, and changing the flags of whole blocks.
 */
module BuddyLists {
  import opened Bits
  import opened Seqs
  import opened BuddyBlocks

  /** Pages outside the new held range that were held before. */
  ghost predicate OnlyHead(ps: seq<Page>, owner: seq<nat>, h: nat, lo: nat, hi: nat, lo': nat, hi': nat)
    requires |owner| == |ps|
  {
    forall g :: 0 <= g < |ps| && g != h ==>
      (FreeHead(ps, owner, g, lo, hi) <==> FreeHead(ps, owner, g, lo', hi'))
  }

  lemma TakeKeeps(ps: seq<Page>, owner: seq<nat>, lists: seq<seq<nat>>, lo: nat, hi: nat, h: nat,
                  lists': seq<seq<nat>>, lo': nat, hi': nat)
    requires Sound(ps, owner, lists, lo, hi)
    requires h < |ps| && Placed(ps, owner, h) && FreeHead(ps, owner, h, lo, hi) && lo' <= h < hi'
    requires OnlyHead(ps, owner, h, lo, hi, lo', hi')
    requires lists' == lists[ps[h].order := Without(lists[ps[h].order], h)]
    ensures Sound(ps, owner, lists', lo', hi')
  {
    WithoutElements(lists[ps[h].order], h);
    forall j, g: nat | 0 <= j <= MAX_ORDER && g in lists'[j]
      ensures FreeHead(ps, owner, g, lo', hi') && ps[g].order == j
    {
      assert g in lists[j];
      assert FreeHead(ps, owner, g, lo, hi);
      assert g != h;
    }
  }

  lemma PutKeeps(ps: seq<Page>, owner: seq<nat>, lists: seq<seq<nat>>, lo: nat, hi: nat, h: nat, lo': nat, hi': nat)
    requires Sound(ps, owner, lists, lo, hi)
    requires h < |ps| && Placed(ps, owner, h) && FreeHead(ps, owner, h, lo', hi') && lo <= h < hi
    requires OnlyHead(ps, owner, h, lo, hi, lo', hi')
    requires ps[h].order < MAX_ORDER ==> Buddy(h, ps[h].order) < 0 || Buddy(h, ps[h].order) !in lists[ps[h].order]
    ensures var k := ps[h].order; Sound(ps, owner, lists[k := [h] + lists[k]], lo', hi')
  {
    var k := ps[h].order;
    assert h !in lists[k];
    var lists' := lists[k := [h] + lists[k]];
    PutCoalesces(ps, owner, lists, lo, hi, h);
    forall j, g: nat | 0 <= j <= MAX_ORDER && g in lists'[j]
      ensures FreeHead(ps, owner, g, lo', hi') && ps[g].order == j
    {
      assert g == h || g in lists[j];
      assert g != h ==> FreeHead(ps, owner, g, lo, hi);
    }
    forall g: nat | g < |ps| && FreeHead(ps, owner, g, lo', hi')
      ensures Placed(ps, owner, g) && g in lists'[ps[g].order]
    {
      assert g != h ==> FreeHead(ps, owner, g, lo, hi);
    }
  }

  lemma PutCoalesces(ps: seq<Page>, owner: seq<nat>, lists: seq<seq<nat>>, lo: nat, hi: nat, h: nat)
    requires Partition(ps, owner) && Listed(ps, owner, lists, lo, hi) && Coalesced(lists)
    requires h < |ps| && Placed(ps, owner, h) && owner[h] == h
    requires ps[h].order < MAX_ORDER ==> Buddy(h, ps[h].order) < 0 || Buddy(h, ps[h].order) !in lists[ps[h].order]
    ensures var k := ps[h].order; Coalesced(lists[k := [h] + lists[k]])
  {
    var k := ps[h].order;
    var lists' := lists[k := [h] + lists[k]];
    forall j, g: nat | 0 <= j < MAX_ORDER && g in lists'[j]
      ensures !(Buddy(g, j) >= 0 && Buddy(g, j) in lists'[j])
    {
      assert g == h || (g in lists[j] && FreeHead(ps, owner, g, lo, hi));
      assert Placed(ps, owner, g);
      BuddyHalves(g, j);
      assert Buddy(g, j) != g;
    }
  }

  ghost predicate SameHeads(ps: seq<Page>, owner: seq<nat>, lo: nat, hi: nat,
                            ps': seq<Page>, owner': seq<nat>, lo': nat, hi': nat)
  {
    && |owner| == |ps| == |ps'| == |owner'|
    && (forall g :: 0 <= g < |ps| ==> (FreeHead(ps, owner, g, lo, hi) <==> FreeHead(ps', owner', g, lo', hi')))
    && (forall g :: 0 <= g < |ps| && FreeHead(ps, owner, g, lo, hi) ==> ps'[g].order == ps[g].order)
  }

  lemma JoinHeads(ps: seq<Page>, owner: seq<nat>, m: nat, k: nat, hi: nat, ps': seq<Page>, owner': seq<nat>)
    requires FreePair(ps, owner, m, k) && hi == m + 2 * Pow2(k)
    requires ps' == SetOrder(ps, m, k + 1) && owner' == Reassign(owner, m, hi, m)
    ensures SameHeads(ps, owner, m, hi, ps', owner', m, hi)
  {
  }

  lemma SplitHeads(ps: seq<Page>, owner: seq<nat>, lo: nat, hi: nat, h: nat)
    requires |owner| == |ps| && h < |ps| && ps[h].order > 0 && lo <= h && h + Pow2(ps[h].order) <= hi
    ensures SameHeads(ps, owner, lo, hi, SetOrder(ps, h, ps[h].order - 1), SplitOwner(ps, owner, h), lo, hi)
  {
  }

  /** The lists speak only about the free heads that are not held. */
  lemma ListedFrame(ps: seq<Page>, owner: seq<nat>, lists: seq<seq<nat>>, lo: nat, hi: nat,
                    ps': seq<Page>, owner': seq<nat>, lo': nat, hi': nat)
    requires Partition(ps, owner) && Partition(ps', owner')
    requires Listed(ps, owner, lists, lo, hi)
    requires SameHeads(ps, owner, lo, hi, ps', owner', lo', hi')
    ensures Listed(ps', owner', lists, lo', hi')
  {
    forall k, g: nat | 0 <= k <= MAX_ORDER && g in lists[k]
      ensures FreeHead(ps', owner', g, lo', hi') && ps'[g].order == k
    {
      assert FreeHead(ps, owner, g, lo, hi);
    }
    forall g: nat | g < |ps| && FreeHead(ps', owner', g, lo', hi')
      ensures Placed(ps', owner', g) && g in lists[ps'[g].order]
    {
      assert FreeHead(ps, owner, g, lo, hi);
    }
  }

  /** Pages that keep their flags, in blocks that stay uniform. */
  lemma FlaggedFrame(ps: seq<Page>, owner: seq<nat>, ps': seq<Page>, owner': seq<nat>, lo: nat, hi: nat)
    requires Partition(ps, owner) && Flagged(ps, owner) && Partition(ps', owner') && |ps'| == |ps|
    requires forall x :: 0 <= x < |ps| ==> ps'[x] == ps[x].(order := ps'[x].order)
    requires forall x :: 0 <= x < |ps| && !(lo <= x < hi) ==> owner'[x] == owner[x] && ps'[x] == ps[x]
    requires forall x :: 0 <= x < |ps| && lo <= x < hi ==> IsFree(ps[x]) && lo <= owner'[x] < hi
    ensures Flagged(ps', owner')
  {
    assert forall x :: 0 <= x < |ps| ==> IsFree(ps'[x]) == IsFree(ps[x]);
    forall x | 0 <= x < |ps|
      ensures Placed(ps', owner', x) && IsFree(ps'[x]) == IsFree(ps'[owner'[x]])
    {
      assert Placed(ps, owner, x);
    }
  }

  lemma BlockIsFree(ps: seq<Page>, owner: seq<nat>, h: nat)
    requires Partition(ps, owner) && Flagged(ps, owner) && h < |ps| && owner[h] == h && IsFree(ps[h])
    ensures forall x :: 0 <= x < |ps| && InBlock(ps, h, x) ==> IsFree(ps[x])
  {
    forall x | 0 <= x < |ps| && InBlock(ps, h, x)
      ensures IsFree(ps[x])
    {
      assert Placed(ps, owner, x);
    }
  }

  /** The slave a split returns is free, carries the master's new order and is its buddy. */
  lemma SplitSlave(ps: seq<Page>, owner: seq<nat>, h: nat)
    requires Partition(ps, owner) && Flagged(ps, owner)
    requires h < |ps| && owner[h] == h && ps[h].order > 0 && IsFree(ps[h])
    ensures var j := ps[h].order - 1;
            && IsMaster(h, j)
            && 0 <= Buddy(h, j) && Buddy(h, j) + Pow2(j) <= |ps|
            && Buddy(h, j) == h + Pow2(j) && Buddy(Buddy(h, j), j) == h
            && ps[Buddy(h, j)].order == j && IsFree(ps[Buddy(h, j)])
  {
    SplitFinds(ps, owner, h);
    BlockIsFree(ps, owner, h);
    BuddyHalves(h, ps[h].order - 1);
    assert InBlock(ps, h, Buddy(h, ps[h].order - 1));
  }

  lemma SplitKeeps(ps: seq<Page>, owner: seq<nat>, lists: seq<seq<nat>>, lo: nat, hi: nat, h: nat)
    requires Sound(ps, owner, lists, lo, hi)
    requires h < |ps| && owner[h] == h && ps[h].order > 0
    requires lo <= h && h + Pow2(ps[h].order) <= hi && IsFree(ps[h])
    ensures Sound(SetOrder(ps, h, ps[h].order - 1), SplitOwner(ps, owner, h), lists, lo, hi)
  {
    var ps', owner' := SetOrder(ps, h, ps[h].order - 1), SplitOwner(ps, owner, h);
    SplitPartition(ps, owner, h);
    BlockIsFree(ps, owner, h);
    FlaggedFrame(ps, owner, ps', owner', h, h + Pow2(ps[h].order)) by {
      forall x | 0 <= x < |ps| && InBlock(ps, h, x)
        ensures IsFree(ps[x]) && h <= owner'[x] < h + Pow2(ps[h].order)
      {
        Members(ps, owner, h, x);
      }
    }
    SplitHeads(ps, owner, lo, hi, h);
    ListedFrame(ps, owner, lists, lo, hi, ps', owner', lo, hi);
  }

  /** Two free blocks of order `k` that are the halves of one of order `k + 1`. */
  ghost predicate FreePair(ps: seq<Page>, owner: seq<nat>, m: nat, k: nat) {
    && m + Pow2(k) < |ps| == |owner|
    && k < MAX_ORDER && Aligned(m, k + 1) && IsMaster(m, k)
    && owner[m] == m && IsFree(ps[m]) && ps[m].order == k
    && owner[m + Pow2(k)] == m + Pow2(k) && IsFree(ps[m + Pow2(k)]) && ps[m + Pow2(k)].order == k
  }

  lemma PairIsFree(ps: seq<Page>, owner: seq<nat>, m: nat, k: nat)
    requires Partition(ps, owner) && Flagged(ps, owner) && FreePair(ps, owner, m, k)
    ensures forall x :: m <= x < m + 2 * Pow2(k) && x < |ps| ==> IsFree(ps[x])
  {
    BlockIsFree(ps, owner, m);
    BlockIsFree(ps, owner, m + Pow2(k));
    assert forall x :: m <= x < m + 2 * Pow2(k) && x < |ps| ==> InBlock(ps, m, x) || InBlock(ps, m + Pow2(k), x);
  }

  lemma JoinFlagged(ps: seq<Page>, owner: seq<nat>, m: nat, k: nat, hi: nat, ps': seq<Page>, owner': seq<nat>)
    requires Partition(ps, owner) && Flagged(ps, owner) && FreePair(ps, owner, m, k) && hi == m + 2 * Pow2(k)
    requires ps' == SetOrder(ps, m, k + 1) && owner' == Reassign(owner, m, hi, m) && Partition(ps', owner')
    ensures Flagged(ps', owner')
  {
    hide Partition, Flagged;
    PairIsFree(ps, owner, m, k);
    FlaggedFrame(ps, owner, ps', owner', m, hi);
  }

  lemma JoinKeeps(ps: seq<Page>, owner: seq<nat>, lists: seq<seq<nat>>, m: nat, k: nat, hi: nat,
                  ps': seq<Page>, owner': seq<nat>)
    requires hi == m + 2 * Pow2(k)
    requires Sound(ps, owner, lists, m, hi) && FreePair(ps, owner, m, k)
    requires ps' == SetOrder(ps, m, k + 1) && owner' == Reassign(owner, m, hi, m)
    ensures Sound(ps', owner', lists, m, hi)
  {
    hide Partition, Flagged, Listed, Coalesced;
    JoinPartition(ps, owner, m, k, hi, ps', owner');
    JoinFlagged(ps, owner, m, k, hi, ps', owner');
    JoinHeads(ps, owner, m, k, hi, ps', owner');
    ListedFrame(ps, owner, lists, m, hi, ps', owner', m, hi);
  }

  /** While block `b` is off the lists, a free buddy that carries the same order is a listed block of
      that order, and not a page inside a bigger block that happens to carry it. */
  lemma RippleFinds(ps: seq<Page>, owner: seq<nat>, lists: seq<seq<nat>>, b: nat, hi: nat)
    requires b < |ps| && hi == b + Pow2(ps[b].order) && Sound(ps, owner, lists, b, hi)
    requires owner[b] == b
    ensures |owner| == |ps| && Placed(ps, owner, b) && 0 <= Buddy(b, ps[b].order) < |ps|
    ensures var y := Buddy(b, ps[b].order);
            IsFree(ps[y]) && ps[y].order == ps[b].order ==> owner[y] == y && y in lists[ps[b].order]
  {
    assert Placed(ps, owner, b);
    var k := ps[b].order;
    BuddyInRange(|ps|, b, k);
    BuddyHalves(b, k);
    var y := Buddy(b, k);
    assert Placed(ps, owner, y);
    if IsFree(ps[y]) && ps[y].order == k {
      SameOrderIsHead(ps, owner, b, y, k);
      assert FreeHead(ps, owner, y, b, hi);
    }
  }

  /** The only head inside a block is its own. */
  lemma OneHead(ps: seq<Page>, owner: seq<nat>, b: nat)
    requires Partition(ps, owner) && b < |ps| && owner[b] == b
    ensures forall g :: b < g < b + Pow2(ps[b].order) && g < |ps| ==> owner[g] == b
  {
    forall g | b < g < b + Pow2(ps[b].order) && g < |ps|
      ensures owner[g] == b
    {
      assert InBlock(ps, b, g);
    }
  }

  /** The lower of a block and its buddy. */
  function PairStart(b: nat, k: nat): (m: nat)
    requires Buddy(b, k) >= 0
  {
    if IsMaster(b, k) then b else Buddy(b, k)
  }

  lemma PairGeometry(b: nat, k: nat)
    requires Aligned(b, k)
    ensures var y := Buddy(b, k);
            && y >= 0
            && Aligned(PairStart(b, k), k + 1) && IsMaster(PairStart(b, k), k)
            && ((PairStart(b, k) == b && y == b + Pow2(k)) || (PairStart(b, k) == y && b == y + Pow2(k)))
  {
    BuddyHalves(b, k);
  }

  lemma PairHeads(ps: seq<Page>, owner: seq<nat>, b: nat, y: nat, m: nat, k: nat)
    requires Partition(ps, owner)
    requires b < |ps| && owner[b] == b && ps[b].order == k
    requires y < |ps| && owner[y] == y && ps[y].order == k
    requires (m == b && y == b + Pow2(k)) || (m == y && b == y + Pow2(k))
    ensures OnlyHead(ps, owner, y, b, b + Pow2(k), m, m + 2 * Pow2(k))
  {
    OneHead(ps, owner, b);
    OneHead(ps, owner, y);
  }

  /** Taking the buddy of the held block off its list leaves the pair held. */
  lemma RippleTakes(ps: seq<Page>, owner: seq<nat>, lists: seq<seq<nat>>, b: nat, k: nat, y: nat, m: nat, hi: nat,
                    lists': seq<seq<nat>>)
    requires b < |ps| && Sound(ps, owner, lists, b, b + Pow2(k))
    requires owner[b] == b && ps[b].order == k < MAX_ORDER && IsFree(ps[b])
    requires y == Buddy(b, k) < |ps| && IsFree(ps[y]) && ps[y].order == k
    requires m == PairStart(b, k) && hi == m + 2 * Pow2(k)
    requires lists' == lists[k := Without(lists[k], y)]
    ensures Sound(ps, owner, lists', m, hi) && FreePair(ps, owner, m, k)
  {
    hide Sound;
    RippleFinds(ps, owner, lists, b, b + Pow2(k));
    BuddyPair(ps, owner, lists, b, k, y, m);
    TakeKeeps(ps, owner, lists, b, b + Pow2(k), y, lists', m, hi);
  }

  /** The held block and its free buddy are the two halves of a pair. */
  lemma BuddyPair(ps: seq<Page>, owner: seq<nat>, lists: seq<seq<nat>>, b: nat, k: nat, y: nat, m: nat)
    requires b < |ps| == |owner| && Sound(ps, owner, lists, b, b + Pow2(k)) && Placed(ps, owner, b)
    requires owner[b] == b && ps[b].order == k < MAX_ORDER && IsFree(ps[b])
    requires y == Buddy(b, k) < |ps| && IsFree(ps[y]) && ps[y].order == k && owner[y] == y
    requires m == PairStart(b, k)
    ensures FreePair(ps, owner, m, k) && m <= y < m + 2 * Pow2(k) && Placed(ps, owner, y)
    ensures FreeHead(ps, owner, y, b, b + Pow2(k)) && OnlyHead(ps, owner, y, b, b + Pow2(k), m, m + 2 * Pow2(k))
  {
    hide Flagged, Coalesced, Listed;
    PairGeometry(b, k) by { assert Aligned(b, ps[b].order); }
    assert Placed(ps, owner, y);
    PairHeads(ps, owner, b, y, m, k);
  }

  /** When the ripple stops, the held block can go on its list. */
  lemma RippleDone(ps: seq<Page>, owner: seq<nat>, lists: seq<seq<nat>>, b: nat, hi: nat)
    requires b < |ps| && Sound(ps, owner, lists, b, hi) && owner[b] == b && IsFree(ps[b])
    requires hi == b + Pow2(ps[b].order) && 0 <= Buddy(b, ps[b].order) < |ps|
    requires !(IsFree(ps[Buddy(b, ps[b].order)]) && ps[Buddy(b, ps[b].order)].order == ps[b].order
               && ps[b].order < MAX_ORDER)
    ensures OnlyHead(ps, owner, b, b, hi, 0, 0)
    ensures ps[b].order < MAX_ORDER ==> Buddy(b, ps[b].order) !in lists[ps[b].order]
  {
    OneHead(ps, owner, b);
  }

  lemma SameOrderIsHead(ps: seq<Page>, owner: seq<nat>, b: nat, y: nat, k: nat)
    requires Partition(ps, owner)
    requires b < |ps| && owner[b] == b && ps[b].order == k && Aligned(b, k) && k <= MAX_ORDER
    requires y == Buddy(b, k) < |ps| && ps[y].order == k
    ensures owner[y] == y
  {
    BuddyHalves(b, k);
    assert Placed(ps, owner, y);
    var g := owner[y];
    if g != y {
      TrailingZerosAligned(y, k + 1);
      assert !IsMaster(y, k) by { MasterAligned(y, k); }
      assert b == y - Pow2(k);
      SmallBlockIsHead(ps, owner, y, k);
      UpperOwner(ps, owner, b, k);
    }
  }

  lemma SmallBlockIsHead(ps: seq<Page>, owner: seq<nat>, y: nat, k: nat)
    requires Partition(ps, owner) && y < |ps| && Placed(ps, owner, y) && Aligned(y, k) && owner[y] != y
    ensures ps[owner[y]].order > k
  {
    var g := owner[y];
    if ps[g].order <= k {
      Nested(g, ps[g].order, y, k, y);
    }
  }

  // ---------------------------------------------------------------------------------------------
  // Changing the flags of whole blocks

  /** Clears the flags of the pages `lo..hi`. */
  ghost predicate Cleared(ps: seq<Page>, lo: nat, hi: nat, ps': seq<Page>) {
    && |ps'| == |ps|
    && forall x :: 0 <= x < |ps| ==>
         ps'[x] == if lo <= x < hi then ps[x].(used := false, perm := false, cache := false) else ps[x]
  }

  /** Marks the pages `lo..hi` as used. */
  ghost predicate Marked(ps: seq<Page>, lo: nat, hi: nat, ps': seq<Page>) {
    && |ps'| == |ps|
    && forall x :: 0 <= x < |ps| ==> ps'[x] == if lo <= x < hi then ps[x].(used := true) else ps[x]
  }

  /** The pages `lo..hi` are made of whole blocks. */
  ghost predicate WholeBlocks(owner: seq<nat>, lo: nat, hi: nat) {
    forall x :: 0 <= x < |owner| ==> (lo <= x < hi <==> lo <= owner[x] < hi)
  }

  lemma SameOrdersPartition(ps: seq<Page>, owner: seq<nat>, ps': seq<Page>)
    requires Partition(ps, owner) && |ps'| == |ps|
    requires forall x :: 0 <= x < |ps| ==> ps'[x].order == ps[x].order
    ensures Partition(ps', owner)
  {
    forall x | 0 <= x < |ps|
      ensures Placed(ps', owner, x)
    {
      assert Placed(ps, owner, x);
    }
    forall h, x | 0 <= h < |ps| && owner[h] == h && 0 <= x < |ps| && InBlock(ps', h, x)
      ensures owner[x] == h
    {
      assert InBlock(ps, h, x);
    }
  }

  lemma ClearKeeps(ps: seq<Page>, owner: seq<nat>, lists: seq<seq<nat>>, b: nat, ps': seq<Page>)
    requires Sound(ps, owner, lists, 0, 0)
    requires b < |ps| && owner[b] == b && !IsFree(ps[b])
    requires Cleared(ps, b, b + Pow2(ps[b].order), ps')
    ensures Sound(ps', owner, lists, b, b + Pow2(ps[b].order))
  {
    SameOrdersPartition(ps, owner, ps');
    var hi := b + Pow2(ps[b].order);
    forall x | 0 <= x < |ps|
      ensures Placed(ps', owner, x) && IsFree(ps'[x]) == IsFree(ps'[owner[x]])
    {
      assert Placed(ps, owner, x);
      assert InBlock(ps, b, x) ==> owner[x] == b;
      assert InBlock(ps, b, owner[x]) ==> owner[owner[x]] == b;
    }
    assert Flagged(ps', owner);
    forall h | 0 <= h < |ps|
      ensures FreeHead(ps, owner, h, 0, 0) <==> FreeHead(ps', owner, h, b, hi)
    {
      assert InBlock(ps, b, h) ==> owner[h] == b;
    }
    ListedFrame(ps, owner, lists, 0, 0, ps', owner, b, hi);
  }

  lemma MarkKeeps(ps: seq<Page>, owner: seq<nat>, lists: seq<seq<nat>>, lo: nat, hi: nat, ps': seq<Page>)
    requires lo < hi <= |ps| && Sound(ps, owner, lists, lo, hi)
    requires WholeBlocks(owner, lo, hi)
    requires Marked(ps, lo, hi, ps')
    ensures Sound(ps', owner, lists, 0, 0)
  {
    SameOrdersPartition(ps, owner, ps');
    forall x | 0 <= x < |ps|
      ensures Placed(ps', owner, x) && IsFree(ps'[x]) == IsFree(ps'[owner[x]])
    {
      assert Placed(ps, owner, x);
    }
    ListedFrame(ps, owner, lists, lo, hi, ps', owner, 0, 0);
  }

  // ---------------------------------------------------------------------------------------------
  // The descending binary decomposition of an allocation

  /** The `n` pages from `p` are blocks whose sizes are the set bits of `n`, biggest first. */
  ghost predicate Decomposed(ps: seq<Page>, owner: seq<nat>, p: nat, n: nat)
    requires |owner| == |ps|
    decreases n
  {
    n > 0 ==>
      && p < |ps|
      && owner[p] == p
      && ps[p].order == Log2(n)
      && Decomposed(ps, owner, p + Pow2(Log2(n)), n - Pow2(Log2(n)))
  }

  /** A decomposition depends on nothing but its own pages. */
  lemma {:induction false} DecompositionFrame(ps: seq<Page>, owner: seq<nat>, ps': seq<Page>, owner': seq<nat>,
                                              p: nat, n: nat)
    requires |owner| == |ps| == |ps'| == |owner'| && Decomposed(ps, owner, p, n)
    requires forall x :: p <= x < p + n && x < |ps| ==> ps'[x].order == ps[x].order && owner'[x] == owner[x]
    ensures Decomposed(ps', owner', p, n)
    decreases n
  {
    if n > 0 {
      DecompositionFrame(ps, owner, ps', owner', p + Pow2(Log2(n)), n - Pow2(Log2(n)));
    }
  }

  /** A decomposition is made of whole blocks. */
  lemma {:induction false} DecomposedBlocks(ps: seq<Page>, owner: seq<nat>, p: nat, n: nat, x: nat)
    requires Partition(ps, owner) && Decomposed(ps, owner, p, n) && x < |ps|
    ensures n > 0 ==> p + n <= |ps|
    ensures p <= x < p + n <==> p <= owner[x] < p + n
    decreases n
  {
    assert Placed(ps, owner, x);
    if n > 0 {
      var size := Pow2(Log2(n));
      Members(ps, owner, p, x);
      assert Placed(ps, owner, p);
      assert Aligned(p, ps[p].order);
      BlockEnds(|ps|, p, Log2(n));
      DecomposedBlocks(ps, owner, p + size, n - size, x);
    }
  }

  lemma DecomposedWhole(ps: seq<Page>, owner: seq<nat>, p: nat, n: nat)
    requires Partition(ps, owner) && Decomposed(ps, owner, p, n) && n > 0
    ensures p + n <= |ps| && WholeBlocks(owner, p, p + n)
  {
    DecomposedBlocks(ps, owner, p, n, p);
    forall x | 0 <= x < |owner|
      ensures p <= x < p + n <==> p <= owner[x] < p + n
    {
      DecomposedBlocks(ps, owner, p, n, x);
    }
  }
}
