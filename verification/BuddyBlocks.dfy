/**
 The block structure of the physical page allocator, as predicates over the page array.

 Every page belongs to exactly one block; a ghost sequence `owner` names, for each page, the first
 page (the head) of its block.  The allocator itself stores only the `order` of each page, and the
 order of a page that is not a head is left over from an earlier split or join.
 */
module BuddyBlocks {
  import opened Bits
  import opened Seqs

  const MAX_ORDER: nat := 10

  datatype Page = Page(used: bool, perm: bool, cache: bool, order: nat)

  predicate IsFree(p: Page) {
    !p.used && !p.perm
  }

  /** `idx / (1 << order)`, bit by bit. */
  function OrderIndex(x: nat, order: nat): nat {
    if order == 0 then x else OrderIndex(x / 2, order - 1)
  }

  predicate IsMaster(x: nat, order: nat) {
    OrderIndex(x, order) % 2 == 0
  }

  function Buddy(x: nat, order: nat): int {
    if IsMaster(x, order) then x + Pow2(order) else x - Pow2(order)
  }

  ghost predicate InBlock(ps: seq<Page>, h: nat, x: nat)
    requires h < |ps|
  {
    h <= x < h + Pow2(ps[h].order)
  }

  /** `x` belongs to the block that starts at `owner[x]`. */
  ghost predicate Placed(ps: seq<Page>, owner: seq<nat>, x: nat)
    requires |owner| == |ps| && x < |ps|
  {
    var h := owner[x];
    && h <= x
    && owner[h] == h
    && ps[h].order <= MAX_ORDER
    && InBlock(ps, h, x)
  }

  /** The blocks partition the page array, each aligned to its size; a page inside a block carries
      the order given by the trailing zeros of its index. */
  ghost predicate Partition(ps: seq<Page>, owner: seq<nat>) {
    && |owner| == |ps|
    && Aligned(|ps|, MAX_ORDER + 1)
    && (forall x {:trigger Placed(ps, owner, x)} :: 0 <= x < |ps| ==> Placed(ps, owner, x))
    && (forall h, x {:trigger InBlock(ps, h, x)} ::
          0 <= h < |ps| && owner[h] == h && 0 <= x < |ps| && InBlock(ps, h, x) ==> owner[x] == h)
    && (forall h {:trigger Aligned(h, ps[h].order)} :: 0 <= h < |ps| && owner[h] == h ==> Aligned(h, ps[h].order))
    && (forall x {:trigger TrailingZeros(x)} :: 0 < x < |ps| && owner[x] != x ==> ps[x].order == TrailingZeros(x))
  }

  /** The pages of a block are all free or all in use, free pages carry no flag, and pages that were
      never claimed are blocks of their own. */
  ghost predicate Flagged(ps: seq<Page>, owner: seq<nat>)
    requires Partition(ps, owner)
  {
    && (forall x {:trigger Placed(ps, owner, x)} :: 0 <= x < |ps| ==>
          Placed(ps, owner, x) && IsFree(ps[x]) == IsFree(ps[owner[x]]))
    && (forall x :: 0 <= x < |ps| && IsFree(ps[x]) ==> !ps[x].cache)
    && (forall x :: 0 <= x < |ps| && ps[x].perm ==> ps[x].used && owner[x] == x && ps[x].order == 0)
  }

  /** `h` is the head of a free block outside the pages `lo..hi`. */
  ghost predicate FreeHead(ps: seq<Page>, owner: seq<nat>, h: nat, lo: nat, hi: nat)
    requires |owner| == |ps|
  {
    h < |ps| && owner[h] == h && IsFree(ps[h]) && !(lo <= h < hi)
  }

  /** List `k` holds exactly the free blocks of order `k`, each once, except for the pages `lo..hi`
      that the running operation has taken off the lists. */
  ghost predicate Listed(ps: seq<Page>, owner: seq<nat>, lists: seq<seq<nat>>, lo: nat, hi: nat)
    requires Partition(ps, owner)
  {
    && |lists| == MAX_ORDER + 1
    && (forall k :: 0 <= k <= MAX_ORDER ==> Distinct(lists[k]))
    && (forall k, h {:trigger h in lists[k]} :: 0 <= k <= MAX_ORDER && h in lists[k] ==>
          FreeHead(ps, owner, h, lo, hi) && ps[h].order == k)
    && (forall h {:trigger FreeHead(ps, owner, h, lo, hi)} :: 0 <= h < |ps| && FreeHead(ps, owner, h, lo, hi) ==>
          Placed(ps, owner, h) && h in lists[ps[h].order])
  }

  /** No two listed blocks are buddies that could still be joined. */
  ghost predicate Coalesced(lists: seq<seq<nat>>) {
    && |lists| == MAX_ORDER + 1
    && forall k, h {:trigger Buddy(h, k)} :: 0 <= k < MAX_ORDER && h in lists[k] ==>
         !(Buddy(h, k) >= 0 && Buddy(h, k) in lists[k])
  }

  /** Everything that holds while the pages `lo..hi` are free but off the lists. */
  ghost predicate Sound(ps: seq<Page>, owner: seq<nat>, lists: seq<seq<nat>>, lo: nat, hi: nat) {
    Partition(ps, owner) && Flagged(ps, owner) && Listed(ps, owner, lists, lo, hi) && Coalesced(lists)
  }

  // ---------------------------------------------------------------------------------------------
  // Geometry of buddies

  lemma {:induction false} MasterAligned(x: nat, k: nat)
    requires Aligned(x, k)
    ensures IsMaster(x, k) <==> Aligned(x, k + 1)
  {
    AlignedStep(x, k);
    if k == 0 {
      AlignedZero(x / 2);
    } else {
      AlignedStep(x, k - 1);
      MasterAligned(x / 2, k - 1);
    }
  }

  lemma {:induction false} OrderIndexDivides(x: nat, k: nat)
    ensures OrderIndex(x, k) == x / Pow2(k)
  {
    if k > 0 {
      OrderIndexDivides(x / 2, k - 1);
      HalveThenDivide(x, Pow2(k - 1));
    }
  }

  /** The buddy of an aligned block is the other half of the block one order up. */
  lemma BuddyHalves(x: nat, k: nat)
    requires Aligned(x, k)
    ensures Buddy(x, k) >= 0 && Aligned(Buddy(x, k), k)
    ensures IsMaster(x, k) ==> Aligned(x, k + 1) && !IsMaster(x + Pow2(k), k)
    ensures !IsMaster(x, k) ==> x >= Pow2(k) && Aligned(x - Pow2(k), k + 1) && IsMaster(x - Pow2(k), k)
    ensures Buddy(Buddy(x, k), k) == x
  {
    MasterAligned(x, k);
    if IsMaster(x, k) {
      UpperHalf(x, k);
      MasterAligned(x + Pow2(k), k);
    } else {
      OddMultiple(x, k);
      UpperHalf(x - Pow2(k), k);
      MasterAligned(x - Pow2(k), k);
    }
  }

  /** A block, and the block one order up around it, end inside the page array. */
  lemma BlockEnds(n: nat, x: nat, k: nat)
    requires Aligned(n, MAX_ORDER + 1) && x < n && k <= MAX_ORDER + 1 && Aligned(x, k)
    ensures x + Pow2(k) <= n
  {
    AlignedWeaken(n, k, MAX_ORDER + 1);
    AlignedGap(x, n, k);
  }

  lemma BuddyInRange(n: nat, x: nat, k: nat)
    requires Aligned(n, MAX_ORDER + 1) && x < n && k <= MAX_ORDER && Aligned(x, k)
    ensures 0 <= Buddy(x, k) < n && Buddy(x, k) + Pow2(k) <= n
  {
    BuddyHalves(x, k);
    if IsMaster(x, k) {
      BlockEnds(n, x, k + 1);
    }
  }

  /** The block with head `h` starts at a multiple of its size and ends inside the page array, and the page at
      offset `d > 0` in it carries the order given by the trailing zeros of `d`. */
  ghost predicate WellShaped(ps: seq<Page>, h: nat)
    requires h < |ps|
  {
    && h % Pow2(ps[h].order) == 0
    && h + Pow2(ps[h].order) <= |ps|
    && forall d {:trigger TrailingZeros(d)} :: 0 < d < Pow2(ps[h].order) ==> ps[h + d].order == TrailingZeros(d)
  }

  lemma BlockShape(ps: seq<Page>, owner: seq<nat>, h: nat)
    requires Partition(ps, owner) && h < |ps| && owner[h] == h
    ensures WellShaped(ps, h)
  {
    var k := ps[h].order;
    assert Placed(ps, owner, h) && Aligned(h, k);
    AlignedMeansMultiple(h, k);
    BlockEnds(|ps|, h, k);
    forall d | 0 < d < Pow2(k)
      ensures ps[h + d].order == TrailingZeros(d)
    {
      OffsetTrailingZeros(h, k, d);
      assert InBlock(ps, h, h + d);
    }
  }

  // ---------------------------------------------------------------------------------------------
  // Splitting and joining

  function Reassign(owner: seq<nat>, lo: nat, hi: nat, h: nat): (r: seq<nat>)
    ensures |r| == |owner|
    ensures forall x :: 0 <= x < |owner| ==> r[x] == if lo <= x < hi then h else owner[x]
  {
    seq(|owner|, x requires 0 <= x < |owner| => if lo <= x < hi then h else owner[x])
  }

  function SetOrder(ps: seq<Page>, x: nat, k: nat): seq<Page>
    requires x < |ps|
  {
    ps[x := ps[x].(order := k)]
  }

  /** The page that a split turns into a head already carries the order the split needs. */
  lemma SplitFinds(ps: seq<Page>, owner: seq<nat>, h: nat)
    requires Partition(ps, owner)
    requires h < |ps| && owner[h] == h && ps[h].order > 0
    ensures Placed(ps, owner, h)
    ensures var s := h + Pow2(ps[h].order - 1);
            && s + Pow2(ps[h].order - 1) <= |ps|
            && s == Buddy(h, ps[h].order - 1)
            && Aligned(h, ps[h].order - 1) && Aligned(s, ps[h].order - 1)
            && owner[s] == h && ps[s].order == ps[h].order - 1
  {
    assert Placed(ps, owner, h);
    var j := ps[h].order - 1;
    var s := h + Pow2(j);
    UpperHalf(h, j);
    MasterAligned(h, j);
    BlockEnds(|ps|, h, j + 1);
    assert InBlock(ps, h, s);
    assert Placed(ps, owner, s);
  }

  /** A page is in the block of head `h` exactly when `h` owns it, and so is its owner. */
  lemma Members(ps: seq<Page>, owner: seq<nat>, h: nat, x: nat)
    requires Partition(ps, owner) && h < |ps| && owner[h] == h && x < |ps|
    ensures Placed(ps, owner, x)
    ensures owner[x] == h <==> InBlock(ps, h, x)
    ensures owner[x] == h <==> InBlock(ps, h, owner[x])
  {
    assert Placed(ps, owner, x);
    assert InBlock(ps, h, h);
  }

  ghost function SplitOwner(ps: seq<Page>, owner: seq<nat>, h: nat): seq<nat>
    requires h < |ps| && ps[h].order > 0
  {
    var s := h + Pow2(ps[h].order - 1);
    Reassign(owner, s, s + Pow2(ps[h].order - 1), s)
  }

  lemma SplitPlaced(ps: seq<Page>, owner: seq<nat>, h: nat)
    requires Partition(ps, owner)
    requires h < |ps| && owner[h] == h && ps[h].order > 0
    ensures var ps', owner' := SetOrder(ps, h, ps[h].order - 1), SplitOwner(ps, owner, h);
            && (forall x :: 0 <= x < |ps| ==> Placed(ps', owner', x))
            && (forall g, x {:trigger InBlock(ps', g, x)} ::
                  0 <= g < |ps| && owner'[g] == g && 0 <= x < |ps| && InBlock(ps', g, x) ==> owner'[x] == g)
  {
    var j := ps[h].order - 1;
    var s := h + Pow2(j);
    var ps', owner' := SetOrder(ps, h, j), SplitOwner(ps, owner, h);
    SplitFinds(ps, owner, h);
    forall x | 0 <= x < |ps|
      ensures Placed(ps', owner', x)
    {
      Members(ps, owner, h, x);
    }
    forall g, x | 0 <= g < |ps| && owner'[g] == g && 0 <= x < |ps| && InBlock(ps', g, x)
      ensures owner'[x] == g
    {
      Members(ps, owner, h, g);
      Members(ps, owner, h, x);
      assert g == s || g == h || InBlock(ps, g, x);
    }
  }

  lemma SplitPartition(ps: seq<Page>, owner: seq<nat>, h: nat)
    requires Partition(ps, owner)
    requires h < |ps| && owner[h] == h && ps[h].order > 0
    ensures Partition(SetOrder(ps, h, ps[h].order - 1), SplitOwner(ps, owner, h))
  {
    var s := h + Pow2(ps[h].order - 1);
    var ps', owner' := SetOrder(ps, h, ps[h].order - 1), SplitOwner(ps, owner, h);
    SplitPlaced(ps, owner, h);
    SplitFinds(ps, owner, h);
    forall g | 0 <= g < |ps| && owner'[g] == g
      ensures Aligned(g, ps'[g].order)
    {
      Members(ps, owner, h, g);
      assert g == s || g == h || Aligned(g, ps[g].order);
    }
    forall x | 0 < x < |ps| && owner'[x] != x
      ensures ps'[x].order == TrailingZeros(x)
    {
      Members(ps, owner, h, x);
    }
  }

  /** Two neighbouring blocks of order `k`, and what joining them makes of pages and owners. */
  ghost predicate Joins(
    ps: seq<Page>, owner: seq<nat>, m: nat, k: nat, hi: nat, ps': seq<Page>, owner': seq<nat>)
  {
    && |owner| == |ps| && m + Pow2(k) < |ps| && owner[m] == m && ps[m].order == k < MAX_ORDER
    && owner[m + Pow2(k)] == m + Pow2(k) && ps[m + Pow2(k)].order == k
    && hi == m + 2 * Pow2(k) && ps' == SetOrder(ps, m, k + 1) && owner' == Reassign(owner, m, hi, m)
  }

  lemma Pow2Step(k: nat)
    ensures Pow2(k + 1) == 2 * Pow2(k)
  {
  }

  lemma JoinPlaced(ps: seq<Page>, owner: seq<nat>, m: nat, k: nat, hi: nat, ps': seq<Page>, owner': seq<nat>, x: nat)
    requires Partition(ps, owner) && Joins(ps, owner, m, k, hi, ps', owner') && x < |ps|
    ensures Placed(ps', owner', x)
  {
    hide Partition, Pow2;
    Pow2Step(k);
    Members(ps, owner, m, x);
    Members(ps, owner, m + Pow2(k), x);
  }

  lemma JoinCovers(
    ps: seq<Page>, owner: seq<nat>, m: nat, k: nat, hi: nat, ps': seq<Page>, owner': seq<nat>, g: nat, x: nat)
    requires Partition(ps, owner) && Joins(ps, owner, m, k, hi, ps', owner') && g < |ps| && x < |ps|
    requires owner'[g] == g && InBlock(ps', g, x)
    ensures owner'[x] == g
  {
    hide Partition, Pow2;
    Pow2Step(k);
    Members(ps, owner, m, x);
    Members(ps, owner, m + Pow2(k), x);
    if g != m {
      Members(ps, owner, g, x);
      Members(ps, owner, m, g);
    }
  }

  lemma JoinAligned(ps: seq<Page>, owner: seq<nat>, m: nat, k: nat, hi: nat, ps': seq<Page>, owner': seq<nat>, g: nat)
    requires Partition(ps, owner) && Joins(ps, owner, m, k, hi, ps', owner') && Aligned(m, k + 1)
    requires g < |ps| && owner'[g] == g
    ensures Aligned(g, ps'[g].order)
  {
    hide Pow2;
    assert g == m || Aligned(g, ps[g].order);
  }

  lemma JoinOrders(ps: seq<Page>, owner: seq<nat>, m: nat, k: nat, hi: nat, ps': seq<Page>, owner': seq<nat>, x: nat)
    requires Partition(ps, owner) && Joins(ps, owner, m, k, hi, ps', owner') && Aligned(m, k + 1)
    requires 0 < x < |ps| && owner'[x] != x
    ensures ps'[x].order == TrailingZeros(x)
  {
    hide Pow2;
    var b := m + Pow2(k);
    UpperHalf(m, k);
    Members(ps, owner, m, x);
    Members(ps, owner, b, x);
    assert x == b || owner[x] != x;
  }

  lemma JoinPartition(ps: seq<Page>, owner: seq<nat>, m: nat, k: nat, hi: nat, ps': seq<Page>, owner': seq<nat>)
    requires Partition(ps, owner)
    requires m + Pow2(k) < |ps| && owner[m] == m && ps[m].order == k < MAX_ORDER
    requires owner[m + Pow2(k)] == m + Pow2(k) && ps[m + Pow2(k)].order == k
    requires hi == m + 2 * Pow2(k) && ps' == SetOrder(ps, m, k + 1) && owner' == Reassign(owner, m, hi, m)
    requires Aligned(m, k + 1)
    ensures Partition(ps', owner')
  {
    hide Placed, InBlock, Pow2, Aligned, TrailingZeros;
    assert Joins(ps, owner, m, k, hi, ps', owner');
    forall x | 0 <= x < |ps|
      ensures Placed(ps', owner', x)
    {
      JoinPlaced(ps, owner, m, k, hi, ps', owner', x);
    }
    forall g, x | 0 <= g < |ps| && owner'[g] == g && 0 <= x < |ps| && InBlock(ps', g, x)
      ensures owner'[x] == g
    {
      JoinCovers(ps, owner, m, k, hi, ps', owner', g, x);
    }
    forall g | 0 <= g < |ps| && owner'[g] == g
      ensures Aligned(g, ps'[g].order)
    {
      JoinAligned(ps, owner, m, k, hi, ps', owner', g);
    }
    forall x | 0 < x < |ps| && owner'[x] != x
      ensures ps'[x].order == TrailingZeros(x)
    {
      JoinOrders(ps, owner, m, k, hi, ps', owner', x);
    }
  }

  // ---------------------------------------------------------------------------------------------
  // The free blocks are a function of the free pages

  /** `2^k` free pages from `p`. */
  ghost predicate FreeRun(ps: seq<Page>, p: nat, k: nat) {
    && Aligned(p, k)
    && p + Pow2(k) <= |ps|
    && forall x :: p <= x < p + Pow2(k) ==> IsFree(ps[x])
  }

  /** The start of the block of order `k + 1` around the aligned block of order `k` at `p`. */
  function Parent(p: nat, k: nat): nat {
    if IsMaster(p, k) || p < Pow2(k) then p else p - Pow2(k)
  }

  /** A maximal free run: it cannot grow to the next order. Refers to the free pages only. */
  ghost predicate MaximalRun(ps: seq<Page>, p: nat, k: nat) {
    && k <= MAX_ORDER
    && FreeRun(ps, p, k)
    && (k < MAX_ORDER ==> !FreeRun(ps, Parent(p, k), k + 1))
  }

  /** A free run lies inside one free block. */
  lemma {:induction false} RunInOneBlock(ps: seq<Page>, owner: seq<nat>, lists: seq<seq<nat>>, p: nat, k: nat)
    requires Sound(ps, owner, lists, 0, 0)
    requires k <= MAX_ORDER && FreeRun(ps, p, k)
    ensures p < |ps| && Placed(ps, owner, p)
    ensures ps[owner[p]].order >= k
    decreases k
  {
    assert IsFree(ps[p]);
    assert Placed(ps, owner, p);
    if k > 0 {
      var j := k - 1;
      var b := p + Pow2(j);
      UpperHalf(p, j);
      assert FreeRun(ps, p, j) && FreeRun(ps, b, j);
      RunInOneBlock(ps, owner, lists, p, j);
      RunInOneBlock(ps, owner, lists, b, j);
      UpperOwner(ps, owner, p, j);
      if ps[owner[p]].order == j && ps[owner[b]].order == j {
        LoneHalves(ps, owner, lists, p, j);
      }
    }
  }

  /** A block that reaches past the upper half of an aligned pair also owns the lower half. */
  lemma UpperOwner(ps: seq<Page>, owner: seq<nat>, p: nat, j: nat)
    requires Partition(ps, owner) && Aligned(p, j + 1) && p + Pow2(j) < |ps|
    requires Placed(ps, owner, p + Pow2(j))
    ensures ps[owner[p + Pow2(j)]].order > j ==> owner[p] == owner[p + Pow2(j)]
  {
    var g := owner[p + Pow2(j)];
    if ps[g].order > j {
      Nested(p, j + 1, g, ps[g].order, p + Pow2(j));
      assert InBlock(ps, g, p);
    }
  }

  lemma HeadOfOwnOrder(ps: seq<Page>, owner: seq<nat>, p: nat)
    requires Partition(ps, owner) && p < |ps| && Placed(ps, owner, p) && Aligned(p, ps[owner[p]].order)
    ensures owner[p] == p
  {
    var k := ps[owner[p]].order;
    Nested(p, k, owner[p], k, p);
  }

  /** Two free halves in blocks of their own would be listed buddies. */
  lemma LoneHalves(ps: seq<Page>, owner: seq<nat>, lists: seq<seq<nat>>, p: nat, j: nat)
    requires Sound(ps, owner, lists, 0, 0)
    requires j < MAX_ORDER && FreeRun(ps, p, j) && FreeRun(ps, p + Pow2(j), j) && Aligned(p, j + 1)
    requires Placed(ps, owner, p) && Placed(ps, owner, p + Pow2(j))
    ensures !(ps[owner[p]].order == ps[owner[p + Pow2(j)]].order == j)
  {
    hide Flagged, Listed;
    var b := p + Pow2(j);
    MasterAligned(p, j);
    assert Buddy(p, j) == b;
    if ps[owner[p]].order == ps[owner[b]].order == j {
      OwnBlockIsListed(ps, owner, lists, p);
      OwnBlockIsListed(ps, owner, lists, b);
    }
  }

  lemma OwnBlockIsListed(ps: seq<Page>, owner: seq<nat>, lists: seq<seq<nat>>, p: nat)
    requires Sound(ps, owner, lists, 0, 0)
    requires p < |ps| && IsFree(ps[p]) && Placed(ps, owner, p) && Aligned(p, ps[owner[p]].order)
    ensures owner[p] == p && p in lists[ps[p].order]
  {
    HeadOfOwnOrder(ps, owner, p);
    assert FreeHead(ps, owner, p, 0, 0);
  }

  /** All pages of a free run have the same owner, of the run's order or more. */
  lemma RunOwner(ps: seq<Page>, owner: seq<nat>, lists: seq<seq<nat>>, p: nat, k: nat, x: nat)
    requires Sound(ps, owner, lists, 0, 0)
    requires k <= MAX_ORDER && FreeRun(ps, p, k) && p <= x < p + Pow2(k)
    ensures Placed(ps, owner, x) && ps[owner[x]].order >= k
  {
    RunInOneBlock(ps, owner, lists, p, k);
    var g := owner[p];
    Nested(p, k, g, ps[g].order, p);
    assert InBlock(ps, g, x);
    assert Placed(ps, owner, x);
  }

  lemma ParentContains(p: nat, k: nat)
    requires Aligned(p, k)
    ensures Aligned(Parent(p, k), k + 1)
    ensures Parent(p, k) <= p && p + Pow2(k) <= Parent(p, k) + Pow2(k + 1)
  {
    BuddyHalves(p, k);
  }

  lemma BlockIsRun(ps: seq<Page>, owner: seq<nat>, h: nat)
    requires Partition(ps, owner) && Flagged(ps, owner)
    requires h < |ps| && owner[h] == h && IsFree(ps[h])
    ensures ps[h].order <= MAX_ORDER && FreeRun(ps, h, ps[h].order)
  {
    assert Placed(ps, owner, h);
    BlockEnds(|ps|, h, ps[h].order);
    forall x | h <= x < h + Pow2(ps[h].order)
      ensures IsFree(ps[x])
    {
      assert InBlock(ps, h, x) && Placed(ps, owner, x);
    }
  }

  lemma WiderRun(ps: seq<Page>, g: nat, K: nat, h: nat, k: nat)
    requires FreeRun(ps, g, K) && k < K && Aligned(h, k) && g <= h < g + Pow2(K)
    ensures FreeRun(ps, Parent(h, k), k + 1)
  {
    ParentContains(h, k);
    Nested(Parent(h, k), k + 1, g, K, h);
  }

  /** List `k` holds exactly the maximal free runs of order `k`: the lists carry no history. */
  lemma ListsAreMaximalRuns(ps: seq<Page>, owner: seq<nat>, lists: seq<seq<nat>>, h: nat, k: nat)
    requires Sound(ps, owner, lists, 0, 0) && k <= MAX_ORDER
    ensures h in lists[k] <==> MaximalRun(ps, h, k)
  {
    hide Partition, Flagged, Coalesced, MaximalRun;
    if h in lists[k] {
      ListedIsMaximal(ps, owner, lists, h, k);
    }
    if MaximalRun(ps, h, k) {
      MaximalIsListed(ps, owner, lists, h, k);
    }
  }

  lemma ListedIsMaximal(ps: seq<Page>, owner: seq<nat>, lists: seq<seq<nat>>, h: nat, k: nat)
    requires Sound(ps, owner, lists, 0, 0) && k <= MAX_ORDER && h in lists[k]
    ensures MaximalRun(ps, h, k)
  {
    assert FreeHead(ps, owner, h, 0, 0);
    BlockIsRun(ps, owner, h);
    ParentContains(h, k);
    if k < MAX_ORDER && FreeRun(ps, Parent(h, k), k + 1) {
      RunOwner(ps, owner, lists, Parent(h, k), k + 1, h);
    }
  }

  lemma MaximalIsListed(ps: seq<Page>, owner: seq<nat>, lists: seq<seq<nat>>, h: nat, k: nat)
    requires Sound(ps, owner, lists, 0, 0) && k <= MAX_ORDER && MaximalRun(ps, h, k)
    ensures h in lists[k]
  {
    RunInOneBlock(ps, owner, lists, h, k);
    var g := owner[h];
    var K := ps[g].order;
    assert IsFree(ps[h]);
    assert Placed(ps, owner, g);
    BlockIsRun(ps, owner, g);
    if K > k {
      WiderRun(ps, g, K, h, k);
    }
    OwnBlockIsListed(ps, owner, lists, h);
  }

  /** Two reachable states with the same free pages have the same blocks on every list. */
  lemma SameFreePagesSameLists(
    ps: seq<Page>, owner: seq<nat>, lists: seq<seq<nat>>,
    ps': seq<Page>, owner': seq<nat>, lists': seq<seq<nat>>)
    requires Sound(ps, owner, lists, 0, 0) && Sound(ps', owner', lists', 0, 0)
    requires |ps| == |ps'| && forall x :: 0 <= x < |ps| ==> IsFree(ps[x]) == IsFree(ps'[x])
    ensures forall k, h :: 0 <= k <= MAX_ORDER ==> (h in lists[k] <==> h in lists'[k])
  {
    forall k: nat, h: nat | k <= MAX_ORDER
      ensures h in lists[k] <==> h in lists'[k]
    {
      ListsAreMaximalRuns(ps, owner, lists, h, k);
      ListsAreMaximalRuns(ps', owner', lists', h, k);
      assert forall p: nat, j: nat :: FreeRun(ps, p, j) <==> FreeRun(ps', p, j);
    }
  }
}
