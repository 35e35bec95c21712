/**
 The physical page allocator itself: the page array and the free lists are updated in place, and each
 method is proved to compute the function of the same name in `BuddySteps` and `BuddyRuns`.  Every
 `BUG_ON` of the original is an `assert` of its negation, so it cannot fire.
 */
module PageAllocator {
  import opened Bits
  import opened Common
  import opened Seqs
  import opened BuddyBlocks
  import opened BuddyLists
  import opened BuddySteps
  import opened BuddyRuns
  import opened PageFlags

  const NUM_ENTRIES: nat := 1024

  lemma PageCountAligned()
    ensures Aligned(NUM_ENTRIES * NUM_ENTRIES, MAX_ORDER + 1)
  {
    assert Pow2(5) == 32;
    assert Pow2(10) == 1024 by { assert Pow2(8) == 256; }
    assert Pow2(15) == 32768 by { assert Pow2(12) == 4096; }
    assert Pow2(20) == 1048576 by { assert Pow2(18) == 262144; }
    Pow2Aligned(20, MAX_ORDER + 1);
  }

  class Allocator {
    var pages: array<Page>
    var lists: seq<seq<nat>>
    var inUse: int
    var available: int
    ghost var st: State           // pages, owners and lists
    ghost var live: map<nat, nat> // allocations held by clients

    ghost predicate Repr()
      reads this, pages
    {
      pages[..] == st.ps && lists == st.lists
    }

    ghost function View(): Machine
      reads this
    {
      Machine(st, live, inUse, available)
    }

    ghost predicate Valid()
      reads this, pages
    {
      Repr() && Inv(View())
    }

    constructor ()
      ensures Valid() && fresh(pages)
      ensures View() == Boot(NUM_ENTRIES * NUM_ENTRIES)
    {
      var n := NUM_ENTRIES * NUM_ENTRIES;
      pages := new Page[n](_ => Page(true, true, false, 0));
      lists := Boot(n).s.lists;
      inUse, available := 0, 0;
      st, live := Boot(n).s, map[];
      PageCountAligned();
      BootInv(n);
      new;
      assert pages[..] == Boot(n).s.ps;
    }

    method AddToFreelists(h: nat, ghost lo: nat, ghost hi: nat)
      requires Repr() && Ok(st, lo, hi) && FreeAt(st, h)
      modifies `lists, `st
      ensures Repr() && st == Put(old(st), h)
    {
      var k := pages[h].order;
      assert IsFree(pages[h]);
      assert k == 0 || IsMaster(h, k - 1) by { SubblockMaster(st, lo, hi, h); }
      lists := lists[k := [h] + lists[k]];
      st := Put(st, h);
    }

    method SplitBlock(master: nat, ghost lo: nat) returns (slave: nat)
      requires Repr() && FreeAt(st, master) && st.ps[master].order > 0
      requires lo <= master && Ok(st, lo, End(st, master))
      modifies pages, `st
      ensures Repr() && st == Split(old(st), master)
      ensures slave == master + Pow2(old(st).ps[master].order - 1)
    {
      hide Sound;
      ghost var s := st;
      SplitOk(s, lo, master, Split(s, master), master + Pow2(s.ps[master].order - 1));
      assert IsMaster(master, pages[master].order - 1) by { SubblockMaster(s, lo, End(s, master), master); }
      pages[master] := pages[master].(order := pages[master].order - 1);
      st := Split(s, master);
      slave := Buddy(master, pages[master].order);
      assert pages[master].order == pages[slave].order;
      assert IsFree(pages[master]);
      assert IsFree(pages[slave]);
    }

    method JoinBlock(page: nat, ghost k: nat) returns (master: nat)
      requires Repr() && page < |st.ps| && st.ps[page].order == k && 0 <= Buddy(page, k)
      requires FreePair(st.ps, st.owner, PairStart(page, k), k)
      modifies pages, `st
      ensures master == PairStart(page, k) && master < |old(st).ps|
      ensures Repr() && st == Join(old(st), master, k)
    {
      master := PairStart(page, pages[page].order);
      var buddy := Buddy(master, pages[master].order);
      assert pages[master].order == pages[buddy].order;
      assert pages[master].order != MAX_ORDER;
      assert IsFree(pages[master]);
      assert IsFree(pages[buddy]);
      pages[master] := pages[master].(order := pages[master].order + 1);
      st := Join(st, master, k);
    }

    method TrimBlock(first: nat, number: nat)
      requires Repr() && CutOk(Cut(st, first, number), first)
      modifies pages, `lists, `st
      ensures Repr() && st == Trim(Cut(old(st), first, number), first)
    {
      hide Sound, Split, Put, CutOnce, Trim, FlipBit, Pow2;
      ghost var goal := Trim(Cut(st, first, number), first);
      var block := first;
      var actual: nat := number;
      while actual != 0
        invariant Repr() && CutOk(Cut(st, block, actual), first)
        invariant Trim(Cut(st, block, actual), first) == goal
        decreases st.ps[block].order
      {
        ghost var c := Cut(st, block, actual);
        TrimStep(c, first);
        var blockSize := Pow2(pages[block].order);
        if actual == blockSize {
          return;
        }
        assert pages[block].order != 0;
        assert IsFree(pages[block]);
        assert blockSize >= actual;
        var buddy := SplitBlock(block, first);
        if actual <= blockSize / 2 {
          assert IsFree(pages[buddy]);
          AddToFreelists(buddy, first, End(st, buddy));
          continue;
        }
        var half := pages[block].order;
        FlipTopBit(actual, half);
        actual := FlipBit(actual, half);
        block := buddy;
      }
      assert false;
    }

    method RippleJoin(page: nat)
      requires Repr() && FreeAt(st, page) && Ok(st, page, End(st, page))
      modifies pages, `lists, `st
      ensures Repr() && st == Ripple(old(st), page)
    {
      hide Sound, PairStart;
      assert IsFree(pages[page]);
      ghost var goal := Ripple(st, page);
      var block := page;
      BuddyExists(st, block);
      var buddy: nat := Buddy(block, pages[block].order);
      while IsFree(pages[buddy]) && pages[buddy].order == pages[block].order && pages[block].order < MAX_ORDER
        invariant Repr() && FreeAt(st, block) && Ok(st, block, End(st, block)) && Ripple(st, block) == goal
        invariant buddy == Buddy(block, st.ps[block].order) && buddy < |st.ps|
        decreases MAX_ORDER - st.ps[block].order
      {
        ghost var s, k, was := st, pages[block].order, block;
        RipplePair(s, block);
        lists := lists[pages[buddy].order := Without(lists[pages[buddy].order], buddy)];
        st := Taken(s, buddy);
        block := JoinBlock(block, k);
        RippleOnceKeeps(s, was, st, block);
        BuddyExists(st, block);
        buddy := Buddy(block, pages[block].order);
        assert IsFree(pages[block]);
      }
      AddToFreelists(block, block, End(st, block));
    }

    method DoAllocPages(number: nat) returns (block: nat, found: bool)
      requires Valid() && number > 0
      modifies pages, `lists, `st, `inUse
      ensures Repr() && found == Alloc(old(st), number).Allocated?
      ensures found ==> Alloc(old(st), number) == Allocated(block, st) && inUse == Add32(old(inUse), number)
      ensures !found ==> st == old(st) && inUse == old(inUse)
    {
      hide Sound, Tracked, Trim, FirstList;
      Sizes(st, 0, 0);
      var order := TargetOrder(number);
      block, found := 0, false;
      ghost var s := st;
      while order <= MAX_ORDER
        invariant Valid() && st == s && inUse == old(inUse)
        invariant FirstList(lists, order) == FirstList(lists, TargetOrder(number))
      {
        FirstListStep(lists, order);
        if lists[order] != [] {
          block := lists[order][0];
          ListHead(s, order);
          assert !pages[block].used;
          lists := lists[order := lists[order][1..]];
          st := Taken(s, block);
          AllocFits(s, number, order);
          TrimBlock(block, number);
          ghost var t := st;
          TrimKeeps(Cut(Taken(s, block), block, number), block);
          TrimmedPages(s, number, block, t);
          MarkUsed(block, number, t);
          inUse := Add32(inUse, number);
          found := true;
          return;
        }
        order := order + 1;
      }
      FirstListStep(lists, order);
    }

    method MarkUsed(block: nat, number: nat, ghost t: State)
      requires Repr() && st == t && block + number <= |t.ps|
      requires forall x :: block <= x < block + number ==> IsFree(t.ps[x]) && !t.ps[x].cache
      modifies pages, `st
      ensures Repr() && st == t.(ps := MarkPages(t.ps, block, block + number))
    {
      for i := 0 to number
        invariant pages[..] == MarkPages(t.ps, block, block + i)
        modifies pages
      {
        assert !pages[block + i].used && !pages[block + i].perm && !pages[block + i].cache;
        pages[block + i] := pages[block + i].(used := true);
      }
      st := t.(ps := MarkPages(t.ps, block, block + number));
    }

    /** The loop of `_alloc_pages`: checks every page, and marks it if it is for a cache. */
    method CheckPages(first: nat, num: nat, cache: bool, ghost t: State)
      requires Repr() && st == t && first + num <= |t.ps|
      requires forall x :: first <= x < first + num ==> t.ps[x].used && !t.ps[x].perm
      modifies pages, `st
      ensures Repr() && st == if cache then t.(ps := CachePages(t.ps, first, first + num)) else t
    {
      for i := 0 to num
        invariant pages[..] == if cache then CachePages(t.ps, first, first + i) else t.ps
        modifies pages
      {
        assert pages[first + i].used;
        assert !pages[first + i].perm;
        if cache {
          pages[first + i] := pages[first + i].(cache := true);
        }
      }
      st := if cache then t.(ps := CachePages(t.ps, first, first + num)) else t;
    }

    /** `alloc_pages`; fails where the original panics for lack of memory. */
    method AllocPages(num: nat, cache: bool) returns (first: nat, found: bool)
      requires Valid() && num > 0
      modifies pages, `lists, `st, `inUse, `live
      ensures Valid() && View() == Step(old(View()), Op.AllocPages(num, cache))
      ensures found <==> Alloc(old(st), num).Allocated?
      ensures found ==> first == Alloc(old(st), num).first && first in live && live[first] == num
      ensures found ==> first + num <= pages.Length
      ensures found ==> forall x :: first <= x < first + num ==>
                          pages[x].used && !pages[x].perm && pages[x].cache == cache && IsFree(old(pages[x]))
      ensures forall x :: 0 <= x < pages.Length && !(found && first <= x < first + num) ==>
                SameFlags(pages[x], old(pages[x]))
    {
      hide Sound, Tracked, Alloc;
      ghost var m := View();
      StepKeeps(m, Op.AllocPages(num, cache));
      AllocKeeps(st, num);
      first, found := DoAllocPages(num);
      if found {
        ghost var t := st;
        CheckPages(first, num, cache, t);
        live := live[first := num];
      }
      ghost var now := st.ps;
      forall x | 0 <= x < pages.Length
        ensures if found && first <= x < first + num
                then now[x].used && !now[x].perm && now[x].cache == cache && IsFree(m.s.ps[x])
                else SameFlags(now[x], m.s.ps[x])
      {
        AllocFlags(m, num, cache, x);
      }
    }

    method FreePage(page: nat)
      requires Repr() && Ok(st, 0, 0) && UsedAt(st, page)
      modifies pages, `lists, `st, `inUse
      ensures Repr() && st == FreeOne(old(st), page)
      ensures inUse == Sub32(old(inUse), Pow2(old(st).ps[page].order))
    {
      hide Sound, Ripple;
      ghost var s := st;
      ClearOk(s, page);
      var pageSize := Pow2(pages[page].order);
      inUse := Sub32(inUse, pageSize);
      for i := 0 to pageSize
        invariant pages[..] == ClearPages(s.ps, page, page + i)
        modifies pages
      {
        assert !pages[page + i].perm;
        assert pages[page + i].used;
        pages[page + i] := pages[page + i].(used := false, perm := false, cache := false);
      }
      st := Clear(s, page);
      RippleJoin(page);
    }

    method FreePages(first: nat, count: nat)
      requires Valid() && first in live && live[first] == count
      modifies pages, `lists, `st, `inUse, `live
      ensures Valid() && View() == Step(old(View()), Op.FreePages(first))
      ensures first + count <= pages.Length
      ensures forall x :: 0 <= x < pages.Length ==>
                if first <= x < first + count then IsFree(pages[x]) && !pages[x].cache
                else SameFlags(pages[x], old(pages[x]))
    {
      hide Sound, Tracked, FreeOne, FreeAll, Freeable, FreeEffect, Log2, Sub32;
      Sub32Zero(inUse);
      ghost var m := View();
      StepKeeps(m, Op.FreePages(first));
      LiveIsFreeable(m, first);
      FreeableFits(st, first, count);
      ghost var goal := FreeAll(st, first, count);
      var master: nat := first;
      var num: nat := count;
      while num != 0
        invariant Repr() && Freeable(st, master, num) && FreeAll(st, master, num) == goal
        invariant num <= count && inUse == Sub32(old(inUse), count - num)
        modifies pages, `lists, `st, `inUse
        decreases num
      {
        var k := Log2(num);
        FreeFirst(st, master, num);
        FreeAllStep(st, master, num, Pow2(k), FreeOne(st, master));
        assert num != pages[master].order;
        FlipTopBit(num, k);
        Sub32Twice(old(inUse), count - num, Pow2(k));
        num := FlipBit(num, k);
        FreePage(master);
        master := master + Pow2(k);
      }
      FreeNone(st, master);
      live := live - {first};
      ghost var now := st.ps;
      forall x | 0 <= x < pages.Length
        ensures if first <= x < first + count then IsFree(now[x]) && !now[x].cache else SameFlags(now[x], m.s.ps[x])
      {
        FreeFlags(m, first, x);
      }
    }

    method ClaimPage(idx: nat)
      requires Valid() && idx < pages.Length && pages[idx].perm
      modifies pages, `lists, `st, `inUse, `available
      ensures Valid() && View() == Step(old(View()), Op.ClaimPage(idx))
      ensures available == Add32(old(available), 1)
      ensures forall x :: 0 <= x < pages.Length ==>
                if x == idx then IsFree(pages[x]) && !pages[x].cache else SameFlags(pages[x], old(pages[x]))
    {
      hide Sound, Tracked, FreeOne;
      ghost var m := View();
      StepKeeps(m, Op.ClaimPage(idx));
      UnlockOk(st, idx);
      pages[idx] := pages[idx].(perm := false);
      st := Unlock(st, idx);
      FreePage(idx);
      available := Add32(available, 1);
      ghost var now := st.ps;
      forall x | 0 <= x < pages.Length
        ensures if x == idx then IsFree(now[x]) && !now[x].cache else SameFlags(now[x], m.s.ps[x])
      {
        ClaimFlags(m, idx, x);
      }
    }

    /** `claim_pages` */
    method ClaimPages(idx: nat, num: nat)
      requires Valid() && idx + num <= pages.Length
      requires forall x :: idx <= x < idx + num ==> pages[x].perm
      modifies pages, `lists, `st, `inUse, `available
      ensures Valid() && View() == Run(old(View()), Claims(idx, num))
      ensures available == Add32(old(available), num)
      ensures forall x :: 0 <= x < pages.Length ==>
                if idx <= x < idx + num then IsFree(pages[x]) && !pages[x].cache
                else SameFlags(pages[x], old(pages[x]))
    {
      hide Sound, Tracked, Step, Add32;
      Add32More(available, 0);
      for i := 0 to num
        invariant Valid() && |st.ps| == pages.Length
        invariant Run(View(), Claims(idx + i, num - i)) == Run(old(View()), Claims(idx, num))
        invariant available == Add32(old(available), i)
        invariant forall x :: 0 <= x < pages.Length ==>
                    if idx <= x < idx + i then IsFree(pages[x]) && !pages[x].cache
                    else SameFlags(pages[x], old(pages[x]))
      {
        Add32More(old(available), i);
        ClaimLeaves(View(), idx + i);
        RunClaims(View(), idx + i, num - i);
        ClaimPage(idx + i);
      }
    }
  }

  lemma FreeableFits(s: State, p: nat, n: nat)
    requires Freeable(s, p, n)
    ensures p + n <= |s.ps|
  {
  }

  lemma Add32More(a: int, n: nat)
    requires 0 <= a < TWO32
    ensures Add32(a, 0) == a && Add32(Add32(a, n), 1) == Add32(a, n + 1)
  {
  }

  lemma Sub32Zero(a: int)
    requires 0 <= a < TWO32
    ensures Sub32(a, 0) == a
  {
  }

  function Claims(idx: nat, num: nat): seq<Op> {
    seq(num, i requires i >= 0 => Op.ClaimPage(idx + i))
  }

  lemma RunClaims(m: Machine, idx: nat, num: nat)
    requires Inv(m) && num > 0 && Allowed(m, Op.ClaimPage(idx))
    ensures Inv(Step(m, Op.ClaimPage(idx)))
    ensures Run(m, Claims(idx, num)) == Run(Step(m, Op.ClaimPage(idx)), Claims(idx + 1, num - 1))
  {
    hide Inv, Step;
    StepKeeps(m, Op.ClaimPage(idx));
    assert Claims(idx, num)[1..] == Claims(idx + 1, num - 1);
  }

  lemma ClaimLeaves(m: Machine, i: nat)
    requires Inv(m) && Allowed(m, Op.ClaimPage(i))
    ensures var t := Step(m, Op.ClaimPage(i)).s;
            |t.ps| == |m.s.ps| && forall x :: 0 <= x < |t.ps| && x != i ==> t.ps[x].perm == m.s.ps[x].perm
  {
    hide Sound, Tracked, Claim;
    ClaimKeeps(m.s, i);
  }
}
