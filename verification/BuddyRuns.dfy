/** What holds of the buddy allocator after any run of calls: its invariants, kept by every method of
    BuddyPmm, are put together here. */
module BuddyRuns {
  import opened Bits
  import opened Pages
  import opened BuddyState
  import opened BuddyTheory
  import opened Buddy

  /** The free blocks with their orders. */
  ghost function FreeMap(s: State): map<nat, nat>
    requires Inv(s, NO_HAND)
  {
    map h | h in s.blocks && h !in Outstanding(s, NO_HAND) :: s.blocks[h]
  }

  /** The states reached from regions that start at multiples of the largest block size. */
  ghost predicate Settled(s: State) {
    Inv(s, NO_HAND) && AllAligned(s.blocks) && FullyMerged(s.lists)
  }

  lemma FreeMapListed(s: State, h: nat, k: nat)
    requires Inv(s, NO_HAND)
    ensures |s.lists| == MAX_ORDER + 1
    ensures h in FreeMap(s) && FreeMap(s)[h] == k <==> k < |s.lists| && h in s.lists[k]
  {
    hide Tiling, MarksOk, HeadsOk, NotListed, ListsOk;
    ListCount(s, NO_HAND);
    if h in s.blocks { FreeIsListed(s, h); }
    if k < |s.lists| && h in s.lists[k] { ListedHead(s, NO_HAND, k, h); }
  }

  lemma FreeMapMerged(s: State)
    requires Settled(s)
    ensures NoBuddies(FreeMap(s))
  {
    hide Inv, AllAligned, Outstanding, Aligned;
    var f := FreeMap(s);
    forall h: nat | h in f && f[h] < MAX_ORDER && Aligned(h, f[h] + 1)
      ensures !(h + Pow2(f[h]) in f && f[h + Pow2(f[h])] == f[h])
    {
      FreeMapListed(s, h, f[h]);
      FreeMapListed(s, h + Pow2(f[h]), f[h]);
    }
  }

  /** Part of a decomposition is one of the pages it covers. */
  lemma SubMap(blocks: map<nat, nat>, f: map<nat, nat>)
    requires OrdersOk(blocks) && Disjoint(blocks) && AllAligned(blocks)
    requires forall h | h in f :: h in blocks && f[h] == blocks[h]
    ensures OrdersOk(f) && Disjoint(f) && AllAligned(f)
  {
  }

  lemma OneHead(blocks: map<nat, nat>, h: nat, g: nat, i: nat)
    requires Disjoint(blocks) && InBlock(blocks, h, i) && InBlock(blocks, g, i)
    ensures h == g
  {
  }

  /** A page is in a free block exactly when it is managed and in no outstanding block. */
  lemma FreePage(s: State, i: nat)
    requires Inv(s, NO_HAND)
    ensures InSome(FreeMap(s), i) <==> i in s.managed && !InSome(Outstanding(s, NO_HAND), i)
  {
    hide MarksOk, ListsOk, NotListed, Disjoint;
    var f, live := FreeMap(s), Outstanding(s, NO_HAND);
    if i in s.managed {
      var h :| InBlock(s.blocks, h, i);
      if h in live { assert InBlock(live, h, i); } else { assert InBlock(f, h, i); }
    }
    if InSome(f, i) {
      var h :| InBlock(f, h, i);
      assert InBlock(s.blocks, h, i);
      if InSome(live, i) {
        var g :| InBlock(live, g, i);
        assert InBlock(s.blocks, g, i);
        OneHead(s.blocks, h, g, i);
      }
    }
  }

  /** After any run, the lists are determined by the pages that are managed and the blocks that are
      outstanding: two settled states that agree on these hold the same blocks on every list. */
  lemma LiveDeterminesLists(s: State, t: State)
    requires Settled(s) && Settled(t) && s.managed == t.managed
    requires Outstanding(s, NO_HAND) == Outstanding(t, NO_HAND)
    ensures |s.lists| == |t.lists| == MAX_ORDER + 1
    ensures forall k, h | 0 <= k <= MAX_ORDER :: h in s.lists[k] <==> h in t.lists[k]
  {
    hide MarksOk, ListsOk, NotListed, HeadsOk, Disjoint, Within, Covered, OrdersOk, AllAligned, FullyMerged, NoBuddies,
         FreeMap, Outstanding, InSome;
    ListCount(s, NO_HAND);
    ListCount(t, NO_HAND);
    FreeMapFacts(s);
    FreeMapFacts(t);
    forall i: nat ensures InSome(FreeMap(s), i) <==> InSome(FreeMap(t), i) {
      FreePage(s, i);
      FreePage(t, i);
    }
    UniqueDecomposition(FreeMap(s), FreeMap(t));
    forall k, h: nat | 0 <= k <= MAX_ORDER ensures h in s.lists[k] <==> h in t.lists[k] {
      FreeMapListed(s, h, k);
      FreeMapListed(t, h, k);
    }
  }

  lemma FreeMapFacts(s: State)
    requires Settled(s)
    ensures OrdersOk(FreeMap(s)) && Disjoint(FreeMap(s)) && AllAligned(FreeMap(s)) && NoBuddies(FreeMap(s))
  {
    hide MarksOk, ListsOk, NotListed, Disjoint, Within, Covered, OrdersOk, AllAligned, FullyMerged, NoBuddies;
    SubMap(s.blocks, FreeMap(s));
    FreeMapMerged(s);
  }

  /** Once everything has been freed, the lists hold exactly the blocks InitMemmap made. */
  lemma AllFreed(s: State, base: nat, n: nat)
    requires Settled(s) && s.managed == Range(base, n) && Aligned(base, MAX_ORDER)
    requires Outstanding(s, NO_HAND) == map[]
    ensures |s.lists| == MAX_ORDER + 1 && s.blocks == Greedy(base, n)
    ensures forall k, h | 0 <= k <= MAX_ORDER ::
              h in s.lists[k] <==> h in Greedy(base, n) && Greedy(base, n)[h] == k
  {
    hide MarksOk, ListsOk, NotListed, HeadsOk, Disjoint, Within, Covered, OrdersOk, AllAligned, FullyMerged, NoBuddies,
         Outstanding, Greedy, Aligned, InSome;
    ListCount(s, NO_HAND);
    FreeMapFacts(s);
    GreedyFacts(base, n);
    forall i: nat ensures InSome(FreeMap(s), i) <==> InSome(Greedy(base, n), i) {
      FreePage(s, i);
      NoneOutstanding(i);
      GreedyPages(base, n, i);
    }
    UniqueDecomposition(FreeMap(s), Greedy(base, n));
    assert s.blocks == FreeMap(s);
    forall k, h: nat | 0 <= k <= MAX_ORDER
      ensures h in s.lists[k] <==> h in Greedy(base, n) && Greedy(base, n)[h] == k
    {
      FreeMapListed(s, h, k);
    }
  }

  lemma NoneOutstanding(i: nat)
    ensures !InSome(map[], i)
  {
  }

  lemma GreedyPages(base: nat, n: nat, i: nat)
    ensures InSome(Greedy(base, n), i) <==> base <= i < base + n
  {
    hide Greedy;
    GreedyRange(base, n);
    if base <= i < base + n { GreedyCovers(base, n, i); }
  }

  lemma GreedyFacts(base: nat, n: nat)
    requires Aligned(base, MAX_ORDER)
    ensures OrdersOk(Greedy(base, n)) && Disjoint(Greedy(base, n)) && AllAligned(Greedy(base, n))
    ensures NoBuddies(Greedy(base, n))
  {
    hide Greedy, Disjoint, Aligned;
    GreedyRange(base, n);
    GreedyDisjoint(base, n);
    if n > 0 { AlignedDown(base, LargestOrder(n, MAX_ORDER), MAX_ORDER); }
    GreedyAligned(base, n);
    GreedyOrders(base, n);
  }

  ghost predicate AllEmpty(lists: seq<seq<nat>>) {
    |lists| == MAX_ORDER + 1 && forall k | 0 <= k < |lists| :: lists[k] == []
  }

  /** The counter does drift: on a region of two pages, allocating one page and freeing it leaves the
      single block of two pages listed, and the counter at one, so a request for two is refused. */
  lemma DriftExample(none: seq<seq<nat>>)
    requires AllEmpty(none)
    ensures var lists := GreedyLists(none, 0, 2);
            && FirstOrder(lists, 0) == 1
            && var taken := AllocLists(lists, 0);
            && MergeUp(taken, 0, 0).order == 1
            && FreeLists(taken, 0, 0) == lists
            && U32(U32(2 - 1) + 2 * 1 - Pow2(MergeUp(taken, 0, 0).order)) == 1
  {
    hide GreedyLists, MergeUp, FreeLists, AllocLists;
    DriftInit(none);
    DriftTaken(none);
    DriftFreed(none);
    DriftCounter();
  }

  lemma DriftCounter()
    ensures U32(U32(2 - 1) + 2 * 1 - Pow2(1)) == 1
  {
    assert Pow2(1) == 2 * Pow2(0);
  }

  lemma DriftInit(none: seq<seq<nat>>)
    requires AllEmpty(none)
    ensures GreedyLists(none, 0, 2) == none[1 := [0]]
  {
    hide GreedyLists;
    LargestOrderBelow(2, 1, MAX_ORDER);
    GreedyListsStep(none, 0, 2);
    assert [0] + none[1] == [0];
    GreedyListsStep(Push(none, 1, 0), 2, 0);
  }

  lemma DriftTaken(none: seq<seq<nat>>)
    requires AllEmpty(none)
    ensures FirstOrder(none[1 := [0]], 0) == 1 && AllocLists(none[1 := [0]], 0) == none[0 := [1]]
  {
    hide SplitDown;
    var lists := none[1 := [0]];
    FirstOrderStep(lists, 0);
    assert lists[1][1..] == [] && [1] + none[0] == [1] && lists[1 := []] == none;
    SplitDownStep(none, 0, 1, 0);
    SplitDownStep(none[0 := [1]], 0, 0, 0);
    assert Push(none, 0, 1) == none[0 := [1]];
  }

  lemma WithoutOnly(b: nat)
    ensures Without<nat>([b], b) == []
  {
  }

  lemma DriftFreed(none: seq<seq<nat>>)
    requires AllEmpty(none)
    ensures MergeUp(none[0 := [1]], 0, 0).order == 1 && FreeLists(none[0 := [1]], 0, 0) == none[1 := [0]]
  {
    hide MergeUp, FreeLists, Xor;
    var taken := none[0 := [1]];
    XorOne(0);
    MergeUpStep(taken, 0, 0);
    WithoutOnly(1);
    assert taken[0 := []] == none;
    MergeUpStep(none, 0, 1);
    FreeListsIs(taken, 0, 0);
    assert [0] + none[1] == [0] && Push(none, 1, 0) == none[1 := [0]];
  }

  // ----- the counter wraps around -----

  /** Three legal calls on a region of five pages make the counter wrap around, although no page is free twice:
      two pages are handed out, taken back and merged, and then a block of four is handed out for three. From
      there on a request for more than 2^31 pages is let through, and its order is looked for without end. */
  method WrapReached(n: nat) returns (pmm: BuddyPmm, last: Answer)
    requires 0x8000_0000 < n < 0x1_0000_0000
    ensures pmm.Valid() && pmm.managed == Range(0, 5) && pmm.nrFree == 0xffff_ffff && last.Hangs?
  {
    hide Inv, Outstanding, AllocLists, FirstOrder, Log2Ceil, U32, Pow2, AllAligned, FullyMerged, Range, GreedyLists,
         MergeUp, FreeLists;
    pmm := FiveOfWhichThree();
    WrapOrders();
    FivePages(EMPTY);
    var r := pmm.AllocPages(3);
    last := pmm.AllocPages(n);
  }

  const EMPTY: seq<seq<nat>> := seq(MAX_ORDER + 1, _ => [])

  /** The run up to the third call: all five pages are free again, and the counter says three. */
  method FiveOfWhichThree() returns (pmm: BuddyPmm)
    ensures fresh(pmm) && fresh(pmm.pages) && pmm.Valid() && pmm.managed == Range(0, 5) && pmm.nrFree == 3
    ensures pmm.freeLists == EMPTY[2 := [0]][0 := [4]]
  {
    hide Inv, Outstanding, GreedyLists, Greedy, MergeUp, FreeLists, AllocLists, FirstOrder, Log2Ceil, U32, Pow2,
         AllAligned, FullyMerged, ChunksStarted, Xor, AreBuddies, Range;
    var pages := new Page[1024](_ => Page(0, true, false, 0));
    WrapOrders();
    pmm := new BuddyPmm(pages);
    assert pmm.freeLists == EMPTY;
    FivePages(EMPTY);
    pmm.InitMemmap(0, 5);
    var r := pmm.AllocPages(2);
    pmm.FreePagesAt(0, 2);
  }

  lemma WrapOrders()
    ensures Aligned(1024, MAX_ORDER) && Pow2(1) == 2 && Pow2(2) == 4 && Log2Ceil(2) == 1 && Log2Ceil(3) == 2
    ensures U32(0 + 5) == 5 && U32(5 - 2) == 3 && U32(3 + 2 * 2 - 4) == 3 && U32(3 - 4) == 0xffff_ffff
    ensures {} + Range(0, 5) == Range(0, 5)
  {
    hide U32;
    assert Pow2(1) == 2 * Pow2(0) && Pow2(2) == 2 * Pow2(1);
    Log2CeilUnique(2, 1);
    Log2CeilUnique(3, 2);
    WrapWords();
    WholeChunk();
  }

  lemma WrapWords()
    ensures U32(0 + 5) == 5 && U32(5 - 2) == 3 && U32(3 + 2 * 2 - 4) == 3 && U32(3 - 4) == 0xffff_ffff
  {
  }

  /** The lists of the five pages: a block of four and a single page; the first two pages taken; and given back. */
  lemma FivePages(none: seq<seq<nat>>)
    requires AllEmpty(none)
    ensures var lists := none[2 := [0]][0 := [4]];
            var taken := none[1 := [2]][0 := [4]];
            && GreedyLists(none, 0, 5) == lists
            && FirstOrder(lists, 1) == 2 && FirstOrder(lists, 2) == 2 && AllocLists(lists, 1) == taken
            && MergeUp(taken, 0, 1).order == 2 && FreeLists(taken, 0, 1) == lists
  {
    hide GreedyLists, MergeUp, FreeLists, AllocLists;
    FiveInit(none);
    FiveTaken(none);
    FiveFreed(none);
  }

  lemma FiveInit(none: seq<seq<nat>>)
    requires AllEmpty(none)
    ensures GreedyLists(none, 0, 5) == none[2 := [0]][0 := [4]]
  {
    hide GreedyLists;
    assert Pow2(1) == 2 && Pow2(2) == 4 && Pow2(3) == 8;
    LargestOrderBelow(5, 2, MAX_ORDER);
    GreedyListsStep(none, 0, 5);
    assert [0] + none[2] == [0];
    LargestOrderBelow(1, 0, MAX_ORDER);
    GreedyListsStep(Push(none, 2, 0), 4, 1);
    assert [4] + none[0] == [4];
    GreedyListsStep(Push(Push(none, 2, 0), 0, 4), 5, 0);
  }

  lemma FiveTaken(none: seq<seq<nat>>)
    requires AllEmpty(none)
    ensures var lists := none[2 := [0]][0 := [4]];
            FirstOrder(lists, 1) == 2 && FirstOrder(lists, 2) == 2 && AllocLists(lists, 1) == none[1 := [2]][0 := [4]]
  {
    hide SplitDown;
    var lists := none[2 := [0]][0 := [4]];
    FirstOrderStep(lists, 1);
    FirstOrderStep(lists, 2);
    assert Pow2(1) == 2;
    var rest := none[0 := [4]];
    assert lists[2][1..] == [] && lists[2 := []] == rest && [2] + rest[1] == [2];
    SplitDownStep(rest, 0, 2, 1);
    SplitDownStep(rest[1 := [2]], 0, 1, 1);
    assert rest[1 := [2]] == none[1 := [2]][0 := [4]];
  }

  lemma FiveFreed(none: seq<seq<nat>>)
    requires AllEmpty(none)
    ensures var taken := none[1 := [2]][0 := [4]];
            MergeUp(taken, 0, 1).order == 2 && FreeLists(taken, 0, 1) == none[2 := [0]][0 := [4]]
  {
    hide MergeUp, FreeLists, Xor;
    var taken, rest := none[1 := [2]][0 := [4]], none[0 := [4]];
    TwoAndZero();
    MergeUpStep(taken, 0, 1);
    WithoutOnly(2);
    assert taken[1 := []] == rest;
    MergeUpStep(rest, 0, 2);
    FreeListsIs(taken, 0, 1);
    assert [0] + rest[2] == [0] && Push(rest, 2, 0) == none[2 := [0]][0 := [4]];
  }

  lemma TwoAndZero()
    ensures Pow2(1) == 2 && Xor(0, Pow2(1)) == 2 && AreBuddies(0, 2, 1)
  {
    hide Xor;
    XorFlipsBit(0, 1);
    assert Pow2(1) == 2;
  }

  lemma WholeChunk()
    ensures Aligned(1024, MAX_ORDER)
  {
  }

  // ----- which block is handed out -----

  /** A block that is given back and merges with nothing is handed out by the next request for as many pages,
      whatever else is listed, and then everything is as before the two calls but for its mark. */
  method FreedIsNext(pmm: BuddyPmm, base: nat, n: nat) returns (r: Answer)
    requires pmm.Valid() && base in pmm.Live() && n == Pow2(pmm.Live()[base]) && U32(pmm.nrFree + n) >= n
    requires var k := pmm.Live()[base];
             var buddy := Xor(base, Pow2(k));
             k == MAX_ORDER || !(AreBuddies(base, buddy, k) && k < |pmm.freeLists| && buddy in pmm.freeLists[k])
    modifies pmm, pmm.pages
    ensures pmm.Valid() && r == Granted(base)
    ensures pmm.freeLists == old(pmm.freeLists) && pmm.Live() == old(pmm.Live())
  {
    hide Inv, Outstanding, FreeLists, AllocLists, FirstOrder, Log2Ceil, U32, AllAligned, FullyMerged, Xor, AreBuddies,
         MergeUp, Pow2;
    ghost var lists, k := pmm.freeLists, pmm.Live()[base];
    OrderOf(pmm.Now(), base, k);
    MergesWhen(lists, base, k);
    FreedFirst(lists, base, k);
    pmm.FreePagesAt(base, n);
    FirstTaken(lists[k := [base] + lists[k]], k);
    ListedAgain(lists, base, k);
    r := pmm.AllocPages(n);
  }

  lemma OrderOf(s: State, h: nat, k: nat)
    requires Inv(s, NO_HAND) && h in Outstanding(s, NO_HAND) && k == Outstanding(s, NO_HAND)[h]
    ensures k <= MAX_ORDER && |s.lists| == MAX_ORDER + 1 && Log2Ceil(Pow2(k)) == k && Pow2(k) > 0
  {
    hide ListsOk, MarksOk, NotListed, HeadsOk, Pow2;
    ListCount(s, NO_HAND);
    if k > 0 { Pow2Double(k - 1); }
    Log2CeilUnique(Pow2(k), k);
  }

  lemma ListedAgain(lists: seq<seq<nat>>, a: nat, k: nat)
    requires k < |lists|
    ensures var listed := lists[k := [a] + lists[k]]; listed[k][0] == a && listed[k := listed[k][1..]] == lists
  {
  }

  /** The largest blocks of a new region are handed out from its end down, before any that were free already. */
  method LargestFirst(pmm: BuddyPmm, base: nat, n: nat) returns (got: seq<nat>)
    requires pmm.Valid() && 0 < n && base + n <= pmm.pages.Length && U32(pmm.nrFree + n) >= n
    requires forall i: nat | base <= i < base + n :: i !in pmm.managed && pmm.pages[i].reserved
    modifies pmm, pmm.pages
    ensures |got| == n / 1024 && forall i | 0 <= i < |got| :: got[i] == base + (|got| - 1 - i) * 1024
  {
    hide Inv, Outstanding, GreedyLists, Greedy, AllocLists, FirstOrder, Log2Ceil, U32, AllAligned, FullyMerged, Pow2,
         ChunksStarted, Descending;
    ListCount(pmm.Now(), NO_HAND);
    ghost var top := pmm.freeLists[MAX_ORDER];
    LargestRequest();
    LargestDown(pmm.freeLists, base, n);
    pmm.InitMemmap(base, n);
    ghost var q := n / LARGEST;
    DescendingLength(base, q);
    got := [];
    for i := 0 to n / 1024
      invariant pmm.Valid() && |pmm.freeLists| == MAX_ORDER + 1 && pmm.nrFree >= (q - i) * LARGEST
      invariant pmm.freeLists[MAX_ORDER] == Descending(base, q)[i..] + top
      invariant |got| == i && forall j | 0 <= j < i :: got[j] == base + (q - 1 - j) * LARGEST
    {
      DescendingAt(base, q, i);
      FirstTaken(pmm.freeLists, MAX_ORDER);
      CounterWraps(pmm.nrFree, MAX_ORDER);
      var r := pmm.AllocPages(1024);
      got := got + [r.head];
    }
  }

  lemma LargestRequest()
    ensures Log2Ceil(LARGEST) == MAX_ORDER && Pow2(MAX_ORDER) == LARGEST
  {
    Pow2Values();
    Pow2Double(9);
    Log2CeilUnique(LARGEST, MAX_ORDER);
  }
}
