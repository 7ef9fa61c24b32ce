/** The buddy page allocator over the array of page descriptors. */
module Buddy {
  import opened Bits
  import opened Pages
  import opened Sequences
  import opened BuddyState
  import opened BuddyTheory
  import opened Wrappers

  /** The smallest order whose block holds x pages. */
  function Log2Ceil(x: nat): (k: nat)
    ensures x <= Pow2(k) && (k > 0 ==> Pow2(k - 1) < x)
  {
    if x <= 1 then 0 else 1 + Log2Ceil((x + 1) / 2)
  }

  lemma Log2CeilUnique(x: nat, k: nat)
    requires x <= Pow2(k) && (k > 0 ==> Pow2(k - 1) < x)
    ensures k == Log2Ceil(x)
  {
    var j := Log2Ceil(x);
    if j < k { Pow2Monotone(j, k - 1); }
    if k < j { Pow2Monotone(k, j - 1); }
  }

  /** 1U << order: the processor takes the count of a 32-bit shift modulo 32. */
  function Shift(order: nat): nat {
    Pow2(order % 32)
  }

  /** log2_ceil: the order of the smallest block that holds x pages; None when its loop does not end, as no number
      of passes makes the shift reach x. */
  method ComputeLog2Ceil(x: nat) returns (order: Option<nat>)
    ensures order.Some? ==> order.value == Log2Ceil(x) && order.value <= 31
    ensures order.None? <==> forall k: nat :: Shift(k) < x
    ensures order.None? <==> x > 0x8000_0000
  {
    hide Pow2, Log2Ceil;
    LoopEnds(x);
    Pow2Values();
    var k := 0;
    while Shift(k) < x
      invariant k <= 31
      invariant k > 0 ==> Shift(k - 1) < x
      decreases 31 - k
    {
      if k == 31 {
        return None;  // the next passes compare with the same 32 numbers again
      }
      k := k + 1;
    }
    Log2CeilUnique(x, k);
    order := Some(k);
  }

  /** Some pass of the loop of log2_ceil is its last exactly when x is at most 2^31. */
  lemma LoopEnds(x: nat)
    ensures (exists k: nat :: Shift(k) >= x) <==> x <= 0x8000_0000
  {
    hide Pow2;
    Pow2Values();
    assert Shift(31) == 0x8000_0000;
    forall k: nat ensures Shift(k) <= 0x8000_0000 { Pow2Monotone(k % 32, 31); }
  }

  lemma LargeOrder(x: nat)
    ensures x > 0x8000_0000 ==> Log2Ceil(x) > MAX_ORDER
  {
    hide Pow2;
    Pow2Values();
    if Log2Ceil(x) <= MAX_ORDER { Pow2Monotone(Log2Ceil(x), 31); }
  }

  /** What buddy_alloc_pages comes to: a block, NULL, or no end. */
  datatype Answer = Granted(head: nat) | Refused | Hangs

  /** The order init_memmap starts its search at, for a region of n pages. */
  method MaxOrder(n: nat) returns (order: nat)
    requires n > 0
    ensures order <= MAX_ORDER
    ensures forall remaining | 1 <= remaining <= n ::
              LargestOrder(remaining, order) == LargestOrder(remaining, MAX_ORDER)
  {
    order := 0;
    while Pow2(order + 1) <= n && order < MAX_ORDER
      invariant order <= MAX_ORDER
    {
      order := order + 1;
    }
    forall remaining | 1 <= remaining <= n
      ensures LargestOrder(remaining, order) == LargestOrder(remaining, MAX_ORDER)
    {
      MaxOrderSuits(n, remaining, order);
    }
  }

  /** The largest order from maxOrder down whose block fits into what remains. */
  method FitOrder(remaining: nat, maxOrder: nat) returns (current: nat)
    requires remaining > 0
    ensures current == LargestOrder(remaining, maxOrder)
  {
    current := maxOrder;
    while current > 0 && Pow2(current) > remaining
      invariant current <= maxOrder
      invariant LargestOrder(remaining, current) == LargestOrder(remaining, maxOrder)
    {
      current := current - 1;
    }
  }

  class BuddyPmm {
    const pages: array<Page>
    var freeLists: seq<seq<nat>>  // buddy_free_lists, first entry of the list first
    var nrFreeOf: seq<nat>        // buddy_nr_free
    var nrFree: nat               // nr_free, an unsigned int
    ghost var blocks: map<nat, nat>
    ghost var managed: set<nat>
    ghost var absorbed: nat       // pages of the buddies absorbed by merges so far

    ghost function Now(): State
      reads this, pages
    {
      State(pages[..], freeLists, blocks, managed)
    }

    ghost predicate CountsOk()
      reads this
    {
      |nrFreeOf| == |freeLists| && forall k | 0 <= k < |nrFreeOf| :: nrFreeOf[k] == |freeLists[k]|
    }

    ghost predicate Shape()
      reads this
    {
      Aligned(pages.Length, MAX_ORDER) && pages.Length < 0xffff_ffff && CountsOk()
    }

    ghost predicate Valid()
      reads this, pages
    {
      && Shape()
      && Inv(Now(), NO_HAND)
      && nrFree == U32(FreePages(freeLists) - absorbed)
    }

    /** The blocks handed out and not yet taken back. */
    ghost function Live(): map<nat, nat>
      requires Valid()
      reads this, pages
    {
      Outstanding(Now(), NO_HAND)
    }

    /** buddy_init, over page descriptors that carry no free mark. */
    constructor (pages: array<Page>)
      requires Aligned(pages.Length, MAX_ORDER) && pages.Length < 0x1_0000_0000
      requires forall i | 0 <= i < pages.Length :: !pages[i].free
      ensures Valid() && this.pages == pages && blocks == map[] && managed == {} && absorbed == 0
      ensures freeLists == seq(MAX_ORDER + 1, _ => []) && nrFree == 0
    {
      this.pages := pages;
      freeLists := seq(MAX_ORDER + 1, _ => []);
      nrFreeOf := seq(MAX_ORDER + 1, _ => 0);
      nrFree := 0;
      blocks, managed, absorbed := map[], {}, 0;
      new;
      EmptyTotal(MAX_ORDER + 1, MAX_ORDER + 1);
    }

    /** list_add to the list of order k, with its counter. */
    method ListAdd(k: nat, h: nat)
      requires CountsOk() && k < |freeLists| && |freeLists[k]| < 0xffff_ffff
      modifies this`freeLists, this`nrFreeOf
      ensures CountsOk() && freeLists == Push(old(freeLists), k, h)
    {
      freeLists := freeLists[k := [h] + freeLists[k]];
      nrFreeOf := nrFreeOf[k := U32(nrFreeOf[k] + 1)];
    }

    /** list_del of a block on the list of order k, with its counter. */
    method ListDel(k: nat, h: nat)
      requires CountsOk() && k < |freeLists| && h in freeLists[k] && NoDup(freeLists[k])
               && |freeLists[k]| <= 0xffff_ffff
      modifies this`freeLists, this`nrFreeOf
      ensures CountsOk() && freeLists == old(freeLists)[k := Without(old(freeLists)[k], h)]
    {
      AboutWithout<nat>(freeLists[k], h);
      freeLists := freeLists[k := Without(freeLists[k], h)];
      nrFreeOf := nrFreeOf[k := U32(nrFreeOf[k] - 1)];
    }

    /** One pass of the merge loop: absorb the listed buddy of the block in hand. */
    method Absorb(head: nat, buddy: nat, order: nat) returns (head': nat)
      requires Shape() && Inv(Now(), head) && head in blocks && blocks[head] == order && head < pages.Length
      requires pages[head].property <= order && pages[head].free
      requires order < MAX_ORDER && AreBuddies(head, buddy, order) && buddy in freeLists[order]
      requires nrFree == U32(FreePages(freeLists) + Pow2(order) - absorbed)
      modifies this
      ensures Shape() && Inv(Now(), head') && Now() == Merge(old(Now()), head, buddy, order)
      ensures head' == Min(head, buddy) && absorbed == old(absorbed) + Pow2(order)
      ensures nrFree == U32(FreePages(freeLists) + Pow2(order + 1) - absorbed)
      ensures FreePages(freeLists) == old(FreePages(freeLists)) - Pow2(order) && Pow2(order + 1) == 2 * Pow2(order)
      ensures Outstanding(Now(), head') == Outstanding(old(Now()), head)
      ensures head' in blocks && blocks[head'] == order + 1
      ensures head' < pages.Length && pages[head'].free && pages[head'].property <= order
    {
      hide Tiling, ListsOk, MarksOk, HeadsOk, NotListed, FreePages, Without, Pow2, U32, Aligned;
      BlockBounds(Now(), head, head);
      ListedHead(Now(), head, order, buddy);
      U32Add(FreePages(freeLists) + Pow2(order) - absorbed, -(Pow2(order) as int));
      Pow2Double(order);
      ListLength(Now(), head, order);
      MergeKeeps(Now(), head, buddy, order);
      MergeLive(Now(), head, buddy, order);
      AboutWithout<nat>(freeLists[order], buddy);
      ShrinkTotal(freeLists, order, Without<nat>(freeLists[order], buddy));
      ListDel(order, buddy);
      nrFree := U32(nrFree - Pow2(order));
      head' := head;
      if head > buddy {
        head' := buddy;
      }
      blocks := (blocks - {Max(head, buddy)})[Min(head, buddy) := order + 1];
      absorbed := absorbed + Pow2(order);
      assert Now() == Merge(old(Now()), head, buddy, order);
    }

    /** buddy_free_pages. */
    method FreePagesAt(base: nat, n: nat)
      requires Valid() && base in Live() && n == Pow2(Live()[base])
      modifies this, pages
      ensures Valid()
      ensures freeLists == FreeLists(old(freeLists), base, old(Live()[base]))
      ensures Live() == old(Live()) - {base} && managed == old(managed)
      ensures var g := MergeUp(old(freeLists), base, old(Live()[base]));
              && absorbed == old(absorbed) + Pow2(g.order) - n
              && nrFree == U32(old(nrFree) + 2 * n - Pow2(g.order))
      ensures nrFree == U32(old(nrFree) + n) <==>
              var k := old(Live()[base]);
              var buddy := Xor(base, Pow2(k));
              k == MAX_ORDER || !(AreBuddies(base, buddy, k) && k < |old(freeLists)| && buddy in old(freeLists)[k])
      ensures old(FullyMerged(freeLists)) ==> FullyMerged(freeLists)
      ensures old(AllAligned(blocks)) ==> AllAligned(blocks)
    {
      hide Tiling, ListsOk, MarksOk, HeadsOk, NotListed, FreePages, Without, Pow2, Xor, And, Aligned, U32, MergeTest,
          AreBuddies, FullyMerged, AllAligned,
           MergeUp, FreeLists, Push, Outstanding;
      LiveBlock(Now(), base);
      BlockBounds(Now(), NO_HAND, base);
      var head := base;
      var order := pages[head].property;
      ghost var order0 := order;
      TakeBackKeeps(Now(), base);
      TakeBackLive(Now(), base);
      pages[head] := pages[head].(free := true);
      assert Now() == TakeBack(old(Now()), base);
      U32Add(FreePages(freeLists) - absorbed, n);
      nrFree := U32(nrFree + n);
      while order < MAX_ORDER
        invariant order0 <= order <= MAX_ORDER
        invariant Shape() && Inv(Now(), head) && managed == old(managed)
        invariant head in blocks && blocks[head] == order && head < pages.Length
        invariant pages[head].property <= order && pages[head].free
        invariant |freeLists| == MAX_ORDER + 1
        invariant MergeUp(freeLists, head, order) == MergeUp(old(freeLists), base, order0)
        invariant absorbed == old(absorbed) + Pow2(order) - Pow2(order0)
        invariant nrFree == U32(FreePages(freeLists) + Pow2(order) - absorbed)
        invariant FreePages(freeLists) + Pow2(order) == FreePages(old(freeLists)) + n
        invariant old(AllAligned(blocks)) ==> AllAligned(blocks)
        invariant Outstanding(Now(), head) == old(Live()) - {base}
        decreases MAX_ORDER - order
      {
        var buddy := Xor(head, Pow2(order));
        AlignedDown(pages.Length, order + 1, MAX_ORDER);
        XorBelow(head, order, pages.Length);
        MergeTestSound(Now(), head, order);
        MergeUpStep(freeLists, head, order);
        if MergeTest(pages[..], head, buddy, order) {
          if AllAligned(blocks) { MergeAligned(Now(), head, buddy, order); }
          head := Absorb(head, buddy, order);
          order := order + 1;
        } else {
          break;
        }
      }
      MergeUpStep(freeLists, head, order);
      assert MergeUp(freeLists, head, order) == Grown(freeLists, head, order);
      FreeListsIs(old(freeLists), base, order0);
      U32Add(FreePages(old(freeLists)) - old(absorbed), 2 * n - Pow2(order));
      MergesWhen(old(freeLists), base, order0);
      CounterRight(old(nrFree), order0, order);
      HandNotListed(Now(), head, order);
      if FullyMerged(old(freeLists)) { FreeMerged(old(freeLists), base, order0); }
      Relist(head, order);
    }

    /** The end of free: record the order and list the grown block. */
    method Relist(head: nat, order: nat)
      requires Shape() && Inv(Now(), head) && head in blocks && blocks[head] == order && head < pages.Length
               && pages[head].free
      requires nrFree == U32(FreePages(freeLists) + Pow2(order) - absorbed)
      modifies this`freeLists, this`nrFreeOf, pages
      ensures Valid() && order <= MAX_ORDER && order < |old(freeLists)|
               && freeLists == Push(old(freeLists), order, head)
      ensures Live() == old(Outstanding(Now(), head))
    {
      hide Tiling, ListsOk, MarksOk, NotListed, FreePages, Pow2;
      BlockBounds(Now(), head, head);
      ListLength(Now(), head, order);
      PushTotal(freeLists, order, head);
      ListKeeps(Now(), head, order);
      ListLive(Now(), head, order);
      pages[head] := pages[head].(property := order);
      ListAdd(order, head);
      assert Now() == List(old(Now()), head, order);
    }

    /** One pass of the split loop: list the upper half of the block in hand. */
    method Halve(head: nat, order: nat)
      requires Shape() && Inv(Now(), head) && head in blocks && blocks[head] == order + 1
      requires nrFree == U32(FreePages(freeLists) - absorbed)
      modifies this, pages
      ensures Shape() && Inv(Now(), head) && head in blocks && blocks[head] == order
      ensures order < |old(freeLists)| == |freeLists| && freeLists == Push(old(freeLists), order, head + Pow2(order))
      ensures managed == old(managed) && absorbed == old(absorbed)
      ensures nrFree == U32(FreePages(freeLists) - absorbed)
      ensures FreePages(freeLists) == old(FreePages(freeLists)) + Pow2(order)
      ensures Outstanding(Now(), head) == old(Outstanding(Now(), head))
      ensures old(AllAligned(blocks)) ==> AllAligned(blocks)
    {
      hide Tiling, ListsOk, MarksOk, HeadsOk, NotListed, FreePages, Pow2, U32, Aligned, AllAligned;
      var buddy := head + Pow2(order);
      BlockBounds(Now(), head, head);
      SplitKeeps(Now(), head, order);
      SplitHead(Now(), head, order);
      SplitLive(Now(), head, order);
      if AllAligned(blocks) { SplitAligned(Now(), head, order); }
      ListLength(Now(), head, order);
      PushTotal(freeLists, order, buddy);
      U32Add(FreePages(freeLists) - absorbed, Pow2(order));
      pages[buddy] := pages[buddy].(property := order).(free := true);
      ListAdd(order, buddy);
      nrFree := U32(nrFree + Pow2(order));
      blocks := blocks[head := order][buddy := order];
      assert Now() == Split(old(Now()), head, order);
    }

    /** Take the first block off list k. */
    method Unlist(k: nat) returns (head: nat)
      requires Valid() && k < |freeLists| && freeLists[k] != []
      modifies this`freeLists, this`nrFreeOf, this`nrFree
      ensures head == old(freeLists)[k][0] && freeLists == old(freeLists)[k := old(freeLists)[k][1..]]
      ensures Shape() && Inv(Now(), head) && head in blocks && blocks[head] == k
      ensures nrFree == U32(FreePages(freeLists) - absorbed)
      ensures FreePages(freeLists) == old(FreePages(freeLists)) - Pow2(k)
      ensures Outstanding(Now(), head) == old(Live())
    {
      hide Tiling, ListsOk, MarksOk, HeadsOk, NotListed, FreePages, Pow2, U32, Aligned;
      head := freeLists[k][0];
      PopKeeps(Now(), k);
      PopLive(Now(), k);
      ListLength(Now(), NO_HAND, k);
      ShrinkTotal(freeLists, k, freeLists[k][1..]);
      U32Add(FreePages(freeLists) - absorbed, -(Pow2(k) as int));
      ListDel(k, head);
      nrFree := U32(nrFree - Pow2(k));
      assert Now() == Pop(old(Now()), k);
    }

    /** The end of alloc: record the order and mark the block handed out. */
    method Deliver(head: nat, order: nat)
      requires Shape() && Inv(Now(), head) && head in blocks && blocks[head] == order
      requires nrFree == U32(FreePages(freeLists) - absorbed)
      modifies pages
      ensures Valid() && Live() == old(Outstanding(Now(), head))[head := order]
      ensures head !in old(Outstanding(Now(), head)) && head + Pow2(order) <= pages.Length
    {
      hide Tiling, ListsOk, MarksOk, HeadsOk, NotListed, FreePages, U32, Aligned;
      BlockBounds(Now(), head, head);
      HandOutKeeps(Now(), head, order);
      HandOutLive(Now(), head, order);
      BlockRoom(Now(), head, head);
      pages[head] := pages[head].(property := order).(free := false);
      assert Now() == HandOut(old(Now()), head, order);
    }

    /** buddy_alloc_pages. The test against nr_free compares the pages asked for, and a whole block is taken from
        it, so that it wraps around when the block is larger. */
    method AllocPages(n: nat) returns (r: Answer)
      requires Valid()
      modifies this, pages
      ensures Valid() && managed == old(managed) && absorbed == old(absorbed)
      ensures r.Granted? <==> 0 < n <= old(nrFree) && FirstOrder(old(freeLists), Log2Ceil(n)) <= MAX_ORDER
      ensures r.Hangs? <==> 0x8000_0000 < n <= old(nrFree)
      ensures !r.Granted? ==> Now() == old(Now()) && nrFree == old(nrFree)
      ensures r.Granted? ==>
                var k := Log2Ceil(n);
                && k <= MAX_ORDER && freeLists == AllocLists(old(freeLists), k)
                && r.head == old(freeLists)[FirstOrder(old(freeLists), k)][0]
                && r.head !in old(Live()) && Live() == old(Live())[r.head := k]
                && nrFree == U32(old(nrFree) - Pow2(k))
                && (nrFree > old(nrFree) <==> Pow2(k) > old(nrFree))
      ensures old(FullyMerged(freeLists)) ==> FullyMerged(freeLists)
      ensures old(AllAligned(blocks)) ==> AllAligned(blocks)
    {
      hide Tiling, ListsOk, MarksOk, HeadsOk, NotListed, FreePages, Pow2, U32, Aligned, AllAligned, FullyMerged,
           AllocLists, SplitDown, FirstOrder, Push, Outstanding, Log2Ceil;
      ListCount(Now(), NO_HAND);
      FirstOrderStep(freeLists, Log2Ceil(n));
      if n == 0 {
        return Refused;
      }
      if n > nrFree {
        return Refused;
      }
      LargeOrder(n);
      var order := ComputeLog2Ceil(n);
      if order.None? {
        return Hangs;
      }
      var required := order.value;
      if required > MAX_ORDER {
        return Refused;
      }
      var current := required;
      while current <= MAX_ORDER
        invariant required <= current <= MAX_ORDER + 1
        invariant FirstOrder(freeLists, current) == FirstOrder(old(freeLists), required)
        invariant Valid() && Now() == old(Now()) && nrFree == old(nrFree) && absorbed == old(absorbed)
        decreases MAX_ORDER + 1 - current
      {
        FirstOrderStep(freeLists, current);
        if nrFreeOf[current] > 0 {
          var head := TakeAndSplit(current, required);
          CounterWraps(old(nrFree), required);
          return Granted(head);
        }
        current := current + 1;
      }
      FirstOrderStep(freeLists, current);
      r := Refused;
    }

    method TakeAndSplit(found: nat, required: nat) returns (head: nat)
      requires Valid() && required <= found <= MAX_ORDER && |freeLists| == MAX_ORDER + 1
      requires found == FirstOrder(freeLists, required) && freeLists[found] != []
      modifies this, pages
      ensures Valid() && managed == old(managed) && absorbed == old(absorbed)
      ensures freeLists == AllocLists(old(freeLists), required) && head == old(freeLists)[found][0]
      ensures head !in old(Live()) && Live() == old(Live())[head := required]
      ensures nrFree == U32(old(nrFree) - Pow2(required))
      ensures old(FullyMerged(freeLists)) ==> FullyMerged(freeLists)
      ensures old(AllAligned(blocks)) ==> AllAligned(blocks)
    {
      hide Tiling, ListsOk, MarksOk, HeadsOk, NotListed, FreePages, Pow2, U32, Aligned, AllAligned, FullyMerged,
           SplitDown, FirstOrder, Push, Outstanding;
      if FullyMerged(freeLists) { AllocMerged(freeLists, required); }
      head := Unlist(found);
      var current := found;
      while current > required
        invariant required <= current <= found
        invariant Shape() && Inv(Now(), head) && managed == old(managed) && absorbed == old(absorbed)
        invariant head in blocks && blocks[head] == current && |freeLists| == MAX_ORDER + 1
        invariant SplitDown(freeLists, head, current, required) == AllocLists(old(freeLists), required)
        invariant nrFree == U32(FreePages(freeLists) - absorbed)
        invariant FreePages(freeLists) + Pow2(current) == FreePages(old(freeLists))
        invariant Outstanding(Now(), head) == old(Live())
        invariant old(AllAligned(blocks)) ==> AllAligned(blocks)
      {
        SplitDownStep(freeLists, head, current, required);
        current := current - 1;
        Pow2Double(current);
        Halve(head, current);
      }
      SplitDownStep(freeLists, head, current, required);
      U32Add(FreePages(old(freeLists)) - absorbed, -(Pow2(required) as int));
      Deliver(head, required);
    }

    /** List a new block of order k on pages that belong to no block. */
    method Establish(head: nat, k: nat)
      requires Shape() && Inv(Now(), NO_HAND) && k <= MAX_ORDER && head + Pow2(k) <= pages.Length
      requires forall i: nat | head <= i < head + Pow2(k) :: i !in managed
      modifies this`freeLists, this`nrFreeOf, this`blocks, this`managed, pages
      ensures Shape() && Inv(Now(), NO_HAND) && |old(freeLists)| == MAX_ORDER + 1
      ensures blocks == old(blocks)[head := k] && managed == old(managed) + Range(head, Pow2(k))
      ensures freeLists == Push(old(freeLists), k, head) && |freeLists| == MAX_ORDER + 1
      ensures FreePages(freeLists) == old(FreePages(freeLists)) + Pow2(k)
      ensures Outstanding(Now(), NO_HAND) == old(Outstanding(Now(), NO_HAND))
      ensures forall i | 0 <= i < pages.Length && i != head :: pages[i] == old(pages[i])
    {
      hide Tiling, ListsOk, MarksOk, HeadsOk, NotListed, FreePages, Aligned;
      ListCount(Now(), NO_HAND);
      AddBlockKeeps(Now(), head, k);
      AddLive(Now(), head, k);
      ListLength(Now(), NO_HAND, k);
      PushTotal(freeLists, k, head);
      pages[head] := pages[head].(property := k).(free := true);
      ListAdd(k, head);
      blocks := blocks[head := k];
      managed := managed + Range(head, Pow2(k));
      assert Now() == AddBlock(old(Now()), head, k);
    }

    /** The per-page loop of buddy_init_memmap: clear flags, property and ref. */
    method ClearPages(base: nat, n: nat)
      requires Valid() && base + n <= pages.Length
      requires forall i: nat | base <= i < base + n :: i !in managed && pages[i].reserved
      modifies pages
      ensures Shape() && Inv(Now(), NO_HAND) && Outstanding(Now(), NO_HAND) == old(Live())
      ensures forall i | base <= i < base + n :: pages[i] == Page(0, false, false, 0)
      ensures forall i | 0 <= i < pages.Length && !(base <= i < base + n) :: pages[i] == old(pages[i])
    {
      hide Tiling, ListsOk, MarksOk, HeadsOk, NotListed, Aligned, Outstanding;
      for p := base to base + n
        invariant Shape() && Inv(Now(), NO_HAND) && Outstanding(Now(), NO_HAND) == old(Live())
        invariant forall i | base <= i < p :: pages[i] == Page(0, false, false, 0)
        invariant forall i | 0 <= i < pages.Length && !(base <= i < p) :: pages[i] == old(pages[i])
      {
        ghost var s := Now();
        pages[p] := Page(0, false, false, 0);
        ResetKeeps(s, Now(), p);
      }
    }

    /** The block loop of buddy_init_memmap: blocks of the largest order that still fits. The source's
        break, and its fallback for leftover pages, are dead: nothing is left over. */
    method TileRegion(base: nat, n: nat, maxOrder: nat)
      requires Shape() && Inv(Now(), NO_HAND) && base + n <= pages.Length
      requires forall i: nat | base <= i < base + n :: i !in managed
      requires forall m | 1 <= m <= n :: LargestOrder(m, maxOrder) == LargestOrder(m, MAX_ORDER)
      modifies this`freeLists, this`nrFreeOf, this`blocks, this`managed, pages
      ensures Shape() && Inv(Now(), NO_HAND) && Outstanding(Now(), NO_HAND) == old(Outstanding(Now(), NO_HAND))
      ensures managed == old(managed) + Range(base, n) && blocks == old(blocks) + Greedy(base, n)
      ensures |old(freeLists)| == MAX_ORDER + 1 && freeLists == GreedyLists(old(freeLists), base, n)
      ensures FreePages(freeLists) == FreePages(old(freeLists)) + n
    {
      hide Tiling, ListsOk, MarksOk, HeadsOk, NotListed, FreePages, Aligned, Outstanding, Greedy, GreedyLists, Pow2,
          Push, LargestOrder, Range;
      ListCount(Now(), NO_HAND);
      var done: nat := 0;
      var remaining: nat := n;
      while remaining > 0
        invariant done + remaining == n
        invariant Shape() && Inv(Now(), NO_HAND) && Outstanding(Now(), NO_HAND) == old(Outstanding(Now(), NO_HAND))
        invariant |freeLists| == MAX_ORDER + 1
        invariant FreePages(freeLists) == FreePages(old(freeLists)) + done
        invariant managed == old(managed) + Range(base, done)
        invariant blocks + Greedy(base + done, remaining) == old(blocks) + Greedy(base, n)
        invariant GreedyLists(freeLists, base + done, remaining) == GreedyLists(old(freeLists), base, n)
        decreases remaining
      {
        GreedyListsStep(freeLists, base + done, remaining);
        var current := FitOrder(remaining, maxOrder);
        if Pow2(current) <= remaining {
          GreedyStep(blocks, base + done, remaining);
          Establish(base + done, current);
          done := done + Pow2(current);
          remaining := remaining - Pow2(current);
        } else {
          assert false;
        }
      }
      GreedyListsStep(freeLists, base + done, remaining);
    }

    /** buddy_init_memmap. */
    method InitMemmap(base: nat, n: nat)
      requires Valid() && 0 < n && base + n <= pages.Length
      requires forall i: nat | base <= i < base + n :: i !in managed && pages[i].reserved
      modifies this, pages
      ensures Valid() && Live() == old(Live()) && absorbed == old(absorbed)
      ensures managed == old(managed) + Range(base, n) && blocks == old(blocks) + Greedy(base, n)
      ensures |old(freeLists)| == MAX_ORDER + 1 && freeLists == GreedyLists(old(freeLists), base, n)
      ensures nrFree == U32(old(nrFree) + n)
      ensures old(managed) == {} ==> FullyMerged(freeLists)
      ensures old(FullyMerged(freeLists) && ChunksStarted(managed)) && Aligned(base, MAX_ORDER) ==>
                FullyMerged(freeLists) && ChunksStarted(managed)
      ensures old(AllAligned(blocks)) && Aligned(base, MAX_ORDER) ==> AllAligned(blocks)
    {
      hide Tiling, ListsOk, MarksOk, HeadsOk, NotListed, FreePages, Aligned, AllAligned, FullyMerged, Outstanding,
           Greedy, GreedyLists, U32, ChunksStarted;
      ListCount(Now(), NO_HAND);
      ClearPages(base, n);
      U32Add(FreePages(freeLists) - absorbed, n);
      nrFree := U32(nrFree + n);
      var maxOrder := MaxOrder(n);
      TileRegion(base, n, maxOrder);
      RegionAligned(old(blocks), base, n);
      if old(FullyMerged(freeLists) && ChunksStarted(managed)) && Aligned(base, MAX_ORDER) {
        ListedManaged(old(Now()));
        RegionMerged(old(freeLists), old(managed), base, n);
        RegionStarted(old(managed), managed, base, n);
      }
      if old(managed) == {} { EmptyState(old(Now())); GreedyMerged(old(freeLists), base, n); }
    }
  }
}
