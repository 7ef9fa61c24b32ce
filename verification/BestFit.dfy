/** The best-fit allocator: a list in address order, the smallest adequate block, merging on both sides. */
module BestFit {
  import opened Pages
  import opened Sequences
  import opened FreeBlocks
  import opened ListH
  import opened FreeArea
  import opened Wrappers

  /** The scan of best_fit_alloc_pages. */
  method FindBest(a: Area, n: nat) returns (page: Option<nat>, ghost best: nat)
    requires a.Walkable() && n > 0
    ensures page.None? <==> forall j | 0 <= j < |a.free| :: a.free[j].size < n || a.free[j].size > a.nrFree
    ensures page.Some? ==> IsBest(a.free, n, best) && page.value == a.free[best].base && a.free[best].size <= a.nrFree
  {
    hide Forward, After;
    page, best := None, 0;
    var minSize := a.nrFree + 1;
    a.Walk(0);
    var le := a.head.next;
    ghost var k := 0;
    while le != a.head
      invariant k <= |a.free| && le == After(a.ring, k) && (k == |a.free| <==> le == a.head)
      invariant page.None? ==> minSize == a.nrFree + 1
                               && forall j | 0 <= j < k :: a.free[j].size < n || a.free[j].size > a.nrFree
      invariant page.Some? ==>
                  && best < k && page.value == a.free[best].base && a.nrFree >= minSize == a.free[best].size >= n
                  && (forall j | 0 <= j < k && a.free[j].size >= n :: minSize <= a.free[j].size)
                  && (forall j | 0 <= j < best :: a.free[j].size < n || a.free[j].size > minSize)
      decreases |a.free| - k
    {
      a.Walk(k);
      a.Walk(k + 1);
      var p := le.id;
      if a.pages[p].property >= n && a.pages[p].property < minSize {
        page, best := Some(p), k;
        minSize := a.pages[p].property;
      }
      le := le.next;
      k := k + 1;
    }
  }

  /** best_fit_alloc_pages: NULL exactly when no block is adequate, otherwise the lowest-address block among
      those of least adequate size, its rest staying on the list in its place. When the best block is the one the
      tail path has linked to itself, and fits exactly, it is handed out without leaving the list. */
  method AllocPages(a: Area, n: nat) returns (r: Option<nat>, ghost k: nat)
    requires n > 0 && ((a.Valid() && Ordered(a.free)) || (a.Loose() && FitsLast(a.free, n)))
    modifies a, a.pages, a.head, a.links
    ensures a.managed == old(a.managed)
    ensures r.None? ==> a.free == old(a.free) && a.used == old(a.used) && a.nrFree == old(a.nrFree)
    ensures r.Some? ==> a.used == old(a.used) + Range(r.value, n) && a.nrFree == old(a.nrFree) - n
    ensures old(a.Valid()) ==>
              && a.Valid() && Ordered(a.free)
              && (r.None? <==> forall j | 0 <= j < |old(a.free)| :: old(a.free)[j].size < n)
    ensures old(a.Valid()) && r.Some? ==>
              && IsBest(old(a.free), n, k) && r.value == old(a.free)[k].base
              && a.free == TakeInPlace(old(a.free), k, n) && Range(r.value, n) !! old(a.used)
    ensures old(a.Loose()) ==>
              && a.Loose() && a.free == old(a.free)
              && (r.None? <==> n > old(a.nrFree)) && (r.Some? ==> r.value == a.free[|a.free| - 1].base)
  {
    hide Apart, Tied, Parted, Usable, Free, Ring, Sum, OrderedBut, TakeInPlace, SelfLinked, Forward, Sized;
    k := 0;
    a.LooseOrWired();
    if a.Valid() { NoneLarger(a.free); }
    if n > a.nrFree {
      return None, 0;
    }
    r, k := FindBest(a, n);
    if a.Loose() { LastIsBest(a.free, n, k); }
    if r.Some? {
      if a.Valid() { TakeInPlaceOrdered(a.free, k, n); }
      Carve(a, r.value, n, k);
    }
  }

  /** The last block fits exactly, and none before it does. */
  ghost predicate FitsLast(bs: seq<Block>, n: nat) {
    bs != [] && IsBest(bs, n, |bs| - 1) && bs[|bs| - 1].size == n
  }

  lemma LastIsBest(bs: seq<Block>, n: nat, k: nat)
    requires FitsLast(bs, n)
    ensures IsBest(bs, n, k) ==> k == |bs| - 1
  {
  }

  lemma NoneLarger(bs: seq<Block>)
    ensures forall j | 0 <= j < |bs| :: bs[j].size <= Sum(bs)
  {
    forall j | 0 <= j < |bs| ensures bs[j].size <= Sum(bs) { SizeBelowSum(bs, j); }
  }

  /** The end of best_fit_alloc_pages. */
  method Carve(a: Area, page: nat, n: nat, ghost k: nat)
    requires k < |a.free| && 0 < n <= a.free[k].size && page == a.free[k].base && n <= a.nrFree
    requires (a.Valid() && Ordered(TakeInPlace(a.free, k, n)))
             || (a.Loose() && k == |a.free| - 1 && a.free[k].size == n)
    modifies a, a.pages, a.head, a.links
    ensures a.managed == old(a.managed) && a.used == old(a.used) + Range(page, n) && a.nrFree == old(a.nrFree) - n
    ensures old(a.Valid()) ==> a.Valid() && a.free == TakeInPlace(old(a.free), k, n) && Range(page, n) !! old(a.used)
    ensures old(a.Loose()) ==> a.Loose() && a.free == old(a.free)
  {
    hide Apart, Tied, Parted, Usable, Free, Ring, Sum, Rest, Removed, TakeInPlace, NoDup, After, Before, Deleted,
         OrderedBut, HeadOf, Inserted, Range, Holds, SelfLinked, Sized, Taken;
    ghost var bs, b, ps := a.free, a.free[k], a.pages[..];
    a.LooseOrWired();
    if a.Valid() { Carvable(ps, bs, k, n, a.used, a.managed); } else { SizedAt(ps, bs, k); }
    Unlink(a, page, n, k);
    ghost var us := a.pages[..];
    if old(a.Valid()) { TakenLast(ps, us, b, n); } else { StillSized(ps, bs, page, ps[page].(free := false)); }
    a.nrFree := a.nrFree - n;
    a.pages[page] := a.pages[page].(free := false);
    assert a.pages[..] == us[page := us[page].(free := false)];
    a.used := a.used + Range(page, n);
  }

  /** The k-th block leaves the list, and what remains of it after n pages takes its place. */
  method Unlink(a: Area, page: nat, n: nat, ghost k: nat)
    requires k < |a.free| && 0 < n <= a.free[k].size && page == a.free[k].base && page < a.pages.Length
    requires a.pages[page].property == a.free[k].size
    requires (a.Wired() && a.free[k].End() <= a.pages.Length
              && (a.free[k].size > n ==> !HeadOf(Removed(a.free, k), page + n)))
             || (a.Loose() && k == |a.free| - 1 && a.free[k].size == n)
    modifies a`ring, a`free, a.pages, a.head, a.links
    ensures var b := old(a.free)[k];
            a.pages[..] == if b.size > n
                           then old(a.pages[..])[page + n :=
                                  old(a.pages[page + n]).(property := b.size - n).(free := true)]
                           else old(a.pages[..])
    ensures old(a.Wired()) ==> a.Wired() && a.free == TakeInPlace(old(a.free), k, n)
    ensures old(a.Loose()) ==> a.Loose() && a.free == old(a.free)
  {
    hide Ring, Rest, Removed, TakeInPlace, NoDup, After, Before, Deleted, HeadOf, Inserted, SelfLinked, Sized;
    TakeInPlaceIs(a.free, k, n);
    a.LooseOrWired();
    if a.Wired() { a.Behind(k); }
    var prev := a.links[page].prev;
    a.Delete(page, k);
    ListRest(a, page, n, prev, k);
  }

  /** Of a block that is larger than n, the rest is listed after the entry prev. */
  method ListRest(a: Area, page: nat, n: nat, prev: ListEntry, ghost k: nat)
    requires page < a.pages.Length && a.pages[page].property >= n > 0
    requires a.pages[page].property > n ==>
               && a.Wired() && k < |a.ring| && prev == a.ring[k] && page + n < |a.links|
               && !HeadOf(a.free, page + n)
    modifies a`ring, a`free, a.pages, a.head, a.links
    ensures old(a.pages[page]).property == n ==>
              && a.ring == old(a.ring) && a.free == old(a.free) && a.pages[..] == old(a.pages[..])
              && (old(a.Wired()) ==> a.Wired()) && (old(a.Loose()) ==> a.Loose())
    ensures var size := old(a.pages[page]).property - n;
            size > 0 ==>
              && a.Wired() && a.free == old(a.free)[..k] + [Block(page + n, size)] + old(a.free)[k..]
              && a.pages[..]
                 == old(a.pages[..])[page + n := old(a.pages[page + n]).(property := size).(free := true)]
  {
    hide Ring, HeadOf, Inserted, NoDup;
    if a.pages[page].property > n {
      var p := page + n;
      a.pages[p] := a.pages[p].(property := a.pages[page].property - n).(free := true);
      a.AddAfter(prev, p, a.pages[page].property - n, k);
    }
  }

  lemma SizedAt(ps: seq<Page>, bs: seq<Block>, k: nat)
    requires Sized(ps, bs) && k < |bs|
    ensures bs[k].base < |ps| && ps[bs[k].base].property == bs[k].size
  {
  }

  lemma StillSized(ps: seq<Page>, bs: seq<Block>, i: nat, page: Page)
    requires Sized(ps, bs) && i < |ps| && page.property == ps[i].property
    ensures Sized(ps[i := page], bs)
  {
  }

  /** What taking n pages from the k-th block makes of blocks, descriptors and page sets. */
  lemma Carvable(ps: seq<Page>, bs: seq<Block>, k: nat, n: nat, used: set<nat>, managed: set<nat>)
    requires Tied(ps, bs) && Apart(bs) && Parted(bs, used, managed) && Usable(ps, managed)
    requires k < |bs| && 0 < n <= bs[k].size && Ordered(TakeInPlace(bs, k, n))
    ensures bs[k].End() <= |ps| && ps[bs[k].base].property == bs[k].size
    ensures var rs := Removed(bs, k);
            TakeInPlace(bs, k, n)
            == if bs[k].size > n then rs[..k] + [Block(bs[k].base + n, bs[k].size - n)] + rs[k..] else rs
    ensures Tied(Taken(ps, bs[k], n), TakeInPlace(bs, k, n)) && Apart(TakeInPlace(bs, k, n))
    ensures bs[k].size > n ==> !HeadOf(Removed(bs, k), bs[k].base + n)
    ensures Parted(TakeInPlace(bs, k, n), used + Range(bs[k].base, n), managed)
    ensures Sum(TakeInPlace(bs, k, n)) == Sum(bs) - n && Range(bs[k].base, n) !! used
    ensures Usable(Taken(ps, bs[k], n), managed)
  {
    hide Apart, Tied, Parted, Usable, Free, Sum, Rest, Removed, TakeInPlace, OrderedBut, HeadOf, Range, Holds;
    BlockInside(ps, bs, k, used, managed);
    TakeInPlaceSame(bs, k, n, used, managed);
    OrderedApart(TakeInPlace(bs, k, n), {});
    TakeInPlaceIs(bs, k, n);
    TakeTiedInPlace(ps, bs, k, n);
    TakeUnused(bs, k, n, used, managed);
    TakeUsable(ps, bs, k, n, managed);
  }

  /** How many blocks of an ordered list lie below page p. */
  function Below(bs: seq<Block>, p: nat): (k: nat)
    ensures k <= |bs| && (forall j | 0 <= j < k :: bs[j].base <= p) && (k < |bs| ==> bs[k].base > p)
  {
    if bs == [] || bs[0].base > p then 0 else 1 + Below(bs[1..], p)
  }

  /** The list is empty, or some listed block lies above p. */
  ghost predicate HasPlace(bs: seq<Block>, p: nat) {
    bs == [] || exists j :: 0 <= j < |bs| && bs[j].base > p
  }

  lemma PlaceBelow(bs: seq<Block>, p: nat)
    requires Ordered(bs)
    ensures HasPlace(bs, p) <==> bs == [] || Below(bs, p) < |bs|
  {
    if Below(bs, p) < |bs| { assert bs[Below(bs, p)].base > p; }
  }

  /** list_add after the last entry: of a new page, or of the page that is already last. */
  method AddAtTail(a: Area, le: ListEntry, base: nat, ghost size: nat, ghost again: bool)
    requires a.Wired() && base < |a.links| && le == a.ring[|a.free|]
    requires if again then le == a.links[base] && |a.free| > 0 else !HeadOf(a.free, base)
    modifies a`ring, a`free, a.head, a.links
    ensures again ==> SelfLinked(a.ring, le) && a.ring == old(a.ring) && le.next == a.head
                      && a.free == old(a.free) && a.Matches(a.ring, a.free)
    ensures !again ==> a.Wired() && a.free == old(a.free) + [Block(base, size)]
    ensures !again ==> a.ring == Inserted(old(a.ring), |old(a.free)|, a.links[base]) && le.next == a.links[base]
  {
    hide NoDup, Inserted, Before;
    a.Step(|a.free|);
    a.Neighbours(|a.free|);
    var e := a.links[base];
    ghost var k := |a.free|;
    if !again {
      a.NotOnRing(base);
      a.MatchesInserted(a.ring, a.free, k, base, size);
    }
    ListAdd(le, e);
    if again {
      assert a.ring[0] in a.ring;
      SelfAdd(a.ring);
    } else {
      RingAdd(a.ring, k, e);
      a.ring := Inserted(a.ring, k, e);
      assert a.free[..k] + [Block(base, size)] + a.free[k..] == a.free + [Block(base, size)];
      a.free := a.free + [Block(base, size)];
    }
  }

  /** The insertion loop of best_fit_free_pages and best_fit_init_memmap. It has no break after an insertion
      at the tail, so it visits the entry it has just added and adds it once more, after itself. */
  method Insert(a: Area, base: nat, ghost size: nat)
    requires a.Wired() && Ordered(a.free) && base < |a.links| && !HeadOf(a.free, base)
    modifies a`ring, a`free, a.head, a.links
    ensures var k := Below(old(a.free), base);
            && a.ring == Inserted(old(a.ring), k, a.links[base])
            && a.free == old(a.free)[..k] + [Block(base, size)] + old(a.free)[k..]
    ensures if HasPlace(old(a.free), base) then a.Wired()
            else SelfLinked(a.ring, a.links[base]) && a.Matches(a.ring, a.free)
  {
    hide Ring, NoDup, After, Before, Inserted, OrderedBut, HeadOf;
    PlaceBelow(a.free, base);
    a.Step(0);
    ghost var bs, ring, below := a.free, a.ring, Below(a.free, base);
    var e := a.links[base];
    if a.head.next == a.head {
      a.AddAfter(a.head, base, size, 0);
      return;
    }
    var le := a.head.next;
    ghost var k := 0;
    ghost var phase := 0;
    while le != a.head
      invariant phase == 0 ==> a.Wired() && a.free == bs && a.ring == ring && k < |bs| && le == After(ring, k)
                               && k <= below
      invariant phase == 1 ==> a.Wired() && a.free == bs + [Block(base, size)] && le == e
      invariant phase == 2 ==> SelfLinked(a.ring, e) && le == a.head && a.free == bs + [Block(base, size)]
                               && a.Matches(a.ring, a.free)
      invariant phase > 0 ==> a.ring == Inserted(ring, |bs|, e) && below == |bs|
      invariant 0 <= phase <= 2 && (phase < 2 ==> le != a.head)
      decreases 2 - phase, |bs| - k
    {
      if phase == 0 { a.Step(k); a.Step(k + 1); } else { a.Step(|bs|); a.Step(|bs| + 1); }
      var page := le.id;
      if base < page {
        a.AddBefore(le, base, size, k);
        return;
      } else if le.next == a.head {
        AddAtTail(a, le, base, size, phase == 1);
        phase := phase + 1;
      }
      k := k + 1;
      le := le.next;
    }
  }

  /** Merge the block of page hi into the one of page lo, which is just before it on the list and in memory. */
  method MergeAt(a: Area, lo: nat, hi: nat, ghost j: nat)
    requires a.Wired() && Tied(a.pages[..], a.free) && Apart(a.free) && j + 1 < |a.free|
    requires lo == a.free[j].base && hi == a.free[j + 1].base
    modifies a`ring, a`free, a.pages, a.head, a.links
    ensures a.Wired() && a.free == Merged(old(a.free), j) && Tied(a.pages[..], a.free)
    ensures a.ring == Deleted(old(a.ring), j + 2)
    ensures Usable(old(a.pages[..]), a.managed) ==> Usable(a.pages[..], a.managed)
  {
    hide Ring, Apart, Tied, NoDup, After, Deleted, HeadOf;
    TiedMerged(a.pages[..], a.free, j);
    ghost var ps, bs := a.pages[..], a.free;
    a.pages[lo] := a.pages[lo].(property := a.pages[lo].property + a.pages[hi].property);
    a.pages[hi] := a.pages[hi].(free := false);
    assert a.pages[..] == ps[lo := ps[lo].(property := bs[j].size + bs[j + 1].size)][hi := ps[hi].(free := false)];
    a.Delete(hi, j + 1);
    a.MatchesResized(a.ring, a.free, Merged(bs, j));
    a.free := Merged(bs, j);
  }

  /** The list is in order but for the block at k, or, when ok is false, left self-linked at page base. */
  ghost predicate Listed(a: Area, base: nat, k: nat, loose: set<int>, ok: bool)
    reads a, a.ring, a.pages, a.links
  {
    && Usable(a.pages[..], a.managed)
    && (ok ==> a.Wired() && Tied(a.pages[..], a.free) && k < |a.free| && a.free[k].base == base
               && OrderedBut(a.free, loose))
    && (!ok ==> a.Loose() && base < a.pages.Length && a.pages[base].property >= 1
                && a.free[|a.free| - 1] == Block(base, a.pages[base].property))
  }

  /** The merge with the block before. After the tail path list_prev gives the block itself, and nothing is merged. */
  method MergeBefore(a: Area, base: nat, ghost k: nat, ghost ok: bool) returns (head: nat, ghost k': nat)
    requires Listed(a, base, k, {k - 1, k}, ok)
    modifies a`ring, a`free, a.pages, a.head, a.links
    ensures Listed(a, head, k', {k'}, ok) && (!ok ==> a.free == old(a.free))
    ensures Sum(a.free) == old(Sum(a.free)) && SamePages(old(a.free), a.free)
  {
    hide Ring, Sum, Free, Usable, Merged, NoDup, Tied, Apart, HeadOf, After, Before, Deleted, SamePages;
    head, k' := base, k;
    SamePagesRefl(a.free);
    var le := a.links[head].prev;
    if ok {
      OrderedApart(a.free, {k - 1, k});
      a.StepBack(k);
      if k > 0 {
        TiedAt(a.pages[..], a.free, k - 1);
        if a.free[k - 1].End() == base {
          Merging(a.free, k - 1);
          MergedOrdered(a.free, k - 1, {k - 1, k});
        }
      }
    } else {
      a.LooseEnds();
    }
    if le != a.head {
      var p := le.id;
      if p + a.pages[p].property == head {
        MergeAt(a, p, head, k - 1);
        head, k' := p, k - 1;
      }
    }
  }

  /** The merge with the block after. After the tail path there is none. */
  method MergeAfter(a: Area, head: nat, ghost k: nat, ghost ok: bool)
    requires Listed(a, head, k, {k}, ok)
    modifies a`ring, a`free, a.pages, a.head, a.links
    ensures Listed(a, head, k, {}, ok) && (!ok ==> a.free == old(a.free))
    ensures Sum(a.free) == old(Sum(a.free)) && SamePages(old(a.free), a.free)
  {
    hide Ring, Sum, Free, Usable, Merged, NoDup;
    var le := a.links[head].next;
    if ok {
      OrderedApart(a.free, {k});
      a.StepOn(k);
      TiedAt(a.pages[..], a.free, k);
      if k + 1 < |a.free| && a.free[k].End() == a.free[k + 1].base {
        Merging(a.free, k);
        MergedOrdered(a.free, k, {k});
      }
    } else {
      a.LooseEnds();
      SamePagesRefl(a.free);
    }
    if le != a.head {
      var p := le.id;
      if head + a.pages[head].property == p {
        MergeAt(a, head, p, k);
      }
    }
  }

  /** Both merges. */
  method Merge(a: Area, base: nat, ghost k: nat, ghost ok: bool)
    requires Listed(a, base, k, {k - 1, k}, ok)
    modifies a`ring, a`free, a.pages, a.head, a.links
    ensures Usable(a.pages[..], a.managed) && Sum(a.free) == old(Sum(a.free))
    ensures forall i: nat :: Free(a.free, i) <==> Free(old(a.free), i)
    ensures ok ==> a.Wired() && Tied(a.pages[..], a.free) && Ordered(a.free) && Apart(a.free)
    ensures !ok ==> a.Loose() && a.free == old(a.free)
  {
    hide Ring, Sum, Free, Usable, NoDup, Tied, Apart, SelfLinked, Sized, OrderedBut;
    var head;
    ghost var k';
    head, k' := MergeBefore(a, base, k, ok);
    MergeAfter(a, head, k', ok);
    if ok { OrderedApart(a.free, {}); }
  }

  ghost predicate SamePages(bs: seq<Block>, cs: seq<Block>) {
    forall i: nat :: Free(cs, i) <==> Free(bs, i)
  }

  lemma SamePagesRefl(bs: seq<Block>)
    ensures SamePages(bs, bs)
  {
  }

  lemma Merging(bs: seq<Block>, j: nat)
    requires j + 1 < |bs| && bs[j].End() == bs[j + 1].base
    ensures Sum(Merged(bs, j)) == Sum(bs) && SamePages(bs, Merged(bs, j))
    ensures |Merged(bs, j)| == |bs| - 1 && Merged(bs, j)[j].base == bs[j].base
  {
    MergedSum(bs, j);
    forall i: nat ensures Free(Merged(bs, j), i) <==> Free(bs, i) { MergedPages(bs, j, i); }
  }

  lemma InsertReady(ps: seq<Page>, bs: seq<Block>, used: set<nat>, managed: set<nat>, hand: Block)
    requires Tied(ps, bs) && Ordered(bs) && Parted(bs, used, managed) && Usable(ps, managed)
    requires hand.size > 0 && forall i: nat | hand.base <= i < hand.End() :: i in used
    ensures hand.base < |ps| && !HeadOf(bs, hand.base)
    ensures var qs := ps[hand.base := ps[hand.base].(property := hand.size).(free := true)];
            var k := Below(bs, hand.base);
            var cs := bs[..k] + [hand] + bs[k..];
            && Tied(qs, cs) && Usable(qs, managed) && OrderedBut(cs, {k - 1, k})
            && Parted(cs, used - Range(hand.base, hand.size), managed) && Sum(cs) == Sum(bs) + hand.size
  {
    hide Tied, HeadOf, Free, Sum, Usable, Parted, Apart, OrderedBut, Below, Range, Clear;
    assert hand.base in used;
    OrderedApart(bs, {});
    UsedPage(ps, bs, used, managed, hand.base);
    var k := Below(bs, hand.base);
    var cs := bs[..k] + [hand] + bs[k..];
    TiedAdd(ps, bs, cs, k, ps[hand.base].(property := hand.size).(free := true));
    StaysUsable(ps, hand.base, ps[hand.base].(property := hand.size).(free := true), managed);
    InsertFits(bs, used, managed, hand, k);
    InsertOrdered(bs, hand, k);
    InsertedPages(bs, hand, k);
    GiveParted(bs, hand, cs, used, managed);
  }

  lemma InsertFits(bs: seq<Block>, used: set<nat>, managed: set<nat>, hand: Block, k: nat)
    requires Ordered(bs) && Parted(bs, used, managed) && k == Below(bs, hand.base)
    requires hand.size > 0 && forall i: nat | hand.base <= i < hand.End() :: i in used
    ensures (k > 0 ==> bs[k - 1].End() <= hand.base) && (k < |bs| ==> hand.End() <= bs[k].base)
  {
    hide Parted, Free;
    if k > 0 { UsedClear(bs, k - 1, used, managed, hand); }
    if k < |bs| { UsedClear(bs, k, used, managed, hand); }
  }

  /** A block put in place k adds its pages. */
  lemma InsertedPages(bs: seq<Block>, b: Block, k: nat)
    requires k <= |bs|
    ensures var cs := bs[..k] + [b] + bs[k..];
            && Sum(cs) == Sum(bs) + b.size
            && forall i: nat :: (Free(cs, i) <==> Free([b] + bs, i)) && (Free(cs, i) <==> Free(bs + [b], i))
  {
    hide Free, Sum;
    var cs := bs[..k] + [b] + bs[k..];
    assert bs == bs[..k] + bs[k..];
    forall i: nat ensures (Free(cs, i) <==> Free([b] + bs, i)) && (Free(cs, i) <==> Free(bs + [b], i)) {
      FreeSplit(bs[..k], [b], bs[k..], i);
      FreeAppend(bs[..k], bs[k..], i);
      FreeAppend([b], bs, i);
      FreeAppend(bs, [b], i);
    }
    SumSplit(bs[..k], [b], bs[k..]);
    SumAppend(bs[..k], bs[k..]);
    SumOne(b);
  }

  lemma UsedClear(bs: seq<Block>, j: nat, used: set<nat>, managed: set<nat>, hand: Block)
    requires Parted(bs, used, managed) && j < |bs| && bs[j].size >= 1 && hand.size > 0
    requires forall i: nat | hand.base <= i < hand.End() :: i in used
    ensures Clear(hand, bs[j])
  {
    var i := if hand.base < bs[j].base then bs[j].base else hand.base;
    if Holds(bs[j], i) { FreeAt(bs, j, i); }
  }

  /** best_fit_free_pages. When the list is empty or some listed block lies above the freed run, the list stays
      a ring, in address order and merged as far as merging goes; otherwise it is no ring afterwards, the freed run
      being last on the list and linked to itself. */
  method FreePages(a: Area, base: nat, n: nat)
    requires a.Valid() && Ordered(a.free) && n > 0 && forall i: nat | base <= i < base + n :: i in a.used
    modifies a, a.pages, a.head, a.links
    ensures a.nrFree == old(a.nrFree) + n && a.used == old(a.used) - Range(base, n) && a.managed == old(a.managed)
    ensures HasPlace(old(a.free), base) ==> a.Valid() && Ordered(a.free)
    ensures HasPlace(old(a.free), base) <==> exists d: seq<ListEntry> :: d != [] && d[0] == a.head && Ring(d)
    ensures !HasPlace(old(a.free), base) ==> a.Loose() && a.free == old(a.free) + [Block(base, n)]
  {
    hide Apart, Tied, Parted, Usable, Free, Ring, Sum, NoDup, OrderedBut, HasPlace, SelfLinked, Sized, Range, Below,
        Listed;
    ghost var k, ok := Below(a.free, base), HasPlace(a.free, base);
    TakeBack(a, base, n);
    ghost var cs := a.free;
    Merge(a, base, k, ok);
    if ok { StillParted(cs, a.free, a.used, a.managed); }
    a.RingOrNone();
  }

  /** best_fit_free_pages up to the merges. */
  method TakeBack(a: Area, base: nat, n: nat)
    requires a.Valid() && Ordered(a.free) && n > 0 && forall i: nat | base <= i < base + n :: i in a.used
    modifies a, a.pages, a.head, a.links
    ensures a.nrFree == old(a.nrFree) + n && a.used == old(a.used) - Range(base, n) && a.managed == old(a.managed)
    ensures Sum(a.free) == a.nrFree && Parted(a.free, a.used, a.managed)
    ensures var k := Below(old(a.free), base); Listed(a, base, k, {k - 1, k}, HasPlace(old(a.free), base))
    ensures !HasPlace(old(a.free), base) ==> a.free == old(a.free) + [Block(base, n)]
  {
    hide Apart, Tied, Parted, Usable, Free, Ring, Sum, HeadOf, NoDup, After, OrderedBut, HasPlace, SelfLinked,
        Inserted, Sized, Range, Below;
    ghost var hand := Block(base, n);
    RunFits(a, base, n);
    ResetPages(a, base, n);
    PlaceBelow(a.free, base);
    InsertReady(a.pages[..], a.free, a.used, a.managed, hand);
    ListRun(a, base, n);
    a.used := a.used - Range(base, n);
  }

  lemma RunFits(a: Area, base: nat, n: nat)
    requires a.Valid() && forall i: nat | base <= i < base + n :: i in a.used
    ensures a.nrFree + n <= a.pages.Length
  {
    a.CountFits();
    RangeSize(base, n);
    Subset(Range(base, n), a.used);
  }

  lemma RegionFits(a: Area, base: nat, n: nat)
    requires a.Valid() && base + n <= a.pages.Length && forall i: nat | base <= i < base + n :: i !in a.managed
    ensures a.nrFree + n <= a.pages.Length
  {
    hide Apart, Tied, Parted, Ring, Sum, Range;
    a.CountFits();
    RangeSize(base, n);
    RegionApart(base, n, a.managed);
    Within(a.managed + Range(base, n), a.pages.Length);
  }

  lemma RegionApart(base: nat, n: nat, managed: set<nat>)
    requires forall i: nat | base <= i < base + n :: i !in managed
    ensures |managed + Range(base, n)| == |managed| + |Range(base, n)|
    ensures forall i | i in managed + Range(base, n) :: i in managed || base <= i < base + n
  {
  }

  /** Mark a run of pages as a free block, count it and put it on the list. */
  method ListRun(a: Area, base: nat, n: nat)
    requires a.Wired() && Ordered(a.free) && base < |a.links| && !HeadOf(a.free, base)
    requires a.nrFree + n <= a.pages.Length
    requires var k := Below(a.free, base);
             Tied(a.pages[..][base := a.pages[base].(property := n).(free := true)],
                  a.free[..k] + [Block(base, n)] + a.free[k..])
    modifies a`ring, a`free, a`nrFree, a.pages, a.head, a.links
    ensures a.pages[..] == old(a.pages[..])[base := old(a.pages[base]).(property := n).(free := true)]
    ensures a.nrFree == old(a.nrFree) + n
    ensures var k := Below(old(a.free), base); a.free == old(a.free)[..k] + [Block(base, n)] + old(a.free)[k..]
    ensures if HasPlace(old(a.free), base) then a.Wired() else a.Loose() && a.free == old(a.free) + [Block(base, n)]
  {
    hide Tied, Ring, HeadOf, NoDup, After, OrderedBut, HasPlace, SelfLinked, Inserted, Sized;
    ghost var bs := a.free;
    PlaceBelow(bs, base);
    ghost var ps := a.pages[..];
    a.pages[base] := a.pages[base].(property := n).(free := true);
    assert a.pages[..] == ps[base := ps[base].(property := n).(free := true)];
    a.nrFree := a.nrFree + n;
    Insert(a, base, n);
    if !HasPlace(bs, base) { a.TailLoose(bs, Block(base, n)); }
  }

  lemma StillParted(bs: seq<Block>, cs: seq<Block>, used: set<nat>, managed: set<nat>)
    requires Parted(bs, used, managed) && forall i: nat :: Free(cs, i) <==> Free(bs, i)
    ensures Parted(cs, used, managed)
  {
  }

  /** The first loop of best_fit_init_memmap, with its assertion. */
  method ClearRegion(a: Area, base: nat, n: nat)
    requires a.Valid() && base + n <= a.pages.Length
    requires forall i: nat | base <= i < base + n :: i !in a.managed && a.pages[i].reserved
    modifies a.pages
    ensures a.Valid() && forall i | base <= i < base + n :: a.pages[i] == Page(0, false, false, 0)
  {
    hide Apart, Tied, Parted, Free, Ring, Sum, HeadOf, Usable;
    for p := base to base + n
      invariant a.Valid()
      invariant forall i | base <= i < p :: a.pages[i] == Page(0, false, false, 0)
      invariant forall i | p <= i < base + n :: a.pages[i] == old(a.pages[i])
    {
      ClearPage(a.pages[..], a.free, a.used, a.managed, p);
      a.pages[p] := Page(0, false, false, 0);
    }
  }

  lemma ClearPage(ps: seq<Page>, bs: seq<Block>, used: set<nat>, managed: set<nat>, i: nat)
    requires Tied(ps, bs) && Apart(bs) && Parted(bs, used, managed) && Usable(ps, managed) && i < |ps| && i !in managed
    ensures !HeadOf(bs, i) && Tied(ps[i := Page(0, false, false, 0)], bs)
             && Usable(ps[i := Page(0, false, false, 0)], managed)
  {
    NotFreeHead(bs, i);
  }

  /** best_fit_init_memmap: the region becomes one block. The insertion loop is that of best_fit_free_pages,
      and so is the condition under which the list stays a ring. */
  method InitMemmap(a: Area, base: nat, n: nat)
    requires a.Valid() && Ordered(a.free) && 0 < n && base + n <= a.pages.Length
    requires forall i: nat | base <= i < base + n :: i !in a.managed && a.pages[i].reserved
    modifies a, a.pages, a.head, a.links
    ensures a.nrFree == old(a.nrFree) + n && a.used == old(a.used) && a.managed == old(a.managed) + Range(base, n)
    ensures HasPlace(old(a.free), base) ==>
              a.Valid() && var k := Below(old(a.free), base);
              a.free == old(a.free)[..k] + [Block(base, n)] + old(a.free)[k..]
    ensures HasPlace(old(a.free), base) <==> exists d: seq<ListEntry> :: d != [] && d[0] == a.head && Ring(d)
    ensures !HasPlace(old(a.free), base) ==> a.Loose() && a.free == old(a.free) + [Block(base, n)]
  {
    hide Apart, Tied, Parted, Usable, Free, Ring, Sum, HeadOf, NoDup, After, OrderedBut, HasPlace, SelfLinked,
        Inserted, Sized;
    RegionFits(a, base, n);
    ClearRegion(a, base, n);
    RegionReady(a.pages[..], a.free, a.used, a.managed, Block(base, n));
    ListRun(a, base, n);
    a.managed := a.managed + Range(base, n);
    a.RingOrNone();
  }

  lemma RegionReady(ps: seq<Page>, bs: seq<Block>, used: set<nat>, managed: set<nat>, b: Block)
    requires Tied(ps, bs) && Ordered(bs) && Parted(bs, used, managed) && Usable(ps, managed) && b.End() <= |ps|
    requires b.size > 0 && forall i: nat | b.base <= i < b.End() :: i !in managed && !ps[i].reserved
    ensures !HeadOf(bs, b.base)
    ensures var qs := ps[b.base := ps[b.base].(property := b.size).(free := true)];
            var k := Below(bs, b.base);
            var cs := bs[..k] + [b] + bs[k..];
            && Tied(qs, cs) && Usable(qs, managed + Range(b.base, b.size)) && Apart(cs)
            && Parted(cs, used, managed + Range(b.base, b.size)) && Sum(cs) == Sum(bs) + b.size
  {
    hide Tied, HeadOf, Free, Sum, OrderedBut, Apart, Usable;
    OrderedApart(bs, {});
    var k := Below(bs, b.base);
    var cs := bs[..k] + [b] + bs[k..];
    var qs := ps[b.base := ps[b.base].(property := b.size).(free := true)];
    assert Holds(b, b.base);
    NotFreeHead(bs, b.base);
    TiedAdd(ps, bs, cs, k, qs[b.base]);
    AddApart(bs, b);
    InsertApart(bs, b, k);
    AddParted(bs, b, used, managed);
    InsertedPages(bs, b, k);
    StillParted(bs + [b], cs, used, managed + Range(b.base, b.size));
    RegionUsable(ps, qs, b, managed);
  }

  lemma RegionUsable(ps: seq<Page>, qs: seq<Page>, b: Block, managed: set<nat>)
    requires Usable(ps, managed) && b.End() <= |ps| && b.size > 0
             && forall i: nat | b.base <= i < b.End() :: !ps[i].reserved
    requires qs == ps[b.base := ps[b.base].(property := b.size).(free := true)]
    ensures Usable(qs, managed + Range(b.base, b.size))
  {
  }

  lemma InsertApart(bs: seq<Block>, b: Block, k: nat)
    requires Apart([b] + bs) && k <= |bs|
    ensures Apart(bs[..k] + [b] + bs[k..])
  {
    ApartCons(b, bs);
    var cs := bs[..k] + [b] + bs[k..];
    assert forall j | 0 <= j < |cs| :: cs[j] == if j < k then bs[j] else if j == k then b else bs[j - 1];
  }

  /** The boot state: every page reserved and in no list. */
  method BootArea(n: nat) returns (a: Area)
    requires n < 0xffff_ffff
    ensures fresh(a) && fresh(a.pages) && fresh(a.head) && fresh(set e | e in a.links)
    ensures a.Valid() && a.free == [] && a.used == {} && a.managed == {} && a.nrFree == 0 && a.pages.Length == n
    ensures forall i | 0 <= i < n :: a.pages[i].reserved
  {
    var pages := new Page[n](_ => Page(0, true, false, 0));
    var head := new ListEntry(-1);
    var links: seq<ListEntry> := [];
    for i := 0 to n
      invariant |links| == i && fresh(set e | e in links)
      invariant forall j | 0 <= j < i :: links[j].id == j
      invariant forall j | 0 <= j < n :: pages[j] == Page(0, true, false, 0)
    {
      var e := new ListEntry(i);
      links := links + [e];
    }
    a := new Area(pages, links, head);
  }

  /** A region all of whose pages are handed out. */
  method AllHandedOut(n: nat) returns (a: Area)
    requires 0 < n < 0xffff_ffff
    ensures fresh(a) && fresh(a.pages) && fresh(a.head) && fresh(set e | e in a.links)
    ensures a.Valid() && a.free == [] && a.nrFree == 0 && a.used == a.managed == Range(0, n)
  {
    hide Apart, Tied, Parted, Usable, Free, Ring, HeadOf, NoDup, HasPlace, OrderedBut, TakeInPlace, IsBest, Below,
         SelfLinked, Sized, Forward, Range;
    a := BootArea(n);
    FirstBlock(n);
    InitMemmap(a, 0, n);
    var r;
    ghost var k;
    r, k := AllocPages(a, n);
    OnlyBlock(n, k);
  }

  /** The tail path is within reach of ordinary calls: when all pages of a region are handed out, giving back
      the first m and then the last leaves no ring through the list head. */
  method TailReached(n: nat, m: nat) returns (a: Area)
    requires 1 <= m < n < 0xffff_ffff
    ensures fresh(a) && fresh(a.pages) && fresh(a.head) && fresh(set e | e in a.links)
    ensures a.nrFree == m + 1 && a.used == Range(0, n) - Range(0, m) - Range(n - 1, 1) && a.managed == Range(0, n)
    ensures a.Loose() && a.free == [Block(0, m), Block(n - 1, 1)]
    ensures !exists d: seq<ListEntry> :: d != [] && d[0] == a.head && Ring(d)
  {
    hide Apart, Tied, Parted, Usable, Free, Ring, Sum, HeadOf, NoDup, HasPlace, OrderedBut, SelfLinked, Sized;
    a := AllHandedOut(n);
    FirstBlock(n);
    FreePages(a, 0, m);
    FirstOnes(a.free, n, m, a.used, a.managed);
    FreePages(a, n - 1, 1);
  }

  lemma FirstBlock(n: nat)
    requires n > 0
    ensures Ordered([]) && HasPlace([], 0) && Below([], 0) == 0
    ensures [][..0] + [Block(0, n)] + [][0..] == [Block(0, n)] && Ordered([Block(0, n)])
    ensures {} + Range(0, n) == Range(0, n)
  {
  }

  lemma OnlyBlock(n: nat, k: nat)
    requires n > 0
    ensures [Block(0, n)][0].size == n
    ensures IsBest([Block(0, n)], n, k) ==> k == 0
    ensures TakeInPlace([Block(0, n)], 0, n) == [] && HasPlace([], 0)
  {
  }

  /** A list in order that holds the first m pages is one block, and nothing on it lies above the last page. */
  lemma FirstOnes(bs: seq<Block>, n: nat, m: nat, used: set<nat>, managed: set<nat>)
    requires Ordered(bs) && Parted(bs, used, managed) && 0 < m < n
    requires managed == Range(0, n) && used == managed - Range(0, m)
    ensures bs == [Block(0, m)] && !HasPlace(bs, n - 1)
    ensures bs + [Block(n - 1, 1)] == [Block(0, m), Block(n - 1, 1)]
  {
    hide Free;
    var one := [Block(0, m)];
    forall i: nat ensures Free(bs, i) <==> Free(one, i) { FreeOne(one[0], i); }
    OrderedUnique(bs, one);
  }

  /** On the list the tail path leaves, as many requests for n pages as the counter admits all get one page. */
  method AskAgain(a: Area, n: nat) returns (got: seq<nat>)
    requires a.Loose() && n > 0 && FitsLast(a.free, n)
    modifies a, a.pages, a.head, a.links
    ensures a.Loose() && a.free == old(a.free) && a.nrFree < n
    ensures old(a.nrFree) == n * |got| + a.nrFree && forall p | p in got :: p == a.free[|a.free| - 1].base
  {
    hide SelfLinked, Sized, FitsLast, Ring, Apart, Tied, Parted, Usable, TakeInPlace, IsBest, OrderedBut, Range, Sum;
    ghost var taken := 0;
    NoneTaken(n);
    got := [];
    while a.nrFree >= n
      invariant a.Loose() && a.free == old(a.free) && a.nrFree <= old(a.nrFree)
      invariant old(a.nrFree) == taken + a.nrFree && taken == n * |got|
      invariant forall p | p in got :: p == a.free[|a.free| - 1].base
      decreases a.nrFree
    {
      var page := AskOnce(a, n);
      OneMore(n, |got|);
      taken := taken + n;
      got := got + [page];
    }
  }

  method AskOnce(a: Area, n: nat) returns (page: nat)
    requires a.Loose() && n > 0 && FitsLast(a.free, n) && n <= a.nrFree
    modifies a, a.pages, a.head, a.links
    ensures a.Loose() && a.free == old(a.free) && a.nrFree == old(a.nrFree) - n
    ensures page == a.free[|a.free| - 1].base
  {
    hide SelfLinked, Sized, FitsLast, Ring, Apart, Tied, Parted, Usable, TakeInPlace, IsBest, OrderedBut, Range, Sum;
    a.LooseOrWired();
    var r;
    ghost var k;
    r, k := AllocPages(a, n);
    page := r.value;
  }

  lemma NoneTaken(n: nat)
    ensures n * 0 == 0
  {
  }

  lemma OneMore(n: nat, k: nat)
    ensures n * (k + 1) == n * k + n
  {
  }

  /** Pages are handed out twice: with the last page of a region given back after the first m, the next m + 1
      requests for one page all get that last page. */
  method HandedOutAgain(n: nat, m: nat) returns (a: Area, got: seq<nat>)
    requires 2 <= m < n < 0xffff_ffff
    ensures |got| == m + 1 && forall p | p in got :: p == n - 1
    ensures a.nrFree == 0 && a.free == [Block(0, m), Block(n - 1, 1)]
  {
    hide SelfLinked, Sized, Ring, Range;
    a := TailReached(n, m);
    LastFits(n, m);
    got := AskAgain(a, 1);
  }

  lemma LastFits(n: nat, m: nat)
    requires 2 <= m < n
    ensures FitsLast([Block(0, m), Block(n - 1, 1)], 1)
  {
  }
}
