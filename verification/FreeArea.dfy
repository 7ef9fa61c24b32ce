/** A free area: page descriptors, the links embedded in them, the list head and the free-page counter. */
module FreeArea {
  import opened Pages
  import opened Sequences
  import opened FreeBlocks
  import opened ListH

  /** The marks and sizes of the descriptors are those of the blocks bs: exactly their heads carry PG_property. */
  ghost predicate Tied(ps: seq<Page>, bs: seq<Block>) {
    && (forall k | 0 <= k < |bs| :: bs[k].base < |ps| && ps[bs[k].base].property == bs[k].size && ps[bs[k].base].free)
    && (forall i: nat | i < |ps| && ps[i].free :: HeadOf(bs, i))
  }

  /** The sizes, whatever the marks. */
  ghost predicate Sized(ps: seq<Page>, bs: seq<Block>) {
    forall k | 0 <= k < |bs| :: bs[k].base < |ps| && ps[bs[k].base].property == bs[k].size
  }

  ghost predicate HeadOf(bs: seq<Block>, i: nat) {
    exists k :: 0 <= k < |bs| && bs[k].base == i
  }

  /** Managed pages are real pages and not reserved. */
  ghost predicate Usable(ps: seq<Page>, managed: set<nat>) {
    forall i | i in managed :: i < |ps| && !ps[i].reserved
  }

  lemma NotFreeHead(bs: seq<Block>, i: nat)
    requires Apart(bs) && !Free(bs, i)
    ensures !HeadOf(bs, i)
  {
    forall k | 0 <= k < |bs| ensures bs[k].base != i {
      assert !Holds(bs[k], i);
    }
  }

  /** Linking a newly marked page at position `at` of the list. */
  lemma TiedAdd(ps: seq<Page>, bs: seq<Block>, cs: seq<Block>, at: nat, page: Page)
    requires Tied(ps, bs) && at <= |bs| && |cs| == |bs| + 1 && cs[at].base < |ps|
    requires !HeadOf(bs, cs[at].base) && page.free && page.property == cs[at].size
    requires forall k | 0 <= k < |bs| :: cs[if k < at then k else k + 1] == bs[k]
    ensures Tied(ps[cs[at].base := page], cs)
  {
    var i := cs[at].base;
    var qs := ps[i := page];
    forall k | 0 <= k < |cs|
      ensures cs[k].base < |qs| && qs[cs[k].base].property == cs[k].size && qs[cs[k].base].free
    {
      if k != at {
        var m := if k < at then k else k - 1;
        assert cs[k] == bs[m];
      }
    }
    forall j: nat | j < |qs| && qs[j].free ensures HeadOf(cs, j) {
      if j == i { assert cs[at].base == j; } else { HeadShift(bs, cs, at, j); }
    }
  }

  lemma HeadShift(bs: seq<Block>, cs: seq<Block>, at: nat, j: nat)
    requires at <= |bs| && |cs| == |bs| + 1 && HeadOf(bs, j)
    requires forall k | 0 <= k < |bs| :: cs[if k < at then k else k + 1] == bs[k]
    ensures HeadOf(cs, j)
  {
    var k :| 0 <= k < |bs| && bs[k].base == j;
    assert cs[if k < at then k else k + 1].base == j;
  }

  /** Clearing the mark of the k-th block's head while taking the block off the list. */
  lemma TiedRemove(ps: seq<Page>, bs: seq<Block>, k: nat)
    requires Tied(ps, bs) && Apart(bs) && k < |bs|
    ensures Tied(ps[bs[k].base := ps[bs[k].base].(free := false)], Removed(bs, k))
    ensures !HeadOf(Removed(bs, k), bs[k].base)
  {
    hide Apart;
    var cs := Removed(bs, k);
    var qs := ps[bs[k].base := ps[bs[k].base].(free := false)];
    forall j | 0 <= j < |cs|
      ensures cs[j].base != bs[k].base && cs[j].base < |qs| && qs[cs[j].base].property == cs[j].size
               && qs[cs[j].base].free
    {
      var m := if j < k then j else j + 1;
      assert cs[j] == bs[m];
      OtherBase(bs, m, k);
    }
    forall j: nat | j < |qs| && qs[j].free ensures HeadOf(cs, j) {
      var m :| 0 <= m < |bs| && bs[m].base == j;
      assert cs[if m < k then m else m - 1].base == j;
    }
  }

  lemma OtherBase(bs: seq<Block>, j: nat, k: nat)
    requires Apart(bs) && j < |bs| && k < |bs| && j != k
    ensures bs[j].base != bs[k].base
  {
    assert Clear(bs[if j < k then j else k], bs[if j < k then k else j]);
  }

  /** Changing the recorded size of the block in hand. */
  lemma TiedResize(ps: seq<Page>, hand: Block, bs: seq<Block>, size: nat)
    requires Tied(ps, [hand] + bs) && Apart([hand] + bs)
    ensures hand.base < |ps|
    ensures Tied(ps[hand.base := ps[hand.base].(property := size)], [Block(hand.base, size)] + bs)
  {
    var cs := [hand] + bs;
    var ds := [Block(hand.base, size)] + bs;
    assert cs[0] == hand;
    var qs := ps[hand.base := ps[hand.base].(property := size)];
    forall k | 0 <= k < |ds|
      ensures ds[k].base < |qs| && qs[ds[k].base].property == ds[k].size && qs[ds[k].base].free
    {
      assert k > 0 ==> ds[k] == cs[k];
      if k > 0 { OtherBase(cs, k, 0); }
    }
    forall j: nat | j < |qs| && qs[j].free ensures HeadOf(ds, j) {
      var m :| 0 <= m < |cs| && cs[m].base == j;
      assert ds[m].base == j;
    }
  }

  /** The descriptors after n pages are taken from block b. */
  function Taken(ps: seq<Page>, b: Block, n: nat): seq<Page>
    requires b.End() <= |ps| && 0 < n <= b.size
  {
    var qs := ps[b.base := ps[b.base].(free := false)];
    if b.size > n then qs[b.base + n := qs[b.base + n].(property := b.size - n).(free := true)] else qs
  }

  /** The mark of the block's head can be cleared last. */
  lemma TakenLast(ps: seq<Page>, us: seq<Page>, b: Block, n: nat)
    requires b.End() <= |ps| && 0 < n <= b.size
    requires us == if b.size > n then ps[b.base + n := ps[b.base + n].(property := b.size - n).(free := true)] else ps
    ensures us[b.base := us[b.base].(free := false)] == Taken(ps, b, n)
  {
  }

  lemma TakeTied(ps: seq<Page>, bs: seq<Block>, k: nat, n: nat)
    requires Tied(ps, bs) && Apart(bs) && k < |bs| && 0 < n <= bs[k].size && bs[k].End() <= |ps|
    ensures Tied(Taken(ps, bs[k], n), Rest(bs[k], n) + Removed(bs, k))
    ensures bs[k].size > n ==> !HeadOf(Removed(bs, k), bs[k].base + n)
  {
    hide Tied, HeadOf, Apart, Removed;
    TiedRemove(ps, bs, k);
    var rs := Removed(bs, k);
    var qs := ps[bs[k].base := ps[bs[k].base].(free := false)];
    if bs[k].size > n {
      var r := Block(bs[k].base + n, bs[k].size - n);
      NotHeadInside(bs, k, r.base);
      TiedAdd(qs, rs, [r] + rs, 0, qs[r.base].(property := r.size).(free := true));
    } else {
      assert Rest(bs[k], n) + rs == rs;
    }
  }

  lemma TakeTiedInPlace(ps: seq<Page>, bs: seq<Block>, k: nat, n: nat)
    requires Tied(ps, bs) && Apart(bs) && k < |bs| && 0 < n <= bs[k].size && bs[k].End() <= |ps|
    ensures Tied(Taken(ps, bs[k], n), TakeInPlace(bs, k, n))
    ensures bs[k].size > n ==> !HeadOf(Removed(bs, k), bs[k].base + n)
  {
    hide Tied, HeadOf, Apart;
    TiedRemove(ps, bs, k);
    TakeInPlaceIs(bs, k, n);
    var rs := Removed(bs, k);
    var qs := ps[bs[k].base := ps[bs[k].base].(free := false)];
    if bs[k].size > n {
      var r := Block(bs[k].base + n, bs[k].size - n);
      NotHeadInside(bs, k, r.base);
      TiedAdd(qs, rs, rs[..k] + [r] + rs[k..], k, qs[r.base].(property := r.size).(free := true));
    }
  }

  lemma NotHeadInside(bs: seq<Block>, k: nat, i: nat)
    requires Apart(bs) && k < |bs| && Holds(bs[k], i)
    ensures !HeadOf(Removed(bs, k), i)
  {
    ApartRemoved(bs, k);
    RemovedClear(bs, k, i);
    NotFreeHead(Removed(bs, k), i);
  }

  lemma TakeUnused(bs: seq<Block>, k: nat, n: nat, used: set<nat>, managed: set<nat>)
    requires Parted(bs, used, managed) && k < |bs| && 0 < n <= bs[k].size
    ensures Range(bs[k].base, n) !! used
  {
    forall i: nat | i in Range(bs[k].base, n) ensures i !in used { FreeAt(bs, k, i); }
  }

  lemma TakeUsable(ps: seq<Page>, bs: seq<Block>, k: nat, n: nat, managed: set<nat>)
    requires Usable(ps, managed) && k < |bs| && 0 < n <= bs[k].size && bs[k].End() <= |ps|
    ensures Usable(Taken(ps, bs[k], n), managed)
  {
  }

  /** A free block lies within the page array, and its head records its size. */
  lemma BlockInside(ps: seq<Page>, bs: seq<Block>, k: nat, used: set<nat>, managed: set<nat>)
    requires Tied(ps, bs) && Apart(bs) && Parted(bs, used, managed) && Usable(ps, managed) && k < |bs|
    ensures bs[k].End() <= |ps| && ps[bs[k].base].property == bs[k].size >= 1
  {
    FreeAt(bs, k, bs[k].End() - 1);
  }

  /** A page handed out is a real page, not reserved and not marked free: the assertions of the free functions hold. */
  lemma UsedPage(ps: seq<Page>, bs: seq<Block>, used: set<nat>, managed: set<nat>, i: nat)
    requires Tied(ps, bs) && Apart(bs) && Parted(bs, used, managed) && Usable(ps, managed) && i in used
    ensures i < |ps| && !ps[i].reserved && !ps[i].free && !Free(bs, i) && !HeadOf(bs, i)
  {
    NotFreeHead(bs, i);
  }

  lemma StaysUsable(ps: seq<Page>, i: nat, page: Page, managed: set<nat>)
    requires Usable(ps, managed) && i < |ps| && (ps[i].reserved || !page.reserved)
    ensures Usable(ps[i := page], managed)
  {
  }

  /** Clearing the flags and the reference count of a page that carries no mark. */
  lemma ResetPage(ps: seq<Page>, bs: seq<Block>, managed: set<nat>, i: nat)
    requires Tied(ps, bs) && Usable(ps, managed) && i < |ps| && !ps[i].free && !ps[i].reserved
    ensures Tied(ps[i := Page(0, false, false, ps[i].property)], bs)
    ensures Usable(ps[i := Page(0, false, false, ps[i].property)], managed)
  {
  }

  /** The block in hand absorbs the k-th block of the list: the lower head records the joint size,
      the mark of the upper one is cleared. */
  lemma TiedJoin(ps: seq<Page>, hand: Block, bs: seq<Block>, k: nat)
    requires Tied(ps, [hand] + bs) && Apart([hand] + bs) && k < |bs| && Touch(hand, bs[k])
    ensures hand.base < |ps| && bs[k].base < |ps|
    ensures ps[hand.base].property == hand.size && ps[bs[k].base].property == bs[k].size
    ensures hand.End() == bs[k].base ==>
              Tied(ps[hand.base := ps[hand.base].(property := hand.size + bs[k].size)]
                     [bs[k].base := ps[bs[k].base].(free := false)], [Join(hand, bs[k])] + Removed(bs, k))
    ensures hand.End() != bs[k].base ==>
              Tied(ps[bs[k].base := ps[bs[k].base].(property := bs[k].size + hand.size)]
                     [hand.base := ps[hand.base].(free := false)], [Join(hand, bs[k])] + Removed(bs, k))
  {
    hide Tied, Apart, Removed;
    var cs := [hand] + bs;
    assert cs[0] == hand && cs[k + 1] == bs[k];
    TiedAt(ps, cs, 0);
    TiedAt(ps, cs, k + 1);
    if hand.End() == bs[k].base { JoinAbove(ps, hand, bs, k); } else { JoinBelow(ps, hand, bs, k); }
  }

  lemma JoinAbove(ps: seq<Page>, hand: Block, bs: seq<Block>, k: nat)
    requires Tied(ps, [hand] + bs) && Apart([hand] + bs) && k < |bs| && hand.base < |ps| && bs[k].base < |ps|
    ensures Tied(ps[hand.base := ps[hand.base].(property := hand.size + bs[k].size)]
                   [bs[k].base := ps[bs[k].base].(free := false)],
                 [Block(hand.base, hand.size + bs[k].size)] + Removed(bs, k))
  {
    hide Tied, Apart;
    var cs := [hand] + bs;
    OtherBase(cs, 0, k + 1);
    TiedRemove(ps, cs, k + 1);
    assert Removed(cs, k + 1) == [hand] + Removed(bs, k);
    ApartRemoved(cs, k + 1);
    var qs := ps[bs[k].base := ps[bs[k].base].(free := false)];
    TiedResize(qs, hand, Removed(bs, k), hand.size + bs[k].size);
    TwoUpdates(ps, hand.base, bs[k].base, ps[hand.base].(property := hand.size + bs[k].size),
        ps[bs[k].base].(free := false));
  }

  lemma JoinBelow(ps: seq<Page>, hand: Block, bs: seq<Block>, k: nat)
    requires Tied(ps, [hand] + bs) && Apart([hand] + bs) && k < |bs| && hand.base < |ps| && bs[k].base < |ps|
    ensures Tied(ps[bs[k].base := ps[bs[k].base].(property := bs[k].size + hand.size)]
                   [hand.base := ps[hand.base].(free := false)],
                 [Block(bs[k].base, hand.size + bs[k].size)] + Removed(bs, k))
  {
    hide Tied, Apart;
    var cs := [hand] + bs;
    OtherBase(cs, 0, k + 1);
    TiedRemove(ps, cs, 0);
    assert Removed(cs, 0) == bs;
    ApartRemoved(cs, 0);
    var qs := ps[hand.base := ps[hand.base].(free := false)];
    TiedToFront(qs, bs, k);
    ApartToFront(bs, k);
    TiedResize(qs, bs[k], Removed(bs, k), bs[k].size + hand.size);
    TwoUpdates(ps, bs[k].base, hand.base, ps[bs[k].base].(property := bs[k].size + hand.size),
        ps[hand.base].(free := false));
  }

  lemma TwoUpdates<T>(s: seq<T>, i: nat, j: nat, x: T, y: T)
    requires i < |s| && j < |s| && i != j
    ensures s[i := x][j := y] == s[j := y][i := x]
  {
  }

  lemma TiedAt(ps: seq<Page>, bs: seq<Block>, k: nat)
    requires Tied(ps, bs) && k < |bs|
    ensures bs[k].base < |ps| && ps[bs[k].base].property == bs[k].size && ps[bs[k].base].free
  {
  }

  lemma TiedToFront(ps: seq<Page>, bs: seq<Block>, k: nat)
    requires Tied(ps, bs) && k < |bs|
    ensures Tied(ps, [bs[k]] + Removed(bs, k))
  {
    var cs := [bs[k]] + Removed(bs, k);
    forall j | 0 <= j < |cs|
      ensures cs[j].base < |ps| && ps[cs[j].base].property == cs[j].size && ps[cs[j].base].free
    {
      assert cs[j] == bs[if j == 0 then k else if j <= k then j - 1 else j];
    }
    forall i: nat | i < |ps| && ps[i].free ensures HeadOf(cs, i) {
      var m :| 0 <= m < |bs| && bs[m].base == i;
      assert cs[if m == k then 0 else if m < k then m + 1 else m].base == i;
    }
  }

  lemma ApartToFront(bs: seq<Block>, k: nat)
    requires Apart(bs) && k < |bs|
    ensures Apart([bs[k]] + Removed(bs, k))
  {
    ApartRemoved(bs, k);
    ApartCons(bs[k], Removed(bs, k));
  }

  lemma Within(s: set<nat>, n: nat)
    requires forall i | i in s :: i < n
    ensures |s| <= n
  {
    RangeSize(0, n);
    Subset(s, Range(0, n));
  }

  lemma Subset<T>(s: set<T>, t: set<T>)
    requires s <= t
    ensures |s| <= |t|
  {
    assert t == s + (t - s);
  }

  class Area {
    const pages: array<Page>
    const links: seq<ListEntry>  // page_link of each page
    const head: ListEntry        // free_list
    var nrFree: nat
    ghost var ring: seq<ListEntry>
    ghost var free: seq<Block>   // the blocks on the list, in list order
    ghost var used: set<nat>     // the pages handed out
    ghost var managed: set<nat>

    ghost predicate Shape() {
      && |links| == pages.Length < 0xffff_ffff
      && head.id == -1
      && forall i | 0 <= i < |links| :: links[i].id == i
    }

    /** The list holds exactly the entries of the blocks of free, in order. */
    ghost predicate Wired()
      reads this, ring
    {
      Shape() && Matches(ring, free) && Ring(ring)
    }

    /** The list holds these entries in order, but the last is linked to itself: no ring. */
    ghost predicate Loose()
      reads this, ring, pages
    {
      && Shape() && Matches(ring, free) && free != [] && SelfLinked(ring, ring[|free|])
      && Sized(pages[..], free) && nrFree <= pages.Length
    }

    /** Either way, following list_next from the head leads through all blocks and back to the head. */
    ghost predicate Walkable()
      reads this, ring, pages
    {
      Shape() && Matches(ring, free) && Forward(ring) && Sized(pages[..], free)
    }

    lemma LooseOrWired()
      ensures Loose() ==> Walkable() && !Wired()
      ensures Wired() && Tied(pages[..], free) ==> Walkable()
    {
      if Loose() { SelfLinkedNoRing(ring, ring[|free|], ring); }
    }

    /** There is a ring through the head, or there is none. */
    lemma RingOrNone()
      ensures Wired() ==> exists d: seq<ListEntry> :: d != [] && d[0] == head && Ring(d)
      ensures Loose() ==> !exists d: seq<ListEntry> :: d != [] && d[0] == head && Ring(d)
    {
      hide Ring, SelfLinked, Sized;
      if Wired() { assert ring != [] && ring[0] == head && Ring(ring); }
      if Loose() {
        forall d: seq<ListEntry> | d != [] && d[0] == head ensures !Ring(d) {
          SelfLinkedNoRing(ring, ring[|free|], d);
        }
      }
    }

    ghost predicate Matches(ring: seq<ListEntry>, free: seq<Block>) {
      && |ring| == |free| + 1 && ring[0] == head
      && (forall k | 0 <= k < |free| :: free[k].base < |links| && ring[k + 1] == links[free[k].base])
    }

    lemma MatchesDeleted(ring: seq<ListEntry>, free: seq<Block>, k: nat)
      requires Matches(ring, free) && k < |free|
      ensures Matches(Deleted(ring, k + 1), Removed(free, k))
    {
    }

    ghost predicate Valid()
      reads this, ring, pages
    {
      && Wired()
      && Apart(free)
      && Tied(pages[..], free)
      && Parted(free, used, managed)
      && Usable(pages[..], managed)
      && nrFree == Sum(free)
    }

    /** nr_free is the number of managed pages that are not handed out, and so it never wraps around. */
    lemma CountFits()
      requires Valid()
      ensures nrFree + |used| == |managed| <= pages.Length
    {
      hide Tied, Ring, Apart, Parted, Sum, Range;
      SumIsFree(free, used, managed);
      Within(managed, pages.Length);
    }

    /** The init function of either allocator: an empty list. */
    constructor (pages: array<Page>, links: seq<ListEntry>, head: ListEntry)
      requires |links| == pages.Length < 0xffff_ffff && head.id == -1
      requires forall i | 0 <= i < |links| :: links[i].id == i
      requires forall i | 0 <= i < pages.Length :: !pages[i].free
      modifies head
      ensures this.pages == pages && this.links == links && this.head == head
      ensures Valid() && free == [] && used == {} && managed == {} && nrFree == 0
    {
      this.pages, this.links, this.head := pages, links, head;
      nrFree := 0;
      ring, free, used, managed := [head], [], {}, {};
      new;
      head.prev, head.next := head, head;
    }

    /** list_add of a page to the front of the list. */
    method AddFirst(p: nat, ghost size: nat)
      requires Wired() && p < |links| && !HeadOf(free, p)
      modifies this`ring, this`free, head, links
      ensures Wired() && free == [Block(p, size)] + old(free)
    {
      hide Inserted, NoDup, HeadOf, Before;
      NotOnRing(p);
      MatchesInserted(ring, free, 0, p, size);
      assert free[..0] + [Block(p, size)] + free[0..] == [Block(p, size)] + free;
      Neighbours(0);
      ListAdd(head, links[p]);
      RingAdd(ring, 0, links[p]);
      ring := Inserted(ring, 0, links[p]);
      free := [Block(p, size)] + free;
    }

    lemma NotOnRing(p: nat)
      requires Wired() && p < |links| && !HeadOf(free, p)
      ensures links[p] !in ring
    {
      forall j | 0 <= j < |ring| ensures ring[j].id != p {
        if j > 0 { assert ring[j] == links[free[j - 1].base]; }
      }
    }

    /** The neighbours of the k-th entry of the ring are the head or embedded in pages. */
    lemma Neighbours(k: nat)
      requires Wired() && k < |ring|
      ensures ring[k].next in links + [head] && ring[k].prev in links + [head] && ring[k] in links + [head]
      ensures ring[k].next == After(ring, k) && ring[k].prev == Before(ring, k)
    {
      forall j | 0 <= j < |ring| ensures ring[j] in links + [head] {
        if j > 0 { assert ring[j] == links[free[j - 1].base]; }
      }
      assert ring[k].next == After(ring, k) && ring[k].prev == Before(ring, k);
    }

    /** What list_next gives at the k-th entry of the ring: the k-th block of the list, or the head at the end. */
    lemma Step(k: nat)
      requires Wired() && k <= |free|
      ensures ring[k].next == After(ring, k) && (k == |free| <==> After(ring, k) == head)
      ensures k < |free| ==> After(ring, k) == ring[k + 1] == links[free[k].base]
                             && ring[k + 1].id == free[k].base < |links|
    {
      if k < |free| { UniqueAt(ring, k + 1, 0); }
    }

    /** What list_next gives, on any list that can be walked. */
    lemma Walk(k: nat)
      requires Walkable() && k <= |free|
      ensures ring[k].next == After(ring, k) && (k == |free| <==> After(ring, k) == head)
      ensures k < |free| ==> After(ring, k) == ring[k + 1] == links[free[k].base]
                             && ring[k + 1].id == free[k].base < |links|
                             && pages[free[k].base].property == free[k].size
    {
      if k < |free| { UniqueAt(ring, k + 1, 0); }
    }

    /** list_prev of the k-th block's entry is the entry before it, which stays where it is when the block goes. */
    lemma Behind(k: nat)
      requires Wired() && k < |free|
      ensures links[free[k].base].prev == ring[k] && Deleted(ring, k + 1)[k] == ring[k]
      ensures |Removed(free, k)| == |free| - 1
    {
      assert ring[k + 1].prev == Before(ring, k + 1);
    }

    lemma MatchesResized(ring: seq<ListEntry>, free: seq<Block>, free': seq<Block>)
      requires Matches(ring, free) && |free'| == |free| && forall k | 0 <= k < |free| :: free'[k].base == free[k].base
      ensures Matches(ring, free')
    {
    }

    /** list_prev of the k-th block's entry: the entry of the block before it, or the head. */
    lemma StepBack(k: nat)
      requires Wired() && k < |free|
      ensures free[k].base < |links|
      ensures var le := links[free[k].base].prev;
              && (le == head <==> k == 0) && (k > 0 ==> le.id == free[k - 1].base < |links|)
    {
      Behind(k);
      if k > 0 { UniqueAt(ring, k, 0); }
    }

    /** list_next of the k-th block's entry. */
    lemma StepOn(k: nat)
      requires Wired() && k < |free|
      ensures free[k].base < |links|
      ensures var le := links[free[k].base].next;
              && (le == head <==> k + 1 == |free|) && (k + 1 < |free| ==> le.id == free[k + 1].base < |links|)
    {
      Step(k);
      Step(k + 1);
    }

    /** list_add_before the list head: to the back of the list. */
    method AddLast(p: nat, ghost size: nat)
      requires Wired() && p < |links| && !HeadOf(free, p)
      modifies this`ring, this`free, head, links
      ensures Wired() && free == old(free) + [Block(p, size)]
    {
      NotOnRing(p);
      Neighbours(0);
      ListAddBefore(head, links[p]);
      RingAdd(ring, |ring| - 1, links[p]);
      ring := Inserted(ring, |ring| - 1, links[p]);
      free := free + [Block(p, size)];
    }

    /** list_del of the k-th block of the list. On the block that is linked to itself it has no effect. */
    method Delete(p: nat, ghost k: nat)
      requires k < |free| && free[k].base == p && (Wired() || (Loose() && k == |free| - 1))
      modifies this`ring, this`free, head, links
      ensures old(Wired()) ==> Wired() && free == Removed(old(free), k) && ring == Deleted(old(ring), k + 1)
      ensures old(Loose()) ==> Loose() && free == old(free) && ring == old(ring)
    {
      hide Deleted, Removed, NoDup, Ring, HeadOf, After, Before, SelfLinked, Sized;
      LooseOrWired();
      if Wired() {
        Neighbours(k + 1);
        MatchesDeleted(ring, free, k);
      } else {
        LooseEnds();
      }
      ListDel(links[p]);
      if old(Wired()) {
        RingDel(ring, k + 1);
        ring := Deleted(ring, k + 1);
        free := Removed(free, k);
      } else {
        SelfDel(ring, k + 1);
      }
    }

    /** A list whose new last block is linked to itself. */
    lemma TailLoose(bs: seq<Block>, b: Block)
      requires Shape() && Matches(ring, free) && Tied(pages[..], free) && free == bs[..|bs|] + [b] + bs[|bs|..]
      requires b.base < |links| && SelfLinked(ring, links[b.base]) && nrFree <= pages.Length
      ensures Loose() && free == bs + [b] && pages[b.base].property == b.size
    {
      hide SelfLinked, HeadOf;
      assert free == bs + [b];
      assert free[|bs|] == b && ring[|free|] == links[b.base];
    }

    /** The links of the last entry. */
    lemma LooseEnds()
      requires Loose()
      ensures var e := links[free[|free| - 1].base]; e == ring[|free|] && e.prev == e && e.next == head
    {
    }

    /** list_add of a page after the k-th entry of the ring. */
    method AddAfter(prev: ListEntry, p: nat, ghost size: nat, ghost k: nat)
      requires Wired() && p < |links| && !HeadOf(free, p) && k <= |free| && prev == ring[k]
      modifies this`ring, this`free, head, links
      ensures Wired() && free == old(free)[..k] + [Block(p, size)] + old(free)[k..]
      ensures ring == Inserted(old(ring), k, links[p])
    {
      hide Inserted, NoDup;
      NotOnRing(p);
      Neighbours(k);
      MatchesInserted(ring, free, k, p, size);
      ListAdd(prev, links[p]);
      RingAdd(ring, k, links[p]);
      ring := Inserted(ring, k, links[p]);
      free := free[..k] + [Block(p, size)] + free[k..];
    }

    /** list_add_before of a page before the entry that follows the k-th entry of the ring. */
    method AddBefore(le: ListEntry, p: nat, ghost size: nat, ghost k: nat)
      requires Wired() && p < |links| && !HeadOf(free, p) && k <= |free| && le == After(ring, k)
      modifies this`ring, this`free, head, links
      ensures Wired() && free == old(free)[..k] + [Block(p, size)] + old(free)[k..]
      ensures ring == Inserted(old(ring), k, links[p])
    {
      hide Inserted, NoDup, After, Before, Ring;
      NotOnRing(p);
      Neighbours(k);
      Neighbours(if k < |free| then k + 1 else 0);
      MatchesInserted(ring, free, k, p, size);
      BackFrom(ring, k);
      ListAddBefore(le, links[p]);
      RingAdd(ring, k, links[p]);
      ring := Inserted(ring, k, links[p]);
      free := free[..k] + [Block(p, size)] + free[k..];
    }

    lemma MatchesInserted(ring: seq<ListEntry>, free: seq<Block>, k: nat, p: nat, size: nat)
      requires Matches(ring, free) && k <= |free| && p < |links|
      ensures Matches(Inserted(ring, k, links[p]), free[..k] + [Block(p, size)] + free[k..])
    {
    }
  }

  /** The first loop of either free function, with its assertions. */
  method ResetPages(a: Area, base: nat, n: nat)
    requires a.Valid() && n > 0 && forall i: nat | base <= i < base + n :: i in a.used
    modifies a.pages
    ensures a.Valid() && base + n <= a.pages.Length
  {
    hide Apart, Tied, Parted, Free, Ring, Sum, HeadOf;
    var p := base;
    while p != base + n
      invariant base <= p <= base + n
      invariant a.Valid()
      invariant p > base ==> p <= a.pages.Length
      decreases base + n - p
    {
      UsedPage(a.pages[..], a.free, a.used, a.managed, p);
      assert !a.pages[p].reserved && !a.pages[p].free;
      ResetPage(a.pages[..], a.free, a.managed, p);
      a.pages[p] := Page(0, false, false, a.pages[p].property);
      p := p + 1;
    }
  }

  lemma TiedResizeAt(ps: seq<Page>, bs: seq<Block>, j: nat, size: nat)
    requires Tied(ps, bs) && Apart(bs) && j < |bs|
    ensures bs[j].base < |ps|
    ensures Tied(ps[bs[j].base := ps[bs[j].base].(property := size)], bs[j := Block(bs[j].base, size)])
  {
    var qs := ps[bs[j].base := ps[bs[j].base].(property := size)];
    var cs := bs[j := Block(bs[j].base, size)];
    forall k | 0 <= k < |cs|
      ensures cs[k].base < |qs| && qs[cs[k].base].property == cs[k].size && qs[cs[k].base].free
    {
      if k != j { OtherBase(bs, k, j); }
    }
    forall i: nat | i < |qs| && qs[i].free ensures HeadOf(cs, i) {
      var m :| 0 <= m < |bs| && bs[m].base == i;
      assert cs[m].base == i;
    }
  }

  /** Merging the block at j + 1 into the one at j: the lower head records the joint size, the mark of the
      upper one is cleared. */
  lemma TiedMerged(ps: seq<Page>, bs: seq<Block>, j: nat)
    requires Tied(ps, bs) && Apart(bs) && j + 1 < |bs|
    ensures bs[j].base < |ps| && bs[j + 1].base < |ps| && bs[j].base != bs[j + 1].base
    ensures ps[bs[j].base].property == bs[j].size && ps[bs[j + 1].base].property == bs[j + 1].size
    ensures Tied(ps[bs[j].base := ps[bs[j].base].(property := bs[j].size + bs[j + 1].size)]
                   [bs[j + 1].base := ps[bs[j + 1].base].(free := false)], Merged(bs, j))
  {
    hide Tied, Apart;
    TiedAt(ps, bs, j);
    TiedAt(ps, bs, j + 1);
    OtherBase(bs, j, j + 1);
    TiedRemove(ps, bs, j + 1);
    ApartRemoved(bs, j + 1);
    var lo, hi, size := bs[j].base, bs[j + 1].base, bs[j].size + bs[j + 1].size;
    var qs := ps[hi := ps[hi].(free := false)];
    TiedResizeAt(qs, Removed(bs, j + 1), j, size);
    assert Removed(bs, j + 1)[j := Block(lo, size)] == Merged(bs, j);
    assert qs[lo := qs[lo].(property := size)] == ps[lo := ps[lo].(property := size)][hi := ps[hi].(free := false)];
  }
}
