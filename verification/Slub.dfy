/** The page layer of the SLUB allocator: first fit, and one coalescing pass on free. */
module Slub {
  import opened Pages
  import opened Sequences
  import opened FreeBlocks
  import opened ListH
  import opened FreeArea
  import opened Wrappers

  /** slub_init_memmap: every page becomes a block of its own at the back of the list. */
  method InitMemmap(a: Area, base: nat, n: nat)
    requires a.Valid() && 0 < n && base + n <= a.pages.Length
    requires forall i: nat | base <= i < base + n :: i !in a.managed && a.pages[i].reserved
    modifies a, a.pages, a.head, a.links
    ensures a.Valid() && a.used == old(a.used) && a.managed == old(a.managed) + Range(base, n)
    ensures a.free == old(a.free) + Singles(base, n)
  {
    hide Apart, Tied, Parted, Usable, Free, Ring, Singles, Range, Sum, NoDup, After, HeadOf;
    NoSingles(a.free, base);
    var p := base;
    while p != base + n
      invariant base <= p <= base + n
      invariant a.Wired() && Apart(a.free) && Tied(a.pages[..], a.free)
      invariant a.used == old(a.used) && a.managed == old(a.managed) + Range(base, p - base)
      invariant Parted(a.free, a.used, a.managed) && Usable(a.pages[..], a.managed)
      invariant a.free == old(a.free) + Singles(base, p - base)
      invariant a.nrFree == old(a.nrFree)
      invariant Sum(a.free) == a.nrFree + (p - base)
      invariant forall i | p <= i < base + n :: a.pages[i] == old(a.pages[i])
      decreases base + n - p
    {
      SinglesStep(old(a.free), base, p - base);
      AddSingle(a.pages[..], a.free, a.used, a.managed, p);
      a.pages[p] := Page(0, false, true, 1);
      a.AddLast(p, 1);
      a.managed := a.managed + {p};
      p := p + 1;
    }
    a.nrFree := a.nrFree + n;
  }

  /** n blocks of one page each. */
  function Singles(base: nat, n: nat): seq<Block> {
    if n == 0 then [] else Singles(base, n - 1) + [Block(base + n - 1, 1)]
  }

  lemma NoSingles(bs: seq<Block>, base: nat)
    ensures bs + Singles(base, 0) == bs && Range(base, 0) == {}
  {
  }

  lemma SinglesStep(bs: seq<Block>, base: nat, m: nat)
    ensures bs + Singles(base, m) + [Block(base + m, 1)] == bs + Singles(base, m + 1)
    ensures Range(base, m) + {base + m} == Range(base, m + 1)
  {
  }

  lemma AddSingle(ps: seq<Page>, bs: seq<Block>, used: set<nat>, managed: set<nat>, p: nat)
    requires Apart(bs) && Tied(ps, bs) && Parted(bs, used, managed) && Usable(ps, managed)
    requires p < |ps| && p !in managed
    ensures !HeadOf(bs, p)
    ensures Apart(bs + [Block(p, 1)]) && Tied(ps[p := Page(0, false, true, 1)], bs + [Block(p, 1)])
    ensures Parted(bs + [Block(p, 1)], used, managed + {p}) && Usable(ps[p := Page(0, false, true, 1)], managed + {p})
    ensures Sum(bs + [Block(p, 1)]) == Sum(bs) + 1
  {
    NotFreeHead(bs, p);
    AddApart(bs, Block(p, 1));
    AddParted(bs, Block(p, 1), used, managed);
    assert Range(p, 1) == {p};
    TiedAdd(ps, bs, bs + [Block(p, 1)], |bs|, Page(0, false, true, 1));
    SumAppend(bs, [Block(p, 1)]);
  }

  /** slub_alloc_pages: first fit, the remainder of the block going to the front of the list. */
  method AllocPages(a: Area, n: nat) returns (r: Option<nat>)
    requires a.Valid() && n > 0
    modifies a, a.pages, a.head, a.links
    ensures a.Valid() && a.managed == old(a.managed)
    ensures r.None? <==> forall b | b in old(a.free) :: b.size < n
    ensures r.None? ==> a.free == old(a.free) && a.used == old(a.used) && a.nrFree == old(a.nrFree)
    ensures r.Some? ==>
              var k := FirstFit(old(a.free), n);
              && k < |old(a.free)| && r.value == old(a.free)[k].base
              && a.free == Rest(old(a.free)[k], n) + Removed(old(a.free), k)
              && a.used == old(a.used) + Range(r.value, n) && Range(r.value, n) !! old(a.used)
              && a.nrFree == old(a.nrFree) - n
    ensures old(Scattered(a.free)) ==> Scattered(a.free)
  {
    hide Apart, Tied, Parted, Usable, Free, Ring, Sum, Rest, Removed, Scattered;
    SomeFits(a.free, n);
    if n > a.nrFree {
      return None;
    }
    var k := FindFit(a, n);
    if k.None? {
      return None;
    }
    var page := k.value;
    if Scattered(a.free) { TakeScattered(a.free, FirstFit(a.free, n), n); }
    Carve(a, page, n);
    r := Some(page);
  }

  /** A request larger than the whole free area fits no block; otherwise first fit finds a block if there is one. */
  lemma SomeFits(bs: seq<Block>, n: nat)
    ensures n > Sum(bs) ==> forall b | b in bs :: b.size < n
    ensures FirstFit(bs, n) < |bs| <==> exists b :: b in bs && b.size >= n
  {
    hide Sum, FirstFit;
    forall b | b in bs ensures b.size <= Sum(bs) {
      var k :| 0 <= k < |bs| && bs[k] == b;
      SizeBelowSum(bs, k);
    }
    if FirstFit(bs, n) < |bs| { assert bs[FirstFit(bs, n)] in bs; }
  }

  /** The search loop of slub_alloc_pages. */
  method FindFit(a: Area, n: nat) returns (page: Option<nat>)
    requires a.Wired() && Tied(a.pages[..], a.free)
    ensures page.None? <==> FirstFit(a.free, n) == |a.free|
    ensures page.Some? ==> page.value == a.free[FirstFit(a.free, n)].base
  {
    hide Ring;
    page := None;
    a.Step(0);
    var le := a.head.next;
    ghost var k := 0;
    while le != a.head
      invariant k <= |a.free| && le == After(a.ring, k)
      invariant k == |a.free| <==> le == a.head
      invariant FirstFit(a.free, n) >= k
      decreases |a.free| - k
    {
      a.Step(k);
      a.Step(k + 1);
      var p := le.id;
      if a.pages[p].property >= n {
        return Some(p);
      }
      le := le.next;
      k := k + 1;
    }
  }

  /** The end of slub_alloc_pages: unlink the block found, list what remains of it, mark it handed out. */
  method Carve(a: Area, page: nat, n: nat)
    requires a.Valid() && 0 < n && FirstFit(a.free, n) < |a.free| && page == a.free[FirstFit(a.free, n)].base
    modifies a, a.pages, a.head, a.links
    ensures a.Valid() && a.managed == old(a.managed)
    ensures a.free == Rest(old(a.free)[FirstFit(old(a.free), n)], n) + Removed(old(a.free), FirstFit(old(a.free), n))
    ensures a.used == old(a.used) + Range(page, n) && Range(page, n) !! old(a.used)
    ensures a.nrFree == old(a.nrFree) - n
  {
    hide Apart, Tied, Parted, Usable, Free, Ring, Sum, Rest, Removed, NoDup, After, Range, FirstFit, HeadOf,
         SelfLinked, Sized, Taken;
    ghost var bs, k := a.free, FirstFit(a.free, n);
    ghost var b := bs[k];
    Carvable(a.pages[..], bs, k, n, a.used, a.managed);
    ghost var ps := a.pages[..];
    Unlink(a, page, n, k);
    ghost var us := a.pages[..];
    TakenLast(ps, us, b, n);
    a.nrFree := a.nrFree - n;
    a.pages[page] := a.pages[page].(free := false);
    a.used := a.used + Range(page, n);
    assert a.pages[..] == us[page := us[page].(free := false)];
  }

  /** The k-th block leaves the list, and what remains of it after n pages goes to the front. */
  method Unlink(a: Area, page: nat, n: nat, ghost k: nat)
    requires a.Wired() && k < |a.free| && page == a.free[k].base && page < a.pages.Length
    requires 0 < n <= a.free[k].size == a.pages[page].property && a.free[k].End() <= a.pages.Length
    requires a.free[k].size > n ==> !HeadOf(Removed(a.free, k), page + n)
    modifies a`ring, a`free, a.pages, a.head, a.links
    ensures a.Wired() && a.free == Rest(old(a.free)[k], n) + Removed(old(a.free), k)
    ensures var b := old(a.free)[k];
            a.pages[..] == if b.size > n
                           then old(a.pages[..])[page + n :=
                                  old(a.pages[page + n]).(property := b.size - n).(free := true)]
                           else old(a.pages[..])
  {
    hide Ring, Rest, Removed, NoDup, After, HeadOf, SelfLinked, Sized;
    RestThen(a.free[k], n, Removed(a.free, k));
    a.Delete(page, k);
    if a.pages[page].property > n {
      var p := page + n;
      a.pages[p] := a.pages[p].(property := a.pages[page].property - n).(free := true);
      a.AddFirst(p, a.pages[page].property - n);
    }
  }

  /** What taking n pages from the k-th block makes of blocks, descriptors and page sets. */
  lemma Carvable(ps: seq<Page>, bs: seq<Block>, k: nat, n: nat, used: set<nat>, managed: set<nat>)
    requires Tied(ps, bs) && Apart(bs) && Parted(bs, used, managed) && Usable(ps, managed)
    requires k < |bs| && 0 < n <= bs[k].size
    ensures bs[k].End() <= |ps| && ps[bs[k].base].property == bs[k].size
    ensures var rs := Removed(bs, k);
            Rest(bs[k], n) + rs
            == if bs[k].size > n then [Block(bs[k].base + n, bs[k].size - n)] + rs else rs
    ensures bs[k].size > n ==> !HeadOf(Removed(bs, k), bs[k].base + n)
    ensures var cs := Rest(bs[k], n) + Removed(bs, k);
            && Tied(Taken(ps, bs[k], n), cs) && Apart(cs) && Parted(cs, used + Range(bs[k].base, n), managed)
            && Sum(cs) == Sum(bs) - n
    ensures Range(bs[k].base, n) !! used && Usable(Taken(ps, bs[k], n), managed)
  {
    hide Apart, Tied, Parted, Usable, Free, Sum, Rest, Removed, HeadOf, Range, Taken;
    BlockInside(ps, bs, k, used, managed);
    RestThen(bs[k], n, Removed(bs, k));
    TakeParted(bs, k, n, used, managed);
    TakeApart(bs, k, n);
    TakeTied(ps, bs, k, n);
    TakeUnused(bs, k, n, used, managed);
    TakeUsable(ps, bs, k, n, managed);
  }

  /** One merge of the coalescing pass: the block in hand absorbs the block at p, which leaves the list. */
  method Absorb(a: Area, base: nat, p: nat, ghost hand: Block, ghost k: nat) returns (base': nat)
    requires a.Wired() && Tied(a.pages[..], [hand] + a.free) && Apart([hand] + a.free)
    requires k < |a.free| && Touch(hand, a.free[k]) && base == hand.base && p == a.free[k].base
    modifies a`ring, a`free, a.pages, a.head, a.links
    ensures a.Wired() && a.free == Removed(old(a.free), k) && base' == Join(hand, old(a.free)[k]).base
    ensures Tied(a.pages[..], [Join(hand, old(a.free)[k])] + a.free) && Apart([Join(hand, old(a.free)[k])] + a.free)
    ensures Usable(old(a.pages[..]), a.managed) ==> Usable(a.pages[..], a.managed)
  {
    hide Apart, Tied, Ring, Removed, NoDup, HeadOf, SelfLinked, Sized;
    TiedJoin(a.pages[..], hand, a.free, k);
    JoinApartAt(hand, a.free, k);
    ghost var ps := a.pages[..];
    ghost var b := a.free[k];
    if base + a.pages[base].property == p {
      a.pages[base] := a.pages[base].(property := a.pages[base].property + a.pages[p].property);
      a.pages[p] := a.pages[p].(free := false);
      assert a.pages[..] == ps[base := ps[base].(property := hand.size + b.size)][p := ps[p].(free := false)];
      base' := base;
    } else {
      a.pages[p] := a.pages[p].(property := a.pages[p].property + a.pages[base].property);
      a.pages[base] := a.pages[base].(free := false);
      assert a.pages[..] == ps[p := ps[p].(property := b.size + hand.size)][base := ps[base].(free := false)];
      base' := p;
    }
    a.Delete(p, k);
  }

  /** One round of the coalescing pass, at the first entry of rest, le. */
  method PassOver(a: Area, base: nat, le: ListEntry, ghost hand: Block, ghost kept: seq<Block>, ghost rest: seq<Block>)
    returns (head: nat, le': ListEntry, ghost last: Block, ghost kept': seq<Block>)
    requires a.Wired() && Tied(a.pages[..], [hand] + a.free) && Apart([hand] + a.free) && base == hand.base
    requires Usable(a.pages[..], a.managed) && rest != [] && a.free == kept + rest && le == After(a.ring, |kept|)
    modifies a`ring, a`free, a.pages, a.head, a.links
    ensures a.Wired() && Usable(a.pages[..], a.managed) && head == last.base
    ensures Tied(a.pages[..], [last] + a.free) && Apart([last] + a.free)
    ensures a.free == kept' + rest[1..] && PassFrom(kept, rest, hand) == PassFrom(kept', rest[1..], last)
    ensures |kept'| < |a.ring| && le' == After(a.ring, |kept'|) && (le' == a.head <==> rest[1..] == [])
  {
    hide Apart, Tied, Ring, Removed, NoDup, Usable, HeadOf, After, Free, Sum, Touch, SelfLinked, Sized, PassFrom, Join;
    head, last, kept' := base, hand, kept;
    ghost var k := |kept|;
    a.Step(k);
    a.Step(k + 1);
    var p := le.id;
    le' := le.next;
    TouchTest(a.pages[..], last, a.free, k);
    PassStep(kept, rest, last);
    if head + a.pages[head].property == p || p + a.pages[p].property == head {
      head := Absorb(a, head, p, last, k);
      last := Join(last, rest[0]);
      RemovedMiddle(kept, rest);
      a.Step(k);
    } else {
      kept' := kept + [rest[0]];
    }
  }

  /** The coalescing loop of slub_free_pages: it deletes from the list it walks, and still visits every
      original entry exactly once. */
  method CoalescePass(a: Area, base: nat, ghost hand: Block) returns (head: nat, ghost last: Block)
    requires a.Wired() && Tied(a.pages[..], [hand] + a.free) && Apart([hand] + a.free) && base == hand.base
    requires Usable(a.pages[..], a.managed)
    modifies a`ring, a`free, a.pages, a.head, a.links
    ensures a.Wired() && Usable(a.pages[..], a.managed)
    ensures Coalesce(old(a.free), hand) == Pass(a.free, last) && head == last.base
    ensures Tied(a.pages[..], [last] + a.free) && Apart([last] + a.free)
  {
    hide Apart, Tied, Ring, Removed, NoDup, Usable, HeadOf, Coalesce, After, Range, Free, Sum, Touch,
         SelfLinked, Sized, PassFrom, Join;
    head, last := base, hand;
    ghost var kept: seq<Block> := [];
    ghost var visited := 0;
    a.Step(0);
    var le := a.head.next;
    assert old(a.free)[visited..] == old(a.free);
    PassStarts(a.free, hand);
    while le != a.head
      invariant a.Wired() && Usable(a.pages[..], a.managed) && head == last.base
      invariant visited <= |old(a.free)| && a.free == kept + old(a.free)[visited..]
      invariant le == After(a.ring, |kept|) && (le == a.head <==> visited == |old(a.free)|)
      invariant Tied(a.pages[..], [last] + a.free) && Apart([last] + a.free)
      invariant Coalesce(old(a.free), hand) == PassFrom(kept, old(a.free)[visited..], last)
      decreases |old(a.free)| - visited
    {
      ghost var rest := old(a.free)[visited..];
      assert rest[1..] == old(a.free)[visited + 1..];
      head, le, last, kept := PassOver(a, head, le, last, kept, rest);
      visited := visited + 1;
    }
    assert old(a.free)[visited..] == [] && kept + [] == kept;
    PassEnds(kept, last);
  }

  /** The test of the pass, on the marks, is whether the two blocks touch. */
  lemma TouchTest(ps: seq<Page>, hand: Block, bs: seq<Block>, k: nat)
    requires Tied(ps, [hand] + bs) && k < |bs|
    ensures hand.base < |ps| && bs[k].base < |ps|
    ensures Touch(hand, bs[k]) <==>
            hand.base + ps[hand.base].property == bs[k].base || bs[k].base + ps[bs[k].base].property == hand.base
  {
    hide Tied;
    TiedJoinSizes(ps, hand, bs, k);
  }

  lemma TiedJoinSizes(ps: seq<Page>, hand: Block, bs: seq<Block>, k: nat)
    requires Tied(ps, [hand] + bs) && k < |bs|
    ensures hand.base < |ps| && bs[k].base < |ps|
    ensures ps[hand.base].property == hand.size && ps[bs[k].base].property == bs[k].size
  {
    TiedAt(ps, [hand] + bs, 0);
    TiedAt(ps, [hand] + bs, k + 1);
  }

  lemma RemovedMiddle(kept: seq<Block>, rest: seq<Block>)
    requires rest != []
    ensures Removed(kept + rest, |kept|) == kept + rest[1..]
  {
  }

  /** The pass over the rest, with what was kept before it. */
  function PassFrom(kept: seq<Block>, rest: seq<Block>, hand: Block): Pass {
    var r := Coalesce(rest, hand);
    Pass(kept + r.kept, r.hand)
  }

  lemma PassStarts(bs: seq<Block>, hand: Block)
    ensures PassFrom([], bs, hand) == Coalesce(bs, hand)
  {
    hide Coalesce;
    var r := Coalesce(bs, hand);
    assert [] + r.kept == r.kept;
  }

  lemma PassEnds(kept: seq<Block>, hand: Block)
    ensures PassFrom(kept, [], hand) == Pass(kept, hand)
  {
    assert kept + [] == kept;
  }

  /** The pass over the rest, from one step to the next. */
  lemma PassStep(kept: seq<Block>, rest: seq<Block>, hand: Block)
    requires rest != []
    ensures kept + rest == kept + [rest[0]] + rest[1..]
    ensures PassFrom(kept, rest, hand)
            == if Touch(hand, rest[0]) then PassFrom(kept, rest[1..], Join(hand, rest[0]))
               else PassFrom(kept + [rest[0]], rest[1..], hand)
  {
    hide Coalesce;
    PassUnfold(rest, hand);
    Reassociate(kept, rest[0], Coalesce(rest[1..], hand).kept);
    Reassociate(kept, rest[0], rest[1..]);
    assert rest == [rest[0]] + rest[1..];
  }

  lemma PassUnfold(rest: seq<Block>, hand: Block)
    requires rest != []
    ensures Coalesce(rest, hand)
            == if Touch(hand, rest[0]) then Coalesce(rest[1..], Join(hand, rest[0]))
               else var t := Coalesce(rest[1..], hand); Pass([rest[0]] + t.kept, t.hand)
  {
    if hand.End() == rest[0].base || rest[0].End() == hand.base {
      assert Join(hand, rest[0]) == Block(if hand.End() == rest[0].base then hand.base else rest[0].base,
          hand.size + rest[0].size);
    }
  }

  lemma Reassociate(a: seq<Block>, b: Block, c: seq<Block>)
    ensures a + ([b] + c) == a + [b] + c
  {
  }

  /** slub_free_pages: any run of pages handed out may be given back. */
  method FreePages(a: Area, base: nat, n: nat)
    requires a.Valid() && n > 0 && forall i: nat | base <= i < base + n :: i in a.used
    modifies a, a.pages, a.head, a.links
    ensures a.Valid() && a.managed == old(a.managed) && a.used == old(a.used) - Range(base, n)
    ensures a.nrFree == old(a.nrFree) + n
    ensures var r := Coalesce(old(a.free), Block(base, n)); a.free == [r.hand] + r.kept
    ensures old(Scattered(a.free)) ==> Scattered(a.free)
  {
    hide Apart, Tied, Parted, Usable, Free, Ring, Sum, HeadOf, Coalesce, NoDup, After, Scattered, Aloof;
    ghost var bs, hand := a.free, Block(base, n);
    if Scattered(bs) {
      CoalesceMaximal(bs, hand);
      ScatteredCons(Coalesce(bs, hand).hand, Coalesce(bs, hand).kept);
    }
    ResetPages(a, base, n);
    HandReady(a.pages[..], bs, a.used, a.managed, hand);
    ghost var ps := a.pages[..];
    a.pages[base] := a.pages[base].(property := n).(free := true);
    assert a.pages[..] == ps[base := ps[base].(property := n).(free := true)];
    var head;
    ghost var last;
    head, last := CoalescePass(a, base, hand);
    HandBack(bs, hand, a.used, a.managed);
    LastNotListed(last, a.free);
    TiedBounds(a.pages[..], last, a.free);
    a.nrFree := a.nrFree + n;
    a.AddFirst(head, last.size);
    a.used := a.used - Range(base, n);
  }

  lemma TiedBounds(ps: seq<Page>, last: Block, bs: seq<Block>)
    requires Tied(ps, [last] + bs)
    ensures last.base < |ps|
  {
    TiedAt(ps, [last] + bs, 0);
  }

  lemma LastNotListed(last: Block, bs: seq<Block>)
    requires Apart([last] + bs)
    ensures !HeadOf(bs, last.base)
  {
    forall k | 0 <= k < |bs| ensures bs[k].base != last.base { OtherBase([last] + bs, 0, k + 1); }
  }

  /** Marking the freed run makes it a block apart from those on the list. */
  lemma HandReady(ps: seq<Page>, bs: seq<Block>, used: set<nat>, managed: set<nat>, hand: Block)
    requires Tied(ps, bs) && Apart(bs) && Parted(bs, used, managed) && Usable(ps, managed)
    requires hand.size > 0 && forall i: nat | hand.base <= i < hand.End() :: i in used
    ensures hand.base < |ps| && Apart([hand] + bs)
    ensures var qs := ps[hand.base := ps[hand.base].(property := hand.size).(free := true)];
            Tied(qs, [hand] + bs) && Usable(qs, managed)
  {
    hide Tied, HeadOf, Free, Usable, Parted, Apart;
    assert hand.base in used;
    UsedPage(ps, bs, used, managed, hand.base);
    HandApart(bs, used, managed, hand);
    TiedAdd(ps, bs, [hand] + bs, 0, ps[hand.base].(property := hand.size).(free := true));
    StaysUsable(ps, hand.base, ps[hand.base].(property := hand.size).(free := true), managed);
  }

  lemma HandApart(bs: seq<Block>, used: set<nat>, managed: set<nat>, hand: Block)
    requires Apart(bs) && Parted(bs, used, managed)
    requires hand.size > 0 && forall i: nat | hand.base <= i < hand.End() :: i in used
    ensures Apart([hand] + bs)
  {
    hide Apart, Free;
    AddApart(bs, hand);
  }

  lemma HandBack(bs: seq<Block>, hand: Block, used: set<nat>, managed: set<nat>)
    requires Apart([hand] + bs) && Parted(bs, used, managed)
    requires forall i: nat | hand.base <= i < hand.End() :: i in used
    ensures var r := Coalesce(bs, hand);
            && Parted([r.hand] + r.kept, used - Range(hand.base, hand.size), managed)
            && Sum([r.hand] + r.kept) == Sum(bs) + hand.size
  {
    var r := Coalesce(bs, hand);
    forall i: nat ensures Free([r.hand] + r.kept, i) <==> Free([hand] + bs, i) { CoalescePages(bs, hand, i); }
    GiveParted(bs, hand, [r.hand] + r.kept, used, managed);
    CoalesceSum(bs, hand);
  }

  // ----- a new region -----

  lemma {:induction false} SinglesAt(base: nat, n: nat, i: nat)
    requires i < n
    ensures |Singles(base, n)| == n && Singles(base, n)[i] == Block(base + i, 1)
  {
    if i < n - 1 { SinglesAt(base, n - 1, i); } else { SinglesLength(base, n - 1); }
  }

  lemma {:induction false} SinglesLength(base: nat, n: nat)
    ensures |Singles(base, n)| == n
  {
    if n > 0 { SinglesLength(base, n - 1); }
  }

  /** From a new region of n pages no two are given at once, although all of them are free: each is a block of its
      own, and blocks are joined only by slub_free_pages. One at a time, they come in order. */
  method OneAtATime(a: Area, base: nat, n: nat, m: nat) returns (r: Option<nat>, got: seq<nat>)
    requires a.Valid() && a.free == [] && 0 < n && base + n <= a.pages.Length && m >= 2
    requires forall i: nat | base <= i < base + n :: i !in a.managed && a.pages[i].reserved
    modifies a, a.pages, a.head, a.links
    ensures r == None && |got| == n && forall i | 0 <= i < n :: got[i] == base + i
  {
    hide Apart, Tied, Parted, Usable, Free, Ring, Sum, Singles, Range, FirstFit, Removed, Rest, HeadOf, NoDup,
         SelfLinked, Sized, Scattered;
    AllOnes(base, n);
    InitMemmap(a, base, n);
    r := AllocPages(a, m);
    got := OneByOne(a, base, n);
  }

  lemma AllOnes(base: nat, n: nat)
    ensures [] + Singles(base, n) == Singles(base, n) && forall b | b in Singles(base, n) :: b.size == 1
  {
    SinglesLength(base, n);
    forall b | b in Singles(base, n) ensures b.size == 1 {
      var i :| 0 <= i < |Singles(base, n)| && Singles(base, n)[i] == b;
      SinglesAt(base, n, i);
    }
  }

  method OneByOne(a: Area, base: nat, n: nat) returns (got: seq<nat>)
    requires a.Valid() && a.free == Singles(base, n)
    modifies a, a.pages, a.head, a.links
    ensures |got| == n && forall i | 0 <= i < n :: got[i] == base + i
  {
    hide Apart, Tied, Parted, Usable, Free, Ring, Sum, Singles, Range, FirstFit, Removed, Rest, HeadOf, NoDup,
         SelfLinked, Sized, Scattered;
    got := [];
    SinglesLength(base, n);
    assert Singles(base, n)[0..] == Singles(base, n);
    for i := 0 to n
      invariant a.Valid() && a.free == Singles(base, n)[i..]
      invariant |got| == i && forall j | 0 <= j < i :: got[j] == base + j
    {
      SinglesAt(base, n, i);
      assert Singles(base, n)[i..][1..] == Singles(base, n)[i + 1..];
      FirstOfOnes(a.free);
      var p := AllocPages(a, 1);
      got := got + [p.value];
    }
  }

  lemma FirstOfOnes(bs: seq<Block>)
    requires bs != [] && bs[0].size == 1
    ensures FirstFit(bs, 1) == 0 && Rest(bs[0], 1) + Removed(bs, 0) == bs[1..] && bs[0] in bs
  {
  }
}
