/** Lists of free blocks as values: what splitting, inserting and coalescing do to the pages they hold. */
module FreeBlocks {
  import opened Pages

  ghost predicate Holds(b: Block, i: nat) {
    b.base <= i < b.End()
  }

  /** Some block of bs holds page i. */
  ghost predicate Free(bs: seq<Block>, i: nat) {
    exists k :: 0 <= k < |bs| && Holds(bs[k], i)
  }

  ghost predicate Clear(a: Block, b: Block) {
    a.End() <= b.base || b.End() <= a.base
  }

  /** Nonempty blocks that share no page. */
  ghost predicate Apart(bs: seq<Block>) {
    && (forall k | 0 <= k < |bs| :: bs[k].size >= 1)
    && (forall j, k | 0 <= j < k < |bs| :: Clear(bs[j], bs[k]))
  }

  function Sum(bs: seq<Block>): nat {
    if bs == [] then 0 else bs[0].size + Sum(bs[1..])
  }

  /** The managed pages are those handed out and those in free blocks, and no page is both. */
  ghost predicate Parted(bs: seq<Block>, used: set<nat>, managed: set<nat>) {
    && used <= managed
    && forall i: nat :: Free(bs, i) <==> i in managed && i !in used
  }

  function Removed<T>(s: seq<T>, k: nat): seq<T>
    requires k < |s|
  {
    s[..k] + s[k + 1..]
  }

  lemma {:induction false} SumAppend(a: seq<Block>, b: seq<Block>)
    ensures Sum(a + b) == Sum(a) + Sum(b)
  {
    if a == [] {
      assert a + b == b;
    } else {
      assert (a + b)[1..] == a[1..] + b;
      SumAppend(a[1..], b);
    }
  }

  lemma SumRemoved(bs: seq<Block>, k: nat)
    requires k < |bs|
    ensures Sum(Removed(bs, k)) == Sum(bs) - bs[k].size
  {
    hide Sum;
    assert bs == bs[..k] + ([bs[k]] + bs[k + 1..]);
    SumAppend(bs[..k], [bs[k]] + bs[k + 1..]);
    SumCons(bs[k], bs[k + 1..]);
    SumAppend(bs[..k], bs[k + 1..]);
  }

  lemma SumCons(b: Block, bs: seq<Block>)
    ensures Sum([b] + bs) == b.size + Sum(bs)
  {
    assert ([b] + bs)[1..] == bs;
  }

  lemma FreeAppend(a: seq<Block>, b: seq<Block>, i: nat)
    ensures Free(a + b, i) <==> Free(a, i) || Free(b, i)
  {
    if Free(a, i) {
      var k :| 0 <= k < |a| && Holds(a[k], i);
      assert Holds((a + b)[k], i);
    }
    if Free(b, i) {
      var k :| 0 <= k < |b| && Holds(b[k], i);
      assert Holds((a + b)[|a| + k], i);
    }
    if Free(a + b, i) {
      var k :| 0 <= k < |a + b| && Holds((a + b)[k], i);
      assert k < |a| ==> Holds(a[k], i);
      assert k >= |a| ==> Holds(b[k - |a|], i);
    }
  }

  lemma FreeOne(b: Block, i: nat)
    ensures Free([b], i) <==> Holds(b, i)
  {
    assert [b][0] == b;
  }

  /** A page is in bs exactly when it is in the k-th block or in the others. */
  lemma FreeRemoved(bs: seq<Block>, k: nat, i: nat)
    requires k < |bs|
    ensures Free(bs, i) <==> Holds(bs[k], i) || Free(Removed(bs, k), i)
  {
    assert bs == bs[..k] + ([bs[k]] + bs[k + 1..]);
    FreeAppend(bs[..k], [bs[k]] + bs[k + 1..], i);
    FreeAppend([bs[k]], bs[k + 1..], i);
    FreeOne(bs[k], i);
    FreeAppend(bs[..k], bs[k + 1..], i);
  }

  lemma ApartRemoved(bs: seq<Block>, k: nat)
    requires Apart(bs) && k < |bs|
    ensures Apart(Removed(bs, k))
    ensures forall j | 0 <= j < |Removed(bs, k)| :: Clear(Removed(bs, k)[j], bs[k])
  {
    var r := Removed(bs, k);
    assert forall j | 0 <= j < |r| :: r[j] == bs[if j < k then j else j + 1];
  }

  lemma ApartCons(b: Block, bs: seq<Block>)
    ensures Apart([b] + bs) <==> b.size >= 1 && Apart(bs) && forall j | 0 <= j < |bs| :: Clear(b, bs[j])
  {
    var c := [b] + bs;
    assert forall j | 0 <= j < |bs| :: c[j + 1] == bs[j];
    if Apart(c) {
      forall j | 0 <= j < |bs| ensures Clear(b, bs[j]) { assert Clear(c[0], c[j + 1]); }
      forall j, k | 0 <= j < k < |bs| ensures Clear(bs[j], bs[k]) { assert Clear(c[j + 1], c[k + 1]); }
    }
  }

  // ----- one coalescing pass -----

  /** The blocks a coalescing pass leaves on the list, and the block in hand at its end. */
  datatype Pass = Pass(kept: seq<Block>, hand: Block)

  /** Visit every block once, in list order; absorb those that touch the block in hand. */
  function Coalesce(bs: seq<Block>, hand: Block): Pass {
    if bs == [] then Pass([], hand)
    else if hand.End() == bs[0].base then Coalesce(bs[1..], Block(hand.base, hand.size + bs[0].size))
    else if bs[0].End() == hand.base then Coalesce(bs[1..], Block(bs[0].base, bs[0].size + hand.size))
    else var rest := Coalesce(bs[1..], hand); Pass([bs[0]] + rest.kept, rest.hand)
  }

  /** The block that results when hand absorbs a block it touches. */
  function Join(hand: Block, b: Block): Block {
    Block(if hand.End() == b.base then hand.base else b.base, hand.size + b.size)
  }

  lemma JoinApart(hand: Block, b: Block, bs: seq<Block>)
    requires Apart([hand] + ([b] + bs)) && (hand.End() == b.base || b.End() == hand.base)
    ensures Apart([Join(hand, b)] + bs)
  {
    ApartCons(hand, [b] + bs);
    ApartCons(b, bs);
    assert forall j | 0 <= j < |bs| :: bs[j] == ([b] + bs)[j + 1];
    assert ([b] + bs)[0] == b;
    ApartCons(Join(hand, b), bs);
  }

  lemma FreeCons(b: Block, bs: seq<Block>, i: nat)
    ensures Free([b] + bs, i) <==> Holds(b, i) || Free(bs, i)
  {
    FreeAppend([b], bs, i);
    FreeOne(b, i);
  }

  /** A pass loses no page and gains none. */
  lemma {:induction false} CoalescePages(bs: seq<Block>, hand: Block, i: nat)
    ensures var r := Coalesce(bs, hand);
            Free([r.hand] + r.kept, i) <==> Free([hand] + bs, i)
    decreases |bs|
  {
    hide Free;
    FreeCons(hand, bs, i);
    if bs == [] {
    } else {
      assert bs == [bs[0]] + bs[1..];
      FreeCons(bs[0], bs[1..], i);
      if hand.End() == bs[0].base || bs[0].End() == hand.base {
        CoalescePages(bs[1..], Join(hand, bs[0]), i);
        FreeCons(Join(hand, bs[0]), bs[1..], i);
      } else {
        var rest := Coalesce(bs[1..], hand);
        CoalescePages(bs[1..], hand, i);
        FreeCons(hand, bs[1..], i);
        FreeCons(rest.hand, rest.kept, i);
        FreeCons(bs[0], rest.kept, i);
        FreeCons(rest.hand, [bs[0]] + rest.kept, i);
      }
    }
  }

  lemma {:induction false} CoalesceSum(bs: seq<Block>, hand: Block)
    ensures var r := Coalesce(bs, hand); r.hand.size + Sum(r.kept) == hand.size + Sum(bs)
    decreases |bs|
  {
    if bs != [] {
      if hand.End() == bs[0].base || bs[0].End() == hand.base {
        CoalesceSum(bs[1..], Join(hand, bs[0]));
      } else {
        CoalesceSum(bs[1..], hand);
      }
    }
  }

  lemma NotFreeIn(a: Block, bs: seq<Block>, i: nat)
    requires forall j | 0 <= j < |bs| :: Clear(a, bs[j])
    ensures Holds(a, i) ==> !Free(bs, i)
  {
  }

  /** Nonempty blocks without a common page are clear of each other. */
  lemma ClearByPages(a: Block, bs: seq<Block>, cs: seq<Block>)
    requires a.size >= 1 && (forall j | 0 <= j < |bs| :: Clear(a, bs[j]))
    requires forall i: nat :: Free(cs, i) ==> Free(bs, i)
    requires forall j | 0 <= j < |cs| :: cs[j].size >= 1
    ensures forall j | 0 <= j < |cs| :: Clear(a, cs[j])
  {
    forall j | 0 <= j < |cs| ensures Clear(a, cs[j]) {
      var i := if a.base < cs[j].base then cs[j].base else a.base;
      NotFreeIn(a, bs, i);
      assert Holds(cs[j], i) ==> Free(cs, i);
    }
  }

  /** A pass keeps the blocks apart. */
  lemma {:induction false} CoalesceApart(bs: seq<Block>, hand: Block)
    requires Apart([hand] + bs)
    ensures var r := Coalesce(bs, hand); Apart([r.hand] + r.kept)
    decreases |bs|
  {
    hide Free;
    if bs != [] {
      var b, tail := bs[0], bs[1..];
      assert bs == [b] + tail;
      if hand.End() == b.base || b.End() == hand.base {
        JoinApart(hand, b, tail);
        CoalesceApart(tail, Join(hand, b));
      } else {
        SkipApart(hand, b, tail);
        CoalesceApart(tail, hand);
        var r := Coalesce(tail, hand);
        forall i: nat ensures Free([r.hand] + r.kept, i) ==> Free([hand] + tail, i) { CoalescePages(tail, hand, i); }
        ClearByPages(b, [hand] + tail, [r.hand] + r.kept);
        PutBack(b, r.hand, r.kept);
      }
    }
  }

  lemma SkipApart(hand: Block, b: Block, tail: seq<Block>)
    requires Apart([hand] + ([b] + tail))
    ensures Apart([hand] + tail) && b.size >= 1
    ensures forall j | 0 <= j < |[hand] + tail| :: Clear(b, ([hand] + tail)[j])
  {
    ApartCons(hand, [b] + tail);
    ApartCons(b, tail);
    assert ([b] + tail)[0] == b;
    assert forall j | 0 <= j < |tail| :: tail[j] == ([b] + tail)[j + 1];
    ApartCons(hand, tail);
  }

  lemma PutBack(b: Block, hand: Block, kept: seq<Block>)
    requires Apart([hand] + kept) && b.size >= 1
    requires forall j | 0 <= j < |[hand] + kept| :: Clear(b, ([hand] + kept)[j])
    ensures Apart([hand] + ([b] + kept))
  {
    hide Apart, Clear;
    var cs := [hand] + kept;
    ApartCons(hand, kept);
    assert forall j | 0 <= j < |kept| :: kept[j] == cs[j + 1];
    assert cs[0] == hand;
    ApartCons(b, kept);
    var ds := [b] + kept;
    ClearSymmetric(b, hand);
    forall j | 0 <= j < |ds| ensures Clear(hand, ds[j]) { assert ds[j] == if j == 0 then b else kept[j - 1]; }
    ApartCons(hand, ds);
  }

  lemma ClearSymmetric(a: Block, b: Block)
    ensures Clear(a, b) <==> Clear(b, a)
  {
  }

  predicate Touch(a: Block, b: Block) {
    a.End() == b.base || b.End() == a.base
  }

  /** The block in hand at the end starts where it or some block started, and ends where it or some block ended. */
  lemma {:induction false} HandEnds(bs: seq<Block>, hand: Block)
    ensures var h := Coalesce(bs, hand).hand;
            && (h.base == hand.base || exists k :: 0 <= k < |bs| && bs[k].base == h.base)
            && (h.End() == hand.End() || exists k :: 0 <= k < |bs| && bs[k].End() == h.End())
    decreases |bs|
  {
    if bs != [] {
      var tail := bs[1..];
      var hand' := if Touch(hand, bs[0]) then Join(hand, bs[0]) else hand;
      HandEnds(tail, hand');
      var h := Coalesce(tail, hand').hand;
      if h.base != hand'.base {
        var k :| 0 <= k < |tail| && tail[k].base == h.base;
        assert bs[k + 1].base == h.base;
      }
      if h.End() != hand'.End() {
        var k :| 0 <= k < |tail| && tail[k].End() == h.End();
        assert bs[k + 1].End() == h.End();
      }
    }
  }

  lemma {:induction false} KeptFrom(bs: seq<Block>, hand: Block)
    ensures forall b | b in Coalesce(bs, hand).kept :: b in bs
    decreases |bs|
  {
    if bs != [] {
      KeptFrom(bs[1..], if Touch(hand, bs[0]) then Join(hand, bs[0]) else hand);
    }
  }

  /** No block of the list touches b. */
  ghost predicate Aloof(b: Block, bs: seq<Block>) {
    forall c | c in bs :: !Touch(b, c)
  }

  lemma AloofFromHand(b: Block, bs: seq<Block>, hand: Block)
    requires Aloof(b, bs) && !Touch(b, hand)
    ensures !Touch(b, Coalesce(bs, hand).hand)
  {
    HandEnds(bs, hand);
    var h := Coalesce(bs, hand).hand;
    if h.base != hand.base {
      var k :| 0 <= k < |bs| && bs[k].base == h.base;
      assert bs[k] in bs;
    }
    if h.End() != hand.End() {
      var k :| 0 <= k < |bs| && bs[k].End() == h.End();
      assert bs[k] in bs;
    }
  }

  /** No two blocks of the list touch. */
  ghost predicate Scattered(bs: seq<Block>) {
    forall k | 0 <= k < |bs| :: Aloof(bs[k], bs[k + 1..])
  }

  /** A pass over a list on which no two blocks touch leaves a list on which no two blocks touch:
      it merges as far as merging goes. */
  lemma {:induction false} CoalesceMaximal(bs: seq<Block>, hand: Block)
    requires Scattered(bs)
    ensures var r := Coalesce(bs, hand); Aloof(r.hand, r.kept) && Scattered(r.kept)
    decreases |bs|
  {
    if bs != [] {
      var b, tail := bs[0], bs[1..];
      assert forall k | 0 <= k < |tail| :: tail[k] == bs[k + 1] && tail[k + 1..] == bs[k + 2..];
      if Touch(hand, b) {
        CoalesceMaximal(tail, Join(hand, b));
      } else {
        CoalesceMaximal(tail, hand);
        KeptFrom(tail, hand);
        AloofFromHand(b, tail, hand);
        var rest := Coalesce(tail, hand);
        var kept := [b] + rest.kept;
        forall k | 0 <= k < |kept| ensures Aloof(kept[k], kept[k + 1..]) {
          assert kept[k + 1..] == if k == 0 then rest.kept else rest.kept[k..];
        }
      }
    }
  }

  lemma ScatteredAt(bs: seq<Block>, j: nat, k: nat)
    requires Scattered(bs) && j < |bs| && k < |bs| && j != k
    ensures !Touch(bs[j], bs[k])
  {
    var lo, hi := if j < k then j else k, if j < k then k else j;
    assert Aloof(bs[lo], bs[lo + 1..]);
    assert bs[hi] == bs[lo + 1..][hi - lo - 1];
    assert !Touch(bs[lo], bs[hi]);
  }

  lemma ScatteredIf(bs: seq<Block>)
    requires forall j, k | 0 <= j < k < |bs| :: !Touch(bs[j], bs[k])
    ensures Scattered(bs)
  {
    forall k, c | 0 <= k < |bs| && c in bs[k + 1..] ensures !Touch(bs[k], c) {
      var m :| 0 <= m < |bs[k + 1..]| && bs[k + 1..][m] == c;
      assert c == bs[k + 1 + m];
    }
  }

  lemma ScatteredCons(b: Block, bs: seq<Block>)
    requires Aloof(b, bs) && Scattered(bs)
    ensures Scattered([b] + bs)
  {
    var cs := [b] + bs;
    forall k | 0 <= k < |cs| ensures Aloof(cs[k], cs[k + 1..]) {
      assert cs[k + 1..] == bs[k..];
    }
  }

  lemma ScatteredRemoved(bs: seq<Block>, k: nat)
    requires Scattered(bs) && k < |bs|
    ensures Scattered(Removed(bs, k)) && Aloof(bs[k], Removed(bs, k))
  {
    var cs := Removed(bs, k);
    forall i, j | 0 <= i < j < |cs| ensures !Touch(cs[i], cs[j]) {
      ScatteredAt(bs, if i < k then i else i + 1, if j < k then j else j + 1);
    }
    ScatteredIf(cs);
    forall c | c in cs ensures !Touch(bs[k], c) {
      var j :| 0 <= j < |cs| && cs[j] == c;
      ScatteredAt(bs, k, if j < k then j else j + 1);
    }
  }

  /** Handing out part of a block keeps the blocks from touching. */
  lemma TakeScattered(bs: seq<Block>, k: nat, n: nat)
    requires Apart(bs) && Scattered(bs) && k < |bs| && 0 < n <= bs[k].size
    ensures Scattered(Rest(bs[k], n) + Removed(bs, k))
  {
    ScatteredRemoved(bs, k);
    ApartRemoved(bs, k);
    var cs := Removed(bs, k);
    if bs[k].size > n {
      var b := Rest(bs[k], n)[0];
      forall c | c in cs ensures !Touch(b, c) { assert !Touch(bs[k], c) && Clear(bs[k], c) && c.size >= 1; }
      ScatteredCons(b, cs);
    } else {
      assert Rest(bs[k], n) + cs == cs;
    }
  }

  /** A longest run of pages of the blocks. */
  ghost predicate MaximalRun(bs: seq<Block>, b: Block) {
    && b.size >= 1
    && (forall i: nat | Holds(b, i) :: Free(bs, i))
    && (b.base > 0 ==> !Free(bs, b.base - 1))
    && !Free(bs, b.End())
  }

  /** Blocks that do not touch are exactly the longest runs of their pages, whatever their order on the list. */
  lemma ScatteredRuns(bs: seq<Block>, b: Block)
    requires Apart(bs) && Scattered(bs)
    ensures b in bs <==> MaximalRun(bs, b)
  {
    if b in bs {
      var k :| 0 <= k < |bs| && bs[k] == b;
      BlockIsRun(bs, k);
    } else if MaximalRun(bs, b) {
      RunIsBlock(bs, b);
    }
  }

  lemma BlockIsRun(bs: seq<Block>, k: nat)
    requires Apart(bs) && Scattered(bs) && k < |bs|
    ensures MaximalRun(bs, bs[k])
  {
    hide Scattered;
    forall m | 0 <= m < |bs|
      ensures (bs[k].base > 0 ==> !Holds(bs[m], bs[k].base - 1)) && !Holds(bs[m], bs[k].End())
    {
      if m != k {
        ScatteredAt(bs, k, m);
        assert Clear(bs[if m < k then m else k], bs[if m < k then k else m]);
      }
    }
  }

  lemma RunIsBlock(bs: seq<Block>, b: Block)
    requires Apart(bs) && Scattered(bs) && MaximalRun(bs, b)
    ensures b in bs
  {
    hide Scattered;
    assert Holds(b, b.base);
    var k :| 0 <= k < |bs| && Holds(bs[k], b.base);
    BlockIsRun(bs, k);
    assert bs[k].base == b.base && bs[k].End() == b.End();
  }

  /** The pass from the front: each block is absorbed if it touches the hand as the blocks before it have left it, and
      otherwise stays, behind those that stayed before. */
  lemma {:induction false} CoalesceNext(bs: seq<Block>, hand: Block, b: Block)
    ensures var r := Coalesce(bs, hand);
            Coalesce(bs + [b], hand)
            == if r.hand.End() == b.base then Pass(r.kept, Block(r.hand.base, r.hand.size + b.size))
               else if b.End() == r.hand.base then Pass(r.kept, Block(b.base, b.size + r.hand.size))
               else Pass(r.kept + [b], r.hand)
    decreases |bs|
  {
    var all := bs + [b];
    if bs == [] {
      assert all[1..] == [];
    } else {
      assert all[0] == bs[0] && all[1..] == bs[1..] + [b];
      var hand' := if Touch(hand, bs[0]) then Join(hand, bs[0]) else hand;
      CoalesceNext(bs[1..], hand', b);
    }
  }

  /** One pass is not always enough: a block that only touches what a later block is joined to stays behind. */
  lemma OnePassMisses()
    ensures var r := Coalesce([Block(2, 1), Block(1, 1)], Block(0, 1));
            r == Pass([Block(2, 1)], Block(0, 2)) && r.hand.End() == r.kept[0].base
  {
    var bs := [Block(2, 1), Block(1, 1)];
    assert bs == [] + [bs[0]] + [bs[1]];
    CoalesceNext([] + [bs[0]], Block(0, 1), bs[1]);
    CoalesceNext([], Block(0, 1), bs[0]);
  }

  // ----- counting pages -----

  ghost function PagesOf(bs: seq<Block>): set<nat> {
    if bs == [] then {} else Range(bs[0].base, bs[0].size) + PagesOf(bs[1..])
  }

  lemma {:induction false} PagesOfIs(bs: seq<Block>, i: nat)
    ensures i in PagesOf(bs) <==> Free(bs, i)
  {
    if bs != [] {
      assert bs == [bs[0]] + bs[1..];
      FreeCons(bs[0], bs[1..], i);
      PagesOfIs(bs[1..], i);
    }
  }

  lemma {:induction false} PagesCount(bs: seq<Block>)
    requires Apart(bs)
    ensures |PagesOf(bs)| == Sum(bs)
  {
    hide Range;
    if bs != [] {
      var b, tail := bs[0], bs[1..];
      assert bs == [b] + tail;
      ApartCons(b, tail);
      PagesCount(tail);
      RangeSize(b.base, b.size);
      forall i: nat ensures !(i in Range(b.base, b.size) && i in PagesOf(tail)) {
        PagesOfIs(tail, i);
        RangeHas(b, i);
      }
    }
  }

  lemma RangeHas(b: Block, i: nat)
    ensures i in Range(b.base, b.size) <==> Holds(b, i)
  {
  }

  /** The sizes of the free blocks add up to the managed pages that are not handed out. */
  lemma SumIsFree(bs: seq<Block>, used: set<nat>, managed: set<nat>)
    requires Apart(bs) && Parted(bs, used, managed)
    ensures Sum(bs) + |used| == |managed|
  {
    hide Apart, Free, PagesOf;
    forall i: nat ensures i in PagesOf(bs) <==> i in managed - used { PagesOfIs(bs, i); }
    PagesCount(bs);
    assert PagesOf(bs) == managed - used;
    assert managed == (managed - used) + used;
  }

  // ----- adding and taking blocks -----

  lemma FreeAt(bs: seq<Block>, k: nat, i: nat)
    requires k < |bs| && Holds(bs[k], i)
    ensures Free(bs, i)
  {
  }

  /** A block on pages that are in no block can go to either end of the list. */
  lemma AddApart(bs: seq<Block>, b: Block)
    requires Apart(bs) && b.size >= 1 && forall i: nat | Holds(b, i) :: !Free(bs, i)
    ensures Apart([b] + bs) && Apart(bs + [b])
  {
    forall j | 0 <= j < |bs| ensures Clear(b, bs[j]) {
      var i := if b.base < bs[j].base then bs[j].base else b.base;
      if Holds(bs[j], i) { FreeAt(bs, j, i); }
      assert Holds(b, i) || Clear(b, bs[j]);
    }
    ApartCons(b, bs);
    var c := bs + [b];
    assert forall j | 0 <= j < |c| :: c[j] == if j < |bs| then bs[j] else b;
  }

  lemma AddParted(bs: seq<Block>, b: Block, used: set<nat>, managed: set<nat>)
    requires Parted(bs, used, managed) && forall i: nat | Holds(b, i) :: i !in managed
    ensures Parted(bs + [b], used, managed + Range(b.base, b.size))
  {
    var m := managed + Range(b.base, b.size);
    forall i: nat ensures Free(bs + [b], i) <==> i in m && i !in used {
      FreeAppend(bs, [b], i);
      FreeOne(b, i);
    }
  }

  /** The first block of at least n pages; the length of the list if there is none. */
  function FirstFit(bs: seq<Block>, n: nat): (k: nat)
    ensures k <= |bs| && (forall j | 0 <= j < k :: bs[j].size < n)
    ensures k < |bs| ==> bs[k].size >= n
  {
    if bs == [] then 0 else if bs[0].size >= n then 0 else 1 + FirstFit(bs[1..], n)
  }

  /** What remains of block b after its first n pages are taken. */
  function Rest(b: Block, n: nat): seq<Block>
    requires n <= b.size
  {
    if b.size > n then [Block(b.base + n, b.size - n)] else []
  }

  lemma RestThen(b: Block, n: nat, bs: seq<Block>)
    requires n <= b.size
    ensures Rest(b, n) + bs == if b.size > n then [Block(b.base + n, b.size - n)] + bs else bs
  {
  }

  lemma RestPages(b: Block, n: nat, i: nat)
    requires 0 < n <= b.size
    ensures Free(Rest(b, n), i) <==> Holds(b, i) && i >= b.base + n
  {
    if b.size > n { FreeOne(Rest(b, n)[0], i); }
  }

  /** Taking n pages from the k-th block and putting the rest first hands out exactly those pages. */
  lemma TakeParted(bs: seq<Block>, k: nat, n: nat, used: set<nat>, managed: set<nat>)
    requires Apart(bs) && Parted(bs, used, managed) && k < |bs| && 0 < n <= bs[k].size
    ensures Parted(Rest(bs[k], n) + Removed(bs, k), used + Range(bs[k].base, n), managed)
  {
    hide Free, Apart, Rest;
    var cs := Rest(bs[k], n) + Removed(bs, k);
    var used' := used + Range(bs[k].base, n);
    forall i: nat ensures Free(cs, i) <==> i in managed && i !in used' {
      FreeAppend(Rest(bs[k], n), Removed(bs, k), i);
      RestPages(bs[k], n, i);
      FreeRemoved(bs, k, i);
      RemovedClear(bs, k, i);
    }
    forall i | i in Range(bs[k].base, n) ensures i in managed {
      FreeAtHead(bs, k, i);
    }
  }

  lemma FreeAtHead(bs: seq<Block>, k: nat, i: nat)
    requires k < |bs| && bs[k].base <= i < bs[k].End()
    ensures Free(bs, i)
  {
    assert Holds(bs[k], i);
  }

  lemma RemovedClear(bs: seq<Block>, k: nat, i: nat)
    requires Apart(bs) && k < |bs|
    ensures Holds(bs[k], i) ==> !Free(Removed(bs, k), i)
  {
    ApartRemoved(bs, k);
  }

  lemma TakeApart(bs: seq<Block>, k: nat, n: nat)
    requires Apart(bs) && k < |bs| && 0 < n <= bs[k].size
    ensures Apart(Rest(bs[k], n) + Removed(bs, k))
    ensures Sum(Rest(bs[k], n) + Removed(bs, k)) == Sum(bs) - n
  {
    ApartRemoved(bs, k);
    SumRemoved(bs, k);
    SumAppend(Rest(bs[k], n), Removed(bs, k));
    if bs[k].size > n {
      var b := Rest(bs[k], n)[0];
      ApartCons(b, Removed(bs, k));
    } else {
      assert Rest(bs[k], n) + Removed(bs, k) == Removed(bs, k);
    }
  }

  /** No block is larger than all of them together. */
  lemma {:induction false} SizeBelowSum(bs: seq<Block>, k: nat)
    requires k < |bs|
    ensures bs[k].size <= Sum(bs)
  {
    if k > 0 { SizeBelowSum(bs[1..], k - 1); }
  }

  /** Taking back the pages of b, with the lists related by a pass, moves exactly those pages. */
  lemma GiveParted(bs: seq<Block>, b: Block, cs: seq<Block>, used: set<nat>, managed: set<nat>)
    requires Parted(bs, used, managed) && forall i: nat | Holds(b, i) :: i in used
    requires forall i: nat :: Free(cs, i) <==> Free([b] + bs, i)
    ensures Parted(cs, used - Range(b.base, b.size), managed)
  {
    var used' := used - Range(b.base, b.size);
    forall i: nat ensures Free(cs, i) <==> i in managed && i !in used' {
      FreeCons(b, bs, i);
    }
  }

  /** The block in hand may absorb any block of the list it touches. */
  lemma JoinApartAt(hand: Block, bs: seq<Block>, k: nat)
    requires Apart([hand] + bs) && k < |bs| && Touch(hand, bs[k])
    ensures Apart([Join(hand, bs[k])] + Removed(bs, k))
  {
    ApartCons(hand, bs);
    ApartRemoved(bs, k);
    var r := Removed(bs, k);
    assert forall j | 0 <= j < |r| :: r[j] == bs[if j < k then j else j + 1];
    ApartCons(Join(hand, bs[k]), r);
  }

  // ----- lists in address order -----

  /** Adjacent blocks are in address order and leave a gap, except perhaps after the j-th for j in loose. */
  ghost predicate OrderedBut(bs: seq<Block>, loose: set<int>) {
    && (forall k | 0 <= k < |bs| :: bs[k].size >= 1)
    && (forall k | 0 <= k < |bs| - 1 :: bs[k].End() <= bs[k + 1].base)
    && (forall k | 0 <= k < |bs| - 1 && k !in loose :: bs[k].End() < bs[k + 1].base)
  }

  /** In address order, disjoint, and merged as far as merging goes. */
  ghost predicate Ordered(bs: seq<Block>) {
    OrderedBut(bs, {})
  }

  lemma {:induction false} OrderedFar(bs: seq<Block>, loose: set<int>, j: nat, k: nat)
    requires OrderedBut(bs, loose) && j < k < |bs|
    ensures bs[j].End() <= bs[k].base && (j !in loose ==> bs[j].End() < bs[k].base)
    decreases k - j
  {
    if j + 1 < k { OrderedFar(bs, loose, j + 1, k); }
  }

  lemma OrderedApart(bs: seq<Block>, loose: set<int>)
    requires OrderedBut(bs, loose)
    ensures Apart(bs)
  {
    forall j, k | 0 <= j < k < |bs| ensures Clear(bs[j], bs[k]) { OrderedFar(bs, loose, j, k); }
  }

  /** The pages determine an ordered list. */
  lemma {:induction false} OrderedUnique(a: seq<Block>, b: seq<Block>)
    requires Ordered(a) && Ordered(b) && forall i: nat :: Free(a, i) <==> Free(b, i)
    ensures a == b
    decreases |a|
  {
    if a == [] {
      if b != [] { FreeAt(b, 0, b[0].base); }
    } else if b == [] {
      FreeAt(a, 0, a[0].base);
    } else {
      FirstBase(a, b);
      FirstBase(b, a);
      FirstEnd(a, b);
      FirstEnd(b, a);
      assert a[0] == b[0];
      assert a == [a[0]] + a[1..] && b == [b[0]] + b[1..];
      forall i: nat ensures Free(a[1..], i) <==> Free(b[1..], i) {
        FreeCons(a[0], a[1..], i);
        FreeCons(b[0], b[1..], i);
        BelowTail(a, i);
        BelowTail(b, i);
      }
      OrderedUnique(a[1..], b[1..]);
    }
  }

  lemma FirstBase(a: seq<Block>, b: seq<Block>)
    requires Ordered(a) && Ordered(b) && a != [] && b != [] && forall i: nat :: Free(a, i) ==> Free(b, i)
    ensures b[0].base <= a[0].base
  {
    FreeAt(a, 0, a[0].base);
    var k :| 0 <= k < |b| && Holds(b[k], a[0].base);
    if k > 0 { OrderedFar(b, {}, 0, k); }
  }

  lemma BelowTail(a: seq<Block>, i: nat)
    requires Ordered(a) && a != []
    ensures Free(a[1..], i) ==> i > a[0].End()
  {
    if Free(a[1..], i) {
      var k :| 0 <= k < |a[1..]| && Holds(a[1..][k], i);
      OrderedFar(a, {}, 0, k + 1);
    }
  }

  lemma FirstEnd(a: seq<Block>, b: seq<Block>)
    requires Ordered(a) && Ordered(b) && a != [] && b != [] && a[0].base == b[0].base
    requires forall i: nat :: Free(a, i) <==> Free(b, i)
    ensures a[0].End() >= b[0].End()
  {
    var i := a[0].End();
    if i < b[0].End() {
      FreeAt(b, 0, i);
      assert a == [a[0]] + a[1..];
      FreeCons(a[0], a[1..], i);
      BelowTail(a, i);
    }
  }

  /** A block goes to position k of an address-ordered list. */
  lemma InsertOrdered(bs: seq<Block>, b: Block, k: nat)
    requires Ordered(bs) && k <= |bs| && b.size >= 1
    requires (k > 0 ==> bs[k - 1].End() <= b.base) && (k < |bs| ==> b.End() <= bs[k].base)
    ensures OrderedBut(bs[..k] + [b] + bs[k..], {k - 1, k})
  {
    var cs := bs[..k] + [b] + bs[k..];
    forall j | 0 <= j < |cs| ensures cs[j].size >= 1 { InsertedAt(bs, b, k, j); }
    forall j | 0 <= j < |cs| - 1
      ensures cs[j].End() <= cs[j + 1].base && (j !in {k - 1, k} ==> cs[j].End() < cs[j + 1].base)
    {
      InsertGap(bs, b, k, j);
    }
  }

  lemma InsertGap(bs: seq<Block>, b: Block, k: nat, j: nat)
    requires Ordered(bs) && k <= |bs| && j < |bs|
    requires (k > 0 ==> bs[k - 1].End() <= b.base) && (k < |bs| ==> b.End() <= bs[k].base)
    ensures var cs := bs[..k] + [b] + bs[k..];
            cs[j].End() <= cs[j + 1].base && (j !in {k - 1, k} ==> cs[j].End() < cs[j + 1].base)
  {
    hide OrderedBut;
    InsertedAt(bs, b, k, j);
    InsertedAt(bs, b, k, j + 1);
    GapAt(bs, j);
    GapAt(bs, j - 1);
  }

  lemma InsertedAt(bs: seq<Block>, b: Block, k: nat, j: nat)
    requires k <= |bs| && j < |bs| + 1
    ensures (bs[..k] + [b] + bs[k..])[j] == if j < k then bs[j] else if j == k then b else bs[j - 1]
  {
  }

  lemma GapAt(bs: seq<Block>, j: int)
    requires Ordered(bs)
    ensures 0 <= j < |bs| - 1 ==> bs[j].End() < bs[j + 1].base
  {
  }

  /** The list after the block at k + 1 is merged into the one at k. */
  function Merged(bs: seq<Block>, k: nat): seq<Block>
    requires k + 1 < |bs|
  {
    bs[..k] + [Block(bs[k].base, bs[k].size + bs[k + 1].size)] + bs[k + 2..]
  }

  lemma MergedOrdered(bs: seq<Block>, k: nat, loose: set<int>)
    requires k + 1 < |bs| && bs[k].End() == bs[k + 1].base
    requires OrderedBut(bs, loose) && loose <= {k, k + 1}
    ensures OrderedBut(Merged(bs, k), if k + 1 in loose then {k} else {})
  {
    hide Merged;
    var cs := Merged(bs, k);
    MergedLength(bs, k);
    forall j | 0 <= j < |cs| ensures cs[j].size >= 1 { MergedAt(bs, k, j); }
    forall j | 0 <= j < |cs| - 1
      ensures cs[j].End() <= cs[j + 1].base && (!(j == k && k + 1 in loose) ==> cs[j].End() < cs[j + 1].base)
    {
      MergedAt(bs, k, j);
      MergedAt(bs, k, j + 1);
    }
  }

  lemma MergedLength(bs: seq<Block>, k: nat)
    requires k + 1 < |bs|
    ensures |Merged(bs, k)| == |bs| - 1
  {
  }

  lemma MergedAt(bs: seq<Block>, k: nat, j: nat)
    requires k + 1 < |bs| && j < |Merged(bs, k)|
    ensures |Merged(bs, k)| == |bs| - 1
    ensures Merged(bs, k)[j] == if j < k then bs[j]
                                else if j == k then Block(bs[k].base, bs[k].size + bs[k + 1].size)
                                else bs[j + 1]
  {
  }

  /** Merging neighbours changes neither the pages nor their number. */
  lemma MergedPages(bs: seq<Block>, k: nat, i: nat)
    requires k + 1 < |bs| && bs[k].End() == bs[k + 1].base
    ensures Free(Merged(bs, k), i) <==> Free(bs, i)
  {
    hide Free;
    var m := Block(bs[k].base, bs[k].size + bs[k + 1].size);
    FreeSplit(bs[..k], [bs[k], bs[k + 1]], bs[k + 2..], i);
    assert bs == bs[..k] + [bs[k], bs[k + 1]] + bs[k + 2..];
    FreeSplit(bs[..k], [m], bs[k + 2..], i);
    assert [bs[k], bs[k + 1]] == [bs[k]] + [bs[k + 1]];
    FreeAppend([bs[k]], [bs[k + 1]], i);
    FreeOne(bs[k], i);
    FreeOne(bs[k + 1], i);
    FreeOne(m, i);
  }

  lemma FreeSplit(a: seq<Block>, b: seq<Block>, c: seq<Block>, i: nat)
    ensures Free(a + b + c, i) <==> Free(a, i) || Free(b, i) || Free(c, i)
  {
    FreeAppend(a + b, c, i);
    FreeAppend(a, b, i);
  }

  lemma SumSplit(a: seq<Block>, b: seq<Block>, c: seq<Block>)
    ensures Sum(a + b + c) == Sum(a) + Sum(b) + Sum(c)
  {
    SumAppend(a + b, c);
    SumAppend(a, b);
  }

  lemma MergedSum(bs: seq<Block>, k: nat)
    requires k + 1 < |bs|
    ensures Sum(Merged(bs, k)) == Sum(bs)
  {
    hide Sum;
    var m := Block(bs[k].base, bs[k].size + bs[k + 1].size);
    assert bs == bs[..k] + [bs[k], bs[k + 1]] + bs[k + 2..];
    SumSplit(bs[..k], [bs[k], bs[k + 1]], bs[k + 2..]);
    SumSplit(bs[..k], [m], bs[k + 2..]);
    SumTwo(bs[k], bs[k + 1]);
    SumOne(m);
  }

  lemma SumOne(a: Block)
    ensures Sum([a]) == a.size
  {
  }

  lemma SumTwo(a: Block, b: Block)
    ensures Sum([a, b]) == a.size + b.size
  {
    assert [a, b][1..] == [b];
    SumOne(b);
  }

  /** Block k is of adequate and least size, and the first such. */
  ghost predicate IsBest(bs: seq<Block>, n: nat, k: nat) {
    && k < |bs| && bs[k].size >= n
    && (forall j | 0 <= j < |bs| && bs[j].size >= n :: bs[k].size <= bs[j].size)
    && (forall j | 0 <= j < k :: bs[j].size < n || bs[j].size > bs[k].size)
  }

  /** Among the adequate blocks the best is smaller than those before it, and no larger than those after it. */
  lemma LeastThenFirst(bs: seq<Block>, n: nat, k: nat)
    ensures IsBest(bs, n, k) <==>
              && k < |bs| && bs[k].size >= n
              && forall j | 0 <= j < |bs| && bs[j].size >= n && j != k ::
                   bs[k].size < bs[j].size || (bs[k].size == bs[j].size && k < j)
  {
    if k < |bs| && bs[k].size >= n && (forall j | 0 <= j < |bs| && bs[j].size >= n && j != k ::
         bs[k].size < bs[j].size || (bs[k].size == bs[j].size && k < j))
    {
      assert forall j | 0 <= j < |bs| && bs[j].size >= n :: bs[k].size <= bs[j].size;
    }
  }

  /** The list after n pages are taken from the k-th block, the rest staying in its place. */
  function TakeInPlace(bs: seq<Block>, k: nat, n: nat): seq<Block>
    requires k < |bs| && n <= bs[k].size
  {
    bs[..k] + Rest(bs[k], n) + bs[k + 1..]
  }

  lemma TakeInPlaceIs(bs: seq<Block>, k: nat, n: nat)
    requires k < |bs| && n <= bs[k].size
    ensures var rs := Removed(bs, k);
            TakeInPlace(bs, k, n)
            == if bs[k].size > n then rs[..k] + [Block(bs[k].base + n, bs[k].size - n)] + rs[k..] else rs
  {
  }

  lemma RemovedOrdered(bs: seq<Block>, k: nat)
    requires Ordered(bs) && k < |bs|
    ensures Ordered(Removed(bs, k))
  {
    var cs := Removed(bs, k);
    forall j | 0 <= j < |cs| ensures cs[j].size >= 1 { RemovedIs(bs, k, j); }
    forall j | 0 <= j < |cs| - 1 ensures cs[j].End() < cs[j + 1].base {
      RemovedIs(bs, k, j);
      RemovedIs(bs, k, j + 1);
      GapAt(bs, j);
      GapAt(bs, j + 1);
    }
  }

  lemma RemovedIs(bs: seq<Block>, k: nat, j: nat)
    requires k < |bs| && j < |bs| - 1
    ensures Removed(bs, k)[j] == if j < k then bs[j] else bs[j + 1]
  {
  }

  lemma TakeInPlaceOrdered(bs: seq<Block>, k: nat, n: nat)
    requires Ordered(bs) && k < |bs| && 0 < n <= bs[k].size
    ensures Ordered(TakeInPlace(bs, k, n))
  {
    var cs := TakeInPlace(bs, k, n);
    if bs[k].size > n {
      assert cs == bs[k := Block(bs[k].base + n, bs[k].size - n)];
    } else {
      assert cs == Removed(bs, k);
      RemovedOrdered(bs, k);
    }
  }

  /** Where the rest goes makes no difference to the pages or their number. */
  lemma TakeInPlaceSame(bs: seq<Block>, k: nat, n: nat, used: set<nat>, managed: set<nat>)
    requires Apart(bs) && Parted(bs, used, managed) && k < |bs| && 0 < n <= bs[k].size
    ensures Parted(TakeInPlace(bs, k, n), used + Range(bs[k].base, n), managed)
    ensures Sum(TakeInPlace(bs, k, n)) == Sum(bs) - n
  {
    hide Free, Rest, Sum, Apart;
    TakeParted(bs, k, n, used, managed);
    TakeApart(bs, k, n);
    SumAppend(Rest(bs[k], n), Removed(bs, k));
    SumAppend(bs[..k], bs[k + 1..]);
    SumSplit(bs[..k], Rest(bs[k], n), bs[k + 1..]);
    forall i: nat ensures Free(TakeInPlace(bs, k, n), i) <==> Free(Rest(bs[k], n) + Removed(bs, k), i) {
      FreeSplit(bs[..k], Rest(bs[k], n), bs[k + 1..], i);
      FreeAppend(Rest(bs[k], n), Removed(bs, k), i);
      FreeAppend(bs[..k], bs[k + 1..], i);
    }
  }
}
