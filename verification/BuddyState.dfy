/** The state of the buddy page allocator and the invariant that ties the page
    marks, the per-order lists and the blocks together. */
module BuddyState {
  import opened Bits
  import opened Pages
  import opened Sequences

  const MAX_ORDER: nat := 10

  /** `blocks` maps the head of every block, free or handed out, to its order;
      `managed` is the set of pages given to InitMemmap. */
  datatype State = State(pages: seq<Page>, lists: seq<seq<nat>>, ghost blocks: map<nat, nat>, ghost managed: set<nat>)

  const NO_HAND: int := -1

  ghost predicate InBlock(blocks: map<nat, nat>, h: nat, i: nat) {
    h in blocks && h <= i < h + Pow2(blocks[h])
  }

  ghost predicate InSome(blocks: map<nat, nat>, i: nat) {
    exists h :: InBlock(blocks, h, i)
  }

  ghost predicate OrdersOk(blocks: map<nat, nat>) {
    forall h | h in blocks :: blocks[h] <= MAX_ORDER
  }

  ghost predicate Disjoint(blocks: map<nat, nat>) {
    forall h, g | h in blocks && g in blocks && h < g :: h + Pow2(blocks[h]) <= g
  }

  ghost predicate Within(blocks: map<nat, nat>, managed: set<nat>) {
    forall h, i | InBlock(blocks, h, i) :: i in managed
  }

  ghost predicate Covered(blocks: map<nat, nat>, managed: set<nat>) {
    forall i | i in managed :: InSome(blocks, i)
  }

  /** The blocks are disjoint and cover exactly the managed pages. */
  ghost predicate Tiling(blocks: map<nat, nat>, managed: set<nat>) {
    OrdersOk(blocks) && Disjoint(blocks) && Within(blocks, managed) && Covered(blocks, managed)
  }

  /** The list of one order holds, without repetition, heads of blocks of that order, marked free with it. */
  ghost predicate ListOk(pages: seq<Page>, blocks: map<nat, nat>, list: seq<nat>, k: nat) {
    && NoDup(list)
    && (forall h | h in list ::
          h in blocks && blocks[h] == k && h < |pages| && pages[h].free && pages[h].property == k)
  }

  ghost predicate ListsOk(s: State) {
    && |s.lists| == MAX_ORDER + 1
    && (forall k | 0 <= k < |s.lists| :: ListOk(s.pages, s.blocks, s.lists[k], k))
  }

  /** The head in hand is on no list. */
  ghost predicate NotListed(lists: seq<seq<nat>>, hand: int) {
    forall k | 0 <= k < |lists| :: forall h | h in lists[k] :: h != hand
  }

  predicate Listed(s: State, i: nat)
    requires i < |s.pages|
  {
    s.pages[i].property < |s.lists| && i in s.lists[s.pages[i].property]
  }

  ghost predicate InsideAligned(blocks: map<nat, nat>, h: nat, i: nat) {
    InBlock(blocks, h, i) && h < i && Aligned(h, blocks[h])
  }

  /** A mark left behind by a merge: a page strictly inside an aligned block, aligned to its old order. */
  ghost predicate Stale(s: State, i: nat)
    requires i < |s.pages|
  {
    Aligned(i, s.pages[i].property) && exists h :: InsideAligned(s.blocks, h, i)
  }

  ghost predicate MarksOk(s: State, hand: int) {
    forall i: nat | i < |s.pages| && s.pages[i].free :: i == hand || Listed(s, i) || Stale(s, i)
  }

  /** Every head but the one in hand records its order. */
  ghost predicate HeadsOk(s: State, hand: int) {
    && (forall i | i in s.managed :: i < |s.pages|)
    && (forall h | h in s.blocks && h != hand :: h < |s.pages| && s.pages[h].property == s.blocks[h])
  }

  ghost predicate Inv(s: State, hand: int) {
    && Tiling(s.blocks, s.managed)
    && ListsOk(s)
    && MarksOk(s, hand)
    && HeadsOk(s, hand)
    && NotListed(s.lists, hand)
  }

  /** No two free blocks of the same order below the largest are halves of one aligned block. */
  predicate FullyMerged(lists: seq<seq<nat>>) {
    forall k, a | 0 <= k < |lists| && k < MAX_ORDER && a in lists[k] ::
      Aligned(a, k + 1) ==> a + Pow2(k) !in lists[k]
  }

  ghost predicate AllAligned(blocks: map<nat, nat>) {
    forall h | h in blocks :: Aligned(h, blocks[h])
  }

  /** The blocks handed out: heads that are neither marked free nor in hand. */
  ghost function Outstanding(s: State, hand: int): map<nat, nat>
    requires HeadsOk(s, hand)
  {
    map h | h in s.blocks && h != hand && !s.pages[h].free :: s.blocks[h]
  }

  // ----- the five state changes -----

  function Push(lists: seq<seq<nat>>, k: nat, h: nat): seq<seq<nat>>
    requires k < |lists|
  {
    lists[k := [h] + lists[k]]
  }

  function Without<T(==)>(s: seq<T>, x: T): seq<T> {
    if s == [] then [] else if s[0] == x then s[1..] else [s[0]] + Without(s[1..], x)
  }

  lemma {:induction false} AboutWithout<T>(s: seq<T>, x: T)
    requires NoDup(s)
    ensures NoDup(Without(s, x))
    ensures forall y :: y in Without(s, x) <==> y in s && y != x
    ensures |Without(s, x)| == if x in s then |s| - 1 else |s|
  {
    if s != [] {
      AboutWithout(s[1..], x);
      assert s[0] !in s[1..];
      assert forall y :: y in s <==> y == s[0] || y in s[1..];
    }
  }

  /** alloc: take the first block off list k. */
  ghost function Pop(s: State, k: nat): State
    requires k < |s.lists| && s.lists[k] != []
  {
    s.(lists := s.lists[k := s.lists[k][1..]])
  }

  /** alloc: split the block in hand, of order k + 1, and list its upper half. */
  ghost function Split(s: State, h: nat, k: nat): State
    requires k < |s.lists| && h + Pow2(k) < |s.pages|
  {
    var b := h + Pow2(k);
    State(s.pages[b := s.pages[b].(property := k).(free := true)],
          Push(s.lists, k, b), s.blocks[h := k][b := k], s.managed)
  }

  ghost function HandOut(s: State, h: nat, k: nat): State
    requires h < |s.pages|
  {
    s.(pages := s.pages[h := s.pages[h].(property := k).(free := false)])
  }

  ghost function TakeBack(s: State, h: nat): State
    requires h < |s.pages|
  {
    s.(pages := s.pages[h := s.pages[h].(free := true)])
  }

  /** free: absorb the free buddy b of the block a in hand, both of order k. */
  ghost function Merge(s: State, a: nat, b: nat, k: nat): State
    requires k < |s.lists|
  {
    State(s.pages, s.lists[k := Without(s.lists[k], b)],
          (s.blocks - {Max(a, b)})[Min(a, b) := k + 1], s.managed)
  }

  ghost function List(s: State, h: nat, k: nat): State
    requires k < |s.lists| && h < |s.pages|
  {
    s.(pages := s.pages[h := s.pages[h].(property := k)], lists := Push(s.lists, k, h))
  }

  // ----- each change keeps the invariant -----

  /** A head is inside no other block. */
  lemma HeadNotInside(blocks: map<nat, nat>, h: nat, g: nat)
    requires Disjoint(blocks) && h in blocks && InBlock(blocks, g, h)
    ensures g == h
  {
  }

  /** A free mark that is neither listed nor in hand stays justified while its block survives. */
  lemma MarksCarry(s: State, t: State, hand: int, i: nat)
    requires MarksOk(s, hand) && |t.pages| == |s.pages| && t.blocks == s.blocks
    requires i < |t.pages| && t.pages[i].free && s.pages[i].free && t.pages[i].property == s.pages[i].property
    requires i != hand && (Listed(s, i) ==> Listed(t, i))
    ensures Listed(t, i) || Stale(t, i)
  {
    if !Listed(s, i) {
      assert Stale(s, i);
      var g :| InsideAligned(s.blocks, g, i);
      assert InsideAligned(t.blocks, g, i);
    }
  }

  lemma TailOk(pages: seq<Page>, blocks: map<nat, nat>, list: seq<nat>, k: nat)
    requires ListOk(pages, blocks, list, k) && list != []
    ensures ListOk(pages, blocks, list[1..], k) && list[0] !in list[1..]
  {
    assert forall y :: y in list[1..] ==> y in list;
  }

  lemma PopKeeps(s: State, k: nat)
    requires Inv(s, NO_HAND) && k < |s.lists| && s.lists[k] != []
    ensures Inv(Pop(s, k), s.lists[k][0])
    ensures s.lists[k][0] in s.blocks && s.blocks[s.lists[k][0]] == k
  {
    hide Disjoint, Within, Covered;
    var t := Pop(s, k);
    var h := s.lists[k][0];
    assert ListOk(s.pages, s.blocks, s.lists[k], k);
    assert s.lists[k] == [h] + t.lists[k];
    forall j | 0 <= j < |t.lists|
      ensures ListOk(t.pages, t.blocks, t.lists[j], j) && h !in t.lists[j]
    {
      assert ListOk(s.pages, s.blocks, s.lists[j], j);
      if j == k { TailOk(s.pages, s.blocks, s.lists[j], j); }
    }
    forall i: nat | i < |t.pages| && t.pages[i].free ensures i == h || Listed(t, i) || Stale(t, i) {
      if i != h { MarksCarry(s, t, NO_HAND, i); }
    }
  }

  lemma SplitRoom(blocks: map<nat, nat>, managed: set<nat>, h: nat, k: nat)
    requires Tiling(blocks, managed) && h in blocks && blocks[h] == k + 1
    ensures h + Pow2(k) !in blocks && h + Pow2(k) in managed
  {
    hide Covered;
    assert InBlock(blocks, h, h + Pow2(k));
  }

  lemma SplitDisjoint(blocks: map<nat, nat>, h: nat, k: nat)
    requires Disjoint(blocks) && h in blocks && blocks[h] == k + 1 && h + Pow2(k) !in blocks
    ensures Disjoint(blocks[h := k][h + Pow2(k) := k])
  {
    hide Pow2, Disjoint;
    Pow2Double(k);
    var b := h + Pow2(k);
    var halves := blocks[h := k][b := k];
    forall x, y | x in halves && y in halves && x < y ensures x + Pow2(halves[x]) <= y {
      var x', y' := if x == b then h else x, if y == b then h else y;
      if x' != y' {
        Beside(blocks, x', y');
      }
    }
    IsDisjoint(halves);
  }

  /** Of two blocks one ends before the other begins. */
  lemma Beside(blocks: map<nat, nat>, x: nat, y: nat)
    requires Disjoint(blocks) && x in blocks && y in blocks && x != y
    ensures x + Pow2(blocks[x]) <= y || y + Pow2(blocks[y]) <= x
  {
    hide Pow2;
  }

  lemma IsDisjoint(blocks: map<nat, nat>)
    requires forall x, y | x in blocks && y in blocks && x < y :: x + Pow2(blocks[x]) <= y
    ensures Disjoint(blocks)
  {
  }

  lemma SplitWithin(blocks: map<nat, nat>, managed: set<nat>, h: nat, k: nat)
    requires Within(blocks, managed) && h in blocks && blocks[h] == k + 1
    ensures Within(blocks[h := k][h + Pow2(k) := k], managed)
  {
    var b := h + Pow2(k);
    var blocks' := blocks[h := k][b := k];
    forall g, i | InBlock(blocks', g, i) ensures i in managed {
      assert InBlock(blocks, if g == b then h else g, i);
    }
  }

  lemma SplitCovered(blocks: map<nat, nat>, managed: set<nat>, h: nat, k: nat)
    requires Covered(blocks, managed) && h in blocks && blocks[h] == k + 1 && h + Pow2(k) !in blocks
    ensures Covered(blocks[h := k][h + Pow2(k) := k], managed)
  {
    var b := h + Pow2(k);
    var blocks' := blocks[h := k][b := k];
    forall i: nat | i in managed ensures InSome(blocks', i) {
      var g :| InBlock(blocks, g, i);
      assert InBlock(blocks', if g == h && b <= i then b else g, i);
    }
  }

  lemma SplitTiles(blocks: map<nat, nat>, managed: set<nat>, h: nat, k: nat)
    requires Tiling(blocks, managed) && h in blocks && blocks[h] == k + 1
    ensures Tiling(blocks[h := k][h + Pow2(k) := k], managed)
  {
    hide Disjoint, Within, Covered;
    SplitRoom(blocks, managed, h, k);
    SplitDisjoint(blocks, h, k);
    SplitWithin(blocks, managed, h, k);
    SplitCovered(blocks, managed, h, k);
  }

  lemma SplitStale(s: State, h: nat, k: nat, i: nat)
    requires h in s.blocks && s.blocks[h] == k + 1 && h + Pow2(k) < |s.pages| && k < |s.lists|
    requires h + Pow2(k) !in s.blocks
    requires i < |s.pages| && Stale(s, i) && i != h + Pow2(k)
    ensures Stale(Split(s, h, k), i)
  {
    hide Aligned, Pow2, Push;
    Pow2Double(k);
    var t := Split(s, h, k);
    var b := h + Pow2(k);
    var g :| InsideAligned(s.blocks, g, i);
    if g == h {
      HalvesAligned(h, k);
      assert InsideAligned(t.blocks, if i < b then h else b, i);
    } else {
      assert InsideAligned(t.blocks, g, i);
    }
  }

  lemma SplitLists(s: State, h: nat, k: nat)
    requires ListsOk(s) && k + 1 < |s.lists| && h in s.blocks && s.blocks[h] == k + 1
    requires h + Pow2(k) !in s.blocks && h + Pow2(k) < |s.pages| && NotListed(s.lists, h)
    ensures ListsOk(Split(s, h, k)) && NotListed(Split(s, h, k).lists, h)
  {
    var b := h + Pow2(k);
    var t := Split(s, h, k);
    forall j | 0 <= j < |t.lists|
      ensures ListOk(t.pages, t.blocks, t.lists[j], j) && h !in t.lists[j]
    {
      assert ListOk(s.pages, s.blocks, s.lists[j], j);
      assert forall y :: y in t.lists[j] ==> y in s.lists[j] || (y == b && j == k);
    }
  }

  lemma SplitKeeps(s: State, h: nat, k: nat)
    requires Inv(s, h) && h in s.blocks && s.blocks[h] == k + 1
    ensures h + Pow2(k) < |s.pages| && k + 1 < |s.lists|
    ensures Inv(Split(s, h, k), h)
  {
    hide Disjoint, Within, Covered;
    SplitRoom(s.blocks, s.managed, h, k);
    SplitTiles(s.blocks, s.managed, h, k);
    SplitLists(s, h, k);
    var b := h + Pow2(k);
    var t := Split(s, h, k);
    forall i: nat | i < |t.pages| && t.pages[i].free ensures i == h || Listed(t, i) || Stale(t, i) {
      if i != b && i != h {
        if !Listed(s, i) { SplitStale(s, h, k, i); }
      }
    }
  }

  lemma HandOutKeeps(s: State, h: nat, k: nat)
    requires Inv(s, h) && h in s.blocks && s.blocks[h] == k && h < |s.pages|
    ensures Inv(HandOut(s, h, k), NO_HAND)
  {
    hide Disjoint, Within, Covered;
    var t := HandOut(s, h, k);
    forall j | 0 <= j < |t.lists| ensures ListOk(t.pages, t.blocks, t.lists[j], j) {
      assert ListOk(s.pages, s.blocks, s.lists[j], j);
    }
    forall i: nat | i < |t.pages| && t.pages[i].free ensures Listed(t, i) || Stale(t, i) {
      MarksCarry(s, t, h, i);
    }
  }

  lemma TakeBackKeeps(s: State, h: nat)
    requires Inv(s, NO_HAND) && h in s.blocks && !s.pages[h].free
    ensures Inv(TakeBack(s, h), h)
  {
    hide Disjoint, Within, Covered;
    var t := TakeBack(s, h);
    forall j | 0 <= j < |t.lists|
      ensures ListOk(t.pages, t.blocks, t.lists[j], j) && h !in t.lists[j]
    {
      assert ListOk(s.pages, s.blocks, s.lists[j], j);
    }
    forall i: nat | i < |t.pages| && t.pages[i].free ensures i == h || Listed(t, i) || Stale(t, i) {
      if i != h { MarksCarry(s, t, NO_HAND, i); }
    }
  }

  /** The three-part test that free makes before it merges, as it is made: on the marks alone. */
  predicate MergeTest(pages: seq<Page>, a: nat, b: nat, k: nat)
    requires b < |pages|
  {
    var lower := Min(a, b);
    && pages[b].free
    && pages[b].property == k
    && Xor(a, b) == Pow2(k)
    && And(lower, Pow2(k + 1) - 1) == 0
  }

  /** The merge test is sound although stale marks accumulate, and complete: it succeeds exactly when
      the buddy is the head of a block on the free list of that order and the two form an aligned block. */
  lemma MergeTestSound(s: State, a: nat, k: nat)
    requires Inv(s, a) && a in s.blocks && s.blocks[a] == k && k < MAX_ORDER
    requires Xor(a, Pow2(k)) < |s.pages|
    ensures MergeTest(s.pages, a, Xor(a, Pow2(k)), k)
            <==> AreBuddies(a, Xor(a, Pow2(k)), k) && Xor(a, Pow2(k)) in s.lists[k]
  {
    hide Inv, Aligned, And, Xor, Pow2;
    var b := Xor(a, Pow2(k));
    BuddyPosition(a, k);
    ListsInUse(s, a, k);
    if MergeTest(s.pages, a, b, k) && b !in s.lists[k] {
      NotListedIsStale(s, a, b, k);
      var h := StaleCoversBuddy(s, a, b, k);
      TilesDisjoint(s, a);
      HeadNotInside(s.blocks, a, h);
    }
  }

  lemma ListsInUse(s: State, hand: int, k: nat)
    requires Inv(s, hand) && k <= MAX_ORDER
    ensures |s.lists| == MAX_ORDER + 1 && ListOk(s.pages, s.blocks, s.lists[k], k)
  {
  }

  lemma TilesDisjoint(s: State, hand: int)
    requires Inv(s, hand)
    ensures Disjoint(s.blocks)
  {
    hide Disjoint;
  }

  lemma NotListedIsStale(s: State, hand: int, b: nat, k: nat)
    requires Inv(s, hand) && b < |s.pages| && s.pages[b].free && s.pages[b].property == k && b != hand
    requires k <= MAX_ORDER && |s.lists| == MAX_ORDER + 1 && b !in s.lists[k]
    ensures Stale(s, b)
  {
    hide Tiling, ListsOk, HeadsOk, NotListed, Stale;
  }

  /** The block that absorbed a mark of order k covers the whole aligned pair the mark belongs to. */
  lemma StaleCoversBuddy(s: State, a: nat, b: nat, k: nat) returns (h: nat)
    requires b < |s.pages| && AreBuddies(a, b, k) && s.pages[b].property == k && Stale(s, b)
    ensures InBlock(s.blocks, h, a) && s.blocks[h] > k
  {
    h :| InsideAligned(s.blocks, h, b);
    var m := s.blocks[h];
    if m <= k {
      AlignedNested(h, m, b, k, b);
      assert false;
    } else {
      AlignedNested(Min(a, b), k + 1, h, m, b);
    }
  }

  lemma MergeDisjoint(blocks: map<nat, nat>, lo: nat, k: nat)
    requires Disjoint(blocks) && lo in blocks && lo + Pow2(k) in blocks
    requires blocks[lo] == k && blocks[lo + Pow2(k)] == k
    ensures Disjoint((blocks - {lo + Pow2(k)})[lo := k + 1])
  {
  }

  lemma MergeWithin(blocks: map<nat, nat>, managed: set<nat>, lo: nat, k: nat)
    requires Within(blocks, managed) && lo in blocks && lo + Pow2(k) in blocks
    requires blocks[lo] == k && blocks[lo + Pow2(k)] == k
    ensures Within((blocks - {lo + Pow2(k)})[lo := k + 1], managed)
  {
    var hi := lo + Pow2(k);
    var blocks' := (blocks - {hi})[lo := k + 1];
    forall g: nat, i: nat | InBlock(blocks', g, i) ensures i in managed {
      assert InBlock(blocks, if g == lo && hi <= i then hi else g, i);
    }
  }

  lemma MergeCovered(blocks: map<nat, nat>, managed: set<nat>, lo: nat, k: nat)
    requires Covered(blocks, managed) && lo in blocks && lo + Pow2(k) in blocks
    requires blocks[lo] == k && blocks[lo + Pow2(k)] == k
    ensures Covered((blocks - {lo + Pow2(k)})[lo := k + 1], managed)
  {
    var hi := lo + Pow2(k);
    var blocks' := (blocks - {hi})[lo := k + 1];
    forall i: nat | i in managed ensures InSome(blocks', i) {
      var g :| InBlock(blocks, g, i);
      assert InBlock(blocks', if g == hi then lo else g, i);
    }
  }

  lemma MergeTiles(blocks: map<nat, nat>, managed: set<nat>, a: nat, b: nat, k: nat)
    requires Tiling(blocks, managed) && k < MAX_ORDER && AreBuddies(a, b, k)
    requires a in blocks && b in blocks && blocks[a] == k && blocks[b] == k
    ensures Tiling((blocks - {Max(a, b)})[Min(a, b) := k + 1], managed)
  {
    hide Disjoint, Within, Covered;
    MergeDisjoint(blocks, Min(a, b), k);
    MergeWithin(blocks, managed, Min(a, b), k);
    MergeCovered(blocks, managed, Min(a, b), k);
  }

  lemma MergeStale(s: State, a: nat, b: nat, k: nat, i: nat)
    requires k < MAX_ORDER && AreBuddies(a, b, k) && k < |s.lists|
    requires a in s.blocks && b in s.blocks && s.blocks[a] == k && s.blocks[b] == k
    requires i < |s.pages| && i != Min(a, b)
    requires Stale(s, i) || (i == Max(a, b) && s.pages[i].property <= k)
    ensures Stale(Merge(s, a, b, k), i)
  {
    var t := Merge(s, a, b, k);
    var lo, hi := Min(a, b), Max(a, b);
    if i == hi {
      HalvesAligned(lo, k);
      if s.pages[i].property <= k { AlignedDown(i, s.pages[i].property, k); }
      assert InsideAligned(t.blocks, lo, i);
    } else {
      var g :| InsideAligned(s.blocks, g, i);
      assert InsideAligned(t.blocks, if g == hi then lo else g, i);
    }
  }

  lemma MergeLists(s: State, a: nat, b: nat, k: nat)
    requires ListsOk(s) && k + 1 < |s.lists| && NotListed(s.lists, a) && b in s.lists[k] && a != b
    requires a in s.blocks && s.blocks[a] == k
    ensures ListsOk(Merge(s, a, b, k)) && NotListed(Merge(s, a, b, k).lists, Min(a, b))
  {
    var t := Merge(s, a, b, k);
    assert ListOk(s.pages, s.blocks, s.lists[k], k);
    AboutWithout(s.lists[k], b);
    forall j | 0 <= j < |t.lists|
      ensures ListOk(t.pages, t.blocks, t.lists[j], j) && Min(a, b) !in t.lists[j]
    {
      assert ListOk(s.pages, s.blocks, s.lists[j], j);
    }
  }

  lemma MergeKeeps(s: State, a: nat, b: nat, k: nat)
    requires Inv(s, a) && a in s.blocks && s.blocks[a] == k && a < |s.pages| && s.pages[a].property <= k
    requires k < MAX_ORDER && AreBuddies(a, b, k) && b in s.lists[k]
    ensures Inv(Merge(s, a, b, k), Min(a, b))
  {
    hide Disjoint, Within, Covered;
    var t := Merge(s, a, b, k);
    var lo := Min(a, b);
    assert ListOk(s.pages, s.blocks, s.lists[k], k);
    MergeTiles(s.blocks, s.managed, a, b, k);
    MergeLists(s, a, b, k);
    AboutWithout(s.lists[k], b);
    forall i: nat | i < |t.pages| && t.pages[i].free ensures i == lo || Listed(t, i) || Stale(t, i) {
      if i != lo && (i == Max(a, b) || !Listed(s, i)) { MergeStale(s, a, b, k, i); }
    }
  }

  lemma ListKeeps(s: State, h: nat, k: nat)
    requires Inv(s, h) && h in s.blocks && s.blocks[h] == k && h < |s.pages| && s.pages[h].free && k <= MAX_ORDER
    ensures Inv(List(s, h, k), NO_HAND)
  {
    hide Disjoint, Within, Covered;
    var t := List(s, h, k);
    forall j | 0 <= j < |t.lists| ensures ListOk(t.pages, t.blocks, t.lists[j], j) {
      assert ListOk(s.pages, s.blocks, s.lists[j], j);
      assert forall y :: y in t.lists[j] ==> y in s.lists[j] || (y == h && j == k);
      assert h !in s.lists[j];
    }
    forall i: nat | i < |t.pages| && t.pages[i].free ensures Listed(t, i) || Stale(t, i) {
      if i != h { MarksCarry(s, t, h, i); }
    }
  }

  /** init_memmap: a new block on pages that belonged to no block. */
  ghost function AddBlock(s: State, h: nat, k: nat): State
    requires k < |s.lists| && h < |s.pages|
  {
    State(s.pages[h := s.pages[h].(property := k).(free := true)], Push(s.lists, k, h),
          s.blocks[h := k], s.managed + Range(h, Pow2(k)))
  }

  lemma AddDisjoint(blocks: map<nat, nat>, managed: set<nat>, h: nat, k: nat)
    requires Disjoint(blocks) && Within(blocks, managed)
    requires forall i: nat | h <= i < h + Pow2(k) :: i !in managed
    ensures Disjoint(blocks[h := k])
  {
    var blocks' := blocks[h := k];
    forall f, g | f in blocks' && g in blocks' && f < g
      ensures f + Pow2(blocks'[f]) <= g
    {
      if f == h {
        assert InBlock(blocks, g, g);
      } else if g == h {
        assert !InBlock(blocks, f, h);
      }
    }
  }

  lemma AddCovered(blocks: map<nat, nat>, managed: set<nat>, h: nat, k: nat)
    requires Covered(blocks, managed) && h !in blocks
    ensures Covered(blocks[h := k], managed + Range(h, Pow2(k)))
  {
    var managed' := managed + Range(h, Pow2(k));
    forall i: nat | i in managed' ensures InSome(blocks[h := k], i) {
      if i in managed {
        var g :| InBlock(blocks, g, i);
        assert InBlock(blocks[h := k], g, i);
      } else {
        assert InBlock(blocks[h := k], h, i);
      }
    }
  }

  lemma AddWithin(blocks: map<nat, nat>, managed: set<nat>, h: nat, k: nat)
    requires Within(blocks, managed)
    ensures Within(blocks[h := k], managed + Range(h, Pow2(k)))
  {
    var blocks' := blocks[h := k];
    forall g: nat, i: nat | InBlock(blocks', g, i)
      ensures i in managed + Range(h, Pow2(k))
    {
      if g != h { assert InBlock(blocks, g, i); }
    }
  }

  lemma AddTiles(blocks: map<nat, nat>, managed: set<nat>, h: nat, k: nat)
    requires Tiling(blocks, managed) && k <= MAX_ORDER && h !in blocks
    requires forall i: nat | h <= i < h + Pow2(k) :: i !in managed
    ensures Tiling(blocks[h := k], managed + Range(h, Pow2(k)))
  {
    hide Disjoint, Within, Covered;
    AddDisjoint(blocks, managed, h, k);
    AddWithin(blocks, managed, h, k);
    AddCovered(blocks, managed, h, k);
  }

  lemma AddLists(s: State, h: nat, k: nat)
    requires ListsOk(s) && k <= MAX_ORDER && h < |s.pages| && h !in s.blocks
    ensures ListsOk(AddBlock(s, h, k))
  {
    var t := AddBlock(s, h, k);
    forall j | 0 <= j < |t.lists| ensures ListOk(t.pages, t.blocks, t.lists[j], j) {
      assert ListOk(s.pages, s.blocks, s.lists[j], j);
      assert forall y :: y in t.lists[j] ==> y in s.lists[j] || (y == h && j == k);
      assert h !in s.lists[j];
    }
  }

  lemma AddMarks(s: State, h: nat, k: nat)
    requires MarksOk(s, NO_HAND) && k < |s.lists| && h < |s.pages| && h !in s.blocks
    ensures MarksOk(AddBlock(s, h, k), NO_HAND)
  {
    var t := AddBlock(s, h, k);
    assert t.lists[k] == [h] + s.lists[k];
    forall i: nat | i < |t.pages| && t.pages[i].free ensures Listed(t, i) || Stale(t, i) {
      if i != h && !Listed(s, i) { AddStale(s, h, k, i); }
    }
  }

  lemma AddBlockKeeps(s: State, h: nat, k: nat)
    requires Inv(s, NO_HAND) && k <= MAX_ORDER && h + Pow2(k) <= |s.pages|
    requires forall i: nat | h <= i < h + Pow2(k) :: i !in s.managed
    ensures h !in s.blocks
    ensures Inv(AddBlock(s, h, k), NO_HAND)
  {
    hide Disjoint, Within, Covered, ListOk, MarksOk, Pow2;
    HeadManaged(s.blocks, s.managed, h);
    AddTiles(s.blocks, s.managed, h, k);
    AddLists(s, h, k);
    AddMarks(s, h, k);
  }

  lemma HeadManaged(blocks: map<nat, nat>, managed: set<nat>, h: nat)
    requires Within(blocks, managed)
    ensures h in blocks ==> h in managed
  {
    if h in blocks { assert InBlock(blocks, h, h); }
  }

  lemma AddStale(s: State, h: nat, k: nat, i: nat)
    requires k < |s.lists| && h < |s.pages| && h !in s.blocks
    requires i < |s.pages| && i != h && Stale(s, i)
    ensures Stale(AddBlock(s, h, k), i)
  {
    var g :| InsideAligned(s.blocks, g, i);
    assert InsideAligned(AddBlock(s, h, k).blocks, g, i);
  }

  /** Clearing the mark of an unmanaged page changes nothing that matters. */
  lemma ResetKeeps(s: State, t: State, i: nat)
    requires Inv(s, NO_HAND) && i < |s.pages| && i !in s.managed
    requires t == s.(pages := s.pages[i := Page(0, false, false, 0)])
    ensures Inv(t, NO_HAND) && Outstanding(t, NO_HAND) == Outstanding(s, NO_HAND)
  {
    hide Disjoint, Within, Covered;
    HeadManaged(s.blocks, s.managed, i);
    forall j | 0 <= j < |t.lists| ensures ListOk(t.pages, t.blocks, t.lists[j], j) {
      assert ListOk(s.pages, s.blocks, s.lists[j], j);
    }
    forall j: nat | j < |t.pages| && t.pages[j].free ensures Listed(t, j) || Stale(t, j) {
      MarksCarry(s, t, NO_HAND, j);
    }
  }

  /** A list without repetitions is no longer than the page array. */
  lemma {:induction false} NoDupLength(list: seq<nat>, bound: nat)
    requires NoDup(list) && forall h | h in list :: h < bound
    ensures |list| <= bound
    decreases bound
  {
    assert |list| > 0 ==> list[0] in list;
    if bound > 0 {
      AboutWithout<nat>(list, bound - 1);
      NoDupLength(Without<nat>(list, bound - 1), bound - 1);
    }
  }

  lemma ListLength(s: State, hand: int, k: nat)
    requires Inv(s, hand) && k < |s.lists|
    ensures |s.lists[k]| <= |s.pages| && NoDup(s.lists[k]) && |s.lists| == MAX_ORDER + 1
  {
    hide Disjoint, Within, Covered, MarksOk;
    assert ListOk(s.pages, s.blocks, s.lists[k], k);
    NoDupLength(s.lists[k], |s.pages|);
  }

  // ----- what each change does to the outstanding blocks -----

  lemma PopLive(s: State, k: nat)
    requires Inv(s, NO_HAND) && k < |s.lists| && s.lists[k] != []
    requires Inv(Pop(s, k), s.lists[k][0])
    ensures Outstanding(Pop(s, k), s.lists[k][0]) == Outstanding(s, NO_HAND)
  {
    hide Tiling, MarksOk;
    assert ListOk(s.pages, s.blocks, s.lists[k], k);
  }

  lemma SplitLive(s: State, h: nat, k: nat)
    requires HeadsOk(s, h) && h in s.blocks && k < |s.lists| && h + Pow2(k) < |s.pages| && h + Pow2(k) !in s.blocks
    requires HeadsOk(Split(s, h, k), h)
    ensures Outstanding(Split(s, h, k), h) == Outstanding(s, h)
  {
    hide Pow2, Push;
  }

  lemma MergeLive(s: State, a: nat, b: nat, k: nat)
    requires Inv(s, a) && a in s.blocks && a < |s.pages| && s.pages[a].free
    requires k < |s.lists| && b in s.lists[k] && HeadsOk(Merge(s, a, b, k), Min(a, b))
    ensures Outstanding(Merge(s, a, b, k), Min(a, b)) == Outstanding(s, a)
  {
    hide Tiling, MarksOk;
    assert ListOk(s.pages, s.blocks, s.lists[k], k);
    var t := Merge(s, a, b, k);
    assert forall h | h in s.blocks && h != a && h != b :: h in t.blocks && t.blocks[h] == s.blocks[h];
  }

  lemma AddLive(s: State, h: nat, k: nat)
    requires HeadsOk(s, NO_HAND) && k < |s.lists| && h < |s.pages| && h !in s.blocks
    requires HeadsOk(AddBlock(s, h, k), NO_HAND)
    ensures Outstanding(AddBlock(s, h, k), NO_HAND) == Outstanding(s, NO_HAND)
  {
  }

  /** A block is free, that is not handed out, exactly when it is on the list of its order. */
  lemma FreeIsListed(s: State, h: nat)
    requires Inv(s, NO_HAND) && h in s.blocks
    ensures s.blocks[h] < |s.lists|
    ensures h !in Outstanding(s, NO_HAND) <==> h in s.lists[s.blocks[h]]
  {
    hide Disjoint, Within, Covered;
    assert ListOk(s.pages, s.blocks, s.lists[s.blocks[h]], s.blocks[h]);
    if s.pages[h].free && Stale(s, h) {
      var g :| InsideAligned(s.blocks, g, h);
      HeadNotInside(s.blocks, h, g);
    }
  }

  lemma BlockBounds(s: State, hand: int, h: nat)
    requires Inv(s, hand) && h in s.blocks
    ensures s.blocks[h] <= MAX_ORDER && |s.lists| == MAX_ORDER + 1 && h in s.managed && h < |s.pages|
    ensures h != hand ==> s.pages[h].property == s.blocks[h]
  {
    hide Disjoint, Covered, MarksOk, ListOk;
    HeadManaged(s.blocks, s.managed, h);
  }

  lemma HandNotListed(s: State, hand: nat, k: nat)
    requires Inv(s, hand) && k < |s.lists|
    ensures hand !in s.lists[k]
  {
    hide Tiling, MarksOk, ListsOk;
  }

  lemma ListLive(s: State, h: nat, k: nat)
    requires HeadsOk(s, h) && h in s.blocks && s.blocks[h] == k && h < |s.pages| && s.pages[h].free && k < |s.lists|
    requires HeadsOk(List(s, h, k), NO_HAND)
    ensures Outstanding(List(s, h, k), NO_HAND) == Outstanding(s, h)
  {
  }

  lemma TakeBackLive(s: State, h: nat)
    requires HeadsOk(s, NO_HAND) && h in s.blocks && HeadsOk(TakeBack(s, h), h)
    ensures Outstanding(TakeBack(s, h), h) == Outstanding(s, NO_HAND) - {h}
  {
  }

  /** Merging halves of an aligned block keeps every block aligned. */
  lemma MergeAligned(s: State, a: nat, b: nat, k: nat)
    requires AllAligned(s.blocks) && AreBuddies(a, b, k) && k < |s.lists|
    ensures AllAligned(Merge(s, a, b, k).blocks)
  {
  }

  lemma ListedHead(s: State, hand: int, k: nat, h: nat)
    requires Inv(s, hand) && k < |s.lists| && h in s.lists[k]
    ensures h in s.blocks && s.blocks[h] == k && h < |s.pages| && s.pages[h].free && s.pages[h].property == k
  {
    hide Tiling, MarksOk, HeadsOk, NotListed;
    assert ListOk(s.pages, s.blocks, s.lists[k], k);
  }

  lemma LiveBlock(s: State, h: nat)
    requires Inv(s, NO_HAND) && h in Outstanding(s, NO_HAND)
    ensures h in s.blocks && h < |s.pages| && !s.pages[h].free && Outstanding(s, NO_HAND)[h] == s.blocks[h]
  {
    hide Tiling, MarksOk, ListsOk, NotListed;
  }

  lemma SplitAligned(s: State, h: nat, k: nat)
    requires AllAligned(s.blocks) && h in s.blocks && s.blocks[h] == k + 1
    requires k < |s.lists| && h + Pow2(k) < |s.pages|
    ensures AllAligned(Split(s, h, k).blocks)
  {
    HalvesAligned(h, k);
  }

  lemma HandOutLive(s: State, h: nat, k: nat)
    requires HeadsOk(s, h) && h in s.blocks && s.blocks[h] == k && h < |s.pages|
    requires HeadsOk(HandOut(s, h, k), NO_HAND)
    ensures Outstanding(HandOut(s, h, k), NO_HAND) == Outstanding(s, h)[h := k]
    ensures h !in Outstanding(s, h)
  {
  }

  /** Outstanding blocks lie in the managed pages and share none. */
  lemma LiveDisjoint(s: State, h: nat, g: nat)
    requires Inv(s, NO_HAND) && h in Outstanding(s, NO_HAND) && g in Outstanding(s, NO_HAND) && h != g
    ensures h + Pow2(Outstanding(s, NO_HAND)[h]) <= g || g + Pow2(Outstanding(s, NO_HAND)[g]) <= h
  {
    hide Within, Covered, MarksOk, ListsOk, NotListed;
  }

  lemma SplitHead(s: State, h: nat, k: nat)
    requires Inv(s, h) && h in s.blocks && s.blocks[h] == k + 1
    ensures h + Pow2(k) < |s.pages| && h + Pow2(k) !in s.blocks && h != h + Pow2(k)
  {
    hide Disjoint, Within, Covered, MarksOk, ListsOk;
    SplitRoom(s.blocks, s.managed, h, k);
  }

  lemma BlockRoom(s: State, hand: int, h: nat)
    requires Inv(s, hand) && h in s.blocks
    ensures h + Pow2(s.blocks[h]) <= |s.pages|
  {
    hide Disjoint, Covered, MarksOk, ListsOk;
    assert InBlock(s.blocks, h, h + Pow2(s.blocks[h]) - 1);
  }

  lemma ListCount(s: State, hand: int)
    requires Inv(s, hand)
    ensures |s.lists| == MAX_ORDER + 1
  {
    hide Tiling, MarksOk;
  }

  lemma ListedManaged(s: State)
    requires Inv(s, NO_HAND)
    ensures |s.lists| == MAX_ORDER + 1 && forall k, h | 0 <= k < |s.lists| && h in s.lists[k] :: h in s.managed
  {
    hide MarksOk, HeadsOk, NotListed, Disjoint, Covered;
    ListCount(s, NO_HAND);
    forall k, h | 0 <= k < |s.lists| && h in s.lists[k] ensures h in s.managed {
      ListedHead(s, NO_HAND, k, h);
      HeadManaged(s.blocks, s.managed, h);
    }
  }

  /** An allocator that manages nothing has empty lists. */
  lemma EmptyState(s: State)
    requires Inv(s, NO_HAND) && s.managed == {}
    ensures FullyMerged(s.lists) && forall k | 0 <= k < |s.lists| :: s.lists[k] == []
  {
    forall k | 0 <= k < |s.lists| ensures s.lists[k] == [] {
      if s.lists[k] != [] {
        ListedHead(s, NO_HAND, k, s.lists[k][0]);
        HeadManaged(s.blocks, s.managed, s.lists[k][0]);
      }
    }
  }
}
