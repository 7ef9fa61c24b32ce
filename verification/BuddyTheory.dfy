/** What the buddy allocator does, as functions on its lists, and the properties of those functions:
    no buddies stay unmerged, blocks stay aligned, the counter drifts by what merges absorb, and an
    aligned, fully merged decomposition is determined by the pages it covers. */
module BuddyTheory {
  import opened Bits
  import opened BuddyState

  // ----- alloc and free on the lists -----

  /** The smallest order from k on whose list is not empty; the number of lists if there is none. */
  function FirstOrder(lists: seq<seq<nat>>, k: nat): (c: nat)
    ensures k <= |lists| ==> k <= c <= |lists|
    ensures forall j | k <= j < c && j < |lists| :: lists[j] == []
    ensures c < |lists| ==> lists[c] != []
    decreases |lists| - k
  {
    if k >= |lists| then |lists| else if lists[k] != [] then k else FirstOrder(lists, k + 1)
  }

  /** Halve the block h from order c down to order r, listing every upper half. */
  function SplitDown(lists: seq<seq<nat>>, h: nat, c: nat, r: nat): seq<seq<nat>>
    requires c <= |lists|
    decreases c
  {
    if c <= r then lists else SplitDown(Push(lists, c - 1, h + Pow2(c - 1)), h, c - 1, r)
  }

  function AllocLists(lists: seq<seq<nat>>, r: nat): seq<seq<nat>>
    requires r <= |lists| && FirstOrder(lists, r) < |lists|
  {
    var c := FirstOrder(lists, r);
    SplitDown(lists[c := lists[c][1..]], lists[c][0], c, r)
  }

  /** The result of merging: the lists without the absorbed blocks, and the block grown. */
  datatype Grown = Grown(lists: seq<seq<nat>>, head: nat, order: nat)

  /** Merge block a of order k with its buddy for as long as that buddy is listed: the merge as it is
      meant, on list membership, where the code looks at page marks. */
  function MergeUp(lists: seq<seq<nat>>, a: nat, k: nat): Grown
    requires |lists| == MAX_ORDER + 1
    decreases MAX_ORDER - k
  {
    var b := Xor(a, Pow2(k));
    if k < MAX_ORDER && AreBuddies(a, b, k) && b in lists[k]
    then MergeUp(lists[k := Without(lists[k], b)], Min(a, b), k + 1)
    else Grown(lists, a, k)
  }

  function FreeLists(lists: seq<seq<nat>>, a: nat, k: nat): seq<seq<nat>>
    requires |lists| == MAX_ORDER + 1 && k <= MAX_ORDER
  {
    var g := MergeUp(lists, a, k);
    MergeUpOrder(lists, a, k);
    Push(g.lists, g.order, g.head)
  }

  lemma {:induction false} MergeUpOrder(lists: seq<seq<nat>>, a: nat, k: nat)
    requires |lists| == MAX_ORDER + 1 && k <= MAX_ORDER
    ensures k <= MergeUp(lists, a, k).order <= MAX_ORDER && |MergeUp(lists, a, k).lists| == |lists|
    decreases MAX_ORDER - k
  {
    var b := Xor(a, Pow2(k));
    if k < MAX_ORDER && AreBuddies(a, b, k) && b in lists[k] {
      MergeUpOrder(lists[k := Without(lists[k], b)], Min(a, b), k + 1);
    }
  }

  lemma MergeUpStep(lists: seq<seq<nat>>, a: nat, k: nat)
    requires |lists| == MAX_ORDER + 1 && k <= MAX_ORDER
    ensures var b := Xor(a, Pow2(k));
            if k < MAX_ORDER && AreBuddies(a, b, k) && b in lists[k]
            then MergeUp(lists, a, k) == MergeUp(lists[k := Without(lists[k], b)], Min(a, b), k + 1)
            else MergeUp(lists, a, k) == Grown(lists, a, k)
  {
  }

  /** The block grows exactly when its buddy is an aligned half listed on the list of its order. */
  lemma MergesWhen(lists: seq<seq<nat>>, a: nat, k: nat)
    requires |lists| == MAX_ORDER + 1 && k <= MAX_ORDER
    ensures MergeUp(lists, a, k).order == k <==>
            k == MAX_ORDER || !(AreBuddies(a, Xor(a, Pow2(k)), k) && Xor(a, Pow2(k)) in lists[k])
  {
    hide Xor, Pow2, AreBuddies, Without;
    var b := Xor(a, Pow2(k));
    if k < MAX_ORDER && AreBuddies(a, b, k) && b in lists[k] {
      MergeUpOrder(lists[k := Without(lists[k], b)], Min(a, b), k + 1);
    }
  }

  /** What a free leaves of the counter is right exactly when the block has not grown. */
  lemma CounterRight(nrFree: int, k: nat, order: nat)
    requires k <= order <= MAX_ORDER
    ensures U32(nrFree + 2 * Pow2(k) - Pow2(order)) == U32(nrFree + Pow2(k)) <==> order == k
  {
    hide U32, Pow2;
    Pow2Monotone(k, order);
    Pow2Monotone(order, MAX_ORDER);
    Pow2Values();
    U32Differs(nrFree + 2 * Pow2(k) - Pow2(order), Pow2(order) - Pow2(k));
    if order != k { Pow2Strict(k, order); }
  }

  lemma U32Differs(x: int, d: nat)
    requires d < 0x1_0000_0000
    ensures U32(x) == U32(x + d) <==> d == 0
  {
  }

  /** Taking a block from the counter makes it wrap around exactly when the block has more pages than it counts. */
  lemma CounterWraps(nrFree: nat, k: nat)
    requires nrFree < 0x1_0000_0000 && k <= MAX_ORDER
    ensures U32(nrFree - Pow2(k)) > nrFree <==> Pow2(k) > nrFree
    ensures Pow2(k) <= nrFree ==> U32(nrFree - Pow2(k)) == nrFree - Pow2(k)
  {
    hide Pow2;
    Pow2Monotone(k, MAX_ORDER);
    Pow2Values();
  }

  lemma FreeListsIs(lists: seq<seq<nat>>, a: nat, k: nat)
    requires |lists| == MAX_ORDER + 1 && k <= MAX_ORDER
    ensures var g := MergeUp(lists, a, k);
            g.order < |g.lists| && FreeLists(lists, a, k) == Push(g.lists, g.order, g.head)
  {
    MergeUpOrder(lists, a, k);
  }

  // ----- the order on a list -----

  /** A freed block that merges with nothing is the first on the list of its order, before those that were there. */
  lemma FreedFirst(lists: seq<seq<nat>>, a: nat, k: nat)
    requires |lists| == MAX_ORDER + 1 && k <= MAX_ORDER && MergeUp(lists, a, k).order == k
    ensures FreeLists(lists, a, k) == lists[k := [a] + lists[k]]
  {
    hide MergeUp, Xor, Pow2, AreBuddies, Without;
    FreeListsIs(lists, a, k);
    MergesWhen(lists, a, k);
    MergeUpStep(lists, a, k);
  }

  /** From a list that is not empty its first block is taken, and no other list changes. */
  lemma FirstTaken(lists: seq<seq<nat>>, k: nat)
    requires k < |lists| && lists[k] != []
    ensures FirstOrder(lists, k) == k && AllocLists(lists, k) == lists[k := lists[k][1..]]
  {
    hide SplitDown;
    FirstOrderStep(lists, k);
    SplitDownStep(lists[k := lists[k][1..]], lists[k][0], k, k);
  }

  const LARGEST: nat := 1024          // pages in a block of order MAX_ORDER

  /** The starts of q largest blocks from page start on, the last of them first. */
  function Descending(start: nat, q: nat): seq<nat>
    decreases q
  {
    if q == 0 then [] else Descending(start + LARGEST, q - 1) + [start]
  }

  lemma {:induction false} DescendingAt(start: nat, q: nat, i: nat)
    requires i < q
    ensures |Descending(start, q)| == q && Descending(start, q)[i] == start + (q - 1 - i) * LARGEST
    decreases q
  {
    if i < q - 1 { DescendingAt(start + LARGEST, q - 1, i); } else { DescendingLength(start + LARGEST, q - 1); }
  }

  lemma {:induction false} DescendingLength(start: nat, q: nat)
    ensures |Descending(start, q)| == q
    decreases q
  {
    if q > 0 { DescendingLength(start + LARGEST, q - 1); }
  }

  lemma LargestFits(n: nat)
    requires n >= LARGEST
    ensures LargestOrder(n, MAX_ORDER) == MAX_ORDER && Pow2(MAX_ORDER) == LARGEST
  {
    Pow2Values();
  }

  /** Of the largest blocks of a region the one with the highest address comes first, and what was on their list
      before comes after them. */
  lemma {:induction false} LargestDown(lists: seq<seq<nat>>, start: nat, n: nat)
    requires |lists| == MAX_ORDER + 1
    ensures |GreedyLists(lists, start, n)| == MAX_ORDER + 1
    ensures GreedyLists(lists, start, n)[MAX_ORDER] == Descending(start, n / LARGEST) + lists[MAX_ORDER]
    decreases n
  {
    hide GreedyLists, LargestOrder, Pow2;
    Pow2Values();
    GreedyListsStep(lists, start, n);
    if n >= LARGEST {
      LargestFits(n);
      LargestDown(Push(lists, MAX_ORDER, start), start + LARGEST, n - LARGEST);
      var q := n / LARGEST;
      assert (n - LARGEST) / LARGEST == q - 1;
      var above := Descending(start + LARGEST, q - 1);
      assert above + ([start] + lists[MAX_ORDER]) == (above + [start]) + lists[MAX_ORDER];
    } else if n > 0 {
      var k := LargestOrder(n, MAX_ORDER);
      LargestDown(Push(lists, k, start), start + Pow2(k), n - Pow2(k));
    }
  }

  // ----- buddies never stay free side by side -----

  lemma {:induction false} SplitDownMerged(lists: seq<seq<nat>>, h: nat, c: nat, r: nat)
    requires c <= |lists| && FullyMerged(lists)
    requires forall j | r <= j < c :: lists[j] == []
    ensures FullyMerged(SplitDown(lists, h, c, r))
    decreases c
  {
    if c > r {
      var lists' := Push(lists, c - 1, h + Pow2(c - 1));
      assert lists'[c - 1] == [h + Pow2(c - 1)];
      SplitDownMerged(lists', h, c - 1, r);
    }
  }

  lemma AllocMerged(lists: seq<seq<nat>>, r: nat)
    requires r <= |lists| && FirstOrder(lists, r) < |lists| && FullyMerged(lists)
    ensures FullyMerged(AllocLists(lists, r))
  {
    var c := FirstOrder(lists, r);
    assert forall y :: y in lists[c][1..] ==> y in lists[c];
    SplitDownMerged(lists[c := lists[c][1..]], lists[c][0], c, r);
  }

  lemma WithoutSubset<T>(s: seq<T>, x: T)
    ensures forall y :: y in Without(s, x) ==> y in s
  {
    if s != [] { WithoutSubset(s[1..], x); }
  }

  /** Listing a block whose buddy is not listed creates no pair of free buddies. */
  lemma PushMerged(lists: seq<seq<nat>>, a: nat, k: nat)
    requires k < |lists| && FullyMerged(lists) && (k < MAX_ORDER ==> a !in lists[k])
    requires k < MAX_ORDER ==> !(AreBuddies(a, Xor(a, Pow2(k)), k) && Xor(a, Pow2(k)) in lists[k])
    ensures FullyMerged(Push(lists, k, a))
  {
    var lists' := Push(lists, k, a);
    forall j, h: nat | 0 <= j < |lists'| && j < MAX_ORDER && h in lists'[j] && Aligned(h, j + 1)
      ensures h + Pow2(j) !in lists'[j]
    {
      if j == k {
        assert lists'[k] == [a] + lists[k];
        if h == a || h + Pow2(k) == a {
          assert AreBuddies(h, h + Pow2(k), k) && AreBuddies(h + Pow2(k), h, k);
          BuddyOf(a, if h == a then h + Pow2(k) else h, k);
        }
      }
    }
  }

  lemma {:induction false} FreeMerged(lists: seq<seq<nat>>, a: nat, k: nat)
    requires |lists| == MAX_ORDER + 1 && k <= MAX_ORDER && FullyMerged(lists)
    requires var g := MergeUp(lists, a, k); g.order < |g.lists| && g.head !in g.lists[g.order]
    ensures FullyMerged(FreeLists(lists, a, k))
    decreases MAX_ORDER - k
  {
    var b := Xor(a, Pow2(k));
    if k < MAX_ORDER && AreBuddies(a, b, k) && b in lists[k] {
      WithoutSubset(lists[k], b);
      FreeMerged(lists[k := Without(lists[k], b)], Min(a, b), k + 1);
    } else {
      PushMerged(lists, a, k);
    }
  }

  // ----- the pages on the lists -----

  /** The pages on the first n lists. */
  function Total(lists: seq<seq<nat>>, n: nat): nat
    requires n <= |lists|
  {
    if n == 0 then 0 else Total(lists, n - 1) + Pow2(n - 1) * |lists[n - 1]|
  }

  function FreePages(lists: seq<seq<nat>>): nat { Total(lists, |lists|) }

  lemma {:induction false} TotalUpdate(lists: seq<seq<nat>>, k: nat, list: seq<nat>, n: nat)
    requires k < |lists| && n <= |lists|
    ensures Total(lists[k := list], n) == Total(lists, n) + if k < n then Pow2(k) * |list| - Pow2(k) * |lists[k]| else 0
  {
    if n > 0 { TotalUpdate(lists, k, list, n - 1); }
  }

  lemma PushTotal(lists: seq<seq<nat>>, k: nat, h: nat)
    requires k < |lists|
    ensures FreePages(Push(lists, k, h)) == FreePages(lists) + Pow2(k)
  {
    TotalUpdate(lists, k, [h] + lists[k], |lists|);
    assert Pow2(k) * (1 + |lists[k]|) == Pow2(k) + Pow2(k) * |lists[k]|;
  }

  lemma ShrinkTotal(lists: seq<seq<nat>>, k: nat, list: seq<nat>)
    requires k < |lists| && |list| + 1 == |lists[k]|
    ensures FreePages(lists[k := list]) == FreePages(lists) - Pow2(k)
  {
    TotalUpdate(lists, k, list, |lists|);
    assert Pow2(k) * (1 + |list|) == Pow2(k) + Pow2(k) * |list|;
  }

  // ----- the decomposition InitMemmap makes -----

  /** The largest order up to m whose block fits into n pages. */
  function LargestOrder(n: nat, m: nat): (k: nat)
    requires n >= 1
    ensures k <= m && Pow2(k) <= n && (k < m ==> n < Pow2(k + 1))
  {
    if m == 0 || Pow2(m) <= n then m else LargestOrder(n, m - 1)
  }

  lemma {:induction false} LargestOrderBelow(n: nat, j: nat, m: nat)
    requires n >= 1 && j <= m && n < Pow2(j + 1)
    ensures LargestOrder(n, m) == LargestOrder(n, j)
  {
    if j < m {
      Pow2Monotone(j + 1, m);
      LargestOrderBelow(n, j, m - 1);
    }
  }

  /** Starting the search at the largest order that fits the whole region loses nothing. */
  lemma MaxOrderSuits(n: nat, remaining: nat, maxOrder: nat)
    requires 1 <= remaining <= n && maxOrder <= MAX_ORDER && (maxOrder < MAX_ORDER ==> n < Pow2(maxOrder + 1))
    ensures LargestOrder(remaining, maxOrder) == LargestOrder(remaining, MAX_ORDER)
  {
    if maxOrder < MAX_ORDER { LargestOrderBelow(remaining, maxOrder, MAX_ORDER); }
  }

  /** Blocks of the largest order that still fits, one after the other. */
  function Greedy(start: nat, n: nat): map<nat, nat>
    decreases n
  {
    if n == 0 then map[]
    else
      var k := LargestOrder(n, MAX_ORDER);
      Greedy(start + Pow2(k), n - Pow2(k))[start := k]
  }

  /** The lists after listing those blocks in order. */
  function GreedyLists(lists: seq<seq<nat>>, start: nat, n: nat): seq<seq<nat>>
    requires |lists| == MAX_ORDER + 1
    decreases n
  {
    if n == 0 then lists
    else
      var k := LargestOrder(n, MAX_ORDER);
      GreedyLists(Push(lists, k, start), start + Pow2(k), n - Pow2(k))
  }

  lemma PushSingle(lists: seq<seq<nat>>, a: nat, k: nat)
    requires k < |lists| && FullyMerged(lists) && (k < MAX_ORDER ==> lists[k] == [])
    ensures FullyMerged(Push(lists, k, a))
  {
    PushMerged(lists, a, k);
  }

  /** A list below the largest order that is not empty is for blocks larger than what remains. */
  ghost predicate OnlyLarger(lists: seq<seq<nat>>, n: nat) {
    forall j | 0 <= j < MAX_ORDER && j < |lists| :: lists[j] != [] ==> n < Pow2(j)
  }

  lemma PushOnlyLarger(lists: seq<seq<nat>>, a: nat, n: nat)
    requires |lists| == MAX_ORDER + 1 && FullyMerged(lists) && n > 0 && OnlyLarger(lists, n)
    ensures var k := LargestOrder(n, MAX_ORDER);
            FullyMerged(Push(lists, k, a)) && OnlyLarger(Push(lists, k, a), n - Pow2(k))
  {
    hide LargestOrder, FullyMerged;
    var k := LargestOrder(n, MAX_ORDER);
    PushSingle(lists, a, k);
  }

  /** A first region leaves no buddies side by side, whatever page it starts at. */
  lemma {:induction false} GreedyMerged(lists: seq<seq<nat>>, start: nat, n: nat)
    requires |lists| == MAX_ORDER + 1 && FullyMerged(lists) && OnlyLarger(lists, n)
    ensures FullyMerged(GreedyLists(lists, start, n))
    decreases n
  {
    hide FullyMerged, OnlyLarger, LargestOrder, GreedyLists, Pow2;
    GreedyListsStep(lists, start, n);
    if n > 0 {
      var k := LargestOrder(n, MAX_ORDER);
      PushOnlyLarger(lists, start, n);
      GreedyMerged(Push(lists, k, start), start + Pow2(k), n - Pow2(k));
    }
  }

  lemma GreedyListsStep(lists: seq<seq<nat>>, start: nat, n: nat)
    requires |lists| == MAX_ORDER + 1
    ensures GreedyLists(lists, start, n)
            == if n == 0 then lists
               else
                 var k := LargestOrder(n, MAX_ORDER);
                 GreedyLists(Push(lists, k, start), start + Pow2(k), n - Pow2(k))
    ensures n == 0 ==> Greedy(start, n) == map[]
  {
    hide LargestOrder, Pow2;
  }

  lemma GreedyIs(start: nat, n: nat)
    requires n > 0
    ensures var k := LargestOrder(n, MAX_ORDER); Greedy(start, n) == Greedy(start + Pow2(k), n - Pow2(k))[start := k]
  {
    hide LargestOrder, Pow2;
  }

  lemma GreedyStep(blocks: map<nat, nat>, start: nat, n: nat)
    requires n > 0
    ensures var k := LargestOrder(n, MAX_ORDER);
            blocks[start := k] + Greedy(start + Pow2(k), n - Pow2(k)) == blocks + Greedy(start, n)
  {
    hide LargestOrder, Pow2, Greedy;
    GreedyIs(start, n);
    var k := LargestOrder(n, MAX_ORDER);
    GreedyLater(start + Pow2(k), n - Pow2(k), start);
    UnionExtend(blocks, Greedy(start + Pow2(k), n - Pow2(k)), start, k);
  }

  lemma GreedyLater(start: nat, n: nat, h: nat)
    requires h < start
    ensures h !in Greedy(start, n)
  {
    GreedyRange(start, n);
  }

  lemma UnionExtend(m: map<nat, nat>, rest: map<nat, nat>, h: nat, k: nat)
    requires h !in rest
    ensures m[h := k] + rest == m + rest[h := k]
  {
  }

  lemma {:induction false} GreedyRange(start: nat, n: nat)
    ensures forall h | h in Greedy(start, n) ::
              start <= h && Greedy(start, n)[h] <= MAX_ORDER && h + Pow2(Greedy(start, n)[h]) <= start + n
    decreases n
  {
    hide LargestOrder, Pow2;
    if n > 0 {
      var k := LargestOrder(n, MAX_ORDER);
      GreedyRange(start + Pow2(k), n - Pow2(k));
    }
  }

  lemma ExtendDisjoint(rest: map<nat, nat>, start: nat, k: nat)
    requires Disjoint(rest) && forall h | h in rest :: start + Pow2(k) <= h
    ensures Disjoint(rest[start := k])
  {
  }

  lemma ExtendInBlock(rest: map<nat, nat>, start: nat, k: nat, i: nat)
    requires InSome(rest, i) && start !in rest
    ensures InSome(rest[start := k], i)
  {
    var h :| InBlock(rest, h, i);
    assert InBlock(rest[start := k], h, i);
  }

  lemma {:induction false} GreedyDisjoint(start: nat, n: nat)
    ensures Disjoint(Greedy(start, n))
    decreases n
  {
    hide Disjoint, LargestOrder, Pow2;
    if n > 0 {
      var p := Pow2(LargestOrder(n, MAX_ORDER));
      GreedyDisjoint(start + p, n - p);
      GreedyRange(start + p, n - p);
      ExtendDisjoint(Greedy(start + p, n - p), start, LargestOrder(n, MAX_ORDER));
    } else {
      EmptyDisjoint();
    }
  }

  lemma EmptyDisjoint()
    ensures Disjoint(map[])
  {
  }

  lemma {:induction false} GreedyCovers(start: nat, n: nat, i: nat)
    requires start <= i < start + n
    ensures InSome(Greedy(start, n), i)
    decreases n
  {
    hide InSome, LargestOrder, Pow2, Greedy;
    GreedyIs(start, n);
    var k := LargestOrder(n, MAX_ORDER);
    if i < start + Pow2(k) {
      InOwnBlock(Greedy(start, n), start, i);
    } else {
      GreedyCovers(start + Pow2(k), n - Pow2(k), i);
      GreedyRange(start + Pow2(k), n - Pow2(k));
      ExtendInBlock(Greedy(start + Pow2(k), n - Pow2(k)), start, k, i);
    }
  }

  lemma InOwnBlock(blocks: map<nat, nat>, h: nat, i: nat)
    requires InBlock(blocks, h, i)
    ensures InSome(blocks, i)
  {
  }

  lemma {:induction false} GreedyAligned(start: nat, n: nat)
    requires n > 0 ==> Aligned(start, LargestOrder(n, MAX_ORDER))
    ensures AllAligned(Greedy(start, n))
    decreases n
  {
    hide LargestOrder, Pow2, Aligned;
    if n > 0 {
      var k := LargestOrder(n, MAX_ORDER);
      var n' := n - Pow2(k);
      if n' > 0 {
        var k' := LargestOrder(n', MAX_ORDER);
        if k < k' { Pow2Monotone(k + 1, k'); }
        AlignedEnd(start, k);
        AlignedDown(start + Pow2(k), k', k);
      }
      GreedyAligned(start + Pow2(k), n');
    }
  }

  lemma {:induction false} GreedySizes(start: nat, n: nat)
    ensures forall h | h in Greedy(start, n) :: Pow2(Greedy(start, n)[h]) <= n
    decreases n
  {
    hide LargestOrder, Pow2;
    if n > 0 {
      var k := LargestOrder(n, MAX_ORDER);
      GreedySizes(start + Pow2(k), n - Pow2(k));
    }
  }

  /** No order below the largest occurs twice. */
  lemma {:induction false} GreedyOrders(start: nat, n: nat)
    ensures forall h, g | h in Greedy(start, n) && g in Greedy(start, n) && h < g ::
              Greedy(start, n)[h] == Greedy(start, n)[g] ==> Greedy(start, n)[h] == MAX_ORDER
    decreases n
  {
    hide LargestOrder, Pow2;
    if n > 0 {
      var k := LargestOrder(n, MAX_ORDER);
      var p := Pow2(k);
      GreedyOrders(start + p, n - p);
      GreedyRange(start + p, n - p);
      GreedySizes(start + p, n - p);
      assert k < MAX_ORDER ==> n - p < p by { Pow2Double(k); }
    }
  }

  // ----- a decomposition is determined by the pages it covers -----

  /** No two blocks of the same order below the largest are halves of one aligned block. */
  ghost predicate NoBuddies(blocks: map<nat, nat>) {
    forall h | h in blocks && blocks[h] < MAX_ORDER && Aligned(h, blocks[h] + 1) ::
      !(h + Pow2(blocks[h]) in blocks && blocks[h + Pow2(blocks[h])] == blocks[h])
  }

  ghost predicate CoversChunk(blocks: map<nat, nat>, c: nat, m: nat) {
    forall i: nat | c <= i < c + Pow2(m) :: InSome(blocks, i)
  }

  ghost predicate CoverSamePages(f: map<nat, nat>, g: map<nat, nat>) {
    forall i: nat :: InSome(f, i) <==> InSome(g, i)
  }

  ghost predicate HoldsChunk(blocks: map<nat, nat>, h: nat, c: nat, m: nat) {
    h in blocks && h <= c && c + Pow2(m) <= h + Pow2(blocks[h])
  }

  /** An aligned chunk that is covered at all is covered by a single block. */
  lemma {:induction false} OneBlockHolds(blocks: map<nat, nat>, c: nat, m: nat) returns (h: nat)
    requires Disjoint(blocks) && AllAligned(blocks) && NoBuddies(blocks)
    requires m <= MAX_ORDER && Aligned(c, m) && CoversChunk(blocks, c, m)
    ensures HoldsChunk(blocks, h, c, m)
    decreases m
  {
    if m == 0 {
      assert InSome(blocks, c);
      h :| InBlock(blocks, h, c);
    } else {
      var mid := c + Pow2(m - 1);
      HalvesAligned(c, m - 1);
      h := OneBlockHolds(blocks, c, m - 1);
      var g := OneBlockHolds(blocks, mid, m - 1);
      GrowHolder(blocks, h, c, m);
      if !HoldsChunk(blocks, h, c, m) {
        GrowHolder(blocks, g, c, m);
      }
      if !HoldsChunk(blocks, h, c, m) && !HoldsChunk(blocks, g, c, m) {
        assert false;
      }
      if !HoldsChunk(blocks, h, c, m) { h := g; }
    }
  }

  /** A block that holds one half of an aligned chunk holds all of it, or is just that half. */
  lemma GrowHolder(blocks: map<nat, nat>, h: nat, c: nat, m: nat)
    requires AllAligned(blocks) && m > 0 && Aligned(c, m)
    requires HoldsChunk(blocks, h, c, m - 1) || HoldsChunk(blocks, h, c + Pow2(m - 1), m - 1)
    ensures HoldsChunk(blocks, h, c, m)
            || (blocks[h] == m - 1 && h == if HoldsChunk(blocks, h, c, m - 1) then c else c + Pow2(m - 1))
  {
    var k := blocks[h];
    var d := if HoldsChunk(blocks, h, c, m - 1) then c else c + Pow2(m - 1);
    HalvesAligned(c, m - 1);
    if k >= m {
      AlignedNested(c, m, h, k, d);
    } else {
      if k < m - 1 { Pow2Strict(k, m - 1); }
      AlignedNested(h, k, d, m - 1, d);
    }
  }

  /** Two aligned, fully merged decompositions of the same pages are the same. */
  lemma UniqueDecomposition(f: map<nat, nat>, g: map<nat, nat>)
    requires OrdersOk(f) && Disjoint(f) && AllAligned(f) && NoBuddies(f)
    requires OrdersOk(g) && Disjoint(g) && AllAligned(g) && NoBuddies(g)
    requires CoverSamePages(f, g)
    ensures f == g
  {
    forall h | h in f ensures h in g && g[h] == f[h] { SameBlock(f, g, h); }
    forall h | h in g ensures h in f && f[h] == g[h] { SameBlock(g, f, h); }
  }

  lemma ChunkOfBlock(f: map<nat, nat>, g: map<nat, nat>, h: nat)
    requires h in f
    requires CoverSamePages(f, g)
    ensures CoversChunk(g, h, f[h])
  {
    forall i: nat | h <= i < h + Pow2(f[h]) ensures InSome(g, i) {
      assert InBlock(f, h, i);
    }
  }

  lemma SameBlock(f: map<nat, nat>, g: map<nat, nat>, h: nat)
    requires h in f && OrdersOk(f) && Disjoint(f) && AllAligned(f) && NoBuddies(f)
    requires OrdersOk(g) && Disjoint(g) && AllAligned(g) && NoBuddies(g)
    requires CoverSamePages(f, g)
    ensures h in g && g[h] == f[h]
  {
    hide NoBuddies, InBlock;
    ChunkOfBlock(f, g, h);
    var y := OneBlockHolds(g, h, f[h]);
    ChunkOfBlock(g, f, y);
    var x := OneBlockHolds(f, y, g[y]);
    HeldBySelf(f, g, h, y, x);
  }

  lemma HeldBySelf(f: map<nat, nat>, g: map<nat, nat>, h: nat, y: nat, x: nat)
    requires h in f && Disjoint(f) && HoldsChunk(g, y, h, f[h]) && HoldsChunk(f, x, y, g[y])
    ensures y == h && g[y] == f[h]
  {
    assert x == h;
    Pow2Injective(f[h], g[y]);
  }

  lemma {:induction false} EmptyTotal(n: nat, m: nat)
    requires m <= n
    ensures Total(seq(n, _ => []), m) == 0
  {
    if m > 0 { EmptyTotal(n, m - 1); }
  }

  lemma SplitDownStep(lists: seq<seq<nat>>, h: nat, c: nat, r: nat)
    requires c <= |lists|
    ensures SplitDown(lists, h, c, r)
            == if c <= r then lists else SplitDown(Push(lists, c - 1, h + Pow2(c - 1)), h, c - 1, r)
  {
  }

  lemma FirstOrderStep(lists: seq<seq<nat>>, k: nat)
    ensures FirstOrder(lists, k)
            == if k >= |lists| then |lists| else if lists[k] != [] then k else FirstOrder(lists, k + 1)
  {
  }

  // ----- more than one region -----

  /** c is the start of the largest aligned block, or chunk, around page i. */
  ghost predicate ChunkOf(c: nat, i: nat) {
    Aligned(c, MAX_ORDER) && c <= i < c + Pow2(MAX_ORDER)
  }

  /** Whenever a page is managed, so is the first page of its chunk. */
  ghost predicate ChunksStarted(managed: set<nat>) {
    forall c, i | i in managed && ChunkOf(c, i) :: c in managed
  }

  lemma ChunkExists(i: nat) returns (c: nat)
    ensures ChunkOf(c, i)
  {
    hide Pow2;
    var p := Pow2(MAX_ORDER);
    c := i / p * p;
    DivModUnique(c, p, i / p, 0);
    AlignedIsMod(c, MAX_ORDER);
    assert i == c + i % p;
  }

  /** A region that starts a chunk holds the start of each of its pages' chunks. */
  lemma RegionStarts(base: nat, n: nat, c: nat, i: nat)
    requires Aligned(base, MAX_ORDER) && base <= i < base + n && ChunkOf(c, i)
    ensures base <= c
  {
    hide Aligned, Pow2;
    if c < base { AlignedGap(c, base, MAX_ORDER); }
  }

  lemma RegionStarted(managed: set<nat>, managed': set<nat>, base: nat, n: nat)
    requires ChunksStarted(managed) && Aligned(base, MAX_ORDER)
    requires forall i :: i in managed' <==> i in managed || base <= i < base + n
    ensures ChunksStarted(managed')
  {
    hide ChunkOf, Aligned, Pow2;
    forall c, i | i in managed' && ChunkOf(c, i) ensures c in managed' {
      if i !in managed {
        RegionStarts(base, n, c, i);
        ChunkBelow(c, i);
      }
    }
  }

  lemma ChunkBelow(c: nat, i: nat)
    requires ChunkOf(c, i)
    ensures c <= i
  {
  }

  /** Two pages of one chunk cannot lie in the region and outside it. */
  lemma OneRegion(managed: set<nat>, base: nat, n: nat, c: nat, i: nat, j: nat)
    requires ChunksStarted(managed) && Aligned(base, MAX_ORDER) && forall x: nat | base <= x < base + n :: x !in managed
    requires ChunkOf(c, i) && ChunkOf(c, j) && i in managed
    ensures !(base <= j < base + n)
  {
    hide Aligned, Pow2;
    if base <= j < base + n { RegionStarts(base, n, c, j); }
  }

  lemma {:induction false} GreedyListed(lists: seq<seq<nat>>, start: nat, n: nat, k: nat, h: nat)
    requires |lists| == MAX_ORDER + 1 && k <= MAX_ORDER
    ensures |GreedyLists(lists, start, n)| == MAX_ORDER + 1
    ensures h in GreedyLists(lists, start, n)[k] ==>
              h in lists[k] || (h in Greedy(start, n) && Greedy(start, n)[h] == k)
    decreases n
  {
    hide GreedyLists, Greedy, LargestOrder, Pow2;
    GreedyListsStep(lists, start, n);
    if n > 0 {
      var o := LargestOrder(n, MAX_ORDER);
      GreedyIs(start, n);
      GreedyListed(Push(lists, o, start), start + Pow2(o), n - Pow2(o), k, h);
      GreedyLater(start + Pow2(o), n - Pow2(o), start);
    }
  }

  /** A further region that starts a chunk leaves no two buddies both free. */
  lemma RegionMerged(lists: seq<seq<nat>>, managed: set<nat>, base: nat, n: nat)
    requires |lists| == MAX_ORDER + 1 && FullyMerged(lists) && ChunksStarted(managed) && Aligned(base, MAX_ORDER)
    requires forall k, h | 0 <= k < |lists| && h in lists[k] :: h in managed
    requires forall x: nat | base <= x < base + n :: x !in managed
    ensures FullyMerged(GreedyLists(lists, base, n))
  {
    hide GreedyLists, Greedy, Aligned, ChunksStarted, ChunkOf, Pow2;
    var all := GreedyLists(lists, base, n);
    GreedyListed(lists, base, n, 0, 0);
    forall k, a | 0 <= k < |all| && k < MAX_ORDER && a in all[k] && Aligned(a, k + 1) ensures a + Pow2(k) !in all[k] {
      if a + Pow2(k) in all[k] { BuddyRegions(lists, managed, base, n, k, a); }
    }
  }

  lemma BuddyRegions(lists: seq<seq<nat>>, managed: set<nat>, base: nat, n: nat, k: nat, a: nat)
    requires |lists| == MAX_ORDER + 1 && FullyMerged(lists) && ChunksStarted(managed) && Aligned(base, MAX_ORDER)
    requires forall k, h | 0 <= k < |lists| && h in lists[k] :: h in managed
    requires forall x: nat | base <= x < base + n :: x !in managed
    requires k < MAX_ORDER && Aligned(a, k + 1) && |GreedyLists(lists, base, n)| == MAX_ORDER + 1
    requires a in GreedyLists(lists, base, n)[k]
    ensures a + Pow2(k) !in GreedyLists(lists, base, n)[k]
  {
    hide GreedyLists, Greedy, Aligned, ChunksStarted, ChunkOf, Pow2;
    var b := a + Pow2(k);
    GreedyListed(lists, base, n, k, a);
    GreedyListed(lists, base, n, k, b);
    GreedyRange(base, n);
    GreedyOrders(base, n);
    var c := BuddyChunk(a, k);
    if a in managed { OneRegion(managed, base, n, c, a, b); }
    if b in managed { OneRegion(managed, base, n, c, b, a); }
  }

  /** The halves of an aligned block lie in one chunk. */
  lemma BuddyChunk(a: nat, k: nat) returns (c: nat)
    requires k < MAX_ORDER && Aligned(a, k + 1)
    ensures ChunkOf(c, a) && ChunkOf(c, a + Pow2(k))
  {
    hide Aligned, Pow2;
    c := ChunkExists(a);
    Pow2Double(k);
    AlignedNested(a, k + 1, c, MAX_ORDER, a);
  }

  /** Blocks cut from a region that starts at a multiple of the largest block size are aligned. */
  lemma RegionAligned(blocks: map<nat, nat>, start: nat, n: nat)
    ensures AllAligned(blocks) && Aligned(start, MAX_ORDER) ==> AllAligned(blocks + Greedy(start, n))
  {
    if Aligned(start, MAX_ORDER) {
      if n > 0 { AlignedDown(start, LargestOrder(n, MAX_ORDER), MAX_ORDER); }
      GreedyAligned(start, n);
    }
  }
}
