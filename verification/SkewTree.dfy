/** The skew heap as a tree value: merging, removal, heap order and the cost of whole runs. */
module SkewTree {

  datatype Tree<T> = Leaf | Node(elem: T, left: Tree<T>, right: Tree<T>)

  function Elems<T>(t: Tree<T>): set<T> {
    if t.Leaf? then {} else {t.elem} + Elems(t.left) + Elems(t.right)
  }

  function Size<T>(t: Tree<T>): nat {
    if t.Leaf? then 0 else 1 + Size(t.left) + Size(t.right)
  }

  /** No element occurs twice. */
  predicate Distinct<T(==)>(t: Tree<T>) {
    t.Leaf? || (
      && t.elem !in Elems(t.left) && t.elem !in Elems(t.right) && Elems(t.left) !! Elems(t.right)
      && Distinct(t.left) && Distinct(t.right))
  }

  /** `comp` answers -1 exactly for "strictly less", and "not less" is a total preorder on s. */
  ghost predicate IsOrder<T>(comp: (T, T) -> int, s: set<T>) {
    && (forall x, y | x in s && y in s :: comp(x, y) == -1 ==> comp(y, x) != -1)
    && (forall x, y, z | x in s && y in s && z in s ::
          comp(x, y) != -1 && comp(y, z) != -1 ==> comp(x, z) != -1)
  }

  /** Nothing below a node is less than it. */
  ghost predicate Heap<T>(t: Tree<T>, comp: (T, T) -> int) {
    t.Leaf? || (
      && (forall x | x in Elems(t.left) + Elems(t.right) :: comp(x, t.elem) != -1)
      && Heap(t.left, comp) && Heap(t.right, comp))
  }

  function Merge<T>(a: Tree<T>, b: Tree<T>, comp: (T, T) -> int): Tree<T>
    decreases Size(a) + Size(b)
  {
    if a.Leaf? then b
    else if b.Leaf? then a
    else if comp(a.elem, b.elem) == -1 then Node(a.elem, Merge(a.right, b, comp), a.left)
    else Node(b.elem, Merge(a, b.right, comp), b.left)
  }

  lemma {:induction false} MergeElems<T>(a: Tree<T>, b: Tree<T>, comp: (T, T) -> int)
    ensures Elems(Merge(a, b, comp)) == Elems(a) + Elems(b)
    ensures Size(Merge(a, b, comp)) == Size(a) + Size(b)
    decreases Size(a) + Size(b)
  {
    if a.Node? && b.Node? {
      if comp(a.elem, b.elem) == -1 { MergeElems(a.right, b, comp); } else { MergeElems(a, b.right, comp); }
    }
  }

  lemma {:induction false} MergeDistinct<T>(a: Tree<T>, b: Tree<T>, comp: (T, T) -> int)
    requires Distinct(a) && Distinct(b) && Elems(a) !! Elems(b)
    ensures Distinct(Merge(a, b, comp))
    decreases Size(a) + Size(b)
  {
    if a.Node? && b.Node? {
      if comp(a.elem, b.elem) == -1 {
        MergeDistinct(a.right, b, comp);
        MergeElems(a.right, b, comp);
      } else {
        MergeDistinct(a, b.right, comp);
        MergeElems(a, b.right, comp);
      }
    }
  }

  /** Nothing in a heap is less than what its root is not less than. */
  lemma AboveRoot<T>(t: Tree<T>, e: T, comp: (T, T) -> int)
    requires t.Node? && Heap(t, comp) && IsOrder(comp, Elems(t) + {e}) && comp(t.elem, e) != -1
    ensures forall x | x in Elems(t) :: comp(x, e) != -1
  {
    forall x | x in Elems(t) ensures comp(x, e) != -1 {
      if x != t.elem { assert comp(x, t.elem) != -1; }
    }
  }

  /** Merging two heaps gives a heap. */
  lemma {:induction false} MergeHeap<T>(a: Tree<T>, b: Tree<T>, comp: (T, T) -> int)
    requires Heap(a, comp) && Heap(b, comp) && IsOrder(comp, Elems(a) + Elems(b))
    ensures Heap(Merge(a, b, comp), comp)
    decreases Size(a) + Size(b)
  {
    if a.Node? && b.Node? {
      if comp(a.elem, b.elem) == -1 {
        MergeHeap(a.right, b, comp);
        MergeElems(a.right, b, comp);
        AboveRoot(b, a.elem, comp);
      } else {
        MergeHeap(a, b.right, comp);
        MergeElems(a, b.right, comp);
        AboveRoot(a, b.elem, comp);
      }
    }
  }

  // ----- removal -----

  /** The subtree under x. */
  function Sub<T(==)>(t: Tree<T>, x: T): (s: Tree<T>)
    requires x in Elems(t)
    ensures s.Node? && s.elem == x && Elems(s) <= Elems(t)
  {
    if t.elem == x then t else if x in Elems(t.left) then Sub(t.left, x) else Sub(t.right, x)
  }

  /** Replace the subtree under x by the merge of its children. */
  function Remove<T(==)>(t: Tree<T>, x: T, comp: (T, T) -> int): Tree<T>
    requires x in Elems(t)
  {
    if t.elem == x then Merge(t.left, t.right, comp)
    else if x in Elems(t.left) then t.(left := Remove(t.left, x, comp))
    else t.(right := Remove(t.right, x, comp))
  }

  /** Removal takes out exactly the one element. */
  lemma {:induction false} RemoveElems<T>(t: Tree<T>, x: T, comp: (T, T) -> int)
    requires Distinct(t) && x in Elems(t)
    ensures Elems(Remove(t, x, comp)) == Elems(t) - {x} && Size(Remove(t, x, comp)) == Size(t) - 1
    ensures Distinct(Remove(t, x, comp))
  {
    if t.elem == x {
      MergeElems(t.left, t.right, comp);
      MergeDistinct(t.left, t.right, comp);
    } else if x in Elems(t.left) {
      RemoveElems(t.left, x, comp);
    } else {
      RemoveElems(t.right, x, comp);
    }
  }

  lemma {:induction false} RemoveHeap<T>(t: Tree<T>, x: T, comp: (T, T) -> int)
    requires Distinct(t) && x in Elems(t) && Heap(t, comp) && IsOrder(comp, Elems(t))
    ensures Heap(Remove(t, x, comp), comp)
  {
    if t.elem == x {
      MergeHeap(t.left, t.right, comp);
    } else if x in Elems(t.left) {
      RemoveHeap(t.left, x, comp);
      RemoveElems(t.left, x, comp);
    } else {
      RemoveHeap(t.right, x, comp);
      RemoveElems(t.right, x, comp);
    }
  }

  // ----- the cost of runs -----

  /** The calls of merge that merging a and b makes, the outermost included. */
  function MergeCalls<T>(a: Tree<T>, b: Tree<T>, comp: (T, T) -> int): nat
    decreases Size(a) + Size(b)
  {
    if a.Leaf? || b.Leaf? then 1
    else if comp(a.elem, b.elem) == -1 then 1 + MergeCalls(a.right, b, comp)
    else 1 + MergeCalls(a, b.right, comp)
  }

  /** The right child outweighs the left. */
  predicate RightHeavy<T>(t: Tree<T>) {
    t.Node? && Size(t.right) > Size(t.left)
  }

  /** The potential: how many nodes are right-heavy. */
  function Heavy<T>(t: Tree<T>): nat {
    if t.Leaf? then 0 else (if RightHeavy(t) then 1 else 0) + Heavy(t.left) + Heavy(t.right)
  }

  /** The logarithm to base two, rounded down. */
  function Lg(n: nat): nat
    requires n >= 1
  {
    if n == 1 then 0 else 1 + Lg(n / 2)
  }

  lemma {:induction false} LgMonotone(m: nat, n: nat)
    requires 1 <= m <= n
    ensures Lg(m) <= Lg(n)
  {
    if m > 1 { LgMonotone(m / 2, n / 2); }
  }

  lemma LgHalf(m: nat, n: nat)
    requires 1 <= m && 2 * m <= n
    ensures Lg(m) + 1 <= Lg(n)
  {
    LgMonotone(m, n / 2);
  }

  lemma SizeOf<T>(t: Tree<T>)
    requires t.Node?
    ensures Size(t) == 1 + Size(t.left) + Size(t.right)
  {
  }

  lemma LgRight<T>(t: Tree<T>)
    requires t.Node?
    ensures Lg(Size(t.right) + 1) + (if RightHeavy(t) then 0 else 1) <= Lg(Size(t) + 1)
  {
    hide Lg, Size;
    var l, r := Size(t.left), Size(t.right);
    SizeOf(t);
    LgMonotone(r + 1, l + r + 2);
    if !RightHeavy(t) { LgHalf(r + 1, l + r + 2); }
  }

  /** One call of merge: m, no smaller than the right child, becomes the left child, and the old left child the
      right one. A node that was right-heavy pays for the call; otherwise its right child was small. */
  lemma TurnPays<T>(t: Tree<T>, m: Tree<T>)
    requires t.Node? && Size(m) >= Size(t.right)
    ensures 1 + Heavy(Node(t.elem, m, t.left)) + Heavy(t.right) + 2 * Lg(Size(t.right) + 1)
            <= Heavy(m) + Heavy(t) + 2 * Lg(Size(t) + 1)
  {
    hide Lg, Size;
    LgRight(t);
    var turned := Node(t.elem, m, t.left);
    assert Heavy(turned) == (if RightHeavy(turned) then 1 else 0) + Heavy(m) + Heavy(t.left);
    assert RightHeavy(t) ==> !RightHeavy(turned);
  }

  /** The amortised cost of a merge: the calls it makes are paid for by right-heavy nodes it
      turns light and by the logarithms of the two sizes. */
  lemma {:induction false} MergeAmortised<T>(a: Tree<T>, b: Tree<T>, comp: (T, T) -> int)
    ensures MergeCalls(a, b, comp) + Heavy(Merge(a, b, comp))
            <= Heavy(a) + Heavy(b) + 1 + 2 * (Lg(Size(a) + 1) + Lg(Size(b) + 1))
    decreases Size(a) + Size(b)
  {
    hide Lg, Heavy, Size, Elems, Merge, MergeCalls;
    MergeOnce(a, b, comp);
    if a.Leaf? || b.Leaf? {
      LeafLight(a);
      LeafLight(b);
    } else {
      SizeOf(a);
      SizeOf(b);
      if comp(a.elem, b.elem) == -1 {
        MergeAmortised(a.right, b, comp);
        MergeElems(a.right, b, comp);
        TurnPays(a, Merge(a.right, b, comp));
      } else {
        MergeAmortised(a, b.right, comp);
        MergeElems(a, b.right, comp);
        TurnPays(b, Merge(a, b.right, comp));
      }
    }
  }

  lemma LeafLight<T>(t: Tree<T>)
    ensures t.Leaf? ==> Heavy(t) == 0
  {
  }

  /** One call of merge. */
  lemma MergeOnce<T>(a: Tree<T>, b: Tree<T>, comp: (T, T) -> int)
    ensures a.Leaf? || b.Leaf? ==> MergeCalls(a, b, comp) == 1 && Merge(a, b, comp) == if a.Leaf? then b else a
    ensures a.Node? && b.Node? ==>
              if comp(a.elem, b.elem) == -1
              then MergeCalls(a, b, comp) == 1 + MergeCalls(a.right, b, comp)
                   && Merge(a, b, comp) == Node(a.elem, Merge(a.right, b, comp), a.left)
              else MergeCalls(a, b, comp) == 1 + MergeCalls(a, b.right, comp)
                   && Merge(a, b, comp) == Node(b.elem, Merge(a, b.right, comp), b.left)
  {
  }

  function RemoveCalls<T(==)>(t: Tree<T>, x: T, comp: (T, T) -> int): nat
    requires x in Elems(t)
  {
    MergeCalls(Sub(t, x).left, Sub(t, x).right, comp)
  }

  /** The ancestors of x that are not right-heavy before x is removed and are afterwards. */
  function TurnedHeavy<T(==)>(t: Tree<T>, x: T, comp: (T, T) -> int): nat
    requires x in Elems(t)
  {
    if t.elem == x then 0
    else
      (if !RightHeavy(t) && RightHeavy(Remove(t, x, comp)) then 1 else 0)
      + (if x in Elems(t.left) then TurnedHeavy(t.left, x, comp) else TurnedHeavy(t.right, x, comp))
  }

  /** Which side a removal below the root goes to, and what it does to the sizes there. */
  lemma RemoveSide<T>(t: Tree<T>, x: T, comp: (T, T) -> int)
    requires Distinct(t) && x in Elems(t) && t.elem != x
    ensures x !in Elems(t.left) ==> x in Elems(t.right)
    ensures var c := if x in Elems(t.left) then t.left else t.right;
            && c.Node? && x in Elems(c) && Distinct(c) && Size(Remove(c, x, comp)) == Size(c) - 1
            && Remove(t, x, comp) == (if x in Elems(t.left) then t.(left := Remove(c, x, comp))
                                      else t.(right := Remove(c, x, comp)))
            && TurnedHeavy(t, x, comp)
               == TurnedHeavy(c, x, comp) + (if !RightHeavy(t) && RightHeavy(Remove(t, x, comp)) then 1 else 0)
            && RemoveCalls(t, x, comp) == RemoveCalls(c, x, comp)
  {
    RemoveElems(if x in Elems(t.left) then t.left else t.right, x, comp);
  }

  /** Removing an interior node turns at most log2 of the size ancestors heavy. */
  lemma {:induction false} FewTurnHeavy<T>(t: Tree<T>, x: T, comp: (T, T) -> int)
    requires t.Node? && Distinct(t) && x in Elems(t)
    ensures TurnedHeavy(t, x, comp) <= Lg(Size(t) + 1)
  {
    hide Lg, Merge, Distinct, Elems, Remove;
    if t.elem != x {
      RemoveSide(t, x, comp);
      var c := if x in Elems(t.left) then t.left else t.right;
      FewTurnHeavy(c, x, comp);
      LgMonotone(Size(c) + 1, Size(t) + 1);
      if Size(t.left) == Size(t.right) { LgHalf(Size(c) + 1, Size(t) + 1); }
    }
  }

  /** The amortised cost of removing any node. */
  lemma {:induction false} RemovePotential<T>(t: Tree<T>, x: T, comp: (T, T) -> int)
    requires t.Node? && Distinct(t) && x in Elems(t)
    ensures RemoveCalls(t, x, comp) + Heavy(Remove(t, x, comp))
            <= Heavy(t) + TurnedHeavy(t, x, comp) + 1 + 4 * Lg(Size(t) + 1)
  {
    hide Lg, Merge, MergeCalls, Distinct, Elems, RightHeavy;
    RemoveRootPotential(t, comp);
    if t.elem != x {
      RemoveSide(t, x, comp);
      var c := if x in Elems(t.left) then t.left else t.right;
      RemovePotential(c, x, comp);
      LgMonotone(Size(c) + 1, Size(t) + 1);
    }
  }

  lemma RemoveRootPotential<T>(t: Tree<T>, comp: (T, T) -> int)
    requires t.Node?
    ensures MergeCalls(t.left, t.right, comp) + Heavy(Merge(t.left, t.right, comp))
            <= Heavy(t) + 1 + 4 * Lg(Size(t) + 1)
  {
    hide Lg, Merge, MergeCalls, RightHeavy;
    MergeAmortised(t.left, t.right, comp);
    LgMonotone(Size(t.left) + 1, Size(t) + 1);
    LgMonotone(Size(t.right) + 1, Size(t) + 1);
  }

  /** An operation on the heap; removing the root is one case of Drop. */
  datatype Op<T> = Add(x: T) | Drop(x: T)

  predicate Legal<T(==)>(t: Tree<T>, op: Op<T>) {
    match op
    case Add(x) => x !in Elems(t)
    case Drop(x) => x in Elems(t)
  }

  function Apply<T(==)>(t: Tree<T>, op: Op<T>, comp: (T, T) -> int): Tree<T>
    requires Legal(t, op)
  {
    match op
    case Add(x) => Merge(t, Node(x, Leaf, Leaf), comp)
    case Drop(x) => Remove(t, x, comp)
  }

  function Calls<T(==)>(t: Tree<T>, op: Op<T>, comp: (T, T) -> int): nat
    requires Legal(t, op)
  {
    match op
    case Add(x) => MergeCalls(t, Node(x, Leaf, Leaf), comp)
    case Drop(x) => RemoveCalls(t, x, comp)
  }

  predicate LegalRun<T(==)>(t: Tree<T>, ops: seq<Op<T>>, comp: (T, T) -> int)
    decreases |ops|
  {
    ops == [] || (Legal(t, ops[0]) && LegalRun(Apply(t, ops[0], comp), ops[1..], comp))
  }

  function RunTree<T(==)>(t: Tree<T>, ops: seq<Op<T>>, comp: (T, T) -> int): Tree<T>
    requires LegalRun(t, ops, comp)
    decreases |ops|
  {
    if ops == [] then t else RunTree(Apply(t, ops[0], comp), ops[1..], comp)
  }

  /** All the calls of merge over a run. */
  function RunCalls<T(==)>(t: Tree<T>, ops: seq<Op<T>>, comp: (T, T) -> int): nat
    requires LegalRun(t, ops, comp)
    decreases |ops|
  {
    if ops == [] then 0 else Calls(t, ops[0], comp) + RunCalls(Apply(t, ops[0], comp), ops[1..], comp)
  }

  /** The sum of 3 + 5 log2(n + 1) over the heap sizes n the operations of a run start from. */
  function RunBudget<T(==)>(t: Tree<T>, ops: seq<Op<T>>, comp: (T, T) -> int): nat
    requires LegalRun(t, ops, comp)
    decreases |ops|
  {
    if ops == [] then 0
    else 3 + 5 * Lg(Size(t) + 1) + RunBudget(Apply(t, ops[0], comp), ops[1..], comp)
  }

  lemma ApplyKeeps<T>(t: Tree<T>, op: Op<T>, comp: (T, T) -> int)
    requires Distinct(t) && Legal(t, op)
    ensures Distinct(Apply(t, op, comp))
    ensures Elems(Apply(t, op, comp)) == if op.Add? then Elems(t) + {op.x} else Elems(t) - {op.x}
  {
    match op
    case Add(x) =>
      MergeDistinct(t, Node(x, Leaf, Leaf), comp);
      MergeElems(t, Node(x, Leaf, Leaf), comp);
    case Drop(x) => RemoveElems(t, x, comp);
  }

  lemma StepAmortised<T>(t: Tree<T>, op: Op<T>, comp: (T, T) -> int)
    requires Distinct(t) && Legal(t, op)
    ensures Calls(t, op, comp) + Heavy(Apply(t, op, comp)) <= Heavy(t) + 3 + 5 * Lg(Size(t) + 1)
  {
    hide Lg, Merge, MergeCalls, Remove, RemoveCalls, TurnedHeavy, Heavy;
    match op
    case Add(x) =>
      AddAmortised(t, x, comp);
    case Drop(x) =>
      RemovePotential(t, x, comp);
      FewTurnHeavy(t, x, comp);
  }

  lemma AddAmortised<T>(t: Tree<T>, x: T, comp: (T, T) -> int)
    ensures MergeCalls(t, Node(x, Leaf, Leaf), comp) + Heavy(Merge(t, Node(x, Leaf, Leaf), comp))
            <= Heavy(t) + 3 + 2 * Lg(Size(t) + 1)
  {
    hide Merge, MergeCalls, Lg;
    var one := Node(x, Leaf, Leaf);
    MergeAmortised(t, one, comp);
    OneNode(x);
  }

  lemma OneNode<T>(x: T)
    ensures var one := Node(x, Leaf, Leaf); Size(one) == 1 && Heavy(one) == 0 && Lg(Size(one) + 1) == 1
  {
    var one := Node(x, Leaf, Leaf);
    assert Size(one.left) == 0 && Size(one.right) == 0 && Heavy(one.left) == 0 && Heavy(one.right) == 0;
    assert Lg(2) == 1 + Lg(1);
  }

  /** Over any run of insertions and removals of arbitrary nodes, the calls of merge and the right-heavy
      nodes left at the end are bounded by those at the start plus the sum of the logarithms. */
  lemma {:induction false} RunAmortised<T>(t: Tree<T>, ops: seq<Op<T>>, comp: (T, T) -> int)
    requires Distinct(t) && LegalRun(t, ops, comp)
    ensures RunCalls(t, ops, comp) + Heavy(RunTree(t, ops, comp)) <= Heavy(t) + RunBudget(t, ops, comp)
    decreases |ops|
  {
    hide Lg, Size, Heavy, Calls, Apply, Distinct, Legal;
    if ops != [] {
      StepAmortised(t, ops[0], comp);
      ApplyKeeps(t, ops[0], comp);
      RunAmortised(Apply(t, ops[0], comp), ops[1..], comp);
    }
  }

  /** A run that starts from the empty heap pays for itself. */
  lemma RunFromEmpty<T>(ops: seq<Op<T>>, comp: (T, T) -> int)
    requires LegalRun(Leaf, ops, comp)
    ensures RunCalls(Leaf, ops, comp) <= RunBudget(Leaf, ops, comp)
  {
    RunAmortised<T>(Leaf, ops, comp);
  }

  /** A run keeps the tree a heap, so its root is never more than any element. */
  lemma {:induction false} RunHeap<T>(t: Tree<T>, ops: seq<Op<T>>, comp: (T, T) -> int, all: set<T>)
    requires Distinct(t) && Heap(t, comp) && LegalRun(t, ops, comp)
    requires IsOrder(comp, all) && Elems(t) <= all && forall op | op in ops :: op.x in all
    ensures var r := RunTree(t, ops, comp);
            && Distinct(r) && Heap(r, comp) && Elems(r) <= all
            && forall x | x in Elems(r) :: x != r.elem ==> comp(x, r.elem) != -1
    decreases |ops|
  {
    if ops != [] {
      var t' := Apply(t, ops[0], comp);
      assert ops[0] in ops;
      ApplyKeeps(t, ops[0], comp);
      if ops[0].Add? {
        MergeHeap(t, Node(ops[0].x, Leaf, Leaf), comp);
      } else {
        RemoveHeap(t, ops[0].x, comp);
      }
      RunHeap(t', ops[1..], comp, all);
    }
  }
}
