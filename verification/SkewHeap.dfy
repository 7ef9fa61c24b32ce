/** The skew heap on linked nodes: merge, insert and remove rewrite left, right and parent in place. */
module SkewHeap {
  import opened SkewTree

  class Entry<K> {
    const key: K
    var parent: Entry?<K>
    var left: Entry?<K>
    var right: Entry?<K>

    constructor (key: K)
      ensures this.key == key
    {
      this.key := key;
      parent, left, right := null, null, null;
    }
  }

  function Root<K>(t: Tree<Entry<K>>): Entry?<K> {
    if t.Leaf? then null else t.elem
  }

  /** The links of the nodes of t are those of t, and every child points back to its parent. */
  ghost predicate Linked<K>(t: Tree<Entry<K>>)
    reads Elems(t)
  {
    t.Leaf? || (
      && t.elem.left == Root(t.left) && t.elem.right == Root(t.right)
      && (t.left.Node? ==> t.left.elem in Elems(t.left) && t.left.elem.parent == t.elem)
      && (t.right.Node? ==> t.right.elem in Elems(t.right) && t.right.elem.parent == t.elem)
      && Linked(t.left) && Linked(t.right))
  }

  lemma ElemsAllocated<K>(t: Tree<Entry<K>>)
    ensures forall n | n in Elems(t) :: allocated(n)
  {
    if t.Node? {
      ElemsAllocated(t.left);
      ElemsAllocated(t.right);
    }
  }

  twostate predicate Same<K>(t: Tree<Entry<K>>)
    reads Elems(t)
  {
    forall n | n in Elems(t) ::
      old(allocated(n)) && n.left == old(n.left) && n.right == old(n.right) && n.parent == old(n.parent)
  }

  /** Untouched nodes stay linked. */
  twostate lemma LinkedSame<K>(t: Tree<Entry<K>>)
    requires old(Linked(t)) && Same(t)
    ensures Linked(t)
  {
    if t.Node? {
      LinkedSame(t.left);
      LinkedSame(t.right);
    }
  }

  /** Giving the root a new parent leaves the tree linked. */
  twostate lemma Regrown<K>(t: Tree<Entry<K>>)
    requires Distinct(t) && old(Linked(t)) && (t.Node? ==> Same(t.left) && Same(t.right))
    requires t.Node? ==> t.elem.left == old(t.elem.left) && t.elem.right == old(t.elem.right)
    ensures Linked(t)
  {
    if t.Node? {
      LinkedSame(t.left);
      LinkedSame(t.right);
    }
  }

  /** A whole heap: distinct nodes, consistent links, no parent above the root. */
  ghost predicate Whole<K>(t: Tree<Entry<K>>)
    reads Elems(t)
  {
    Distinct(t) && Linked(t) && (t.Node? ==> t.elem.parent == null)
  }

  /** The end of either branch of skew_heap_merge: l becomes the left child of a, and what was the left child the
      right. */
  method Relink<K>(a: Entry<K>, l: Entry?<K>, r: Entry?<K>, ghost tl: Tree<Entry<K>>, ghost tr: Tree<Entry<K>>)
    requires l == Root(tl) && r == Root(tr) && Distinct(Node(a, tl, tr)) && Linked(tl) && Linked(tr)
    requires r != null ==> r.parent == a
    modifies a`left, a`right, Elems(tl)`parent
    ensures Linked(Node(a, tl, tr))
  {
    ElemsAllocated(tl);
    ElemsAllocated(tr);
    a.left := l;
    a.right := r;
    if l != null {
      l.parent := a;
    }
    Regrown(tl);
    LinkedSame(tr);
  }

  /** skew_heap_merge. The parent field of the returned root is left as it was. */
  method MergeEntries<K>(a: Entry?<K>, b: Entry?<K>, comp: (Entry<K>, Entry<K>) -> int,
                         ghost ta: Tree<Entry<K>>, ghost tb: Tree<Entry<K>>)
    returns (r: Entry?<K>, ghost calls: nat)
    requires a == Root(ta) && b == Root(tb) && Distinct(ta) && Distinct(tb) && Elems(ta) !! Elems(tb)
    requires Linked(ta) && Linked(tb)
    modifies Elems(ta), Elems(tb)
    ensures r == Root(Merge(ta, tb, comp)) && Elems(Merge(ta, tb, comp)) == Elems(ta) + Elems(tb)
    ensures Linked(Merge(ta, tb, comp)) && Distinct(Merge(ta, tb, comp))
    ensures calls == MergeCalls(ta, tb, comp)
    ensures r != null ==> r.parent == old(r.parent)
    decreases Size(ta) + Size(tb)
  {
    MergeElems(ta, tb, comp);
    MergeDistinct(ta, tb, comp);
    calls := 1;
    if a == null {
      return b, calls;
    } else if b == null {
      return a, calls;
    }
    var l: Entry?<K>;
    ghost var c;
    ElemsAllocated(ta);
    ElemsAllocated(tb);
    if comp(a, b) == -1 {
      var rest := a.left;
      MergeElems(ta.right, tb, comp);
      l, c := MergeEntries(a.right, b, comp, ta.right, tb);
      LinkedSame(ta.left);
      Relink(a, l, rest, Merge(ta.right, tb, comp), ta.left);
      r := a;
    } else {
      var rest := b.left;
      MergeElems(ta, tb.right, comp);
      l, c := MergeEntries(a, b.right, comp, ta, tb.right);
      LinkedSame(tb.left);
      Relink(b, l, rest, Merge(ta, tb.right, comp), tb.left);
      r := b;
    }
    calls := calls + c;
  }

  /** skew_heap_insert. */
  method Insert<K>(a: Entry?<K>, b: Entry<K>, comp: (Entry<K>, Entry<K>) -> int, ghost t: Tree<Entry<K>>)
    returns (r: Entry?<K>, ghost calls: nat)
    requires Whole(t) && a == Root(t) && Legal(t, Add(b))
    modifies Elems(t), b
    ensures var t' := Apply(t, Add(b), comp);
            Whole(t') && r == Root(t') && Elems(t') == Elems(t) + {b}
    ensures calls == Calls(t, Add(b), comp)
  {
    ElemsAllocated(t);
    ApplyKeeps(t, Add(b), comp);
    b.left, b.right, b.parent := null, null, null;
    LinkedSame(t);
    assert Elems(Node(b, Leaf, Leaf)) == {b};
    r, calls := MergeEntries(a, b, comp, t, Node(b, Leaf, Leaf));
  }

  /** The node above x. */
  function Above<K>(t: Tree<Entry<K>>, x: Entry<K>): (p: Entry<K>)
    requires Distinct(t) && x in Elems(t) && x != t.elem
    ensures p in Elems(t) && p !in Elems(Sub(t, x))
  {
    var c := if x in Elems(t.left) then t.left else t.right;
    if x == c.elem then t.elem else Above(c, x)
  }

  /** A node's parent field and its parent's child field name each other. */
  lemma {:induction false} AboveLinks<K>(t: Tree<Entry<K>>, x: Entry<K>)
    requires Distinct(t) && Linked(t) && x in Elems(t) && x != t.elem
    ensures x.parent == Above(t, x) && Above(t, x) in Elems(t)
  {
    var c := if x in Elems(t.left) then t.left else t.right;
    if x != c.elem { AboveLinks(c, x); }
  }

  lemma {:induction false} SubLinked<K>(t: Tree<Entry<K>>, x: Entry<K>)
    requires Distinct(t) && Linked(t) && x in Elems(t)
    ensures Linked(Sub(t, x)) && Distinct(Sub(t, x))
  {
    if x != t.elem { SubLinked(if x in Elems(t.left) then t.left else t.right, x); }
  }

  /** p had x for a child and now has the root of m in its place, on the same side. */
  twostate predicate Replaced<K>(new p: Entry<K>, new x: Entry<K>, new m: Tree<Entry<K>>)
    reads p, Elems(m)
  {
    && old(allocated(p))
    && p.parent == old(p.parent)
    && (if old(p.left) == x then p.left == Root(m) && p.right == old(p.right)
        else p.right == Root(m) && p.left == old(p.left))
    && (m.Node? ==> m.elem in Elems(m) && m.elem.parent == p)
  }

  /** Outside the subtree of x and the node above it, nothing has changed. */
  twostate predicate SameOutside<K>(t: Tree<Entry<K>>, new x: Entry<K>, new p: Entry<K>)
    requires x in Elems(t)
    reads Elems(t)
  {
    forall n | n in Elems(t) && n !in Elems(Sub(t, x)) && n != p ::
      old(allocated(n)) && n.left == old(n.left) && n.right == old(n.right) && n.parent == old(n.parent)
  }

  lemma RootSub<T>(t: Tree<T>, comp: (T, T) -> int)
    requires t.Node?
    ensures Sub(t, t.elem) == t && Remove(t, t.elem, comp) == Merge(t.left, t.right, comp)
  {
  }

  lemma RootOutside<T>(t: Tree<T>, x: T)
    requires Distinct(t) && x in Elems(t) && x != t.elem
    ensures t.elem !in Elems(Sub(t, x)) && t.elem in Elems(t)
  {
  }

  /** Hanging the merged children m of x in its place, on the side of the parent it was on, links the tree without x. */
  twostate lemma {:induction false} Rehung<K>(t: Tree<Entry<K>>, new x: Entry<K>, new comp: (Entry<K>, Entry<K>) -> int,
                                              new m: Tree<Entry<K>>)
    requires Distinct(t) && x in Elems(t) && x != t.elem && old(Linked(t))
    requires m == Merge(Sub(t, x).left, Sub(t, x).right, comp) && Linked(m)
    requires Replaced(Above(t, x), x, m) && SameOutside(t, x, Above(t, x))
    ensures Linked(Remove(t, x, comp)) && Remove(t, x, comp).Node? && Remove(t, x, comp).elem == t.elem
    decreases t
  {
    var inLeft := x in Elems(t.left);
    var c := if inLeft then t.left else t.right;
    var other := if inLeft then t.right else t.left;
    assert Sub(t, x) == Sub(c, x);
    LinkedSame(other);
    if x == c.elem {
      assert Above(t, x) == t.elem;
      assert Remove(c, x, comp) == m;
    } else {
      Rehung(c, x, comp, m);
    }
  }

  /** The first half of skew_heap_remove: merge the children of b and give the result b's parent. */
  method MergeChildren<K>(b: Entry<K>, p: Entry?<K>, comp: (Entry<K>, Entry<K>) -> int, ghost s: Tree<Entry<K>>)
    returns (rep: Entry?<K>, ghost calls: nat)
    requires s.Node? && s.elem == b && Distinct(s) && Linked(s)
    modifies Elems(s.left), Elems(s.right)
    ensures var m := Merge(s.left, s.right, comp);
            && rep == Root(m) && Linked(m) && Distinct(m) && Elems(m) == Elems(s) - {b}
            && (m.Node? ==> m.elem in Elems(m) && m.elem.parent == p)
    ensures calls == MergeCalls(s.left, s.right, comp)
  {
    hide Merge, MergeCalls;
    rep, calls := MergeEntries(b.left, b.right, comp, s.left, s.right);
    ghost var m := Merge(s.left, s.right, comp);
    ElemsAllocated(m);
    label merged:
    if rep != null {
      rep.parent := p;
    }
    Regrown@merged(m);
  }

  /** The second half: put rep where p had b. */
  method PutInPlace<K>(p: Entry<K>, b: Entry<K>, rep: Entry?<K>, ghost m: Tree<Entry<K>>)
    requires rep == Root(m) && Linked(m) && p !in Elems(m)
    requires m.Node? ==> m.elem in Elems(m) && m.elem.parent == p
    modifies p`left, p`right
    ensures Linked(m) && Replaced(p, b, m)
  {
    ElemsAllocated(m);
    if p.left == b {
      p.left := rep;
    } else {
      p.right := rep;
    }
    LinkedSame(m);
  }

  /** skew_heap_remove: b may be any node of the heap a. */
  method RemoveEntry<K>(a: Entry<K>, b: Entry<K>, comp: (Entry<K>, Entry<K>) -> int, ghost t: Tree<Entry<K>>)
    returns (r: Entry?<K>, ghost calls: nat)
    requires Whole(t) && a == Root(t) && Legal(t, Drop(b))
    modifies Elems(t)
    ensures var t' := Apply(t, Drop(b), comp);
            Whole(t') && r == Root(t') && Elems(t') == Elems(t) - {b}
    ensures calls == Calls(t, Drop(b), comp)
  {
    hide Sub, Above, Remove, Merge, MergeCalls, Linked;
    ElemsAllocated(t);
    ApplyKeeps(t, Drop(b), comp);
    SubLinked(t, b);
    RootSub(t, comp);
    ghost var s := Sub(t, b);
    ghost var m := Merge(s.left, s.right, comp);
    if b != a {
      AboveLinks(t, b);
      RootOutside(t, b);
    }
    var p := b.parent;
    var rep;
    rep, calls := MergeChildren(b, p, comp, s);
    if p != null {
      PutInPlace(p, b, rep, m);
      Rehung(t, b, comp, m);
      r := a;
    } else {
      r := rep;
    }
  }
}
