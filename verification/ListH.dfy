/** The circular doubly linked list under the page allocators. */
module ListH {
  import opened Sequences

  /** A list_entry. `id` is the index of the page descriptor it is embedded in, -1 for a list head. */
  class ListEntry {
    const id: int
    var prev: ListEntry
    var next: ListEntry

    /** list_init on a new entry. */
    constructor (id: int)
      ensures this.id == id && prev == this && next == this
    {
      this.id := id;
      prev := this;
      next := this;
    }
  }

  /** The entries of c form one ring in this order; c[0] is the list head. */
  ghost predicate Ring(c: seq<ListEntry>)
    reads c
  {
    && c != []
    && NoDup(c)
    && (forall i | 0 <= i < |c| :: c[i].next == After(c, i))
    && (forall i | 0 <= i < |c| :: c[i].prev == Before(c, i))
  }

  /** Following the next links from c[0] leads through c and back. */
  ghost predicate Forward(c: seq<ListEntry>)
    reads c
  {
    c != [] && NoDup(c) && forall i | 0 <= i < |c| :: c[i].next == After(c, i)
  }

  ghost function After(c: seq<ListEntry>, i: nat): ListEntry
    requires i < |c|
  {
    if i + 1 < |c| then c[i + 1] else c[0]
  }

  ghost function Before(c: seq<ListEntry>, i: nat): ListEntry
    requires i < |c|
  {
    if i > 0 then c[i - 1] else c[|c| - 1]
  }

  /** __list_add. The contract is exact even where the three entries coincide. */
  method AddBetween(elm: ListEntry, prev: ListEntry, next: ListEntry)
    modifies elm, prev`next, next`prev
    ensures elm.next == next && elm.prev == prev
    ensures prev != elm ==> prev.next == elm
    ensures next != elm ==> next.prev == elm
  {
    next.prev := elm;
    prev.next := elm;
    elm.next := next;
    elm.prev := prev;
  }

  /** list_add, list_add_after. */
  method ListAdd(listelm: ListEntry, elm: ListEntry)
    modifies elm, listelm`next, listelm.next`prev
    ensures elm.next == old(listelm.next) && elm.prev == listelm
    ensures listelm != elm ==> listelm.next == elm
    ensures old(listelm.next) != elm ==> old(listelm.next).prev == elm
  {
    AddBetween(elm, listelm, listelm.next);
  }

  /** list_add_before. */
  method ListAddBefore(listelm: ListEntry, elm: ListEntry)
    modifies elm, listelm`prev, listelm.prev`next
    ensures elm.prev == old(listelm.prev) && elm.next == listelm
    ensures listelm != elm ==> listelm.prev == elm
    ensures old(listelm.prev) != elm ==> old(listelm.prev).next == elm
  {
    AddBetween(elm, listelm.prev, listelm);
  }

  /** list_del: the neighbours are joined; the entry's own links stay as they were. */
  method ListDel(listelm: ListEntry)
    modifies listelm.prev`next, listelm.next`prev
    ensures old(listelm.prev).next == old(listelm.next)
    ensures old(listelm.next).prev == old(listelm.prev)
  {
    var p, n := listelm.prev, listelm.next;
    p.next := n;
    n.prev := p;
  }

  ghost function Inserted(c: seq<ListEntry>, k: nat, elm: ListEntry): seq<ListEntry>
    requires k < |c|
  {
    c[..k + 1] + [elm] + c[k + 1..]
  }

  ghost function Deleted(c: seq<ListEntry>, k: nat): seq<ListEntry>
    requires k < |c|
  {
    c[..k] + c[k + 1..]
  }

  /** Neighbours after an insertion. */
  lemma InsertedShape(c: seq<ListEntry>, k: nat, elm: ListEntry, i: nat)
    requires k < |c| && NoDup(c) && elm !in c && i < |c|
    ensures var d := Inserted(c, k, elm);
            && |d| == |c| + 1 && d[k + 1] == elm && After(d, k + 1) == After(c, k) && Before(d, k + 1) == c[k]
            && var j := if i <= k then i else i + 1;
            && d[j] == c[i]
            && After(d, j) == (if i == k then elm else After(c, i))
            && Before(d, j) == (if c[i] == After(c, k) then elm else Before(c, i))
  {
  }

  lemma InsertedUnique(c: seq<ListEntry>, k: nat, elm: ListEntry)
    requires k < |c| && NoDup(c) && elm !in c
    ensures NoDup(Inserted(c, k, elm))
  {
  }

  /** Inserting elm after the k-th entry. */
  twostate lemma RingAdd(c: seq<ListEntry>, new k: nat, new elm: ListEntry)
    requires old(Ring(c)) && k < |c| && elm !in c
    requires elm.prev == c[k] && elm.next == After(c, k)
    requires c[k].next == elm && After(c, k).prev == elm
    requires forall e | e in c ::
               && (e != c[k] ==> e.next == old(e.next))
               && (e != After(c, k) ==> e.prev == old(e.prev))
    ensures Ring(Inserted(c, k, elm))
  {
    hide After, Before, Inserted, NoDup;
    var d := Inserted(c, k, elm);
    InsertedUnique(c, k, elm);
    InsertedShape(c, k, elm, k);
    forall j | 0 <= j < |d| ensures d[j].next == After(d, j) && d[j].prev == Before(d, j) {
      if j != k + 1 {
        var i := if j <= k then j else j - 1;
        InsertedShape(c, k, elm, i);
        assert c[i] in c;
      }
    }
  }

  lemma UniqueAt(c: seq<ListEntry>, i: nat, k: nat)
    requires NoDup(c) && i < |c| && k < |c| && i != k
    ensures c[i] != c[k]
  {
  }

  lemma DeletedShape(c: seq<ListEntry>, k: nat, i: nat)
    requires k < |c| && NoDup(c) && i < |c| && i != k
    ensures var d := Deleted(c, k);
            && |d| == |c| - 1
            && var j := if i < k then i else i - 1;
            && d[j] == c[i]
            && After(d, j) == (if c[i] == Before(c, k) then After(c, k) else After(c, i))
            && Before(d, j) == (if c[i] == After(c, k) then Before(c, k) else Before(c, i))
  {
  }

  lemma DeletedUnique(c: seq<ListEntry>, k: nat)
    requires k < |c| && NoDup(c)
    ensures NoDup(Deleted(c, k)) && |Deleted(c, k)| == |c| - 1
  {
  }

  /** Deleting the entry at index k, which is not the head. */
  twostate lemma RingDel(c: seq<ListEntry>, new k: nat)
    requires old(Ring(c)) && 0 < k < |c|
    requires Before(c, k).next == After(c, k) && After(c, k).prev == Before(c, k)
    requires forall e | e in c && e != c[k] ::
               && (e != Before(c, k) ==> e.next == old(e.next))
               && (e != After(c, k) ==> e.prev == old(e.prev))
    ensures Ring(Deleted(c, k))
  {
    hide After, Before, Deleted, NoDup;
    var d := Deleted(c, k);
    DeletedUnique(c, k);
    forall j | 0 <= j < |d| ensures d[j].next == After(d, j) && d[j].prev == Before(d, j) {
      var i := if j < k then j else j + 1;
      DeletedShape(c, k, i);
      UniqueAt(c, i, k);
      assert c[i] in c;
    }
  }

  /** The entry before the one after the k-th is the k-th. */
  lemma BackFrom(c: seq<ListEntry>, k: nat)
    requires Ring(c) && k < |c|
    ensures After(c, k) in c && After(c, k).prev == c[k] && c[k].next == After(c, k)
  {
    var j := if k + 1 < |c| then k + 1 else 0;
    assert c[j].prev == Before(c, j);
  }

  /** A ring cannot contain an entry that is both the last before the head and its own predecessor. */
  lemma NoRing(c: seq<ListEntry>, head: ListEntry, e: ListEntry)
    requires c != [] && c[0] == head && e != head && head.prev == e && e.prev == e
    ensures !Ring(c)
  {
    if Ring(c) { LastOfRing(c); }
  }

  lemma LastOfRing(c: seq<ListEntry>)
    requires Ring(c)
    ensures c[0].prev in c && (c[0].prev == c[0] || c[0].prev.prev != c[0].prev)
  {
    var n := |c| - 1;
    assert c[0].prev == Before(c, 0) == c[n];
    assert c[n].prev == Before(c, n);
    if n > 0 { UniqueAt(c, n, n - 1); }
  }

  /** The links of the ring c, except that its last entry e names itself as its predecessor. */
  ghost predicate SelfLinked(c: seq<ListEntry>, e: ListEntry)
    reads c, e
  {
    && |c| >= 2 && c[|c| - 1] == e
    && NoDup(c)
    && (forall i | 0 <= i < |c| :: c[i].next == After(c, i))
    && (forall i | 0 <= i < |c| - 1 :: c[i].prev == Before(c, i))
    && e.prev == e
  }

  /** Adding the last entry of a ring once more, after itself. */
  twostate lemma SelfAdd(c: seq<ListEntry>)
    requires old(Ring(c)) && |c| >= 2
    requires var e := c[|c| - 1];
             && e.prev == e && e.next == c[0] && c[0].prev == e
             && (forall d | d in c && d != e :: d.next == old(d.next) && (d != c[0] ==> d.prev == old(d.prev)))
    ensures SelfLinked(c, c[|c| - 1])
  {
    forall i | 0 <= i < |c| ensures c[i].next == After(c, i) && (i < |c| - 1 ==> c[i].prev == Before(c, i)) {
      assert c[i] in c;
      if i < |c| - 1 { UniqueAt(c, i, |c| - 1); }
      if i > 0 { UniqueAt(c, i, 0); }
    }
  }

  /** list_del on such links. It takes an entry off the list, and mends the list if that is the entry before the
      self-linked one; of the self-linked entry itself it takes nothing off: it changes no link at all. */
  twostate lemma SelfDel(c: seq<ListEntry>, new k: nat)
    requires 0 < k < |c| && old(SelfLinked(c, c[|c| - 1]))
    requires old(c[k].prev).next == old(c[k].next) && old(c[k].next).prev == old(c[k].prev)
    requires forall e | e in c && e != c[k] ::
               && (e != old(c[k].prev) ==> e.next == old(e.next))
               && (e != old(c[k].next) ==> e.prev == old(e.prev))
    requires c[k].prev == old(c[k].prev) && (k < |c| - 1 ==> c[k].next == old(c[k].next))
    ensures k == |c| - 1 ==> SelfLinked(c, c[k]) && forall e | e in c :: e.next == old(e.next) && e.prev == old(e.prev)
    ensures k == |c| - 2 ==> Ring(Deleted(c, k))
    ensures k < |c| - 2 ==> SelfLinked(Deleted(c, k), c[|c| - 1])
  {
    if k == |c| - 1 {
      assert forall i | 0 <= i < |c| :: c[i] in c;
      forall i | 0 <= i < k ensures c[i] != c[k] { UniqueAt(c, i, k); }
      forall e | e in c ensures e.next == old(e.next) && e.prev == old(e.prev) { }
    } else {
      SelfDelOther(c, k);
    }
  }

  twostate lemma SelfDelOther(c: seq<ListEntry>, new k: nat)
    requires 0 < k < |c| - 1 && old(SelfLinked(c, c[|c| - 1]))
    requires c[k - 1].next == c[k + 1] && c[k + 1].prev == c[k - 1]
    requires forall e | e in c && e != c[k] ::
               && (e != c[k - 1] ==> e.next == old(e.next))
               && (e != c[k + 1] ==> e.prev == old(e.prev))
    ensures k == |c| - 2 ==> Ring(Deleted(c, k))
    ensures k < |c| - 2 ==> SelfLinked(Deleted(c, k), c[|c| - 1])
  {
    hide After, Before, Deleted, NoDup;
    var d := Deleted(c, k);
    DeletedUnique(c, k);
    Middle(c, k);
    forall j | 0 <= j < |d|
      ensures d[j].next == After(d, j) && (k == |c| - 2 || j < |d| - 1 ==> d[j].prev == Before(d, j))
      ensures k < |c| - 2 && j == |d| - 1 ==> d[j] == c[|c| - 1] && d[j].prev == d[j]
    {
      var i := if j < k then j else j + 1;
      DeletedShape(c, k, i);
      UniqueAt(c, i, k);
      if i != k - 1 { UniqueAt(c, i, k - 1); }
      if i != k + 1 { UniqueAt(c, i, k + 1); }
      assert c[i] in c;
    }
    if k < |c| - 2 { assert d[|d| - 1] == c[|c| - 1] && d[|d| - 1].prev == d[|d| - 1]; }
  }

  lemma Middle(c: seq<ListEntry>, k: nat)
    requires 0 < k < |c| - 1
    ensures Before(c, k) == c[k - 1] && After(c, k) == c[k + 1]
  {
  }

  /** Such links are no ring: no sequence of entries is a ring through that head. */
  lemma SelfLinkedNoRing(c: seq<ListEntry>, e: ListEntry, d: seq<ListEntry>)
    requires SelfLinked(c, e) && d != [] && d[0] == c[0]
    ensures !Ring(d)
  {
    UniqueAt(c, 0, |c| - 1);
    NoRing(d, c[0], e);
  }
}
