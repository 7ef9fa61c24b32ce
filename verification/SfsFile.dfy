/** The block map of an inode: direct, indirect and double-indirect blocks, with the cursors l1 and l2. */
module SfsFile {
  import opened Sequences

  const NDIRECT: nat := 12
  const NENTRY: nat := 1024           // block numbers in a pointer block
  const L1_NBLKS: nat := 1036
  const LN_NBLKS: nat := 32768        // the largest file

  datatype Kind = KFile | KDir | KLink

  /** A cache_inode. Cache blocks are named by their block number; 0 is the null cursor. */
  datatype Inode = Inode(kind: Kind, hostIno: nat, size: nat, nlinks: nat, nblks: nat, direct: seq<nat>,
                         indirect: nat, dbIndirect: nat, l1: nat, l2: nat)

  /** The pointer blocks in the cache, by block number. */
  type Caches = map<nat, seq<nat>>

  /** The pointer blocks a file of n blocks needs. */
  function PtrBlocks(n: nat): nat {
    (if n > NDIRECT then 1 else 0) + if n > L1_NBLKS then 1 + (n - L1_NBLKS + 1023) / 1024 else 0
  }

  /** The number in slot k of pointer block b. */
  function Slot(caches: Caches, b: nat, k: nat): nat {
    if b in caches && k < |caches[b]| then caches[b][k] else 0
  }

  /** The block number at index i, found through the pointer blocks as a reader of the image finds it. */
  function Lookup(node: Inode, caches: Caches, i: nat): nat {
    if i < NDIRECT then (if i < |node.direct| then node.direct[i] else 0)
    else if i < L1_NBLKS then Slot(caches, node.indirect, i - NDIRECT)
    else Slot(caches, Slot(caches, node.dbIndirect, (i - L1_NBLKS) / 1024), (i - L1_NBLKS) % 1024)
  }

  predicate PtrBlock(caches: Caches, b: nat) {
    b != 0 && b in caches && |caches[b]| == NENTRY
  }

  /** Write v into slot k of pointer block b. */
  function Put(caches: Caches, b: nat, k: nat, v: nat): Caches
    requires b in caches && k < |caches[b]|
  {
    var row: seq<nat> := caches[b];
    var row': seq<nat> := row[k := v];
    caches[b := row']
  }

  ghost predicate DirectOk(node: Inode, list: seq<nat>) {
    |node.direct| == NDIRECT && forall i | 0 <= i < NDIRECT :: node.direct[i] == if i < |list| then list[i] else 0
  }

  /** own lists the pointer blocks of the file in the order they were allocated:
      the indirect block, the double-indirect block, then the leaves. */
  ghost predicate SingleOk(node: Inode, caches: Caches, list: seq<nat>, own: seq<nat>) {
    if |list| <= NDIRECT then node.indirect == 0
    else
      && |own| >= 1 && node.indirect == own[0] && PtrBlock(caches, own[0])
      && LeafOk(caches[own[0]], list, NDIRECT)
  }

  ghost predicate DoubleOk(node: Inode, caches: Caches, list: seq<nat>, own: seq<nat>) {
    if |list| <= L1_NBLKS then node.dbIndirect == 0
    else
      && |own| >= 2 && node.dbIndirect == own[1] && PtrBlock(caches, own[1])
      && (forall t | 0 <= t < NENTRY :: caches[own[1]][t] == if t + 2 < |own| then own[t + 2] else 0)
      && LeavesOk(caches, list, own)
  }

  ghost predicate LeavesOk(caches: Caches, list: seq<nat>, own: seq<nat>) {
    forall k | 2 <= k < |own| :: PtrBlock(caches, own[k]) && LeafOk(caches[own[k]], list, LeafStart(k))
  }

  /** The index of the first block in the k-th pointer block, which is a leaf. */
  function LeafStart(k: nat): nat
    requires k >= 2
  {
    L1_NBLKS + (k - 2) * 1024
  }

  /** A pointer block holds the blocks from the given index on, as far as there are any, and zeros. */
  ghost predicate LeafOk(row: seq<nat>, list: seq<nat>, start: nat) {
    |row| == NENTRY && forall j | 0 <= j < NENTRY :: row[j] == if start + j < |list| then list[start + j] else 0
  }

  /** The cursors stand at the last pointer block of each level. */
  ghost predicate CursorOk(node: Inode, list: seq<nat>, own: seq<nat>) {
    && |own| == PtrBlocks(|list|)
    && node.l1 == (if |list| <= NDIRECT then 0 else own[|own| - 1])
    && node.l2 == (if |list| <= L1_NBLKS then 0 else own[1])
  }

  /** The inode maps exactly the blocks of list, in order, through the pointer blocks of own; numbers not used are 0. */
  ghost predicate FileOk(node: Inode, caches: Caches, list: seq<nat>, own: seq<nat>) {
    && node.nblks == |list| <= LN_NBLKS
    && DirectOk(node, list) && SingleOk(node, caches, list, own) && DoubleOk(node, caches, list, own)
    && CursorOk(node, list, own) && NoDup(own)
  }

  /** Looking up index i gives the i-th block appended. */
  lemma LookupListed(node: Inode, caches: Caches, list: seq<nat>, own: seq<nat>, i: nat)
    requires FileOk(node, caches, list, own) && i < |list|
    ensures Lookup(node, caches, i) == list[i]
  {
    if i >= L1_NBLKS { LeafAt(caches, list, own, i); }
  }

  /** Index i is in its leaf. */
  lemma LeafAt(caches: Caches, list: seq<nat>, own: seq<nat>, i: nat)
    requires LeavesOk(caches, list, own) && i >= L1_NBLKS && 2 + (i - L1_NBLKS) / 1024 < |own|
    ensures Slot(caches, own[2 + (i - L1_NBLKS) / 1024], (i - L1_NBLKS) % 1024) == if i < |list| then list[i] else 0
  {
    var k, j := 2 + (i - L1_NBLKS) / 1024, (i - L1_NBLKS) % 1024;
    assert LeafStart(k) + j == i;
    assert LeafOk(caches[own[k]], list, LeafStart(k));
  }

  /** Beyond them a lookup gives 0, if block 0 is no pointer block. */
  lemma LookupBeyond(node: Inode, caches: Caches, list: seq<nat>, own: seq<nat>, i: nat)
    requires FileOk(node, caches, list, own) && i >= |list| && 0 !in caches
    ensures Lookup(node, caches, i) == 0
  {
    if i >= L1_NBLKS && node.dbIndirect != 0 && (i - L1_NBLKS) / 1024 < NENTRY {
      var t := (i - L1_NBLKS) / 1024;
      assert Slot(caches, own[1], t) == if t + 2 < |own| then own[t + 2] else 0;
      if t + 2 < |own| { LeafAt(caches, list, own, i); }
    }
  }

  /** A file does not notice changes outside its own pointer blocks. */
  lemma FileFrame(node: Inode, caches: Caches, caches': Caches, list: seq<nat>, own: seq<nat>)
    requires FileOk(node, caches, list, own)
    requires forall k | 0 <= k < |own| && own[k] in caches :: own[k] in caches' && caches'[own[k]] == caches[own[k]]
    ensures FileOk(node, caches', list, own)
  {
  }

  function FreshInode(kind: Kind, hostIno: nat): Inode {
    Inode(kind, hostIno, 0, 0, 0, seq(NDIRECT, _ => 0), 0, 0, 0, 0)
  }

  lemma FreshFileOk(kind: Kind, hostIno: nat, caches: Caches)
    ensures FileOk(FreshInode(kind, hostIno), caches, [], [])
  {
  }

  const ZEROS: seq<nat> := seq(NENTRY, _ => 0)

  // ----- the cases of append_block -----

  lemma AppendDirect(node: Inode, caches: Caches, list: seq<nat>, own: seq<nat>, b: nat)
    requires FileOk(node, caches, list, own) && |list| < NDIRECT
    ensures FileOk(node.(direct := node.direct[|list| := b]).(nblks := |list| + 1), caches, list + [b], own)
  {
  }

  /** The first block beyond the direct ones allocates the indirect block. */
  lemma AppendFirstIndirect(node: Inode, caches: Caches, list: seq<nat>, own: seq<nat>, b: nat, p: nat)
    requires FileOk(node, caches, list, own) && |list| == NDIRECT && p != 0
    ensures FileOk(node.(indirect := p).(l1 := p).(nblks := |list| + 1), caches[p := ZEROS[0 := b]], list + [b], [p])
  {
  }

  lemma AppendIndirect(node: Inode, caches: Caches, list: seq<nat>, own: seq<nat>, b: nat)
    requires FileOk(node, caches, list, own) && NDIRECT < |list| < L1_NBLKS
    ensures node.l1 == node.indirect == own[0] && PtrBlock(caches, own[0])
    ensures var p := own[0];
            FileOk(node.(nblks := |list| + 1), Put(caches, p, |list| - NDIRECT, b), list + [b], own)
  {
  }

  /** The first block beyond the indirect ones allocates the double-indirect block and a leaf. */
  lemma AppendFirstDouble(node: Inode, caches: Caches, list: seq<nat>, own: seq<nat>, b: nat, q: nat, leaf: nat)
    requires FileOk(node, caches, list, own) && |list| == L1_NBLKS
    requires q != 0 && leaf != 0 && q != leaf && q !in caches && leaf !in caches
    ensures FileOk(node.(dbIndirect := q).(l2 := q).(l1 := leaf).(nblks := |list| + 1),
                   caches[q := ZEROS[0 := leaf]][leaf := ZEROS[0 := b]], list + [b], own + [q, leaf])
  {
    var own' := own + [q, leaf];
    assert |own| == 1;
  }

  /** A leaf is full: the next block allocates another. */
  lemma AppendFirstInLeaf(node: Inode, caches: Caches, list: seq<nat>, own: seq<nat>, b: nat, leaf: nat)
    requires FileOk(node, caches, list, own) && L1_NBLKS < |list| < LN_NBLKS && (|list| - L1_NBLKS) % 1024 == 0
    requires leaf != 0 && leaf !in caches
    ensures node.l2 == node.dbIndirect == own[1] && PtrBlock(caches, own[1])
             && Slot(caches, own[1], (|list| - L1_NBLKS) / 1024) == 0
    ensures var q := own[1];
            FileOk(node.(l1 := leaf).(nblks := |list| + 1),
                   Put(caches, q, (|list| - L1_NBLKS) / 1024, leaf)[leaf := ZEROS[0 := b]],
                   list + [b], own + [leaf])
  {
  }

  lemma AppendInLeaf(node: Inode, caches: Caches, list: seq<nat>, own: seq<nat>, b: nat)
    requires FileOk(node, caches, list, own) && L1_NBLKS < |list| < LN_NBLKS && (|list| - L1_NBLKS) % 1024 != 0
    ensures node.l2 == node.dbIndirect == own[1] && PtrBlock(caches, own[1])
    ensures var leaf := own[|own| - 1];
            && node.l1 == leaf && PtrBlock(caches, leaf) && Slot(caches, own[1], (|list| - L1_NBLKS) / 1024) == leaf
            && FileOk(node.(nblks := |list| + 1), Put(caches, leaf, (|list| - L1_NBLKS) % 1024, b), list + [b], own)
  {
  }

  /** The cursors in each stage: nothing to stand at yet, or the block the file's own fields name. */
  lemma Blocks(node: Inode, caches: Caches, list: seq<nat>, own: seq<nat>)
    requires FileOk(node, caches, list, own)
    ensures node.nblks == |list| <= LN_NBLKS && |own| == PtrBlocks(|list|) && |node.direct| == NDIRECT
    ensures |list| == NDIRECT ==> node.indirect == 0 && own == []
    ensures |list| == L1_NBLKS ==> node.dbIndirect == 0
    ensures NDIRECT < |list| ==> own[0] in caches
    ensures L1_NBLKS < |list| ==> own[1] in caches && own[|own| - 1] in caches && own[1] != own[|own| - 1]
  {
  }
}
