/** The state of the image builder and what always holds of it: every block number has one role, every
    inode maps the blocks appended to it, and the hash chains find what they hold. */
module SfsState {
  import opened SfsFile
  import opened Sequences

  const BLKSIZE: nat := 4096
  const BLKBITS: nat := 32768         // block numbers covered by one bitmap block
  const MAX_NBLKS: nat := 524288
  const BLKN_SUPER: nat := 0
  const BLKN_ROOT: nat := 1
  const BLKN_FREEMAP: nat := 2
  const HASH_LIST_SIZE: nat := 1024

  /** The part of an inode that is written to the image. */
  datatype DiskInode = DiskInode(kind: Kind, size: nat, nlinks: nat, blocks: nat, direct: seq<nat>, indirect: nat,
      dbIndirect: nat)

  function OnDisk(node: Inode): DiskInode {
    DiskInode(node.kind, node.size, node.nlinks, node.nblks, node.direct, node.indirect, node.dbIndirect)
  }

  /** What a block of the image holds. */
  datatype Content =
    | Data(bytes: seq<int>)
    | Entry(text: string)
    | InodeBlock(node: DiskInode)
    | Pointers(slots: seq<nat>)
    | Bitmap(words: seq<nat>)
    | Super(blocks: nat, unused: nat)

  /** hash32; hash64 is hash32 of the low 32 bits. */
  function Hash32(val: nat): (h: nat)
    ensures h < HASH_LIST_SIZE
  {
    (val * 0x9e370001 % 0x1_0000_0000) / 0x40_0000
  }

  function Hash64(val: nat): nat { Hash32(val % 0x1_0000_0000) }

  function NoChains(): seq<seq<nat>> {
    seq(HASH_LIST_SIZE, _ => [])
  }

  /** The bitmap blocks of an image of ninos blocks, and the first block number that can be allocated. */
  function BitmapBlocks(ninos: nat): nat { (ninos + BLKBITS - 1) / BLKBITS }
  function FirstIno(ninos: nat): nat { BLKN_FREEMAP + BitmapBlocks(ninos) }

  /** listed gives the blocks appended to each inode, own its pointer blocks, owner the inode each of
      these belongs to, named how many directory entries name it. */
  datatype State = State(
    ninos: nat, nextIno: nat, inodes: map<nat, Inode>, caches: Caches, image: map<nat, Content>,
    inodeChains: seq<seq<nat>>, blockChains: seq<seq<nat>>,
    ghost listed: map<nat, seq<nat>>, ghost own: map<nat, seq<nat>>,
    ghost owner: map<nat, nat>, ghost named: map<nat, nat>)

  ghost predicate IsInode(s: State, b: nat) { b in s.inodes && b != BLKN_ROOT }

  /** Every number handed out has exactly one role: inode, pointer block, or data and entry block. */
  ghost predicate RolesOk(s: State) {
    && 0 < BitmapBlocks(s.ninos) && FirstIno(s.ninos) <= s.nextIno <= s.ninos <= MAX_NBLKS
    && BLKN_ROOT in s.inodes
    && (forall b: nat :: FirstIno(s.ninos) <= b < s.nextIno <==> IsInode(s, b) || b in s.caches || b in s.image)
    && s.caches.Keys !! s.image.Keys && s.inodes.Keys !! s.caches.Keys && s.inodes.Keys !! s.image.Keys
  }

  ghost predicate OneFileOk(s: State, f: nat) {
    && f in s.inodes && f in s.listed && f in s.own
    && FileOk(s.inodes[f], s.caches, s.listed[f], s.own[f])
  }

  ghost predicate FilesOk(s: State) {
    && s.listed.Keys == s.inodes.Keys && s.own.Keys == s.inodes.Keys
    && forall f | f in s.inodes :: OneFileOk(s, f)
  }

  /** The blocks of list are written and belong to f. */
  ghost predicate Belongs(list: seq<nat>, written: set<nat>, owner: map<nat, nat>, f: nat) {
    forall b | b in list :: b in written && b in owner && owner[b] == f
  }

  ghost predicate OneOwnerOk(s: State, f: nat) {
    && f in s.listed && f in s.own
    && Belongs(s.own[f], s.caches.Keys, s.owner, f) && Belongs(s.listed[f], s.image.Keys, s.owner, f)
    && NoDup(s.listed[f])
  }

  /** No pointer block and no data block belongs to two inodes. */
  ghost predicate OwnersOk(s: State) {
    && s.listed.Keys == s.inodes.Keys && s.own.Keys == s.inodes.Keys
    && (forall f | f in s.inodes :: OneOwnerOk(s, f))
    && (forall b | b in s.owner :: b in s.caches || b in s.image)
    && (forall b | b in s.caches :: b in s.owner && s.owner[b] in s.inodes && b in s.own[s.owner[b]])
  }

  /** nlinks is 16 bits wide. */
  ghost predicate LinksOk(s: State) {
    s.named.Keys == s.inodes.Keys && forall f | f in s.inodes :: s.inodes[f].nlinks == s.named[f] % 0x1_0000
  }

  ghost predicate InodeChainsOk(s: State) {
    && |s.inodeChains| == HASH_LIST_SIZE
    && (forall f | f in s.inodes :: f in s.inodeChains[Hash64(s.inodes[f].hostIno)])
    && (forall h, f | 0 <= h < HASH_LIST_SIZE && f in s.inodeChains[h] :: f in s.inodes)
  }

  /** Pointer blocks are chained under the hash of 0, the parameter they are allocated with. */
  ghost predicate BlockChainsOk(s: State) {
    && |s.blockChains| == HASH_LIST_SIZE
    && (forall b :: b in s.blockChains[Hash32(0)] <==> b in s.caches)
    && (forall h | 0 < h < HASH_LIST_SIZE :: s.blockChains[h] == [])
  }

  ghost predicate Inv(s: State) {
    RolesOk(s) && FilesOk(s) && OwnersOk(s) && LinksOk(s) && InodeChainsOk(s) && BlockChainsOk(s)
  }

  lemma HashZero()
    ensures Hash32(0) == 0
  {
  }

  /** The chains of four numbers, and that of a 64-bit number, which its upper half does not matter for. */
  lemma HashInNumbers(val: nat)
    ensures Hash32(1) == 632 && Hash32(4) == 483 && Hash32(4096) == 448 && Hash32(4194304) == 1
    ensures Hash64(val + 0x1_0000_0000) == Hash64(val) && (val < 0x1_0000_0000 ==> Hash64(val) == Hash32(val))
  {
  }

  /** A search for a pointer block would look along the chain of its own number, which holds it only when that
      number hashes like 0; block 3, the first of a small image, already does not. */
  lemma SearchWouldFind(s: State, b: nat)
    requires BlockChainsOk(s) && b in s.caches
    ensures b in s.blockChains[Hash32(b)] <==> Hash32(b) == Hash32(0)
    ensures Hash32(3) != Hash32(0)
  {
    HashZero();
    assert 3 * 0x9e370001 % 0x1_0000_0000 == 0xdaa50003;
  }

  // ----- what append_block does to the state -----

  /** After file gets block b: its inode is node, its pointer blocks are own, those in added are new. */
  ghost function Appended(s: State, file: nat, node: Inode, caches: Caches, own: seq<nat>, added: seq<nat>,
      b: nat): State
    requires file in s.listed
  {
    s.(nextIno := s.nextIno + |added|, inodes := s.inodes[file := node], caches := caches,
       blockChains := Chained(s.blockChains, added), listed := s.listed[file := s.listed[file] + [b]],
       own := s.own[file := own], owner := Owned(s.owner, added, file)[b := file])
  }

  function Chained(chains: seq<seq<nat>>, added: seq<nat>): seq<seq<nat>>
    decreases |added|
  {
    if added == [] || |chains| == 0 then chains
    else Chained(chains[0 := [added[0]] + chains[0]], added[1..])
  }

  ghost function Owned(owner: map<nat, nat>, added: seq<nat>, file: nat): map<nat, nat> {
    if added == [] then owner else Owned(owner, added[1..], file)[added[0] := file]
  }

  /** New pointer blocks take the next numbers; only pointer blocks of the file itself are written. */
  ghost predicate Changes(s: State, file: nat, caches: Caches, own: seq<nat>, added: seq<nat>) {
    && file in s.own
    && (forall k | 0 <= k < |added| :: added[k] == s.nextIno + k)
    && own == s.own[file] + added && s.nextIno + |added| <= s.ninos
    && caches.Keys == s.caches.Keys + (set b | b in added)
    && (forall c | c in s.caches && c !in s.own[file] :: caches[c] == s.caches[c])
  }

  lemma {:induction false} OwnedIs(owner: map<nat, nat>, added: seq<nat>, file: nat)
    ensures Owned(owner, added, file).Keys == owner.Keys + (set b | b in added)
    ensures forall b | b in added :: Owned(owner, added, file)[b] == file
    ensures forall b | b in owner && b !in added :: Owned(owner, added, file)[b] == owner[b]
  {
    if added != [] {
      OwnedIs(owner, added[1..], file);
      assert forall b :: b in added <==> b == added[0] || b in added[1..];
    }
  }

  lemma {:induction false} ChainedIs(chains: seq<seq<nat>>, added: seq<nat>)
    requires |chains| > 0
    ensures |Chained(chains, added)| == |chains|
    ensures forall h | 0 < h < |chains| :: Chained(chains, added)[h] == chains[h]
    ensures forall b :: b in Chained(chains, added)[0] <==> b in chains[0] || b in added
    decreases |added|
  {
    if added != [] {
      ChainedIs(chains[0 := [added[0]] + chains[0]], added[1..]);
      assert forall b :: b in added <==> b == added[0] || b in added[1..];
    }
  }

  lemma FreshNumbers(s: State, file: nat, caches: Caches, own: seq<nat>, added: seq<nat>, b: nat)
    requires RolesOk(s) && Changes(s, file, caches, own, added)
    ensures b in added <==> s.nextIno <= b < s.nextIno + |added|
    ensures b in added ==> b !in s.caches && b !in s.image && b !in s.inodes
  {
    if s.nextIno <= b < s.nextIno + |added| { assert added[b - s.nextIno] == b; }
    if b in added {
      assert !(FirstIno(s.ninos) <= b < s.nextIno);
      assert !IsInode(s, b);
    }
  }

  lemma AppendedRoles(s: State, file: nat, node: Inode, caches: Caches, own: seq<nat>, added: seq<nat>, b: nat)
    requires RolesOk(s) && file in s.inodes && file in s.listed && Changes(s, file, caches, own, added)
    ensures RolesOk(Appended(s, file, node, caches, own, added, b))
  {
    var t := Appended(s, file, node, caches, own, added, b);
    forall c: nat ensures c in t.caches <==> c in s.caches || s.nextIno <= c < t.nextIno {
      FreshNumbers(s, file, caches, own, added, c);
    }
    forall c: nat ensures FirstIno(t.ninos) <= c < t.nextIno <==> IsInode(t, c) || c in t.caches || c in t.image {
      assert IsInode(t, c) == IsInode(s, c);
    }
    forall c | c in t.caches ensures c !in t.image && c !in t.inodes {
      FreshNumbers(s, file, caches, own, added, c);
    }
  }

  lemma AppendedFiles(s: State, file: nat, node: Inode, caches: Caches, own: seq<nat>, added: seq<nat>, b: nat)
    requires FilesOk(s) && OwnersOk(s) && file in s.inodes && Changes(s, file, caches, own, added)
    requires FileOk(node, caches, s.listed[file] + [b], own)
    ensures FilesOk(Appended(s, file, node, caches, own, added, b))
  {
    hide FileOk;
    var t := Appended(s, file, node, caches, own, added, b);
    forall f | f in t.inodes ensures OneFileOk(t, f) {
      if f != file {
        assert OneFileOk(s, f) && OneOwnerOk(s, f) && OneOwnerOk(s, file);
        FileFrame(s.inodes[f], s.caches, caches, s.listed[f], s.own[f]);
      }
    }
  }

  lemma AppendedOwner(s: State, file: nat, node: Inode, caches: Caches, own: seq<nat>, added: seq<nat>, b: nat, f: nat)
    requires OwnersOk(s) && file in s.inodes && f in s.inodes && Changes(s, file, caches, own, added)
    requires b in s.image && b !in s.owner && b !in added
    requires forall c: nat | c in added :: c !in s.owner && c !in s.image
    ensures OneOwnerOk(Appended(s, file, node, caches, own, added, b), f)
  {
    hide Owned, Chained, Belongs;
    var t := Appended(s, file, node, caches, own, added, b);
    OwnedIs(s.owner, added, file);
    assert OneOwnerOk(s, f);
    BelongsGrows(s.own[f], s.caches.Keys, t.caches.Keys, s.owner, t.owner, f);
    BelongsGrows(s.listed[f], s.image.Keys, t.image.Keys, s.owner, t.owner, f);
    if f == file {
      NotYet(s.listed[f], s.image.Keys, s.owner, f, b);
      UniqueAppend(s.listed[f], b);
      BelongsAppend(s.own[f], added, t.caches.Keys, t.owner, f);
      BelongsAppend(s.listed[f], [b], t.image.Keys, t.owner, f);
    }
  }

  lemma NotYet(list: seq<nat>, written: set<nat>, owner: map<nat, nat>, f: nat, b: nat)
    requires Belongs(list, written, owner, f) && b !in owner
    ensures b !in list
  {
  }

  lemma BelongsGrows(list: seq<nat>, written: set<nat>, written': set<nat>, owner: map<nat, nat>,
                     owner': map<nat, nat>, f: nat)
    requires Belongs(list, written, owner, f) && written <= written'
    requires forall c | c in owner :: c in owner' && owner'[c] == owner[c]
    ensures Belongs(list, written', owner', f)
  {
  }

  lemma BelongsAppend(list: seq<nat>, more: seq<nat>, written: set<nat>, owner: map<nat, nat>, f: nat)
    requires Belongs(list, written, owner, f) && forall b | b in more :: b in written && b in owner && owner[b] == f
    ensures Belongs(list + more, written, owner, f)
  {
  }

  lemma AppendedOwners(s: State, file: nat, node: Inode, caches: Caches, own: seq<nat>, added: seq<nat>, b: nat)
    requires RolesOk(s) && OwnersOk(s) && file in s.inodes && Changes(s, file, caches, own, added)
    requires b in s.image && b !in s.owner
    ensures OwnersOk(Appended(s, file, node, caches, own, added, b))
  {
    hide OneOwnerOk, Owned, Chained, RolesOk;
    var t := Appended(s, file, node, caches, own, added, b);
    OwnedIs(s.owner, added, file);
    forall c: nat | c in added ensures c !in s.owner && c != b && c !in s.image {
      FreshNumbers(s, file, caches, own, added, c);
    }
    forall f | f in t.inodes ensures OneOwnerOk(t, f) {
      AppendedOwner(s, file, node, caches, own, added, b, f);
    }
    forall c | c in t.caches ensures c in t.owner && t.owner[c] in t.inodes && c in t.own[t.owner[c]] {
      assert c in s.caches || c in added;
    }
  }

  lemma UniqueAppend(s: seq<nat>, b: nat)
    requires NoDup(s) && b !in s
    ensures NoDup(s + [b])
  {
  }

  lemma AppendedKeeps(s: State, file: nat, node: Inode, caches: Caches, own: seq<nat>, added: seq<nat>, b: nat)
    requires Inv(s) && file in s.inodes && Changes(s, file, caches, own, added)
    requires FileOk(node, caches, s.listed[file] + [b], own) && b in s.image && b !in s.owner
    requires node.nlinks == s.inodes[file].nlinks && node.hostIno == s.inodes[file].hostIno
    ensures Inv(Appended(s, file, node, caches, own, added, b))
  {
    hide FileOk, RolesOk, FilesOk, OwnersOk, Changes;
    AppendedBasics(s);
    AppendedRoles(s, file, node, caches, own, added, b);
    AppendedFiles(s, file, node, caches, own, added, b);
    AppendedOwners(s, file, node, caches, own, added, b);
    AppendedChains(s, file, node, caches, own, added, b);
  }

  lemma AppendedBasics(s: State)
    requires FilesOk(s)
    ensures s.listed.Keys == s.inodes.Keys && s.own.Keys == s.inodes.Keys
  {
  }

  lemma AppendedChains(s: State, file: nat, node: Inode, caches: Caches, own: seq<nat>, added: seq<nat>, b: nat)
    requires LinksOk(s) && InodeChainsOk(s) && BlockChainsOk(s) && file in s.inodes && file in s.listed
    requires Changes(s, file, caches, own, added)
    requires node.nlinks == s.inodes[file].nlinks && node.hostIno == s.inodes[file].hostIno
    ensures var t := Appended(s, file, node, caches, own, added, b);
            LinksOk(t) && InodeChainsOk(t) && BlockChainsOk(t)
  {
    HashZero();
    ChainedIs(s.blockChains, added);
  }
}
