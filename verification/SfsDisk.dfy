/** The finished image as a reader sees it, and the accounts of the builder. */
module SfsDisk {
  import opened Bits
  import opened Sequences
  import opened Pages
  import opened SfsFile
  import opened SfsState
  import opened SfsTree
  import opened SfsWalk

  // ----- reading -----

  function DiskSlot(disk: map<nat, Content>, b: nat, k: nat): nat {
    if b in disk && disk[b].Pointers? && k < |disk[b].slots| then disk[b].slots[k] else 0
  }

  /** The number of block i of a file, through the pointer blocks of the image. */
  function DiskLookup(disk: map<nat, Content>, node: DiskInode, i: nat): nat {
    if i < NDIRECT then (if i < |node.direct| then node.direct[i] else 0)
    else if i < L1_NBLKS then DiskSlot(disk, node.indirect, i - NDIRECT)
    else DiskSlot(disk, DiskSlot(disk, node.dbIndirect, (i - L1_NBLKS) / 1024), (i - L1_NBLKS) % 1024)
  }

  /** The blocks of an inode of the image, in order. */
  ghost function DiskBlocks(disk: map<nat, Content>, node: DiskInode): seq<Content> {
    seq(node.blocks, i requires 0 <= i < node.blocks => ContentAt(disk, DiskLookup(disk, node, i)))
  }

  /** Reading inode f of the image gives this shape. Unless it is a regular file, as many entries of the image name
      it as the shape says, and its link count says so in 16 bits. */
  ghost predicate Reads(disk: map<nat, Content>, f: nat, shape: Shape) {
    && f in disk && disk[f].InodeBlock?
    && disk[f].node.kind == shape.kind && disk[f].node.size == shape.size
        && DiskBlocks(disk, disk[f].node) == shape.blocks
    && (shape.kind != KFile ==>
          |Naming(disk, f)| == shape.links && disk[f].node.nlinks == shape.links % 0x1_0000)
  }

  /** The bytes of data blocks, one after the other. */
  function Bytes(blocks: seq<Content>): seq<int> {
    if blocks == [] then [] else (if blocks[0].Data? then blocks[0].bytes else []) + Bytes(blocks[1..])
  }

  /** The first |data| bytes of the blocks of a file are the data, and the rest is zero. */
  lemma {:induction false} ChunksBack(data: seq<int>)
    ensures |Bytes(Chunks(data))| == |Chunks(data)| * BLKSIZE && |data| <= |Bytes(Chunks(data))| < |data| + BLKSIZE
    ensures Bytes(Chunks(data))[..|data|] == data
    ensures forall i | |data| <= i < |Bytes(Chunks(data))| :: Bytes(Chunks(data))[i] == 0
    decreases |data|
  {
    if |data| > BLKSIZE {
      var rest := data[BLKSIZE..];
      ChunksBack(rest);
      assert Chunks(data)[1..] == Chunks(rest);
      assert data == data[..BLKSIZE] + rest;
    } else if data != [] {
      assert Chunks(data)[1..] == [];
      assert Bytes(Chunks(data)) == Padded(data);
    }
  }

  // ----- closing -----

  /** What close_sfs writes into block b of an image of s. */
  ghost function Flushed(s: State, b: nat): Content {
    if b in s.caches then Pointers(s.caches[b]) else if b in s.inodes then InodeBlock(OnDisk(s.inodes[b])) else Data([])
  }

  /** Bit j of a bitmap block. */
  predicate BitAt(words: seq<nat>, j: nat) {
    j / 32 < |words| && Bit(words[j / 32], j % 32)
  }

  /** The disk holds what was written during the walk, and everything close_sfs writes, each in its own block. */
  ghost predicate Closed(s: State, disk: map<nat, Content>) {
    && 0 < s.nextIno <= s.ninos && (forall b: nat :: b in disk <==> b < s.nextIno)
    && disk[BLKN_SUPER] == Super(s.ninos, s.ninos - s.nextIno)
    && (forall k: nat | k < BitmapBlocks(s.ninos) :: MapBlockOk(s, disk, k))
    && (forall b | b in s.caches || b in s.inodes :: b in disk && disk[b] == Flushed(s, b))
    && (forall b | b in s.image :: b in disk && disk[b] == s.image[b])
  }

  /** Bitmap block k marks exactly the blocks that are free. */
  ghost predicate MapBlockOk(s: State, disk: map<nat, Content>, k: nat) {
    && BLKN_FREEMAP + k in disk && disk[BLKN_FREEMAP + k].Bitmap?
    && BitsSet(disk[BLKN_FREEMAP + k].words, s.nextIno - k * BLKBITS, s.ninos - k * BLKBITS)
  }

  /** The bits set are those from lo to hi. */
  ghost predicate BitsSet(words: seq<nat>, lo: int, hi: int) {
    forall j: nat | j < BLKBITS :: BitAt(words, j) <==> lo <= j < hi
  }

  /** The block numbers the bitmap marks free, as a reader finds them: bit g of the bitmap blocks. */
  predicate MarkedFree(disk: map<nat, Content>, g: nat) {
    var b := BLKN_FREEMAP + g / BLKBITS;
    b in disk && disk[b].Bitmap? && BitAt(disk[b].words, g % BLKBITS)
  }

  ghost function FreeSet(disk: map<nat, Content>, ninos: nat): set<nat> {
    set g: nat | g < BitmapBlocks(ninos) * BLKBITS && MarkedFree(disk, g)
  }

  lemma MarkedIff(s: State, disk: map<nat, Content>, g: nat)
    requires Closed(s, disk) && g < BitmapBlocks(s.ninos) * BLKBITS
    ensures MarkedFree(disk, g) <==> s.nextIno <= g < s.ninos
  {
    assert MapBlockOk(s, disk, g / BLKBITS);
  }

  /** As many bits are set as the superblock says are unused. */
  lemma FreeCount(s: State, disk: map<nat, Content>)
    requires Closed(s, disk)
    ensures BLKN_SUPER in disk && disk[BLKN_SUPER].Super?
             && |FreeSet(disk, s.ninos)| == s.ninos - s.nextIno == disk[BLKN_SUPER].unused
  {
    hide MapBlockOk, MarkedFree, Flushed, Range;
    forall g: nat ensures g in FreeSet(disk, s.ninos) <==> s.nextIno <= g < s.ninos {
      if g < BitmapBlocks(s.ninos) * BLKBITS { MarkedIff(s, disk, g); }
    }
    RangeSize(s.nextIno, s.ninos - s.nextIno);
    assert FreeSet(disk, s.ninos) == Range(s.nextIno, s.ninos - s.nextIno);
  }

  /** Looking a block up in the image is looking it up in the caches. */
  lemma DiskLookupSame(s: State, disk: map<nat, Content>, f: nat, i: nat)
    requires Inv(s) && Closed(s, disk) && f in s.inodes && f in s.listed && i < |s.listed[f]|
    ensures DiskLookup(disk, OnDisk(s.inodes[f]), i) == s.listed[f][i]
  {
    hide OwnersOk, LinksOk, InodeChainsOk, BlockChainsOk, FileOk;
    var node := s.inodes[f];
    assert OneFileOk(s, f);
    LookupListed(node, s.caches, s.listed[f], s.own[f], i);
    ThroughCaches(node, s.caches, s.listed[f], s.own[f], i);
    CachesRead(s, disk);
  }

  lemma CachesRead(s: State, disk: map<nat, Content>)
    requires Closed(s, disk)
    ensures forall b, k: nat | b in s.caches :: DiskSlot(disk, b, k) == Slot(s.caches, b, k)
  {
    hide MapBlockOk;
  }

  /** The blocks a lookup goes through are pointer blocks. */
  lemma ThroughCaches(node: Inode, caches: Caches, list: seq<nat>, own: seq<nat>, i: nat)
    requires FileOk(node, caches, list, own) && i < |list|
    ensures NDIRECT <= i < L1_NBLKS ==> node.indirect in caches
    ensures i >= L1_NBLKS ==> node.dbIndirect in caches
                              && Slot(caches, node.dbIndirect, (i - L1_NBLKS) / 1024) in caches
  {
    if i >= L1_NBLKS { assert own[2 + (i - L1_NBLKS) / 1024] == Slot(caches, node.dbIndirect, (i - L1_NBLKS) / 1024); }
  }

  /** A finished inode reads back from the image as what it was finished as. */
  lemma ReadsBack(s: State, disk: map<nat, Content>, done: map<nat, Shape>, f: nat)
    requires Inv(s) && Closed(s, disk) && NamedOk(s) && DoneOk(s, done) && f in done
    ensures Reads(disk, f, done[f])
  {
    hide Inv, MapBlockOk, DiskBlocks, Contents, Naming;
    assert FinishedOk(s, f, done[f]);
    BlockCount(s, f);
    BlocksRead(s, disk, f);
    OnlyWalkNames(s, disk, f);
  }

  lemma BlocksRead(s: State, disk: map<nat, Content>, f: nat)
    requires Inv(s) && Closed(s, disk) && f in s.inodes && f in s.listed
    ensures DiskBlocks(disk, OnDisk(s.inodes[f])) == Contents(s, f)
  {
    hide RolesOk, FilesOk, OwnersOk, LinksOk, InodeChainsOk, BlockChainsOk, MapBlockOk, DiskLookup;
    BlockCount(s, f);
    ListedWritten(s, f);
    forall i: nat | i < |s.listed[f]| ensures DiskLookup(disk, OnDisk(s.inodes[f]), i) == s.listed[f][i] {
      DiskLookupSame(s, disk, f, i);
    }
  }

  /** nblks, size and link count of an inode. */
  lemma BlockCount(s: State, f: nat)
    requires Inv(s) && f in s.inodes
    ensures f in s.listed && f in s.named && s.inodes[f].nblks == |s.listed[f]|
             && s.inodes[f].nlinks == s.named[f] % 0x1_0000 && f !in s.caches
  {
    hide OwnersOk, InodeChainsOk, BlockChainsOk;
    assert OneFileOk(s, f);
  }

  /** The link count of every inode of the image is the number of directory entries of the image that name it. */
  lemma LinkCounts(s: State, disk: map<nat, Content>, f: nat)
    requires Inv(s) && NamedOk(s) && Closed(s, disk) && f in s.inodes
    ensures f in disk && disk[f].InodeBlock? && disk[f].node.nlinks == |Naming(disk, f)| % 0x1_0000
  {
    hide Inv, MapBlockOk;
    BlockCount(s, f);
    OnlyWalkNames(s, disk, f);
  }

  lemma OnlyWalkNames(s: State, disk: map<nat, Content>, f: nat)
    requires Inv(s) && Closed(s, disk)
    ensures Naming(disk, f) == Naming(s.image, f)
  {
    hide FilesOk, OwnersOk, LinksOk, InodeChainsOk, BlockChainsOk, OnDisk;
    forall b | b in disk && disk[b].Entry? ensures b in s.image {
      if b >= FirstIno(s.ninos) {
        assert IsInode(s, b) || b in s.caches || b in s.image;
      } else if b >= BLKN_FREEMAP {
        BitmapThere(s, disk, b);
      }
    }
  }

  lemma BitmapThere(s: State, disk: map<nat, Content>, b: nat)
    requires Closed(s, disk) && BLKN_FREEMAP <= b < FirstIno(s.ninos)
    ensures b in disk && disk[b].Bitmap?
  {
    assert MapBlockOk(s, disk, b - BLKN_FREEMAP);
  }

  // ----- accounts -----

  function Elems(s: seq<nat>): set<nat> {
    set b | b in s
  }

  /** The pointer blocks and the blocks of a file. */
  function FileBlocks(own: seq<nat>, listed: seq<nat>): set<nat> {
    Elems(own) + Elems(listed)
  }

  /** The blocks of all inodes of fs. */
  ghost function BlocksOf(s: State, fs: set<nat>): (r: set<nat>)
    requires forall f | f in fs :: f in s.listed && f in s.own
  {
    set f, b | f in fs && b in FileBlocks(s.own[f], s.listed[f]) :: b
  }

  /** What the files and directories of fs take: an inode's blocks and the pointer blocks their count requires. */
  ghost function Taken(listed: map<nat, seq<nat>>, fs: set<nat>): nat
    requires forall f | f in fs :: f in listed
  {
    if fs == {} then 0
    else
      var f :| f in fs;
      |listed[f]| + PtrBlocks(|listed[f]|) + Taken(listed, fs - {f})
  }

  lemma {:induction false} UniqueSize(s: seq<nat>)
    requires NoDup(s)
    ensures |Elems(s)| == |s|
  {
    if s != [] {
      var n := |s| - 1;
      UniqueSize(s[..n]);
      assert s == s[..n] + [s[n]];
      assert Elems(s) == Elems(s[..n]) + {s[n]};
    }
  }

  lemma BlocksOfOne(s: State, f: nat)
    requires Inv(s) && f in s.inodes
    ensures f in s.listed && f in s.own && |BlocksOf(s, {f})| == |s.listed[f]| + PtrBlocks(|s.listed[f]|)
  {
    hide Inv, PtrBlocks;
    FileSets(s, f);
    UniqueSize(s.own[f]);
    UniqueSize(s.listed[f]);
    assert BlocksOf(s, {f}) == FileBlocks(s.own[f], s.listed[f]);
    assert Elems(s.own[f]) !! Elems(s.listed[f]);
  }

  lemma FileSets(s: State, f: nat)
    requires Inv(s) && f in s.inodes
    ensures f in s.listed && f in s.own && NoDup(s.own[f]) && NoDup(s.listed[f])
             && |s.own[f]| == PtrBlocks(|s.listed[f]|)
    ensures Elems(s.own[f]) <= s.caches.Keys && Elems(s.listed[f]) <= s.image.Keys && s.caches.Keys !! s.image.Keys
  {
    hide LinksOk, InodeChainsOk, BlockChainsOk, PtrBlocks, DirectOk, SingleOk, DoubleOk;
    assert OneFileOk(s, f) && OneOwnerOk(s, f);
  }

  /** No block belongs to two inodes, so the blocks of all of them add up. */
  lemma {:induction false} BlocksAdd(s: State, fs: set<nat>)
    requires Inv(s) && fs <= s.inodes.Keys && s.listed.Keys == s.inodes.Keys == s.own.Keys
    ensures |BlocksOf(s, fs)| == Taken(s.listed, fs)
    decreases fs
  {
    hide Inv, PtrBlocks;
    if fs == {} {
      assert BlocksOf(s, fs) == {};
    } else {
      var f :| f in fs && Taken(s.listed, fs) == |s.listed[f]| + PtrBlocks(|s.listed[f]|) + Taken(s.listed, fs - {f});
      BlocksAdd(s, fs - {f});
      BlocksOfOne(s, f);
      assert BlocksOf(s, fs) == BlocksOf(s, {f}) + BlocksOf(s, fs - {f});
      OneOwner(s, f, fs - {f});
    }
  }

  lemma OneOwner(s: State, f: nat, fs: set<nat>)
    requires Inv(s) && f in s.inodes && f !in fs && fs <= s.inodes.Keys && s.listed.Keys == s.inodes.Keys == s.own.Keys
    ensures BlocksOf(s, {f}) !! BlocksOf(s, fs)
  {
    hide Inv, FileBlocks;
    forall b | b in BlocksOf(s, {f}) ensures b !in BlocksOf(s, fs) {
      Owns(s, f, b);
      forall g | g in fs ensures b !in FileBlocks(s.own[g], s.listed[g]) {
        if b in FileBlocks(s.own[g], s.listed[g]) { Owns(s, g, b); }
      }
    }
  }

  lemma Owns(s: State, g: nat, b: nat)
    requires Inv(s) && g in s.inodes && g in s.own && g in s.listed && b in FileBlocks(s.own[g], s.listed[g])
    ensures b in s.owner && s.owner[b] == g
  {
    hide RolesOk, FilesOk, LinksOk, InodeChainsOk, BlockChainsOk;
    assert OneOwnerOk(s, g);
  }

  /** Every block number handed out is accounted for: the inodes but the root, the blocks of every inode, and
      the pointer blocks each block count requires. */
  lemma Accounts(s: State)
    requires Inv(s) && AllListed(s)
    ensures s.listed.Keys == s.inodes.Keys
    ensures s.nextIno - FirstIno(s.ninos) == |s.inodes| - 1 + Taken(s.listed, s.inodes.Keys)
  {
    hide Inv, BlocksOf;
    Keyed(s);
    BlocksAdd(s, s.inodes.Keys);
    AllBlocks(s);
    RolesCount(s);
  }

  lemma Keyed(s: State)
    requires Inv(s)
    ensures s.listed.Keys == s.inodes.Keys == s.own.Keys && RolesOk(s)
  {
  }

  lemma RolesCount(s: State)
    requires RolesOk(s)
    ensures s.nextIno - FirstIno(s.ninos) == |s.inodes| - 1 + |s.caches.Keys + s.image.Keys|
  {
    hide RolesOk, Range, FirstIno;
    RolesFill(s);
    var lo: nat, hi: nat := FirstIno(s.ninos), s.nextIno;
    RangeSize(lo, hi - lo);
    CountUp(s.inodes.Keys, BLKN_ROOT, s.caches.Keys + s.image.Keys);
  }

  lemma CountUp(a: set<nat>, x: nat, b: set<nat>)
    requires x in a && (a - {x}) !! b
    ensures |(a - {x}) + b| == |a| - 1 + |b|
  {
  }

  /** The numbers handed out are those of the inodes but the root, and of the blocks. */
  lemma RolesFill(s: State)
    requires RolesOk(s)
    ensures BLKN_ROOT in s.inodes && FirstIno(s.ninos) <= s.nextIno
    ensures (s.inodes.Keys - {BLKN_ROOT}) !! (s.caches.Keys + s.image.Keys)
    ensures (s.inodes.Keys - {BLKN_ROOT}) + (s.caches.Keys + s.image.Keys)
            == Range(FirstIno(s.ninos), s.nextIno - FirstIno(s.ninos))
  {
    hide Range;
    var others := s.inodes.Keys - {BLKN_ROOT};
    forall b: nat ensures b in others + (s.caches.Keys + s.image.Keys) <==> FirstIno(s.ninos) <= b < s.nextIno {
      assert IsInode(s, b) <==> b in others;
    }
  }

  lemma AllBlocks(s: State)
    requires Inv(s) && AllListed(s) && s.listed.Keys == s.inodes.Keys == s.own.Keys
    ensures BlocksOf(s, s.inodes.Keys) == s.caches.Keys + s.image.Keys
  {
    hide Inv;
    forall b | b in BlocksOf(s, s.inodes.Keys) ensures b in s.caches.Keys + s.image.Keys {
      var f :| f in s.inodes && b in FileBlocks(s.own[f], s.listed[f]);
      FileSets(s, f);
    }
    OwnedAll(s);
    forall b | b in s.caches.Keys + s.image.Keys ensures b in BlocksOf(s, s.inodes.Keys) {
      var f := s.owner[b];
      assert b in FileBlocks(s.own[f], s.listed[f]);
    }
  }

  lemma OwnedAll(s: State)
    requires Inv(s) && AllListed(s)
    ensures s.own.Keys == s.listed.Keys == s.inodes.Keys
    ensures forall b | b in s.caches :: b in s.owner && s.owner[b] in s.inodes && b in s.own[s.owner[b]]
    ensures forall b | b in s.image :: b in s.owner && s.owner[b] in s.inodes && b in s.listed[s.owner[b]]
  {
    hide RolesOk, FilesOk, LinksOk, InodeChainsOk, BlockChainsOk, OneOwnerOk;
  }
}
