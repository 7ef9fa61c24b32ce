/** The layout of an image in numbers: where a reader finds what, and how large things can be. */
module SfsLayout {
  import opened Bits
  import opened Wrappers
  import opened SfsFile
  import opened SfsState
  import opened SfsTree
  import opened SfsWalk
  import opened SfsDisk
  import opened Sfs
  import opened SfsImage

  /** create_sfs refuses exactly the image files whose number of 4096-byte blocks, in 32 bits, is below 4, and never
      uses more than 524288 blocks. */
  lemma SmallestImage(imgBytes: nat)
    ensures FirstIno(UsedBlocks(imgBytes)) >= UsedBlocks(imgBytes) <==> imgBytes / 4096 % 4294967296 < 4
    ensures UsedBlocks(imgBytes) <= 524288
    ensures imgBytes / 4096 <= 524288 ==> UsedBlocks(imgBytes) == imgBytes / 4096
  {
    var n := imgBytes / 4096;
    if n <= 524288 { assert n % 4294967296 == n; }
  }

  /** Superblock, root and bitmap are in blocks 0, 1 and from 2 on, one bitmap block for every 32768 blocks. */
  lemma FixedBlocks(s: State, disk: map<nat, Content>)
    requires Inv(s) && Closed(s, disk)
    ensures 0 in disk && disk[0] == Super(s.ninos, s.ninos - s.nextIno)
    ensures 1 in disk && disk[1].InodeBlock?
    ensures forall k: nat | 32768 * k < s.ninos :: 2 + k in disk && disk[2 + k].Bitmap?
  {
    hide FilesOk, OwnersOk, LinksOk, InodeChainsOk, BlockChainsOk, OnDisk, BitsSet;
    assert BLKN_ROOT in s.inodes && BLKN_ROOT !in s.caches;
    forall k: nat | 32768 * k < s.ninos ensures 2 + k in disk && disk[2 + k].Bitmap? {
      assert k < BitmapBlocks(s.ninos);
      assert MapBlockOk(s, disk, k);
    }
  }

  /** Bit g mod 32 of word (g mod 32768) / 32 of block 2 + g / 32768 of a closed image is set exactly when block g is
      free. */
  lemma MarksInNumbers(s: State, disk: map<nat, Content>, g: nat)
    requires Closed(s, disk) && g < BitmapBlocks(s.ninos) * 32768
    ensures var b := 2 + g / 32768;
            (b in disk && disk[b].Bitmap? && g % 32768 / 32 < |disk[b].words|
             && Bit(disk[b].words[g % 32768 / 32], g % 32)) <==> s.nextIno <= g < s.ninos
  {
    hide Closed, Bit;
    assert g % 32768 % 32 == g % 32;
    MarkedIff(s, disk, g);
  }

  /** The number in slot k of pointer block b. */
  function SlotIn(disk: map<nat, Content>, b: nat, k: nat): nat {
    if b in disk && disk[b].Pointers? && k < |disk[b].slots| then disk[b].slots[k] else 0
  }

  /** The i-th block of an inode in a closed image: blocks 0 to 11 are direct, the next 1024 in one pointer block, and
      the others in pointer blocks that a pointer block names, 1024 in each. */
  lemma BlocksInNumbers(s: State, disk: map<nat, Content>, f: nat, i: nat)
    requires Inv(s) && Closed(s, disk) && f in s.inodes && f in s.listed && i < |s.listed[f]|
    ensures f in disk && disk[f].InodeBlock? && |disk[f].node.direct| == 12
    ensures var node := disk[f].node;
            s.listed[f][i]
            == if i < 12 then node.direct[i]
               else if i < 1036 then SlotIn(disk, node.indirect, i - 12)
               else SlotIn(disk, SlotIn(disk, node.dbIndirect, (i - 1036) / 1024), (i - 1036) % 1024)
  {
    hide RolesOk, OwnersOk, LinksOk, InodeChainsOk, BlockChainsOk, SingleOk, DoubleOk, CursorOk, MapBlockOk;
    assert OneFileOk(s, f);
    BlockCount(s, f);
    DiskLookupSame(s, disk, f, i);
  }

  /** Beyond its blocks a reader finds the number 0, at every index. */
  lemma ZeroBeyond(s: State, disk: map<nat, Content>, f: nat, i: nat)
    requires Inv(s) && Closed(s, disk) && f in s.inodes && f in s.listed && i >= |s.listed[f]|
    ensures f in disk && disk[f].InodeBlock? && DiskLookup(disk, disk[f].node, i) == 0
  {
    hide RolesOk, OwnersOk, LinksOk, InodeChainsOk, BlockChainsOk, FileOk, MapBlockOk;
    assert OneFileOk(s, f);
    BlockCount(s, f);
    NoBlockZero(s);
    LookupBeyond(s.inodes[f], s.caches, s.listed[f], s.own[f], i);
    BeyondSame(s, disk, f, i);
  }

  lemma NoBlockZero(s: State)
    requires Inv(s)
    ensures 0 !in s.caches
  {
    hide FilesOk, OwnersOk, LinksOk, InodeChainsOk, BlockChainsOk;
    assert !(FirstIno(s.ninos) <= 0);
  }

  /** Pointer blocks read as they are cached; no other block number has slots in the caches. */
  lemma BeyondSame(s: State, disk: map<nat, Content>, f: nat, i: nat)
    requires Inv(s) && Closed(s, disk) && f in s.inodes && f in s.listed && f in s.own && f !in s.caches
    requires FileOk(s.inodes[f], s.caches, s.listed[f], s.own[f]) && 0 !in s.caches
    ensures f in disk && disk[f].InodeBlock?
    ensures DiskLookup(disk, disk[f].node, i) == Lookup(s.inodes[f], s.caches, i)
  {
    hide OwnersOk, LinksOk, InodeChainsOk, BlockChainsOk, FilesOk, MapBlockOk;
    CachesRead(s, disk);
    ZeroReads(s, disk);
  }

  lemma ZeroReads(s: State, disk: map<nat, Content>)
    requires Closed(s, disk)
    ensures forall k :: DiskSlot(disk, 0, k) == 0
  {
    hide MapBlockOk;
  }

  /** Besides its n blocks a file has no pointer block up to 12 of them, one up to 1036, and then two and one more for
      every 1024; and it has at most 32768 blocks, 128 MiB. */
  lemma SizeInNumbers(s: State, f: nat)
    requires Inv(s) && f in s.inodes
    ensures f in s.listed && f in s.own && |s.listed[f]| <= 32768
    ensures var n := |s.listed[f]|;
            |s.own[f]| == if n <= 12 then 0 else if n <= 1036 then 1 else 2 + (n - 1036 + 1023) / 1024
  {
    hide RolesOk, OwnersOk, LinksOk, InodeChainsOk, BlockChainsOk, DirectOk, SingleOk;
    assert OneFileOk(s, f);
    Blocks(s.inodes[f], s.caches, s.listed[f], s.own[f]);
  }
}
