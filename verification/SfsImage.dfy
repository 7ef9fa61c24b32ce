/** The life of an image: create_sfs, the walk, close_sfs. */
module SfsImage {
  import opened Bits
  import opened Wrappers
  import opened SfsFile
  import opened SfsState
  import opened SfsEntry
  import opened SfsTree
  import opened SfsWalk
  import opened SfsDisk
  import opened Sfs
  import opened Mksfs

  /** The number of blocks used of an image file of imgBytes bytes: 32 bits of it, then at most MAX_NBLKS. */
  function UsedBlocks(imgBytes: nat): nat {
    var n := imgBytes / BLKSIZE % 0x1_0000_0000;
    if n > MAX_NBLKS then MAX_NBLKS else n
  }

  /** The builder uses the blocks of the image file, up to the limit, exactly when their number fits into 32 bits or
      its low 32 bits still exceed the limit; an image file of 2^32 blocks counts as empty. */
  lemma UsedExactly(imgBytes: nat)
    ensures UsedBlocks(imgBytes) == Min(imgBytes / BLKSIZE, MAX_NBLKS) <==>
            imgBytes / BLKSIZE < 0x1_0000_0000 || imgBytes / BLKSIZE % 0x1_0000_0000 >= MAX_NBLKS
    ensures UsedBlocks(0x1_0000_0000 * BLKSIZE) == 0
  {
    var n := imgBytes / BLKSIZE;
    if n < 0x1_0000_0000 { assert n % 0x1_0000_0000 == n; }
  }

  ghost function EmptyState(blocks: nat): State {
    State(blocks, FirstIno(blocks), map[BLKN_ROOT := FreshInode(KDir, 0)], map[], map[],
          NoChains()[Hash64(0) := [BLKN_ROOT]], NoChains(),
          map[BLKN_ROOT := []], map[BLKN_ROOT := []], map[], map[BLKN_ROOT := 0])
  }

  lemma EmptyInv(blocks: nat)
    requires FirstIno(blocks) < blocks <= MAX_NBLKS
    ensures Inv(EmptyState(blocks))
  {
    hide FileOk;
    HashZero();
    FreshFileOk(KDir, 0, map[]);
    assert OneFileOk(EmptyState(blocks), BLKN_ROOT);
    assert OneOwnerOk(EmptyState(blocks), BLKN_ROOT);
    assert BLKN_ROOT in EmptyState(blocks).inodeChains[0];
  }

  lemma EmptyWalk(blocks: nat, files: map<nat, seq<int>>, kinds: map<nat, Kind>)
    requires 0 !in kinds
    ensures WalkOk(EmptyState(blocks), map[], files, kinds) && DirsIn(EmptyState(blocks), {})
    ensures Contents(EmptyState(blocks), BLKN_ROOT) == [] && Made(EmptyState(blocks)) == Census({}, 1, 0)
  {
    var s := EmptyState(blocks);
    assert OfKind(s, KFile) == {} && OfKind(s, KDir) == {BLKN_ROOT} && OfKind(s, KLink) == {};
    assert Naming(map[], BLKN_ROOT) == {};
  }

  /** create_sfs. An image file without room for one block beside the bitmap ends the program. */
  method CreateSfs(imgBytes: nat) returns (r: Option<Builder>)
    ensures r.None? <==> FirstIno(UsedBlocks(imgBytes)) >= UsedBlocks(imgBytes)
    ensures r.Some? ==> fresh(r.value) && r.value.ninos == UsedBlocks(imgBytes) && r.value.Valid()
                        && r.value.Now() == EmptyState(UsedBlocks(imgBytes)) && r.value.done == map[]
  {
    hide Inv, Hash32;
    var blocks := imgBytes / BLKSIZE % 0x1_0000_0000;
    if blocks > MAX_NBLKS {
      blocks := MAX_NBLKS;
    }
    if FirstIno(blocks) >= blocks {
      return None;
    }
    EmptyInv(blocks);
    var sfs := new Builder(blocks);
    var root := sfs.AllocCacheInode(0, BLKN_ROOT, KDir);
    assert [BLKN_ROOT] + NoChains()[Hash64(0)] == [BLKN_ROOT];
    r := Some(sfs);
  }

  // ----- the bitmap -----

  lemma OrPlaces(words: seq<nat>, j: nat, i: nat)
    requires j / 32 < |words| && i < BLKBITS
    ensures var w: nat := Or(words[j / 32], Pow2(j % 32)); var words': seq<nat> := words[j / 32 := w];
            BitAt(words', i) <==> BitAt(words, i) || i == j
  {
    if i / 32 == j / 32 {
      BitOfOr(words[j / 32], Pow2(j % 32), i % 32);
      BitOfPow2(j % 32, i % 32);
    }
  }

  lemma SetNext(words: seq<nat>, lo: nat, j: nat)
    requires |words| == 1024 && lo <= j < BLKBITS && BitsSet(words, lo, j)
    ensures var w: nat := Or(words[j / 32], Pow2(j % 32)); BitsSet(words[j / 32 := w], lo, j + 1)
  {
    var w: nat := Or(words[j / 32], Pow2(j % 32));
    var words': seq<nat> := words[j / 32 := w];
    forall i: nat | i < BLKBITS ensures BitAt(words', i) <==> lo <= i < j + 1 { OrPlaces(words, j, i); }
  }

  /** One block of the bitmap: the bits of the free blocks among the 32768 from i on. */
  method FillBitmap(i: nat, nextIno: nat, ninos: nat) returns (words: seq<nat>)
    requires nextIno <= ninos && i < ninos
    ensures |words| == 1024 && BitsSet(words, nextIno - i, ninos - i)
  {
    var buffer := new nat[1024](_ => 0);
    forall j: nat | j < BLKBITS ensures !BitAt(buffer[..], j) { BitOfZero(j % 32); }
    if i + BLKBITS > nextIno {
      var start, end := 0, BLKBITS;
      if i < nextIno {
        start := nextIno - i;
      }
      if i + BLKBITS > ninos {
        end := ninos - i;
      }
      var j := start;
      while j < end
        invariant start <= j <= end && BitsSet(buffer[..], start, j)
      {
        SetNext(buffer[..], start, j);
        ghost var before := buffer[..];
        buffer[j / 32] := Or(buffer[j / 32], Pow2(j % 32));
        assert buffer[..] == before[j / 32 := Or(before[j / 32], Pow2(j % 32))];
        j := j + 1;
      }
    }
    words := buffer[..];
  }

  // ----- closing -----

  /** write_block, whose assertion is that the block lies in the image. */
  method WriteBlock(sfs: Builder, content: Content, ino: nat)
    requires ino < sfs.ninos
    modifies sfs`image
    ensures sfs.image == old(sfs.image)[ino := content]
  {
    sfs.image := sfs.image[ino := content];
  }

  /** Disk e is disk d with the bitmap blocks before block k written, none of which was in use. */
  ghost predicate Mapped(s: State, d: map<nat, Content>, e: map<nat, Content>, k: nat) {
    && (forall b: nat :: b in e <==> b in d || BLKN_FREEMAP <= b < BLKN_FREEMAP + k)
    && (forall b | b in d :: e[b] == d[b])
    && (forall i: nat | i < k :: MapBlockOk(s, e, i))
  }

  lemma MappedNext(s: State, d: map<nat, Content>, e: map<nat, Content>, k: nat, words: seq<nat>)
    requires Mapped(s, d, e, k) && BLKN_FREEMAP + k !in d
    requires BitsSet(words, s.nextIno - k * BLKBITS, s.ninos - k * BLKBITS)
    ensures Mapped(s, d, e[BLKN_FREEMAP + k := Bitmap(words)], k + 1)
  {
    hide BitsSet;
    var e' := e[BLKN_FREEMAP + k := Bitmap(words)];
    forall i: nat | i < k + 1 ensures MapBlockOk(s, e', i) {
      assert i < k ==> MapBlockOk(s, e, i);
    }
  }

  /** The loop of close_sfs over the blocks of the bitmap. */
  method WriteBitmap(sfs: Builder)
    requires sfs.nextIno <= sfs.ninos && FirstIno(sfs.ninos) <= sfs.ninos
    requires forall b | BLKN_FREEMAP <= b < FirstIno(sfs.ninos) :: b !in sfs.image
    modifies sfs`image
    ensures Mapped(old(sfs.Now()), old(sfs.image), sfs.image, BitmapBlocks(sfs.ninos))
  {
    hide BitsSet, MapBlockOk;
    ghost var s, k := sfs.Now(), 0;
    var i, ino := 0, BLKN_FREEMAP;
    while i < sfs.ninos
      invariant i == k * BLKBITS && ino == BLKN_FREEMAP + k && k <= BitmapBlocks(sfs.ninos)
      invariant Mapped(s, s.image, sfs.image, k)
    {
      var words := FillBitmap(i, sfs.nextIno, sfs.ninos);
      MappedNext(s, s.image, sfs.image, k, words);
      WriteBlock(sfs, Bitmap(words), ino);
      ino, i := ino + 1, i + BLKBITS;
      k := k + 1;
    }
  }

  /** Disk e is disk d with the blocks of fs flushed from the caches of s. */
  ghost predicate FlushedTo(s: State, d: map<nat, Content>, e: map<nat, Content>, fs: set<nat>) {
    && e.Keys == d.Keys + fs
    && (forall b | b in fs :: e[b] == Flushed(s, b))
    && (forall b | b in d && b !in fs :: e[b] == d[b])
  }

  method FlushBlocks(sfs: Builder, chain: seq<nat>, ghost s: State)
    requires sfs.caches == s.caches && forall b | b in chain :: b in sfs.caches && b < sfs.ninos
    modifies sfs`image
    ensures FlushedTo(s, old(sfs.image), sfs.image, Elems(chain))
  {
    var k := 0;
    while k < |chain|
      invariant k <= |chain| && FlushedTo(s, old(sfs.image), sfs.image, Elems(chain[..k]))
    {
      assert chain[..k + 1] == chain[..k] + [chain[k]];
      WriteBlock(sfs, Pointers(sfs.caches[chain[k]]), chain[k]);
      k := k + 1;
    }
    assert chain[..k] == chain;
  }

  method FlushInodes(sfs: Builder, chain: seq<nat>, ghost s: State)
    requires sfs.caches == s.caches && sfs.inodes == s.inodes
    requires forall f | f in chain :: f in sfs.inodes && f !in sfs.caches && f < sfs.ninos
    modifies sfs`image
    ensures FlushedTo(s, old(sfs.image), sfs.image, Elems(chain))
  {
    var k := 0;
    while k < |chain|
      invariant k <= |chain| && FlushedTo(s, old(sfs.image), sfs.image, Elems(chain[..k]))
    {
      assert chain[..k + 1] == chain[..k] + [chain[k]];
      WriteBlock(sfs, InodeBlock(OnDisk(sfs.inodes[chain[k]])), chain[k]);
      k := k + 1;
    }
    assert chain[..k] == chain;
  }

  lemma FlushedMore(s: State, d: map<nat, Content>, e: map<nat, Content>, e': map<nat, Content>, fs: set<nat>,
      gs: set<nat>)
    requires FlushedTo(s, d, e, fs) && FlushedTo(s, e, e', gs)
    ensures FlushedTo(s, d, e', fs + gs)
  {
  }

  /** What the first h hash chains hold. */
  ghost function Chained(s: State, h: nat): set<nat>
    requires |s.blockChains| == |s.inodeChains| == HASH_LIST_SIZE && h <= HASH_LIST_SIZE
  {
    if h == 0 then {} else Chained(s, h - 1) + Elems(s.blockChains[h - 1]) + Elems(s.inodeChains[h - 1])
  }

  lemma {:induction false} ChainedHas(s: State, h: nat, i: nat)
    requires |s.blockChains| == |s.inodeChains| == HASH_LIST_SIZE && i < h <= HASH_LIST_SIZE
    ensures Elems(s.blockChains[i]) + Elems(s.inodeChains[i]) <= Chained(s, h)
  {
    if i < h - 1 { ChainedHas(s, h - 1, i); }
  }

  lemma {:induction false} ChainedOnly(s: State, h: nat)
    requires InodeChainsOk(s) && BlockChainsOk(s) && h <= HASH_LIST_SIZE
    ensures Chained(s, h) <= s.caches.Keys + s.inodes.Keys
  {
    hide Hash32;
    HashZero();
    if h > 0 { ChainedOnly(s, h - 1); }
  }

  /** The chains hold every inode and every pointer block. */
  lemma ChainedAll(s: State)
    requires InodeChainsOk(s) && BlockChainsOk(s)
    ensures Chained(s, HASH_LIST_SIZE) == s.caches.Keys + s.inodes.Keys
  {
    hide Hash32;
    HashZero();
    ChainedOnly(s, HASH_LIST_SIZE);
    ChainedHas(s, HASH_LIST_SIZE, 0);
    forall f | f in s.inodes ensures f in Chained(s, HASH_LIST_SIZE) {
      ChainedHas(s, HASH_LIST_SIZE, Hash64(s.inodes[f].hostIno));
    }
  }

  lemma ChainInUse(s: State, h: nat)
    requires Inv(s) && h < HASH_LIST_SIZE
    ensures |s.blockChains| == |s.inodeChains| == HASH_LIST_SIZE
    ensures forall b | b in s.blockChains[h] :: b in s.caches && b < s.ninos
    ensures forall f | f in s.inodeChains[h] :: f in s.inodes && f !in s.caches && f < s.ninos
  {
    hide FilesOk, OwnersOk, LinksOk, Hash32;
    HashZero();
    forall f | f in s.inodes ensures f < s.ninos && f !in s.caches {
      assert f == BLKN_ROOT || IsInode(s, f);
      assert f in s.inodes.Keys;
    }
    forall b | b in s.caches ensures b < s.ninos { assert FirstIno(s.ninos) <= b < s.nextIno; }
  }

  /** The loops of close_sfs over the hash chains; s is the state when the walk ended. */
  method FlushCaches(sfs: Builder, ghost s: State)
    requires Inv(s) && sfs.Now() == s.(image := sfs.image)
    modifies sfs`image
    ensures FlushedTo(s, old(sfs.image), sfs.image, s.caches.Keys + s.inodes.Keys)
  {
    hide Inv, Hash32, FlushedTo, Elems;
    ghost var d := sfs.image;
    ChainInUse(s, 0);
    NothingFlushed(s, d);
    var i := 0;
    while i < HASH_LIST_SIZE
      invariant i <= HASH_LIST_SIZE && FlushedTo(s, d, sfs.image, Chained(s, i))
    {
      ChainInUse(s, i);
      ghost var e := sfs.image;
      FlushBlocks(sfs, sfs.blockChains[i], s);
      ghost var e' := sfs.image;
      FlushInodes(sfs, sfs.inodeChains[i], s);
      FlushedMore(s, d, e, e', Chained(s, i), Elems(s.blockChains[i]));
      FlushedMore(s, d, e', sfs.image, Chained(s, i) + Elems(s.blockChains[i]), Elems(s.inodeChains[i]));
      i := i + 1;
    }
    AllChained(s);
  }

  lemma NothingFlushed(s: State, d: map<nat, Content>)
    ensures FlushedTo(s, d, d, {})
  {
  }

  lemma AllChained(s: State)
    requires Inv(s)
    ensures |s.blockChains| == |s.inodeChains| == HASH_LIST_SIZE
    ensures Chained(s, HASH_LIST_SIZE) == s.caches.Keys + s.inodes.Keys
  {
    ChainedAll(s);
  }

  /** Bitmap blocks, superblock, caches and the blocks of the walk fill the numbers below nextIno, none twice. */
  lemma AllWritten(s: State, d: map<nat, Content>, e: map<nat, Content>)
    requires RolesOk(s) && Mapped(s, s.image, d, BitmapBlocks(s.ninos))
    requires FlushedTo(s, d[BLKN_SUPER := Super(s.ninos, s.ninos - s.nextIno)], e, s.caches.Keys + s.inodes.Keys)
    ensures Closed(s, e)
  {
    hide BitsSet, OnDisk;
    forall b: nat ensures b in e <==> b < s.nextIno {
      assert IsInode(s, b) || b in s.caches || b in s.image <==> FirstIno(s.ninos) <= b < s.nextIno;
    }
    forall b: nat | b < FirstIno(s.ninos) && b != BLKN_ROOT ensures b !in s.caches && b !in s.inodes && b !in s.image {
      assert !IsInode(s, b);
    }
    forall k: nat | k < BitmapBlocks(s.ninos) ensures MapBlockOk(s, e, k) {
      assert MapBlockOk(s, d, k);
    }
  }

  /** close_sfs. */
  method CloseSfs(sfs: Builder)
    requires sfs.Valid()
    modifies sfs`image
    ensures Closed(old(sfs.Now()), sfs.image)
  {
    hide Inv, FlushedTo, Mapped, Closed;
    ghost var s := sfs.Now();
    InUse(s);
    WriteBitmap(sfs);
    ghost var d := sfs.image;
    WriteBlock(sfs, Super(sfs.ninos, sfs.unused), BLKN_SUPER);
    FlushCaches(sfs, s);
    AllWritten(s, d, sfs.image);
  }

  lemma InUse(s: State)
    requires Inv(s)
    ensures RolesOk(s) && 0 < s.nextIno <= s.ninos && FirstIno(s.ninos) <= s.ninos
    ensures forall b | BLKN_FREEMAP <= b < FirstIno(s.ninos) :: b !in s.image
  {
  }

  /** The image represents a host directory: every inode in done reads back from the image as done says, no two
      were made for one regular file, and by done, block 1 is the inode of a directory that represents the items. */
  ghost predicate Represents(disk: map<nat, Content>, done: map<nat, Shape>, items: seq<Item>) {
    && (forall f | f in done :: Reads(disk, f, done[f]))
    && OneEach(done)
    && BLKN_ROOT in done && RepDir(done, items, done[BLKN_ROOT], BLKN_ROOT, BLKN_ROOT)
  }

  /** Link counts are the numbers of entries, as many bits of the bitmap are set as are unused, the inodes are the
      root and one for every directory, every link and every different file of the host, and the blocks used are
      those the inodes and their block counts require. */
  ghost predicate Balanced(s: State, disk: map<nat, Content>, items: seq<Item>) {
    && (forall f | f in s.inodes ::
          f in disk && disk[f].InodeBlock? && disk[f].node.nlinks == |Naming(disk, f)| % 0x1_0000)
    && BLKN_SUPER in disk && disk[BLKN_SUPER].Super? && |FreeSet(disk, s.ninos)| == disk[BLKN_SUPER].unused
    && s.listed.Keys == s.inodes.Keys
    && (var c := ItemsCensus(items); |s.inodes| == 1 + c.dirs + c.links + |c.files|)
    && s.nextIno - FirstIno(s.ninos) == |s.inodes| - 1 + Taken(s.listed, s.inodes.Keys)
  }

  /** What a reader of the closed image finds in directory ino: the entries of the directory itself and its parent,
      and then, in the order of the host, one for every item whose name starts with no dot and that is a file, a
      directory or a link, and no other: no name read from the third entry on starts with a dot. */
  lemma DirectoryRead(disk: map<nat, Content>, done: map<nat, Shape>, root: seq<Item>, items: seq<Item>, ino: nat,
                      parent: nat) returns (of: seq<nat>)
    requires Represents(disk, done, root) && ino in done && RepDir(done, items, done[ino], ino, parent)
    ensures ino in disk && disk[ino].InodeBlock? && |DiskBlocks(disk, disk[ino].node)| >= 2
    ensures var b := DiskBlocks(disk, disk[ino].node);
            && NameOf(b[0]) == "." && InoOf(b[0]) == ino && NameOf(b[1]) == ".." && InoOf(b[1]) == parent
            && EntriesFor(done, items, b[2..], ino, of)
            && forall k | 2 <= k < |b| :: !(|NameOf(b[k])| > 0 && NameOf(b[k])[0] == '.')
  {
    hide RepEntries, Rep, DiskBlocks, OneEach, NameOf;
    assert Reads(disk, ino, done[ino]);
    var b := DiskBlocks(disk, disk[ino].node);
    of := KeptFrom(items, 0);
    EntriesRead(done, items, b[2..], ino);
    forall k | 2 <= k < |b| ensures !(|NameOf(b[k])| > 0 && NameOf(b[k])[0] == '.') {
      assert b[2..][k - 2] == b[k] && EntryFor(done, b[k], items[of[k - 2]], ino);
    }
  }

  /** create_img, with the host directory as a value. It does not get past an image file that is too small, or a
      name or link target that is too long, and otherwise fails only when the image is full or a file too big. */
  method CreateImg(imgBytes: nat, items: seq<Item>, ghost files: map<nat, seq<int>>, ghost kinds: map<nat, Kind>)
    returns (ok: bool, r: Option<Builder>, ghost walked: State)
    requires ItemsOk(items, files, kinds) && DistinctItemDirs(items) && 0 !in kinds
    ensures r.None? <==> FirstIno(UsedBlocks(imgBytes)) >= UsedBlocks(imgBytes)
    ensures !ok ==> r.None? || r.value.Stuck() || !ItemsFit(items)
    ensures ok ==> ItemsFit(items)
    ensures ok ==> r.Some? && fresh(r.value) && r.value.ninos == UsedBlocks(imgBytes)
    ensures ok ==> Closed(walked, r.value.image) && walked.ninos == r.value.ninos && walked.nextIno == r.value.nextIno
    ensures ok ==> Represents(r.value.image, r.value.done, items) && Balanced(walked, r.value.image, items)
  {
    hide Inv, Hash32, WalkOk, DirsIn, Closed, Represents, Balanced, Contents, DirOpened, Made, ItemsCensus, ItemsFit;
    ok := false;
    walked := EmptyState(UsedBlocks(imgBytes));
    r := CreateSfs(imgBytes);
    if r.None? {
      return;
    }
    var sfs := r.value;
    EmptyWalk(sfs.ninos, files, kinds);
    ok := OpenDir(sfs, items, BLKN_ROOT, BLKN_ROOT, files, kinds, {});
    if !ok {
      return;
    }
    walked := sfs.Now();
    Finish(sfs, items, files, kinds);
  }

  /** What create_img does after the walk. */
  method Finish(sfs: Builder, ghost items: seq<Item>, ghost files: map<nat, seq<int>>, ghost kinds: map<nat, Kind>)
    requires sfs.Valid() && WalkOk(sfs.Now(), sfs.done, files, kinds)
    requires DirOpened(EmptyState(sfs.ninos), map[], sfs.Now(), sfs.done, items, BLKN_ROOT, BLKN_ROOT)
    requires Made(sfs.Now()) == Census({}, 1, 0).Plus(ItemsCensus(items))
    modifies sfs`image, sfs`done
    ensures Closed(old(sfs.Now()), sfs.image)
    ensures Represents(sfs.image, sfs.done, items) && Balanced(old(sfs.Now()), sfs.image, items)
  {
    hide Inv, WalkOk, Closed, Represents, Balanced, Contents, DirOpened, DoneOk, Made, ItemsCensus, Subdirs, RepDir;
    ghost var s := sfs.Now();
    RootDone(EmptyState(sfs.ninos), s, sfs.done, items, files, kinds);
    sfs.done := sfs.done[BLKN_ROOT := DirShape(s, BLKN_ROOT, items)];
    CloseSfs(sfs);
    ImageDone(s, sfs.image, sfs.done, items, files, kinds);
  }

  lemma RootDone(s: State, t: State, done: map<nat, Shape>, items: seq<Item>, files: map<nat, seq<int>>,
      kinds: map<nat, Kind>)
    requires s == EmptyState(t.ninos) && DirOpened(s, map[], t, done, items, BLKN_ROOT, BLKN_ROOT)
             && WalkOk(t, done, files, kinds)
    ensures BLKN_ROOT in t.inodes && BLKN_ROOT in t.listed && NamedOk(t) && AllListed(t)
    ensures var done' := done[BLKN_ROOT := DirShape(t, BLKN_ROOT, items)];
            && DoneOk(t, done') && KnownOk(t, done', files, kinds)
            && RepDir(done', items, done'[BLKN_ROOT], BLKN_ROOT, BLKN_ROOT)
  {
    hide Contents, NamedOk, AllListed, Hash32;
    var shape := DirShape(t, BLKN_ROOT, items);
    assert BLKN_ROOT !in done;
    KnownMore(t, BLKN_ROOT, shape, done, files, kinds);
    EntriesGrow(done, done[BLKN_ROOT := shape], items, shape.blocks[2..], BLKN_ROOT);
    FinishedAdd(t, done, BLKN_ROOT, shape);
  }

  lemma ImageDone(s: State, disk: map<nat, Content>, done: map<nat, Shape>, items: seq<Item>,
                  files: map<nat, seq<int>>, kinds: map<nat, Kind>)
    requires KnownOk(s, done, files, kinds) && Made(s) == Census({}, 1, 0).Plus(ItemsCensus(items))
    requires Inv(s) && NamedOk(s) && AllListed(s) && DoneOk(s, done) && Closed(s, disk)
    requires BLKN_ROOT in done && RepDir(done, items, done[BLKN_ROOT], BLKN_ROOT, BLKN_ROOT)
    ensures Represents(disk, done, items) && Balanced(s, disk, items)
  {
    hide Inv, NamedOk, AllListed, DoneOk, Closed, RepDir, Reads, KnownOk, Made, ItemsCensus, OneEach;
    FilesShared(s, done, files, kinds);
    InodeCount(s, done, files, kinds);
    assert Made(s).files == ItemsCensus(items).files;
    forall f | f in done ensures Reads(disk, f, done[f]) { ReadsBack(s, disk, done, f); }
    forall f | f in s.inodes
      ensures f in disk && disk[f].InodeBlock? && disk[f].node.nlinks == |Naming(disk, f)| % 0x1_0000
    {
      LinkCounts(s, disk, f);
    }
    FreeCount(s, disk);
    Accounts(s);
  }
}
