/** The image builder: block allocation, the block map and the hash chains, updated in place. */
module Sfs {
  import opened Wrappers
  import opened SfsFile
  import opened SfsState
  import opened SfsEntry
  import opened SfsTree
  import opened SfsWalk

  class Builder {
    const ninos: nat
    var nextIno: nat
    var unused: nat                   // super.unused_blocks
    var inodes: map<nat, Inode>       // the cached inodes, by inode number
    var caches: Caches                // the cached pointer blocks, by block number
    var inodeChains: seq<seq<nat>>
    var blockChains: seq<seq<nat>>
    var image: map<nat, Content>      // the blocks written so far
    var entry: EntryBuffer            // the static buffer of add_entry
    ghost var listed: map<nat, seq<nat>>
    ghost var own: map<nat, seq<nat>>
    ghost var owner: map<nat, nat>
    ghost var named: map<nat, nat>
    ghost var done: map<nat, Shape>   // the inodes the walk has finished with
    ghost var searches: nat           // how often update_cache had to search

    /** create_sfs, before it makes the root inode. */
    constructor (blocks: nat)
      requires FirstIno(blocks) < blocks <= MAX_NBLKS
      ensures ninos == blocks && nextIno == FirstIno(blocks) && unused == ninos - nextIno && searches == 0
      ensures inodes == map[] && caches == map[] && image == map[] && owner == map[] && done == map[]
      ensures listed == map[] && own == map[] && named == map[]
      ensures inodeChains == NoChains() && blockChains == NoChains()
    {
      ninos, nextIno, unused := blocks, FirstIno(blocks), blocks - FirstIno(blocks);
      inodes, caches, image := map[], map[], map[];
      inodeChains, blockChains := NoChains(), NoChains();
      entry := Nuls(260);
      listed, own, owner, named, done, searches := map[], map[], map[], map[], map[], 0;
    }

    ghost function Now(): State
      reads this
    {
      State(ninos, nextIno, inodes, caches, image, inodeChains, blockChains, listed, own, owner, named)
    }

    ghost predicate Valid()
      reads this
    {
      Inv(Now()) && unused == ninos - nextIno && searches == 0
    }

    /** The two ways in which a block cannot be added: the image is full, or a file is as big as a file can be. */
    ghost predicate Stuck()
      reads this
    {
      nextIno >= ninos || exists f :: f in listed && |listed[f]| >= LN_NBLKS
    }

    /** sfs_alloc_ino; running out of space ends the program. */
    method AllocIno() returns (r: Option<nat>)
      requires nextIno <= ninos && unused == ninos - nextIno
      modifies this`nextIno, this`unused
      ensures r == if old(nextIno) < ninos then Some(old(nextIno)) else None
      ensures nextIno == old(nextIno) + (if r.Some? then 1 else 0) && nextIno <= ninos && unused == ninos - nextIno
    {
      if nextIno < ninos {
        unused := unused - 1;
        r := Some(nextIno);
        nextIno := nextIno + 1;
      } else {
        r := None;
      }
    }

    /** alloc_cache_block. The chain is chosen by the parameter, which is 0 when a number is allocated. */
    method AllocCacheBlock(ino: nat) returns (r: Option<nat>)
      requires nextIno <= ninos && unused == ninos - nextIno && |blockChains| == HASH_LIST_SIZE
      modifies this`nextIno, this`unused, this`caches, this`blockChains
      ensures nextIno <= ninos && unused == ninos - nextIno
      ensures r == if ino != 0 then Some(ino) else if old(nextIno) < ninos then Some(old(nextIno)) else None
      ensures r.None? ==> nextIno == ninos
      ensures r.Some? ==>
                && nextIno == old(nextIno) + (if ino == 0 then 1 else 0)
                && caches == old(caches)[r.value := ZEROS]
                && blockChains == old(blockChains)[Hash32(ino) := [r.value] + old(blockChains)[Hash32(ino)]]
    {
      var n: nat := ino;
      if ino == 0 {
        n :- AllocIno();
      }
      caches := caches[n := ZEROS];
      blockChains := blockChains[Hash32(ino) := [n] + blockChains[Hash32(ino)]];
      r := Some(n);
    }

    /** alloc_cache_inode. */
    method AllocCacheInode(hostIno: nat, ino: nat, kind: Kind) returns (r: Option<nat>)
      requires nextIno <= ninos && unused == ninos - nextIno && |inodeChains| == HASH_LIST_SIZE
      modifies this`nextIno, this`unused, this`inodes, this`inodeChains, this`listed, this`own, this`named
      ensures nextIno <= ninos && unused == ninos - nextIno
      ensures r == if ino != 0 then Some(ino) else if old(nextIno) < ninos then Some(old(nextIno)) else None
      ensures r.None? ==> nextIno == ninos
      ensures r.Some? ==>
                && nextIno == old(nextIno) + (if ino == 0 then 1 else 0)
                && inodes == old(inodes)[r.value := FreshInode(kind, hostIno)]
                && inodeChains == old(inodeChains)[Hash64(hostIno) := [r.value] + old(inodeChains)[Hash64(hostIno)]]
                && listed == old(listed)[r.value := []] && own == old(own)[r.value := []]
                    && named == old(named)[r.value := 0]
    {
      hide Hash32;
      var n: nat := ino;
      if ino == 0 {
        n :- AllocIno();
      }
      inodes := inodes[n := FreshInode(kind, hostIno)];
      listed, own, named := listed[n := []], own[n := []], named[n := 0];
      inodeChains := inodeChains[Hash64(hostIno) := [n] + inodeChains[Hash64(hostIno)]];
      r := Some(n);
    }

    /** search_cache_inode. */
    method SearchCacheInode(hostIno: nat) returns (r: Option<nat>)
      requires InodeChainsOk(Now())
      ensures r.Some? ==> r.value in inodes && inodes[r.value].hostIno == hostIno
      ensures r.None? ==> forall f | f in inodes :: inodes[f].hostIno != hostIno
    {
      hide Hash32;
      var chain := inodeChains[Hash64(hostIno)];
      var k := 0;
      while k < |chain| && inodes[chain[k]].hostIno != hostIno
        invariant k <= |chain| && forall f | f in chain[..k] :: f in inodes && inodes[f].hostIno != hostIno
      {
        k := k + 1;
      }
      r := if k < |chain| then Some(chain[k]) else None;
    }

    /** search_cache_block: along the chain of the number itself. */
    method SearchCacheBlock(ino: nat) returns (r: Option<nat>)
      requires |blockChains| == HASH_LIST_SIZE
      ensures r == if ino in blockChains[Hash32(ino)] then Some(ino) else None
    {
      var chain := blockChains[Hash32(ino)];
      var k := 0;
      while k < |chain| && chain[k] != ino
        invariant k <= |chain| && ino !in chain[..k]
      {
        k := k + 1;
      }
      r := if k < |chain| then Some(chain[k]) else None;
    }

    /** update_cache: cb is the cursor, ino the block number it should stand at, 0 for none yet. The result is
        the new value of both. The assertion on the third way, the search, fails when it finds nothing. */
    method UpdateCache(cb: nat, ino: nat) returns (r: Option<nat>)
      requires nextIno <= ninos && unused == ninos - nextIno && |blockChains| == HASH_LIST_SIZE
      modifies this`nextIno, this`unused, this`caches, this`blockChains, this`searches
      ensures nextIno <= ninos && unused == ninos - nextIno
      ensures searches == old(searches) + if ino != 0 && cb != ino then 1 else 0
      ensures ino == 0 ==> r == if old(nextIno) < ninos then Some(old(nextIno)) else None
      ensures ino == 0 && r.None? ==> nextIno == ninos
      ensures ino == 0 && r.Some? ==>
                && nextIno == old(nextIno) + 1 && caches == old(caches)[r.value := ZEROS]
                && blockChains == Chained(old(blockChains), [r.value])
      ensures ino != 0 ==> nextIno == old(nextIno) && caches == old(caches) && blockChains == old(blockChains)
      ensures ino != 0 && cb == ino ==> r == Some(cb)
      ensures ino != 0 && cb != ino ==> r == if ino in blockChains[Hash32(ino)] then Some(ino) else None
    {
      if ino == 0 {
        HashZero();
        r := AllocCacheBlock(0);
      } else if cb == 0 || cb != ino {
        searches := searches + 1;
        r := SearchCacheBlock(ino);
      } else {
        r := Some(cb);
      }
    }

    ghost predicate Counted()
      reads this
    {
      nextIno <= ninos && unused == ninos - nextIno && |blockChains| == HASH_LIST_SIZE && searches == 0
      && 0 < nextIno && forall c | c in caches :: c < nextIno
    }

    /** Only pointer blocks of the file were written, and added lists the new ones. */
    twostate predicate Extended(own: seq<nat>, new added: seq<nat>)
      reads this
    {
      && Counted()
      && nextIno == old(nextIno) + |added| && blockChains == Chained(old(blockChains), added)
      && (forall k | 0 <= k < |added| :: added[k] == old(nextIno) + k)
      && caches.Keys == old(caches).Keys + (set c | c in added)
      && (forall c | c in old(caches) && c !in own :: caches[c] == old(caches)[c])
    }

    /** append_block through the indirect block. */
    method MapIndirect(node: Inode, b: nat, ghost list: seq<nat>, ghost own: seq<nat>)
      returns (r: Option<Inode>, ghost added: seq<nat>)
      requires Counted() && FileOk(node, caches, list, own) && NDIRECT <= |list| < L1_NBLKS
      modifies this`nextIno, this`unused, this`caches, this`blockChains, this`searches
      ensures r.Some? ==> FileOk(r.value.(nblks := |list| + 1), caches, list + [b], own + added) && Extended(own, added)
      ensures r.Some? ==> r.value == node.(indirect := r.value.indirect, l1 := r.value.l1)
      ensures r.None? ==> nextIno == ninos
    {
      hide FileOk;
      var n := node.nblks - NDIRECT;
      Blocks(node, caches, list, own);
      if |list| == NDIRECT {
        added := [nextIno];
        AppendFirstIndirect(node, caches, list, own, b, nextIno);
      } else {
        added := [];
        AppendIndirect(node, caches, list, own, b);
      }
      var cb := UpdateCache(node.l1, node.indirect);
      if cb.None? {
        return None, [];
      }
      caches := Put(caches, cb.value, n, b);
      assert |list| == NDIRECT ==> caches == old(caches)[cb.value := ZEROS[0 := b]];
      r := Some(node.(indirect := cb.value).(l1 := cb.value));
      assert own + added == if |list| == NDIRECT then [cb.value] else own;
    }

    /** The cursors of the double-indirect stage stand at the blocks they should stand at, or those do not exist yet. */
    ghost predicate CursorsStand(node: Inode)
      requires node.nblks >= L1_NBLKS
      reads this
    {
      var n := node.nblks - L1_NBLKS;
      var leaf := Slot(caches, node.dbIndirect, n / 1024);
      && (node.dbIndirect == 0 ==> n == 0)
      && (node.dbIndirect != 0 ==> node.l2 == node.dbIndirect && PtrBlock(caches, node.dbIndirect)
                                   && n < NENTRY * NENTRY)
      && (node.dbIndirect != 0 && leaf != 0 ==> node.l1 == leaf && PtrBlock(caches, leaf) && leaf != node.dbIndirect)
    }

    /** append_block through the double-indirect block. The cursor l1 is shared with the indirect stage. */
    method DoubleStage(node: Inode, b: nat) returns (r: Option<Inode>, ghost added: seq<nat>)
      requires Counted() && node.nblks >= L1_NBLKS && CursorsStand(node)
      modifies this`nextIno, this`unused, this`caches, this`blockChains, this`searches
      ensures r.None? ==> nextIno == ninos
      ensures r.Some? ==> Counted() && nextIno == old(nextIno) + |added|
                          && blockChains == Chained(old(blockChains), added)
      ensures r.Some? ==>
                var n, N := node.nblks - L1_NBLKS, old(nextIno);
                if node.dbIndirect == 0 then
                  && added == [N, N + 1] && r.value == node.(dbIndirect := N).(l2 := N).(l1 := N + 1)
                  && caches == old(caches)[N := ZEROS[0 := N + 1]][N + 1 := ZEROS[0 := b]]
                else if Slot(old(caches), node.dbIndirect, n / 1024) == 0 then
                  && added == [N] && r.value == node.(l1 := N)
                  && caches == Put(old(caches), node.dbIndirect, n / 1024, N)[N := ZEROS[n % 1024 := b]]
                else
                  && added == [] && r.value == node && caches == Put(old(caches), node.l1, n % 1024, b)
    {
      hide Chained;
      var n := node.nblks - L1_NBLKS;
      added := [];
      DoubleChained(blockChains, nextIno);
      var cb2 := UpdateCache(node.l2, node.dbIndirect);
      if cb2.None? {
        return None, [];
      }
      var q := cb2.value;
      if node.dbIndirect == 0 { added := [q]; }
      var cb1 := UpdateCache(node.l1, caches[q][n / NENTRY]);
      if cb1.None? {
        return None, [];
      }
      if caches[q][n / NENTRY] == 0 {
        added := if node.dbIndirect == 0 then [q, cb1.value] else [cb1.value];
      } else {
        PutSame(caches, q, n / NENTRY);
      }
      caches := Put(caches, q, n / NENTRY, cb1.value);
      caches := Put(caches, cb1.value, n % NENTRY, b);
      r := Some(node.(dbIndirect := q).(l2 := q).(l1 := cb1.value));
    }

    method MapDouble(node: Inode, b: nat, ghost list: seq<nat>, ghost own: seq<nat>)
      returns (r: Option<Inode>, ghost added: seq<nat>)
      requires Counted() && FileOk(node, caches, list, own) && L1_NBLKS <= |list| < LN_NBLKS
      modifies this`nextIno, this`unused, this`caches, this`blockChains, this`searches
      ensures r.Some? ==> FileOk(r.value.(nblks := |list| + 1), caches, list + [b], own + added) && Extended(own, added)
      ensures r.Some? ==>
                r.value == node.(dbIndirect := r.value.dbIndirect, l1 := r.value.l1, l2 := r.value.l2)
      ensures r.None? ==> nextIno == ninos
    {
      hide FileOk, Chained;
      ghost var m := (|list| - L1_NBLKS) % 1024;
      Blocks(node, caches, list, own);
      if |list| == L1_NBLKS {
        AppendFirstDouble(node, caches, list, own, b, nextIno, nextIno + 1);
      } else if m == 0 {
        AppendFirstInLeaf(node, caches, list, own, b, nextIno);
      } else {
        AppendInLeaf(node, caches, list, own, b);
        assert own + [] == own;
      }
      r, added := DoubleStage(node, b);
    }

    /** The three ways of append_block. None when the file is too big or the image is full. */
    method MapBlock(node: Inode, b: nat, ghost list: seq<nat>, ghost own: seq<nat>)
      returns (r: Option<Inode>, ghost added: seq<nat>)
      requires Counted() && FileOk(node, caches, list, own)
      modifies this`nextIno, this`unused, this`caches, this`blockChains, this`searches
      ensures r.Some? ==> FileOk(r.value.(nblks := |list| + 1), caches, list + [b], own + added) && Extended(own, added)
      ensures r.Some? ==> r.value == node.(direct := r.value.direct, indirect := r.value.indirect,
                                           dbIndirect := r.value.dbIndirect, l1 := r.value.l1, l2 := r.value.l2)
      ensures r.None? ==> nextIno == ninos || |list| >= LN_NBLKS
    {
      hide FileOk;
      Blocks(node, caches, list, own);
      added := [];
      var nblks := node.nblks;
      if nblks >= LN_NBLKS {
        return None, [];
      }
      if nblks < NDIRECT {
        AppendDirect(node, caches, list, own, b);
        assert own + added == own;
        r := Some(node.(direct := node.direct[nblks := b]));
      } else if nblks < L1_NBLKS {
        r, added := MapIndirect(node, b, list, own);
      } else {
        r, added := MapDouble(node, b, list, own);
      }
    }

    /** The block map of file with b added, the new inode not yet stored. */
    method MapFile(file: nat, size: nat, b: nat) returns (r: Option<Inode>, ghost added: seq<nat>)
      requires Counted() && file in inodes && file in listed && file in own
      requires FileOk(inodes[file], caches, listed[file], own[file])
      modifies this`nextIno, this`unused, this`caches, this`blockChains, this`searches
      ensures r.Some? ==> FileOk(r.value, caches, listed[file] + [b], own[file] + added)
      ensures r.Some? ==> Changes(old(Now()), file, caches, own[file] + added, added)
      ensures r.Some? ==> nextIno == old(nextIno) + |added| && blockChains == Chained(old(blockChains), added)
      ensures r.Some? ==> unused == ninos - nextIno && searches == 0
      ensures r.Some? ==> var n, o := r.value, inodes[file];
                          n.kind == o.kind && n.hostIno == o.hostIno && n.nlinks == o.nlinks && n.size == o.size + size
      ensures r.None? ==> Stuck()
    {
      hide FileOk, Chained, PtrBlocks;
      Blocks(inodes[file], caches, listed[file], own[file]);
      var m;
      m, added := MapBlock(inodes[file], b, listed[file], own[file]);
      if m.None? {
        assert nextIno >= ninos || |listed[file]| >= LN_NBLKS;
        return None, [];
      }
      r := Some(m.value.(nblks := m.value.nblks + 1).(size := m.value.size + size));
      SizeFree(m.value.(nblks := |listed[file]| + 1), caches, listed[file] + [b], own[file] + added, r.value.size);
    }

    method AppendMapped(file: nat, size: nat, b: nat) returns (ok: bool, ghost node: Inode, ghost added: seq<nat>)
      requires Valid() && file in inodes && b in image && b !in owner
      modifies this
      ensures ok ==> Valid() && GrownBy(old(Now()), Now(), file, size, b, node, added)
      ensures done == old(done) && entry == old(entry)
      ensures !ok ==> Stuck()
    {
      hide FileOk, Inv, Owned, Chained, PtrBlocks, Changes, Stuck, GrownBy;
      ghost var s := Now();
      Numbered(s);
      FileAt(s, file);
      var m: Option<Inode>;
      m, added := MapFile(file, size, b);
      if m.None? {
        return false, inodes[file], [];
      }
      node := m.value;
      ghost var cs := caches;
      FileGrown(s, file, size, b, node, cs, added);
      StoreFile(s, file, m.value, added, b);
      assert cs == caches;
      ok := true;
    }

    /** The new inode stored; s is the state before append_block. */
    method StoreFile(ghost s: State, file: nat, node: Inode, ghost added: seq<nat>, ghost b: nat)
      requires Inv(s) && file in s.inodes && file in s.listed && file in s.own && b in s.image && b !in s.owner
      requires Changes(s, file, caches, s.own[file] + added, added)
               && FileOk(node, caches, s.listed[file] + [b], s.own[file] + added)
      requires node.nlinks == s.inodes[file].nlinks && node.hostIno == s.inodes[file].hostIno
      requires Now() == s.(nextIno := s.nextIno + |added|, caches := caches,
                           blockChains := Chained(s.blockChains, added))
      requires unused == ninos - nextIno && searches == 0
      modifies this`inodes, this`listed, this`own, this`owner
      ensures Valid() && Now() == Appended(s, file, node, caches, s.own[file] + added, added, b)
    {
      hide FileOk, Inv, Owned, Chained, Changes;
      AppendedKeeps(s, file, node, caches, s.own[file] + added, added, b);
      inodes := inodes[file := node];
      listed := listed[file := listed[file] + [b]];
      own := own[file := own[file] + added];
      owner := Owned(owner, added, file)[b := file];
    }

    /** append_block: block b of the image, holding size bytes, becomes the next block of file. */
    method AppendBlock(file: nat, size: nat, b: nat) returns (ok: bool)
      requires Valid() && file in inodes && size <= BLKSIZE && b in image && b !in owner
      modifies this
      ensures ok ==> Valid() && listed == old(listed)[file := old(listed)[file] + [b]]
      ensures ok ==> inodes.Keys == old(inodes).Keys
      ensures ok ==> forall f | f in inodes && f != file :: inodes[f] == old(inodes)[f]
      ensures ok ==> var n, o := inodes[file], old(inodes)[file];
                     n.kind == o.kind && n.hostIno == o.hostIno && n.nlinks == o.nlinks && n.size == o.size + size
      ensures ok ==> image == old(image) && named == old(named) && inodeChains == old(inodeChains) && done == old(done)
      ensures ok ==> b in owner && owner[b] == file
      ensures ok ==> forall c | c in old(owner) :: c in owner && owner[c] == old(owner)[c]
      ensures ok ==> |own[file]| == PtrBlocks(|listed[file]|)
                     && nextIno == old(nextIno) + |own[file]| - |old(own)[file]|
      ensures entry == old(entry)
      ensures !ok ==> Stuck()
    {
      hide OwnersOk, LinksOk, InodeChainsOk, RolesOk, FilesOk, BlockChainsOk, Owned, Chained, PtrBlocks;
      Numbered(Now());
      ghost var node, added;
      ok, node, added := AppendMapped(file, size, b);
      if ok { OldOwners(old(Now()), file, node, caches, own[file], added, b); }
    }

    /** sfs_alloc_ino followed by write_block; the number passes write_block's assertion. */
    method NewBlock(content: Content) returns (r: Option<nat>)
      requires Valid()
      modifies this`nextIno, this`unused, this`image
      ensures r.Some? ==> Valid() && r.value == old(nextIno) < ninos && Now() == Written(old(Now()), content)
      ensures r.Some? ==> r.value !in old(image) && r.value !in owner && r.value in image
      ensures r.None? ==> Stuck()
    {
      hide FilesOk, OwnersOk, LinksOk, InodeChainsOk, BlockChainsOk;
      var b :- AllocIno();
      WrittenKeeps(old(Now()), content);
      assert b < ninos;
      image := image[b := content];
      r := Some(b);
    }

    /** A new block with this content at the end of cur: sfs_alloc_ino, write_block and append_block. */
    method AppendContent(cur: nat, size: nat, content: Content) returns (ok: bool)
      requires Valid() && AllListed(Now()) && cur in inodes && size <= BLKSIZE
      modifies this
      ensures ok ==> Valid() && AllListed(Now()) && SameBut(old(Now()), Now(), cur) && inodes.Keys == old(inodes).Keys
      ensures ok ==> cur in old(listed) && cur in listed
                     && Contents(Now(), cur) == old(Contents(Now(), cur)) + [content]
      ensures ok ==> inodes[cur].size == old(inodes)[cur].size + size
      ensures ok ==> old(nextIno) !in old(image) && image == Written(old(Now()), content).image
      ensures ok ==> named == old(named) && done == old(done)
      ensures entry == old(entry)
      ensures !ok ==> Stuck()
    {
      hide FileOk, RolesOk, FilesOk, OwnersOk, LinksOk, InodeChainsOk, BlockChainsOk, Contents, PtrBlocks, AllListed,
          SameBut;
      NoZero(Now());
      var b := NewBlock(content);
      if b.None? {
        return false;
      }
      WrittenSame(old(Now()), content);
      SameWeaken(old(Now()), Now(), cur);
      WrittenContents(old(Now()), content, cur);
      label written:
      ok := AppendBlock(cur, size, b.value);
      if ok {
        AppendedSame(old@written(Now()), Now(), cur, b.value, size);
        SameButChains(old(Now()), old@written(Now()), Now(), cur);
        NewListed(old(Now()), content, Now(), cur);
      }
    }

    /** nlinks, a 16-bit counter, goes up by one. */
    method Link(file: nat)
      requires Valid() && file in inodes
      modifies this`inodes, this`named
      ensures file in old(named) && Valid() && Now() == Linked(old(Now()), file)
      ensures named == old(named)[file := old(named)[file] + 1] && inodes.Keys == old(inodes).Keys
      ensures SameBut(old(Now()), Now(), 0) && forall g | g in inodes :: SameInode(old(Now()), Now(), g)
    {
      hide FileOk, RolesOk, FilesOk, OwnersOk, LinksOk, InodeChainsOk, BlockChainsOk, Contents, SameBut;
      NoZero(Now());
      LinkedKeeps(Now(), file);
      LinkedSame(Now(), file);
      named := named[file := named[file] + 1];
      inodes := inodes[file := inodes[file].(nlinks := (inodes[file].nlinks + 1) % 0x1_0000)];
    }

    /** A new inode for a host node. */
    method NewInode(hostIno: nat, kind: Kind) returns (r: Option<nat>)
      requires Valid()
      modifies this`nextIno, this`unused, this`inodes, this`inodeChains, this`listed, this`own, this`named
      ensures r.None? ==> Stuck()
      ensures r.Some? ==>
                && Valid() && r.value == old(nextIno) && Hash64(hostIno) < |old(inodeChains)|
                && Now() == WithInode(old(Now()), r.value, kind, hostIno)
    {
      hide RolesOk, FilesOk, OwnersOk, LinksOk, BlockChainsOk, Hash32;
      Numbered(Now());
      if nextIno < ninos { WithInodeKeeps(Now(), kind, hostIno); }
      r := AllocCacheInode(hostIno, 0, kind);
    }

    /** add_entry. A reader of the block finds the inode number and what an entry keeps of the name, whatever
        the static buffer held; it keeps its tail for the next entry. */
    method AddEntry(cur: nat, file: nat, name: CString) returns (ok: bool)
      requires Valid() && NamedOk(Now()) && AllListed(Now()) && cur in inodes && file in inodes
      requires inodes[cur].kind == KDir && |name| <= MAX_FNAME_LEN
      modifies this
      ensures ok ==> Valid() && NamedOk(Now()) && AllListed(Now()) && SameBut(old(Now()), Now(), cur)
                     && inodes.Keys == old(inodes).Keys
      ensures ok ==> cur in old(listed) && cur in listed
                     && EntryAdded(old(Contents(Now(), cur)), Contents(Now(), cur), file, name)
      ensures entry == Filled(old(entry), file, name)
      ensures ok ==> inodes[cur].size == old(inodes)[cur].size + ENTRY_BYTES
      ensures ok ==> file in old(named) && named == old(named)[file := old(named)[file] + 1] && done == old(done)
      ensures !ok ==> Stuck()
    {
      hide FileOk, Inv, Contents, Naming, NamedOk, AllListed, SameBut, SameInode, Filled, InoOf, IsEntry, EntryAdded;
      ghost var s := Now();
      ghost var content;
      ok, content := WriteEntry(cur, file, name);
      if !ok {
        return;
      }
      ghost var t := Now();
      NoZero(t);
      Link(file);
      EntryLinked(s, t, Now(), cur, file, content);
    }

    /** The entry written and appended, its link not yet counted. */
    method WriteEntry(cur: nat, file: nat, name: CString) returns (ok: bool, ghost content: Content)
      requires Valid() && AllListed(Now()) && cur in inodes && file in inodes && |name| <= MAX_FNAME_LEN
      modifies this
      ensures ok ==> Valid() && AllListed(Now()) && SameBut(old(Now()), Now(), cur) && inodes.Keys == old(inodes).Keys
      ensures ok ==> cur in old(listed) && cur in listed
                     && EntryAdded(old(Contents(Now(), cur)), Contents(Now(), cur), file, name)
      ensures ok ==> inodes[cur].size == old(inodes)[cur].size + ENTRY_BYTES
      ensures ok ==> content.Entry? && InoOf(content) == file
                     && old(nextIno) !in old(image) && image == Written(old(Now()), content).image
      ensures entry == Filled(old(entry), file, name) && (ok ==> done == old(done) && named == old(named))
      ensures !ok ==> Stuck()
    {
      hide FileOk, Inv, Contents, AllListed, SameBut, SameInode, Filled, EntryBlock, InoOf, IsEntry, EntryAdded;
      NoZero(Now());
      EntryMade(Now(), cur, entry, file, name);
      entry := Filled(entry, file, name);
      content := EntryBlock(entry);
      ok := AppendContent(cur, ENTRY_BYTES, EntryBlock(entry));
    }
  }

  lemma EntryMade(s: State, cur: nat, entry: EntryBuffer, file: nat, name: CString)
    requires Inv(s) && cur in s.listed && file in s.inodes && |name| <= MAX_FNAME_LEN
    ensures var content := EntryBlock(Filled(entry, file, name));
            && content.Entry? && InoOf(content) == file
            && EntryAdded(Contents(s, cur), Contents(s, cur) + [content], file, name)
  {
    hide Inv, Contents, Filled, InoOf, NameOf, Stored;
    SmallNumber(s, file);
    EntryReads(entry, file, name);
  }

  /** s before the entry, t with its block, u with the link counted. */
  lemma EntryLinked(s: State, t: State, u: State, cur: nat, file: nat, content: Content)
    requires NamedOk(s) && s.nextIno !in s.image && content.Entry? && InoOf(content) == file && 0 !in t.inodes
    requires AllListed(t) && SameBut(s, t, cur) && t.inodes.Keys == s.inodes.Keys && t.named == s.named
    requires cur in t.inodes && file in t.inodes && file in t.named && t.listed.Keys == t.inodes.Keys
    requires t.image == Written(s, content).image && SameBut(t, u, 0) && u == Linked(t, file)
    requires cur in t.listed
    ensures NamedOk(u) && AllListed(u) && SameBut(s, u, cur) && Contents(u, cur) == Contents(t, cur)
    ensures u.inodes.Keys == s.inodes.Keys && u.inodes[cur].size == t.inodes[cur].size
    ensures u.named == s.named[file := s.named[file] + 1]
  {
    hide Contents, NamedOk, AllListed, SameBut, SameInode, Naming, InoOf;
    SameWeaken(t, u, cur);
    SameButChains(s, t, u, cur);
    EntryCounted(s, Written(s, content), u, file, content);
    StillListed(t, u);
    SameListing(t, u, cur);
  }

  /** Inode numbers fit into the 32 bits they have in an entry. */
  lemma SmallNumber(s: State, f: nat)
    requires Inv(s) && f in s.inodes
    ensures f % 0x1_0000_0000 == f
  {
    hide FilesOk, OwnersOk, LinksOk, InodeChainsOk, BlockChainsOk, FirstIno, BitmapBlocks;
    if f != BLKN_ROOT { assert IsInode(s, f); }
    assert f < 0x1_0000_0000;
  }

  lemma DoubleChained(chains: seq<seq<nat>>, n: nat)
    requires |chains| == HASH_LIST_SIZE
    ensures Chained(chains, []) == chains && |Chained(chains, [n])| == |chains| == |Chained(chains, [n, n + 1])|
    ensures Chained(Chained(chains, [n]), [n + 1]) == Chained(chains, [n, n + 1])
  {
    ChainedIs(chains, [n, n + 1]);
  }

  lemma PutSame(caches: Caches, b: nat, k: nat)
    requires b in caches && k < |caches[b]|
    ensures Put(caches, b, k, caches[b][k]) == caches
  {
    assert caches[b][k := caches[b][k]] == caches[b];
  }

  /** From s to t block b was added to file, whose inode has become node, with the new pointer blocks added. */
  ghost predicate GrownBy(s: State, t: State, file: nat, size: nat, b: nat, node: Inode, added: seq<nat>) {
    && file in s.inodes && file in s.own && file in s.listed && file in t.own && file in t.listed
    && t.own[file] == s.own[file] + added && |t.own[file]| == PtrBlocks(|t.listed[file]|)
    && Changes(s, file, t.caches, t.own[file], added)
    && t == Appended(s, file, node, t.caches, t.own[file], added, b)
    && var o := s.inodes[file];
       node.kind == o.kind && node.hostIno == o.hostIno && node.nlinks == o.nlinks && node.size == o.size + size
  }

  lemma FileGrown(s: State, file: nat, size: nat, b: nat, node: Inode, caches: Caches, added: seq<nat>)
    requires file in s.inodes && file in s.own && file in s.listed
    requires FileOk(node, caches, s.listed[file] + [b], s.own[file] + added)
    requires Changes(s, file, caches, s.own[file] + added, added)
    requires var o := s.inodes[file];
             node.kind == o.kind && node.hostIno == o.hostIno && node.nlinks == o.nlinks && node.size == o.size + size
    ensures GrownBy(s, Appended(s, file, node, caches, s.own[file] + added, added, b), file, size, b, node, added)
  {
    hide FileOk, Owned, Chained, PtrBlocks, Changes;
    Blocks(node, caches, s.listed[file] + [b], s.own[file] + added);
  }

  lemma FileAt(s: State, f: nat)
    requires Inv(s) && f in s.inodes
    ensures OneFileOk(s, f)
  {
  }

  lemma OldOwners(s: State, file: nat, node: Inode, caches: Caches, own: seq<nat>, added: seq<nat>, b: nat)
    requires Inv(s) && Changes(s, file, caches, own, added) && file in s.listed && b !in s.owner
    ensures var t := Appended(s, file, node, caches, own, added, b);
            b in t.owner && t.owner[b] == file && forall c | c in s.owner :: c in t.owner && t.owner[c] == s.owner[c]
  {
    hide Chained, Owned, FilesOk, LinksOk, InodeChainsOk, BlockChainsOk, OneOwnerOk;
    OwnedIs(s.owner, added, file);
    forall c: nat | c in s.owner ensures c !in added { FreshNumbers(s, file, caches, own, added, c); }
  }

  lemma SizeFree(node: Inode, caches: Caches, list: seq<nat>, own: seq<nat>, size: nat)
    requires FileOk(node, caches, list, own)
    ensures FileOk(node.(size := size), caches, list, own)
  {
  }

  /** Numbers in use lie below the next one. */
  lemma Numbered(s: State)
    requires Inv(s)
    ensures 0 < s.nextIno <= s.ninos && |s.blockChains| == HASH_LIST_SIZE && forall c | c in s.caches :: c < s.nextIno
    ensures s.listed.Keys == s.inodes.Keys && s.own.Keys == s.inodes.Keys
  {
    hide OwnersOk, LinksOk, InodeChainsOk, OneFileOk, Hash32;
    forall c | c in s.caches ensures c < s.nextIno {
      assert FirstIno(s.ninos) <= c < s.nextIno;
    }
  }
}
