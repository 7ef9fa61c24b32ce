/** The recursive walk of mksfs.c over the host tree. */
module Mksfs {
  import opened Wrappers
  import opened SfsFile
  import opened SfsState
  import opened SfsEntry
  import opened SfsTree
  import opened SfsWalk
  import opened Sfs

  /** open_file: read blocks until read returns 0. A short read that is not the last would fail the assertion. */
  method OpenFile(sfs: Builder, file: nat, data: seq<int>) returns (ok: bool)
    requires sfs.Valid() && NamedOk(sfs.Now()) && AllListed(sfs.Now()) && file in sfs.inodes && file in sfs.listed
    requires Contents(sfs.Now(), file) == [] && sfs.inodes[file].size == 0
    modifies sfs
    ensures !ok ==> sfs.Stuck()
    ensures ok ==> sfs.Valid() && NamedOk(sfs.Now()) && AllListed(sfs.Now()) && SameBut(old(sfs.Now()), sfs.Now(), file)
    ensures ok ==> sfs.inodes.Keys == old(sfs.inodes).Keys && sfs.named == old(sfs.named) && sfs.done == old(sfs.done)
    ensures ok ==> file in sfs.listed && Contents(sfs.Now(), file) == Chunks(data) && sfs.inodes[file].size == |data|
  {
    hide Inv, NamedOk, AllListed, Contents, SameBut, Chunks, Padded;
    var rest, last := data, BLKSIZE;
    NoChunks();
    NoZero(sfs.Now());
    SameButRefl(sfs.Now(), file);
    ok := true;
    while rest != []
      invariant ok && sfs.Valid() && NamedOk(sfs.Now()) && AllListed(sfs.Now())
                && SameBut(old(sfs.Now()), sfs.Now(), file)
      invariant sfs.inodes.Keys == old(sfs.inodes).Keys && sfs.named == old(sfs.named) && sfs.done == old(sfs.done)
      invariant file in sfs.inodes && file in sfs.listed && Contents(sfs.Now(), file) + Chunks(rest) == Chunks(data)
      invariant sfs.inodes[file].size + |rest| == |data| && (last == BLKSIZE || rest == [])
      decreases |rest|
    {
      var ret := if |rest| < BLKSIZE then |rest| else BLKSIZE;
      var buffer := rest[..ret];
      assert last == BLKSIZE;
      ChunksStep(rest, ret);
      label before:
      ok := sfs.AppendContent(file, ret, Data(Padded(buffer)));
      if !ok {
        return;
      }
      DataCounted(old@before(sfs.Now()), Data(Padded(buffer)), sfs.Now());
      SameButChains(old(sfs.Now()), old@before(sfs.Now()), sfs.Now(), file);
      rest, last := rest[ret..], ret;
    }
  }

  lemma NoChunks()
    ensures Chunks([]) == []
  {
  }

  lemma ChunksStep(rest: seq<int>, ret: nat)
    requires rest != [] && ret == if |rest| < BLKSIZE then |rest| else BLKSIZE
    ensures Chunks(rest) == [Data(Padded(rest[..ret]))] + Chunks(rest[ret..])
  {
    hide Padded;
    if |rest| <= BLKSIZE { assert rest[..ret] == rest && rest[ret..] == []; }
  }

  /** open_link: readlink into a buffer of one block; a target that fills it ends the program. */
  method OpenLink(sfs: Builder, file: nat, target: seq<int>) returns (ok: bool)
    requires sfs.Valid() && NamedOk(sfs.Now()) && AllListed(sfs.Now()) && file in sfs.inodes && file in sfs.listed
    requires Contents(sfs.Now(), file) == [] && sfs.inodes[file].size == 0
    modifies sfs
    ensures !ok ==> sfs.Stuck() || |target| >= BLKSIZE
    ensures ok ==> |target| < BLKSIZE
    ensures ok ==> sfs.Valid() && NamedOk(sfs.Now()) && AllListed(sfs.Now()) && SameBut(old(sfs.Now()), sfs.Now(), file)
    ensures ok ==> sfs.inodes.Keys == old(sfs.inodes).Keys && sfs.named == old(sfs.named) && sfs.done == old(sfs.done)
    ensures ok ==> file in sfs.listed && Contents(sfs.Now(), file) == [Data(Padded(target))]
                   && sfs.inodes[file].size == |target|
  {
    hide Inv, NamedOk, AllListed, Contents, SameBut;
    if |target| >= BLKSIZE {
      return false;
    }
    ok := sfs.AppendContent(file, |target|, Data(Padded(target)));
    if ok {
      DataCounted(old(sfs.Now()), Data(Padded(target)), sfs.Now());
    }
  }

  /** The invariant of the walk. files and kinds are what the host promises, seen the directories met. */
  ghost predicate Walking(sfs: Builder, files: map<nat, seq<int>>, kinds: map<nat, Kind>, seen: set<nat>)
    reads sfs
  {
    sfs.Valid() && WalkOk(sfs.Now(), sfs.done, files, kinds) && DirsIn(sfs.Now(), seen)
  }

  /** A directory the walk is inside of. */
  ghost predicate OpenDirectory(sfs: Builder, cur: nat)
    reads sfs
  {
    cur in sfs.inodes && sfs.inodes[cur].kind == KDir && cur !in sfs.done
  }

  /** add_entry for a regular file. */
  method NameInode(sfs: Builder, cur: nat, ino: nat, ghost item: Item, name: CString,
                   ghost files: map<nat, seq<int>>, ghost kinds: map<nat, Kind>,
                       ghost seen: set<nat>) returns (ok: bool)
    requires Walking(sfs, files, kinds, seen) && OpenDirectory(sfs, cur)
    requires ino in sfs.inodes && sfs.inodes[ino].kind == KFile && name == item.name && |name| <= MAX_FNAME_LEN
    requires item.node.HostFile? && Rep(sfs.done, item.node, ino, cur)
    modifies sfs
    ensures !ok ==> sfs.Stuck()
    ensures ok ==> Walking(sfs, files, kinds, seen) && sfs.done == old(sfs.done)
    ensures ok ==> Made(sfs.Now()) == Made(old(sfs.Now()))
    ensures ok ==> ItemAdded(old(sfs.Now()), old(sfs.done), sfs.Now(), sfs.done, item, cur, ino)
  {
    hide Inv, NamedOk, AllListed, Contents, SameBut, DoneOk, KnownOk, DirsIn, Rep, EntryAdded, Made;
    NoZero(sfs.Now());
    ok := sfs.AddEntry(cur, ino, name);
    if ok {
      MadeSame(old(sfs.Now()), sfs.Now(), cur);
      NoZero(sfs.Now());
      DoneKept(old(sfs.Now()), sfs.Now(), sfs.done, cur);
      KnownKept(old(sfs.Now()), sfs.Now(), cur, sfs.done, files, kinds);
      DirsKept(old(sfs.Now()), sfs.Now(), cur, seen);
    }
  }

  /** A regular file met for the first time: its inode, and its contents. */
  method MakeFile(sfs: Builder, data: seq<int>, hostIno: nat,
                  ghost files: map<nat, seq<int>>, ghost kinds: map<nat, Kind>,
                      ghost seen: set<nat>) returns (r: Option<nat>)
    requires Walking(sfs, files, kinds, seen) && forall f | f in sfs.inodes :: sfs.inodes[f].hostIno != hostIno
    requires hostIno in kinds && kinds[hostIno] == KFile && hostIno in files && files[hostIno] == data
    modifies sfs
    ensures r.None? ==> sfs.Stuck()
    ensures r.Some? ==> Walking(sfs, files, kinds, seen) && r.value in sfs.inodes && sfs.inodes[r.value].kind == KFile
    ensures r.Some? ==> r.value in sfs.done && sfs.done[r.value] == FileShape(hostIno, data)
    ensures r.Some? ==> Made(sfs.Now()) == Made(old(sfs.Now())).Plus(Census({hostIno}, 0, 0))
    ensures r.Some? ==> Untouched(old(sfs.Now()), sfs.Now()) && DoneSince(old(sfs.Now()), old(sfs.done), sfs.done)
                        && NamesAdded(old(sfs.Now()), sfs.Now(), 0, 0, 0, 0)
  {
    hide Inv, NamedOk, AllListed, Contents, SameBut, DoneOk, KnownOk, DirsIn, Untouched, NamesAdded, Chunks, Hash32,
        DoneSince;
    ghost var s, done := sfs.Now(), sfs.done;
    NoZero(s);
    r := sfs.NewInode(hostIno, KFile);
    if r.None? {
      return;
    }
    ghost var m := sfs.Now();
    NewInodeFacts(s, KFile, hostIno);
    WithInodeCounted(s, r.value, KFile, hostIno);
    var ok := OpenFile(sfs, r.value, data);
    if !ok {
      return None;
    }
    sfs.done := sfs.done[r.value := FileShape(hostIno, data)];
    ghost var t := sfs.Now();
    FileMade(s, m, t, r.value, hostIno, done, files, kinds, seen);
  }

  /** s before, m with the inode, t with its contents. */
  lemma FileMade(s: State, m: State, t: State, n: nat, hostIno: nat, done: map<nat, Shape>,
                 files: map<nat, seq<int>>, kinds: map<nat, Kind>, seen: set<nat>)
    requires Inv(s) && WalkOk(s, done, files, kinds) && DirsIn(s, seen) && n !in s.inodes && Inv(t)
    requires Hash64(hostIno) < |s.inodeChains| && m == WithInode(s, n, KFile, hostIno) && Untouched(s, m)
    requires SameBut(m, t, n) && t.inodes.Keys == m.inodes.Keys && t.named == m.named && NamedOk(t) && AllListed(t)
    requires hostIno in kinds && kinds[hostIno] == KFile && hostIno in files
    requires n in t.listed && Contents(t, n) == Chunks(files[hostIno]) && t.inodes[n].size == |files[hostIno]|
    requires forall f | f in s.inodes :: s.inodes[f].hostIno != hostIno
    ensures n in t.inodes && t.inodes[n].kind == KFile
    ensures var done' := done[n := FileShape(hostIno, files[hostIno])];
            WalkOk(t, done', files, kinds) && DirsIn(t, seen) && DoneSince(s, done, done')
    ensures Untouched(s, t) && NamesAdded(s, t, 0, 0, 0, 0)
    ensures Made(t) == Made(s).Plus(Census({hostIno}, 0, 0))
  {
    hide Inv, NamedOk, AllListed, Contents, SameBut, DoneOk, KnownOk, DirsIn, Untouched, NamesAdded, Chunks, Hash32,
        DoneSince, Made;
    NoZero(s);
    NoZero(t);
    KeptKind(m, t, n);
    UntouchedThenSame(s, m, t, n);
    MadeOne(s, n, KFile, hostIno);
    MadeSame(m, t, n);
    MadeDone(s, m, t, n, KFile, hostIno, done, FileShape(hostIno, files[hostIno]));
    MadeNamed(s, m, t, n, KFile, hostIno);
    FileKnown(s, t, n, hostIno, done, files, kinds);
    FileDirs(s, t, n, seen);
  }

  lemma NewInodeFacts(s: State, kind: Kind, hostIno: nat)
    requires Inv(s) && s.nextIno < s.ninos
    ensures Hash64(hostIno) < |s.inodeChains| && s.nextIno !in s.inodes
    ensures var t := WithInode(s, s.nextIno, kind, hostIno);
            Untouched(s, t) && s.nextIno in t.listed && Contents(t, s.nextIno) == []
  {
    hide Inv, Hash32, Contents;
    WithInodeSame(s, kind, hostIno);
  }

  lemma KeptKind(s: State, t: State, n: nat)
    requires SameBut(s, t, n) && n in s.inodes
    ensures n in t.inodes && t.inodes[n].kind == s.inodes[n].kind && t.inodes[n].hostIno == s.inodes[n].hostIno
  {
  }

  /** The inode of a symbolic link, which no entry names yet, with its target. */
  method MakeLink(sfs: Builder, target: seq<int>, hostIno: nat,
                  ghost files: map<nat, seq<int>>, ghost kinds: map<nat, Kind>,
                      ghost seen: set<nat>) returns (r: Option<nat>)
    requires Walking(sfs, files, kinds, seen) && hostIno in kinds && kinds[hostIno] == KLink
    modifies sfs
    ensures r.None? ==> sfs.Stuck() || |target| >= BLKSIZE
    ensures r.Some? ==> |target| < BLKSIZE && Walking(sfs, files, kinds, seen) && sfs.done == old(sfs.done)
    ensures r.Some? ==> NewLink(old(sfs.Now()), sfs.done, sfs.Now(), r.value, hostIno, target)
    ensures r.Some? ==> Made(sfs.Now()) == Made(old(sfs.Now())).Plus(Census({}, 0, 1))
  {
    hide Inv, NamedOk, AllListed, Contents, SameBut, DoneOk, KnownOk, DirsIn, Hash32, Made, NewLink;
    ghost var s, done := sfs.Now(), sfs.done;
    NoZero(s);
    r := sfs.NewInode(hostIno, KLink);
    if r.None? {
      return;
    }
    ghost var m := sfs.Now();
    NewInodeFacts(s, KLink, hostIno);
    WithInodeCounted(s, r.value, KLink, hostIno);
    var ok := OpenLink(sfs, r.value, target);
    if !ok {
      return None;
    }
    LinkMade(s, m, sfs.Now(), r.value, hostIno, target, done, files, kinds, seen);
  }

  /** From s to t the inode n was made for a symbolic link, and nothing else has changed. */
  ghost predicate NewLink(s: State, done: map<nat, Shape>, t: State, n: nat, hostIno: nat, target: seq<int>) {
    && n !in s.inodes && n !in done && n in t.inodes && n in t.listed && n in t.named && t.named[n] == 0
    && t.inodes[n].kind == KLink && t.inodes[n].hostIno == hostIno && t.inodes[n].size == |target|
    && Contents(t, n) == [Data(Padded(target))]
    && Untouched(s, t) && NamesAdded(s, t, 0, 0, 0, 0)
  }

  lemma LinkMade(s: State, m: State, t: State, n: nat, hostIno: nat, target: seq<int>, done: map<nat, Shape>,
                 files: map<nat, seq<int>>, kinds: map<nat, Kind>, seen: set<nat>)
    requires Inv(s) && WalkOk(s, done, files, kinds) && DirsIn(s, seen) && n !in s.inodes && Inv(t)
    requires Hash64(hostIno) < |s.inodeChains| && m == WithInode(s, n, KLink, hostIno) && Untouched(s, m)
    requires SameBut(m, t, n) && t.inodes.Keys == m.inodes.Keys && t.named == m.named && NamedOk(t) && AllListed(t)
    requires hostIno in kinds && kinds[hostIno] == KLink
    requires n in t.listed && Contents(t, n) == [Data(Padded(target))] && t.inodes[n].size == |target|
    ensures WalkOk(t, done, files, kinds) && DirsIn(t, seen) && NewLink(s, done, t, n, hostIno, target)
    ensures Made(t) == Made(s).Plus(Census({}, 0, 1))
  {
    hide Inv, NamedOk, AllListed, Contents, SameBut, DoneOk, KnownOk, DirsIn, Untouched, NamesAdded, Hash32, Made;
    NoZero(s);
    NoZero(t);
    KeptKind(m, t, n);
    DoneIn(s, done);
    UntouchedThenSame(s, m, t, n);
    WithInodeDone(s, n, KLink, hostIno, done);
    DoneKept(m, t, done, n);
    MadeOne(s, n, KLink, hostIno);
    MadeSame(m, t, n);
    MadeNamed(s, m, t, n, KLink, hostIno);
    LinkKnown(s, t, n, hostIno, done, files, kinds);
    FileDirs(s, t, n, seen);
  }

  lemma FoundFile(s: State, f: nat, done: map<nat, Shape>, files: map<nat, seq<int>>, kinds: map<nat, Kind>)
    requires KnownOk(s, done, files, kinds) && f in s.inodes && s.inodes[f].hostIno in kinds
             && kinds[s.inodes[f].hostIno] == KFile
    ensures s.inodes[f].kind == KFile && f in done && s.inodes[f].hostIno in files
             && done[f] == FileShape(s.inodes[f].hostIno, files[s.inodes[f].hostIno])
    ensures forall g | g in s.inodes && s.inodes[g].hostIno == s.inodes[f].hostIno :: g == f
  {
    hide FileShape;
    assert f != BLKN_ROOT ==> KnownInode(s, f, done, files, kinds);
    forall g | g in s.inodes && s.inodes[g].hostIno == s.inodes[f].hostIno ensures g == f {
      assert g != BLKN_ROOT ==> KnownInode(s, g, done, files, kinds);
    }
  }

  lemma Chains(s: State)
    requires Inv(s)
    ensures InodeChainsOk(s)
  {
  }

  lemma StillOpen(s: State, done: map<nat, Shape>, t: State, done': map<nat, Shape>, cur: nat)
    requires Untouched(s, t) && DoneSince(s, done, done') && cur in s.inodes && cur !in done
             && s.inodes[cur].kind == KDir
    ensures cur in t.inodes && t.inodes[cur].kind == KDir && cur !in done'
  {
    hide Contents;
    assert SameInode(s, t, cur);
  }

  /** add_file: every hard link to a host inode names the inode recorded for it, made when the first is met. */
  method AddFile(sfs: Builder, cur: nat, name: CString, data: seq<int>, hostIno: nat,
                 ghost files: map<nat, seq<int>>, ghost kinds: map<nat, Kind>, ghost seen: set<nat>)
    returns (ok: bool, ghost ino: nat)
    requires Walking(sfs, files, kinds, seen) && OpenDirectory(sfs, cur) && |name| <= MAX_FNAME_LEN
    requires HostOk(HostFile(hostIno, data), files, kinds)
    modifies sfs
    ensures !ok ==> sfs.Stuck()
    ensures ok ==> Walking(sfs, files, kinds, seen)
    ensures ok ==> ItemAdded(old(sfs.Now()), old(sfs.done), sfs.Now(), sfs.done, Item(name, HostFile(hostIno, data)),
             cur, ino)
    ensures ok ==> ino in sfs.inodes && sfs.inodes[ino].hostIno == hostIno
                   && (forall f | f in old(sfs.inodes) && old(sfs.inodes)[f].hostIno == hostIno :: f == ino)
    ensures ok ==> Made(sfs.Now()) == Made(old(sfs.Now())).Plus(Census({hostIno}, 0, 0))
  {
    hide Inv, NamedOk, AllListed, Contents, SameBut, DoneOk, KnownOk, DirsIn, Untouched, NamesAdded, DoneSince,
        FileShape, ItemAdded, Made;
    Chains(sfs.Now());
    var found := sfs.SearchCacheInode(hostIno);
    ghost var item := Item(name, HostFile(hostIno, data));
    if found.None? {
      var n := MakeFile(sfs, data, hostIno, files, kinds, seen);
      if n.None? {
        return false, 0;
      }
      label made:
      StillOpen(old(sfs.Now()), old(sfs.done), sfs.Now(), sfs.done, cur);
      ok := NameInode(sfs, cur, n.value, item, name, files, kinds, seen);
      ino := n.value;
      if ok {
        AddedAfter(old(sfs.Now()), old(sfs.done), old@made(sfs.Now()), old@made(sfs.done), sfs.Now(), sfs.done, item,
            cur, ino);
      }
    } else {
      FoundFile(sfs.Now(), found.value, sfs.done, files, kinds);
      MadeAlready(sfs.Now(), found.value);
      ok := NameInode(sfs, cur, found.value, item, name, files, kinds, seen);
      ino := found.value;
    }
    if ok { FileNamed(old(sfs.Now()), old(sfs.done), sfs.Now(), sfs.done, item, cur, ino, files, kinds); }
  }

  lemma FileNamed(s: State, done: map<nat, Shape>, t: State, done': map<nat, Shape>, item: Item, cur: nat, ino: nat,
      files: map<nat, seq<int>>, kinds: map<nat, Kind>)
    requires item.node.HostFile? && ItemAdded(s, done, t, done', item, cur, ino) && WalkOk(t, done', files, kinds)
    ensures ino in t.inodes && t.inodes[ino].hostIno == item.node.fileIno
  {
    hide NamedOk, AllListed, KnownOk, Contents, SameBut, EntryAdded;
    assert FinishedOk(t, ino, done'[ino]);
  }

  /** add_link: an inode of its own for every name, even where the host has hard links to a symbolic link. */
  method AddLink(sfs: Builder, cur: nat, name: CString, target: seq<int>, hostIno: nat,
                 ghost files: map<nat, seq<int>>, ghost kinds: map<nat, Kind>, ghost seen: set<nat>)
    returns (ok: bool, ghost ino: nat)
    requires Walking(sfs, files, kinds, seen) && OpenDirectory(sfs, cur) && |name| <= MAX_FNAME_LEN
    requires HostOk(HostLink(hostIno, target), files, kinds)
    modifies sfs
    ensures !ok ==> sfs.Stuck() || |target| >= BLKSIZE
    ensures ok ==> |target| < BLKSIZE && ino !in old(sfs.inodes)
    ensures ok ==> Walking(sfs, files, kinds, seen)
    ensures ok ==> ItemAdded(old(sfs.Now()), old(sfs.done), sfs.Now(), sfs.done,
                             Item(name, HostLink(hostIno, target)), cur, ino)
    ensures ok ==> Made(sfs.Now()) == Made(old(sfs.Now())).Plus(Census({}, 0, 1))
  {
    hide Inv, WalkOk, Contents, DirsIn, ItemAdded, Made, NewLink, LinkShape;
    var n := MakeLink(sfs, target, hostIno, files, kinds, seen);
    if n.None? {
      return false, 0;
    }
    ino := n.value;
    LinkIsNew(old(sfs.Now()), sfs.done, sfs.Now(), ino, hostIno, target);
    ok := NameLink(sfs, old(sfs.Now()), cur, n.value, name, target, hostIno, files, kinds, seen);
  }

  lemma LinkIsNew(s: State, done: map<nat, Shape>, t: State, n: nat, hostIno: nat, target: seq<int>)
    requires NewLink(s, done, t, n, hostIno, target)
    ensures n !in s.inodes
  {
  }

  /** The entry of a link; s is the state before its inode was made. */
  method NameLink(sfs: Builder, ghost s: State, cur: nat, n: nat, name: CString, ghost target: seq<int>,
                  ghost hostIno: nat, ghost files: map<nat, seq<int>>, ghost kinds: map<nat, Kind>,
                  ghost seen: set<nat>) returns (ok: bool)
    requires Walking(sfs, files, kinds, seen) && |name| <= MAX_FNAME_LEN
    requires cur in s.inodes && s.inodes[cur].kind == KDir && cur !in sfs.done
    requires NewLink(s, sfs.done, sfs.Now(), n, hostIno, target)
    modifies sfs
    ensures !ok ==> sfs.Stuck()
    ensures ok ==> Walking(sfs, files, kinds, seen) && Made(sfs.Now()) == Made(old(sfs.Now()))
    ensures ok ==> ItemAdded(s, old(sfs.done), sfs.Now(), sfs.done, Item(name, HostLink(hostIno, target)), cur, n)
  {
    hide Inv, NamedOk, AllListed, Contents, SameBut, DoneOk, KnownOk, DirsIn, EntryAdded, Made, ItemAdded, LinkShape,
        Untouched, NamesAdded;
    ghost var t, done := sfs.Now(), sfs.done;
    NoZero(t);
    UntouchedAt(s, t, cur);
    ok := sfs.AddEntry(cur, n, name);
    if ok {
      ghost var u := sfs.Now();
      NoZero(u);
      LinkNamed(s, done, t, u, n, target, Item(name, HostLink(hostIno, target)), cur);
      sfs.done := sfs.done[n := LinkShape(hostIno, target)];
      MadeSame(t, u, cur);
      KnownKept(t, u, cur, done, files, kinds);
      KnownMore(u, n, LinkShape(hostIno, target), done, files, kinds);
      DirsKept(t, u, cur, seen);
    }
  }

  /** The entries "." and ".." of a new directory. */
  method AddDots(sfs: Builder, cur: nat, parent: nat,
                 ghost files: map<nat, seq<int>>, ghost kinds: map<nat, Kind>, ghost seen: set<nat>) returns (ok: bool)
    requires Walking(sfs, files, kinds, seen) && OpenDirectory(sfs, cur) && OpenDirectory(sfs, parent)
    requires cur in sfs.listed && Contents(sfs.Now(), cur) == [] && sfs.inodes[cur].size == 0
    modifies sfs
    ensures !ok ==> sfs.Stuck()
    ensures ok ==> Walking(sfs, files, kinds, seen) && Made(sfs.Now()) == Made(old(sfs.Now()))
                   && DirOpened(old(sfs.Now()), old(sfs.done), sfs.Now(), sfs.done, [], cur, parent)
  {
    hide Inv, WalkOk, NamedOk, AllListed, Contents, SameBut, DirsIn, DirOpened, EntryAdded, Made;
    ghost var s := sfs.Now();
    WalkParts(s, sfs.done, files, kinds);
    NoZero(s);
    ok := sfs.AddEntry(cur, cur, ".");
    if !ok {
      return;
    }
    ghost var t := sfs.Now();
    KeptKind(s, t, cur);
    NoZero(t);
    ok := sfs.AddEntry(cur, parent, "..");
    if ok {
      DotsAdded(s, t, sfs.Now(), sfs.done, cur, parent, files, kinds, seen);
    }
  }

  lemma WalkParts(s: State, done: map<nat, Shape>, files: map<nat, seq<int>>, kinds: map<nat, Kind>)
    requires WalkOk(s, done, files, kinds)
    ensures NamedOk(s) && AllListed(s)
  {
  }

  lemma DotsAdded(s: State, t: State, u: State, done: map<nat, Shape>, cur: nat, parent: nat,
                  files: map<nat, seq<int>>, kinds: map<nat, Kind>, seen: set<nat>)
    requires WalkOk(s, done, files, kinds) && DirsIn(s, seen) && NamedOk(u) && AllListed(u)
    requires SameBut(s, t, cur) && SameBut(t, u, cur) && t.inodes.Keys == s.inodes.Keys
             && u.inodes.Keys == s.inodes.Keys
    requires s.named.Keys == s.inodes.Keys && cur in s.inodes && parent in s.inodes && cur !in done && parent !in done
    requires t.named == s.named[cur := s.named[cur] + 1] && u.named == t.named[parent := t.named[parent] + 1]
    requires cur in t.listed && cur in u.listed && EntryAdded([], Contents(t, cur), cur, ".")
             && EntryAdded(Contents(t, cur), Contents(u, cur), parent, "..")
    requires u.inodes[cur].size == 2 * ENTRY_BYTES
    ensures WalkOk(u, done, files, kinds) && DirsIn(u, seen) && DirOpened(s, done, u, done, [], cur, parent)
    ensures Made(u) == Made(s)
  {
    hide NamedOk, AllListed, Contents, SameBut, DoneOk, KnownOk, DirsIn, NamesAdded, DoneSince, DirOpened, IsEntry,
        Made;
    SameButChains(s, t, u, cur);
    DotsNamed(s, t, u, cur, parent);
    DoneKept(s, u, done, cur);
    KnownKept(s, u, cur, done, files, kinds);
    DirsKept(s, u, cur, seen);
    MadeSame(s, u, cur);
    TwoEntries(Contents(t, cur), Contents(u, cur), cur, parent);
    DirStarts(s, u, done, cur, parent);
  }

  lemma TwoEntries(b: seq<Content>, c: seq<Content>, cur: nat, parent: nat)
    requires EntryAdded([], b, cur, ".") && EntryAdded(b, c, parent, "..")
    ensures |c| == 2 && IsEntry(c[0], cur, ".") && IsEntry(c[1], parent, "..")
  {
    assert c[0] == c[..|b|][0];
  }

  /** open_dir: the entries of directory cur, then everything below it. */
  method OpenDir(sfs: Builder, items: seq<Item>, cur: nat, parent: nat,
                 ghost files: map<nat, seq<int>>, ghost kinds: map<nat, Kind>, ghost seen: set<nat>) returns (ok: bool)
    requires Walking(sfs, files, kinds, seen) && OpenDirectory(sfs, cur) && OpenDirectory(sfs, parent)
    requires cur in sfs.listed && Contents(sfs.Now(), cur) == [] && sfs.inodes[cur].size == 0
    requires ItemsOk(items, files, kinds) && DistinctItemDirs(items) && seen !! ItemDirIds(items)
    modifies sfs
    ensures !ok ==> sfs.Stuck() || !ItemsFit(items)
    ensures ok ==> ItemsFit(items) && Walking(sfs, files, kinds, seen + ItemDirIds(items))
    ensures ok ==> OneEach(sfs.done) && OneName(sfs.Now(), sfs.done)
    ensures ok ==> Made(sfs.Now()) == Made(old(sfs.Now())).Plus(ItemsCensus(items))
    ensures ok ==> DirOpened(old(sfs.Now()), old(sfs.done), sfs.Now(), sfs.done, items, cur, parent)
    decreases items
  {
    hide Inv, WalkOk, Contents, DirsIn, DirOpened, ItemAdded, DoneSince, SameBut, Made, ItemsFit, ItemFits,
        ItemsCensus, NodeCensus, OneEach, OneName, DirIds, ItemDirIds, HostOk, ItemsOk, DistinctDirs, DistinctItemDirs;
    ghost var s, done := sfs.Now(), sfs.done;
    ok := AddDots(sfs, cur, parent, files, kinds, seen);
    if !ok {
      return;
    }
    var i := 0;
    NothingYet(s, seen);
    assert items[..0] == [];
    while i < |items|
      invariant i <= |items| && ok && Walking(sfs, files, kinds, seen + ItemDirIds(items[..i]))
      invariant DirOpened(s, done, sfs.Now(), sfs.done, items[..i], cur, parent)
      invariant ItemsFit(items[..i]) && Made(sfs.Now()) == Made(s).Plus(ItemsCensus(items[..i]))
    {
      ghost var t, done' := sfs.Now(), sfs.done;
      assert items[..i + 1] == items[..i] + [items[i]];
      OneMore(s, items[..i], items[i]);
      DistinctAt(items, i);
      ItemAt(items, i, files, kinds);
      IdsAt(items, i);
      DirStaysOpen(s, done, t, done', items[..i], cur, parent);
      if Dotted(items[i].name) {
        DirSkips(s, done, t, done', items[..i], items[i], cur, parent);
        DirsWiden(t, seen + ItemDirIds(items[..i]), seen + ItemDirIds(items[..i + 1]));
      } else if |items[i].name| > MAX_FNAME_LEN {
        NoFit(items, i);
        return false;
      } else if items[i].node.HostOther? {
        DirSkips(s, done, t, done', items[..i], items[i], cur, parent);
        DirsWiden(t, seen + ItemDirIds(items[..i]), seen + ItemDirIds(items[..i + 1]));
      } else {
        ghost var ino;
        ok, ino := AddItem(sfs, cur, items[i], files, kinds, seen + ItemDirIds(items[..i]));
        if !ok {
          NoFit(items, i);
          return;
        }
        assert seen + ItemDirIds(items[..i]) + DirIds(items[i].node) == seen + ItemDirIds(items[..i + 1]);
        DirGoesOn(s, done, t, done', sfs.Now(), sfs.done, items[..i], items[i], cur, parent, ino);
      }
      i := i + 1;
    }
    assert items[..i] == items;
    Shared(sfs.Now(), sfs.done, files, kinds);
  }

  lemma Shared(s: State, done: map<nat, Shape>, files: map<nat, seq<int>>, kinds: map<nat, Kind>)
    requires WalkOk(s, done, files, kinds)
    ensures OneEach(done) && OneName(s, done)
  {
    hide NamedOk, AllListed, DoneOk, KnownOk;
    FilesShared(s, done, files, kinds);
    LinksNamed(s, done);
  }

  lemma NothingYet(s: State, seen: set<nat>)
    ensures ItemsFit([]) && Made(s).Plus(ItemsCensus([])) == Made(s) && seen + ItemDirIds([]) == seen
  {
    hide Made;
  }

  /** What an item adds to those before it. */
  lemma OneMore(s: State, items: seq<Item>, item: Item)
    ensures ItemsFit(items) && ItemFits(item) ==> ItemsFit(items + [item])
    ensures Made(s).Plus(ItemsCensus(items + [item]))
            == if Skipped(item) then Made(s).Plus(ItemsCensus(items))
               else Made(s).Plus(ItemsCensus(items)).Plus(NodeCensus(item.node))
    ensures Dotted(item.name) || (|item.name| <= MAX_FNAME_LEN && item.node.HostOther?) ==> ItemFits(item)
    ensures !Dotted(item.name) && |item.name| > MAX_FNAME_LEN ==> !ItemFits(item)
  {
    hide Made, NodeCensus, ItemsCensus, ItemsFit;
    CensusAppend(items, item);
    FitsAppend(items, item);
    MoreAdds(Made(s), ItemsCensus(items), NodeCensus(item.node));
  }

  lemma MoreAdds(a: Census, b: Census, c: Census)
    ensures a.Plus(b.Plus(c)) == a.Plus(b).Plus(c) && b.Plus(NOTHING) == b
  {
  }

  lemma NoFit(items: seq<Item>, i: nat)
    requires i < |items|
    ensures !ItemFits(items[i]) ==> !ItemsFit(items)
  {
    if ItemsFit(items) { FitsAt(items, i); }
  }

  lemma DirsWiden(s: State, seen: set<nat>, seen': set<nat>)
    requires DirsIn(s, seen) && seen <= seen'
    ensures DirsIn(s, seen')
  {
  }

  lemma DirStaysOpen(s: State, done: map<nat, Shape>, t: State, done': map<nat, Shape>, items: seq<Item>, cur: nat,
      parent: nat)
    requires DirOpened(s, done, t, done', items, cur, parent)
    requires cur in s.inodes && cur !in done && s.inodes[cur].kind == KDir
    ensures cur in t.inodes && cur !in done' && t.inodes[cur].kind == KDir
  {
  }

  /** The branches of open_dir on the kind of a node. */
  method AddItem(sfs: Builder, cur: nat, item: Item,
                 ghost files: map<nat, seq<int>>, ghost kinds: map<nat, Kind>, ghost seen: set<nat>)
    returns (ok: bool, ghost ino: nat)
    requires Walking(sfs, files, kinds, seen) && OpenDirectory(sfs, cur)
    requires !Skipped(item) && |item.name| <= MAX_FNAME_LEN
    requires HostOk(item.node, files, kinds) && DistinctDirs(item.node) && seen !! DirIds(item.node)
    modifies sfs
    ensures !ok ==> sfs.Stuck() || !ItemFits(item)
    ensures ok ==> ItemFits(item) && Walking(sfs, files, kinds, seen + DirIds(item.node))
    ensures ok ==> Made(sfs.Now()) == Made(old(sfs.Now())).Plus(NodeCensus(item.node))
    ensures ok ==> ItemAdded(old(sfs.Now()), old(sfs.done), sfs.Now(), sfs.done, item, cur, ino)
    decreases item, 1
  {
    hide Inv, WalkOk, Contents, DirsIn, ItemAdded, Made;
    match item.node {
      case HostLink(hostIno, target) => {
        ok, ino := AddLink(sfs, cur, item.name, target, hostIno, files, kinds, seen);
        assert seen + DirIds(item.node) == seen;
      }
      case HostFile(hostIno, data) => {
        ok, ino := AddFile(sfs, cur, item.name, data, hostIno, files, kinds, seen);
        assert seen + DirIds(item.node) == seen;
      }
      case HostDir(hostIno, items) => {
        ok, ino := AddDir(sfs, cur, item, files, kinds, seen);
      }
    }
  }

  /** add_dir: its assertion, that no inode has this host number yet, holds. */
  method AddDir(sfs: Builder, cur: nat, item: Item,
                ghost files: map<nat, seq<int>>, ghost kinds: map<nat, Kind>, ghost seen: set<nat>)
    returns (ok: bool, ghost ino: nat)
    requires Walking(sfs, files, kinds, seen) && OpenDirectory(sfs, cur)
    requires item.node.HostDir? && !Skipped(item) && |item.name| <= MAX_FNAME_LEN
    requires HostOk(item.node, files, kinds) && DistinctDirs(item.node) && seen !! DirIds(item.node)
    modifies sfs
    ensures !ok ==> sfs.Stuck() || !ItemFits(item)
    ensures ok ==> ItemFits(item) && Walking(sfs, files, kinds, seen + DirIds(item.node))
    ensures ok ==> Made(sfs.Now()) == Made(old(sfs.Now())).Plus(NodeCensus(item.node))
    ensures ok ==> ItemAdded(old(sfs.Now()), old(sfs.done), sfs.Now(), sfs.done, item, cur, ino)
    decreases item, 0
  {
    hide Inv, WalkOk, Contents, DirsIn, ItemAdded, DirOpened, SameBut, DoneSince, Untouched, Hash32, DirBegun, Made,
        ItemsFit, ItemsCensus;
    ghost var s, done := sfs.Now(), sfs.done;
    var hostIno, items := item.node.dirIno, item.node.items;
    Chains(s);
    NotMet(s, done, files, kinds, seen, hostIno);
    var found := sfs.SearchCacheInode(hostIno);
    assert found.None?;
    NoZero(s);
    var n := sfs.NewInode(hostIno, KDir);
    if n.None? {
      return false, 0;
    }
    ino := n.value;
    ghost var m := sfs.Now();
    DirStartsWell(s, m, n.value, cur, hostIno, done, files, kinds, seen);
    ok := OpenDir(sfs, items, n.value, cur, files, kinds, seen + {hostIno});
    if !ok {
      return;
    }
    ok := NameDir(sfs, s, done, m, n.value, item, cur, files, kinds, seen);
    DirCensus(Made(s), item.node);
  }

  lemma DirCensus(c: Census, node: Host)
    requires node.HostDir?
    ensures c.Plus(NodeCensus(node)) == c.Plus(Census({}, 1, 0)).Plus(ItemsCensus(node.items))
  {
    hide ItemsCensus;
  }

  /** The entry of a directory is added last, when all below it is done. */
  method NameDir(sfs: Builder, ghost s: State, ghost done: map<nat, Shape>, ghost m: State, n: nat, item: Item,
      cur: nat,
                 ghost files: map<nat, seq<int>>, ghost kinds: map<nat, Kind>, ghost seen: set<nat>) returns (ok: bool)
    requires item.node.HostDir? && |item.name| <= MAX_FNAME_LEN
    requires DirBegun(s, done, m, n, item.node.dirIno, cur)
    requires Walking(sfs, files, kinds, seen + {item.node.dirIno} + ItemDirIds(item.node.items))
    requires DirOpened(m, done, sfs.Now(), sfs.done, item.node.items, n, cur)
    modifies sfs
    ensures !ok ==> sfs.Stuck()
    ensures ok ==> Walking(sfs, files, kinds, seen + DirIds(item.node)) && Made(sfs.Now()) == Made(old(sfs.Now()))
    ensures ok ==> ItemAdded(s, done, sfs.Now(), sfs.done, item, cur, n)
  {
    hide Inv, WalkOk, Contents, DirsIn, ItemAdded, DirOpened, SameBut, DoneSince, DirBegun, NamedOk, AllListed,
        DirSteps, EntryAdded, Made, DirShape, ItemDirIds, DirIds, Filled;
    ghost var t, done' := sfs.Now(), sfs.done;
    NoZero(t);
    ReadyToName(s, done, m, t, done', n, item.node.dirIno, item.node.items, cur, files, kinds);
    ok := sfs.AddEntry(cur, n, item.name);
    if ok {
      ghost var u := sfs.Now();
      NoZero(u);
      MadeSame(t, u, cur);
      StepsTaken(s, done, m, t, done', u, n, item.node.dirIno, item.node.items, cur, item.name);
      sfs.done := sfs.done[n := DirShape(t, n, item.node.items)];
      DirDone(s, done, m, t, done', u, n, item, cur, files, kinds, seen);
    }
  }

  lemma StepsTaken(s: State, done: map<nat, Shape>, m: State, t: State, done': map<nat, Shape>, u: State,
                   n: nat, hostIno: nat, items: seq<Item>, cur: nat, name: CString)
    requires DirBegun(s, done, m, n, hostIno, cur) && DirOpened(m, done, t, done', items, n, cur)
    requires SameBut(t, u, cur) && u.inodes.Keys == t.inodes.Keys && cur in u.inodes && cur in u.listed
             && cur in t.listed
    requires EntryAdded(Contents(t, cur), Contents(u, cur), n, name)
             && u.inodes[cur].size == t.inodes[cur].size + ENTRY_BYTES
    requires n in t.named && u.named == t.named[n := t.named[n] + 1]
    requires t.named.Keys == t.inodes.Keys && u.named.Keys == u.inodes.Keys
    ensures DirSteps(s, done, m, t, done', u, n, hostIno, items, cur, name)
  {
    hide SameBut, Contents, DirOpened, Untouched, Hash32, EntryAdded;
  }

  lemma NotMet(s: State, done: map<nat, Shape>, files: map<nat, seq<int>>, kinds: map<nat, Kind>, seen: set<nat>,
      hostIno: nat)
    requires WalkOk(s, done, files, kinds) && DirsIn(s, seen) && hostIno in kinds && kinds[hostIno] == KDir
             && hostIno !in seen
    ensures forall f | f in s.inodes :: s.inodes[f].hostIno != hostIno
  {
    hide NamedOk, AllListed, DoneOk;
    forall f | f in s.inodes ensures s.inodes[f].hostIno != hostIno {
      assert f == BLKN_ROOT || KnownInode(s, f, done, files, kinds);
    }
  }

  lemma DirStartsWell(s: State, m: State, n: nat, cur: nat, hostIno: nat, done: map<nat, Shape>,
                      files: map<nat, seq<int>>, kinds: map<nat, Kind>, seen: set<nat>)
    requires Inv(s) && n == s.nextIno < s.ninos && WalkOk(s, done, files, kinds) && DirsIn(s, seen)
    requires Hash64(hostIno) < |s.inodeChains| && m == WithInode(s, n, KDir, hostIno)
    requires hostIno in kinds && kinds[hostIno] == KDir
    requires cur in s.inodes && cur !in done && s.inodes[cur].kind == KDir
    ensures WalkOk(m, done, files, kinds) && DirsIn(m, seen + {hostIno}) && Untouched(s, m) && n !in s.inodes
    ensures n in m.inodes && m.inodes[n] == FreshInode(KDir, hostIno) && n !in done && n in m.listed
             && Contents(m, n) == []
    ensures cur in m.inodes && m.inodes[cur].kind == KDir && DirBegun(s, done, m, n, hostIno, cur)
    ensures Made(m) == Made(s).Plus(Census({}, 1, 0))
  {
    hide Inv, Contents, NamedOk, AllListed, DoneOk, KnownOk, Untouched, Hash32, Made;
    NoZero(s);
    NewInodeFacts(s, KDir, hostIno);
    MadeOne(s, n, KDir, hostIno);
    WithInodeCounted(s, n, KDir, hostIno);
    WithInodeDone(s, n, KDir, hostIno, done);
    WithInodeKnown(s, n, KDir, hostIno, done, files, kinds);
  }

  lemma ReadyToName(s: State, done: map<nat, Shape>, m: State, t: State, done': map<nat, Shape>, n: nat, hostIno: nat,
                    items: seq<Item>, cur: nat, files: map<nat, seq<int>>, kinds: map<nat, Kind>)
    requires WalkOk(t, done', files, kinds) && DirBegun(s, done, m, n, hostIno, cur)
             && DirOpened(m, done, t, done', items, n, cur)
    ensures NamedOk(t) && AllListed(t) && n in t.inodes && n in t.listed
    ensures cur in t.inodes && t.inodes[cur].kind == KDir && cur !in done'
  {
    hide NamedOk, AllListed, DoneOk, KnownOk, RepDir, Contents, NamesAdded, Untouched, Hash32;
    assert SameInode(m, t, cur);
  }

  lemma DirDone(s: State, done: map<nat, Shape>, m: State, t: State, done': map<nat, Shape>, u: State,
                n: nat, item: Item, cur: nat, files: map<nat, seq<int>>, kinds: map<nat, Kind>, seen: set<nat>)
    requires item.node.HostDir? && DirBegun(s, done, m, n, item.node.dirIno, cur) && WalkOk(t, done', files, kinds)
    requires DirSteps(s, done, m, t, done', u, n, item.node.dirIno, item.node.items, cur, item.name)
    requires DirsIn(t, seen + {item.node.dirIno} + ItemDirIds(item.node.items)) && NamedOk(u) && AllListed(u)
    ensures n in t.inodes && n in t.listed
    ensures var done'' := done'[n := DirShape(t, n, item.node.items)];
            && WalkOk(u, done'', files, kinds) && DirsIn(u, seen + DirIds(item.node))
            && ItemAdded(s, done, u, done'', item, cur, n)
  {
    hide NamedOk, AllListed, DoneOk, KnownOk, Contents, DirsIn, ItemAdded, Untouched, Hash32, DirSteps;
    var items := item.node.items;
    DirAdded(s, done, m, t, done', u, n, item.node.dirIno, items, cur, item.name);
    assert item == Item(item.name, HostDir(item.node.dirIno, items));
    DirFinished(s, done, m, t, done', u, n, item.node.dirIno, items, cur, item.name);
    DirKept(s, done, m, t, done', u, n, item.node.dirIno, items, cur, item.name, files, kinds,
            seen + {item.node.dirIno} + ItemDirIds(items));
    assert seen + {item.node.dirIno} + ItemDirIds(items) == seen + DirIds(item.node);
    KnownMore(u, n, DirShape(t, n, items), done', files, kinds);
  }

  lemma DirKept(s: State, done: map<nat, Shape>, m: State, t: State, done': map<nat, Shape>, u: State,
                n: nat, hostIno: nat, items: seq<Item>, cur: nat, name: CString,
                files: map<nat, seq<int>>, kinds: map<nat, Kind>, seen: set<nat>)
    requires DirSteps(s, done, m, t, done', u, n, hostIno, items, cur, name)
    requires KnownOk(t, done', files, kinds) && DirsIn(t, seen)
    ensures KnownOk(u, done', files, kinds) && DirsIn(u, seen)
  {
    hide KnownOk, Contents, DirsIn, Hash32, SameBut;
    KnownKept(t, u, cur, done', files, kinds);
    DirsKept(t, u, cur, seen);
  }
}
