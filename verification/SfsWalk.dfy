/** What the walk over the host tree keeps: the contents of inodes, the count of entries naming each, and
    which inodes are finished. */
module SfsWalk {
  import opened SfsFile
  import opened SfsState
  import opened SfsEntry
  import opened SfsTree

  function ContentAt(image: map<nat, Content>, b: nat): Content {
    if b in image then image[b] else Data([])
  }

  /** The contents of the blocks of f, in order. */
  ghost function Contents(s: State, f: nat): seq<Content>
    requires f in s.listed
  {
    seq(|s.listed[f]|, k requires 0 <= k < |s.listed[f]| => ContentAt(s.image, s.listed[f][k]))
  }

  /** The directory entries of the image that name f. */
  ghost function Naming(image: map<nat, Content>, f: nat): set<nat> {
    set b | b in image && image[b].Entry? && InoOf(image[b]) == f
  }

  /** named counts the entries, and no entry names anything but an inode. */
  ghost predicate NamedOk(s: State) {
    && (forall f | f in s.inodes :: f in s.named && s.named[f] == |Naming(s.image, f)|)
    && (forall b | b in s.image && s.image[b].Entry? :: InoOf(s.image[b]) in s.inodes)
  }

  ghost predicate FinishedOk(s: State, f: nat, shape: Shape) {
    && f in s.inodes && f in s.listed && f in s.named
    && s.inodes[f].kind == shape.kind && s.inodes[f].hostIno == shape.host && s.inodes[f].size == shape.size
    && Contents(s, f) == shape.blocks && (shape.kind != KFile ==> s.named[f] == shape.links)
  }

  ghost predicate DoneOk(s: State, done: map<nat, Shape>) {
    forall f | f in done :: FinishedOk(s, f, done[f])
  }

  ghost predicate SameInode(s: State, t: State, f: nat) {
    && f in s.inodes && f in t.inodes && f in s.listed && f in t.listed
    && t.inodes[f].kind == s.inodes[f].kind && t.inodes[f].hostIno == s.inodes[f].hostIno
    && t.inodes[f].size == s.inodes[f].size && Contents(t, f) == Contents(s, f)
  }

  /** Every inode but cur is as it was, link counts aside; cur has kept its kind and host number. */
  ghost predicate SameBut(s: State, t: State, cur: nat) {
    && (forall f | f in s.inodes && f != cur :: SameInode(s, t, f))
    && (cur in s.inodes ==> cur in t.inodes && t.inodes[cur].kind == s.inodes[cur].kind
                            && t.inodes[cur].hostIno == s.inodes[cur].hostIno)
  }

  lemma SameButRefl(s: State, cur: nat)
    requires s.listed.Keys == s.inodes.Keys
    ensures SameBut(s, s, cur)
  {
  }

  lemma SameButChains(s: State, t: State, u: State, cur: nat)
    requires SameBut(s, t, cur) && SameBut(t, u, cur)
    ensures SameBut(s, u, cur)
  {
    hide Contents;
    forall f | f in s.inodes && f != cur ensures SameInode(s, u, f) {
      assert SameInode(s, t, f) && SameInode(t, u, f);
    }
  }

  /** Finished inodes stay finished while another inode is worked on. */
  lemma DoneKept(s: State, t: State, done: map<nat, Shape>, cur: nat)
    requires DoneOk(s, done) && SameBut(s, t, cur) && cur !in done
    requires forall f | f in s.inodes && s.inodes[f].kind != KFile && f in done ::
               f in t.named && f in s.named && t.named[f] == s.named[f]
    requires forall f | f in t.inodes :: f in t.named
    ensures DoneOk(t, done)
  {
    hide Contents;
    forall f | f in done ensures FinishedOk(t, f, done[f]) {
      assert FinishedOk(s, f, done[f]) && SameInode(s, t, f);
    }
  }

  // ----- writing a block -----

  ghost function Written(s: State, content: Content): State {
    s.(nextIno := s.nextIno + 1, image := s.image[s.nextIno := content])
  }

  lemma WrittenRoles(s: State, content: Content)
    requires RolesOk(s) && s.nextIno < s.ninos
    ensures RolesOk(Written(s, content)) && s.nextIno !in s.image
  {
    NewNumber(s);
    var t := Written(s, content);
    assert forall b :: b in t.image <==> b == s.nextIno || b in s.image;
    assert forall b :: IsInode(t, b) <==> IsInode(s, b);
  }

  lemma WrittenFiles(s: State, content: Content)
    requires FilesOk(s)
    ensures FilesOk(Written(s, content))
  {
    hide FileOk;
    forall f | f in s.inodes ensures OneFileOk(Written(s, content), f) { assert OneFileOk(s, f); }
  }

  lemma WrittenOwners(s: State, content: Content)
    requires OwnersOk(s) && s.nextIno !in s.image && s.nextIno !in s.caches
    ensures OwnersOk(Written(s, content)) && s.nextIno !in s.owner
  {
    forall f | f in s.inodes ensures OneOwnerOk(Written(s, content), f) { assert OneOwnerOk(s, f); }
  }

  lemma WrittenKeeps(s: State, content: Content)
    requires Inv(s) && s.nextIno < s.ninos
    ensures Inv(Written(s, content)) && s.nextIno !in s.image && s.nextIno !in s.owner
  {
    hide RolesOk, FilesOk, OwnersOk, LinksOk, InodeChainsOk, BlockChainsOk;
    NewNumber(s);
    WrittenRoles(s, content);
    WrittenFiles(s, content);
    WrittenOwners(s, content);
    WrittenRest(s, content);
  }

  lemma WrittenRest(s: State, content: Content)
    requires LinksOk(s) && InodeChainsOk(s) && BlockChainsOk(s)
    ensures var t := Written(s, content); LinksOk(t) && InodeChainsOk(t) && BlockChainsOk(t)
  {
    hide Hash32;
  }

  /** The blocks an inode lists have been written. */
  lemma ListedWritten(s: State, f: nat)
    requires OwnersOk(s) && f in s.inodes
    ensures f in s.listed && f in s.own && forall b | b in s.listed[f] :: b in s.image
  {
    assert OneOwnerOk(s, f);
  }

  lemma ContentsSame(s: State, t: State, f: nat)
    requires f in s.listed && f in t.listed && t.listed[f] == s.listed[f]
    requires forall b | b in s.listed[f] :: b in s.image && b in t.image && t.image[b] == s.image[b]
    ensures Contents(t, f) == Contents(s, f)
  {
  }

  lemma WrittenContents(s: State, content: Content, f: nat)
    requires Inv(s) && s.nextIno < s.ninos && f in s.inodes && f in s.listed
    ensures Contents(Written(s, content), f) == Contents(s, f)
  {
    hide RolesOk, FilesOk, OwnersOk, LinksOk, InodeChainsOk, BlockChainsOk, Contents;
    NewNumber(s);
    ListedWritten(s, f);
    ContentsSame(s, Written(s, content), f);
  }

  lemma WrittenSame(s: State, content: Content)
    requires Inv(s) && s.nextIno < s.ninos
    ensures SameBut(s, Written(s, content), 0)
  {
    hide FileOk, Contents, RolesOk, FilesOk, LinksOk, InodeChainsOk, BlockChainsOk, OneOwnerOk;
    forall f | f in s.inodes ensures SameInode(s, Written(s, content), f) {
      WrittenContents(s, content, f);
    }
  }

  /** A new entry is one more naming its inode; other blocks name nothing. */
  lemma WrittenNaming(s: State, content: Content, f: nat)
    requires s.nextIno !in s.image
    ensures |Naming(Written(s, content).image, f)|
            == |Naming(s.image, f)| + if content.Entry? && InoOf(content) == f then 1 else 0
  {
    hide InoOf;
    var t := Written(s, content);
    if content.Entry? && InoOf(content) == f {
      assert Naming(t.image, f) == Naming(s.image, f) + {s.nextIno};
    } else {
      assert Naming(t.image, f) == Naming(s.image, f);
    }
  }

  // ----- a new inode -----

  ghost function WithInode(s: State, n: nat, kind: Kind, hostIno: nat): State
    requires Hash64(hostIno) < |s.inodeChains|
  {
    s.(nextIno := s.nextIno + 1, inodes := s.inodes[n := FreshInode(kind, hostIno)],
       inodeChains := s.inodeChains[Hash64(hostIno) := [n] + s.inodeChains[Hash64(hostIno)]],
       listed := s.listed[n := []], own := s.own[n := []], named := s.named[n := 0])
  }

  lemma NewNumber(s: State)
    requires RolesOk(s)
    ensures s.nextIno !in s.inodes && s.nextIno !in s.caches && s.nextIno !in s.image && s.nextIno > BLKN_ROOT
  {
    assert !(FirstIno(s.ninos) <= s.nextIno < s.nextIno);
    assert !IsInode(s, s.nextIno);
  }

  lemma WithInodeRoles(s: State, kind: Kind, hostIno: nat)
    requires RolesOk(s) && s.nextIno < s.ninos && |s.inodeChains| == HASH_LIST_SIZE
    ensures RolesOk(WithInode(s, s.nextIno, kind, hostIno))
  {
    hide Hash32;
    NewNumber(s);
    var t := WithInode(s, s.nextIno, kind, hostIno);
    forall b: nat ensures FirstIno(t.ninos) <= b < t.nextIno <==> IsInode(t, b) || b in t.caches || b in t.image {
      assert IsInode(t, b) <==> IsInode(s, b) || b == s.nextIno;
    }
  }

  lemma WithInodeFiles(s: State, n: nat, kind: Kind, hostIno: nat)
    requires FilesOk(s) && n !in s.inodes && |s.inodeChains| == HASH_LIST_SIZE
    ensures FilesOk(WithInode(s, n, kind, hostIno))
  {
    hide FileOk, Hash32;
    var t := WithInode(s, n, kind, hostIno);
    FreshFileOk(kind, hostIno, t.caches);
    forall f | f in t.inodes ensures OneFileOk(t, f) { assert f != n ==> OneFileOk(s, f); }
  }

  lemma WithInodeOwner(s: State, n: nat, kind: Kind, hostIno: nat, f: nat)
    requires n !in s.inodes && |s.inodeChains| == HASH_LIST_SIZE && (f == n || OneOwnerOk(s, f))
    ensures OneOwnerOk(WithInode(s, n, kind, hostIno), f)
  {
    hide Hash32;
  }

  lemma WithInodeOwners(s: State, n: nat, kind: Kind, hostIno: nat)
    requires OwnersOk(s) && n !in s.inodes && |s.inodeChains| == HASH_LIST_SIZE
    ensures OwnersOk(WithInode(s, n, kind, hostIno))
  {
    hide Hash32, OneOwnerOk;
    var t := WithInode(s, n, kind, hostIno);
    forall f | f in t.inodes ensures OneOwnerOk(t, f) { WithInodeOwner(s, n, kind, hostIno, f); }
  }

  lemma WithInodeKeeps(s: State, kind: Kind, hostIno: nat)
    requires Inv(s) && s.nextIno < s.ninos
    ensures Hash64(hostIno) < |s.inodeChains|
    ensures Inv(WithInode(s, s.nextIno, kind, hostIno)) && s.nextIno !in s.inodes
  {
    hide RolesOk, FilesOk, OwnersOk, LinksOk, BlockChainsOk, Hash32;
    NewNumber(s);
    WithInodeRest(s, s.nextIno, kind, hostIno);
    WithInodeRoles(s, kind, hostIno);
    WithInodeFiles(s, s.nextIno, kind, hostIno);
    WithInodeOwners(s, s.nextIno, kind, hostIno);
    WithInodeChains(s, s.nextIno, kind, hostIno);
  }

  lemma WithInodeRest(s: State, n: nat, kind: Kind, hostIno: nat)
    requires LinksOk(s) && BlockChainsOk(s) && n !in s.inodes && Hash64(hostIno) < |s.inodeChains|
    ensures var t := WithInode(s, n, kind, hostIno); LinksOk(t) && BlockChainsOk(t)
  {
    hide Hash32;
  }

  lemma WithInodeChains(s: State, n: nat, kind: Kind, hostIno: nat)
    requires InodeChainsOk(s) && n !in s.inodes
    ensures InodeChainsOk(WithInode(s, n, kind, hostIno))
  {
    hide Hash32;
    var t := WithInode(s, n, kind, hostIno);
    forall f | f in t.inodes ensures f in t.inodeChains[Hash64(t.inodes[f].hostIno)] {
      if f == n { assert t.inodeChains[Hash64(hostIno)][0] == n; } else {
        assert f in s.inodeChains[Hash64(s.inodes[f].hostIno)];
      }
    }
    forall h, f | 0 <= h < HASH_LIST_SIZE && f in t.inodeChains[h] ensures f in t.inodes {
      assert f in s.inodeChains[h] || f == n;
    }
  }

  lemma WithInodeSame(s: State, kind: Kind, hostIno: nat)
    requires Inv(s) && s.nextIno < s.ninos
    ensures Hash64(hostIno) < |s.inodeChains| && s.nextIno !in s.inodes
    ensures var t := WithInode(s, s.nextIno, kind, hostIno);
            && SameBut(s, t, 0) && s.nextIno in t.listed && Contents(t, s.nextIno) == []
            && forall f | f in s.inodes :: SameInode(s, t, f)
  {
    hide RolesOk, OwnersOk, LinksOk, BlockChainsOk, Contents, Hash32, FileOk;
    NewNumber(s);
    var t := WithInode(s, s.nextIno, kind, hostIno);
    NoContents(t, s.nextIno);
    forall f | f in s.inodes ensures SameInode(s, t, f) {
      assert OneFileOk(s, f);
      SameListing(s, t, f);
    }
  }

  lemma NoContents(s: State, f: nat)
    requires f in s.listed && s.listed[f] == []
    ensures Contents(s, f) == []
  {
  }

  lemma SameListing(s: State, t: State, f: nat)
    requires f in s.listed && f in t.listed && t.listed[f] == s.listed[f] && t.image == s.image
    ensures Contents(t, f) == Contents(s, f)
  {
  }

  // ----- an appended block -----

  /** t is s with block b appended to cur, as append_block leaves it. */
  ghost predicate AppendedTo(s: State, t: State, cur: nat, b: nat, size: nat) {
    && t.image == s.image && t.named == s.named && t.inodes.Keys == s.inodes.Keys && cur in s.inodes && cur in s.listed
    && t.listed == s.listed[cur := s.listed[cur] + [b]]
    && (forall f | f in s.inodes && f != cur :: t.inodes[f] == s.inodes[f])
    && t.inodes[cur].kind == s.inodes[cur].kind && t.inodes[cur].hostIno == s.inodes[cur].hostIno
    && t.inodes[cur].size == s.inodes[cur].size + size
  }

  lemma AppendedSame(s: State, t: State, cur: nat, b: nat, size: nat)
    requires AppendedTo(s, t, cur, b, size) && s.listed.Keys == s.inodes.Keys
    ensures SameBut(s, t, cur) && cur in t.listed && Contents(t, cur) == Contents(s, cur) + [ContentAt(s.image, b)]
  {
    forall f | f in s.inodes && f != cur ensures SameInode(s, t, f) { SameListing(s, t, f); }
  }

  /** Where the entries and the counts stand after one more entry names file. */
  lemma EntryCounted(s: State, t: State, u: State, file: nat, content: Content)
    requires NamedOk(s) && s.nextIno !in s.image && content.Entry? && InoOf(content) == file && file in s.inodes
    requires t == Written(s, content) && u.image == t.image && u.inodes.Keys == s.inodes.Keys
    requires file in s.named && u.named == s.named[file := s.named[file] + 1]
    ensures NamedOk(u)
  {
    hide Naming;
    forall f | f in u.inodes ensures f in u.named && u.named[f] == |Naming(u.image, f)| {
      WrittenNaming(s, content, f);
    }
  }

  lemma DataCounted(s: State, content: Content, u: State)
    requires NamedOk(s) && s.nextIno !in s.image && !content.Entry?
    requires u.image == Written(s, content).image && u.inodes.Keys == s.inodes.Keys && u.named == s.named
    ensures NamedOk(u)
  {
    hide Naming;
    forall f | f in u.inodes ensures f in u.named && u.named[f] == |Naming(u.image, f)| {
      WrittenNaming(s, content, f);
    }
  }

  /** Every block written belongs to a file or directory. */
  ghost predicate AllListed(s: State) {
    forall b | b in s.image :: b in s.owner && s.owner[b] in s.listed && b in s.listed[s.owner[b]]
  }

  lemma NewListed(s: State, content: Content, t: State, cur: nat)
    requires AllListed(s) && t.image == Written(s, content).image && cur in s.listed
    requires t.listed == s.listed[cur := s.listed[cur] + [s.nextIno]] && s.nextIno in t.owner
             && t.owner[s.nextIno] == cur
    requires forall c | c in s.owner :: c in t.owner && t.owner[c] == s.owner[c]
    ensures AllListed(t)
  {
    assert s.nextIno in t.listed[cur];
  }

  lemma StillListed(s: State, t: State)
    requires AllListed(s) && t.image == s.image && t.owner == s.owner
    requires forall f | f in s.listed :: f in t.listed && t.listed[f] == s.listed[f]
    ensures AllListed(t)
  {
  }

  // ----- one more link -----

  ghost function Linked(s: State, f: nat): State
    requires f in s.inodes && f in s.named
  {
    s.(inodes := s.inodes[f := s.inodes[f].(nlinks := (s.inodes[f].nlinks + 1) % 0x1_0000)],
       named := s.named[f := s.named[f] + 1])
  }

  lemma LinksFree(node: Inode, caches: Caches, list: seq<nat>, own: seq<nat>, n: nat)
    requires FileOk(node, caches, list, own)
    ensures FileOk(node.(nlinks := n), caches, list, own)
  {
  }

  lemma LinkedFiles(s: State, f: nat)
    requires FilesOk(s) && f in s.inodes && f in s.named
    ensures FilesOk(Linked(s, f))
  {
    hide FileOk;
    forall g | g in s.inodes ensures OneFileOk(Linked(s, f), g) {
      assert OneFileOk(s, g);
      if g == f { LinksFree(s.inodes[f], s.caches, s.listed[f], s.own[f], (s.inodes[f].nlinks + 1) % 0x1_0000); }
    }
  }

  lemma LinkedOwners(s: State, f: nat)
    requires OwnersOk(s) && f in s.inodes && f in s.named
    ensures OwnersOk(Linked(s, f))
  {
    forall g | g in s.inodes ensures OneOwnerOk(Linked(s, f), g) { assert OneOwnerOk(s, g); }
  }

  lemma LinkedRoles(s: State, f: nat)
    requires RolesOk(s) && f in s.inodes && f in s.named
    ensures RolesOk(Linked(s, f))
  {
    assert Linked(s, f).inodes.Keys == s.inodes.Keys;
    assert forall b :: IsInode(Linked(s, f), b) <==> IsInode(s, b);
  }

  lemma LinkedKeeps(s: State, f: nat)
    requires Inv(s) && f in s.inodes
    ensures f in s.named && Inv(Linked(s, f))
  {
    hide RolesOk, FilesOk, OwnersOk, InodeChainsOk;
    LinkedRoles(s, f);
    LinkedFiles(s, f);
    LinkedOwners(s, f);
    LinkedChains(s, f);
  }

  lemma LinkedChains(s: State, f: nat)
    requires InodeChainsOk(s) && f in s.inodes && f in s.named
    ensures InodeChainsOk(Linked(s, f))
  {
    hide Hash32;
    var t := Linked(s, f);
    forall g | g in t.inodes ensures g in t.inodeChains[Hash64(t.inodes[g].hostIno)] {
      assert g in s.inodeChains[Hash64(s.inodes[g].hostIno)];
    }
  }

  lemma LinkedSame(s: State, f: nat)
    requires f in s.inodes && f in s.named && s.listed.Keys == s.inodes.Keys
    ensures SameBut(s, Linked(s, f), 0) && Linked(s, f).listed == s.listed
    ensures forall g | g in s.inodes :: SameInode(s, Linked(s, f), g)
  {
    forall g | g in s.inodes ensures SameInode(s, Linked(s, f), g) { SameListing(s, Linked(s, f), g); }
  }

  lemma SameWeaken(s: State, t: State, cur: nat)
    requires SameBut(s, t, 0) && 0 !in s.inodes && cur in s.inodes
    ensures SameBut(s, t, cur)
  {
    assert SameInode(s, t, cur);
  }

  lemma NoZero(s: State)
    requires Inv(s)
    ensures 0 !in s.inodes && BLKN_ROOT in s.inodes && s.listed.Keys == s.inodes.Keys && s.named.Keys == s.inodes.Keys
  {
    assert !IsInode(s, 0);
  }

  // ----- what the walk keeps -----

  /** Inode f agrees with the host; a regular file is finished as soon as it is made. */
  ghost predicate KnownInode(s: State, f: nat, done: map<nat, Shape>, files: map<nat, seq<int>>, kinds: map<nat, Kind>)
    requires f in s.inodes
  {
    var node := s.inodes[f];
    && node.hostIno in kinds && kinds[node.hostIno] == node.kind
    && (node.kind == KFile ==>
          f in done && node.hostIno in files && done[f] == FileShape(node.hostIno, files[node.hostIno]))
  }

  /** The root has host number 0, which no host node has; files that share a host inode share one inode. */
  ghost predicate KnownOk(s: State, done: map<nat, Shape>, files: map<nat, seq<int>>, kinds: map<nat, Kind>) {
    && 0 !in kinds && BLKN_ROOT in s.inodes && s.inodes[BLKN_ROOT].hostIno == 0 && s.inodes[BLKN_ROOT].kind == KDir
    && (forall f | f in s.inodes && f != BLKN_ROOT :: KnownInode(s, f, done, files, kinds))
    && (forall f, g | f in s.inodes && g in s.inodes && s.inodes[f].kind == KFile && s.inodes[g].kind == KFile
                      && s.inodes[f].hostIno == s.inodes[g].hostIno :: f == g)
  }

  ghost predicate WalkOk(s: State, done: map<nat, Shape>, files: map<nat, seq<int>>, kinds: map<nat, Kind>) {
    NamedOk(s) && AllListed(s) && DoneOk(s, done) && KnownOk(s, done, files, kinds)
  }

  /** The host directories met so far. */
  ghost predicate DirsIn(s: State, seen: set<nat>) {
    forall f | f in s.inodes && f != BLKN_ROOT && s.inodes[f].kind == KDir :: s.inodes[f].hostIno in seen
  }

  /** Only inodes made since s are newly finished. */
  ghost predicate DoneSince(s: State, done: map<nat, Shape>, done': map<nat, Shape>) {
    DoneGrows(done, done') && forall f | f in done' && f !in done :: f !in s.inodes
  }

  /** The entries that, from s to t, came to name the directories and links that were there: c for cur, p for
      parent, none for any other. */
  ghost predicate NamesAdded(s: State, t: State, cur: nat, c: nat, parent: nat, p: nat) {
    forall f | f in s.inodes && s.inodes[f].kind != KFile ::
      f in s.named && f in t.named
      && t.named[f] == s.named[f] + (if f == cur then c else 0) + (if f == parent then p else 0)
  }

  /** The contents b of a directory are a and one more entry. */
  ghost predicate EntryAdded(a: seq<Content>, b: seq<Content>, ino: nat, name: CString) {
    |b| == |a| + 1 && b[..|a|] == a && IsEntry(b[|a|], ino, name)
  }

  /** From s to t one item was added to directory cur: the entry at its end names inode ino. */
  ghost predicate ItemAdded(s: State, done: map<nat, Shape>, t: State, done': map<nat, Shape>, item: Item, cur: nat,
      ino: nat) {
    && SameBut(s, t, cur) && DoneSince(s, done, done') && cur in s.inodes && cur in t.inodes && cur in s.listed
        && cur in t.listed
    && EntryAdded(Contents(s, cur), Contents(t, cur), ino, item.name)
    && t.inodes[cur].size == s.inodes[cur].size + ENTRY_BYTES
    && Rep(done', item.node, ino, cur)
    && NamesAdded(s, t, cur, if item.node.HostDir? then 1 else 0, cur, 0)
  }

  /** The directory cur as it stands once items have been walked. */
  ghost function DirShape(t: State, cur: nat, items: seq<Item>): Shape
    requires cur in t.inodes && cur in t.listed
  {
    Shape(KDir, t.inodes[cur].hostIno, t.inodes[cur].size, Contents(t, cur), 2 + Subdirs(Visible(items)))
  }

  /** From s to t the items were walked into directory cur, which was empty in s. */
  ghost predicate DirOpened(s: State, done: map<nat, Shape>, t: State, done': map<nat, Shape>, items: seq<Item>,
      cur: nat, parent: nat) {
    && SameBut(s, t, cur) && DoneSince(s, done, done') && cur in s.inodes && cur in t.inodes && cur in t.listed
    && RepDir(done', items, DirShape(t, cur, items), cur, parent)
    && NamesAdded(s, t, cur, 1 + Subdirs(Visible(items)), parent, 1)
  }

  lemma DirStarts(s: State, t: State, done: map<nat, Shape>, cur: nat, parent: nat)
    requires SameBut(s, t, cur) && cur in s.inodes && cur in t.inodes && cur in t.listed
    requires var c := Contents(t, cur); |c| == 2 && IsEntry(c[0], cur, ".") && IsEntry(c[1], parent, "..")
    requires t.inodes[cur].size == 2 * ENTRY_BYTES
    requires NamesAdded(s, t, cur, 1, parent, 1)
    ensures DirOpened(s, done, t, done, [], cur, parent)
  {
  }

  lemma DirSkips(s: State, done: map<nat, Shape>, t: State, done': map<nat, Shape>, items: seq<Item>, item: Item,
      cur: nat, parent: nat)
    requires DirOpened(s, done, t, done', items, cur, parent) && Skipped(item)
    ensures DirOpened(s, done, t, done', items + [item], cur, parent)
  {
    hide SameBut, DoneSince, Contents, RepEntries;
    VisibleAppend(items, item);
    EntriesSkip(done', items, Contents(t, cur)[2..], cur, item);
  }

  lemma DirGoesOn(s: State, done: map<nat, Shape>, t: State, done': map<nat, Shape>, u: State, done'': map<nat, Shape>,
                  items: seq<Item>, item: Item, cur: nat, parent: nat, ino: nat)
    requires DirOpened(s, done, t, done', items, cur, parent) && ItemAdded(t, done', u, done'', item, cur, ino)
             && !Skipped(item)
    ensures DirOpened(s, done, u, done'', items + [item], cur, parent)
  {
    hide SameBut, DoneSince, Contents, RepEntries, Rep;
    VisibleAppend(items, item);
    SameButChains(s, t, u, cur);
    DoneChains(s, t, done, done', done'', cur);
    EntriesGrow(done', done'', items, Contents(t, cur)[2..], cur);
    var e := Contents(u, cur)[|Contents(t, cur)|];
    EntriesAppend(done'', items, Contents(t, cur)[2..], cur, item, e);
    assert Contents(u, cur)[2..] == Contents(t, cur)[2..] + [e];
    NamedChains(s, t, u, cur, 1 + Subdirs(Visible(items)), parent, if item.node.HostDir? then 1 else 0);
  }

  lemma DoneChains(s: State, t: State, done: map<nat, Shape>, done': map<nat, Shape>, done'': map<nat, Shape>, cur: nat)
    requires SameBut(s, t, cur) && DoneSince(s, done, done') && DoneSince(t, done', done'')
    ensures DoneSince(s, done, done'') && DoneGrows(done', done'')
  {
    hide Contents;
    forall f | f in s.inodes ensures f in t.inodes { if f != cur { assert SameInode(s, t, f); } }
  }

  lemma NamedChains(s: State, t: State, u: State, cur: nat, c: nat, parent: nat, c': nat)
    requires SameBut(s, t, cur) && NamesAdded(s, t, cur, c, parent, 1) && NamesAdded(t, u, cur, c', cur, 0)
    ensures NamesAdded(s, u, cur, c + c', parent, 1)
  {
    hide Contents;
    forall f | f in s.inodes && s.inodes[f].kind != KFile ensures f in t.inodes && t.inodes[f].kind != KFile {
      if f != cur { assert SameInode(s, t, f); }
    }
  }

  // ----- steps of the walk -----

  lemma KnownKept(s: State, t: State, cur: nat, done: map<nat, Shape>, files: map<nat, seq<int>>, kinds: map<nat, Kind>)
    requires KnownOk(s, done, files, kinds) && SameBut(s, t, cur) && t.inodes.Keys == s.inodes.Keys
    ensures KnownOk(t, done, files, kinds)
  {
    hide Contents, FileShape;
    forall f | f in s.inodes
      ensures t.inodes[f].kind == s.inodes[f].kind && t.inodes[f].hostIno == s.inodes[f].hostIno
    {
      if f != cur { assert SameInode(s, t, f); }
    }
    forall f | f in t.inodes && f != BLKN_ROOT ensures KnownInode(t, f, done, files, kinds) {
      assert KnownInode(s, f, done, files, kinds);
    }
  }

  lemma DirsKept(s: State, t: State, cur: nat, seen: set<nat>)
    requires DirsIn(s, seen) && SameBut(s, t, cur) && t.inodes.Keys == s.inodes.Keys
    ensures DirsIn(t, seen)
  {
    hide Contents;
    forall f | f in t.inodes && f != BLKN_ROOT && t.inodes[f].kind == KDir ensures t.inodes[f].hostIno in seen {
      if f != cur { assert SameInode(s, t, f); }
    }
  }

  /** A new inode is named by nothing and owns nothing. */
  lemma WithInodeCounted(s: State, n: nat, kind: Kind, hostIno: nat)
    requires NamedOk(s) && AllListed(s) && n !in s.inodes && n !in s.listed && Hash64(hostIno) < |s.inodeChains|
    ensures NamedOk(WithInode(s, n, kind, hostIno)) && AllListed(WithInode(s, n, kind, hostIno))
  {
    hide Hash32;
    assert Naming(s.image, n) == {};
  }

  lemma WithInodeDone(s: State, n: nat, kind: Kind, hostIno: nat, done: map<nat, Shape>)
    requires DoneOk(s, done) && n !in s.inodes && Hash64(hostIno) < |s.inodeChains|
    ensures DoneOk(WithInode(s, n, kind, hostIno), done) && n !in done
  {
    hide Contents, Hash32;
    var t := WithInode(s, n, kind, hostIno);
    forall f | f in done ensures FinishedOk(t, f, done[f]) {
      assert FinishedOk(s, f, done[f]);
      SameListing(s, t, f);
    }
    DoneIn(s, done);
  }

  lemma DoneIn(s: State, done: map<nat, Shape>)
    requires DoneOk(s, done)
    ensures forall f | f in done :: f in s.inodes
  {
    forall f | f in done ensures f in s.inodes { assert FinishedOk(s, f, done[f]); }
  }

  lemma WithInodeKnown(s: State, n: nat, kind: Kind, hostIno: nat, done: map<nat, Shape>, files: map<nat, seq<int>>,
      kinds: map<nat, Kind>)
    requires KnownOk(s, done, files, kinds) && n !in s.inodes && Hash64(hostIno) < |s.inodeChains|
    requires hostIno in kinds && kinds[hostIno] == kind && kind != KFile
    ensures KnownOk(WithInode(s, n, kind, hostIno), done, files, kinds)
  {
    hide Hash32, FileShape;
    var t := WithInode(s, n, kind, hostIno);
    forall f | f in t.inodes && f != BLKN_ROOT ensures KnownInode(t, f, done, files, kinds) {
      if f != n { assert KnownInode(s, f, done, files, kinds); }
    }
  }

  /** Nothing that was there has changed, except possibly directory link counts. */
  ghost predicate Untouched(s: State, t: State) {
    forall f | f in s.inodes :: SameInode(s, t, f)
  }

  lemma UntouchedThenSame(s: State, t: State, u: State, n: nat)
    requires Untouched(s, t) && SameBut(t, u, n) && n !in s.inodes
    ensures Untouched(s, u)
  {
    hide Contents;
    forall f | f in s.inodes ensures SameInode(s, u, f) { assert SameInode(s, t, f) && SameInode(t, u, f); }
  }

  lemma UntouchedSame(s: State, t: State, u: State, cur: nat)
    requires Untouched(s, t) && SameBut(t, u, cur)
    ensures SameBut(s, u, cur)
  {
    hide Contents;
    forall f | f in s.inodes ensures SameInode(s, t, f) { }
    forall f | f in s.inodes && f != cur ensures SameInode(s, u, f) { assert SameInode(s, t, f) && SameInode(t, u, f); }
  }

  /** Making the inode first and naming it then is adding the item. */
  lemma AddedAfter(s: State, done: map<nat, Shape>, t: State, done': map<nat, Shape>, u: State, done'': map<nat, Shape>,
                   item: Item, cur: nat, ino: nat)
    requires Untouched(s, t) && DoneSince(s, done, done') && NamesAdded(s, t, 0, 0, 0, 0)
    requires ItemAdded(t, done', u, done'', item, cur, ino) && cur in s.inodes
    ensures ItemAdded(s, done, u, done'', item, cur, ino)
  {
    hide Contents, Rep;
    UntouchedSame(s, t, u, cur);
    assert SameInode(s, t, cur);
    assert forall f | f in s.inodes :: SameInode(s, t, f);
  }

  // ----- a new regular file -----

  lemma FinishedAdd(t: State, done: map<nat, Shape>, n: nat, shape: Shape)
    requires DoneOk(t, done) && FinishedOk(t, n, shape)
    ensures DoneOk(t, done[n := shape])
  {
  }

  lemma FileKnown(s: State, t: State, n: nat, hostIno: nat, done: map<nat, Shape>, files: map<nat, seq<int>>,
      kinds: map<nat, Kind>)
    requires KnownOk(s, done, files, kinds) && Untouched(s, t) && n !in s.inodes && t.inodes.Keys == s.inodes.Keys + {n}
    requires t.inodes[n].hostIno == hostIno && t.inodes[n].kind == KFile
    requires hostIno in kinds && kinds[hostIno] == KFile && hostIno in files
    requires forall f | f in s.inodes :: s.inodes[f].hostIno != hostIno
    ensures KnownOk(t, done[n := FileShape(hostIno, files[hostIno])], files, kinds)
  {
    hide Contents, FileShape;
    var done' := done[n := FileShape(hostIno, files[hostIno])];
    forall f | f in s.inodes
      ensures t.inodes[f].kind == s.inodes[f].kind && t.inodes[f].hostIno == s.inodes[f].hostIno
    {
      assert SameInode(s, t, f);
    }
    forall f | f in t.inodes && f != BLKN_ROOT ensures KnownInode(t, f, done', files, kinds) {
      if f != n { assert KnownInode(s, f, done, files, kinds); }
    }
  }

  lemma FileDirs(s: State, t: State, n: nat, seen: set<nat>)
    requires DirsIn(s, seen) && Untouched(s, t) && t.inodes.Keys == s.inodes.Keys + {n} && t.inodes[n].kind != KDir
    ensures DirsIn(t, seen)
  {
    hide Contents;
    forall f | f in t.inodes && f != BLKN_ROOT && t.inodes[f].kind == KDir ensures t.inodes[f].hostIno in seen {
      assert SameInode(s, t, f);
    }
  }

  /** What new inode n, now with its contents, leaves of the invariants. */
  lemma MadeDone(s: State, m: State, t: State, n: nat, kind: Kind, hostIno: nat, done: map<nat, Shape>, shape: Shape)
    requires DoneOk(s, done) && n !in s.inodes && Hash64(hostIno) < |s.inodeChains|
             && m == WithInode(s, n, kind, hostIno)
    requires SameBut(m, t, n) && t.inodes.Keys == m.inodes.Keys && t.named == m.named && t.named.Keys == t.inodes.Keys
    requires FinishedOk(t, n, shape)
    ensures DoneOk(t, done[n := shape]) && DoneSince(s, done, done[n := shape])
  {
    hide Contents, Hash32, FinishedOk;
    WithInodeDone(s, n, kind, hostIno, done);
    DoneKept(m, t, done, n);
    FinishedAdd(t, done, n, shape);
  }

  lemma MadeNamed(s: State, m: State, t: State, n: nat, kind: Kind, hostIno: nat)
    requires n !in s.inodes && Hash64(hostIno) < |s.inodeChains| && m == WithInode(s, n, kind, hostIno)
             && t.named == m.named
    requires s.named.Keys == s.inodes.Keys
    ensures NamesAdded(s, t, 0, 0, 0, 0)
  {
    hide Hash32;
  }

  lemma LinkKnown(s: State, t: State, n: nat, hostIno: nat, done: map<nat, Shape>, files: map<nat, seq<int>>,
      kinds: map<nat, Kind>)
    requires KnownOk(s, done, files, kinds) && Untouched(s, t) && n !in s.inodes && n !in done
             && t.inodes.Keys == s.inodes.Keys + {n}
    requires t.inodes[n].hostIno == hostIno && t.inodes[n].kind == KLink && hostIno in kinds && kinds[hostIno] == KLink
    ensures KnownOk(t, done, files, kinds)
  {
    hide Contents, FileShape;
    forall f | f in s.inodes
      ensures t.inodes[f].kind == s.inodes[f].kind && t.inodes[f].hostIno == s.inodes[f].hostIno
    {
      assert SameInode(s, t, f);
    }
    forall f | f in t.inodes && f != BLKN_ROOT ensures KnownInode(t, f, done, files, kinds) {
      if f != n { assert KnownInode(s, f, done, files, kinds); }
    }
  }

  /** Link n, new since s, has its target in t and its one name in u. */
  lemma LinkNamed(s: State, done: map<nat, Shape>, t: State, u: State, n: nat, target: seq<int>, item: Item, cur: nat)
    requires item.node.HostLink? && target == item.node.target && n !in s.inodes && n !in done
    requires cur in s.inodes && cur !in done && s.inodes[cur].kind == KDir && DoneOk(t, done)
    requires Untouched(s, t) && SameBut(t, u, cur) && u.inodes.Keys == t.inodes.Keys && NamesAdded(s, t, 0, 0, 0, 0)
    requires n in t.inodes && t.inodes[n].kind == KLink && t.inodes[n].hostIno == item.node.linkIno
             && t.inodes[n].size == |target|
    requires n in t.listed && Contents(t, n) == [Data(Padded(target))] && n in t.named && t.named[n] == 0
    requires u.named == t.named[n := 1] && t.named.Keys == t.inodes.Keys
    requires cur in t.listed && cur in u.listed && EntryAdded(Contents(t, cur), Contents(u, cur), n, item.name)
    requires cur in u.inodes && cur in t.inodes && u.inodes[cur].size == t.inodes[cur].size + ENTRY_BYTES
    ensures var done' := done[n := LinkShape(item.node.linkIno, target)];
            DoneOk(u, done') && ItemAdded(s, done, u, done', item, cur, n)
  {
    hide Contents, EntryAdded, DoneOk, Untouched, FinishedOk, SameBut;
    UntouchedAt(s, t, cur);
    UntouchedSame(s, t, u, cur);
    DoneKept(t, u, done, cur);
    LinkItself(t, u, n, item.node.linkIno, target, cur);
    FinishedAdd(u, done, n, LinkShape(item.node.linkIno, target));
    LinkNames(s, t, u, n, cur);
  }

  lemma LinkItself(t: State, u: State, n: nat, host: nat, target: seq<int>, cur: nat)
    requires SameBut(t, u, cur) && n != cur && n in t.inodes && n in u.named && u.named[n] == 1
    requires t.inodes[n].kind == KLink && t.inodes[n].hostIno == host && t.inodes[n].size == |target|
    requires n in t.listed && Contents(t, n) == [Data(Padded(target))]
    ensures FinishedOk(u, n, LinkShape(host, target))
  {
    assert SameInode(t, u, n);
  }

  lemma LinkNames(s: State, t: State, u: State, n: nat, cur: nat)
    requires Untouched(s, t) && NamesAdded(s, t, 0, 0, 0, 0) && n !in s.inodes && u.named == t.named[n := 1]
    ensures NamesAdded(s, u, cur, 0, cur, 0)
  {
    hide SameInode;
  }

  // ----- counting the inodes made -----

  ghost function OfKind(s: State, kind: Kind): set<nat> {
    set f | f in s.inodes && s.inodes[f].kind == kind
  }

  ghost function Hosts(inodes: map<nat, Inode>, fs: set<nat>): set<nat> {
    set f | f in fs && f in inodes :: inodes[f].hostIno
  }

  /** The host files, directories and links there are inodes for. */
  ghost function Made(s: State): Census {
    Census(Hosts(s.inodes, OfKind(s, KFile)), |OfKind(s, KDir)|, |OfKind(s, KLink)|)
  }

  lemma MadeSame(s: State, t: State, cur: nat)
    requires SameBut(s, t, cur) && t.inodes.Keys == s.inodes.Keys
    ensures Made(t) == Made(s)
  {
    hide Contents;
    forall f | f in s.inodes ensures t.inodes[f].kind == s.inodes[f].kind && t.inodes[f].hostIno == s.inodes[f].hostIno
    {
      if f != cur { assert SameInode(s, t, f); }
    }
    assert OfKind(t, KFile) == OfKind(s, KFile);
    assert OfKind(t, KDir) == OfKind(s, KDir);
    assert OfKind(t, KLink) == OfKind(s, KLink);
  }

  /** A new inode counts as one more of its kind. */
  lemma MadeOne(s: State, n: nat, kind: Kind, hostIno: nat)
    requires n !in s.inodes && Hash64(hostIno) < |s.inodeChains|
    ensures Made(WithInode(s, n, kind, hostIno))
            == Made(s).Plus(match kind
                            case KFile => Census({hostIno}, 0, 0)
                            case KDir => Census({}, 1, 0)
                            case KLink => Census({}, 0, 1))
  {
    hide Hash32, OfKind, WithInode;
    OfKindNew(s, n, kind, hostIno, KDir);
    OfKindNew(s, n, kind, hostIno, KLink);
    HostsNew(s, n, kind, hostIno);
  }

  lemma OfKindNew(s: State, n: nat, kind: Kind, hostIno: nat, k: Kind)
    requires n !in s.inodes && Hash64(hostIno) < |s.inodeChains|
    ensures var t := WithInode(s, n, kind, hostIno);
            && OfKind(t, k) == OfKind(s, k) + (if k == kind then {n} else {})
            && |OfKind(t, k)| == |OfKind(s, k)| + if k == kind then 1 else 0
  {
    hide Hash32;
  }

  lemma HostsNew(s: State, n: nat, kind: Kind, hostIno: nat)
    requires n !in s.inodes && Hash64(hostIno) < |s.inodeChains|
    ensures Made(WithInode(s, n, kind, hostIno)).files
            == Made(s).files + if kind == KFile then {hostIno} else {}
  {
    hide Hash32, OfKind, WithInode, Hosts;
    var t := WithInode(s, n, kind, hostIno);
    OfKindNew(s, n, kind, hostIno, KFile);
    OfKindIn(s, KFile);
    KeptInodes(s, n, kind, hostIno);
    HostsKept(s.inodes, t.inodes, OfKind(s, KFile));
    HostsMore(t.inodes, OfKind(s, KFile), n);
  }

  lemma HostsKept(inodes: map<nat, Inode>, inodes': map<nat, Inode>, fs: set<nat>)
    requires forall f | f in fs :: f in inodes && f in inodes' && inodes'[f] == inodes[f]
    ensures Hosts(inodes', fs) == Hosts(inodes, fs)
  {
  }

  lemma HostsMore(inodes: map<nat, Inode>, fs: set<nat>, n: nat)
    requires n in inodes
    ensures Hosts(inodes, fs + {n}) == Hosts(inodes, fs) + {inodes[n].hostIno}
  {
  }

  lemma KeptInodes(s: State, n: nat, kind: Kind, hostIno: nat)
    requires n !in s.inodes && Hash64(hostIno) < |s.inodeChains|
    ensures var t := WithInode(s, n, kind, hostIno);
            && n in t.inodes && t.inodes[n].hostIno == hostIno
            && forall f | f in s.inodes :: f in t.inodes && t.inodes[f] == s.inodes[f]
  {
    hide Hash32;
  }

  lemma OfKindIn(s: State, kind: Kind)
    ensures forall f | f in OfKind(s, kind) :: f in s.inodes
  {
  }

  /** A host file that has an inode is not counted again. */
  lemma MadeAlready(s: State, f: nat)
    requires f in s.inodes && s.inodes[f].kind == KFile
    ensures Made(s).Plus(Census({s.inodes[f].hostIno}, 0, 0)) == Made(s)
  {
    assert f in OfKind(s, KFile);
  }

  /** There are as many inodes as directories, links and different host files. */
  lemma InodeCount(s: State, done: map<nat, Shape>, files: map<nat, seq<int>>, kinds: map<nat, Kind>)
    requires KnownOk(s, done, files, kinds)
    ensures |s.inodes| == Made(s).dirs + Made(s).links + |Made(s).files|
  {
    hide KnownInode;
    HostsApart(s, OfKind(s, KFile));
    ThreeKinds(s);
  }

  lemma ThreeKinds(s: State)
    ensures |s.inodes| == |OfKind(s, KFile)| + |OfKind(s, KDir)| + |OfKind(s, KLink)|
  {
    var three := OfKind(s, KFile) + OfKind(s, KDir) + OfKind(s, KLink);
    assert s.inodes.Keys == three by {
      forall f | f in s.inodes ensures f in three { assert f in OfKind(s, s.inodes[f].kind); }
    }
    assert |three| == |OfKind(s, KFile) + OfKind(s, KDir)| + |OfKind(s, KLink)|;
  }

  /** Inodes with different host numbers have as many of these as there are of them. */
  lemma {:induction false} HostsApart(s: State, fs: set<nat>)
    requires fs <= s.inodes.Keys
    requires forall f, g | f in fs && g in fs && s.inodes[f].hostIno == s.inodes[g].hostIno :: f == g
    ensures |Hosts(s.inodes, fs)| == |fs|
  {
    if fs != {} {
      var f :| f in fs;
      var rest := fs - {f};
      HostsApart(s, rest);
      HostsMore(s.inodes, rest, f);
      assert fs == rest + {f};
    }
  }

  /** Finished files with one host number are one inode. */
  lemma FilesShared(s: State, done: map<nat, Shape>, files: map<nat, seq<int>>, kinds: map<nat, Kind>)
    requires DoneOk(s, done) && KnownOk(s, done, files, kinds)
    ensures OneEach(done)
  {
    hide KnownInode, Contents;
    forall f, g | f in done && g in done && done[f].kind == KFile && done[g].kind == KFile
                  && done[f].host == done[g].host
      ensures f == g
    {
      assert FinishedOk(s, f, done[f]) && FinishedOk(s, g, done[g]);
    }
  }

  /** One entry names each finished link. */
  ghost predicate OneName(s: State, done: map<nat, Shape>) {
    forall f | f in done && done[f].kind == KLink :: |Naming(s.image, f)| == done[f].links
  }

  lemma LinksNamed(s: State, done: map<nat, Shape>)
    requires NamedOk(s) && DoneOk(s, done)
    ensures OneName(s, done)
  {
    hide Naming, Contents;
    forall f | f in done && done[f].kind == KLink ensures |Naming(s.image, f)| == done[f].links {
      assert FinishedOk(s, f, done[f]);
    }
  }

  // ----- a directory -----

  /** The directory is being walked, so its own count can change. */
  lemma DotsNamed(s: State, t: State, u: State, cur: nat, parent: nat)
    requires t.inodes.Keys == s.inodes.Keys && s.named.Keys == s.inodes.Keys && cur in s.named && parent in s.named
    requires t.named == s.named[cur := s.named[cur] + 1]
    requires u.named == t.named[parent := t.named[parent] + 1]
    ensures NamesAdded(s, u, cur, 1, parent, 1)
  {
  }

  /** m is s with the new inode n for a directory found in cur. */
  ghost predicate DirBegun(s: State, done: map<nat, Shape>, m: State, n: nat, hostIno: nat, cur: nat) {
    && n !in s.inodes && n !in done && cur in s.inodes && cur !in done && s.inodes[cur].kind == KDir
    && Hash64(hostIno) < |s.inodeChains| && m == WithInode(s, n, KDir, hostIno) && Untouched(s, m)
    && s.named.Keys == s.inodes.Keys
  }

  /** s before, m with the inode n, t with its items, u with the entry naming it in cur. */
  ghost predicate DirSteps(s: State, done: map<nat, Shape>, m: State, t: State, done': map<nat, Shape>, u: State,
                           n: nat, hostIno: nat, items: seq<Item>, cur: nat, name: CString) {
    && n !in s.inodes && n !in done && cur in s.inodes && cur !in done && s.inodes[cur].kind == KDir
    && Hash64(hostIno) < |s.inodeChains| && m == WithInode(s, n, KDir, hostIno)
    && DirOpened(m, done, t, done', items, n, cur)
    && SameBut(t, u, cur) && u.inodes.Keys == t.inodes.Keys && cur in u.inodes && cur in u.listed && cur in t.listed
    && EntryAdded(Contents(t, cur), Contents(u, cur), n, name)
        && u.inodes[cur].size == t.inodes[cur].size + ENTRY_BYTES
    && n in t.named && u.named == t.named[n := t.named[n] + 1]
    && s.named.Keys == s.inodes.Keys && t.named.Keys == t.inodes.Keys && u.named.Keys == u.inodes.Keys
  }

  lemma DirLinks(s: State, done: map<nat, Shape>, m: State, t: State, done': map<nat, Shape>, u: State,
                 n: nat, hostIno: nat, items: seq<Item>, cur: nat, name: CString)
    requires DirSteps(s, done, m, t, done', u, n, hostIno, items, cur, name)
    ensures u.named[n] == 2 + Subdirs(Visible(items)) && NamesAdded(s, u, cur, 1, cur, 0)
  {
    hide Contents, Hash32, RepDir, SameInode, DoneSince, EntryAdded, Subdirs, Visible;
  }

  lemma DirFinished(s: State, done: map<nat, Shape>, m: State, t: State, done': map<nat, Shape>, u: State,
                    n: nat, hostIno: nat, items: seq<Item>, cur: nat, name: CString)
    requires DirSteps(s, done, m, t, done', u, n, hostIno, items, cur, name) && DoneOk(t, done')
    ensures n in t.inodes && n in t.listed && DoneOk(u, done'[n := DirShape(t, n, items)]) && n !in done'
    ensures DoneSince(s, done, done'[n := DirShape(t, n, items)])
  {
    hide Contents, Hash32, RepDir, SameBut, FinishedOk, DoneSince, EntryAdded, Subdirs, Visible;
    DirSince(s, done, m, t, done', u, n, hostIno, items, cur, name);
    DirLinks(s, done, m, t, done', u, n, hostIno, items, cur, name);
    DoneKept(t, u, done', cur);
    DirItself(s, done, m, t, done', u, n, hostIno, items, cur, name);
    FinishedAdd(u, done', n, DirShape(t, n, items));
  }

  lemma DirSince(s: State, done: map<nat, Shape>, m: State, t: State, done': map<nat, Shape>, u: State,
                 n: nat, hostIno: nat, items: seq<Item>, cur: nat, name: CString)
    requires DirSteps(s, done, m, t, done', u, n, hostIno, items, cur, name)
    ensures n in t.inodes && n in t.listed && n !in done' && cur !in done'
    ensures DoneSince(s, done, done'[n := DirShape(t, n, items)])
  {
    hide Contents, Hash32, RepDir, SameBut, FinishedOk, EntryAdded, NamesAdded, DirShape;
  }

  lemma DirItself(s: State, done: map<nat, Shape>, m: State, t: State, done': map<nat, Shape>, u: State,
                  n: nat, hostIno: nat, items: seq<Item>, cur: nat, name: CString)
    requires DirSteps(s, done, m, t, done', u, n, hostIno, items, cur, name)
    ensures n in t.inodes && n in t.listed && FinishedOk(u, n, DirShape(t, n, items))
  {
    hide Contents, Hash32, RepDir;
    DirLinks(s, done, m, t, done', u, n, hostIno, items, cur, name);
    assert SameInode(t, u, n);
  }

  lemma DirRep(done: map<nat, Shape>, items: seq<Item>, shape: Shape, n: nat, cur: nat, hostIno: nat)
    requires RepDir(done, items, shape, n, cur) && n !in done && shape.host == hostIno
    ensures Rep(done[n := shape], HostDir(hostIno, items), n, cur)
  {
    var done' := done[n := shape];
    EntriesGrow(done, done', items, shape.blocks[2..], n);
    assert RepDir(done', items, shape, n, cur);
  }

  lemma DirAdded(s: State, done: map<nat, Shape>, m: State, t: State, done': map<nat, Shape>, u: State,
                 n: nat, hostIno: nat, items: seq<Item>, cur: nat, name: CString)
    requires DirSteps(s, done, m, t, done', u, n, hostIno, items, cur, name) && DoneOk(t, done') && Untouched(s, m)
    ensures n in t.inodes && n in t.listed
    ensures var done'' := done'[n := DirShape(t, n, items)];
            ItemAdded(s, done, u, done'', Item(name, HostDir(hostIno, items)), cur, n) && DoneOk(u, done'')
  {
    hide Contents, Hash32, RepDir, SameBut, FinishedOk, Untouched, DoneSince, NamesAdded, DoneOk, Rep;
    DirFinished(s, done, m, t, done', u, n, hostIno, items, cur, name);
    DirLinks(s, done, m, t, done', u, n, hostIno, items, cur, name);
    DirHost(m, t, n);
    DirRep(done', items, DirShape(t, n, items), n, cur, hostIno);
    UntouchedThenSame(s, m, t, n);
    UntouchedSame(s, t, u, cur);
    UntouchedAt(s, t, cur);
  }

  lemma DirHost(m: State, t: State, n: nat)
    requires SameBut(m, t, n) && n in m.inodes
    ensures n in t.inodes && t.inodes[n].hostIno == m.inodes[n].hostIno
  {
  }

  lemma UntouchedAt(s: State, t: State, f: nat)
    requires Untouched(s, t) && f in s.inodes
    ensures SameInode(s, t, f)
  {
  }

  lemma KnownMore(s: State, n: nat, shape: Shape, done: map<nat, Shape>, files: map<nat, seq<int>>,
                  kinds: map<nat, Kind>)
    requires KnownOk(s, done, files, kinds) && n !in done
    ensures KnownOk(s, done[n := shape], files, kinds)
  {
    hide FileShape;
    forall f | f in s.inodes && f != BLKN_ROOT ensures KnownInode(s, f, done[n := shape], files, kinds) {
      assert KnownInode(s, f, done, files, kinds);
    }
  }
}
