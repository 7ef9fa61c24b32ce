/** The host directory tree, and what it means for inodes to represent it. */
module SfsTree {
  import opened SfsFile
  import opened SfsState
  import opened SfsEntry

  /** What lstat, readdir, read and readlink report. Items come in the order readdir gives them. */
  datatype Host =
    | HostDir(dirIno: nat, items: seq<Item>)
    | HostFile(fileIno: nat, data: seq<int>)
    | HostLink(linkIno: nat, target: seq<int>)
    | HostOther
  datatype Item = Item(name: CString, node: Host)

  predicate Dotted(name: string) {
    |name| > 0 && name[0] == '.'
  }

  /** Names with a leading dot are skipped, and so are nodes that are neither file, directory nor link. */
  predicate Skipped(item: Item) {
    Dotted(item.name) || item.node.HostOther?
  }

  /** Nothing the walk looks at has too long a name or is a link with too long a target. */
  predicate ItemsFit(items: seq<Item>)
    decreases items
  {
    items == [] || (ItemFits(items[0]) && ItemsFit(items[1..]))
  }

  predicate ItemFits(item: Item)
    decreases item
  {
    Dotted(item.name) || (
      && |item.name| <= MAX_FNAME_LEN
      && match item.node
         case HostDir(_, items) => ItemsFit(items)
         case HostLink(_, target) => |target| < BLKSIZE
         case _ => true)
  }

  lemma {:induction false} FitsAt(items: seq<Item>, i: nat)
    requires ItemsFit(items) && i < |items|
    ensures ItemFits(items[i])
    decreases i
  {
    if i > 0 { FitsAt(items[1..], i - 1); }
  }

  lemma {:induction false} FitsAppend(items: seq<Item>, item: Item)
    ensures ItemsFit(items + [item]) <==> ItemsFit(items) && ItemFits(item)
    decreases |items|
  {
    hide ItemFits;
    var all := items + [item];
    if items == [] {
      assert all[1..] == [];
    } else {
      assert all[1..] == items[1..] + [item];
      FitsAppend(items[1..], item);
    }
  }

  function Visible(items: seq<Item>): seq<Item> {
    if items == [] then [] else (if Skipped(items[0]) then [] else [items[0]]) + Visible(items[1..])
  }

  /** A block of the image: bytes, then zeros. */
  function Padded(bytes: seq<int>): seq<int> {
    if |bytes| >= BLKSIZE then bytes else bytes + seq(BLKSIZE - |bytes|, _ => 0)
  }

  /** The blocks of a file of these bytes. */
  function Chunks(data: seq<int>): seq<Content>
    decreases |data|
  {
    if data == [] then []
    else if |data| <= BLKSIZE then [Data(Padded(data))]
    else [Data(Padded(data[..BLKSIZE]))] + Chunks(data[BLKSIZE..])
  }

  /** A finished inode: its kind, the host inode it was made for, its size, the contents of its blocks in order,
      and, unless it is a regular file, the number of entries that name it. */
  datatype Shape = Shape(kind: Kind, host: nat, size: nat, blocks: seq<Content>, links: nat)

  function FileShape(host: nat, data: seq<int>): Shape { Shape(KFile, host, |data|, Chunks(data), 0) }
  function LinkShape(host: nat, target: seq<int>): Shape { Shape(KLink, host, |target|, [Data(Padded(target))], 1) }

  function Subdirs(items: seq<Item>): nat {
    if items == [] then 0 else (if items[0].node.HostDir? then 1 else 0) + Subdirs(items[1..])
  }

  /** The finished inode ino represents the host node; parent is the directory it was found in. */
  ghost predicate Rep(done: map<nat, Shape>, node: Host, ino: nat, parent: nat)
    decreases node
  {
    && ino in done
    && match node
       case HostDir(d, items) => done[ino].host == d && RepDir(done, items, done[ino], ino, parent)
       case HostFile(f, data) => done[ino] == FileShape(f, data)
       case HostLink(l, target) => done[ino] == LinkShape(l, target)
       case HostOther => false
  }

  /** A directory: the entries "." and "..", then one for every visible item in order, each naming an inode
      that represents the item; its link count is 2 plus its subdirectories. */
  ghost predicate RepDir(done: map<nat, Shape>, items: seq<Item>, shape: Shape, ino: nat, parent: nat)
    decreases items, 1
  {
    && shape.kind == KDir
    && |shape.blocks| == |Visible(items)| + 2 && shape.size == ENTRY_BYTES * |shape.blocks|
    && IsEntry(shape.blocks[0], ino, ".") && IsEntry(shape.blocks[1], parent, "..")
    && RepEntries(done, items, shape.blocks[2..], ino)
    && shape.links == 2 + Subdirs(Visible(items))
  }

  ghost predicate RepEntries(done: map<nat, Shape>, items: seq<Item>, entries: seq<Content>, dir: nat)
    decreases items, 0
  {
    if items == [] then entries == []
    else if Skipped(items[0]) then RepEntries(done, items[1..], entries, dir)
    else
      && entries != [] && IsEntry(entries[0], InoOf(entries[0]), items[0].name)
      && Rep(done, items[0].node, InoOf(entries[0]), dir)
      && RepEntries(done, items[1..], entries[1..], dir)
  }

  ghost predicate DoneGrows(done: map<nat, Shape>, done': map<nat, Shape>) {
    forall f | f in done :: f in done' && done'[f] == done[f]
  }

  lemma {:induction false} RepGrows(done: map<nat, Shape>, done': map<nat, Shape>, node: Host, ino: nat, parent: nat)
    requires DoneGrows(done, done') && Rep(done, node, ino, parent)
    ensures Rep(done', node, ino, parent)
    decreases node
  {
    if node.HostDir? { EntriesGrow(done, done', node.items, done[ino].blocks[2..], ino); }
  }

  lemma {:induction false} EntriesGrow(done: map<nat, Shape>, done': map<nat, Shape>, items: seq<Item>,
      entries: seq<Content>, dir: nat)
    requires DoneGrows(done, done') && RepEntries(done, items, entries, dir)
    ensures RepEntries(done', items, entries, dir)
    decreases items
  {
    if items != [] {
      if Skipped(items[0]) {
        EntriesGrow(done, done', items[1..], entries, dir);
      } else {
        RepGrows(done, done', items[0].node, InoOf(entries[0]), dir);
        EntriesGrow(done, done', items[1..], entries[1..], dir);
      }
    }
  }

  /** One more item at the end. */
  lemma {:induction false} EntriesAppend(done: map<nat, Shape>, items: seq<Item>, entries: seq<Content>, dir: nat,
      item: Item, e: Content)
    requires RepEntries(done, items, entries, dir) && !Skipped(item)
    requires IsEntry(e, InoOf(e), item.name) && Rep(done, item.node, InoOf(e), dir)
    ensures RepEntries(done, items + [item], entries + [e], dir)
    decreases |items|
  {
    var all := items + [item];
    if items == [] {
      assert all[1..] == [] && (entries + [e])[1..] == [];
    } else {
      assert all[1..] == items[1..] + [item];
      if Skipped(items[0]) {
        EntriesAppend(done, items[1..], entries, dir, item, e);
      } else {
        assert (entries + [e])[1..] == entries[1..] + [e];
        EntriesAppend(done, items[1..], entries[1..], dir, item, e);
      }
    }
  }

  lemma {:induction false} EntriesSkip(done: map<nat, Shape>, items: seq<Item>, entries: seq<Content>, dir: nat,
      item: Item)
    requires RepEntries(done, items, entries, dir) && Skipped(item)
    ensures RepEntries(done, items + [item], entries, dir)
    decreases |items|
  {
    var all := items + [item];
    if items == [] {
      assert all[1..] == [];
    } else {
      assert all[1..] == items[1..] + [item];
      if Skipped(items[0]) {
        EntriesSkip(done, items[1..], entries, dir, item);
      } else {
        EntriesSkip(done, items[1..], entries[1..], dir, item);
      }
    }
  }

  lemma {:induction false} VisibleAppend(items: seq<Item>, item: Item)
    ensures Visible(items + [item]) == Visible(items) + if Skipped(item) then [] else [item]
    ensures Subdirs(Visible(items + [item]))
            == Subdirs(Visible(items)) + if !Skipped(item) && item.node.HostDir? then 1 else 0
    decreases |items|
  {
    var all := items + [item];
    if items == [] {
      assert all[1..] == [];
    } else {
      assert all[1..] == items[1..] + [item];
      VisibleAppend(items[1..], item);
      assert Visible(all) == (if Skipped(items[0]) then [] else [items[0]]) + Visible(all[1..]);
      if Skipped(items[0]) {
        assert Visible(items) == Visible(items[1..]) && Visible(all) == Visible(all[1..]);
      }
      SubdirsCons(items[0], Visible(items[1..]));
      SubdirsCons(items[0], Visible(all[1..]));
    }
  }

  lemma SubdirsCons(item: Item, items: seq<Item>)
    ensures Subdirs([item] + items) == (if item.node.HostDir? then 1 else 0) + Subdirs(items)
  {
    assert ([item] + items)[1..] == items;
  }

  /** An item of a directory that gets an entry: its name starts with no dot, and it is a file, directory or link. */
  predicate Kept(item: Item) {
    !(|item.name| > 0 && item.name[0] == '.')
    && (item.node.HostFile? || item.node.HostDir? || item.node.HostLink?)
  }

  /** What a reader finds in entry e for item: the name, of which 252 characters are stored, and an inode that
      represents the node. */
  ghost predicate EntryFor(done: map<nat, Shape>, e: Content, item: Item, dir: nat) {
    && NameOf(e) == (if |item.name| <= 252 then item.name else item.name[..252])
    && Rep(done, item.node, InoOf(e), dir)
  }

  /** Entry k is for item of[k]: the items that are kept, all of them and no other, in order. */
  ghost predicate EntriesFor(done: map<nat, Shape>, items: seq<Item>, entries: seq<Content>, dir: nat, of: seq<nat>) {
    && |of| == |entries|
    && (forall j, k | 0 <= j < k < |of| :: of[j] < of[k])
    && (forall k | 0 <= k < |of| ::
          of[k] < |items| && Kept(items[of[k]]) && EntryFor(done, entries[k], items[of[k]], dir))
    && (forall i: nat | i < |items| && Kept(items[i]) :: i in of)
  }

  /** The numbers of the kept items from the given one on. */
  function KeptFrom(items: seq<Item>, from: nat): seq<nat>
    requires from <= |items|
    decreases |items| - from
  {
    if from == |items| then []
    else (if Kept(items[from]) then [from] else []) + KeptFrom(items, from + 1)
  }

  lemma {:induction false} KeptFromIs(items: seq<Item>, from: nat)
    requires from <= |items|
    ensures var of := KeptFrom(items, from);
            && (forall i | i in of :: from <= i < |items| && Kept(items[i]))
            && (forall j, k | 0 <= j < k < |of| :: of[j] < of[k])
            && (forall i: nat | from <= i < |items| && Kept(items[i]) :: i in of)
    decreases |items| - from
  {
    hide Kept;
    if from < |items| {
      KeptFromIs(items, from + 1);
      var below, of := KeptFrom(items, from + 1), KeptFrom(items, from);
      assert of == (if Kept(items[from]) then [from] else []) + below;
      forall j, k | 0 <= j < k < |of| ensures of[j] < of[k] {
        if Kept(items[from]) {
          assert of[k] == below[k - 1] && below[k - 1] in below;
          if j > 0 { assert of[j] == below[j - 1]; }
        } else {
          assert of == below;
        }
      }
    }
  }

  lemma {:induction false} EntriesInOrder(done: map<nat, Shape>, items: seq<Item>, from: nat, entries: seq<Content>,
                                          dir: nat)
    requires from <= |items| && RepEntries(done, items[from..], entries, dir)
    ensures |KeptFrom(items, from)| == |entries|
    ensures forall k | 0 <= k < |entries| ::
              KeptFrom(items, from)[k] < |items|
              && EntryFor(done, entries[k], items[KeptFrom(items, from)[k]], dir)
    decreases |items| - from
  {
    hide EntryFor, Kept, Skipped;
    if from < |items| {
      assert items[from..][0] == items[from] && items[from..][1..] == items[from + 1..];
      KeptWhen(items[from]);
      if Skipped(items[from]) {
        EntriesInOrder(done, items, from + 1, entries, dir);
      } else {
        FirstEntry(done, items[from..], entries, dir);
        EntriesInOrder(done, items, from + 1, entries[1..], dir);
        assert forall k | 1 <= k < |entries| :: entries[k] == entries[1..][k - 1];
      }
    }
  }

  lemma EntriesRead(done: map<nat, Shape>, items: seq<Item>, entries: seq<Content>, dir: nat)
    requires RepEntries(done, items, entries, dir)
    ensures EntriesFor(done, items, entries, dir, KeptFrom(items, 0))
  {
    hide EntryFor, RepEntries, Kept, KeptFrom;
    assert items[0..] == items;
    KeptFromIs(items, 0);
    assert forall k | 0 <= k < |KeptFrom(items, 0)| :: KeptFrom(items, 0)[k] in KeptFrom(items, 0);
    EntriesInOrder(done, items, 0, entries, dir);
  }

  lemma KeptWhen(item: Item)
    ensures Kept(item) <==> !Skipped(item)
  {
  }

  lemma FirstEntry(done: map<nat, Shape>, items: seq<Item>, entries: seq<Content>, dir: nat)
    requires items != [] && !Skipped(items[0]) && RepEntries(done, items, entries, dir)
    ensures entries != [] && EntryFor(done, entries[0], items[0], dir)
  {
  }

  /** What fits: names of at most 255 characters, and link targets that leave room for one more in a block. */
  lemma {:induction false} FitsWhen(items: seq<Item>)
    ensures ItemsFit(items) <==> forall item | item in items && !(|item.name| > 0 && item.name[0] == '.') ::
              && |item.name| <= 255
              && (item.node.HostLink? ==> |item.node.target| <= 4095)
              && (item.node.HostDir? ==> ItemsFit(item.node.items))
    decreases |items|
  {
    if items != [] {
      FitsWhen(items[1..]);
      assert items == [items[0]] + items[1..];
    }
  }

  /** Regular files that share a host inode share one inode of the image. */
  ghost predicate OneEach(done: map<nat, Shape>) {
    forall f, g | f in done && g in done && done[f].kind == KFile && done[g].kind == KFile
                  && done[f].host == done[g].host :: f == g
  }

  /** Two names stand for one inode exactly when they are hard links to one host file. */
  lemma FilesByHost(done: map<nat, Shape>, a: Host, i: nat, p: nat, b: Host, j: nat, q: nat)
    requires OneEach(done) && a.HostFile? && b.HostFile? && Rep(done, a, i, p) && Rep(done, b, j, q)
    ensures i == j <==> a.fileIno == b.fileIno
  {
  }

  // ----- counting the nodes the walk visits -----

  /** The host numbers of regular files, and how many directories and symbolic links there are. */
  datatype Census = Census(files: set<nat>, dirs: nat, links: nat) {
    function Plus(c: Census): Census {
      Census(files + c.files, dirs + c.dirs, links + c.links)
    }
  }

  const NOTHING: Census := Census({}, 0, 0)

  function NodeCensus(node: Host): Census
    decreases node
  {
    match node
    case HostDir(_, items) => Census({}, 1, 0).Plus(ItemsCensus(items))
    case HostFile(f, _) => Census({f}, 0, 0)
    case HostLink(_, _) => Census({}, 0, 1)
    case HostOther => NOTHING
  }

  function ItemsCensus(items: seq<Item>): Census
    decreases items
  {
    if items == [] then NOTHING
    else (if Skipped(items[0]) then NOTHING else NodeCensus(items[0].node)).Plus(ItemsCensus(items[1..]))
  }

  lemma {:induction false} CensusAppend(items: seq<Item>, item: Item)
    ensures ItemsCensus(items + [item])
            == ItemsCensus(items).Plus(if Skipped(item) then NOTHING else NodeCensus(item.node))
    decreases |items|
  {
    hide NodeCensus;
    var all := items + [item];
    if items == [] {
      assert all[1..] == [];
    } else {
      assert all[1..] == items[1..] + [item];
      CensusAppend(items[1..], item);
    }
  }

  // ----- what the host promises: one object per inode number -----

  /** The inode numbers of regular files with their bytes, and the kind of every inode number. */
  ghost predicate HostOk(node: Host, files: map<nat, seq<int>>, kinds: map<nat, Kind>)
    decreases node
  {
    match node
    case HostDir(d, items) => d in kinds && kinds[d] == KDir && ItemsOk(items, files, kinds)
    case HostFile(f, data) => f in kinds && kinds[f] == KFile && f in files && files[f] == data
    case HostLink(l, target) => l in kinds && kinds[l] == KLink
    case HostOther => true
  }

  ghost predicate ItemsOk(items: seq<Item>, files: map<nat, seq<int>>, kinds: map<nat, Kind>)
    decreases items
  {
    items == [] || (HostOk(items[0].node, files, kinds) && ItemsOk(items[1..], files, kinds))
  }

  /** The directories below. */
  ghost function DirIds(node: Host): set<nat>
    decreases node
  {
    if node.HostDir? then {node.dirIno} + ItemDirIds(node.items) else {}
  }

  ghost function ItemDirIds(items: seq<Item>): set<nat>
    decreases items
  {
    if items == [] then {} else DirIds(items[0].node) + ItemDirIds(items[1..])
  }

  /** No directory occurs twice: the host has no hard links to directories. */
  ghost predicate DistinctDirs(node: Host)
    decreases node
  {
    node.HostDir? ==> node.dirIno !in ItemDirIds(node.items) && DistinctItemDirs(node.items)
  }

  ghost predicate DistinctItemDirs(items: seq<Item>)
    decreases items
  {
    items == [] || (
      && DistinctDirs(items[0].node) && DistinctItemDirs(items[1..])
      && DirIds(items[0].node) !! ItemDirIds(items[1..]))
  }

  lemma {:induction false} ItemAt(items: seq<Item>, i: nat, files: map<nat, seq<int>>, kinds: map<nat, Kind>)
    requires ItemsOk(items, files, kinds) && i < |items|
    ensures HostOk(items[i].node, files, kinds)
    decreases i
  {
    if i > 0 { ItemAt(items[1..], i - 1, files, kinds); }
  }

  lemma {:induction false} IdsAppend(items: seq<Item>, item: Item)
    ensures ItemDirIds(items + [item]) == ItemDirIds(items) + DirIds(item.node)
    decreases |items|
  {
    var all := items + [item];
    if items == [] { assert all[1..] == []; } else {
      assert all[1..] == items[1..] + [item];
      IdsAppend(items[1..], item);
    }
  }

  lemma {:induction false} IdsAt(items: seq<Item>, i: nat)
    requires i < |items|
    ensures DirIds(items[i].node) <= ItemDirIds(items)
    decreases i
  {
    if i > 0 { IdsAt(items[1..], i - 1); }
  }

  /** Item i has none of the directories of the items before it. */
  lemma {:induction false} DistinctAt(items: seq<Item>, i: nat)
    requires DistinctItemDirs(items) && i < |items|
    ensures DistinctDirs(items[i].node) && DirIds(items[i].node) !! ItemDirIds(items[..i])
    ensures ItemDirIds(items[..i + 1]) == ItemDirIds(items[..i]) + DirIds(items[i].node)
    decreases i
  {
    assert items[..i + 1] == items[..i] + [items[i]];
    IdsAppend(items[..i], items[i]);
    if i > 0 {
      DistinctAt(items[1..], i - 1);
      assert items[..i][1..] == items[1..][..i - 1];
      IdsAt(items[1..], i - 1);
    }
  }
}
