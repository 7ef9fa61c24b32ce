/** What the reader finds in a device tree, against the memory nodes of the tree; and dtb_init. */
module DeviceTree {
  import opened Wrappers
  import opened Dtb

  /** A node: its properties come before its children. */
  datatype Node = Node(name: seq<bv8>, props: seq<Token>, children: seq<Node>)

  function Serialise(n: Node): seq<Token> {
    [Begin(n.name)] + n.props + SerialiseAll(n.children) + [End]
  }

  function SerialiseAll(ns: seq<Node>): seq<Token> {
    if ns == [] then [] else Serialise(ns[0]) + SerialiseAll(ns[1..])
  }

  predicate PropsOnly(n: Node) {
    (forall t | t in n.props :: t.Property?) && forall c | c in n.children :: PropsOnly(c)
  }

  /** Tokens that mean nothing may stand anywhere. */
  function Strip(ts: seq<Token>): seq<Token> {
    if ts == [] then [] else (if ts[0].Nop? then [] else [ts[0]]) + Strip(ts[1..])
  }

  lemma {:induction false} FindStrips(ts: seq<Token>, isReg: bv32 -> bool, memory: bool)
    ensures Find(ts, isReg, memory) == Find(Strip(ts), isReg, memory)
  {
    if ts != [] {
      var m := if ts[0].Begin? then memory || IsMemory(ts[0].name) else if ts[0].End? then false else memory;
      FindStrips(ts[1..], isReg, m);
      if ts[0].Nop? {
        assert Strip(ts) == Strip(ts[1..]);
      } else {
        assert Strip(ts)[0] == ts[0] && Strip(ts)[1..] == Strip(ts[1..]);
      }
    }
  }

  /** A node and the reg found in it. */
  datatype Hit = Hit(node: Node, data: seq<bv8>)

  function FirstReg(props: seq<Token>, isReg: bv32 -> bool): Option<seq<bv8>> {
    if props == [] then None
    else if RegHere(props[0], isReg) then Some(props[0].data)
    else FirstReg(props[1..], isReg)
  }

  /** The first memory node, in document order, that has a reg of at least 16 bytes. */
  function FirstMemory(n: Node, isReg: bv32 -> bool): Option<Hit> {
    if IsMemory(n.name) && FirstReg(n.props, isReg).Some? then Some(Hit(n, FirstReg(n.props, isReg).value))
    else FirstMemoryAll(n.children, isReg)
  }

  function FirstMemoryAll(ns: seq<Node>, isReg: bv32 -> bool): Option<Hit> {
    if ns == [] then None
    else if FirstMemory(ns[0], isReg).Some? then FirstMemory(ns[0], isReg)
    else FirstMemoryAll(ns[1..], isReg)
  }

  /** What the reader takes: a memory node without a reg passes its mode on to its first child. */
  function Take(n: Node, isReg: bv32 -> bool, inherited: bool): Option<Hit> {
    var memory := inherited || IsMemory(n.name);
    if memory && FirstReg(n.props, isReg).Some? then Some(Hit(n, FirstReg(n.props, isReg).value))
    else TakeAll(n.children, isReg, memory)
  }

  function TakeAll(ns: seq<Node>, isReg: bv32 -> bool, inherited: bool): Option<Hit> {
    if ns == [] then None
    else if Take(ns[0], isReg, inherited).Some? then Take(ns[0], isReg, inherited)
    else TakeAll(ns[1..], isReg, false)
  }

  function DataOf(h: Option<Hit>): Option<seq<bv8>> {
    if h.Some? then Some(h.value.data) else None
  }

  lemma {:induction false} FindProps(props: seq<Token>, rest: seq<Token>, isReg: bv32 -> bool, memory: bool)
    requires forall t | t in props :: t.Property?
    ensures Find(props + rest, isReg, memory) ==
            if memory && FirstReg(props, isReg).Some? then FirstReg(props, isReg) else Find(rest, isReg, memory)
  {
    if props == [] {
      assert props + rest == rest;
    } else {
      assert (props + rest)[0] == props[0] && (props + rest)[1..] == props[1..] + rest;
      assert props[0] in props;
      FindProps(props[1..], rest, isReg, memory);
    }
  }

  /** Reading the tokens of a node: what is taken from the node, else the rest in no memory mode. */
  lemma {:induction false} FindNode(n: Node, rest: seq<Token>, isReg: bv32 -> bool, memory: bool)
    requires PropsOnly(n)
    ensures Find(Serialise(n) + rest, isReg, memory) ==
            if Take(n, isReg, memory).Some? then DataOf(Take(n, isReg, memory)) else Find(rest, isReg, false)
    decreases n
  {
    var m := memory || IsMemory(n.name);
    var tail := SerialiseAll(n.children) + ([End] + rest);
    assert Serialise(n) + rest == [Begin(n.name)] + (n.props + tail);
    FindProps(n.props, tail, isReg, m);
    FindNodes(n.children, [End] + rest, isReg, m);
    assert ([End] + rest)[1..] == rest;
  }

  lemma {:induction false} FindNodes(ns: seq<Node>, rest: seq<Token>, isReg: bv32 -> bool, memory: bool)
    requires forall c | c in ns :: PropsOnly(c)
    ensures Find(SerialiseAll(ns) + rest, isReg, memory) ==
            if TakeAll(ns, isReg, memory).Some? then DataOf(TakeAll(ns, isReg, memory))
            else Find(rest, isReg, memory && ns == [])
    decreases ns
  {
    if ns == [] {
      assert SerialiseAll(ns) + rest == rest;
    } else {
      assert SerialiseAll(ns) + rest == Serialise(ns[0]) + (SerialiseAll(ns[1..]) + rest);
      FindNode(ns[0], SerialiseAll(ns[1..]) + rest, isReg, memory);
      FindNodes(ns[1..], rest, isReg, false);
    }
  }

  // ----- when the reader is right -----

  /** A node as the reader meets it: whether it inherits memory mode, being the first child of a node in the mode. */
  datatype Met = Met(node: Node, inherited: bool)

  /** The nodes in document order, each with what it inherits. */
  function Flat(n: Node, inherited: bool): seq<Met> {
    [Met(n, inherited)] + FlatAll(n.children, inherited || IsMemory(n.name))
  }

  function FlatAll(ns: seq<Node>, inherited: bool): seq<Met> {
    if ns == [] then [] else Flat(ns[0], inherited) + FlatAll(ns[1..], false)
  }

  /** A memory node with a usable reg. */
  predicate Good(m: Met, isReg: bv32 -> bool) {
    IsMemory(m.node.name) && FirstReg(m.node.props, isReg).Some?
  }

  /** A node with a usable reg that is no memory node, but met in memory mode. */
  predicate Stray(m: Met, isReg: bv32 -> bool) {
    m.inherited && !IsMemory(m.node.name) && FirstReg(m.node.props, isReg).Some?
  }

  function HitOf(m: Met, isReg: bv32 -> bool): Hit
    requires FirstReg(m.node.props, isReg).Some?
  {
    Hit(m.node, FirstReg(m.node.props, isReg).value)
  }

  function FirstGood(ms: seq<Met>, isReg: bv32 -> bool): Option<Hit> {
    if ms == [] then None else if Good(ms[0], isReg) then Some(HitOf(ms[0], isReg)) else FirstGood(ms[1..], isReg)
  }

  function FirstTaken(ms: seq<Met>, isReg: bv32 -> bool): Option<Hit> {
    if ms == [] then None
    else if Good(ms[0], isReg) || Stray(ms[0], isReg) then Some(HitOf(ms[0], isReg))
    else FirstTaken(ms[1..], isReg)
  }

  lemma {:induction false} FirstsAppend(a: seq<Met>, b: seq<Met>, isReg: bv32 -> bool)
    ensures FirstTaken(a + b, isReg)
            == if FirstTaken(a, isReg).Some? then FirstTaken(a, isReg) else FirstTaken(b, isReg)
    ensures FirstGood(a + b, isReg) == if FirstGood(a, isReg).Some? then FirstGood(a, isReg) else FirstGood(b, isReg)
  {
    if a == [] {
      assert a + b == b;
    } else {
      assert (a + b)[0] == a[0] && (a + b)[1..] == a[1..] + b;
      FirstsAppend(a[1..], b, isReg);
    }
  }

  lemma {:induction false} FlatFirsts(n: Node, isReg: bv32 -> bool, inherited: bool)
    ensures Take(n, isReg, inherited) == FirstTaken(Flat(n, inherited), isReg)
    ensures FirstMemory(n, isReg) == FirstGood(Flat(n, inherited), isReg)
    decreases n
  {
    var me, below := Met(n, inherited), FlatAll(n.children, inherited || IsMemory(n.name));
    FlatFirstsAll(n.children, isReg, inherited || IsMemory(n.name));
    assert ([me] + below)[0] == me && ([me] + below)[1..] == below;
  }

  lemma {:induction false} FlatFirstsAll(ns: seq<Node>, isReg: bv32 -> bool, inherited: bool)
    ensures TakeAll(ns, isReg, inherited) == FirstTaken(FlatAll(ns, inherited), isReg)
    ensures FirstMemoryAll(ns, isReg) == FirstGood(FlatAll(ns, inherited), isReg)
    decreases ns
  {
    if ns != [] {
      FlatFirsts(ns[0], isReg, inherited);
      FlatFirstsAll(ns[1..], isReg, false);
      FirstsAppend(Flat(ns[0], inherited), FlatAll(ns[1..], false), isReg);
    }
  }

  /** Every stray node comes after a good one. */
  ghost predicate StraysCovered(ms: seq<Met>, isReg: bv32 -> bool) {
    forall j | 0 <= j < |ms| && Stray(ms[j], isReg) :: exists i :: 0 <= i < j && Good(ms[i], isReg)
  }

  lemma {:induction false} GoodIsMemory(ms: seq<Met>, isReg: bv32 -> bool)
    ensures FirstGood(ms, isReg).Some? ==> IsMemory(FirstGood(ms, isReg).value.node.name)
  {
    if ms != [] { GoodIsMemory(ms[1..], isReg); }
  }

  lemma CoveredTail(ms: seq<Met>, isReg: bv32 -> bool)
    requires ms != [] && !Good(ms[0], isReg) && !Stray(ms[0], isReg)
    ensures StraysCovered(ms, isReg) <==> StraysCovered(ms[1..], isReg)
  {
    var tail := ms[1..];
    if StraysCovered(ms, isReg) {
      forall j | 0 <= j < |tail| && Stray(tail[j], isReg) ensures exists i :: 0 <= i < j && Good(tail[i], isReg) {
        assert Stray(ms[j + 1], isReg);
        var i :| 0 <= i < j + 1 && Good(ms[i], isReg);
        assert Good(tail[i - 1], isReg);
      }
    }
    if StraysCovered(tail, isReg) {
      forall j | 0 <= j < |ms| && Stray(ms[j], isReg) ensures exists i :: 0 <= i < j && Good(ms[i], isReg) {
        assert Stray(tail[j - 1], isReg);
        var i :| 0 <= i < j - 1 && Good(tail[i], isReg);
        assert Good(ms[i + 1], isReg);
      }
    }
  }

  lemma {:induction false} SameFirst(ms: seq<Met>, isReg: bv32 -> bool)
    ensures FirstTaken(ms, isReg) == FirstGood(ms, isReg) <==> StraysCovered(ms, isReg)
  {
    if ms != [] {
      if Good(ms[0], isReg) {
        assert FirstTaken(ms, isReg) == FirstGood(ms, isReg);
      } else if Stray(ms[0], isReg) {
        GoodIsMemory(ms, isReg);
        assert !StraysCovered(ms, isReg);
      } else {
        SameFirst(ms[1..], isReg);
        CoveredTail(ms, isReg);
      }
    }
  }

  /** For every tree: the reader takes from the first memory node with a usable reg, or from none when there is
      none, exactly when every stray node comes after such a memory node in document order. */
  lemma RightExactly(n: Node, isReg: bv32 -> bool)
    ensures Take(n, isReg, false) == FirstMemory(n, isReg) <==> StraysCovered(Flat(n, false), isReg)
  {
    FlatFirsts(n, isReg, false);
    SameFirst(Flat(n, false), isReg);
  }

  /** Every memory node has a reg of at least 16 bytes. */
  predicate MemoryHasReg(n: Node, isReg: bv32 -> bool) {
    && (IsMemory(n.name) ==> FirstReg(n.props, isReg).Some?)
    && forall c | c in n.children :: MemoryHasReg(c, isReg)
  }

  lemma {:induction false} RightWithReg(n: Node, isReg: bv32 -> bool)
    requires MemoryHasReg(n, isReg)
    ensures Take(n, isReg, false) == FirstMemory(n, isReg)
    decreases n
  {
    if !IsMemory(n.name) { RightWithRegAll(n.children, isReg); }
  }

  lemma {:induction false} RightWithRegAll(ns: seq<Node>, isReg: bv32 -> bool)
    requires forall c | c in ns :: MemoryHasReg(c, isReg)
    ensures TakeAll(ns, isReg, false) == FirstMemoryAll(ns, isReg)
    decreases ns
  {
    if ns != [] {
      RightWithReg(ns[0], isReg);
      RightWithRegAll(ns[1..], isReg);
    }
  }

  /** A memory node without a reg, whose child has one: the reader takes the child's. */
  lemma TakenFromChild(reg: Token, isReg: bv32 -> bool)
    requires RegHere(reg, isReg)
    ensures var child := Node([0x78], [reg], []);
            var n := Node(MEMORY, [], [child]);
            Take(n, isReg, false) == Some(Hit(child, reg.data)) && FirstMemory(n, isReg) == None
  {
    var child := Node([0x78], [reg], []);
    var n := Node(MEMORY, [], [child]);
    assert MEMORY[..6] == MEMORY;
    assert TakeAll([child], isReg, true) == Take(child, isReg, true);
    assert FirstMemoryAll([child], isReg) == FirstMemoryAll([child][1..], isReg);
  }

  /** A blob that holds the tree, with meaningless tokens anywhere, up to a token that ends it. */
  ghost predicate Holds(blob: seq<bv8>, ts: seq<Token>, last: bv32, root: Node) {
    Layout(blob, ts, last) && Strip(ts) == Serialise(root) && PropsOnly(root)
  }

  lemma FindHeld(blob: seq<bv8>, ts: seq<Token>, last: bv32, root: Node)
    requires Holds(blob, ts, last, root)
    ensures Find(ts, RegsOf(blob), false) == DataOf(Take(root, RegsOf(blob), false))
  {
    FindStrips(ts, RegsOf(blob), false);
    FindNode(root, [], RegsOf(blob), false);
    assert Serialise(root) + [] == Serialise(root);
  }

  /** The static variables of dtb.c. */
  class BootMemory {
    var base: bv64
    var size: bv64

    constructor ()
      ensures base == 0 && size == 0
    {
      base, size := 0, 0;
    }

    /** dtb_init: a missing blob, a wrong magic number or a tree with nothing to take leaves the variables alone. */
    method DtbInit(blob: Option<seq<bv8>>, ghost ts: seq<Token>, ghost last: bv32, ghost root: Node)
      requires blob.Some? ==> |blob.value| >= 40
      requires blob.Some? && BigEndian32(blob.value[..4]) == FDT_MAGIC ==> Holds(blob.value, ts, last, root)
      modifies this
      ensures var hit := if blob.Some? && BigEndian32(blob.value[..4]) == FDT_MAGIC
                         then DataOf(Take(root, RegsOf(blob.value), false)) else None;
              if hit.Some? then |hit.value| >= 16 && base == RegBase(hit.value) && size == RegSize(hit.value)
              else base == old(base) && size == old(size)
    {
      hide Load32, Fdt32ToCpu, BigEndian32, BigEndian64, RegsOf, Layout;
      if blob.None? {
        return;
      }
      Swap32(blob.value[..4]);
      if Fdt32ToCpu(Load32(blob.value[..4])) != FDT_MAGIC {
        return;
      }
      FindHeld(blob.value, ts, last, root);
      var code, b, s := ExtractMemoryInfo(blob.value, ts, last);
      if code == 0 {
        base, size := b, s;
      }
    }
  }

  // ----- which names make a memory node, in bytes -----

  /** The nodes in document order. */
  function Nodes(n: Node): seq<Node> {
    [n] + NodesAll(n.children)
  }

  function NodesAll(ns: seq<Node>): seq<Node> {
    if ns == [] then [] else Nodes(ns[0]) + NodesAll(ns[1..])
  }

  lemma {:induction false} FlatNodes(n: Node, inherited: bool)
    ensures |Flat(n, inherited)| == |Nodes(n)|
    ensures forall k | 0 <= k < |Nodes(n)| :: Flat(n, inherited)[k].node == Nodes(n)[k]
    decreases n
  {
    FlatNodesAll(n.children, inherited || IsMemory(n.name));
  }

  lemma {:induction false} FlatNodesAll(ns: seq<Node>, inherited: bool)
    ensures |FlatAll(ns, inherited)| == |NodesAll(ns)|
    ensures forall k | 0 <= k < |NodesAll(ns)| :: FlatAll(ns, inherited)[k].node == NodesAll(ns)[k]
    decreases ns
  {
    if ns != [] {
      FlatNodes(ns[0], inherited);
      FlatNodesAll(ns[1..], false);
    }
  }

  /** The name starts with the six letters of "memory". */
  predicate StartsLikeMemory(name: seq<bv8>) {
    |name| >= 6 && name[..6] == [0x6d, 0x65, 0x6d, 0x6f, 0x72, 0x79]
  }

  /** A property named "reg" in the strings block, which the fourth word of the header locates, with room for two
      64-bit numbers. */
  predicate Usable(blob: seq<bv8>, t: Token)
    requires |blob| >= 40
  {
    t.Property? && |t.data| >= 16
    && var at := BigEndian32(blob[12..16]) as nat + t.nameoff as nat;
       at + 4 <= |blob| && blob[at..at + 4] == [0x72, 0x65, 0x67, 0]
  }

  lemma UsableIs(blob: seq<bv8>, t: Token)
    requires |blob| >= 40
    ensures Usable(blob, t) <==> RegHere(t, RegsOf(blob))
  {
    hide StringsOffset, BigEndian32, RegsOf;
    StringsAt(blob);
    if t.Property? { RegsApply(blob, t.nameoff); NameIsAt(blob, t.nameoff); }
  }

  lemma StringsAt(blob: seq<bv8>)
    requires |blob| >= 40
    ensures StringsOffset(blob) == BigEndian32(blob[12..16]) as nat
  {
    hide Load32, Fdt32ToCpu, BigEndian32;
    Swap32(blob[12..16]);
  }

  lemma RegsApply(blob: seq<bv8>, x: bv32)
    requires |blob| >= 40
    ensures RegsOf(blob)(x) <==> IsReg(blob, NameAt(blob, x))
  {
    hide IsReg, NameAt;
  }

  lemma {:induction false} FirstRegAt(props: seq<Token>, isReg: bv32 -> bool, p: nat)
    requires p <= |props| && forall q | 0 <= q < p :: !RegHere(props[q], isReg)
    ensures p < |props| && RegHere(props[p], isReg) ==> FirstReg(props, isReg) == Some(props[p].data)
    ensures p == |props| ==> FirstReg(props, isReg) == None
  {
    if p > 0 { FirstRegAt(props[1..], isReg, p - 1); }
  }

  lemma {:induction false} FirstTakenAt(ms: seq<Met>, isReg: bv32 -> bool, j: nat)
    requires j < |ms| && Good(ms[j], isReg) && forall i | 0 <= i < j :: FirstReg(ms[i].node.props, isReg).None?
    ensures FirstTaken(ms, isReg) == Some(HitOf(ms[j], isReg))
  {
    if j > 0 { FirstTakenAt(ms[1..], isReg, j - 1); }
  }

  /** In a tree without memory nodes no node is met in memory mode. */
  lemma {:induction false} NoneInherits(n: Node, isReg: bv32 -> bool)
    requires forall m | m in Nodes(n) :: !IsMemory(m.name)
    ensures Take(n, isReg, false) == None
    decreases n
  {
    assert n == Nodes(n)[0];
    assert forall m | m in NodesAll(n.children) :: m in Nodes(n);
    NoneInheritsAll(n.children, isReg);
  }

  lemma {:induction false} NoneInheritsAll(ns: seq<Node>, isReg: bv32 -> bool)
    requires forall m | m in NodesAll(ns) :: !IsMemory(m.name)
    ensures TakeAll(ns, isReg, false) == None
    decreases ns
  {
    if ns != [] {
      NoneInherits(ns[0], isReg);
      NoneInheritsAll(ns[1..], isReg);
    }
  }

  lemma MemoryInBytes(name: seq<bv8>)
    ensures StartsLikeMemory(name) <==> IsMemory(name)
  {
  }

  /** The j-th node in document order is named "memory" and anything behind it, its p-th property is its first usable
      one, and no node before it has any: dtb_init records the two numbers of that property. */
  method RecordsMemory(boot: BootMemory, blob: seq<bv8>, ghost ts: seq<Token>, ghost last: bv32, ghost root: Node,
                       ghost j: nat, ghost p: nat, ghost suffix: seq<bv8>)
    requires |blob| >= 40 && blob[..4] == [0xd0, 0x0d, 0xfe, 0xed] && Holds(blob, ts, last, root)
    requires j < |Nodes(root)| && Nodes(root)[j].name == [0x6d, 0x65, 0x6d, 0x6f, 0x72, 0x79] + suffix
    requires var props := Nodes(root)[j].props;
             p < |props| && Usable(blob, props[p]) && forall q | 0 <= q < p :: !Usable(blob, props[q])
    requires forall i | 0 <= i < j :: forall t | t in Nodes(root)[i].props :: !Usable(blob, t)
    modifies boot
    ensures var data := Nodes(root)[j].props[p].data;
            boot.base == BigEndian64(data[..8]) && boot.size == BigEndian64(data[8..16])
  {
    hide BigEndian32, BigEndian64, Load32, Fdt32ToCpu, RegsOf, Usable, Layout, Take, Nodes, Flat;
    MagicBytes();
    ghost var isReg, n, ms := RegsOf(blob), Nodes(root)[j], Flat(root, false);
    FlatNodes(root, false);
    FlatFirsts(root, isReg, false);
    forall t ensures Usable(blob, t) <==> RegHere(t, isReg) { UsableIs(blob, t); }
    MemoryInBytes(n.name);
    FirstRegAt(n.props, isReg, p);
    forall i | 0 <= i < j ensures FirstReg(ms[i].node.props, isReg).None? {
      FirstRegAt(Nodes(root)[i].props, isReg, |Nodes(root)[i].props|);
    }
    FirstTakenAt(ms, isReg, j);
    boot.DtbInit(Some(blob), ts, last, root);
  }

  /** When no name in the tree starts with "memory", dtb_init records nothing. */
  method RecordsNothing(boot: BootMemory, blob: seq<bv8>, ghost ts: seq<Token>, ghost last: bv32, ghost root: Node)
    requires |blob| >= 40 && Holds(blob, ts, last, root)
    requires forall n | n in Nodes(root) :: !StartsLikeMemory(n.name)
    modifies boot
    ensures boot.base == old(boot.base) && boot.size == old(boot.size)
  {
    hide BigEndian32, BigEndian64, RegsOf, Layout, Take, Nodes;
    forall n | n in Nodes(root) ensures !IsMemory(n.name) { MemoryInBytes(n.name); }
    NoneInherits(root, RegsOf(blob));
    boot.DtbInit(Some(blob), ts, last, root);
  }

  lemma MagicBytes()
    ensures BigEndian32([0xd0, 0x0d, 0xfe, 0xed]) == FDT_MAGIC
  {
  }
}
