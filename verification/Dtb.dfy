/** The flattened device tree: byte order, the token stream of section 5.4 of the Devicetree Specification,
    and what the one-pass reader of dtb.c finds in it. */
module Dtb {
  import opened Wrappers

  const FDT_MAGIC: bv32 := 0xd00dfeed
  const FDT_BEGIN_NODE: bv32 := 1
  const FDT_END_NODE: bv32 := 2
  const FDT_PROP: bv32 := 3
  const FDT_NOP: bv32 := 4

  // ----- byte order -----

  function Fdt32ToCpu(x: bv32): bv32 {
    ((x & 0xff) << 24) | (((x >> 8) & 0xff) << 16) | (((x >> 16) & 0xff) << 8) | ((x >> 24) & 0xff)
  }

  function Low(x: bv64): bv32 { (x & 0xffffffff) as bv32 }
  function High(x: bv64): bv32 { (x >> 32) as bv32 }
  function Wide(high: bv32, low: bv32): bv64 { ((high as bv64) << 32) | (low as bv64) }

  function Fdt64ToCpu(x: bv64): bv64 {
    Wide(Fdt32ToCpu(Low(x)), Fdt32ToCpu(High(x)))
  }

  /** A load on a little-endian machine. */
  function Load32(b: seq<bv8>): bv32
    requires |b| == 4
  {
    (b[0] as bv32) | ((b[1] as bv32) << 8) | ((b[2] as bv32) << 16) | ((b[3] as bv32) << 24)
  }

  function Load64(b: seq<bv8>): bv64
    requires |b| == 8
  {
    Wide(Load32(b[4..]), Load32(b[..4]))
  }

  /** The big-endian bytes of a cell. */
  function Cell(v: bv32): (b: seq<bv8>)
    ensures |b| == 4
  {
    [((v >> 24) & 0xff) as bv8, ((v >> 16) & 0xff) as bv8, ((v >> 8) & 0xff) as bv8, (v & 0xff) as bv8]
  }

  /** The values of four and eight big-endian bytes. */
  function BigEndian32(b: seq<bv8>): bv32
    requires |b| == 4
  {
    ((b[0] as bv32) << 24) | ((b[1] as bv32) << 16) | ((b[2] as bv32) << 8) | (b[3] as bv32)
  }

  function BigEndian64(b: seq<bv8>): bv64
    requires |b| == 8
  {
    Wide(BigEndian32(b[..4]), BigEndian32(b[4..]))
  }

  /** The bytes of the tokens: section 5.4.1 of the Devicetree Specification. */
  lemma TokenBytes(t: Token)
    ensures match t
            case Begin(name) => Encode(t) == [0, 0, 0, 1] + name + [0] + Padding(|name| + 1)
            case End => Encode(t) == [0, 0, 0, 2]
            case Property(len, nameoff, data) =>
              Encode(t) == [0, 0, 0, 3] + Cell(len) + Cell(nameoff) + data + Padding(|data|)
            case Nop => Encode(t) == [0, 0, 0, 4]
  {
    SmallCells();
  }

  lemma SmallCells()
    ensures Cell(1) == [0, 0, 0, 1] && Cell(2) == [0, 0, 0, 2] && Cell(3) == [0, 0, 0, 3] && Cell(4) == [0, 0, 0, 4]
  {
  }

  /** Loading a big-endian cell and swapping its bytes gives its value. */
  lemma CellReads(v: bv32)
    ensures Fdt32ToCpu(Load32(Cell(v))) == v
  {
  }

  lemma Swap32(b: seq<bv8>)
    requires |b| == 4
    ensures Fdt32ToCpu(Load32(b)) == BigEndian32(b)
  {
  }

  lemma WideParts(high: bv32, low: bv32)
    ensures Low(Wide(high, low)) == low && High(Wide(high, low)) == high
  {
  }

  lemma Swap64(b: seq<bv8>)
    requires |b| == 8
    ensures Fdt64ToCpu(Load64(b)) == BigEndian64(b)
  {
    hide Fdt32ToCpu, Load32, BigEndian32, Low, High, Wide;
    Swap32(b[..4]);
    Swap32(b[4..]);
    WideParts(Load32(b[4..]), Load32(b[..4]));
  }

  // ----- the token stream -----

  datatype Token =
    | Begin(name: seq<bv8>)
    | End
    | Property(len: bv32, nameoff: bv32, data: seq<bv8>)
    | Nop

  predicate TokenOk(t: Token) {
    match t
    case Begin(name) => 0 !in name
    case Property(len, _, data) => |data| == len as nat
    case _ => true
  }

  /** The zero bytes up to the next multiple of 4. */
  function Padding(n: nat): (b: seq<bv8>)
    ensures (n + |b|) % 4 == 0 && |b| < 4
    ensures n + |b| == (n + 3) / 4 * 4 && forall k | 0 <= k < |b| :: b[k] == 0
  {
    seq((4 - n % 4) % 4, _ => 0)
  }

  function Encode(t: Token): seq<bv8> {
    match t
    case Begin(name) => Cell(FDT_BEGIN_NODE) + name + [0] + Padding(|name| + 1)
    case End => Cell(FDT_END_NODE)
    case Property(len, nameoff, data) => Cell(FDT_PROP) + Cell(len) + Cell(nameoff) + data + Padding(|data|)
    case Nop => Cell(FDT_NOP)
  }

  function EncodeAll(ts: seq<Token>): seq<bv8> {
    if ts == [] then [] else Encode(ts[0]) + EncodeAll(ts[1..])
  }

  /** The bytes of blob from pos on start with b. */
  ghost predicate At(blob: seq<bv8>, pos: nat, b: seq<bv8>) {
    pos + |b| <= |blob| && blob[pos..pos + |b|] == b
  }

  lemma AtSplit(blob: seq<bv8>, pos: nat, b: seq<bv8>, c: seq<bv8>)
    requires At(blob, pos, b + c)
    ensures At(blob, pos, b) && At(blob, pos + |b|, c)
  {
    assert blob[pos..pos + |b|] == (b + c)[..|b|] == b;
    assert blob[pos + |b|..pos + |b| + |c|] == (b + c)[|b|..] == c;
  }

  const MEMORY: seq<bv8> := [0x6d, 0x65, 0x6d, 0x6f, 0x72, 0x79]
  const REG: seq<bv8> := [0x72, 0x65, 0x67, 0]

  predicate IsMemory(name: seq<bv8>) {
    |name| >= 6 && name[..6] == MEMORY
  }

  /** strcmp of the C string at pos with "reg". */
  predicate IsReg(blob: seq<bv8>, pos: nat) {
    pos + 4 <= |blob| && blob[pos..pos + 4] == REG
  }

  predicate RegHere(t: Token, isReg: bv32 -> bool) {
    t.Property? && isReg(t.nameoff) && |t.data| >= 16
  }

  /** What the reader finds in a token stream: the first reg it meets in memory mode. */
  function Find(ts: seq<Token>, isReg: bv32 -> bool, memory: bool): Option<seq<bv8>> {
    if ts == [] then None
    else if ts[0].Begin? then Find(ts[1..], isReg, memory || IsMemory(ts[0].name))
    else if ts[0].End? then Find(ts[1..], isReg, false)
    else if memory && RegHere(ts[0], isReg) then Some(ts[0].data)
    else Find(ts[1..], isReg, memory)
  }

  /** A loaded blob: the structure block holds the tokens, then a token that ends the reading. */
  ghost predicate Layout(blob: seq<bv8>, ts: seq<Token>, last: bv32) {
    && |blob| >= 40 && (forall t | t in ts :: TokenOk(t))
    && last !in {FDT_BEGIN_NODE, FDT_END_NODE, FDT_PROP, FDT_NOP}
    && StructOffset(blob) % 4 == 0
    && At(blob, StructOffset(blob), EncodeAll(ts) + Cell(last))
  }

  /** off_dt_struct and off_dt_strings of the header. */
  function StructOffset(blob: seq<bv8>): nat
    requires |blob| >= 40
  {
    Fdt32ToCpu(Load32(blob[8..12])) as nat
  }

  function StringsOffset(blob: seq<bv8>): nat
    requires |blob| >= 40
  {
    Fdt32ToCpu(Load32(blob[12..16])) as nat
  }

  method StrLen(blob: seq<bv8>, pos: nat, ghost name: seq<bv8>) returns (n: nat)
    requires At(blob, pos, name + [0]) && 0 !in name
    ensures n == |name|
  {
    AtSplit(blob, pos, name, [0]);
    assert forall k: nat | k < |name| :: blob[pos..pos + |name|][k] == name[k];
    assert blob[pos + |name|..pos + |name| + 1][0] == 0;
    n := 0;
    while blob[pos + n] != 0
      invariant n <= |name|
      decreases |name| - n
    {
      n := n + 1;
    }
  }

  /** strncmp of the C string at pos with "memory", six characters. */
  predicate StartsMemory(blob: seq<bv8>, pos: nat) {
    pos + 6 <= |blob| && blob[pos..pos + 6] == MEMORY
  }

  lemma MemoryName(blob: seq<bv8>, pos: nat, name: seq<bv8>)
    requires At(blob, pos, name + [0]) && 0 !in name
    ensures StartsMemory(blob, pos) <==> IsMemory(name)
  {
    AtSplit(blob, pos, name, [0]);
    if |name| >= 6 {
      assert blob[pos..pos + |name|][..6] == blob[pos..pos + 6] == name[..6];
    } else if pos + 6 <= |blob| {
      assert blob[pos..pos + 6][|name|] == blob[pos + |name|..pos + |name| + 1][0];
      MemoryLetters(|name|);
      assert blob[pos + |name|..pos + |name| + 1] == [0];
      DifferAt(blob[pos..pos + 6], MEMORY, |name|);
    }
  }

  lemma DifferAt(b: seq<bv8>, c: seq<bv8>, k: nat)
    requires k < |b| && k < |c| && b[k] != c[k]
    ensures b != c
  {
  }

  lemma MemoryLetters(k: nat)
    requires k < 6
    ensures MEMORY[k] != 0
  {
    assert MEMORY[0] != 0 && MEMORY[1] != 0 && MEMORY[2] != 0 && MEMORY[3] != 0 && MEMORY[4] != 0 && MEMORY[5] != 0;
  }

  lemma CellAt(blob: seq<bv8>, pos: nat, v: bv32)
    requires At(blob, pos, Cell(v))
    ensures pos + 4 <= |blob| && Fdt32ToCpu(Load32(blob[pos..pos + 4])) == v
  {
    CellReads(v);
  }

  lemma TokenAt(blob: seq<bv8>, pos: nat, ts: seq<Token>, last: bv32)
    requires At(blob, pos, EncodeAll(ts) + Cell(last)) && ts != []
    ensures At(blob, pos, Encode(ts[0])) && At(blob, pos + |Encode(ts[0])|, EncodeAll(ts[1..]) + Cell(last))
  {
    hide At, Cell, Encode;
    assert EncodeAll(ts) + Cell(last) == Encode(ts[0]) + (EncodeAll(ts[1..]) + Cell(last));
    AtSplit(blob, pos, Encode(ts[0]), EncodeAll(ts[1..]) + Cell(last));
  }

  function Code(t: Token): bv32 {
    match t
    case Begin(_) => FDT_BEGIN_NODE
    case End => FDT_END_NODE
    case Property(_, _, _) => FDT_PROP
    case Nop => FDT_NOP
  }

  /** The token that is read first is the code of what follows. */
  lemma CodeAt(blob: seq<bv8>, pos: nat, t: Token)
    requires At(blob, pos, Encode(t))
    ensures At(blob, pos, Cell(Code(t)))
    ensures t.Begin? ==> At(blob, pos + 4, t.name + [0])
    ensures t.Property? ==> At(blob, pos + 4, Cell(t.len)) && At(blob, pos + 8, Cell(t.nameoff))
                            && At(blob, pos + 12, t.data)
  {
    hide At, Cell, Padding;
    if t.Begin? {
      assert Encode(t) == Cell(Code(t)) + ((t.name + [0]) + Padding(|t.name| + 1));
      AtSplit(blob, pos, Cell(Code(t)), (t.name + [0]) + Padding(|t.name| + 1));
      AtSplit(blob, pos + 4, t.name + [0], Padding(|t.name| + 1));
    } else if t.Property? {
      var tail := t.data + Padding(|t.data|);
      assert Encode(t) == Cell(Code(t)) + (Cell(t.len) + (Cell(t.nameoff) + tail));
      AtSplit(blob, pos, Cell(Code(t)), Cell(t.len) + (Cell(t.nameoff) + tail));
      AtSplit(blob, pos + 4, Cell(t.len), Cell(t.nameoff) + tail);
      AtSplit(blob, pos + 8, Cell(t.nameoff), tail);
      AtSplit(blob, pos + 12, t.data, Padding(|t.data|));
    }
  }

  /** The base and the size at the start of a reg property. */
  function RegBase(data: seq<bv8>): bv64
    requires |data| >= 16
  {
    BigEndian64(data[..8])
  }

  function RegSize(data: seq<bv8>): bv64
    requires |data| >= 16
  {
    BigEndian64(data[8..16])
  }

  lemma RegAt(blob: seq<bv8>, pos: nat, data: seq<bv8>)
    requires At(blob, pos, data) && |data| >= 16
    ensures Fdt64ToCpu(Load64(blob[pos..pos + 8])) == RegBase(data)
    ensures Fdt64ToCpu(Load64(blob[pos + 8..pos + 16])) == RegSize(data)
  {
    hide Fdt64ToCpu, Load64, BigEndian64;
    assert data[..8] == blob[pos..pos + |data|][..8] == blob[pos..pos + 8];
    assert data[8..16] == blob[pos + 8..pos + 16] by {
      forall i: nat | i < 8 ensures data[8..16][i] == blob[pos + 8..pos + 16][i] {
        assert data[8 + i] == blob[pos..pos + |data|][8 + i];
      }
    }
    Swap64(data[..8]);
    Swap64(data[8..16]);
  }

  /** Where in the blob a property name is. */
  function NameAt(blob: seq<bv8>, nameoff: bv32): nat
    requires |blob| >= 40
  {
    StringsOffset(blob) + nameoff as nat
  }

  lemma NameIsAt(blob: seq<bv8>, x: bv32)
    requires |blob| >= 40
    ensures NameAt(blob, x) == StringsOffset(blob) + x as nat
  {
    hide StringsOffset;
  }

  function RegsOf(blob: seq<bv8>): bv32 -> bool
    requires |blob| >= 40
  {
    (x: bv32) => IsReg(blob, NameAt(blob, x))
  }

  /** The body of the loop of extract_memory_info for one token at pos: where the next token is, and the mode. */
  method ReadToken(blob: seq<bv8>, pos: nat, inMemoryNode: bool, ghost t: Token)
    returns (next: nat, memory: bool, found: Option<(bv64, bv64)>)
    requires |blob| >= 40 && pos % 4 == 0 && At(blob, pos, Encode(t)) && TokenOk(t)
    ensures found.None? ==> next == pos + |Encode(t)| && next % 4 == 0
    ensures memory == if t.Begin? then inMemoryNode || IsMemory(t.name) else if t.End? then false else inMemoryNode
    ensures found == if inMemoryNode && RegHere(t, RegsOf(blob)) then Some((RegBase(t.data), RegSize(t.data))) else None
  {
    hide Load32, Load64, Fdt32ToCpu, Fdt64ToCpu, BigEndian64, At, Cell, StartsMemory, IsMemory, Encode, Padding,
        RegBase, RegSize, RegsOf;
    CodeAt(blob, pos, t);
    EncodeSize(t);
    CellAt(blob, pos, Code(t));
    found, memory := None, inMemoryNode;
    var token := Fdt32ToCpu(Load32(blob[pos..pos + 4]));
    next := pos + 4;
    if token == FDT_BEGIN_NODE {
      MemoryName(blob, next, t.name);
      var nameLen := StrLen(blob, next, t.name);
      if StartsMemory(blob, next) {
        memory := true;
      }
      RoundUp(next, nameLen + 1);
      next := (next + nameLen + 1 + 3) / 4 * 4;
    } else if token == FDT_END_NODE {
      memory := false;
    } else if token == FDT_PROP {
      next, found := ReadProperty(blob, next, inMemoryNode, t);
    }
  }

  /** The case FDT_PROP, after the token. */
  method ReadProperty(blob: seq<bv8>, pos: nat, inMemoryNode: bool, ghost t: Token)
    returns (next: nat, found: Option<(bv64, bv64)>)
    requires |blob| >= 40 && pos % 4 == 0 && t.Property? && TokenOk(t)
    requires At(blob, pos, Cell(t.len)) && At(blob, pos + 4, Cell(t.nameoff)) && At(blob, pos + 8, t.data)
    ensures found.None? ==> next == pos + 8 + |t.data| + |Padding(|t.data|)| && next % 4 == 0
    ensures found == if inMemoryNode && RegHere(t, RegsOf(blob)) then Some((RegBase(t.data), RegSize(t.data))) else None
  {
    hide Load32, Load64, Fdt32ToCpu, Fdt64ToCpu, BigEndian64, At, Cell, IsReg, Padding, RegBase, RegSize, StringsOffset,
         NameAt;
    NameIsAt(blob, t.nameoff);
    CellAt(blob, pos, t.len);
    CellAt(blob, pos + 4, t.nameoff);
    var propLen := Fdt32ToCpu(Load32(blob[pos..pos + 4])) as nat;
    var nameoff := Fdt32ToCpu(Load32(blob[pos + 4..pos + 8])) as nat;
    next, found := pos + 8, None;
    if inMemoryNode && IsReg(blob, StringsOffset(blob) + nameoff) && propLen >= 16 {
      DataFits(blob, next, t.data);
      RegAt(blob, next, t.data);
      found := Some((Fdt64ToCpu(Load64(blob[next..next + 8])), Fdt64ToCpu(Load64(blob[next + 8..next + 16]))));
    } else {
      RoundUp(next, propLen);
      next := (next + propLen + 3) / 4 * 4;
    }
  }

  lemma RoundUp(pos: nat, len: nat)
    requires pos % 4 == 0
    ensures (pos + len + 3) / 4 * 4 == pos + len + |Padding(len)| && (pos + len + |Padding(len)|) % 4 == 0
  {
    var q := pos / 4;
    assert pos == 4 * q && (4 * q + len + 3) / 4 == q + (len + 3) / 4;
  }

  lemma EncodeSize(t: Token)
    ensures |Encode(t)| == match t
                           case Begin(name) => 4 + |name| + 1 + |Padding(|name| + 1)|
                           case Property(_, _, data) => 12 + |data| + |Padding(|data|)|
                           case _ => 4
  {
    hide Cell, Padding;
  }

  lemma EndAt(blob: seq<bv8>, pos: nat, last: bv32)
    requires At(blob, pos, EncodeAll([]) + Cell(last))
    ensures At(blob, pos, Cell(last))
  {
    assert EncodeAll([]) + Cell(last) == Cell(last);
  }

  lemma DataFits(blob: seq<bv8>, pos: nat, data: seq<bv8>)
    requires At(blob, pos, data)
    ensures pos + |data| <= |blob|
  {
  }

  /** extract_memory_info: 0 and the reg found, or -1. */
  method ExtractMemoryInfo(blob: seq<bv8>, ghost ts: seq<Token>, ghost last: bv32)
    returns (code: int, base: bv64, size: bv64)
    requires Layout(blob, ts, last)
    ensures var r := Find(ts, RegsOf(blob), false);
            if r.Some?
            then code == 0 && |r.value| >= 16 && base == RegBase(r.value) && size == RegSize(r.value)
            else code == -1
  {
    hide Load32, Load64, Fdt32ToCpu, Fdt64ToCpu, BigEndian64, At, Cell, RegsOf, Encode, EncodeAll;
    var pos, inMemoryNode := StructOffset(blob), false;
    ghost var k := 0;
    base, size := 0, 0;
    assert ts[0..] == ts;
    while true
      invariant k <= |ts| && pos % 4 == 0 && At(blob, pos, EncodeAll(ts[k..]) + Cell(last))
      invariant Find(ts, RegsOf(blob), false) == Find(ts[k..], RegsOf(blob), inMemoryNode)
      decreases |ts| - k
    {
      if k == |ts| {
        assert ts[k..] == [];
        EndAt(blob, pos, last);
        CellAt(blob, pos, last);
      } else {
        TokenAt(blob, pos, ts[k..], last);
        CodeAt(blob, pos, ts[k]);
        CellAt(blob, pos, Code(ts[k]));
        assert ts[k..][1..] == ts[k + 1..] && ts[k..][0] == ts[k];
      }
      var token := Fdt32ToCpu(Load32(blob[pos..pos + 4]));
      if token !in [FDT_BEGIN_NODE, FDT_END_NODE, FDT_PROP, FDT_NOP] {
        return -1, base, size;
      }
      var found;
      pos, inMemoryNode, found := ReadToken(blob, pos, inMemoryNode, ts[k]);
      if found.Some? {
        return 0, found.value.0, found.value.1;
      }
      k := k + 1;
    }
  }
}
