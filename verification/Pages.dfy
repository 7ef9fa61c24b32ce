/** Page descriptors and blocks of pages, shared by the page allocators. */
module Pages {

  /** A page descriptor; `reserved` and `free` are the PG_reserved and PG_property bits of its flags. */
  datatype Page = Page(ref: int, reserved: bool, free: bool, property: nat)

  /** A run of pages. */
  datatype Block = Block(base: nat, size: nat) {
    function End(): nat { base + size }
  }

  /** The n page numbers from h on. */
  ghost function Range(h: nat, n: nat): (r: set<nat>)
    ensures forall i :: i in r <==> h <= i < h + n
  {
    if n == 0 then {} else Range(h, n - 1) + {h + n - 1}
  }

  lemma {:induction false} RangeSize(h: nat, n: nat)
    ensures |Range(h, n)| == n
  {
    if n > 0 { RangeSize(h, n - 1); }
  }
}
