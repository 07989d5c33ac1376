/**
  Device addresses and address ranges.

  A range answers one question: does it contain a given address. Each address
  space has its own address and range type, so an address of one space can
  never be tested against a range of another. Two spaces are modelled:
  system-register addresses (`SysRegAddr`, `SysRegAddrRange`) and
  guest-physical memory addresses (`AddrRange<GuestPhysAddr>`).
 */
module DeviceAddr {
  import opened Primitives

  /** `SysRegAddr(pub usize)`. */
  datatype SysRegAddr = SysRegAddr(value: usize)

  datatype Ordering = Less | Equal | Greater

  /** `Ord::cmp` derived for the one-field struct `SysRegAddr`: it compares
      the wrapped `usize`, and reports `Equal` exactly for equal addresses. */
  function Compare(a: SysRegAddr, b: SysRegAddr): (o: Ordering)
    ensures o == Equal <==> a == b
    ensures o == Less <==> a.value < b.value
    ensures o == Greater <==> b.value < a.value
  {
    if a.value < b.value then Less
    else if a.value == b.value then Equal
    else Greater
  }

  /** `a <= b` in the derived order: the order of the wrapped `usize`. */
  predicate SysRegAddrLe(a: SysRegAddr, b: SysRegAddr): (r: bool)
    ensures r <==> a.value <= b.value
  {
    Compare(a, b) != Greater
  }

  /** `a < b` in the derived order: `a <= b` and the addresses differ. */
  predicate SysRegAddrLt(a: SysRegAddr, b: SysRegAddr): (r: bool)
    ensures r <==> SysRegAddrLe(a, b) && a != b
  {
    Compare(a, b) == Less
  }

  /** `SysRegAddrRange { start, end }`. */
  datatype SysRegAddrRange = SysRegAddrRange(start: SysRegAddr, end: SysRegAddr)

  /** `SysRegAddrRange::new`: stores both bounds unchanged, so the range it
      makes contains exactly the addresses from `start` up to, and not
      including, `end`. */
  function NewSysRegAddrRange(start: SysRegAddr, end: SysRegAddr): (r: SysRegAddrRange)
    ensures r.start == start && r.end == end
    ensures forall a :: SysRegContains(r, a) <==> start.value <= a.value < end.value
  {
    SysRegAddrRange(start, end)
  }

  /** `DeviceAddrRange::contains` for `SysRegAddrRange`: the half-open
      interval `[start, end)` in the order of `SysRegAddr`. */
  predicate SysRegContains(r: SysRegAddrRange, addr: SysRegAddr): (b: bool)
    ensures b <==> SysRegAddrLe(r.start, addr) && SysRegAddrLt(addr, r.end)
  {
    addr.value >= r.start.value && addr.value < r.end.value
  }

  /** `GuestPhysAddr` is a `usize` address. */
  type GuestPhysAddr = usize

  /** `AddrRange<GuestPhysAddr>` from the `memory_addr` crate, by its two
      bounds. */
  datatype GuestPhysAddrRange = AddrRange(start: GuestPhysAddr, end: GuestPhysAddr)

  /** `DeviceAddrRange::contains` for `AddrRange<GuestPhysAddr>`. The source
      delegates to `memory_addr`, which is not part of this model; its
      half-open semantics is assumed here. */
  predicate GuestPhysContains(r: GuestPhysAddrRange, addr: GuestPhysAddr): (b: bool)
    ensures b ==> r.start < r.end
    ensures addr == r.end ==> !b
  {
    r.start <= addr < r.end
  }

  // ---------------------------------------------------------------------
  // Properties of the ordering and of containment
  // ---------------------------------------------------------------------

  /** The derived order on `SysRegAddr` is antisymmetric and total: two
      addresses ordered both ways are the same address. */
  lemma SysRegAddrTotalOrder(a: SysRegAddr, b: SysRegAddr)
    ensures SysRegAddrLe(a, b) && SysRegAddrLe(b, a) ==> a == b
    ensures SysRegAddrLe(a, b) || SysRegAddrLe(b, a)
  {
  }

  /** The end bound is never contained; the start bound is contained exactly
      when the range is non-empty. */
  lemma SysRegBounds(r: SysRegAddrRange)
    ensures !SysRegContains(r, r.end)
    ensures SysRegContains(r, r.start) <==> SysRegAddrLt(r.start, r.end)
  {
  }

  /** A range whose end does not exceed its start contains nothing. */
  lemma SysRegEmptyRange(r: SysRegAddrRange, a: SysRegAddr)
    requires SysRegAddrLe(r.end, r.start)
    ensures !SysRegContains(r, a)
  {
  }

  /** Containment is convex in the address order: an address between two
      contained addresses is contained. */
  lemma SysRegContainsConvex(r: SysRegAddrRange, a: SysRegAddr, b: SysRegAddr, c: SysRegAddr)
    requires SysRegContains(r, a) && SysRegContains(r, c)
    requires SysRegAddrLe(a, b) && SysRegAddrLe(b, c)
    ensures SysRegContains(r, b)
  {
  }

  /** Adjacent ranges `[a, b)` and `[b, c)` share no address, and together
      they hold exactly the addresses of `[a, c)`. */
  lemma SysRegAdjacentPartition(a: SysRegAddr, b: SysRegAddr, c: SysRegAddr, x: SysRegAddr)
    requires SysRegAddrLe(a, b) && SysRegAddrLe(b, c)
    ensures !(SysRegContains(SysRegAddrRange(a, b), x) && SysRegContains(SysRegAddrRange(b, c), x))
    ensures SysRegContains(SysRegAddrRange(a, c), x)
        <==> SysRegContains(SysRegAddrRange(a, b), x) || SysRegContains(SysRegAddrRange(b, c), x)
  {
  }

  /** Adjacent guest-physical ranges, such as `[0x1000, 0x2000)` and
      `[0x2000, 0x3000)`, share no address. */
  lemma GuestPhysAdjacentDisjoint(a: GuestPhysAddr, b: GuestPhysAddr, c: GuestPhysAddr, x: GuestPhysAddr)
    ensures !(GuestPhysContains(AddrRange(a, b), x) && GuestPhysContains(AddrRange(b, c), x))
  {
  }
}
