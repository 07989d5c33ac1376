/**
  The distributor's device-dispatch front end (`BaseDeviceOps for Vgic`).

  The device claims the guest-physical window `[0x800_0000, 0x801_0000)`.
  Each access keeps only the low twelve bits of the address and then selects
  the 8-, 16- or 32-bit handler by the width code 0, 1 or 2; any other width
  reads zero and ignores writes.
 */
module VgicDevOps {
  import opened Primitives
  import opened DeviceAddr
  import opened Vgic
  import opened Bits

  const VGICD_BASE: GuestPhysAddr := 0x800_0000
  const VGICD_SIZE: nat := 0x10000

  /** Width of the window the handlers see after masking. */
  const OFFSET_WINDOW: nat := 0x1000

  /** `address_range`: the 64 KiB window starting at 0x800_0000. */
  function AddressRange(v: Vgic): (r: GuestPhysAddrRange)
    ensures r.end - r.start == VGICD_SIZE
    ensures forall a: GuestPhysAddr :: GuestPhysContains(r, a) <==> VGICD_BASE <= a < VGICD_BASE + VGICD_SIZE
  {
    AddrRange(VGICD_BASE, VGICD_BASE + VGICD_SIZE)
  }

  /** `addr.as_usize() & 0xfff`: the offset both handlers pass on. It is the
      address modulo 0x1000, so it always lies below 0x1000. */
  function Offset(addr: GuestPhysAddr): (off: usize)
    ensures off < OFFSET_WINDOW
    ensures off == addr % OFFSET_WINDOW
  {
    BitAndLowMask(addr, 12);
    BitAnd(addr, 0xfff)
  }

  /** The dispatch of `handle_read`, for any three width handlers: mask the
      address, then pick the handler by the width code; a code other than 0,
      1 or 2 yields `other` without calling a handler. */
  function DispatchRead<R>(addr: GuestPhysAddr, width: usize,
                           read8: usize -> R, read16: usize -> R, read32: usize -> R, other: R): R
  {
    var off := Offset(addr);
    match width
    case 0 => read8(off)
    case 1 => read16(off)
    case 2 => read32(off)
    case _ => other
  }

  /** The dispatch of `handle_write`, for any three width handlers taking the
      offset and the value. */
  function DispatchWrite<S>(addr: GuestPhysAddr, width: usize, val: usize,
                            write8: (usize, usize) -> S, write16: (usize, usize) -> S,
                            write32: (usize, usize) -> S, other: S): S
  {
    var off := Offset(addr);
    match width
    case 0 => write8(off, val)
    case 1 => write16(off, val)
    case 2 => write32(off, val)
    case _ => other
  }

  /** `handle_read`: the read dispatch over the distributor's width
      handlers. With the stub handlers every read yields zero. */
  function HandleRead(v: Vgic, addr: GuestPhysAddr, width: usize): (r: AxResult<usize>)
    ensures r == Ok(0)
  {
    DispatchRead(addr, width,
                 off => HandleRead8(v, off), off => HandleRead16(v, off), off => HandleRead32(v, off),
                 Ok(0))
  }

  /** `handle_write`, given as the register file after the write: the write
      dispatch over the distributor's width handlers. No access changes the
      register file. */
  function HandleWrite(v: Vgic, addr: GuestPhysAddr, width: usize, val: usize): (after: Vgic)
    ensures after == v
  {
    DispatchWrite(addr, width, val,
                  (off, x) => HandleWrite8(v, off, x), (off, x) => HandleWrite16(v, off, x),
                  (off, x) => HandleWrite32(v, off, x),
                  v)
  }

  // ---------------------------------------------------------------------
  // Sequences of accesses
  // ---------------------------------------------------------------------

  /** One guest access as the trap handler issues it. */
  datatype Access =
    | Read(addr: GuestPhysAddr, width: usize)
    | Write(addr: GuestPhysAddr, width: usize, val: usize)

  function CountReads(accesses: seq<Access>): (n: nat)
    ensures n <= |accesses|
  {
    if accesses == [] then 0
    else (if accesses[0].Read? then 1 else 0) + CountReads(accesses[1..])
  }

  /** Performs `accesses` in order on `v`; yields the final register file and
      the result of every read, in order. Whatever the accesses, the register
      file is unchanged and every read returned zero. */
  function Replay(v: Vgic, accesses: seq<Access>): (r: (Vgic, seq<AxResult<usize>>))
    ensures r.0 == v
    ensures |r.1| == CountReads(accesses)
    ensures forall k :: 0 <= k < |r.1| ==> r.1[k] == Ok(0)
  {
    if accesses == [] then (v, [])
    else
      match accesses[0]
      case Read(addr, width) =>
        var rest := Replay(v, accesses[1..]);
        (rest.0, [HandleRead(v, addr, width)] + rest.1)
      case Write(addr, width, val) =>
        Replay(HandleWrite(v, addr, width, val), accesses[1..])
  }

  // ---------------------------------------------------------------------
  // Properties of the dispatcher
  // ---------------------------------------------------------------------

  /** Width decode on reads, whatever the handlers: 0, 1 and 2 call the 8-,
      16- and 32-bit handler on `addr % 0x1000`; any other code yields the
      default without calling a handler. */
  lemma ReadWidthDecode<R>(addr: GuestPhysAddr, width: usize,
                           read8: usize -> R, read16: usize -> R, read32: usize -> R, other: R)
    ensures width == 0 ==> DispatchRead(addr, width, read8, read16, read32, other) == read8(addr % OFFSET_WINDOW)
    ensures width == 1 ==> DispatchRead(addr, width, read8, read16, read32, other) == read16(addr % OFFSET_WINDOW)
    ensures width == 2 ==> DispatchRead(addr, width, read8, read16, read32, other) == read32(addr % OFFSET_WINDOW)
    ensures width > 2 ==> DispatchRead(addr, width, read8, read16, read32, other) == other
  {
  }

  /** Width decode on writes, whatever the handlers: 0, 1 and 2 call the 8-,
      16- and 32-bit handler on `addr % 0x1000` and the written value; any
      other code yields the default without calling a handler. */
  lemma WriteWidthDecode<S>(addr: GuestPhysAddr, width: usize, val: usize,
                            write8: (usize, usize) -> S, write16: (usize, usize) -> S,
                            write32: (usize, usize) -> S, other: S)
    ensures width == 0 ==> DispatchWrite(addr, width, val, write8, write16, write32, other) == write8(addr % OFFSET_WINDOW, val)
    ensures width == 1 ==> DispatchWrite(addr, width, val, write8, write16, write32, other) == write16(addr % OFFSET_WINDOW, val)
    ensures width == 2 ==> DispatchWrite(addr, width, val, write8, write16, write32, other) == write32(addr % OFFSET_WINDOW, val)
    ensures width > 2 ==> DispatchWrite(addr, width, val, write8, write16, write32, other) == other
  {
  }

  /** Addresses that differ by a multiple of 0x1000 are masked to the same
      offset, so every width handler receives the same arguments for both. */
  lemma {:induction false} OffsetAliasing(addr: GuestPhysAddr, k: nat)
    requires addr + k * OFFSET_WINDOW < USIZE_LIMIT
    ensures Offset(addr + k * OFFSET_WINDOW) == Offset(addr)
  {
    var a' := addr + k * OFFSET_WINDOW;
    assert a' % OFFSET_WINDOW == addr % OFFSET_WINDOW by {
      assert a' == (addr / OFFSET_WINDOW + k) * OFFSET_WINDOW + addr % OFFSET_WINDOW;
    }
  }

  /** Aliased addresses dispatch identically, for any handlers. */
  lemma {:induction false} DispatchAliasing<R, S>(addr: GuestPhysAddr, k: nat, width: usize, val: usize,
                                                  read8: usize -> R, read16: usize -> R, read32: usize -> R, rother: R,
                                                  write8: (usize, usize) -> S, write16: (usize, usize) -> S,
                                                  write32: (usize, usize) -> S, wother: S)
    requires addr + k * OFFSET_WINDOW < USIZE_LIMIT
    ensures DispatchRead(addr + k * OFFSET_WINDOW, width, read8, read16, read32, rother)
         == DispatchRead(addr, width, read8, read16, read32, rother)
    ensures DispatchWrite(addr + k * OFFSET_WINDOW, width, val, write8, write16, write32, wother)
         == DispatchWrite(addr, width, val, write8, write16, write32, wother)
  {
    OffsetAliasing(addr, k);
  }

  /** Inside the device window, the masked address is the distance from the
      window base modulo 0x1000: the 4 KiB register block appears sixteen
      times across the 64 KiB window, at base + k * 0x1000 for k < 16. */
  lemma {:induction false} WindowMirrorsRegisterBlock(off: usize, k: nat)
    requires off < OFFSET_WINDOW && k < VGICD_SIZE / OFFSET_WINDOW
    ensures GuestPhysContains(AddressRange(New()), VGICD_BASE + k * OFFSET_WINDOW + off)
    ensures Offset(VGICD_BASE + k * OFFSET_WINDOW + off) == off
  {
    assert VGICD_BASE == 0x8000 * OFFSET_WINDOW;
    OffsetAliasing(off, 0x8000 + k);
  }

  /** The masked offset of an address in the window depends only on its
      distance from the base. */
  lemma {:induction false} OffsetFromBase(addr: GuestPhysAddr)
    requires GuestPhysContains(AddressRange(New()), addr)
    ensures Offset(addr) == (addr - VGICD_BASE) % OFFSET_WINDOW
  {
    OffsetAliasing(addr - VGICD_BASE, 0x8000);
  }

  /** Writing twice is writing once, and two writes commute. */
  lemma WritesIdempotentAndCommute(v: Vgic, a1: GuestPhysAddr, w1: usize, x1: usize,
                                   a2: GuestPhysAddr, w2: usize, x2: usize)
    ensures HandleWrite(HandleWrite(v, a1, w1, x1), a1, w1, x1) == HandleWrite(v, a1, w1, x1)
    ensures HandleWrite(HandleWrite(v, a1, w1, x1), a2, w2, x2)
         == HandleWrite(HandleWrite(v, a2, w2, x2), a1, w1, x1)
  {
  }

  /** The reads of a concatenation are those of its two parts. */
  lemma {:induction false} CountReadsAppend(xs: seq<Access>, ys: seq<Access>)
    ensures CountReads(xs + ys) == CountReads(xs) + CountReads(ys)
  {
    if xs == [] {
      assert xs + ys == ys;
    } else {
      assert (xs + ys)[1..] == xs[1..] + ys;
      CountReadsAppend(xs[1..], ys);
    }
  }

  /** Reordering two blocks of accesses changes neither the final register
      file nor what the reads return. */
  lemma ReplayOrderIndependent(v: Vgic, xs: seq<Access>, ys: seq<Access>)
    ensures Replay(v, xs + ys).0 == Replay(v, ys + xs).0
    ensures Replay(v, xs + ys).1 == Replay(v, ys + xs).1
  {
    CountReadsAppend(xs, ys);
    CountReadsAppend(ys, xs);
  }

  /** From the freshly constructed distributor, any sequence of guest
      accesses leaves every register zero. */
  lemma AccessesKeepNewZero(accesses: seq<Access>)
    ensures WellFormed(Replay(New(), accesses).0)
    ensures AllZero(Replay(New(), accesses).0)
  {
  }
}
