/**
  The virtual GICv2 distributor's register file (`Vgic`) and its width
  handlers.

  The distributor keeps shadow registers for 512 interrupt IDs: one bit per ID
  for group and enable, one byte per ID for priority and target, two bits per
  ID for configuration. Each vCPU attached to it would have a `Vgicc` record.
  The 8-, 16- and 32-bit handlers are stubs: every read yields zero and every
  write leaves the register file as it was (they take `&self`, and the record
  has no interior mutability).
 */
module Vgic {
  import opened Primitives

  const PPI_ID_MAX: nat := 32
  const SPI_ID_MAX: nat := 512
  const GICD_LR_NUM: nat := 4

  /** Offsets the handlers are meant to decode. These are the values of the
      code, not the byte offsets of the GICv2 distributor register map. */
  const VGICD_CTLR: usize := 0x0
  const VGICD_ISENABLER: usize := 0x2
  const VGICD_ICENABLER: usize := 0x3
  const VGICD_ISPENDR: usize := 0x4
  const VGICD_ICPENDR: usize := 0x5
  const VGICD_ISACTIVER: usize := 0x6
  const VGICD_ICACTIVER: usize := 0x7
  const VGICD_ICFGR: usize := 0x18
  const VGICD_SGIR: usize := 0x1e

  /** The nine offsets, in declaration order. */
  const HANDLER_OFFSETS: seq<usize> := [VGICD_CTLR, VGICD_ISENABLER, VGICD_ICENABLER,
                                        VGICD_ISPENDR, VGICD_ICPENDR, VGICD_ISACTIVER,
                                        VGICD_ICACTIVER, VGICD_ICFGR, VGICD_SGIR]

  /** Per-vCPU interface state. The fixed-size arrays of the source are
      sequences whose lengths `VgiccWellFormed` fixes. */
  datatype Vgicc = Vgicc(
    id: u32,
    pendingLr: seq<u32>,
    savedLr: seq<u32>,
    savedElsr0: u32,
    savedApr: u32,
    savedHcr: u32,
    isenabler: u32,
    priorityr: seq<u8>)

  /** `pending_lr: [u32; SPI_ID_MAX]`, `saved_lr: [u32; GICD_LR_NUM]`,
      `priorityr: [u8; PPI_ID_MAX]`. */
  predicate VgiccWellFormed(c: Vgicc) {
    |c.pendingLr| == SPI_ID_MAX && |c.savedLr| == GICD_LR_NUM && |c.priorityr| == PPI_ID_MAX
  }

  /** The distributor register file. */
  datatype Vgic = Vgic(
    gicc: seq<Vgicc>,
    ctrlr: u32,
    typer: u32,
    iidr: u32,
    gicdIgroupr: seq<u32>,
    gicdIsenabler: seq<u32>,
    gicdIpriorityr: seq<u8>,
    gicdItargetsr: seq<u8>,
    gicdIcfgr: seq<u32>)

  /** The array lengths of the source: `SPI_ID_MAX / 32` words for the group
      and enable bitmaps, `SPI_ID_MAX` bytes for priority and target,
      `SPI_ID_MAX / 16` words for configuration. */
  predicate WellFormed(v: Vgic) {
    && (forall c :: c in v.gicc ==> VgiccWellFormed(c))
    && |v.gicdIgroupr| == SPI_ID_MAX / 32
    && |v.gicdIsenabler| == SPI_ID_MAX / 32
    && |v.gicdIpriorityr| == SPI_ID_MAX
    && |v.gicdItargetsr| == SPI_ID_MAX
    && |v.gicdIcfgr| == SPI_ID_MAX / 16
  }

  /** Every register, scalar and array entry, is zero. */
  predicate AllZero(v: Vgic) {
    && v.ctrlr == 0 && v.typer == 0 && v.iidr == 0
    && (forall i :: 0 <= i < |v.gicdIgroupr| ==> v.gicdIgroupr[i] == 0)
    && (forall i :: 0 <= i < |v.gicdIsenabler| ==> v.gicdIsenabler[i] == 0)
    && (forall i :: 0 <= i < |v.gicdIpriorityr| ==> v.gicdIpriorityr[i] == 0)
    && (forall i :: 0 <= i < |v.gicdItargetsr| ==> v.gicdItargetsr[i] == 0)
    && (forall i :: 0 <= i < |v.gicdIcfgr| ==> v.gicdIcfgr[i] == 0)
  }

  /** `Vgic::new`: no vCPU interface attached, every register zero, every
      array at its declared length. */
  function New(): (v: Vgic)
    ensures WellFormed(v)
    ensures v.gicc == []
    ensures AllZero(v)
  {
    Vgic(
      gicc := [],
      ctrlr := 0,
      typer := 0,
      iidr := 0,
      gicdIgroupr := seq(SPI_ID_MAX / 32, _ => 0),
      gicdIsenabler := seq(SPI_ID_MAX / 32, _ => 0),
      gicdIpriorityr := seq(SPI_ID_MAX, _ => 0),
      gicdItargetsr := seq(SPI_ID_MAX, _ => 0),
      gicdIcfgr := seq(SPI_ID_MAX / 16, _ => 0))
  }

  /** `Vgic::handle_read8`: reads zero at every offset. */
  function HandleRead8(v: Vgic, addr: usize): (r: AxResult<usize>)
    ensures r == Ok(0)
  {
    Ok(0)
  }

  /** `Vgic::handle_read16`: reads zero at every offset. */
  function HandleRead16(v: Vgic, addr: usize): (r: AxResult<usize>)
    ensures r == Ok(0)
  {
    Ok(0)
  }

  /** `Vgic::handle_read32`: reads zero at every offset. */
  function HandleRead32(v: Vgic, addr: usize): (r: AxResult<usize>)
    ensures r == Ok(0)
  {
    Ok(0)
  }

  /** `Vgic::handle_write8`, given as the register file after the write:
      the write changes nothing. */
  function HandleWrite8(v: Vgic, addr: usize, val: usize): (after: Vgic)
    ensures after == v
  {
    v
  }

  /** `Vgic::handle_write16`: the write changes nothing. */
  function HandleWrite16(v: Vgic, addr: usize, val: usize): (after: Vgic)
    ensures after == v
  {
    v
  }

  /** `Vgic::handle_write32`: the write changes nothing. */
  function HandleWrite32(v: Vgic, addr: usize, val: usize): (after: Vgic)
    ensures after == v
  {
    v
  }

  // ---------------------------------------------------------------------
  // Properties of the register file
  // ---------------------------------------------------------------------

  /** The arrays cover the 512 interrupt IDs exactly: 32 IDs per bitmap word
      (one bit each), one byte per ID, 16 IDs per configuration word (two bits
      each), and no spare entries. */
  lemma {:induction false} InterruptIdCoverage(v: Vgic, id: nat)
    requires WellFormed(v)
    ensures |v.gicdIgroupr| * 32 == SPI_ID_MAX && |v.gicdIsenabler| * 32 == SPI_ID_MAX
    ensures |v.gicdIpriorityr| == SPI_ID_MAX && |v.gicdItargetsr| == SPI_ID_MAX
    ensures |v.gicdIcfgr| * 16 == SPI_ID_MAX
    ensures id < SPI_ID_MAX <==> id / 32 < |v.gicdIgroupr|
    ensures id < SPI_ID_MAX <==> id / 16 < |v.gicdIcfgr|
  {
  }

  /** Each vCPU record holds one pending list-register shadow per interrupt
      ID, four saved list registers and one priority byte per private ID. */
  lemma VgiccSizes(v: Vgic, k: nat)
    requires WellFormed(v) && k < |v.gicc|
    ensures |v.gicc[k].pendingLr| == 512
    ensures |v.gicc[k].savedLr| == 4
    ensures |v.gicc[k].priorityr| == 32
  {
    assert v.gicc[k] in v.gicc;
  }

  /** The nine handler offsets are pairwise distinct and lie within the
      4 KiB window the dispatcher passes on. */
  lemma HandlerOffsetsDistinct()
    ensures |HANDLER_OFFSETS| == 9
    ensures forall i, j :: 0 <= i < j < |HANDLER_OFFSETS| ==> HANDLER_OFFSETS[i] != HANDLER_OFFSETS[j]
    ensures forall i :: 0 <= i < |HANDLER_OFFSETS| ==> HANDLER_OFFSETS[i] < 0x1000
  {
  }
}
