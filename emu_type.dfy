/**
  The closed registry of emulated-device categories (`EmuDeviceType`).

  Every tag has a fixed `usize` discriminant (0 to 11), a display string and a
  static removability flag; `from_usize` decodes a discriminant and panics on
  any other value, which is modelled as its precondition.
 */
module EmuType {
  import opened Primitives

  /** The twelve tags, declared in discriminant order. */
  datatype EmuDeviceType =
    | EmuDeviceTConsole
    | EmuDeviceTInterruptController
    | EmuDeviceTGPPT
    | EmuDeviceTVirtioBlk
    | EmuDeviceTVirtioNet
    | EmuDeviceTVirtioConsole
    | EmuDeviceTIOMMU
    | EmuDeviceTICCSRE
    | EmuDeviceTSGIR
    | EmuDeviceTGICR
    | EmuDeviceTIVCChannel
    | EmuDeviceTMeta

  /** Number of tags; discriminants are exactly 0 .. TAG_COUNT - 1. */
  const TAG_COUNT: nat := 12

  /** The discriminant of a tag, `t as usize` (`#[repr(usize)]`). */
  function ToUsize(t: EmuDeviceType): (r: usize)
    ensures r < TAG_COUNT
  {
    match t
    case EmuDeviceTConsole => 0
    case EmuDeviceTInterruptController => 1
    case EmuDeviceTGPPT => 2
    case EmuDeviceTVirtioBlk => 3
    case EmuDeviceTVirtioNet => 4
    case EmuDeviceTVirtioConsole => 5
    case EmuDeviceTIOMMU => 6
    case EmuDeviceTICCSRE => 7
    case EmuDeviceTSGIR => 8
    case EmuDeviceTGICR => 9
    case EmuDeviceTIVCChannel => 10
    case EmuDeviceTMeta => 11
  }

  /** `EmuDeviceType::from_usize`: decodes a discriminant. Any value above 11
      makes the source panic, so such values are excluded by the precondition. */
  function FromUsize(value: usize): (t: EmuDeviceType)
    requires value < TAG_COUNT
    ensures ToUsize(t) == value
  {
    match value
    case 0 => EmuDeviceTConsole
    case 1 => EmuDeviceTInterruptController
    case 2 => EmuDeviceTGPPT
    case 3 => EmuDeviceTVirtioBlk
    case 4 => EmuDeviceTVirtioNet
    case 5 => EmuDeviceTVirtioConsole
    case 6 => EmuDeviceTIOMMU
    case 7 => EmuDeviceTICCSRE
    case 8 => EmuDeviceTSGIR
    case 9 => EmuDeviceTGICR
    case 10 => EmuDeviceTIVCChannel
    case _ => EmuDeviceTMeta
  }

  /** `Default for EmuDeviceType`: the unclassified "meta" tag, the one with
      the highest discriminant, and not removable. */
  function Default(): (t: EmuDeviceType)
    ensures ToUsize(t) == TAG_COUNT - 1
    ensures !Removable(t)
  {
    EmuDeviceTMeta
  }

  /** `EmuDeviceType::removable`: holds for the tags with discriminants
      1, 2, 3, 4, 5, 7, 8 and 9. */
  predicate Removable(t: EmuDeviceType): (b: bool)
    ensures b <==> ToUsize(t) in {1, 2, 3, 4, 5, 7, 8, 9}
  {
    t.EmuDeviceTInterruptController? || t.EmuDeviceTSGIR? || t.EmuDeviceTICCSRE?
    || t.EmuDeviceTGPPT? || t.EmuDeviceTVirtioBlk? || t.EmuDeviceTVirtioNet?
    || t.EmuDeviceTGICR? || t.EmuDeviceTVirtioConsole?
  }

  /** `Display for EmuDeviceType`: the text written by `fmt`. */
  function Display(t: EmuDeviceType): (s: string)
    ensures |s| > 0
  {
    match t
    case EmuDeviceTConsole => "console"
    case EmuDeviceTInterruptController => "Interrupt controller"
    case EmuDeviceTGPPT => "partial passthrough interrupt controller"
    case EmuDeviceTVirtioBlk => "virtio block"
    case EmuDeviceTVirtioNet => "virtio net"
    case EmuDeviceTVirtioConsole => "virtio console"
    case EmuDeviceTIOMMU => "IOMMU"
    case EmuDeviceTICCSRE => "interrupt ICC SRE"
    case EmuDeviceTSGIR => "interrupt ICC SGIR"
    case EmuDeviceTGICR => "interrupt controller gicr"
    case EmuDeviceTIVCChannel => "IVC channel"
    case EmuDeviceTMeta => "meta device"
  }

  /** Every tag, listed by discriminant. */
  function AllTypes(): (all: seq<EmuDeviceType>)
    ensures |all| == TAG_COUNT
  {
    seq(TAG_COUNT, i requires 0 <= i < TAG_COUNT => FromUsize(i))
  }

  /** Number of removable tags in `ts`. */
  function CountRemovable(ts: seq<EmuDeviceType>): (n: nat)
    ensures n <= |ts|
  {
    if ts == [] then 0
    else (if Removable(ts[0]) then 1 else 0) + CountRemovable(ts[1..])
  }

  // ---------------------------------------------------------------------
  // Properties of the registry
  // ---------------------------------------------------------------------

  /** Decoding the discriminant of a tag gives the tag back. */
  lemma FromUsizeToUsize(t: EmuDeviceType)
    ensures FromUsize(ToUsize(t)) == t
  {
  }

  /** The discriminants are exactly 0 .. 11: every value in that interval is
      the discriminant of some tag, and no tag has any other. */
  lemma DiscriminantsAreZeroToEleven(v: int)
    ensures (exists t :: ToUsize(t) == v) <==> 0 <= v < TAG_COUNT
  {
    if 0 <= v < TAG_COUNT {
      assert ToUsize(FromUsize(v)) == v;
    }
  }

  /** `from_usize` is injective on its domain. */
  lemma FromUsizeInjective(a: usize, b: usize)
    requires a < TAG_COUNT && b < TAG_COUNT
    ensures FromUsize(a) == FromUsize(b) ==> a == b
  {
  }

  /** Distinct tags have distinct discriminants. */
  lemma ToUsizeInjective(s: EmuDeviceType, t: EmuDeviceType)
    ensures ToUsize(s) == ToUsize(t) ==> s == t
  {
    FromUsizeToUsize(s);
    FromUsizeToUsize(t);
  }

  /** `AllTypes` enumerates the whole registry, once per tag, in
      discriminant order. */
  lemma AllTypesEnumerates(t: EmuDeviceType)
    ensures AllTypes()[ToUsize(t)] == t
    ensures forall i, j :: 0 <= i < j < TAG_COUNT ==> AllTypes()[i] != AllTypes()[j]
  {
    FromUsizeToUsize(t);
    forall i, j | 0 <= i < j < TAG_COUNT
      ensures AllTypes()[i] != AllTypes()[j]
    {
      assert ToUsize(AllTypes()[i]) == i;
      assert ToUsize(AllTypes()[j]) == j;
    }
  }

  /** Removability holds of exactly the eight interrupt-controller and virtio
      tags, and fails for console, IOMMU, IVC channel and meta. */
  lemma RemovableExactly(t: EmuDeviceType)
    ensures Removable(t) <==> ToUsize(t) in {1, 2, 3, 4, 5, 7, 8, 9}
    ensures !Removable(t) <==> t in {EmuDeviceTConsole, EmuDeviceTIOMMU, EmuDeviceTIVCChannel, EmuDeviceTMeta}
  {
  }

  /** One step of the count: the suffix from `k` adds the tag at `k`. */
  lemma CountRemovableStep(all: seq<EmuDeviceType>, k: nat, t: EmuDeviceType)
    requires all == AllTypes() && k < TAG_COUNT && ToUsize(t) == k
    ensures CountRemovable(all[k..]) == (if Removable(t) then 1 else 0) + CountRemovable(all[k + 1..])
  {
    assert all[k] == FromUsize(k);
    ToUsizeInjective(all[k], t);
    assert all[k..][1..] == all[k + 1..];
  }

  /** Eight of the twelve tags are removable. */
  lemma {:induction false} RemovableCount()
    ensures CountRemovable(AllTypes()) == 8
  {
    var all := AllTypes();
    // Count the suffixes of the listing, from the last tag to the first.
    assert all[TAG_COUNT..] == [];
    CountRemovableStep(all, 11, EmuDeviceTMeta);
    assert CountRemovable(all[11..]) == 0;
    CountRemovableStep(all, 10, EmuDeviceTIVCChannel);
    assert CountRemovable(all[10..]) == 0;
    CountRemovableStep(all, 9, EmuDeviceTGICR);
    assert CountRemovable(all[9..]) == 1;
    CountRemovableStep(all, 8, EmuDeviceTSGIR);
    assert CountRemovable(all[8..]) == 2;
    CountRemovableStep(all, 7, EmuDeviceTICCSRE);
    assert CountRemovable(all[7..]) == 3;
    CountRemovableStep(all, 6, EmuDeviceTIOMMU);
    assert CountRemovable(all[6..]) == 3;
    CountRemovableStep(all, 5, EmuDeviceTVirtioConsole);
    assert CountRemovable(all[5..]) == 4;
    CountRemovableStep(all, 4, EmuDeviceTVirtioNet);
    assert CountRemovable(all[4..]) == 5;
    CountRemovableStep(all, 3, EmuDeviceTVirtioBlk);
    assert CountRemovable(all[3..]) == 6;
    CountRemovableStep(all, 2, EmuDeviceTGPPT);
    assert CountRemovable(all[2..]) == 7;
    CountRemovableStep(all, 1, EmuDeviceTInterruptController);
    assert CountRemovable(all[1..]) == 8;
    CountRemovableStep(all, 0, EmuDeviceTConsole);
    assert CountRemovable(all[0..]) == 8;
    assert all[0..] == all;
  }

  /** The default tag is not removable. */
  lemma DefaultNotRemovable()
    ensures !Removable(Default())
    ensures Default() == FromUsize(TAG_COUNT - 1)
  {
  }

  /** Distinct tags print differently: the display mapping is injective. */
  lemma DisplayInjective(s: EmuDeviceType, t: EmuDeviceType)
    ensures Display(s) == Display(t) ==> s == t
  {
  }
}
