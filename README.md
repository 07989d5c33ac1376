# Device-emulation base and virtual GICv2 distributor, in Dafny

This project models two pieces of the ArceOS hypervisor's device crates and
proves properties of them.

- **Device types and addresses** (`axdevice_base`):
  - `EmuDeviceType` is a closed set of twelve tags. Each tag has a discriminant (0 to 11), a default, a removability flag, a display string and a decoder `from_usize`.
  - `SysRegAddr`/`SysRegAddrRange` are system-register addresses and half-open ranges of them.
  - `AddrRange<GuestPhysAddr>` is the guest-physical range type.
- **The vGIC distributor** (`vgic`):
  - The `Vgic`/`Vgicc` register-file records hold shadow arrays for 512 interrupt IDs. `Vgic::new` zeroes them.
  - The `BaseDeviceOps` front end claims the window `[0x800_0000, 0x801_0000)`. It keeps the low 12 bits of the address (`addr & 0xfff`) and dispatches on the width code: 0, 1, 2 select the 8-, 16-, 32-bit handler. Any other code reads zero or ignores the write.
  - The width handlers are stubs: reads return `Ok(0)` and writes change nothing.

Files:

- `primitives.dfy`: `u8`/`u32`/`usize` as bounded subset types (64-bit `usize`), and `AxResult`.
- `emu_type.dfy`: module `EmuType`.
- `device_addr.dfy`: module `DeviceAddr`.
- `bits.dfy`: module `Bits`. Bitwise AND on unsigned integers, and the proof that masking with `2^k - 1` is reduction modulo `2^k`.
- `vgic.dfy`: module `Vgic`, from `vgic/src/lib.rs`.
- `vgic_devops.dfy`: module `VgicDevOps`, from `vgic/src/devops_impl.rs`.

All four source files are pure, so the model uses datatypes, functions and lemmas:

- The handlers take `&self`, and `Vgic` has no interior mutability. A write is therefore modelled as a function that returns the register file after the write, and its contract says that this is the register file before it.
- `DispatchRead`/`DispatchWrite` are the mask-and-select step of `handle_read`/`handle_write`, taken over arbitrary width handlers, so the decode table is stated independently of the stubs.
- `Replay` performs a sequence of guest accesses. It is used to state that no order or number of accesses changes the state, and that every read yields zero.

Two facts about the code shape the model:

- The code has no control-register enable/priority sweep, no lock around the register file and no logging of unknown offsets; the width handlers are stubs.
- The offset constants `VGICD_*` (`0x0`, `0x2`, … `0x1e`) are kept as written. They are not the byte offsets of the ARM GICv2 distributor register map (section 4.1.2 of ARM IHI 0048B).

## Model

| member | source | states |
|---|---|---|
| `EmuType.ToUsize` | axdevice_base/src/emu_type.rs:6-34 | the `#[repr(usize)]` discriminant of every tag is below 12 |
| `EmuType.FromUsize` | axdevice_base/src/emu_type.rs:82-97 | decodes every value below 12 to the tag with that discriminant; values above 11 panic, so they are excluded by the precondition |
| `EmuType.Default` | axdevice_base/src/emu_type.rs:36-40 | the default tag is the one with discriminant 11 (meta) and is not removable |
| `EmuType.Display` | axdevice_base/src/emu_type.rs:45-60 | each tag's display text is non-empty |
| `EmuType.FromUsizeToUsize` | axdevice_base/src/emu_type.rs:82-95 | `from_usize(t as usize) == t` for every tag |
| `EmuType.DiscriminantsAreZeroToEleven` | axdevice_base/src/emu_type.rs:6-34 | an integer is the discriminant of some tag iff it lies in 0..=11 |
| `EmuType.FromUsizeInjective` | axdevice_base/src/emu_type.rs:83-95 | distinct values in 0..=11 decode to distinct tags |
| `EmuType.ToUsizeInjective` | axdevice_base/src/emu_type.rs:6-34 | distinct tags have distinct discriminants |
| `EmuType.AllTypesEnumerates` | axdevice_base/src/emu_type.rs:6-34 | the listing of all tags by discriminant contains every tag once |
| `EmuType.Removable` | axdevice_base/src/emu_type.rs:67-79 | a tag is removable iff its discriminant is one of 1, 2, 3, 4, 5, 7, 8, 9 |
| `EmuType.RemovableExactly` | axdevice_base/src/emu_type.rs:67-79 | a tag is removable iff its discriminant is one of 1, 2, 3, 4, 5, 7, 8, 9; it is not removable iff it is console, IOMMU, IVC channel or meta |
| `EmuType.RemovableCount` | axdevice_base/src/emu_type.rs:67-79 | exactly 8 of the 12 tags are removable |
| `EmuType.DefaultNotRemovable` | axdevice_base/src/emu_type.rs:36-40 | the default tag is `from_usize(11)` and is not removable |
| `EmuType.DisplayInjective` | axdevice_base/src/emu_type.rs:45-60 | two tags with the same display text are the same tag |
| `DeviceAddr.NewSysRegAddrRange` | axdevice_base/src/device_addr.rs:40-42 | `new(s, e)` stores both bounds unchanged, and the range contains exactly the addresses `a` with `s <= a < e` |
| `DeviceAddr.Compare` | axdevice_base/src/device_addr.rs:27-28 | the derived `cmp` of `SysRegAddr` is `Equal` iff the addresses are equal, `Less` iff the wrapped `usize` is smaller, `Greater` iff it is larger |
| `DeviceAddr.SysRegAddrLe` | axdevice_base/src/device_addr.rs:27-28 | `a <= b` in the derived order iff the wrapped values satisfy `a.0 <= b.0` |
| `DeviceAddr.SysRegAddrLt` | axdevice_base/src/device_addr.rs:27-28 | `a < b` in the derived order iff `a <= b` and `a != b` |
| `DeviceAddr.SysRegAddrTotalOrder` | axdevice_base/src/device_addr.rs:27-28 | the derived order is antisymmetric (addresses ordered both ways are equal) and total |
| `DeviceAddr.SysRegContains` | axdevice_base/src/device_addr.rs:48-50 | `contains(r, a)` iff `start <= a` and `a < end` in the `SysRegAddr` order |
| `DeviceAddr.SysRegBounds` | axdevice_base/src/device_addr.rs:49 | `end` is never contained; `start` is contained iff `start < end` |
| `DeviceAddr.SysRegEmptyRange` | axdevice_base/src/device_addr.rs:49 | a range with `end <= start` contains no address |
| `DeviceAddr.SysRegContainsConvex` | axdevice_base/src/device_addr.rs:48-50 | an address ordered between two contained addresses is contained |
| `DeviceAddr.SysRegAdjacentPartition` | axdevice_base/src/device_addr.rs:49 | `[a,b)` and `[b,c)` share no address, and an address is in `[a,c)` iff it is in one of them |
| `DeviceAddr.GuestPhysContains` | axdevice_base/src/device_addr.rs:18-24 | under the half-open semantics assumed for `memory_addr`, a range containing an address is non-empty, and the end is never contained |
| `DeviceAddr.GuestPhysAdjacentDisjoint` | axdevice_base/src/device_addr.rs:18-24 | adjacent guest-physical ranges share no address (under the half-open semantics assumed for `memory_addr`) |
| `Bits.BitAndLowMask` | vgic/src/devops_impl.rs:19 | for an unsigned `x`, `x & (2^k - 1) == x % 2^k` |
| `Vgic.New` | vgic/src/lib.rs:59-71 | the new distributor has no vCPU interface; `ctrlr`, `typer`, `iidr` and every entry of the group, enable, priority, target and configuration arrays are zero; every array has its declared length |
| `Vgic.InterruptIdCoverage` | vgic/src/lib.rs:49-53 | group and enable words hold 32 IDs each (one bit per ID), priority and target one byte per ID, configuration words 16 IDs each (two bits per ID), and together they cover exactly IDs 0..511 |
| `Vgic.VgiccSizes` | vgic/src/lib.rs:29-40 | each vCPU record has 512 pending list-register shadows, 4 saved list registers and 32 priority bytes |
| `Vgic.HandlerOffsetsDistinct` | vgic/src/lib.rs:19-27 | the nine handler offsets are pairwise distinct and all below 0x1000 |
| `Vgic.HandleRead8` | vgic/src/lib.rs:73-75 | the 8-bit read yields `Ok(0)` at every offset |
| `Vgic.HandleRead16` | vgic/src/lib.rs:77-79 | the 16-bit read yields `Ok(0)` at every offset |
| `Vgic.HandleRead32` | vgic/src/lib.rs:81-83 | the 32-bit read yields `Ok(0)` at every offset |
| `Vgic.HandleWrite8` | vgic/src/lib.rs:85 | the 8-bit write leaves every field unchanged, for every offset and value |
| `Vgic.HandleWrite16` | vgic/src/lib.rs:87 | the 16-bit write leaves every field unchanged, for every offset and value |
| `Vgic.HandleWrite32` | vgic/src/lib.rs:89 | the 32-bit write leaves every field unchanged, for every offset and value |
| `VgicDevOps.AddressRange` | vgic/src/devops_impl.rs:15-17 | the device range is 0x10000 bytes long and contains exactly the addresses in `[0x800_0000, 0x801_0000)` |
| `VgicDevOps.Offset` | vgic/src/devops_impl.rs:19 | the offset passed on (`addr & 0xfff`) is `addr % 0x1000`, hence below 0x1000 |
| `VgicDevOps.HandleRead` | vgic/src/devops_impl.rs:18-32 | with the stub handlers, a read returns `Ok(0)` for every address and width code |
| `VgicDevOps.HandleWrite` | vgic/src/devops_impl.rs:33-47 | with the stub handlers, a write leaves the whole register file unchanged for every address, width code and value |
| `VgicDevOps.ReadWidthDecode` | vgic/src/devops_impl.rs:19-31 | for any read handlers, width 0, 1, 2 call the 8-, 16-, 32-bit handler on `addr % 0x1000`; any other width yields the default (`Ok(0)` in `handle_read`) without calling a handler |
| `VgicDevOps.WriteWidthDecode` | vgic/src/devops_impl.rs:34-46 | for any write handlers, width 0, 1, 2 call the 8-, 16-, 32-bit handler on `addr % 0x1000` and the written value; any other width yields the default (the unchanged register file in `handle_write`) without calling a handler |
| `VgicDevOps.OffsetAliasing` | vgic/src/devops_impl.rs:19 | addresses differing by a multiple of 0x1000 are masked to the same offset |
| `VgicDevOps.DispatchAliasing` | vgic/src/devops_impl.rs:18-47 | for any width handlers, addresses differing by a multiple of 0x1000 dispatch identically, for reads and for writes |
| `VgicDevOps.WindowMirrorsRegisterBlock` | vgic/src/devops_impl.rs:15-19 | for each offset below 0x1000 and each k < 16, the address `0x800_0000 + k * 0x1000 + offset` lies in the device range and is masked to that offset, so the 4 KiB register block appears 16 times in the 64 KiB window |
| `VgicDevOps.OffsetFromBase` | vgic/src/devops_impl.rs:15-19 | for an address in the device range, the masked offset is its distance from the base modulo 0x1000 |
| `VgicDevOps.Replay` | vgic/src/devops_impl.rs:18-47 | after any sequence of reads and writes the register file is the one before them, and every read returned `Ok(0)` |
| `VgicDevOps.WritesIdempotentAndCommute` | vgic/src/devops_impl.rs:33-47 | writing the same access twice equals writing it once, and two writes give the same state in either order |
| `VgicDevOps.ReplayOrderIndependent` | vgic/src/devops_impl.rs:18-47 | reordering two blocks of accesses changes neither the final state nor the read results |
| `VgicDevOps.AccessesKeepNewZero` | vgic/src/devops_impl.rs:18-47 | starting from `Vgic::new`, every sequence of guest accesses leaves a well-formed, all-zero register file |

## Left out

- `vgic/src/gic_traits.rs` (`GicTrait`, `GicInterface`) is not part of this model. Its functions are one-line calls into a physical GIC driver through `crate_interface`, and the `Vgic` handlers never call them.
- Control-register enable/priority sweep, delegation call logs, pending/active transitions: the code has none of them, so they are not modelled.
- `Vgic::emu_type` is not modelled. It returns `EmuDeviceTGicdV2`, which is not a variant of `EmuDeviceType`, so any tag chosen for it would be invented.
- `AddrRange<GuestPhysAddr>::contains` delegates to the `memory_addr` crate, which is not part of this model. `GuestPhysContains` assumes its half-open semantics `start <= a < end`.
- The `vcpu` argument declared by the `BaseDeviceOps` trait is dropped. The implementation omits it and nothing uses it.
- The `BaseDeviceOps`, `DeviceAddr` and `DeviceAddrRange` traits are not modelled as such. Each implementation is a separate function (`SysRegContains`, `GuestPhysContains`, `VgicDevOps.HandleRead`, …), and the address spaces stay apart because each range type takes its own address type.
- EmuType.Display: the contract states only that the text is non-empty; the text of each tag is the body, and injectivity is `DisplayInjective`. `Formatter` plumbing and the serde derives are not modelled.
- `from_usize` panics on values above 11. This is modelled as a precondition, not as a failure result.
- `axdevice_base/src/api/` (macro-generated memory and timer interfaces) and `axdevice_base/src/lib.rs` (trait declarations only) hold no logic and are not part of this model.
- `axdevice_base/src/test.rs` is not part of this model. It relies on items defined nowhere in these crates (`EmuDeviceType::Dummy`, `AccessWidth`, `map_device_of_type`). The disjointness of its ranges is covered by `GuestPhysAdjacentDisjoint`.
- Concurrency: the code has no lock and no shared mutation, so there is nothing to model.
- `Vgicc` records are never created by the code (`gicc` starts empty and nothing adds to it). Only their shape is modelled.
