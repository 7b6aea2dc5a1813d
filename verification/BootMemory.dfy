/** The bootloader's heap-based memory map (boot/src/memory.rs). */
module BootMemory {
  import opened Words
  import opened Sequences
  import opened Saturation
  import opened StableSort
  import K = KernelMemory

  /** One entry of the firmware's map: section 7.2.3 of the UEFI Specification 2.10. */
  datatype UefiDescriptor = UefiDescriptor(ty: U32, physStart: U64, pageCount: U64, att: U64)

  datatype MemoryRegionType =
    | Usable
    | Reserved
    | AcpiReclaimable
    | AcpiNvs
    | Mmio
    | MmioPortSpace
    | BootServicesCode
    | BootServicesData
    | RuntimeServicesCode
    | RuntimeServicesData
    | LoaderCode
    | LoaderData
    | Conventional
    | Unusable
    | Persistent
    | Unknown
  {
    predicate IsUsable() {
      Usable? || Conventional? || BootServicesCode? || BootServicesData? || LoaderCode? || LoaderData?
      || AcpiReclaimable?
    }
  }

  function RegionTypeOf(ty: U32): MemoryRegionType {
    if ty == K.RESERVED then Reserved
    else if ty == K.LOADER_CODE then LoaderCode
    else if ty == K.LOADER_DATA then LoaderData
    else if ty == K.BOOT_SERVICES_CODE then BootServicesCode
    else if ty == K.BOOT_SERVICES_DATA then BootServicesData
    else if ty == K.RUNTIME_SERVICES_CODE then RuntimeServicesCode
    else if ty == K.RUNTIME_SERVICES_DATA then RuntimeServicesData
    else if ty == K.CONVENTIONAL then Conventional
    else if ty == K.UNUSABLE then Unusable
    else if ty == K.ACPI_RECLAIM then AcpiReclaimable
    else if ty == K.ACPI_NON_VOLATILE then AcpiNvs
    else if ty == K.MMIO then Mmio
    else if ty == K.MMIO_PORT_SPACE then MmioPortSpace
    else if ty == K.PERSISTENT_MEMORY then Persistent
    else Unknown
  }

  datatype MemoryRegion = MemoryRegion(start: U64, size: U64, regionType: MemoryRegionType, attributes: U64)

  datatype MemoryMap = MemoryMap(regions: seq<MemoryRegion>, totalMemory: U64, usableMemory: U64)

  /**
   * The types in the order of their numbers: `EFI_MEMORY_TYPE`, section 7.2.1 of the UEFI Specification 2.10. The
   * bootloader does not know number 13 (processor firmware code), nor anything from 15 up.
   */
  const UEFI_TYPES: seq<MemoryRegionType> :=
    [Reserved, LoaderCode, LoaderData, BootServicesCode, BootServicesData, RuntimeServicesCode, RuntimeServicesData,
     Conventional, Unusable, AcpiReclaimable, AcpiNvs, Mmio, MmioPortSpace, Unknown, Persistent]

  lemma RegionTypesAreNumbered(ty: U32)
    ensures RegionTypeOf(ty) == if ty < 15 then UEFI_TYPES[ty] else Unknown
  {
  }

  // ---- Specification ----

  function RegionOf(d: UefiDescriptor): MemoryRegion {
    MemoryRegion(d.physStart, PagesToBytes(d.pageCount), RegionTypeOf(d.ty), d.att)
  }

  function StartOf(r: MemoryRegion): int {
    r.start
  }

  /** RAM as the bootloader counts it: everything but types 11 and 12, the two MMIO types. */
  function RamBytes(d: UefiDescriptor): nat {
    if d.ty == 11 || d.ty == 12 then 0 else PagesToBytes(d.pageCount)
  }

  /** What the bootloader counts as usable, by number. */
  function UsableBytes(d: UefiDescriptor): nat {
    if 1 <= d.ty <= 4 || d.ty == 7 || d.ty == 9 then PagesToBytes(d.pageCount) else 0
  }

  function MapOf(uefi: seq<UefiDescriptor>): MemoryMap {
    MemoryMap(SortByKey(StartOf, Map(RegionOf, uefi)), Chain(RamBytes, uefi), Chain(UsableBytes, uefi))
  }

  /** One round of the totals: what the type table lets through is what the numbers say. */
  lemma {:induction false} TotalsSnoc(s: seq<UefiDescriptor>, d: UefiDescriptor)
    ensures var size, t := PagesToBytes(d.pageCount), RegionTypeOf(d.ty);
      && Chain(RamBytes, s + [d])
         == (if t.Mmio? || t.MmioPortSpace? then Chain(RamBytes, s) else SatAdd(Chain(RamBytes, s), size))
      && Chain(UsableBytes, s + [d])
         == (if t.IsUsable() then SatAdd(Chain(UsableBytes, s), size) else Chain(UsableBytes, s))
  {
    RegionTypesAreNumbered(d.ty);
    ChainSnoc(RamBytes, s, d);
    ChainSnoc(UsableBytes, s, d);
  }

  lemma {:induction false} TotalsAreCappedSums(uefi: seq<UefiDescriptor>)
    ensures MapOf(uefi).totalMemory == Cap(Sum(RamBytes, uefi))
    ensures MapOf(uefi).usableMemory == Cap(Sum(UsableBytes, uefi))
  {
    ChainIsCappedSum(RamBytes, uefi);
    ChainIsCappedSum(UsableBytes, uefi);
  }

  // ---- The code ----

  /** `MemoryMap::from_uefi_memory_map`: totals are accumulated in firmware order, then the vector is sorted. */
  method FromUefiMemoryMap(uefi: seq<UefiDescriptor>) returns (m: MemoryMap)
    ensures m == MapOf(uefi)
    ensures m.totalMemory == Cap(Sum(RamBytes, uefi)) && m.usableMemory == Cap(Sum(UsableBytes, uefi))
  {
    var regions: seq<MemoryRegion> := [];
    var totalMemory: U64, usableMemory: U64 := 0, 0;
    for i := 0 to |uefi|
      invariant regions == Map(RegionOf, uefi[..i])
      invariant totalMemory == Chain(RamBytes, uefi[..i])
      invariant usableMemory == Chain(UsableBytes, uefi[..i])
    {
      var desc := uefi[i];
      var start := desc.physStart;
      var size := PagesToBytes(desc.pageCount);
      var regionType := RegionTypeOf(desc.ty);
      assert uefi[..i + 1] == uefi[..i] + [desc];
      TotalsSnoc(uefi[..i], desc);
      if !(regionType.Mmio? || regionType.MmioPortSpace?) {
        totalMemory := SatAdd(totalMemory, size);
      }
      if regionType.IsUsable() {
        usableMemory := SatAdd(usableMemory, size);
      }
      regions := regions + [MemoryRegion(start, size, regionType, desc.att)];
    }
    assert uefi[..|uefi|] == uefi;
    regions := SortByKey(StartOf, regions);
    m := MemoryMap(regions, totalMemory, usableMemory);
    TotalsAreCappedSums(uefi);
  }

  // ---- What the specification promises ----

  /** The totals taken in firmware order are right for the sorted vector, and for any reordering of the list. */
  lemma TotalsIgnoreOrder(uefi: seq<UefiDescriptor>, other: seq<UefiDescriptor>)
    requires multiset(uefi) == multiset(other)
    ensures MapOf(uefi).totalMemory == MapOf(other).totalMemory
    ensures MapOf(uefi).usableMemory == MapOf(other).usableMemory
  {
    ChainIgnoresOrder(RamBytes, uefi, other);
    ChainIgnoresOrder(UsableBytes, uefi, other);
  }
}
