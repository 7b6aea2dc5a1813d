/** Conversion of the heap-based map into the fixed 256-slot ABI map (boot/src/boot_info.rs). */
module BootInfo {
  import opened Words
  import opened Sequences
  import opened KernelMemory
  import B = BootMemory

  function UefiTypeOf(ty: B.MemoryRegionType): U32 {
    match ty
    case Reserved => RESERVED
    case LoaderCode => LOADER_CODE
    case LoaderData => LOADER_DATA
    case BootServicesCode => BOOT_SERVICES_CODE
    case BootServicesData => BOOT_SERVICES_DATA
    case RuntimeServicesCode => RUNTIME_SERVICES_CODE
    case RuntimeServicesData => RUNTIME_SERVICES_DATA
    case Conventional => CONVENTIONAL
    case Usable => CONVENTIONAL
    case Unusable => UNUSABLE
    case AcpiReclaimable => ACPI_RECLAIM
    case AcpiNvs => ACPI_NON_VOLATILE
    case Mmio => MMIO
    case MmioPortSpace => MMIO_PORT_SPACE
    case Persistent => PERSISTENT_MEMORY
    case Unknown => RESERVED
  }

  function DescriptorOf(r: B.MemoryRegion): KernelMemoryDescriptor {
    KernelMemoryDescriptor(UefiTypeOf(r.regionType), r.start, BytesToPages(r.size), r.attributes)
  }

  function Kept<T>(s: seq<T>): seq<T> {
    if |s| <= MAX_MEMORY_DESCRIPTORS then s else s[..MAX_MEMORY_DESCRIPTORS]
  }

  /** What the bounded copy leaves behind. */
  function Dropped<T>(s: seq<T>): seq<T> {
    if |s| <= MAX_MEMORY_DESCRIPTORS then [] else s[MAX_MEMORY_DESCRIPTORS..]
  }

  lemma KeptAndDropped<T>(s: seq<T>)
    ensures Kept(s) + Dropped(s) == s
    ensures forall x :: x in s <==> x in Kept(s) || x in Dropped(s)
  {
    assert forall x :: x in Kept(s) + Dropped(s) <==> x in Kept(s) || x in Dropped(s);
  }

  lemma {:induction false} FilterOfKept<T>(p: T -> bool, s: seq<T>)
    requires forall x :: x in Dropped(s) ==> !p(x)
    ensures Filter(p, Kept(s)) == Filter(p, s)
  {
    KeptAndDropped(s);
    FilterConcat(p, Kept(s), Dropped(s));
    FilterMembers(p, Dropped(s));
  }

  /** `BootInfo::to_kernel_boot_info`, for the memory map it fills. */
  method ToKernelMemoryMap(m: B.MemoryMap) returns (k: KernelMemoryMap)
    ensures k.Valid()
    ensures k.Entries() == Map(DescriptorOf, Kept(m.regions))
    ensures k.truncated <==> |m.regions| > MAX_MEMORY_DESCRIPTORS
    ensures forall i :: k.count <= i < MAX_MEMORY_DESCRIPTORS ==> k.descriptors[i] == KernelMemoryDescriptor(0, 0, 0, 0)
  {
    k := new KernelMemoryMap();
    var count := 0;
    for i := 0 to |m.regions|
      invariant count == i <= MAX_MEMORY_DESCRIPTORS
      invariant fresh(k) && fresh(k.descriptors)
      invariant k.count == 0 && !k.truncated && k.Valid()
      invariant k.descriptors[..i] == Map(DescriptorOf, m.regions[..i])
      invariant forall j :: i <= j < MAX_MEMORY_DESCRIPTORS ==> k.descriptors[j] == ZERO_DESC
    {
      if count >= MAX_MEMORY_DESCRIPTORS {
        k.truncated := true;
        break;
      }
      var region := m.regions[i];
      k.descriptors[count] :=
        KernelMemoryDescriptor(UefiTypeOf(region.regionType), region.start, region.size / 4096, region.attributes);
      count := count + 1;
      assert k.descriptors[..i + 1] == k.descriptors[..i] + [DescriptorOf(region)];
    }
    k.count := count;
    assert m.regions[..count] == Kept(m.regions);
  }
}
