/** The boot ABI's memory map and the kernel's parser for it (lib/boot-info/src/lib.rs). */
module KernelMemory {
  import opened Words
  import opened Wrappers
  import opened Sequences
  import opened Saturation

  const MAX_MEMORY_DESCRIPTORS: nat := 256

  // UEFI memory type codes (the `memory_type` module).
  const RESERVED: U32 := 0
  const LOADER_CODE: U32 := 1
  const LOADER_DATA: U32 := 2
  const BOOT_SERVICES_CODE: U32 := 3
  const BOOT_SERVICES_DATA: U32 := 4
  const RUNTIME_SERVICES_CODE: U32 := 5
  const RUNTIME_SERVICES_DATA: U32 := 6
  const CONVENTIONAL: U32 := 7
  const UNUSABLE: U32 := 8
  const ACPI_RECLAIM: U32 := 9
  const ACPI_NON_VOLATILE: U32 := 10
  const MMIO: U32 := 11
  const MMIO_PORT_SPACE: U32 := 12
  const PERSISTENT_MEMORY: U32 := 14

  /** The 14 codes above, by number. */
  predicate IsNamedType(ty: U32) {
    ty <= 14 && ty != 13
  }

  datatype KernelMemoryDescriptor = KernelMemoryDescriptor(ty: U32, physStart: U64, pageCount: U64, attribute: U64)
  {
    function SizeBytes(): U64 {
      PagesToBytes(pageCount)
    }

    predicate IsUsable() {
      ty == CONVENTIONAL || ty == BOOT_SERVICES_CODE || ty == BOOT_SERVICES_DATA
      || ty == LOADER_CODE || ty == LOADER_DATA || ty == ACPI_RECLAIM
    }
  }

  const ZERO_DESC := KernelMemoryDescriptor(RESERVED, 0, 0, 0)

  /** The fixed-size map handed to the kernel. Slicing `descriptors[..count]` panics unless `count` fits. */
  class KernelMemoryMap {
    const descriptors: array<KernelMemoryDescriptor>
    var count: nat
    var truncated: bool

    ghost predicate Valid()
      reads this
    {
      descriptors.Length == MAX_MEMORY_DESCRIPTORS && count <= MAX_MEMORY_DESCRIPTORS
    }

    constructor ()
      ensures Valid() && count == 0 && !truncated && fresh(descriptors)
      ensures forall i :: 0 <= i < MAX_MEMORY_DESCRIPTORS ==> descriptors[i] == ZERO_DESC
    {
      descriptors := new KernelMemoryDescriptor[MAX_MEMORY_DESCRIPTORS](_ => ZERO_DESC);
      count, truncated := 0, false;
    }

    function Entries(): (s: seq<KernelMemoryDescriptor>)
      requires Valid()
      reads this, descriptors
      ensures |s| == count <= MAX_MEMORY_DESCRIPTORS
    {
      descriptors[..count]
    }
  }

  datatype MemoryRegionKind =
    | Usable
    | BootloaderReclaimable
    | AcpiReclaimable
    | AcpiNonVolatile
    | FirmwareRuntime
    | Mmio
    | PersistentMemory
    | Unusable
    | Reserved
  {
    predicate IsReclaimableAfterBoot() {
      Usable? || BootloaderReclaimable? || AcpiReclaimable?
    }
  }

  function KindOf(ty: U32): MemoryRegionKind {
    if ty == CONVENTIONAL then Usable
    else if ty == LOADER_CODE || ty == LOADER_DATA || ty == BOOT_SERVICES_CODE || ty == BOOT_SERVICES_DATA then
      BootloaderReclaimable
    else if ty == ACPI_RECLAIM then AcpiReclaimable
    else if ty == ACPI_NON_VOLATILE then AcpiNonVolatile
    else if ty == RUNTIME_SERVICES_CODE || ty == RUNTIME_SERVICES_DATA then FirmwareRuntime
    else if ty == MMIO || ty == MMIO_PORT_SPACE then Mmio
    else if ty == PERSISTENT_MEMORY then PersistentMemory
    else if ty == UNUSABLE then Unusable
    else Reserved
  }

  // ---- What a region counts towards, by the numbers of the UEFI types ----

  /** RAM as the parser counts it: neither MMIO nor firmware runtime. */
  function RamBytes(d: KernelMemoryDescriptor): nat {
    if d.ty == 5 || d.ty == 6 || d.ty == 11 || d.ty == 12 then 0 else d.SizeBytes()
  }

  function UsableBytes(d: KernelMemoryDescriptor): nat {
    if d.ty == 7 then d.SizeBytes() else 0
  }

  function ReclaimableBytes(d: KernelMemoryDescriptor): nat {
    if 1 <= d.ty <= 4 || d.ty == 9 then d.SizeBytes() else 0
  }

  predicate IsUsableRegion(d: KernelMemoryDescriptor) {
    KindOf(d.ty).Usable?
  }

  datatype MemoryStats = MemoryStats(
    totalBytes: U64,
    usableBytes: U64,
    reclaimableBytes: U64,
    regionCount: nat,
    usableRegionCount: nat,
    isTruncated: bool)
  {
    function TotalUsableAfterBoot(): U64 {
      SatAdd(usableBytes, reclaimableBytes)
    }

    /** The statistics with one more region in them. */
    function Plus(d: KernelMemoryDescriptor): MemoryStats {
      MemoryStats(
        SatAdd(totalBytes, RamBytes(d)), SatAdd(usableBytes, UsableBytes(d)),
        SatAdd(reclaimableBytes, ReclaimableBytes(d)), regionCount + 1,
        usableRegionCount + (if IsUsableRegion(d) then 1 else 0), isTruncated)
    }
  }

  datatype ParseError =
    | Empty
    | UnalignedBase(index: nat, physStart: U64)

  // ---- Specification: what a parse means, over the sequence of entries ----

  predicate NonEmpty(d: KernelMemoryDescriptor) {
    d.pageCount != 0
  }

  /** The parser's alignment test, by mask. */
  predicate IsUnaligned(address: U64)
    ensures IsUnaligned(address) <==> address % PAGE_SIZE != 0
  {
    PageMask(address);
    BitAnd(address, 0xFFF) != 0
  }

  /** The only entries `parse` objects to: empty ones are never looked at, aligned or not. */
  predicate BadBase(d: KernelMemoryDescriptor) {
    NonEmpty(d) && d.physStart % PAGE_SIZE != 0
  }

  function SizeOf(d: KernelMemoryDescriptor): nat {
    d.SizeBytes()
  }

  function FirmwareBytes(d: KernelMemoryDescriptor): nat {
    if d.ty == 5 || d.ty == 6 then d.SizeBytes() else 0
  }

  /** What `total_usable_after_boot` is meant to count. */
  function UsableAfterBootBytes(d: KernelMemoryDescriptor): nat {
    UsableBytes(d) + ReclaimableBytes(d)
  }

  /** RAM as the bootloader and the report count it: everything but MMIO. */
  function RamOrFirmwareBytes(d: KernelMemoryDescriptor): nat {
    RamBytes(d) + FirmwareBytes(d)
  }

  predicate IsReclaimableRegion(d: KernelMemoryDescriptor) {
    KindOf(d.ty).IsReclaimableAfterBoot()
  }

  predicate HasType(ty: U32, d: KernelMemoryDescriptor) {
    d.ty == ty
  }

  /** The statistics in region order: each total a chain of saturating additions. */
  function StatsOf(regions: seq<KernelMemoryDescriptor>, truncated: bool): MemoryStats {
    MemoryStats(
      Chain(RamBytes, regions), Chain(UsableBytes, regions), Chain(ReclaimableBytes, regions),
      |regions|, |Filter(IsUsableRegion, regions)|, truncated)
  }

  /** The index of the first bad base, or the length when there is none. */
  function FirstBadBase(s: seq<KernelMemoryDescriptor>): (i: nat)
    ensures i <= |s|
    ensures forall j :: 0 <= j < i ==> !BadBase(s[j])
    ensures i < |s| ==> BadBase(s[i])
  {
    if s == [] || BadBase(s[0]) then 0
    else
      var i := FirstBadBase(s[1..]);
      assert forall j :: 0 < j < |s| ==> s[j] == s[1..][j - 1];
      1 + i
  }

  datatype ParsedMap = ParsedMap(regions: seq<KernelMemoryDescriptor>, stats: MemoryStats)
  {
    function Plus(d: KernelMemoryDescriptor): ParsedMap {
      ParsedMap(regions + [d], stats.Plus(d))
    }
  }

  function NothingYet(truncated: bool): ParsedMap {
    ParsedMap([], MemoryStats(0, 0, 0, 0, 0, truncated))
  }

  function ParseOf(entries: seq<KernelMemoryDescriptor>, truncated: bool): Result<ParsedMap, ParseError> {
    var bad, kept := FirstBadBase(entries), Filter(NonEmpty, entries);
    if bad < |entries| then Err(UnalignedBase(bad, entries[bad].physStart))
    else if kept == [] then Err(Empty)
    else Ok(ParsedMap(kept, StatsOf(kept, truncated)))
  }

  // ---- The parser ----

  class MemoryMap {
    const descriptors: array<KernelMemoryDescriptor>
    const count: nat
    const stats: MemoryStats

    ghost predicate Valid() {
      descriptors.Length == MAX_MEMORY_DESCRIPTORS && count <= MAX_MEMORY_DESCRIPTORS
    }

    constructor (descriptors: array<KernelMemoryDescriptor>, count: nat, stats: MemoryStats)
      ensures this.descriptors == descriptors && this.count == count && this.stats == stats
    {
      this.descriptors, this.count, this.stats := descriptors, count, stats;
    }

    function Regions(): seq<KernelMemoryDescriptor>
      requires Valid()
      reads descriptors
    {
      descriptors[..count]
    }

    function View(): ParsedMap
      requires Valid()
      reads descriptors
    {
      ParsedMap(Regions(), stats)
    }

    function UsableRegions(): seq<KernelMemoryDescriptor>
      requires Valid()
      reads descriptors
    {
      Filter(IsUsableRegion, Regions())
    }

    function ReclaimableRegions(): seq<KernelMemoryDescriptor>
      requires Valid()
      reads descriptors
    {
      Filter(IsReclaimableRegion, Regions())
    }

    function RegionsOfType(ty: U32): seq<KernelMemoryDescriptor>
      requires Valid()
      reads descriptors
    {
      Filter((d: KernelMemoryDescriptor) => HasType(ty, d), Regions())
    }
  }

  /** The outcome of a parse that has got to entry `i` with the map `m` so far. */
  function ParseFrom(entries: seq<KernelMemoryDescriptor>, i: nat, m: ParsedMap): Result<ParsedMap, ParseError>
    requires i <= |entries|
    decreases |entries| - i
  {
    if i == |entries| then if m.regions == [] then Err(Empty) else Ok(m)
    else if BadBase(entries[i]) then Err(UnalignedBase(i, entries[i].physStart))
    else ParseFrom(entries, i + 1, if NonEmpty(entries[i]) then m.Plus(entries[i]) else m)
  }

  /** How the statistics grow by one region. */
  lemma StatsSnoc(s: seq<KernelMemoryDescriptor>, d: KernelMemoryDescriptor, truncated: bool)
    ensures StatsOf(s + [d], truncated) == StatsOf(s, truncated).Plus(d)
  {
    ChainSnoc(RamBytes, s, d);
    ChainSnoc(UsableBytes, s, d);
    ChainSnoc(ReclaimableBytes, s, d);
    FilterConcat(IsUsableRegion, s, [d]);
  }

  /** Entry by entry comes to the same as all at once. */
  lemma {:induction false} ParseFromIsParse(
      entries: seq<KernelMemoryDescriptor>, i: nat, kept: seq<KernelMemoryDescriptor>, truncated: bool)
    requires i <= FirstBadBase(entries) && kept == Filter(NonEmpty, entries[..i])
    ensures ParseFrom(entries, i, ParsedMap(kept, StatsOf(kept, truncated))) == ParseOf(entries, truncated)
    decreases |entries| - i
  {
    if i == |entries| {
      assert entries[..i] == entries;
    } else if !BadBase(entries[i]) {
      FilterSnoc(NonEmpty, entries, i);
      EmptyEnds(kept);
      StatsSnoc(kept, entries[i], truncated);
      ParseFromIsParse(entries, i + 1, Filter(NonEmpty, entries[..i + 1]), truncated);
    }
  }

  /** The accounting of one round of the parser's loop. */
  method Accumulate(stats: MemoryStats, desc: KernelMemoryDescriptor) returns (t: MemoryStats)
    ensures t == stats.Plus(desc)
  {
    t := stats.(regionCount := stats.regionCount + 1);
    var size := desc.SizeBytes();
    var kind := KindOf(desc.ty);
    match kind {
      case Mmio | FirmwareRuntime =>
      case _ => t := t.(totalBytes := SatAdd(t.totalBytes, size));
    }
    match kind {
      case Usable =>
        t := t.(usableBytes := SatAdd(t.usableBytes, size), usableRegionCount := t.usableRegionCount + 1);
      case BootloaderReclaimable | AcpiReclaimable =>
        t := t.(reclaimableBytes := SatAdd(t.reclaimableBytes, size));
      case _ =>
    }
  }

  /** The loop of `parse`: one pass over the entries that validates, compacts and totals. */
  method ParseEntries(entries: seq<KernelMemoryDescriptor>, truncated: bool)
    returns (r: Result<MemoryMap, ParseError>)
    requires |entries| <= MAX_MEMORY_DESCRIPTORS
    ensures r.Err? ==> ParseFrom(entries, 0, NothingYet(truncated)) == Err(r.error)
    ensures r.Ok? ==> r.value.Valid() && ParseFrom(entries, 0, NothingYet(truncated)) == Ok(r.value.View())
  {
    var descriptors := new KernelMemoryDescriptor[MAX_MEMORY_DESCRIPTORS](_ => ZERO_DESC);
    var count := 0;
    var stats := MemoryStats(0, 0, 0, 0, 0, truncated);
    for i := 0 to |entries|
      invariant count <= i
      invariant ParseFrom(entries, i, ParsedMap(descriptors[..count], stats))
             == ParseFrom(entries, 0, NothingYet(truncated))
    {
      var desc := entries[i];
      if desc.pageCount == 0 {
        continue;
      }
      if IsUnaligned(desc.physStart) {
        return Err(UnalignedBase(i, desc.physStart));
      }
      ghost var soFar := ParsedMap(descriptors[..count], stats);
      stats := Accumulate(stats, desc);
      descriptors[count] := desc;
      count := count + 1;
      assert ParsedMap(descriptors[..count], stats) == soFar.Plus(desc);
    }
    if count == 0 {
      return Err(Empty);
    }
    var m := new MemoryMap(descriptors, count, stats);
    return Ok(m);
  }

  /** `MemoryMap::parse`. */
  method Parse(source: KernelMemoryMap) returns (r: Result<MemoryMap, ParseError>)
    requires source.Valid()
    ensures r.Err? ==> ParseOf(source.Entries(), source.truncated) == Err(r.error)
    ensures r.Ok? ==> r.value.Valid() && ParseOf(source.Entries(), source.truncated) == Ok(r.value.View())
  {
    ParseFromIsParse(source.Entries(), 0, [], source.truncated);
    assert NothingYet(source.truncated) == ParsedMap([], StatsOf([], source.truncated));
    r := ParseEntries(source.Entries(), source.truncated);
  }

  // ---- What the specification promises ----

  lemma {:induction false} NoBadBase(s: seq<KernelMemoryDescriptor>)
    ensures FirstBadBase(s) == |s| <==> forall d :: d in s ==> !BadBase(d)
  {
    var bad := FirstBadBase(s);
    if bad < |s| {
      assert s[bad] in s;
    }
  }

  lemma ParseFindsBadBase(s: seq<KernelMemoryDescriptor>, truncated: bool, i: nat, p: U64)
    ensures ParseOf(s, truncated) == Err(UnalignedBase(i, p))
       <==> i < |s| && BadBase(s[i]) && p == s[i].physStart && forall j :: 0 <= j < i ==> !BadBase(s[j])
  {
  }

  lemma ParseFindsNothing(s: seq<KernelMemoryDescriptor>, truncated: bool)
    ensures ParseOf(s, truncated) == Err(Empty) <==> forall d :: d in s ==> d.pageCount == 0
  {
    FilterMembers(NonEmpty, s);
    NoBadBase(s);
    assert forall d :: d in s && d.pageCount == 0 ==> !NonEmpty(d) && !BadBase(d);
  }

  lemma ParseAccepts(s: seq<KernelMemoryDescriptor>, truncated: bool)
    ensures ParseOf(s, truncated).Ok?
       <==> (exists d :: d in s && d.pageCount != 0)
            && forall d :: d in s && d.pageCount != 0 ==> d.physStart % PAGE_SIZE == 0
  {
    FilterMembers(NonEmpty, s);
    NoBadBase(s);
  }

  /** `parse` is fully characterised: each outcome exactly when its condition on the source holds. */
  lemma {:induction false} ParseCharacterised(s: seq<KernelMemoryDescriptor>, truncated: bool, i: nat, p: U64)
    ensures ParseOf(s, truncated) == Err(UnalignedBase(i, p))
       <==> i < |s| && BadBase(s[i]) && p == s[i].physStart && forall j :: 0 <= j < i ==> !BadBase(s[j])
    ensures ParseOf(s, truncated) == Err(Empty) <==> forall d :: d in s ==> d.pageCount == 0
    ensures ParseOf(s, truncated).Ok?
       <==> (exists d :: d in s && d.pageCount != 0)
            && forall d :: d in s && d.pageCount != 0 ==> d.physStart % PAGE_SIZE == 0
    ensures ParseOf(s, truncated).Ok? ==> ParseOf(s, truncated).value.regions == Filter(NonEmpty, s)
    ensures ParseOf(s, truncated).Ok? ==> ParseOf(s, truncated).value.stats.isTruncated == truncated
  {
    ParseFindsBadBase(s, truncated, i, p);
    ParseFindsNothing(s, truncated);
    ParseAccepts(s, truncated);
  }

  lemma {:induction false} CleanEntriesParse(s: seq<KernelMemoryDescriptor>, truncated: bool)
    requires s != [] && forall d :: d in s ==> NonEmpty(d) && !BadBase(d)
    ensures ParseOf(s, truncated) == Ok(ParsedMap(s, StatsOf(s, truncated)))
  {
    NoBadBase(s);
    FilterMembers(NonEmpty, s);
  }

  /** Parsing the regions of a parsed map again gives back the same map: regions, totals and counts. */
  lemma ParseIsIdempotent(s: seq<KernelMemoryDescriptor>, truncated: bool)
    requires ParseOf(s, truncated).Ok?
    ensures ParseOf(ParseOf(s, truncated).value.regions, truncated) == ParseOf(s, truncated)
  {
    FilterMembers(NonEmpty, s);
    NoBadBase(s);
    CleanEntriesParse(Filter(NonEmpty, s), truncated);
  }

  /** The three totals of any sequence of regions are the true sums, capped once. */
  lemma {:induction false} StatsAreCappedSums(regions: seq<KernelMemoryDescriptor>, truncated: bool)
    ensures var stats := StatsOf(regions, truncated);
      && stats.totalBytes == Cap(Sum(RamBytes, regions))
      && stats.usableBytes == Cap(Sum(UsableBytes, regions))
      && stats.reclaimableBytes == Cap(Sum(ReclaimableBytes, regions))
      && stats.TotalUsableAfterBoot() == Cap(Sum(UsableAfterBootBytes, regions))
  {
    ChainIsCappedSum(RamBytes, regions);
    ChainIsCappedSum(UsableBytes, regions);
    ChainIsCappedSum(ReclaimableBytes, regions);
    ChainIsCappedSum(UsableAfterBootBytes, regions);
    ChainSplits(UsableAfterBootBytes, UsableBytes, ReclaimableBytes, regions);
  }

  /** Everything but firmware runtime code and data, MMIO and MMIO port space. */
  predicate IsCountedRam(d: KernelMemoryDescriptor) {
    d.ty !in {5, 6, 11, 12}
  }

  /** Loader and boot services code and data, conventional memory, and reclaimable ACPI tables. */
  predicate IsFreeAfterBoot(d: KernelMemoryDescriptor) {
    d.ty in {1, 2, 3, 4, 7, 9}
  }

  /** What the queries select, in bytes. */
  lemma {:induction false} QueriedSums(regions: seq<KernelMemoryDescriptor>)
    ensures Sum(SizeOf, Filter(IsCountedRam, regions)) == Sum(RamBytes, regions)
    ensures Sum(SizeOf, Filter(IsUsableRegion, regions)) == Sum(UsableBytes, regions)
    ensures Sum(SizeOf, Filter(IsReclaimableRegion, regions)) == Sum(UsableAfterBootBytes, regions)
    ensures Sum(UsableAfterBootBytes, regions) <= Sum(RamBytes, regions)
  {
    SumFilter(SizeOf, RamBytes, IsCountedRam, regions);
    SumFilter(SizeOf, UsableBytes, IsUsableRegion, regions);
    SumFilter(SizeOf, UsableAfterBootBytes, IsReclaimableRegion, regions);
    SumMonotone(UsableAfterBootBytes, RamBytes, regions);
  }

  /** The cached statistics of a parsed map are what its queries would total up. */
  lemma {:induction false} StatsAgreeWithQueries(m: MemoryMap, source: seq<KernelMemoryDescriptor>, truncated: bool)
    requires m.Valid() && ParseOf(source, truncated) == Ok(m.View())
    ensures m.stats.totalBytes == Cap(Sum(SizeOf, Filter(IsCountedRam, m.Regions())))
    ensures m.stats.usableBytes == Cap(Sum(SizeOf, m.UsableRegions()))
    ensures m.stats.TotalUsableAfterBoot() == Cap(Sum(SizeOf, m.ReclaimableRegions()))
    ensures m.stats.usableRegionCount == |m.UsableRegions()|
    ensures m.stats.regionCount == |m.Regions()|
    ensures m.stats.TotalUsableAfterBoot() <= m.stats.totalBytes
    ensures m.UsableRegions() == m.RegionsOfType(7)
    ensures m.ReclaimableRegions() == Filter(IsFreeAfterBoot, m.Regions())
  {
    var regions := m.Regions();
    StatsAreCappedSums(regions, truncated);
    QueriedSums(regions);
    FilterSame(IsUsableRegion, (d: KernelMemoryDescriptor) => HasType(7, d), regions);
    FilterSame(IsReclaimableRegion, IsFreeAfterBoot, regions);
  }

  lemma EmptyWeighsNothing(d: KernelMemoryDescriptor)
    ensures !NonEmpty(d) ==> RamBytes(d) == 0 && UsableBytes(d) == 0 && ReclaimableBytes(d) == 0
  {
  }

  /** Skipping the empty entries costs the totals nothing: they are the chains over everything in the source. */
  lemma {:induction false} SkippedEntriesWeighNothing(s: seq<KernelMemoryDescriptor>, truncated: bool)
    requires ParseOf(s, truncated).Ok?
    ensures var stats := ParseOf(s, truncated).value.stats;
      && stats.totalBytes == Chain(RamBytes, s)
      && stats.usableBytes == Chain(UsableBytes, s)
      && stats.reclaimableBytes == Chain(ReclaimableBytes, s)
  {
    forall d: KernelMemoryDescriptor
      ensures !NonEmpty(d) ==> RamBytes(d) == 0 && UsableBytes(d) == 0 && ReclaimableBytes(d) == 0
    {
      EmptyWeighsNothing(d);
    }
    ChainDropsZeros(RamBytes, RamBytes, NonEmpty, s);
    ChainDropsZeros(UsableBytes, UsableBytes, NonEmpty, s);
    ChainDropsZeros(ReclaimableBytes, ReclaimableBytes, NonEmpty, s);
  }

  /** Empty entries carry no bytes, so totals over the source are totals over the kept regions. */
  lemma {:induction false} EmptiesWeighNothing(w: KernelMemoryDescriptor -> nat, s: seq<KernelMemoryDescriptor>)
    requires forall d: KernelMemoryDescriptor :: w(d) <= d.SizeBytes()
    ensures Sum(w, Filter(NonEmpty, s)) == Sum(w, s)
  {
    SumFilter(w, w, NonEmpty, s);
  }
}
