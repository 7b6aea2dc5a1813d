/** The memory map end to end: firmware list, bootloader map, ABI struct, kernel map. */
module Handoff {
  import opened Words
  import opened Wrappers
  import opened Sequences
  import opened Saturation
  import opened StableSort
  import opened BootMemory
  import opened BootInfo
  import K = KernelMemory

  /** What the kernel sees of one firmware entry. */
  function AbiImage(d: UefiDescriptor): K.KernelMemoryDescriptor {
    DescriptorOf(RegionOf(d))
  }

  function FirmwareStart(d: UefiDescriptor): int {
    d.physStart
  }

  /** The kernel's verdict on a firmware list. */
  function KernelView(uefi: seq<UefiDescriptor>): Result<K.ParsedMap, K.ParseError> {
    K.ParseOf(Map(DescriptorOf, Kept(MapOf(uefi).regions)), |uefi| > K.MAX_MEMORY_DESCRIPTORS)
  }

  /**
   * The bootloader's two stages, and the parser applied to the ABI map they leave, as the kernel is meant to apply it:
   * nothing in the repository calls it on that map yet.
   */
  method BootToKernel(uefi: seq<UefiDescriptor>) returns (boot: MemoryMap, r: Result<K.MemoryMap, K.ParseError>)
    ensures boot == MapOf(uefi)
    ensures r.Err? ==> KernelView(uefi) == Err(r.error)
    ensures r.Ok? ==> r.value.Valid() && KernelView(uefi) == Ok(r.value.View())
  {
    boot := FromUefiMemoryMap(uefi);
    SortIsStable(StartOf, Map(RegionOf, uefi));
    var abi := ToKernelMemoryMap(boot);
    r := K.Parse(abi);
  }

  // ---- Types ----

  /** The type code survives two translations, or becomes RESERVED; its kind always survives. */
  lemma TypeRoundTrip(ty: U32)
    ensures UefiTypeOf(RegionTypeOf(ty)) == if K.IsNamedType(ty) then ty else 0
    ensures K.KindOf(UefiTypeOf(RegionTypeOf(ty))) == K.KindOf(ty)
  {
  }

  /** The code written for a bootloader type is its number; a plain `Usable` goes out as conventional memory. */
  lemma CodesAreNumbered(t: MemoryRegionType)
    ensures t == Usable ==> UefiTypeOf(t) == 7
    ensures t == Unknown ==> UefiTypeOf(t) == 0
    ensures t != Usable && t != Unknown ==> UefiTypeOf(t) < 15 && UEFI_TYPES[UefiTypeOf(t)] == t
  {
  }

  /** The kernel's nine kinds against the bootloader's types, a separately written table. */
  lemma KindsAgree(ty: U32)
    ensures var kind, t := K.KindOf(ty), RegionTypeOf(ty);
      && (kind.Usable? <==> t.Conventional?)
      && (kind.BootloaderReclaimable? <==>
            t.LoaderCode? || t.LoaderData? || t.BootServicesCode? || t.BootServicesData?)
      && (kind.AcpiReclaimable? <==> t.AcpiReclaimable?)
      && (kind.AcpiNonVolatile? <==> t.AcpiNvs?)
      && (kind.FirmwareRuntime? <==> t.RuntimeServicesCode? || t.RuntimeServicesData?)
      && (kind.Mmio? <==> t.Mmio? || t.MmioPortSpace?)
      && (kind.PersistentMemory? <==> t.Persistent?)
      && (kind.Unusable? <==> t.Unusable?)
      && (kind.Reserved? <==> t.Reserved? || t.Unknown?)
  {
  }

  /** Three separately written usability tests agree on every type code, and say yes to six numbers. */
  lemma UsabilityAgrees(d: K.KernelMemoryDescriptor)
    ensures RegionTypeOf(d.ty).IsUsable() <==> K.KindOf(d.ty).IsReclaimableAfterBoot()
    ensures d.IsUsable() <==> K.KindOf(d.ty).IsReclaimableAfterBoot()
    ensures d.IsUsable() <==> d.ty in {1, 2, 3, 4, 7, 9}
  {
  }

  lemma AbiImageKeeps(d: UefiDescriptor)
    ensures var k := AbiImage(d);
      && k.physStart == d.physStart && k.attribute == d.att && K.KindOf(k.ty) == K.KindOf(d.ty)
      && k.pageCount == d.pageCount % PAGE_COUNT_LIMIT
      && k.SizeBytes() == PagesToBytes(d.pageCount)
      && (k.pageCount == d.pageCount <==> d.pageCount < PAGE_COUNT_LIMIT)
  {
    TypeRoundTrip(d.ty);
    PagesRoundTrip(d.pageCount);
  }

  // ---- Regions ----

  /** The ABI map holds the images of the first 256 entries in stable start order. */
  lemma {:induction false} AbiEntriesAreImages(uefi: seq<UefiDescriptor>)
    ensures Map(DescriptorOf, Kept(MapOf(uefi).regions)) == Map(AbiImage, Kept(SortByKey(FirmwareStart, uefi)))
  {
    var sorted := SortByKey(FirmwareStart, uefi);
    SortOfMap(RegionOf, FirmwareStart, StartOf, uefi);
    assert Kept(Map(RegionOf, sorted)) == Map(RegionOf, Kept(sorted));
    assert Map(DescriptorOf, Map(RegionOf, Kept(sorted))) == Map(AbiImage, Kept(sorted));
  }

  /** What the kernel parses: the ABI images of the first 256 entries in stable start order. */
  lemma {:induction false} KernelViewOfSorted(uefi: seq<UefiDescriptor>)
    ensures KernelView(uefi)
         == K.ParseOf(Map(AbiImage, Kept(SortByKey(FirmwareStart, uefi))), |uefi| > K.MAX_MEMORY_DESCRIPTORS)
  {
    AbiEntriesAreImages(uefi);
  }

  /** Sort and truncate: what is kept, what is dropped, and the flag. */
  lemma KeptComeFirst(uefi: seq<UefiDescriptor>, i: nat, j: nat)
    requires i < |MapOf(uefi).regions| && j < |MapOf(uefi).regions|
    ensures |MapOf(uefi).regions| == |uefi|
    ensures |Kept(MapOf(uefi).regions)| == if |uefi| <= 256 then |uefi| else 256
    ensures i < 256 <= j ==> MapOf(uefi).regions[i].start <= MapOf(uefi).regions[j].start
    ensures SameByKey(StartOf, Map(RegionOf, uefi), MapOf(uefi).regions)
    ensures multiset(MapOf(uefi).regions) == multiset(Map(RegionOf, uefi))
  {
    SortIsStable(StartOf, Map(RegionOf, uefi));
  }

  predicate FirmwareNonEmpty(d: UefiDescriptor) {
    d.pageCount != 0
  }

  /** Non-empty once the byte size has wrapped; the same as non-empty for any page count below 2^52. */
  predicate ArrivesNonEmpty(d: UefiDescriptor) {
    d.pageCount % PAGE_COUNT_LIMIT != 0
  }

  /** Some entry arrives, and no entry that arrives is misaligned. */
  predicate Acceptable(s: seq<UefiDescriptor>) {
    && (exists d :: d in s && ArrivesNonEmpty(d))
    && forall d :: d in s && ArrivesNonEmpty(d) ==> d.physStart % PAGE_SIZE == 0
  }

  lemma {:induction false} ArrivingImages(s: seq<UefiDescriptor>)
    ensures forall d: UefiDescriptor :: K.NonEmpty(AbiImage(d)) <==> ArrivesNonEmpty(d)
    ensures Filter(K.NonEmpty, Map(AbiImage, s)) == Map(AbiImage, Filter(ArrivesNonEmpty, s))
  {
    forall d: UefiDescriptor
      ensures K.NonEmpty(AbiImage(d)) <==> ArrivesNonEmpty(d)
    {
      AbiImageKeeps(d);
    }
    FilterMap(AbiImage, K.NonEmpty, ArrivesNonEmpty, s);
  }

  /** Parsing images, stated on the firmware entries they came from. */
  lemma {:induction false} ParseOfImages(s: seq<UefiDescriptor>, truncated: bool)
    ensures var r := K.ParseOf(Map(AbiImage, s), truncated);
      && (r.Ok? <==> Acceptable(s))
      && (r.Ok? ==> r.value.regions == Map(AbiImage, Filter(ArrivesNonEmpty, s)))
      && (r.Ok? ==> r.value.stats.isTruncated == truncated)
  {
    K.ParseCharacterised(Map(AbiImage, s), truncated, 0, 0);
    MapMembers(AbiImage, s);
    ArrivingImages(s);
  }

  /** The accepted lists and their regions, for any list: only its first 256 entries in start order count. */
  lemma {:induction false} EndToEndAnyLength(uefi: seq<UefiDescriptor>)
    ensures var r, kept := KernelView(uefi), Kept(SortByKey(FirmwareStart, uefi));
      && (r.Ok? <==> Acceptable(kept))
      && (r.Ok? ==> r.value.regions == Map(AbiImage, Filter(ArrivesNonEmpty, kept)))
      && (r.Ok? ==> (r.value.stats.isTruncated <==> |uefi| > K.MAX_MEMORY_DESCRIPTORS))
  {
    KernelViewOfSorted(uefi);
    ParseOfImages(Kept(SortByKey(FirmwareStart, uefi)), |uefi| > K.MAX_MEMORY_DESCRIPTORS);
  }

  /**
   * End to end, for every firmware list of at most 256 entries: the kernel accepts exactly the acceptable lists, and
   * its regions are all the entries that arrive, in stable start order.
   */
  lemma {:induction false} EndToEnd(uefi: seq<UefiDescriptor>)
    requires |uefi| <= K.MAX_MEMORY_DESCRIPTORS
    ensures KernelView(uefi).Ok? <==> Acceptable(uefi)
    ensures KernelView(uefi).Ok? ==>
              && KernelView(uefi).value.regions
                 == Map(AbiImage, SortByKey(FirmwareStart, Filter(ArrivesNonEmpty, uefi)))
              && !KernelView(uefi).value.stats.isTruncated
  {
    EndToEndAnyLength(uefi);
    SortIsStable(FirmwareStart, uefi);
    SameMembers(uefi, SortByKey(FirmwareStart, uefi));
    FilterOfSort(FirmwareStart, ArrivesNonEmpty, uefi);
  }

  /** A region the kernel sees, against the firmware entry it stands for. */
  predicate Delivers(k: K.KernelMemoryDescriptor, d: UefiDescriptor) {
    && k.physStart == d.physStart && k.pageCount == d.pageCount && k.attribute == d.att
    && K.KindOf(k.ty) == K.KindOf(d.ty)
    && k.ty == if K.IsNamedType(d.ty) then d.ty else 0
  }

  /** What the stages are for: the non-empty firmware entries, in stable start order, with exact sizes. */
  ghost predicate DeliversExactly(uefi: seq<UefiDescriptor>, regions: seq<K.KernelMemoryDescriptor>) {
    var want := SortByKey(FirmwareStart, Filter(FirmwareNonEmpty, uefi));
    |regions| == |want| && forall i :: 0 <= i < |want| ==> Delivers(regions[i], want[i])
  }

  /** An image says what its entry says, once no page of it is lost. */
  lemma FittingImages(want: seq<UefiDescriptor>)
    requires forall d :: d in want ==> d.pageCount < PAGE_COUNT_LIMIT
    ensures forall i :: 0 <= i < |want| ==> Delivers(AbiImage(want[i]), want[i])
  {
    forall i | 0 <= i < |want|
      ensures Delivers(AbiImage(want[i]), want[i])
    {
      assert want[i] in want;
      AbiImageKeeps(want[i]);
      TypeRoundTrip(want[i].ty);
    }
  }

  /** Nothing is lost on the way: no size wraps, and what does not fit into the 256 slots was empty anyway. */
  ghost predicate NothingLost(uefi: seq<UefiDescriptor>) {
    && (forall d :: d in uefi ==> d.pageCount < PAGE_COUNT_LIMIT)
    && (forall d :: d in Dropped(SortByKey(FirmwareStart, uefi)) ==> d.pageCount == 0)
  }

  lemma {:induction false} FittingArrive(s: seq<UefiDescriptor>)
    requires forall d :: d in s ==> d.pageCount < PAGE_COUNT_LIMIT
    ensures Filter(ArrivesNonEmpty, s) == Filter(FirmwareNonEmpty, s)
  {
    FilterSame(ArrivesNonEmpty, FirmwareNonEmpty, s);
  }

  /** A map and its sorted form have the same entries, each of them kept or dropped. */
  lemma {:induction false} KeptOrDropped(uefi: seq<UefiDescriptor>)
    ensures var sorted := SortByKey(FirmwareStart, uefi);
      forall d :: d in uefi <==> d in Kept(sorted) || d in Dropped(sorted)
  {
    var sorted := SortByKey(FirmwareStart, uefi);
    SortIsStable(FirmwareStart, uefi);
    SameMembers(uefi, sorted);
    KeptAndDropped(sorted);
  }

  /** The non-empty entries in stable start order are all among the kept ones. */
  lemma {:induction false} WantedAreKept(uefi: seq<UefiDescriptor>)
    requires NothingLost(uefi)
    ensures SortByKey(FirmwareStart, Filter(FirmwareNonEmpty, uefi))
         == Filter(ArrivesNonEmpty, Kept(SortByKey(FirmwareStart, uefi)))
  {
    var sorted := SortByKey(FirmwareStart, uefi);
    KeptOrDropped(uefi);
    FittingArrive(Kept(sorted));
    FilterOfKept(FirmwareNonEmpty, sorted);
    FilterOfSort(FirmwareStart, FirmwareNonEmpty, uefi);
  }

  lemma {:induction false} NothingLostArrives(uefi: seq<UefiDescriptor>)
    requires NothingLost(uefi)
    ensures DeliversExactly(uefi, Map(AbiImage, Filter(ArrivesNonEmpty, Kept(SortByKey(FirmwareStart, uefi)))))
  {
    var wanted := Filter(FirmwareNonEmpty, uefi);
    var want := SortByKey(FirmwareStart, wanted);
    WantedAreKept(uefi);
    FilterMembers(FirmwareNonEmpty, uefi);
    SortIsStable(FirmwareStart, wanted);
    SameMembers(want, wanted);
    FittingImages(want);
  }

  function KernelPages(d: K.KernelMemoryDescriptor): nat {
    d.pageCount
  }

  function ArrivingPages(d: UefiDescriptor): nat {
    d.pageCount % PAGE_COUNT_LIMIT
  }

  lemma {:induction false} ImagePages(s: seq<UefiDescriptor>)
    ensures Sum(KernelPages, Map(AbiImage, s)) == Sum(ArrivingPages, s)
  {
    forall d | d in s
      ensures KernelPages(AbiImage(d)) == ArrivingPages(d)
    {
      AbiImageKeeps(d);
    }
    SumMap(AbiImage, KernelPages, ArrivingPages, s);
  }

  function FirmwarePages(d: UefiDescriptor): nat {
    d.pageCount
  }

  /** Keeping all the pages leaves none to lose, to wrapping or to truncation. */
  lemma {:induction false} AllPagesKept(kept: seq<UefiDescriptor>, dropped: seq<UefiDescriptor>)
    requires Sum(ArrivingPages, kept) == Sum(FirmwarePages, kept) + Sum(FirmwarePages, dropped)
    ensures forall d :: d in kept ==> d.pageCount < PAGE_COUNT_LIMIT
    ensures forall d :: d in dropped ==> d.pageCount == 0
  {
    SumMonotone(ArrivingPages, FirmwarePages, kept);
    SumIsZero(FirmwarePages, dropped);
    forall d | d in kept
      ensures d.pageCount < PAGE_COUNT_LIMIT
    {
      assert ArrivingPages(d) == FirmwarePages(d);
    }
    forall d | d in dropped
      ensures d.pageCount == 0
    {
      assert FirmwarePages(d) == 0;
    }
  }

  lemma {:induction false} PagesSplit(uefi: seq<UefiDescriptor>)
    ensures var sorted := SortByKey(FirmwareStart, uefi);
      Sum(FirmwarePages, uefi) == Sum(FirmwarePages, Kept(sorted)) + Sum(FirmwarePages, Dropped(sorted))
  {
    var sorted := SortByKey(FirmwareStart, uefi);
    SortIsStable(FirmwareStart, uefi);
    SumPermutation(FirmwarePages, uefi, sorted);
    KeptAndDropped(sorted);
    SumConcat(FirmwarePages, Kept(sorted), Dropped(sorted));
  }

  lemma {:induction false} WantedPages(uefi: seq<UefiDescriptor>)
    ensures Sum(FirmwarePages, SortByKey(FirmwareStart, Filter(FirmwareNonEmpty, uefi))) == Sum(FirmwarePages, uefi)
  {
    var wanted := Filter(FirmwareNonEmpty, uefi);
    SortIsStable(FirmwareStart, wanted);
    SumPermutation(FirmwarePages, SortByKey(FirmwareStart, wanted), wanted);
    SumFilter(FirmwarePages, FirmwarePages, FirmwareNonEmpty, uefi);
  }

  lemma {:induction false} SamePages(regions: seq<K.KernelMemoryDescriptor>, want: seq<UefiDescriptor>)
    requires |regions| == |want|
    requires forall i :: 0 <= i < |want| ==> regions[i].pageCount == want[i].pageCount
    ensures Sum(KernelPages, regions) == Sum(FirmwarePages, want)
  {
    if want != [] {
      SamePages(regions[1..], want[1..]);
    }
  }

  /** If every region is delivered, the page totals agree, and no entry can have lost a page. */
  lemma {:induction false} ExactMeansNothingLost(uefi: seq<UefiDescriptor>)
    requires DeliversExactly(uefi, Map(AbiImage, Filter(ArrivesNonEmpty, Kept(SortByKey(FirmwareStart, uefi)))))
    ensures NothingLost(uefi)
  {
    var kept := Kept(SortByKey(FirmwareStart, uefi));
    var arrived := Filter(ArrivesNonEmpty, kept);
    var want := SortByKey(FirmwareStart, Filter(FirmwareNonEmpty, uefi));
    WantedPages(uefi);
    SamePages(Map(AbiImage, arrived), want);
    ImagePages(arrived);
    SumFilter(ArrivingPages, ArrivingPages, ArrivesNonEmpty, kept);
    PagesSplit(uefi);
    AllPagesKept(kept, Dropped(SortByKey(FirmwareStart, uefi)));
    KeptOrDropped(uefi);
  }

  /**
   * An accepted map of any length is delivered exactly if and only if every page count is below 2^52, where sizes start
   * to wrap, and every entry past the 256th in stable start order is empty.
   */
  lemma ExactIffNothingLost(uefi: seq<UefiDescriptor>)
    requires KernelView(uefi).Ok?
    ensures DeliversExactly(uefi, KernelView(uefi).value.regions) <==> NothingLost(uefi)
  {
    EndToEndAnyLength(uefi);
    if NothingLost(uefi) {
      NothingLostArrives(uefi);
    }
    if DeliversExactly(uefi, KernelView(uefi).value.regions) {
      ExactMeansNothingLost(uefi);
    }
  }

  /** For a map that was not truncated, sizes are all that matters. */
  lemma ExactIffSizesFit(uefi: seq<UefiDescriptor>)
    requires |uefi| <= K.MAX_MEMORY_DESCRIPTORS && KernelView(uefi).Ok?
    ensures DeliversExactly(uefi, KernelView(uefi).value.regions)
       <==> forall d :: d in uefi ==> d.pageCount < PAGE_COUNT_LIMIT
  {
    SortIsStable(FirmwareStart, uefi);
    ExactIffNothingLost(uefi);
  }

  /** Such sizes do get accepted: the second entry's bytes wrap to zero, and the kernel loses 2^52 pages unawares. */
  lemma WrappedSizeIsLost()
    ensures var uefi := [UefiDescriptor(7, 0, 1, 0),
                         UefiDescriptor(7, 0x1000, PAGE_COUNT_LIMIT, 0)];
      && KernelView(uefi).Ok?
      && !DeliversExactly(uefi, KernelView(uefi).value.regions)
  {
    var uefi := [UefiDescriptor(7, 0, 1, 0),
                 UefiDescriptor(7, 0x1000, PAGE_COUNT_LIMIT, 0)];
    EndToEnd(uefi);
    assert uefi[0] in uefi && uefi[1] in uefi;
    ExactIffSizesFit(uefi);
  }

  /** `n` one-page conventional entries side by side. */
  function Ladder(n: nat): seq<UefiDescriptor>
    requires n <= 0x1000
  {
    seq(n, i requires 0 <= i < n => UefiDescriptor(7, i * PAGE_SIZE, 1, 0))
  }

  /** Truncated maps do get accepted: more than 256 good regions go in, and 256 come out with the flag up. */
  lemma TruncatedMapIsAccepted(n: nat)
    requires K.MAX_MEMORY_DESCRIPTORS < n <= 0x1000
    ensures var r := KernelView(Ladder(n));
      r.Ok? && r.value.stats.isTruncated && |r.value.regions| == K.MAX_MEMORY_DESCRIPTORS
  {
    var uefi, sorted := Ladder(n), SortByKey(FirmwareStart, Ladder(n));
    SortIsStable(FirmwareStart, uefi);
    SameMembers(uefi, sorted);
    assert forall d :: d in uefi ==> ArrivesNonEmpty(d) && d.physStart % PAGE_SIZE == 0;
    assert sorted[0] in Kept(sorted);
    EndToEndAnyLength(uefi);
    FilterMembers(ArrivesNonEmpty, Kept(sorted));
  }

  // ---- Accounting ----

  lemma {:induction false} AcceptedRegions(uefi: seq<UefiDescriptor>)
    requires KernelView(uefi).Ok?
    ensures KernelView(uefi).value.regions
         == Filter(K.NonEmpty, Map(AbiImage, Kept(SortByKey(FirmwareStart, uefi))))
  {
    KernelViewOfSorted(uefi);
  }

  /** A kernel-side weight over the accepted regions sums to the matching firmware-side weight over the kept entries. */
  lemma {:induction false} SumAcrossStages(
      uefi: seq<UefiDescriptor>, w: UefiDescriptor -> nat, v: K.KernelMemoryDescriptor -> nat)
    requires KernelView(uefi).Ok?
    requires forall k: K.KernelMemoryDescriptor :: v(k) <= k.SizeBytes()
    requires forall d :: d in Kept(SortByKey(FirmwareStart, uefi)) ==> v(AbiImage(d)) == w(d)
    ensures Sum(v, KernelView(uefi).value.regions) == Sum(w, Kept(SortByKey(FirmwareStart, uefi)))
  {
    AcceptedRegions(uefi);
    var kept := Kept(SortByKey(FirmwareStart, uefi));
    K.EmptiesWeighNothing(v, Map(AbiImage, kept));
    SumMap(AbiImage, v, w, kept);
  }

  lemma {:induction false} KeptSum(uefi: seq<UefiDescriptor>, w: UefiDescriptor -> nat)
    ensures Sum(w, Kept(SortByKey(FirmwareStart, uefi))) <= Sum(w, uefi)
    ensures |uefi| <= K.MAX_MEMORY_DESCRIPTORS ==> Sum(w, Kept(SortByKey(FirmwareStart, uefi))) == Sum(w, uefi)
  {
    var sorted := SortByKey(FirmwareStart, uefi);
    SortIsStable(FirmwareStart, uefi);
    SumPermutation(w, sorted, uefi);
    if |uefi| > K.MAX_MEMORY_DESCRIPTORS {
      SumPrefix(w, sorted, K.MAX_MEMORY_DESCRIPTORS);
    }
  }

  lemma WeightsMatch(d: UefiDescriptor)
    ensures K.UsableAfterBootBytes(AbiImage(d)) == UsableBytes(d)
    ensures K.RamOrFirmwareBytes(AbiImage(d)) == RamBytes(d)
  {
    TypeRoundTrip(d.ty);
    AbiImageKeeps(d);
  }

  /** The kernel's four sums against the bootloader's two, before any of them saturates. */
  lemma {:induction false} KernelSums(uefi: seq<UefiDescriptor>)
    requires KernelView(uefi).Ok?
    ensures var regions := KernelView(uefi).value.regions;
      var usable, all := Sum(K.UsableAfterBootBytes, regions), Sum(K.RamOrFirmwareBytes, regions);
      && usable <= Sum(UsableBytes, uefi) && all <= Sum(RamBytes, uefi)
      && (|uefi| <= K.MAX_MEMORY_DESCRIPTORS ==> usable == Sum(UsableBytes, uefi) && all == Sum(RamBytes, uefi))
  {
    forall d: UefiDescriptor
      ensures K.UsableAfterBootBytes(AbiImage(d)) == UsableBytes(d)
      ensures K.RamOrFirmwareBytes(AbiImage(d)) == RamBytes(d)
    {
      WeightsMatch(d);
    }
    SumAcrossStages(uefi, UsableBytes, K.UsableAfterBootBytes);
    SumAcrossStages(uefi, RamBytes, K.RamOrFirmwareBytes);
    KeptSum(uefi, UsableBytes);
    KeptSum(uefi, RamBytes);
  }

  /**
   * Two independently written accountings agree, saturation and wrap-around included; dropping entries past the
   * 256th can only lower the kernel's figures.
   */
  lemma {:induction false} AccountingAgrees(uefi: seq<UefiDescriptor>)
    requires KernelView(uefi).Ok?
    ensures var boot, stats := MapOf(uefi), KernelView(uefi).value.stats;
      var firmware := Cap(Sum(K.FirmwareBytes, KernelView(uefi).value.regions));
      && stats.TotalUsableAfterBoot() <= boot.usableMemory
      && SatAdd(stats.totalBytes, firmware) <= boot.totalMemory
      && (|uefi| <= K.MAX_MEMORY_DESCRIPTORS ==>
            && stats.TotalUsableAfterBoot() == boot.usableMemory
            && SatAdd(stats.totalBytes, firmware) == boot.totalMemory)
  {
    var regions, stats := KernelView(uefi).value.regions, KernelView(uefi).value.stats;
    KernelSums(uefi);
    TotalsAreCappedSums(uefi);
    K.StatsAreCappedSums(regions, stats.isTruncated);
    ChainIsCappedSum(K.FirmwareBytes, regions);
    ChainIsCappedSum(K.RamOrFirmwareBytes, regions);
    ChainSplits(K.RamOrFirmwareBytes, K.RamBytes, K.FirmwareBytes, regions);
  }
}
