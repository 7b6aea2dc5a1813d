/** What the boot path does with the memory map: collect it, convert it, and report it on the serial line. */
module BootPath {
  import opened Words
  import opened Wrappers
  import opened Sequences
  import opened Saturation
  import opened StableSort
  import opened BootMemory
  import opened BootInfo
  import opened Handoff
  import K = KernelMemory
  import R = BootReport
  import Reader = ReportReader

  /** The entries of the ABI map made from a firmware list. */
  function AbiEntries(uefi: seq<UefiDescriptor>): seq<K.KernelMemoryDescriptor> {
    Map(AbiImage, Kept(SortByKey(FirmwareStart, uefi)))
  }

  /** The text the boot path prints for a firmware list. */
  function BootText(uefi: seq<UefiDescriptor>): string {
    R.Report(AbiEntries(uefi), |uefi| > K.MAX_MEMORY_DESCRIPTORS)
  }

  /** The three stages in the order the boot path runs them. */
  method BootToReport(uefi: seq<UefiDescriptor>, out: R.Console) returns (boot: MemoryMap)
    modifies out
    ensures boot == MapOf(uefi)
    ensures out.written == old(out.written) + BootText(uefi)
  {
    boot := FromUefiMemoryMap(uefi);
    SortIsStable(StartOf, Map(RegionOf, uefi));
    AbiEntriesAreImages(uefi);
    var abi := ToKernelMemoryMap(boot);
    R.PrintMemoryMap(out, abi);
  }

  /** Conventional memory, type 7. */
  function ConventionalBytes(d: UefiDescriptor): nat {
    if d.ty == 7 then PagesToBytes(d.pageCount) else 0
  }

  /** Loader and boot services code and data, types 1 to 4, and reclaimable ACPI tables, type 9. */
  function ReclaimableBytes(d: UefiDescriptor): nat {
    if d.ty in {1, 2, 3, 4, 9} then PagesToBytes(d.pageCount) else 0
  }

  /** A report weight over the ABI entries is the matching firmware weight over the kept entries, capped. */
  lemma {:induction false} ReportTotal(
      uefi: seq<UefiDescriptor>, v: K.KernelMemoryDescriptor -> nat, w: UefiDescriptor -> nat)
    requires forall d: UefiDescriptor :: v(AbiImage(d)) == w(d)
    ensures Chain(v, AbiEntries(uefi)) == Cap(Sum(w, Kept(SortByKey(FirmwareStart, uefi))))
  {
    ChainIsCappedSum(v, AbiEntries(uefi));
    SumMap(AbiImage, v, w, Kept(SortByKey(FirmwareStart, uefi)));
  }

  lemma PrintedImages(d: UefiDescriptor)
    ensures R.PrintedRam(AbiImage(d)) == RamBytes(d)
    ensures R.PrintedUsable(AbiImage(d)) == ConventionalBytes(d)
    ensures R.PrintedReclaimable(AbiImage(d)) == ReclaimableBytes(d)
  {
    AbiImageKeeps(d);
    TypeRoundTrip(d.ty);
  }

  /** The report's three figures are the true sums over the kept entries, capped once. */
  lemma {:induction false} ReportTotals(uefi: seq<UefiDescriptor>)
    ensures var t, kept := R.TotalsOf(AbiEntries(uefi)), Kept(SortByKey(FirmwareStart, uefi));
      && t.total == Cap(Sum(RamBytes, kept))
      && t.usable == Cap(Sum(ConventionalBytes, kept))
      && t.reclaimable == Cap(Sum(ReclaimableBytes, kept))
  {
    forall d: UefiDescriptor
      ensures R.PrintedRam(AbiImage(d)) == RamBytes(d)
      ensures R.PrintedUsable(AbiImage(d)) == ConventionalBytes(d)
      ensures R.PrintedReclaimable(AbiImage(d)) == ReclaimableBytes(d)
    {
      PrintedImages(d);
    }
    ReportTotal(uefi, R.PrintedRam, RamBytes);
    ReportTotal(uefi, R.PrintedUsable, ConventionalBytes);
    ReportTotal(uefi, R.PrintedReclaimable, ReclaimableBytes);
  }

  /**
   * The report's accounting against the bootloader's, for every firmware list, whether or not the parser would accept
   * it: the same total and the same usable memory, and never more of either after truncation.
   */
  lemma {:induction false} ReportAgreesWithBoot(uefi: seq<UefiDescriptor>)
    ensures var boot, t := MapOf(uefi), R.TotalsOf(AbiEntries(uefi));
      && t.total <= boot.totalMemory && SatAdd(t.usable, t.reclaimable) <= boot.usableMemory
      && (|uefi| <= K.MAX_MEMORY_DESCRIPTORS ==>
            t.total == boot.totalMemory && SatAdd(t.usable, t.reclaimable) == boot.usableMemory)
  {
    var kept := Kept(SortByKey(FirmwareStart, uefi));
    ReportTotals(uefi);
    CapAdd(Sum(ConventionalBytes, kept), Sum(ReclaimableBytes, kept));
    SumSplit(UsableBytes, ConventionalBytes, ReclaimableBytes, kept);
    KeptSum(uefi, UsableBytes);
    KeptSum(uefi, RamBytes);
    TotalsAreCappedSums(uefi);
  }

  /** The row a reader should find for a firmware entry. */
  predicate RowFits(row: Reader.Row, d: UefiDescriptor) {
    && row.start == d.physStart
    && row.end == SatAdd(d.physStart, PagesToBytes(d.pageCount))
    && Reader.Measures(row.size, PagesToBytes(d.pageCount))
    && (K.IsNamedType(d.ty) ==> row.ty == Some(d.ty))
  }

  lemma ImageRowFits(i: nat, d: UefiDescriptor)
    ensures RowFits(Reader.RowOf(i, AbiImage(d)), d)
  {
    AbiImageKeeps(d);
    TypeRoundTrip(d.ty);
  }

  /** The rows of the report against the kept entries that are not empty on arrival. */
  lemma {:induction false} RowsFit(uefi: seq<UefiDescriptor>)
    ensures var rows, listed := Reader.RowsOf(AbiEntries(uefi), 0),
                                Filter(ArrivesNonEmpty, Kept(SortByKey(FirmwareStart, uefi)));
      |rows| == |listed| && forall k :: 0 <= k < |listed| ==> RowFits(rows[k], listed[k])
  {
    var listed, rows := Filter(ArrivesNonEmpty, Kept(SortByKey(FirmwareStart, uefi))),
                        Reader.RowsOf(AbiEntries(uefi), 0);
    Reader.RowsAreRegions(AbiEntries(uefi), 0);
    ArrivingImages(Kept(SortByKey(FirmwareStart, uefi)));
    forall k | 0 <= k < |listed|
      ensures RowFits(rows[k], listed[k])
    {
      ImageRowFits(rows[k].index, listed[k]);
    }
  }

  /**
   * Whoever reads the serial line learns the firmware's map: one row for each kept entry that is not empty on arrival,
   * in stable start order, whether anything was cut off, and three totals in MiB over the kept entries; if nothing was
   * cut off, the first of them is the bootloader's.
   */
  lemma {:induction false} SerialLineTellsTheMap(uefi: seq<UefiDescriptor>)
    ensures var r, kept := Reader.ReadReport(BootText(uefi)), Kept(SortByKey(FirmwareStart, uefi));
      var listed := Filter(ArrivesNonEmpty, kept);
      && r.Some? && r.value.count == |kept|
      && (r.value.truncated <==> |uefi| > K.MAX_MEMORY_DESCRIPTORS)
      && |r.value.rows| == |listed|
      && (forall k :: 0 <= k < |listed| ==> RowFits(r.value.rows[k], listed[k]))
      && Reader.InMib(r.value.totalMib, Cap(Sum(RamBytes, kept)))
      && Reader.InMib(r.value.usableMib, Cap(Sum(ConventionalBytes, kept)))
      && Reader.InMib(r.value.reclaimableMib, Cap(Sum(ReclaimableBytes, kept)))
      && r.value.totalMib * 0x10_0000 <= MapOf(uefi).totalMemory
      && (|uefi| <= K.MAX_MEMORY_DESCRIPTORS ==> Reader.InMib(r.value.totalMib, MapOf(uefi).totalMemory))
  {
    Reader.ReportReads(AbiEntries(uefi), |uefi| > K.MAX_MEMORY_DESCRIPTORS);
    RowsFit(uefi);
    ReportTotals(uefi);
    ReportAgreesWithBoot(uefi);
  }
}
