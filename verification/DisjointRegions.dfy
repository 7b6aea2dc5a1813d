/** Totals of a firmware map whose regions do not overlap: nothing saturates, everything is exact. */
module DisjointRegions {
  import opened Words
  import opened Sequences
  import opened StableSort
  import opened BootMemory
  import opened BootInfo
  import opened Handoff
  import K = KernelMemory

  /** The size the firmware means, before any machine word holds it. */
  function TrueBytes(d: UefiDescriptor): nat {
    d.pageCount * PAGE_SIZE
  }

  function End(d: UefiDescriptor): nat {
    d.physStart + TrueBytes(d)
  }

  /** The two regions share no byte. */
  predicate Apart(a: UefiDescriptor, b: UefiDescriptor) {
    a.pageCount == 0 || b.pageCount == 0 || End(a) <= b.physStart || End(b) <= a.physStart
  }

  ghost predicate NoOverlap(s: seq<UefiDescriptor>) {
    forall i, j :: 0 <= i < j < |s| ==> Apart(s[i], s[j])
  }

  ghost predicate Within(lo: nat, hi: nat, s: seq<UefiDescriptor>) {
    forall d :: d in s && d.pageCount != 0 ==> lo <= d.physStart && End(d) <= hi
  }

  lemma {:induction false} InsertKeepsApart(x: UefiDescriptor, s: seq<UefiDescriptor>)
    requires NoOverlap(s) && forall y :: y in s ==> Apart(x, y)
    ensures NoOverlap(Insert(FirmwareStart, x, s))
  {
    if s != [] && FirmwareStart(x) > FirmwareStart(s[0]) {
      var r := Insert(FirmwareStart, x, s[1..]);
      InsertKeepsApart(x, s[1..]);
      InsertMembers(FirmwareStart, x, s[1..]);
      forall i | 0 <= i < |r|
        ensures Apart(s[0], r[i])
      {
        assert r[i] in multiset(r);
        if r[i] == x {
          assert s[0] in s && Apart(x, s[0]);
        } else {
          var j :| 0 <= j < |s| - 1 && s[1..][j] == r[i];
          assert Apart(s[0], s[j + 1]);
        }
      }
    }
  }

  lemma {:induction false} SortKeepsApart(s: seq<UefiDescriptor>)
    requires NoOverlap(s)
    ensures NoOverlap(SortByKey(FirmwareStart, s))
  {
    if s != [] {
      var t := SortByKey(FirmwareStart, s[1..]);
      SortKeepsApart(s[1..]);
      SortIsStable(FirmwareStart, s[1..]);
      SameMembers(s[1..], t);
      InsertKeepsApart(s[0], t);
    }
  }

  /** In start order each region ends before the next begins, so the sizes fit one above the other. */
  lemma {:induction false} SortedSizesStack(s: seq<UefiDescriptor>, lo: nat, hi: nat)
    requires Sorted(FirmwareStart, s) && NoOverlap(s) && Within(lo, hi, s) && lo <= hi
    ensures Sum(TrueBytes, s) <= hi - lo
  {
    if s != [] {
      var d := s[0];
      var next := if d.pageCount == 0 then lo else End(d);
      forall y | y in s[1..] && y.pageCount != 0
        ensures next <= y.physStart
      {
        var i :| 0 <= i < |s| - 1 && s[1..][i] == y;
        assert Apart(s[0], s[i + 1]) && FirmwareStart(s[0]) <= FirmwareStart(s[i + 1]);
      }
      assert d in s;
      SortedSizesStack(s[1..], next, hi);
    }
  }

  /** Regions that do not overlap and end by `hi` hold at most `hi` bytes, in whatever order the firmware lists them. */
  lemma {:induction false} SizesFitBelowEnd(uefi: seq<UefiDescriptor>, hi: nat)
    requires NoOverlap(uefi) && Within(0, hi, uefi)
    ensures Sum(TrueBytes, uefi) <= hi
  {
    var sorted := SortByKey(FirmwareStart, uefi);
    SortIsStable(FirmwareStart, uefi);
    SameMembers(uefi, sorted);
    SortKeepsApart(uefi);
    SortedSizesStack(sorted, 0, hi);
    SumPermutation(TrueBytes, uefi, sorted);
  }

  function TrueRam(d: UefiDescriptor): nat {
    if d.ty in {11, 12} then 0 else TrueBytes(d)
  }

  function TrueUsable(d: UefiDescriptor): nat {
    if d.ty in {1, 2, 3, 4, 7, 9} then TrueBytes(d) else 0
  }

  /** A total bounded by true sizes that fit in a word is neither wrapped nor saturated. */
  lemma {:induction false} ExactTotal(
      uefi: seq<UefiDescriptor>, hi: U64, w: UefiDescriptor -> nat, v: UefiDescriptor -> nat)
    requires NoOverlap(uefi) && Within(0, hi, uefi)
    requires forall d: UefiDescriptor :: v(d) <= TrueBytes(d)
    requires forall d: UefiDescriptor :: TrueBytes(d) <= U64_MAX ==> w(d) == v(d)
    ensures Sum(w, uefi) == Sum(v, uefi) <= hi
    ensures forall d :: d in uefi ==> w(d) == v(d)
  {
    SizesFitBelowEnd(uefi, hi);
    SumMonotone(v, TrueBytes, uefi);
    forall d | d in uefi
      ensures w(d) == v(d)
    {
      assert d.pageCount != 0 ==> End(d) <= hi;
    }
    SumMonotone(w, v, uefi);
    SumMonotone(v, w, uefi);
  }

  /** The bootloader's two totals are the true ones, and no larger than the highest address the map uses. */
  lemma {:induction false} BootTotalsExact(uefi: seq<UefiDescriptor>, hi: U64)
    requires NoOverlap(uefi) && Within(0, hi, uefi)
    ensures MapOf(uefi).totalMemory == Sum(TrueRam, uefi) <= hi
    ensures MapOf(uefi).usableMemory == Sum(TrueUsable, uefi) <= hi
  {
    ExactTotal(uefi, hi, RamBytes, TrueRam);
    ExactTotal(uefi, hi, UsableBytes, TrueUsable);
    TotalsAreCappedSums(uefi);
  }

  // ---- The kernel's totals ----

  function TrueTotal(d: UefiDescriptor): nat {
    if d.ty in {5, 6, 11, 12} then 0 else TrueBytes(d)
  }

  function TrueConventional(d: UefiDescriptor): nat {
    if d.ty == 7 then TrueBytes(d) else 0
  }

  function TrueReclaimable(d: UefiDescriptor): nat {
    if d.ty in {1, 2, 3, 4, 9} then TrueBytes(d) else 0
  }

  /** Dropping entries from the end of the sorted map leaves regions that do not overlap and end where they did. */
  lemma {:induction false} KeptStaysApart(uefi: seq<UefiDescriptor>, hi: nat)
    requires NoOverlap(uefi) && Within(0, hi, uefi)
    ensures NoOverlap(Kept(SortByKey(FirmwareStart, uefi))) && Within(0, hi, Kept(SortByKey(FirmwareStart, uefi)))
  {
    SortKeepsApart(uefi);
    SortIsStable(FirmwareStart, uefi);
    SameMembers(uefi, SortByKey(FirmwareStart, uefi));
  }

  /** One kernel total: the true sizes of the entries that were kept. */
  lemma {:induction false} KernelTotalExact(
      uefi: seq<UefiDescriptor>, hi: U64, w: K.KernelMemoryDescriptor -> nat, v: UefiDescriptor -> nat)
    requires NoOverlap(uefi) && Within(0, hi, uefi) && KernelView(uefi).Ok?
    requires forall k: K.KernelMemoryDescriptor :: w(k) <= k.SizeBytes()
    requires forall d: UefiDescriptor :: v(d) <= TrueBytes(d)
    requires forall d: UefiDescriptor :: TrueBytes(d) <= U64_MAX ==> w(AbiImage(d)) == v(d)
    ensures Sum(w, KernelView(uefi).value.regions) == Sum(v, Kept(SortByKey(FirmwareStart, uefi))) <= hi
  {
    var kept := Kept(SortByKey(FirmwareStart, uefi));
    KeptStaysApart(uefi, hi);
    ExactTotal(kept, hi, (d: UefiDescriptor) => w(AbiImage(d)), v);
    SumAcrossStages(uefi, v, w);
  }

  lemma TrueWeights(d: UefiDescriptor)
    ensures TrueBytes(d) <= U64_MAX ==>
              && K.RamBytes(AbiImage(d)) == TrueTotal(d)
              && K.UsableBytes(AbiImage(d)) == TrueConventional(d)
              && K.ReclaimableBytes(AbiImage(d)) == TrueReclaimable(d)
              && K.UsableAfterBootBytes(AbiImage(d)) == TrueUsable(d)
  {
    AbiImageKeeps(d);
    WeightsMatch(d);
  }

  /** The kernel's sums, before any of them could saturate. */
  lemma {:induction false} KernelSumsExact(uefi: seq<UefiDescriptor>, hi: U64)
    requires NoOverlap(uefi) && Within(0, hi, uefi) && KernelView(uefi).Ok?
    ensures var r, kept := KernelView(uefi).value.regions, Kept(SortByKey(FirmwareStart, uefi));
      && Sum(K.RamBytes, r) == Sum(TrueTotal, kept) <= hi
      && Sum(K.UsableBytes, r) == Sum(TrueConventional, kept) <= hi
      && Sum(K.ReclaimableBytes, r) == Sum(TrueReclaimable, kept) <= hi
      && Sum(K.UsableAfterBootBytes, r) == Sum(TrueUsable, kept) <= hi
  {
    forall d: UefiDescriptor
      ensures TrueBytes(d) <= U64_MAX ==>
                && K.RamBytes(AbiImage(d)) == TrueTotal(d)
                && K.UsableBytes(AbiImage(d)) == TrueConventional(d)
                && K.ReclaimableBytes(AbiImage(d)) == TrueReclaimable(d)
                && K.UsableAfterBootBytes(AbiImage(d)) == TrueUsable(d)
    {
      TrueWeights(d);
    }
    KernelTotalExact(uefi, hi, K.RamBytes, TrueTotal);
    KernelTotalExact(uefi, hi, K.UsableBytes, TrueConventional);
    KernelTotalExact(uefi, hi, K.ReclaimableBytes, TrueReclaimable);
    KernelTotalExact(uefi, hi, K.UsableAfterBootBytes, TrueUsable);
  }

  /**
   * So are the kernel's four: the true sizes of the entries that were kept, no larger than the highest address; of all
   * the firmware's entries when the map was not truncated.
   */
  lemma {:induction false} KernelTotalsExact(uefi: seq<UefiDescriptor>, hi: U64)
    requires NoOverlap(uefi) && Within(0, hi, uefi) && KernelView(uefi).Ok?
    ensures var stats, kept := KernelView(uefi).value.stats, Kept(SortByKey(FirmwareStart, uefi));
      && stats.totalBytes == Sum(TrueTotal, kept) <= hi
      && stats.usableBytes == Sum(TrueConventional, kept) <= hi
      && stats.reclaimableBytes == Sum(TrueReclaimable, kept) <= hi
      && stats.TotalUsableAfterBoot() == stats.usableBytes + stats.reclaimableBytes == Sum(TrueUsable, kept) <= hi
      && (|uefi| <= K.MAX_MEMORY_DESCRIPTORS ==>
            && stats.totalBytes == Sum(TrueTotal, uefi)
            && stats.usableBytes == Sum(TrueConventional, uefi)
            && stats.reclaimableBytes == Sum(TrueReclaimable, uefi)
            && stats.TotalUsableAfterBoot() == Sum(TrueUsable, uefi))
  {
    var m := KernelView(uefi).value;
    KernelSumsExact(uefi, hi);
    KeptSum(uefi, TrueTotal);
    KeptSum(uefi, TrueConventional);
    KeptSum(uefi, TrueReclaimable);
    KeptSum(uefi, TrueUsable);
    SumSplit(K.UsableAfterBootBytes, K.UsableBytes, K.ReclaimableBytes, m.regions);
    K.StatsAreCappedSums(m.regions, m.stats.isTruncated);
  }

  // ---- The kernel's regions ----

  lemma HeadApart(s: seq<UefiDescriptor>)
    requires NoOverlap(s) && s != []
    ensures forall y :: y in s[1..] ==> Apart(s[0], y)
  {
    forall y | y in s[1..]
      ensures Apart(s[0], y)
    {
      var i :| 0 <= i < |s| - 1 && s[1..][i] == y;
      assert Apart(s[0], s[i + 1]);
    }
  }

  lemma ConsApart(x: UefiDescriptor, s: seq<UefiDescriptor>)
    requires NoOverlap(s) && forall y :: y in s ==> Apart(x, y)
    ensures NoOverlap([x] + s)
  {
  }

  lemma {:induction false} FilterKeepsApart(p: UefiDescriptor -> bool, s: seq<UefiDescriptor>)
    requires NoOverlap(s)
    ensures NoOverlap(Filter(p, s))
  {
    if s != [] {
      FilterKeepsApart(p, s[1..]);
      FilterMembers(p, s[1..]);
      HeadApart(s);
      if p(s[0]) {
        ConsApart(s[0], Filter(p, s[1..]));
      }
    }
  }

  lemma {:induction false} KeptSorted(uefi: seq<UefiDescriptor>)
    ensures Sorted(FirmwareStart, Kept(SortByKey(FirmwareStart, uefi)))
  {
    SortIsStable(FirmwareStart, uefi);
  }

  lemma {:induction false} ArrivedWithin(s: seq<UefiDescriptor>, hi: nat)
    requires Within(0, hi, s)
    ensures forall d :: d in Filter(ArrivesNonEmpty, s) ==> d.pageCount != 0 && End(d) <= hi
  {
    FilterMembers(ArrivesNonEmpty, s);
  }

  /** What arrives of a map without overlaps arrives whole, in order and still apart. */
  lemma {:induction false} ArrivedStaysApart(uefi: seq<UefiDescriptor>, hi: nat)
    requires NoOverlap(uefi) && Within(0, hi, uefi)
    ensures var arrived := Filter(ArrivesNonEmpty, Kept(SortByKey(FirmwareStart, uefi)));
      && Sorted(FirmwareStart, arrived) && NoOverlap(arrived)
      && forall d :: d in arrived ==> d.pageCount != 0 && End(d) <= hi
  {
    var kept := Kept(SortByKey(FirmwareStart, uefi));
    KeptSorted(uefi);
    KeptStaysApart(uefi, hi);
    SortedFilter(FirmwareStart, ArrivesNonEmpty, kept);
    FilterKeepsApart(ArrivesNonEmpty, kept);
    ArrivedWithin(kept, hi);
  }

  lemma WholeImage(d: UefiDescriptor, hi: U64)
    requires End(d) <= hi
    ensures AbiImage(d).physStart + AbiImage(d).pageCount * PAGE_SIZE == End(d)
  {
    AbiImageKeeps(d);
  }

  /** Apart and in order: the first of two regions ends before the second begins. */
  lemma EndsBefore(s: seq<UefiDescriptor>, i: nat, j: nat)
    requires Sorted(FirmwareStart, s) && NoOverlap(s) && i < j < |s|
    requires s[i].pageCount != 0 && s[j].pageCount != 0
    ensures End(s[i]) <= s[j].physStart
  {
    assert FirmwareStart(s[i]) <= FirmwareStart(s[j]);
    assert Apart(s[i], s[j]);
  }

  /**
   * What an allocator relies on: if the firmware's regions do not overlap, neither do the kernel's, truncated or not;
   * each ends before the next begins, the last of them by the highest address.
   */
  lemma RegionsStayApart(uefi: seq<UefiDescriptor>, hi: U64)
    requires NoOverlap(uefi) && Within(0, hi, uefi) && KernelView(uefi).Ok?
    ensures var r := KernelView(uefi).value.regions;
      && (forall i, j :: 0 <= i < j < |r| ==> r[i].physStart + r[i].pageCount * PAGE_SIZE <= r[j].physStart)
      && (forall i :: 0 <= i < |r| ==> r[i].pageCount > 0 && r[i].physStart + r[i].pageCount * PAGE_SIZE <= hi)
  {
    var r, arrived := KernelView(uefi).value.regions, Filter(ArrivesNonEmpty, Kept(SortByKey(FirmwareStart, uefi)));
    EndToEndAnyLength(uefi);
    ArrivedStaysApart(uefi, hi);
    forall i | 0 <= i < |r|
      ensures r[i].physStart == arrived[i].physStart && r[i].physStart + r[i].pageCount * PAGE_SIZE == End(arrived[i])
    {
      assert arrived[i] in arrived;
      WholeImage(arrived[i], hi);
    }
    forall i, j | 0 <= i < j < |r|
      ensures End(arrived[i]) <= arrived[j].physStart
    {
      assert arrived[i] in arrived && arrived[j] in arrived;
      EndsBefore(arrived, i, j);
    }
    forall i | 0 <= i < |r|
      ensures End(arrived[i]) <= hi && arrived[i].pageCount != 0
    {
      assert arrived[i] in arrived;
    }
  }
}
