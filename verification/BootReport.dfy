/** The bootloader's serial report of the memory map (boot/src/main.rs). */
module BootReport {
  import opened Words
  import opened Sequences
  import opened Saturation
  import opened Numerals
  import opened KernelMemory

  function MemoryTypeLabel(ty: U32): string {
    if ty == RESERVED then "Reserved"
    else if ty == LOADER_CODE then "LoaderCode"
    else if ty == LOADER_DATA then "LoaderData"
    else if ty == BOOT_SERVICES_CODE then "BootServicesCode"
    else if ty == BOOT_SERVICES_DATA then "BootServicesData"
    else if ty == RUNTIME_SERVICES_CODE then "RuntimeServicesCode"
    else if ty == RUNTIME_SERVICES_DATA then "RuntimeServicesData"
    else if ty == CONVENTIONAL then "Conventional"
    else if ty == UNUSABLE then "Unusable"
    else if ty == ACPI_RECLAIM then "AcpiReclaim"
    else if ty == ACPI_NON_VOLATILE then "AcpiNonVolatile"
    else if ty == MMIO then "Mmio"
    else if ty == MMIO_PORT_SPACE then "MmioPortSpace"
    else if ty == PERSISTENT_MEMORY then "PersistentMemory"
    else "Unknown"
  }

  predicate IsUsableAfterBoot(ty: U32) {
    ty == CONVENTIONAL || ty == BOOT_SERVICES_CODE || ty == BOOT_SERVICES_DATA
    || ty == LOADER_CODE || ty == LOADER_DATA || ty == ACPI_RECLAIM
  }

  predicate IsMmio(ty: U32) {
    ty == MMIO || ty == MMIO_PORT_SPACE
  }

  // ---- Specification: the text ----

  function SizeText(size: U64): string {
    var kib := size / 1024;
    if kib >= 1024 then Numeral(kib / 1024, 10) + " MiB" else Numeral(kib, 10) + " KiB"
  }

  function Extent(i: nat, d: KernelMemoryDescriptor): string {
    "  [" + Numeral(i, 10) + "] 0x" + Numeral(d.physStart, 16) + " - 0x"
    + Numeral(SatAdd(d.physStart, d.SizeBytes()), 16) + "  "
  }

  function Line(i: nat, d: KernelMemoryDescriptor): string {
    Extent(i, d) + SizeText(d.SizeBytes()) + "  " + MemoryTypeLabel(d.ty) + "\r\n"
  }

  /** What an entry contributes to the table: empty entries are skipped. */
  function EntryText(i: nat, d: KernelMemoryDescriptor): string {
    if NonEmpty(d) then Line(i, d) else ""
  }

  function Rows<T>(text: (nat, T) -> string, s: seq<T>, first: nat): string {
    if s == [] then "" else text(first, s[0]) + Rows(text, s[1..], first + 1)
  }

  /** The region table: lines are labelled with the entry's index among all entries. */
  function Table(entries: seq<KernelMemoryDescriptor>): string {
    Rows(EntryText, entries, 0)
  }

  function Header(count: nat, truncated: bool): string {
    "[INFO] Physical memory map (" + Numeral(count, 10) + " entries" + (if truncated then ", TRUNCATED" else "")
    + "):\r\n"
  }

  // Text is modelled byte by byte; the dash in this line is three bytes of UTF-8.
  const WARNING_TEXT := " Memory map was truncated " + "\U{E2}\U{80}\U{94} some regions are missing!"

  const WARNING := "[WARN]" + WARNING_TEXT + "\r\n"

  function PrintedRam(d: KernelMemoryDescriptor): nat {
    if NonEmpty(d) && d.ty != 11 && d.ty != 12 then d.SizeBytes() else 0
  }

  function PrintedUsable(d: KernelMemoryDescriptor): nat {
    if NonEmpty(d) && d.ty == 7 then d.SizeBytes() else 0
  }

  function PrintedReclaimable(d: KernelMemoryDescriptor): nat {
    if NonEmpty(d) && (1 <= d.ty <= 4 || d.ty == 9) then d.SizeBytes() else 0
  }

  /** The report's totals, computed by code that shares nothing with the parser. */
  datatype Totals = Totals(total: U64, usable: U64, reclaimable: U64)
  {
    function Plus(d: KernelMemoryDescriptor): Totals {
      Totals(SatAdd(total, PrintedRam(d)), SatAdd(usable, PrintedUsable(d)),
             SatAdd(reclaimable, PrintedReclaimable(d)))
    }
  }

  function TotalsOf(entries: seq<KernelMemoryDescriptor>): Totals {
    Totals(Chain(PrintedRam, entries), Chain(PrintedUsable, entries), Chain(PrintedReclaimable, entries))
  }

  /** Whole MiB, rounded down. */
  function Mib(bytes: U64): (m: nat)
    ensures m * 0x10_0000 <= bytes < (m + 1) * 0x10_0000
  {
    bytes / 1024 / 1024
  }

  function Summary(t: Totals): string {
    "[INFO] RAM: " + Numeral(Mib(t.total), 10) + " MiB total | " + Numeral(Mib(t.usable), 10) + " MiB usable | "
    + Numeral(Mib(t.reclaimable), 10) + " MiB reclaimable\r\n"
  }

  function Report(entries: seq<KernelMemoryDescriptor>, truncated: bool): string {
    Header(|entries|, truncated) + Table(entries) + (if truncated then WARNING else "")
    + Summary(TotalsOf(entries))
  }

  lemma {:induction false} RowsSnoc<T>(text: (nat, T) -> string, s: seq<T>, first: nat, k: nat)
    requires k < |s|
    ensures Rows(text, s[..k + 1], first) == Rows(text, s[..k], first) + text(first + k, s[k])
    decreases k
  {
    if k == 0 {
      assert s[..1][1..] == [];
    } else {
      RowsSnoc(text, s[1..], first + 1, k - 1);
      assert s[..k + 1][1..] == s[1..][..k];
      assert s[..k][1..] == s[1..][..k - 1];
    }
  }

  // ---- The code ----

  const HEX: string := "0123456789abcdef"

  /** `val & 0xf` and `val >> 4`: one step of division by 16. */
  method SplitNibble(val: nat) returns (low: nat, rest: nat)
    ensures low == val % 16 && rest == val / 16
  {
    NibbleMask(val);
    low, rest := BitAnd(val, 0xF), ShiftRight(val, 4);
  }

  method HexDigit(d: nat) returns (c: char)
    requires d < 16
    ensures c == DigitChar(d)
  {
    c := HEX[d];
  }

  /** After `i` digits have been split off, what is left of the number prints as what is left of the text. */
  ghost predicate DigitsPending(text: string, m: nat, base: nat, i: nat)
    requires IsRadix(base)
  {
    i <= |text| && text[..|text| - i] == if m == 0 then "" else Numeral(m, base)
  }

  lemma NextDigit(text: string, m: nat, base: nat, i: nat)
    requires IsRadix(base) && m > 0 && DigitsPending(text, m, base, i)
    ensures i < |text| && text[|text| - 1 - i] == DigitChar(m % base)
    ensures DigitsPending(text, m / base, base, i + 1)
  {
    var front, last := Numeral(m, base), m % base;
    DigitsRoundTrip(last, '0');
    assert front[|front| - 1] == DigitChar(last);
    assert text[..|text| - i][|front| - 1] == text[|text| - 1 - i];
    assert text[..|text| - (i + 1)] == text[..|text| - i][..|front| - 1];
  }

  /** The boot-side serial port: `written` is the text output so far, in order. */
  class Console {
    var written: string

    constructor ()
      ensures written == ""
    {
      written := "";
    }

    method WriteByte(c: char)
      modifies this
      ensures written == old(written) + [c]
    {
      written := written + [c];
    }

    method WriteStr(s: string)
      modifies this
      ensures written == old(written) + s
    {
      for i := 0 to |s|
        invariant written == old(written) + s[..i]
      {
        WriteByte(s[i]);
      }
    }

    /** Digits are produced least significant first; this sends the buffer last digit first. */
    method WriteBackwards(buf: array<char>, n: nat, ghost text: string)
      requires n == |text| <= buf.Length
      requires forall k :: 0 <= k < n ==> buf[k] == text[n - 1 - k]
      modifies this
      ensures written == old(written) + text
    {
      for j := n downto 0
        invariant written == old(written) + text[..n - j]
      {
        assert text[..n - j] == text[..n - 1 - j] + [buf[j]];
        WriteByte(buf[j]);
      }
    }

    /** `serial_write_usize`: at most 20 digits for a 64-bit value, so the buffer is never overrun. */
    method WriteUsize(n: U64)
      modifies this
      ensures written == old(written) + Numeral(n, 10)
    {
      if n == 0 {
        assert Numeral(0, 10) == "0";
        WriteStr("0");
        return;
      }
      var buf := new char[20](_ => '0');
      var i, m := 0, n;
      ghost var text := Numeral(n, 10);
      WordsFitBuffers(n);
      while m > 0
        invariant written == old(written) && DigitsPending(text, m, 10, i)
        invariant forall k :: 0 <= k < i ==> buf[k] == text[|text| - 1 - k]
      {
        NextDigit(text, m, 10, i);
        buf[i] := ('0' as int + m % 10) as char;
        m := m / 10;
        i := i + 1;
      }
      WriteBackwards(buf, i, text);
    }

    /** `serial_write_usize_hex`: nibbles by mask and shift, at most 16 of them. */
    method WriteUsizeHex(n: U64)
      modifies this
      ensures written == old(written) + Numeral(n, 16)
    {
      var buf := new char[16](_ => '0');
      var i, val := 0, n;
      if val == 0 {
        assert Numeral(0, 16) == "0";
        WriteStr("0");
        return;
      }
      ghost var text := Numeral(n, 16);
      WordsFitBuffers(n);
      while val > 0
        invariant written == old(written) && DigitsPending(text, val, 16, i)
        invariant forall k :: 0 <= k < i ==> buf[k] == text[|text| - 1 - k]
      {
        NextDigit(text, val, 16, i);
        var low, rest := SplitNibble(val);
        buf[i] := HexDigit(low);
        val := rest;
        i := i + 1;
      }
      WriteBackwards(buf, i, text);
    }
  }

  method PrintHeader(out: Console, count: nat, truncated: bool)
    requires count <= MAX_MEMORY_DESCRIPTORS
    modifies out
    ensures out.written == old(out.written) + Header(count, truncated)
  {
    out.WriteStr("[INFO] Physical memory map (");
    out.WriteUsize(count);
    out.WriteStr(" entries");
    EmptyEnds(out.written);
    if truncated {
      out.WriteStr(", TRUNCATED");
    }
    out.WriteStr("):\r\n");
    Regroup6(old(out.written), "[INFO] Physical memory map (", Numeral(count, 10), " entries",
               if truncated then ", TRUNCATED" else "", "):\r\n");
  }

  method PrintSize(out: Console, size: U64)
    modifies out
    ensures out.written == old(out.written) + SizeText(size)
  {
    var kib := size / 1024;
    if kib >= 1024 {
      out.WriteUsize(kib / 1024);
      out.WriteStr(" MiB");
      Regroup3(old(out.written), Numeral(kib / 1024, 10), " MiB");
    } else {
      out.WriteUsize(kib);
      out.WriteStr(" KiB");
      Regroup3(old(out.written), Numeral(kib, 10), " KiB");
    }
  }

  method PrintLine(out: Console, i: nat, desc: KernelMemoryDescriptor)
    requires i <= MAX_MEMORY_DESCRIPTORS
    modifies out
    ensures out.written == old(out.written) + Line(i, desc)
  {
    var size := desc.SizeBytes();
    var end := SatAdd(desc.physStart, size);
    out.WriteStr("  [");
    out.WriteUsize(i);
    out.WriteStr("] 0x");
    out.WriteUsizeHex(desc.physStart);
    out.WriteStr(" - 0x");
    out.WriteUsizeHex(end);
    out.WriteStr("  ");
    Regroup8(old(out.written), "  [", Numeral(i, 10), "] 0x", Numeral(desc.physStart, 16), " - 0x", Numeral(end, 16),
             "  ");
    PrintSize(out, size);
    out.WriteStr("  ");
    out.WriteStr(MemoryTypeLabel(desc.ty));
    out.WriteStr("\r\n");
    Regroup6(old(out.written), Extent(i, desc), SizeText(size), "  ", MemoryTypeLabel(desc.ty), "\r\n");
  }

  /** One round of the table's loop. */
  method PrintEntry(out: Console, i: nat, desc: KernelMemoryDescriptor, t: Totals) returns (t': Totals)
    requires i <= MAX_MEMORY_DESCRIPTORS
    modifies out
    ensures out.written == old(out.written) + EntryText(i, desc)
    ensures t' == t.Plus(desc)
  {
    t' := t;
    if desc.pageCount == 0 {
      EmptyEnds(out.written);
      return;
    }
    var size := desc.SizeBytes();
    if !IsMmio(desc.ty) {
      t' := t'.(total := SatAdd(t'.total, size));
    }
    if IsUsableAfterBoot(desc.ty) {
      if desc.ty == CONVENTIONAL {
        t' := t'.(usable := SatAdd(t'.usable, size));
      } else {
        t' := t'.(reclaimable := SatAdd(t'.reclaimable, size));
      }
    }
    PrintLine(out, i, desc);
  }

  lemma TotalsSnoc(entries: seq<KernelMemoryDescriptor>, k: nat)
    requires k < |entries|
    ensures TotalsOf(entries[..k + 1]) == TotalsOf(entries[..k]).Plus(entries[k])
  {
    assert entries[..k + 1] == entries[..k] + [entries[k]];
    ChainSnoc(PrintedRam, entries[..k], entries[k]);
    ChainSnoc(PrintedUsable, entries[..k], entries[k]);
    ChainSnoc(PrintedReclaimable, entries[..k], entries[k]);
  }

  lemma TableSnoc(entries: seq<KernelMemoryDescriptor>, k: nat)
    requires k < |entries|
    ensures Table(entries[..k + 1]) == Table(entries[..k]) + EntryText(k, entries[k])
  {
    RowsSnoc(EntryText, entries, 0, k);
  }

  method PrintTable(out: Console, entries: seq<KernelMemoryDescriptor>) returns (t: Totals)
    requires |entries| <= MAX_MEMORY_DESCRIPTORS
    modifies out
    ensures out.written == old(out.written) + Table(entries)
    ensures t == TotalsOf(entries)
  {
    t := Totals(0, 0, 0);
    for i := 0 to |entries|
      invariant out.written == old(out.written) + Table(entries[..i])
      invariant t == TotalsOf(entries[..i])
    {
      TableSnoc(entries, i);
      TotalsSnoc(entries, i);
      t := PrintEntry(out, i, entries[i], t);
      Regroup3(old(out.written), Table(entries[..i]), EntryText(i, entries[i]));
    }
    assert entries[..|entries|] == entries;
  }

  method PrintSummary(out: Console, t: Totals)
    modifies out
    ensures out.written == old(out.written) + Summary(t)
  {
    out.WriteStr("[INFO] RAM: ");
    out.WriteUsize(t.total / 1024 / 1024);
    out.WriteStr(" MiB total | ");
    out.WriteUsize(t.usable / 1024 / 1024);
    out.WriteStr(" MiB usable | ");
    out.WriteUsize(t.reclaimable / 1024 / 1024);
    out.WriteStr(" MiB reclaimable\r\n");
    Regroup8(old(out.written), "[INFO] RAM: ", Numeral(Mib(t.total), 10), " MiB total | ", Numeral(Mib(t.usable), 10),
           " MiB usable | ", Numeral(Mib(t.reclaimable), 10), " MiB reclaimable\r\n");
  }

  /** `print_memory_map`: header, region table with running totals, warning and summary. */
  method PrintMemoryMap(out: Console, source: KernelMemoryMap)
    requires source.Valid()
    modifies out
    ensures out.written == old(out.written) + Report(source.Entries(), source.truncated)
  {
    PrintHeader(out, source.count, source.truncated);
    var t := PrintTable(out, source.Entries());
    ghost var warning := if source.truncated then WARNING else "";
    EmptyEnds(out.written);
    if source.truncated {
      out.WriteStr(WARNING);
    }
    PrintSummary(out, t);
    Regroup5(old(out.written), Header(source.count, source.truncated), Table(source.Entries()), warning, Summary(t));
  }

  // ---- The report against the parser ----

  /** The report's weights are the kernel's, with nothing for an empty entry. */
  lemma PrintedWeights(d: KernelMemoryDescriptor)
    ensures PrintedRam(d) == if NonEmpty(d) then RamOrFirmwareBytes(d) else 0
    ensures PrintedUsable(d) == if NonEmpty(d) then UsableBytes(d) else 0
    ensures PrintedReclaimable(d) == if NonEmpty(d) then ReclaimableBytes(d) else 0
  {
  }

  /** The report's figures, taken over the entries it does not skip. */
  lemma {:induction false} TotalsSkipEmpties(entries: seq<KernelMemoryDescriptor>)
    ensures var t, kept := TotalsOf(entries), Filter(NonEmpty, entries);
      && t.total == Chain(RamOrFirmwareBytes, kept)
      && t.usable == Chain(UsableBytes, kept)
      && t.reclaimable == Chain(ReclaimableBytes, kept)
  {
    forall d: KernelMemoryDescriptor
      ensures PrintedRam(d) == if NonEmpty(d) then RamOrFirmwareBytes(d) else 0
      ensures PrintedUsable(d) == if NonEmpty(d) then UsableBytes(d) else 0
      ensures PrintedReclaimable(d) == if NonEmpty(d) then ReclaimableBytes(d) else 0
    {
      PrintedWeights(d);
    }
    ChainDropsZeros(RamOrFirmwareBytes, PrintedRam, NonEmpty, entries);
    ChainDropsZeros(UsableBytes, PrintedUsable, NonEmpty, entries);
    ChainDropsZeros(ReclaimableBytes, PrintedReclaimable, NonEmpty, entries);
  }

  /**
   * On every map the parser accepts, the report's figures are the parser's: usable and reclaimable bytes equal, the
   * total larger by exactly the firmware-runtime bytes.
   */
  lemma {:induction false} ReportRefinesParser(entries: seq<KernelMemoryDescriptor>, truncated: bool)
    requires ParseOf(entries, truncated).Ok?
    ensures var m, t := ParseOf(entries, truncated).value, TotalsOf(entries);
      && t.usable == m.stats.usableBytes
      && t.reclaimable == m.stats.reclaimableBytes
      && t.total == SatAdd(m.stats.totalBytes, Cap(Sum(FirmwareBytes, m.regions)))
  {
    var kept := Filter(NonEmpty, entries);
    TotalsSkipEmpties(entries);
    ChainSplits(RamOrFirmwareBytes, RamBytes, FirmwareBytes, kept);
    ChainIsCappedSum(FirmwareBytes, kept);
  }
}
