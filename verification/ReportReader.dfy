/** A reader for the serial memory-map report: what a person or a script can recover from the text. */
module ReportReader {
  import opened Words
  import opened Wrappers
  import opened Sequences
  import opened Numerals
  import opened KernelMemory
  import opened BootReport

  // ---- Reading pieces ----

  function Expect(lit: string, s: string): Option<string> {
    if lit <= s then Some(s[|lit|..]) else None
  }

  function DigitRun(s: string, base: nat): nat {
    if s != "" && IsDigit(s[0], base) then 1 + DigitRun(s[1..], base) else 0
  }

  lemma {:induction false} DigitRunBound(s: string, base: nat)
    ensures DigitRun(s, base) <= |s|
  {
    if s != "" {
      DigitRunBound(s[1..], base);
    }
  }

  /** The longest run of digits in front, and what follows it. */
  function ReadNumber(s: string, base: nat): Option<(nat, string)> {
    DigitRunBound(s, base);
    var k := DigitRun(s, base);
    if k == 0 then None else Some((Value(s[..k], base), s[k..]))
  }

  function WordLength(s: string): nat {
    if s == "" || s[0] == '\r' then 0 else 1 + WordLength(s[1..])
  }

  lemma {:induction false} WordLengthBound(s: string)
    ensures WordLength(s) <= |s|
  {
    if s != "" {
      WordLengthBound(s[1..]);
    }
  }

  /** Everything up to the carriage return. */
  function ReadWord(s: string): (string, string) {
    WordLengthBound(s);
    (s[..WordLength(s)], s[WordLength(s)..])
  }

  lemma ExpectReads(lit: string, rest: string)
    ensures Expect(lit, lit + rest) == Some(rest)
  {
    assert (lit + rest)[|lit|..] == rest;
  }

  predicate StartsNonDigit(s: string) {
    s != "" && DigitValue(s[0]) >= 16
  }

  lemma {:induction false} DigitRunReads(digits: string, rest: string, base: nat)
    requires AllDigits(digits, base) && base <= 16 && StartsNonDigit(rest)
    ensures DigitRun(digits + rest, base) == |digits|
  {
    if digits == "" {
      assert digits + rest == rest;
    } else {
      assert (digits + rest)[1..] == digits[1..] + rest;
      DigitRunReads(digits[1..], rest, base);
    }
  }

  lemma {:induction false} NumberReads(n: nat, base: nat, rest: string)
    requires IsRadix(base) && StartsNonDigit(rest)
    ensures ReadNumber(Numeral(n, base) + rest, base) == Some((n, rest))
  {
    var digits := Numeral(n, base);
    NumeralReadsBack(n, base);
    DigitRunReads(digits, rest, base);
    assert (digits + rest)[..|digits|] == digits;
    assert (digits + rest)[|digits|..] == rest;
  }

  lemma {:induction false} WordReads(word: string, rest: string)
    requires '\r' !in word && rest != "" && rest[0] == '\r'
    ensures ReadWord(word + rest) == (word, rest)
  {
    if word == "" {
      assert word + rest == rest;
    } else {
      assert (word + rest)[1..] == word[1..] + rest;
      WordReads(word[1..], rest);
      assert word == [word[0]] + word[1..];
      assert |ReadWord(word[1..] + rest).0| == |word[1..]|;
      assert (word + rest)[..|word|] == word;
      assert (word + rest)[|word|..] == rest;
    }
  }

  // ---- Region lines ----

  /** The label of a type, back to its number in the UEFI Specification. */
  function TypeOfLabel(name: string): Option<U32> {
    if name == "Reserved" then Some(0)
    else if name == "LoaderCode" then Some(1)
    else if name == "LoaderData" then Some(2)
    else if name == "BootServicesCode" then Some(3)
    else if name == "BootServicesData" then Some(4)
    else if name == "RuntimeServicesCode" then Some(5)
    else if name == "RuntimeServicesData" then Some(6)
    else if name == "Conventional" then Some(7)
    else if name == "Unusable" then Some(8)
    else if name == "AcpiReclaim" then Some(9)
    else if name == "AcpiNonVolatile" then Some(10)
    else if name == "Mmio" then Some(11)
    else if name == "MmioPortSpace" then Some(12)
    else if name == "PersistentMemory" then Some(14)
    else None
  }

  function NamedType(ty: U32): Option<U32> {
    if IsNamedType(ty) then Some(ty) else None
  }

  lemma EarlyLabelIsPlain(ty: U32)
    requires ty < 7
    ensures '\r' !in MemoryTypeLabel(ty)
  {
  }

  lemma LateLabelIsPlain(ty: U32)
    requires 7 <= ty
    ensures '\r' !in MemoryTypeLabel(ty)
  {
  }

  lemma FirstLabelsRead(ty: U32)
    requires ty < 5
    ensures TypeOfLabel(MemoryTypeLabel(ty)) == Some(ty)
  {
  }

  lemma MiddleLabelsRead(ty: U32)
    requires 5 <= ty < 9
    ensures TypeOfLabel(MemoryTypeLabel(ty)) == Some(ty)
  {
  }

  lemma LastLabelsRead(ty: U32)
    requires 9 <= ty
    ensures TypeOfLabel(MemoryTypeLabel(ty)) == NamedType(ty)
  {
  }

  /** The label determines the type code, for the 14 types that have a label of their own. */
  lemma LabelReads(ty: U32)
    ensures TypeOfLabel(MemoryTypeLabel(ty)) == NamedType(ty)
    ensures '\r' !in MemoryTypeLabel(ty)
  {
    if ty < 7 {
      EarlyLabelIsPlain(ty);
    } else {
      LateLabelIsPlain(ty);
    }
    if ty < 5 {
      FirstLabelsRead(ty);
    } else if ty < 9 {
      MiddleLabelsRead(ty);
    } else {
      LastLabelsRead(ty);
    }
  }

  /** A printed size: so many units of so many bytes. */
  datatype Quantity = Quantity(count: nat, unit: nat)

  /** The size is right to the unit: whole KiB below one MiB, whole MiB from there on, rounded down. */
  predicate Measures(q: Quantity, bytes: nat) {
    if bytes < 0x10_0000 then q.unit == 0x400 && q.count * 0x400 <= bytes < (q.count + 1) * 0x400
    else q.unit == 0x10_0000 && q.count * 0x10_0000 <= bytes < (q.count + 1) * 0x10_0000
  }

  function QuantityOf(bytes: nat): (q: Quantity)
    ensures Measures(q, bytes)
  {
    if bytes < 0x10_0000 then Quantity(bytes / 0x400, 0x400) else Quantity(bytes / 0x10_0000, 0x10_0000)
  }

  datatype Row = Row(index: nat, start: nat, end: nat, size: Quantity, ty: Option<U32>)

  function RowOf(i: nat, d: KernelMemoryDescriptor): Row {
    Row(i, d.physStart, SatAdd(d.physStart, d.SizeBytes()), QuantityOf(d.SizeBytes()), NamedType(d.ty))
  }

  function ReadExtent(s: string): Option<((nat, nat, nat), string)> {
    var s1 :- Expect("  [", s);
    var (i, s2) :- ReadNumber(s1, 10);
    var s3 :- Expect("] 0x", s2);
    var (start, s4) :- ReadNumber(s3, 16);
    var s5 :- Expect(" - 0x", s4);
    var (end, s6) :- ReadNumber(s5, 16);
    var s7 :- Expect("  ", s6);
    Some(((i, start, end), s7))
  }

  function ReadSize(s: string): Option<(Quantity, string)> {
    var (n, s1) :- ReadNumber(s, 10);
    if " MiB" <= s1 then Some((Quantity(n, 0x10_0000), s1[4..]))
    else
      var s2 :- Expect(" KiB", s1);
      Some((Quantity(n, 0x400), s2))
  }

  function ReadLine(s: string): Option<(Row, string)> {
    var (extent, s1) :- ReadExtent(s);
    var (size, s2) :- ReadSize(s1);
    var s3 :- Expect("  ", s2);
    var (name, s4) := ReadWord(s3);
    var s5 :- Expect("\r\n", s4);
    Some((Row(extent.0, extent.1, extent.2, size, TypeOfLabel(name)), s5))
  }

  lemma ExtentReads(i: nat, d: KernelMemoryDescriptor, rest: string)
    ensures ReadExtent(Extent(i, d) + rest)
         == Some(((i, d.physStart, SatAdd(d.physStart, d.SizeBytes())), rest))
  {
    var start, end := d.physStart, SatAdd(d.physStart, d.SizeBytes());
    var r6 := "  " + rest;
    var r5 := Numeral(end, 16) + r6;
    var r4 := " - 0x" + r5;
    var r3 := Numeral(start, 16) + r4;
    var r2 := "] 0x" + r3;
    var r1 := Numeral(i, 10) + r2;
    Regroup8("  [", Numeral(i, 10), "] 0x", Numeral(start, 16), " - 0x", Numeral(end, 16), "  ", rest);
    ExpectReads("  [", r1);
    NumberReads(i, 10, r2);
    ExpectReads("] 0x", r3);
    NumberReads(start, 16, r4);
    ExpectReads(" - 0x", r5);
    NumberReads(end, 16, r6);
    ExpectReads("  ", rest);
  }

  lemma SizeReads(size: U64, rest: string)
    ensures ReadSize(SizeText(size) + rest) == Some((QuantityOf(size), rest))
  {
    var kib := size / 1024;
    var n, unit := if kib >= 1024 then kib / 1024 else kib, if kib >= 1024 then " MiB" else " KiB";
    assert SizeText(size) + rest == Numeral(n, 10) + (unit + rest);
    NumberReads(n, 10, unit + rest);
    ExpectReads(unit, rest);
    assert kib < 1024 ==> (unit + rest)[1] == 'K';
    assert kib / 1024 == size / 0x10_0000;
  }

  /** A region line reads back to its index, bounds, size and type, whatever follows it. */
  lemma LineReads(i: nat, d: KernelMemoryDescriptor, rest: string)
    ensures ReadLine(Line(i, d) + rest) == Some((RowOf(i, d), rest))
    ensures Measures(RowOf(i, d).size, d.SizeBytes())
  {
    var r3 := "\r\n" + rest;
    var r2 := MemoryTypeLabel(d.ty) + r3;
    var r1 := "  " + r2;
    Regroup6(Extent(i, d), SizeText(d.SizeBytes()), "  ", MemoryTypeLabel(d.ty), "\r\n", rest);
    ExtentReads(i, d, SizeText(d.SizeBytes()) + r1);
    SizeReads(d.SizeBytes(), r1);
    ExpectReads("  ", r2);
    LabelReads(d.ty);
    WordReads(MemoryTypeLabel(d.ty), r3);
    ExpectReads("\r\n", rest);
  }

  // ---- The table ----

  function RowsOf(entries: seq<KernelMemoryDescriptor>, first: nat): seq<Row> {
    if entries == [] then []
    else (if NonEmpty(entries[0]) then [RowOf(first, entries[0])] else []) + RowsOf(entries[1..], first + 1)
  }

  function ReadRows(s: string): (seq<Row>, string)
    decreases |s|
  {
    match ReadLine(s)
    case None => ([], s)
    case Some((row, rest)) =>
      if |rest| >= |s| then ([], s)
      else
        var (rows, tail) := ReadRows(rest);
        ([row] + rows, tail)
  }

  lemma {:induction false} ReadRowsStep(row: Row, line: string, rest: string)
    requires ReadLine(line + rest) == Some((row, rest)) && line != ""
    ensures ReadRows(line + rest) == ([row] + ReadRows(rest).0, ReadRows(rest).1)
  {
  }

  lemma LineIsLonger(i: nat, d: KernelMemoryDescriptor)
    ensures Line(i, d) != ""
  {
    assert |Line(i, d)| >= |"\r\n"|;
  }

  /** The whole table reads back, entry by entry. */
  lemma {:induction false} TableReads(entries: seq<KernelMemoryDescriptor>, first: nat, tail: string)
    requires ReadLine(tail) == None
    ensures ReadRows(Rows(EntryText, entries, first) + tail) == (RowsOf(entries, first), tail)
    decreases |entries|
  {
    if entries == [] {
      EmptyEnds(tail);
    } else {
      var rows := Rows(EntryText, entries[1..], first + 1);
      TableReads(entries[1..], first + 1, tail);
      Regroup3(EntryText(first, entries[0]), rows, tail);
      if NonEmpty(entries[0]) {
        LineReads(first, entries[0], rows + tail);
        LineIsLonger(first, entries[0]);
        ReadRowsStep(RowOf(first, entries[0]), Line(first, entries[0]), rows + tail);
      } else {
        EmptyEnds(rows + tail);
        EmptyEnds(RowsOf(entries[1..], first + 1));
      }
    }
  }

  // ---- The whole report ----

  datatype ReportView = ReportView(
    count: nat, truncated: bool, rows: seq<Row>, totalMib: nat, usableMib: nat, reclaimableMib: nat)

  function ViewOf(entries: seq<KernelMemoryDescriptor>, truncated: bool): ReportView {
    var t := TotalsOf(entries);
    ReportView(|entries|, truncated, RowsOf(entries, 0), Mib(t.total), Mib(t.usable), Mib(t.reclaimable))
  }

  function ReadHeader(s: string): Option<((nat, bool), string)> {
    var s1 :- Expect("[INFO] Physical memory map (", s);
    var (count, s2) :- ReadNumber(s1, 10);
    var s3 :- Expect(" entries", s2);
    var truncated := s3 != "" && s3[0] == ',';
    var s4 :- Expect(if truncated then ", TRUNCATED" else "", s3);
    var s5 :- Expect("):\r\n", s4);
    Some(((count, truncated), s5))
  }

  function ReadSummary(s: string): Option<((nat, nat, nat), string)> {
    var s1 :- Expect("[INFO] RAM: ", s);
    var (total, s2) :- ReadNumber(s1, 10);
    var s3 :- Expect(" MiB total | ", s2);
    var (usable, s4) :- ReadNumber(s3, 10);
    var s5 :- Expect(" MiB usable | ", s4);
    var (reclaimable, s6) :- ReadNumber(s5, 10);
    var s7 :- Expect(" MiB reclaimable\r\n", s6);
    Some(((total, usable, reclaimable), s7))
  }

  /** A warning is a line of its own, whatever it says. */
  function ReadWarning(s: string): Option<string> {
    var s1 :- Expect("[WARN]", s);
    var (_, s2) := ReadWord(s1);
    Expect("\r\n", s2)
  }

  function ReadReport(s: string): Option<ReportView> {
    var (head, s1) :- ReadHeader(s);
    var (rows, s2) := ReadRows(s1);
    var s3 :- if head.1 then ReadWarning(s2) else Some(s2);
    var (sums, s4) :- ReadSummary(s3);
    if s4 != "" then None else Some(ReportView(head.0, head.1, rows, sums.0, sums.1, sums.2))
  }

  lemma MarkReads(truncated: bool, rest: string)
    ensures var mark := if truncated then ", TRUNCATED" else "";
      var s := mark + ("):\r\n" + rest);
      && s != "" && (s[0] == ',' <==> truncated)
      && Expect(mark, s) == Some("):\r\n" + rest)
  {
    ExpectReads(if truncated then ", TRUNCATED" else "", "):\r\n" + rest);
  }

  lemma HeaderReads(count: nat, truncated: bool, rest: string)
    ensures ReadHeader(Header(count, truncated) + rest) == Some(((count, truncated), rest))
  {
    var mark := if truncated then ", TRUNCATED" else "";
    var r4 := "):\r\n" + rest;
    var r3 := mark + r4;
    var r2 := " entries" + r3;
    var r1 := Numeral(count, 10) + r2;
    Regroup6("[INFO] Physical memory map (", Numeral(count, 10), " entries", mark, "):\r\n", rest);
    ExpectReads("[INFO] Physical memory map (", r1);
    NumberReads(count, 10, r2);
    ExpectReads(" entries", r3);
    MarkReads(truncated, rest);
    ExpectReads("):\r\n", rest);
  }

  lemma SummaryReads(t: Totals, rest: string)
    ensures ReadSummary(Summary(t) + rest) == Some(((Mib(t.total), Mib(t.usable), Mib(t.reclaimable)), rest))
  {
    var r6 := " MiB reclaimable\r\n" + rest;
    var r5 := Numeral(Mib(t.reclaimable), 10) + r6;
    var r4 := " MiB usable | " + r5;
    var r3 := Numeral(Mib(t.usable), 10) + r4;
    var r2 := " MiB total | " + r3;
    var r1 := Numeral(Mib(t.total), 10) + r2;
    Regroup8("[INFO] RAM: ", Numeral(Mib(t.total), 10), " MiB total | ", Numeral(Mib(t.usable), 10), " MiB usable | ",
         Numeral(Mib(t.reclaimable), 10), " MiB reclaimable\r\n", rest);
    ExpectReads("[INFO] RAM: ", r1);
    NumberReads(Mib(t.total), 10, r2);
    ExpectReads(" MiB total | ", r3);
    NumberReads(Mib(t.usable), 10, r4);
    ExpectReads(" MiB usable | ", r5);
    NumberReads(Mib(t.reclaimable), 10, r6);
    ExpectReads(" MiB reclaimable\r\n", rest);
  }

  lemma BracketIsNoLine(s: string)
    requires s != "" && s[0] == '['
    ensures ReadLine(s) == None
  {
    assert !("  [" <= s);
  }

  lemma AfterTable(truncated: bool, t: Totals)
    ensures var s := (if truncated then WARNING else "") + Summary(t);
      s != "" && s[0] == '['
  {
    assert Summary(t)[0] == '[';
    assert WARNING[0] == '[';
    if !truncated {
      EmptyEnds(Summary(t));
    }
  }

  lemma WarningIsOneLine()
    ensures '\r' !in WARNING_TEXT
  {
    assert '\r' !in " Memory map was truncated ";
    assert '\r' !in "\U{E2}\U{80}\U{94} some regions are missing!";
  }

  lemma WarningReads(rest: string)
    ensures ReadWarning(WARNING + rest) == Some(rest)
  {
    var r2 := "\r\n" + rest;
    var r1 := WARNING_TEXT + r2;
    Regroup4("[WARN]", WARNING_TEXT, "\r\n", rest);
    ExpectReads("[WARN]", r1);
    WarningIsOneLine();
    WordReads(WARNING_TEXT, r2);
    ExpectReads("\r\n", rest);
  }

  /** The printed number of MiB, rounded down. */
  predicate InMib(mib: nat, bytes: nat) {
    mib * 0x10_0000 <= bytes < (mib + 1) * 0x10_0000
  }

  /** The printed report determines the whole view: counts, flag, every region line, and the three totals. */
  lemma ReportReads(entries: seq<KernelMemoryDescriptor>, truncated: bool)
    ensures ReadReport(Report(entries, truncated)) == Some(ViewOf(entries, truncated))
    ensures var view, t := ViewOf(entries, truncated), TotalsOf(entries);
      InMib(view.totalMib, t.total) && InMib(view.usableMib, t.usable) && InMib(view.reclaimableMib, t.reclaimable)
  {
    var t, warning := TotalsOf(entries), if truncated then WARNING else "";
    var r2 := warning + Summary(t);
    var r1 := Table(entries) + r2;
    Regroup4(Header(|entries|, truncated), Table(entries), warning, Summary(t));
    HeaderReads(|entries|, truncated, r1);
    AfterTable(truncated, t);
    BracketIsNoLine(r2);
    TableReads(entries, 0, r2);
    if truncated {
      WarningReads(Summary(t));
    } else {
      EmptyEnds(Summary(t));
    }
    SummaryReads(t, "");
    EmptyEnds(Summary(t));
  }

  // ---- The report against the parser's regions ----

  /** Row `k` describes region `k`, and its index says where in the source that region stands. */
  ghost predicate RowsDescribe(
      rows: seq<Row>, kept: seq<KernelMemoryDescriptor>, entries: seq<KernelMemoryDescriptor>, first: nat)
  {
    && |rows| == |kept|
    && forall k :: 0 <= k < |rows| ==>
         && first <= rows[k].index < first + |entries|
         && entries[rows[k].index - first] == kept[k]
         && rows[k] == RowOf(rows[k].index, kept[k])
  }

  lemma RowsDescribeLonger(
      rows: seq<Row>, kept: seq<KernelMemoryDescriptor>, entries: seq<KernelMemoryDescriptor>, first: nat)
    requires entries != [] && RowsDescribe(rows, kept, entries[1..], first + 1)
    ensures RowsDescribe(rows, kept, entries, first)
    ensures RowsDescribe([RowOf(first, entries[0])] + rows, [entries[0]] + kept, entries, first)
  {
    forall k | 0 <= k < |rows|
      ensures entries[rows[k].index - first] == kept[k]
    {
      assert entries[1..][rows[k].index - (first + 1)] == entries[rows[k].index - first];
    }
  }

  /** The rows are the non-empty entries in order, each carrying its place in the source. */
  lemma {:induction false} RowsAreRegions(entries: seq<KernelMemoryDescriptor>, first: nat)
    ensures RowsDescribe(RowsOf(entries, first), Filter(NonEmpty, entries), entries, first)
    decreases |entries|
  {
    if entries != [] {
      RowsAreRegions(entries[1..], first + 1);
      RowsDescribeLonger(RowsOf(entries[1..], first + 1), Filter(NonEmpty, entries[1..]), entries, first);
      EmptyEnds(RowsOf(entries[1..], first + 1));
    }
  }

  /** Reading the report of an accepted map gives one row per parsed region, in order, with its start, end and type. */
  lemma ReportListsParsedRegions(entries: seq<KernelMemoryDescriptor>, truncated: bool)
    requires ParseOf(entries, truncated).Ok?
    ensures var view, regions := ReadReport(Report(entries, truncated)), ParseOf(entries, truncated).value.regions;
      && view.Some? && |view.value.rows| == |regions|
      && forall k :: 0 <= k < |regions| ==>
           && view.value.rows[k].start == regions[k].physStart
           && view.value.rows[k].end == SatAdd(regions[k].physStart, regions[k].SizeBytes())
           && Measures(view.value.rows[k].size, regions[k].SizeBytes())
           && view.value.rows[k].ty == NamedType(regions[k].ty)
  {
    ReportReads(entries, truncated);
    RowsAreRegions(entries, 0);
  }
}
