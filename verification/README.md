# Ferrous Kernel: verified model of the boot-time memory map, serial port, map publication and exception entry

This project models how Ferrous learns its physical memory layout and how it talks and faults before anything else
works, and proves properties of that model in Dafny 4.11. `dafny verify dfyconfig.toml` checks everything.

| file | what it models |
|---|---|
| `Words.dfy`, `Sequences.dfy`, `StableSort.dfy`, `Saturation.dfy`, `Wrappers.dfy` | 64-bit arithmetic, bit masks and shifts, folds and filters, stable sorting, saturating totals |
| `BootMemory.dfy` | the bootloader's heap-based map (boot/src/memory.rs) |
| `BootInfo.dfy` | conversion into the 256-slot ABI map (boot/src/boot_info.rs) |
| `KernelMemory.dfy` | the ABI map and the kernel's parser (lib/boot-info/src/lib.rs) |
| `Handoff.dfy`, `DisjointRegions.dfy` | the three stages composed: regions, accounting, exactness |
| `Numerals.dfy`, `BootReport.dfy`, `ReportReader.dfy` | the serial report of the map (boot/src/main.rs) and a reader that undoes it |
| `BootPath.dfy` | what the boot path runs, from the firmware list to the text on the serial line |
| `Newlines.dfy`, `Uart.dfy`, `SerialDriver.dfy` | the 16550 driver against a device with its own schedule (kernel/src/drivers/serial.rs) |
| `Publication.dfy` | the global map and its flag (kernel/src/memory/mod.rs) |
| `Idt.dfy` | gates, stubs and delivery of an exception (boot/src/main.rs) |

Where the source changes state, the model does too: `Parse`, `FromUefiMemoryMap`, `ToKernelMemoryMap`, the report
printer, the serial driver, `GlobalMap` and `IdtInit` are methods with loops over arrays and fields. Each is proved
against a function over sequences, and the results below are about those functions.

Arithmetic is that of the release profile: additions into totals saturate, and `page_count * 4096` wraps at 2^64. No
precondition keeps page counts small; the lemmas say exactly what survives when they are not. The firmware's map is
that of section 7.2.3 of the UEFI Specification 2.10; exception delivery follows sections 6.13 and 6.14 of the Intel
SDM Volume 3A.

The tables in the code use named constants, as the source does. The weights, labels, registers and bytes in the
properties are numbers, so a wrong table or constant does not cancel out.

Main results: `EndToEnd`, `ExactIffNothingLost`, `AccountingAgrees` and `ReportAgreesWithBoot`, `BootTotalsExact`,
`KernelTotalsExact` and `RegionsStayApart`, `ReportReads` and `SerialLineTellsTheMap`, `SerialSafety` and
`SafetyWithoutInit`, `NoPartialMap` and `GetCanFinish`, `ExceptionDelivery`.

Where the code and its documentation differ, the model follows the code:

- lib/boot-info/src/lib.rs:24-25 says the kernel halts on a truncated map. `parse` accepts it and records the flag
  (`EndToEndAnyLength`; `TruncatedMapIsAccepted` gives the maps).
- kernel/src/drivers/serial.rs:104 says `init` disables all UART interrupts. It does not when DLAB is set on entry and
  an interrupt was enabled, because the write lands in the divisor latch (`InterruptsOffIff`;
  `InterruptsCanStayOn` gives the state).
- lib/boot-info/src/lib.rs:316 leaves firmware runtime memory out of the total; the bootloader and the report count it.
  `AccountingAgrees` and `ReportRefinesParser` state the difference exactly.
- kernel/src/arch/x86_64/idt.rs:53 lists vector 28 among those with an error code; the stubs and the mask do not
  (`StubsMatchMask`).
- boot/src/boot_info.rs:199 takes the byte size back to the page count; that fails from 2^52 pages up, and such lists
  are accepted (`ExactIffSizesFit`; `WrappedSizeIsLost` gives one).
- kernel/src/main.rs:19-22 expects garbled output from a panic before `init`. With DLAB set on entry there is none at
  all: the text goes to the divisor latch (`SafetyWithoutInit`).
- kernel/src/memory/mod.rs:10-20 has the kernel parse the map it is handed; nothing in the repository calls `init` yet.
  The boot path hands the map to the report instead (`BootToReport`); `BootToKernel` is the documented use.
- boot/src/main.rs:1244 shows padded fields; the code pads nothing.

## Model

| member | source | states |
|---|---|---|
| Words.PagesRoundTrip | boot/src/boot_info.rs:199 | pages to bytes to pages keeps a count exactly when it is below 2^52, and otherwise its remainder by 2^52; a second trip loses nothing more |
| Words.LowMaskIsMod | lib/boot-info/src/lib.rs:412 | masking with 2^k - 1, bit by bit, is remainder by 2^k |
| Words.ShiftIsDiv | boot/src/main.rs:603 | shifting right by k, bit by bit, is division by 2^k |
| Saturation.ChainIsCappedSum | boot/src/memory.rs:147-156 | the chain of saturating additions that all three accounting loops are proved to compute ends at the true sum, capped once at 2^64 - 1 |
| Saturation.ChainIgnoresOrder | boot/src/memory.rs:147-161 | such a total is the same for every ordering of its terms; `TotalsIgnoreOrder` is this for the bootloader's two |
| Saturation.ChainDropsZeros | lib/boot-info/src/lib.rs:405-409 | skipping terms, or counting them as zero, gives the same total; the parser skips empty entries, the report's totals count them as nothing |
| Saturation.ChainSplits | lib/boot-info/src/lib.rs:334-336 | two totals kept apart and added with saturation are one total of both, whichever of them saturates; `total_usable_after_boot` is such a sum |
| StableSort.SortIsStable | boot/src/memory.rs:161 | the sort returns a sorted permutation in which equal starts keep their order |
| StableSort.StableOrderIsUnique | boot/src/memory.rs:161 | sortedness and stability determine the result, so any correct stable sort gives this one |
| StableSort.FilterOfSort | boot/src/memory.rs:161 | sorting and then dropping entries is dropping them and then sorting |
| BootMemory.FromUefiMemoryMap | boot/src/memory.rs:134-168 | the loop and sort produce the regions in stable start order; each total is its chain of saturating additions and equals the capped true sum, over every type but 11 and 12 for the first and types 1 to 4, 7 and 9 for the second |
| BootMemory.RegionTypesAreNumbered | boot/src/memory.rs:46-69 | the type table gives every 32-bit code the type of that number, and unknown for 13 and from 15 up |
| BootMemory.TotalsIgnoreOrder | boot/src/memory.rs:141-161 | totals taken before the sort are right after it, and for any permutation of the firmware list |
| BootInfo.ToKernelMemoryMap | boot/src/boot_info.rs:185-204 | entries are the images of the first min(n, 256) regions in order, the flag is up if and only if n > 256, unused slots stay zero |
| KernelMemory.Parse | lib/boot-info/src/lib.rs:396-459 | the one-pass loop over the array returns what the specification over the entry sequence says: error, regions and statistics |
| KernelMemory.ParseCharacterised | lib/boot-info/src/lib.rs:405-458 | UnalignedBase(i, p) if and only if i is the least non-empty misaligned index; Empty if and only if all entries are empty; otherwise the order-preserving filter |
| KernelMemory.ParseIsIdempotent | lib/boot-info/src/lib.rs:396-459 | parsing the regions of a parsed map gives the same map, totals and counts included |
| KernelMemory.SkippedEntriesWeighNothing | lib/boot-info/src/lib.rs:405-441 | the parsed totals are the saturating chains over all entries of the source, empty ones included |
| KernelMemory.StatsAgreeWithQueries | lib/boot-info/src/lib.rs:447-495 | for every parsed map: cached figures equal the capped sums over what `usable_regions` and `reclaimable_regions` return, counts are their lengths, usable-after-boot never exceeds the total; by number, the total is over every type but 5, 6, 11 and 12, the usable regions are those of type 7, the reclaimable ones those of types 1 to 4, 7 and 9 |
| Handoff.TypeRoundTrip | boot/src/boot_info.rs:232-252 | a type code comes back as itself for the 14 named types and as RESERVED otherwise; its kernel kind always survives |
| Handoff.CodesAreNumbered | boot/src/boot_info.rs:232-252 | each bootloader type goes out under its number, `Usable` as 7 and unknown as 0 |
| Handoff.KindsAgree | lib/boot-info/src/lib.rs:290-309 | each of the kernel's nine kinds holds for exactly the codes the bootloader's separate table gives the matching types |
| Handoff.UsabilityAgrees | boot/src/memory.rs:71-82 | the bootloader's, the ABI's and the kernel's usability tests agree on every type code, and accept 1 to 4, 7 and 9 |
| Handoff.AbiImageKeeps | boot/src/boot_info.rs:195-201 | start, attribute, kind and byte size of an entry survive to the ABI; the page count does if and only if it is below 2^52 |
| Handoff.BootToKernel | kernel/src/memory/mod.rs:10-20 | the documented use of the handed-over map: after the bootloader's two stages, `parse` returns the kernel's verdict on the firmware list |
| Handoff.KeptComeFirst | boot/src/boot_info.rs:189-204 | the map is a stable permutation, at most 256 entries are kept, and every kept start is at most every dropped start |
| Handoff.EndToEndAnyLength | boot/src/boot_info.rs:189-204 | for a list of any length: accepted if and only if the kept entries are acceptable, with regions the surviving kept entries; truncation is recorded, not refused |
| Handoff.EndToEnd | lib/boot-info/src/lib.rs:396-459 | up to 256 entries: accepted if and only if some entry arrives non-empty and none of those is misaligned; the regions are all of them in stable start order |
| Handoff.ExactIffNothingLost | boot/src/boot_info.rs:189-204 | for an accepted list of any length: start, page count, attribute, kind and named type of every non-empty entry are delivered exactly if and only if all page counts are below 2^52 and every entry past the 256th in stable start order is empty |
| Handoff.ExactIffSizesFit | boot/src/memory.rs:143 | the same for an accepted list of at most 256 entries, where page counts below 2^52 are the whole condition |
| Handoff.WrappedSizeIsLost | boot/src/memory.rs:143 | a list of two aligned entries that is accepted and not delivered exactly |
| Handoff.TruncatedMapIsAccepted | boot/src/boot_info.rs:189-204 | more than 256 good regions are accepted as a map of 256 with the flag up |
| Handoff.AccountingAgrees | lib/boot-info/src/lib.rs:422-437 | kernel usable-after-boot equals the bootloader's usable memory, and kernel total plus firmware runtime equals its total, saturation included; after truncation the kernel's figures are never larger |
| DisjointRegions.SizesFitBelowEnd | boot/src/memory.rs:141-161 | regions that do not overlap and end by `hi` hold at most `hi` bytes, in any order |
| DisjointRegions.BootTotalsExact | boot/src/memory.rs:147-156 | for such a map the bootloader's totals neither wrap nor saturate and are at most the highest end |
| DisjointRegions.KernelTotalsExact | lib/boot-info/src/lib.rs:422-437 | the kernel's four figures equal the firmware's true, unbounded sizes summed over the kept entries, at most the highest end; over all entries when none was dropped |
| DisjointRegions.RegionsStayApart | lib/boot-info/src/lib.rs:467-471 | for such a map, truncated or not, each region the kernel sees ends before the next begins, and all of them by the highest end |
| Numerals.NumeralReadsBack | boot/src/main.rs:574-590 | reading the printed digits gives the number; no leading zero except for 0 itself |
| Numerals.CanonicalPrintsBack | boot/src/main.rs:592-610 | every canonical digit string is what the printer prints for its value, in both bases |
| Numerals.WordsFitBuffers | boot/src/main.rs:579-594 | a 64-bit value has at most 20 decimal and 16 hexadecimal digits, the sizes of the two buffers |
| BootReport.Console.WriteUsize | boot/src/main.rs:574-590 | the digit loop and the backward send write the decimal numeral and stay inside the buffer |
| BootReport.Console.WriteUsizeHex | boot/src/main.rs:592-610 | the mask-and-shift loop writes the base-16 numeral and stays inside the buffer |
| BootReport.PrintMemoryMap | boot/src/main.rs:1212-1276 | the output grows by the header, one line per non-empty entry, the warning if truncated, and the summary of the totals |
| BootReport.ReportRefinesParser | boot/src/main.rs:1221-1242 | on every map the parser accepts: same usable and reclaimable bytes, and a total larger by exactly the firmware-runtime bytes |
| ReportReader.LabelReads | boot/src/main.rs:1170-1189 | the label determines the exact type code for the 14 named types |
| ReportReader.LineReads | boot/src/main.rs:1244-1262 | a region line reads back to its index, start, saturated end, size and type, whatever follows it; the size is right to the printed unit, KiB below one MiB and MiB from there on |
| ReportReader.TableReads | boot/src/main.rs:1225-1263 | the whole table reads back to one row per non-empty entry, in order |
| ReportReader.ReportReads | boot/src/main.rs:1212-1276 | the text determines the entry count, the truncation flag, every row and the three totals, each right to the MiB |
| ReportReader.ReportListsParsedRegions | boot/src/main.rs:1225-1263 | for an accepted map the rows read from the text are the parsed regions, in order, with start, end, size and type |
| BootPath.BootToReport | boot/src/main.rs:472 | the boot path's three stages in order: the bootloader's map, and on the serial line the report of its first 256 entries in stable start order |
| BootPath.ReportAgreesWithBoot | boot/src/main.rs:1221-1242 | for every list, accepted by the parser or not: the report's total and usable plus reclaimable are the bootloader's total and usable memory, never more after truncation |
| BootPath.SerialLineTellsTheMap | boot/src/main.rs:1212-1276 | reading the serial text of any firmware list gives one row per kept non-empty entry in stable start order with its start, saturated end, size and named type, the truncation flag, and three totals in MiB over the kept entries (all but types 11 and 12; type 7; types 1 to 4 and 9); the first is the bootloader's for up to 256 entries and never more for a truncated list |
| Newlines.DecodeEncode | kernel/src/drivers/serial.rs:152-159 | dropping one CR before each LF restores any input; the output is longer by the number of LFs, each of which follows a CR |
| Newlines.EncodeDecode | kernel/src/drivers/serial.rs:152-159 | the streams the encoder can produce are exactly those with no LF lacking its CR |
| Newlines.EncodeConcat | kernel/src/drivers/serial.rs:152-159 | encoding distributes over concatenation of calls |
| SerialDriver.SerialPort.Init | kernel/src/drivers/serial.rs:113-132 | from any UART state with the device draining in between: a run of the protocol from start to idle; final registers, nothing of its own on the wire, old waiting bytes sent in order or discarded |
| SerialDriver.SerialPort.PollUntilReady | kernel/src/drivers/serial.rs:167-175 | returns when all that was waiting has gone out in order, and nothing else changed |
| SerialDriver.SerialPort.WriteByte | kernel/src/drivers/serial.rs:142-146 | from any UART state: the whole new state; wire plus waiting bytes grows by exactly the byte, or by nothing with DLAB set |
| SerialDriver.SerialPort.WriteStr | kernel/src/drivers/serial.rs:152-159 | from any UART state: the whole new state; wire plus waiting bytes grows by the encoded string if and only if DLAB is clear |
| SerialDriver.WriteStrIsRun | kernel/src/drivers/serial.rs:152-159 | what `WriteStr` leaves is what a run of the protocol from the same state leaves |
| SerialDriver.StepKeepsInvariant | kernel/src/drivers/serial.rs:113-175 | every step of driver, caller or device keeps the protocol invariant |
| SerialDriver.SerialSafety | kernel/src/drivers/serial.rs:113-175 | in every run from every UART state: line configured, latches untouched, wire plus waiting byte is the wire after `init` and a prefix of the encoded text, all of it between calls |
| SerialDriver.InterruptsOffIff | kernel/src/drivers/serial.rs:114-121 | interrupts are off after `init` if and only if DLAB was clear on entry or they were off already |
| SerialDriver.InterruptsCanStayOn | kernel/src/drivers/serial.rs:114-121 | an entry state from which `init` runs to its end and leaves an interrupt enabled |
| SerialDriver.SafetyWithoutInit | kernel/src/main.rs:24-32 | in every run of a driver that never ran `init`, from any UART state: what is sent is on the line, whole and in order, if and only if DLAB was clear on entry; otherwise none of it |
| SerialDriver.CallCanFinish | kernel/src/drivers/serial.rs:142-175 | no schedule wedges the driver: from every reachable state the current call can run to its end with everything sent |
| Publication.GlobalMap.Init | kernel/src/memory/mod.rs:86-105 | the flag goes up exactly on success, with the parse result in the slot; a failure changes nothing; flag and slot are those at the end of a run of the protocol |
| Publication.GlobalMap.Get | kernel/src/memory/mod.rs:111-120 | Some exactly when the flag is up, and then the stored map |
| Publication.StepKeepsInvariant | kernel/src/memory/mod.rs:86-120 | every step of the writer, of a store reaching memory, or of a reader keeps the protocol invariant |
| Publication.NoPartialMap | kernel/src/memory/mod.rs:86-120 | in every run, any number of readers reading in any order: the cells a reader has read are those of the parse result, and make up the parse result once it has them all; the flag is down before success; failure changes no cell |
| Publication.PublishCanFinish | kernel/src/memory/mod.rs:86-105 | after any run with a successful parse, the run can go on until the flag is up |
| Publication.GetTellsTheFlag | kernel/src/memory/mod.rs:111-120 | in every run: a reader that asks gets None if and only if the flag is down at that moment |
| Publication.GetCanFinish | kernel/src/memory/mod.rs:111-120 | after any run that has raised the flag, every reader can go on to get the map and read all of it, and what it reads is the parse result |
| Publication.PublishedForever | kernel/src/memory/mod.rs:107-120 | in every run: once the flag is up, it stays up and every cell stays a cell of the parse result in every later state |
| Idt.GateReassembles | boot/src/main.rs:1066-1076 | a gate's three fields reassemble to the 64-bit handler address; it is a present ring-0 interrupt gate on selector 8 |
| Idt.IdtInit | boot/src/main.rs:1104-1144 | all 256 gates are kernel interrupt gates: gate v leads to the v-th stub address for v below 32, to the shared stub otherwise |
| Idt.StubsMatchMask | boot/src/main.rs:803-834 | the stubs that pop an error code are exactly the vectors of the mask, 8, 10 to 14, 17, 21, 29 and 30, and each loads its own number |
| Idt.StubRuns | boot/src/main.rs:781-801 | a stub ends at the landing pad with vector, error code or 0, and RDX equal to the adjusted stack pointer |
| Idt.ExceptionDelivery | boot/src/main.rs:764-843 | for vectors 0 to 31, any registers and any stack: through the installed gate, the processor starts at the v-th stub with interrupts masked and other flags kept, and the handler gets the vector, the pushed error code or 0, and a pointer to the pushed frame, five quadwords below the aligned stack |
| Idt.InterruptDelivery | boot/src/main.rs:835-841 | every other vector reaches the handler with the sentinel 255, no error code and the pushed frame |

## Left out

- ToKernelMemoryMap: the memory map only; magic, version, RSDP address, framebuffer and bootloader name are plain copies.
- Parse: the running totals and counts live in one statistics value instead of four variables; `ParseEntries` is its loop and `Accumulate` the middle of the loop body.
- Parse: requires `count <= 256`, because slicing the descriptor array panics otherwise; `ToKernelMemoryMap` guarantees it.
- FromUefiMemoryMap: the library sort is represented by its result, which its promise determines; the algorithm and its in-place moves are not modelled.
- PagesToBytes: a build with overflow checks panics where the model wraps, at page counts from 2^52 up.
- PrintMemoryMap: `Console` records the text; that each byte gets to the wire is what `WriteByte` of the kernel's driver shows for the same port protocol. `PrintHeader`, `PrintEntry` and `PrintSummary` are parts of one function in the source.
- PollUntilReady: the device may stay busy for any number of polls, but a finite number; endless busy polling is covered by `SerialSafety`, which needs no such bound.
- SerialPort: reception, loopback mode, modem signals and line speed; bytes count as sent when the shift register takes them.
- GlobalMap: the caller's duty to call `init` once is a precondition, as in the source.
- NoPartialMap: memory ordering is release/acquire with a store buffer that drains in any order; a reader's reads follow its flag load and are otherwise unordered.
- IdtInit: the 32 straight-line assignments are one aggregate assignment.
- ExceptionDelivery: stops at the registers on entry to the landing pad; faults during delivery, stack switching through the IST, and the call into Rust are not modelled.
- `exit_boot_services`, console, GOP, GDT and stack setup, LGDT and LIDT: firmware calls and inline assembly.
- `pixel_format`, `is_valid`, `FramebufferInfo::size`, kind names: constants and one-line facts.
- kernel/src/arch/x86_64: mirrors of the code in boot/src/main.rs.
