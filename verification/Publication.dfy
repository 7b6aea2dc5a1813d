/** One-shot publication of the kernel's global memory map (kernel/src/memory/mod.rs). */
module Publication {
  import opened Wrappers
  import opened KernelMemory
  import opened Sequences

  // ---- The protocol cell by cell, with other processors reading ----

  /** The static slot is written and read a cell at a time: 256 descriptors, the count, the statistics. */
  datatype Cell =
    | DescriptorCell(descriptor: KernelMemoryDescriptor)
    | CountCell(count: nat)
    | StatsCell(stats: MemoryStats)

  const CELLS: nat := MAX_MEMORY_DESCRIPTORS + 2

  function Layout(m: ParsedMap): (cells: seq<Cell>)
    requires |m.regions| <= MAX_MEMORY_DESCRIPTORS
    ensures |cells| == CELLS
  {
    seq(MAX_MEMORY_DESCRIPTORS, i requires 0 <= i < MAX_MEMORY_DESCRIPTORS =>
      DescriptorCell(if i < |m.regions| then m.regions[i] else ZERO_DESC))
    + [CountCell(|m.regions|), StatsCell(m.stats)]
  }

  /** What a reader makes of a full set of cells. */
  function Assemble(cells: seq<Cell>): Option<ParsedMap> {
    if |cells| != CELLS || !cells[CELLS - 2].CountCell? || !cells[CELLS - 1].StatsCell? then None
    else
      var n := cells[CELLS - 2].count;
      if n > MAX_MEMORY_DESCRIPTORS || exists i :: 0 <= i < n && !cells[i].DescriptorCell? then None
      else Some(ParsedMap(seq(n, i requires 0 <= i < n => cells[i].descriptor), cells[CELLS - 1].stats))
  }

  lemma LayoutAssembles(m: ParsedMap)
    requires |m.regions| <= MAX_MEMORY_DESCRIPTORS
    ensures Assemble(Layout(m)) == Some(m)
  {
    assert Assemble(Layout(m)).value.regions == m.regions;
  }

  datatype WriterPc = Parsing | Storing(next: nat) | Returned | Failed

  datatype Reader = Away | SawNothing | Reading(got: map<nat, Cell>)

  /**
   * Stores leave the writer into a buffer and reach memory in any order; the release store of the flag reaches memory
   * only after every store before it. A reader that has seen the flag (acquire) reads memory afterwards, the cells in
   * any order and as often as it likes.
   */
  datatype State = State(
    memory: seq<Cell>, flag: bool, buffered: set<nat>, flagStored: bool, pc: WriterPc, readers: seq<Reader>)

  datatype Event =
    | WriterParses
    | WriterStores
    | WriterStoresFlag
    | CellArrives(i: nat)
    | FlagArrives
    | ReaderLoadsFlag(r: nat)
    | ReaderReadsCell(r: nat, i: nat)
    | ReaderReturns(r: nat)

  type Outcome = o: Result<ParsedMap, ParseError> | o.Ok? ==> |o.value.regions| <= MAX_MEMORY_DESCRIPTORS
    witness Err(Empty)

  function Start(blank: seq<Cell>, readers: nat): State {
    State(blank, false, {}, false, Parsing, seq(readers, _ => Away))
  }

  function Step(outcome: Outcome, s: State, e: Event): Option<State> {
    match e
    case WriterParses =>
      if s.pc.Parsing? then Some(s.(pc := if outcome.Ok? then Storing(0) else Failed)) else None
    case WriterStores =>
      if s.pc.Storing? && s.pc.next < CELLS then
        Some(s.(buffered := s.buffered + {s.pc.next}, pc := Storing(s.pc.next + 1)))
      else None
    case WriterStoresFlag =>
      if s.pc == Storing(CELLS) then Some(s.(flagStored := true, pc := Returned)) else None
    case CellArrives(i) =>
      if outcome.Ok? && i in s.buffered && i < CELLS && i < |s.memory| then
        Some(s.(memory := s.memory[i := Layout(outcome.value)[i]], buffered := s.buffered - {i}))
      else None
    case FlagArrives =>
      if s.flagStored && s.buffered == {} then Some(s.(flag := true)) else None
    case ReaderLoadsFlag(r) =>
      if r < |s.readers| && s.readers[r].Away? then
        Some(s.(readers := s.readers[r := if s.flag then Reading(map[]) else SawNothing]))
      else None
    case ReaderReadsCell(r, i) =>
      if r < |s.readers| && s.readers[r].Reading? && i < |s.memory| then
        Some(s.(readers := s.readers[r := Reading(s.readers[r].got[i := s.memory[i]])]))
      else None
    case ReaderReturns(r) =>
      if r < |s.readers| then Some(s.(readers := s.readers[r := Away])) else None
  }

  function Run(outcome: Outcome, s: State, events: seq<Event>): Option<State>
    decreases |events|
  {
    if events == [] then Some(s)
    else
      var s' :- Step(outcome, s, events[0]);
      Run(outcome, s', events[1..])
  }

  /** How many cells the writer has stored. */
  function Stored(pc: WriterPc): nat {
    match pc
    case Storing(k) => k
    case Returned => CELLS
    case _ => 0
  }

  /** Every cell in `got` is that cell of the map. */
  ghost predicate Tells(got: map<nat, Cell>, m: ParsedMap)
    requires |m.regions| <= MAX_MEMORY_DESCRIPTORS
  {
    forall i :: i in got ==> i < CELLS && got[i] == Layout(m)[i]
  }

  /** A reader's copy of the map, once it has read every cell. */
  function CopyOf(got: map<nat, Cell>): seq<Cell>
    requires forall i :: 0 <= i < CELLS ==> i in got
  {
    seq(CELLS, i requires 0 <= i < CELLS => got[i])
  }

  ghost predicate Invariant(outcome: Outcome, blank: seq<Cell>, s: State)
    requires |blank| == CELLS
  {
    && |s.memory| == CELLS && Stored(s.pc) <= CELLS
    && (s.flagStored <==> s.pc.Returned?)
    && (s.flag ==> s.flagStored && s.buffered == {})
    && (forall i :: i in s.buffered ==> i < Stored(s.pc))
    && (s.pc.Storing? || s.pc.Returned? ==> outcome.Ok?)
    && (s.pc.Failed? ==> outcome.Err?)
    && (forall i :: 0 <= i < CELLS ==>
          s.memory[i] == blank[i] || (outcome.Ok? && i < Stored(s.pc) && s.memory[i] == Layout(outcome.value)[i]))
    && (outcome.Ok? ==>
          forall i :: 0 <= i < Stored(s.pc) && i !in s.buffered ==> s.memory[i] == Layout(outcome.value)[i])
    && (forall r :: 0 <= r < |s.readers| && s.readers[r].Reading? ==>
          s.flag && outcome.Ok? && Tells(s.readers[r].got, outcome.value))
  }

  lemma PublishedIsWhole(outcome: Outcome, blank: seq<Cell>, s: State)
    requires |blank| == CELLS && Invariant(outcome, blank, s) && s.flag
    ensures outcome.Ok? && s.memory == Layout(outcome.value)
  {
  }

  lemma StepKeepsInvariant(outcome: Outcome, blank: seq<Cell>, s: State, e: Event)
    requires |blank| == CELLS && Invariant(outcome, blank, s) && Step(outcome, s, e).Some?
    ensures Invariant(outcome, blank, Step(outcome, s, e).value)
    ensures |Step(outcome, s, e).value.readers| == |s.readers|
  {
    if s.flag {
      PublishedIsWhole(outcome, blank, s);
    }
  }

  lemma {:induction false} RunKeepsInvariant(outcome: Outcome, blank: seq<Cell>, s: State, events: seq<Event>)
    requires |blank| == CELLS && Invariant(outcome, blank, s) && Run(outcome, s, events).Some?
    ensures Invariant(outcome, blank, Run(outcome, s, events).value)
    ensures |Run(outcome, s, events).value.readers| == |s.readers|
    decreases |events|
  {
    if events != [] {
      StepKeepsInvariant(outcome, blank, s, events[0]);
      RunKeepsInvariant(outcome, blank, Step(outcome, s, events[0]).value, events[1..]);
    }
  }

  /**
   * Over every run, with any number of readers and any order of arrival and of reading: whoever holds a reference has
   * read cells of the parse result only, and has the parse result itself once it has read them all; the flag is down
   * until `init` has succeeded; a failed `init` changes no cell.
   */
  lemma {:induction false} NoPartialMap(outcome: Outcome, blank: seq<Cell>, readers: nat, events: seq<Event>, r: nat)
    requires |blank| == CELLS && Run(outcome, Start(blank, readers), events).Some?
    ensures var s := Run(outcome, Start(blank, readers), events).value;
      && (r < |s.readers| && s.readers[r].Reading? ==>
            && outcome.Ok? && Tells(s.readers[r].got, outcome.value)
            && ((forall i :: 0 <= i < CELLS ==> i in s.readers[r].got) ==>
                  Assemble(CopyOf(s.readers[r].got)) == Some(outcome.value)))
      && (s.flag ==> s.pc.Returned? && outcome.Ok? && s.memory == Layout(outcome.value))
      && (outcome.Err? ==> !s.flag && s.memory == blank)
  {
    var s := Run(outcome, Start(blank, readers), events).value;
    RunKeepsInvariant(outcome, blank, Start(blank, readers), events);
    if outcome.Ok? {
      LayoutAssembles(outcome.value);
      if r < |s.readers| && s.readers[r].Reading? && forall i :: 0 <= i < CELLS ==> i in s.readers[r].got {
        assert CopyOf(s.readers[r].got) == Layout(outcome.value);
      }
    }
  }

  lemma {:induction false} RunConcat(outcome: Outcome, s: State, a: seq<Event>, b: seq<Event>)
    ensures Run(outcome, s, a + b)
         == if Run(outcome, s, a).Some? then Run(outcome, Run(outcome, s, a).value, b) else None
    decreases |a|
  {
    if a == [] {
      assert a + b == b;
    } else {
      assert (a + b)[1..] == a[1..] + b;
      if Step(outcome, s, a[0]).Some? {
        RunConcat(outcome, Step(outcome, s, a[0]).value, a[1..], b);
      }
    }
  }

  lemma {:induction false} FlagFreezesMemory(outcome: Outcome, blank: seq<Cell>, s: State, events: seq<Event>)
    requires |blank| == CELLS && Invariant(outcome, blank, s) && s.flag && Run(outcome, s, events).Some?
    ensures Run(outcome, s, events).value.flag && Run(outcome, s, events).value.memory == s.memory
    decreases |events|
  {
    if events != [] {
      StepKeepsInvariant(outcome, blank, s, events[0]);
      FlagFreezesMemory(outcome, blank, Step(outcome, s, events[0]).value, events[1..]);
    }
  }

  /** In every run: once the flag is up, it stays up and no cell changes, whatever happens later. */
  lemma {:induction false} PublishedForever(
      outcome: Outcome, blank: seq<Cell>, readers: nat, before: seq<Event>, later: seq<Event>)
    requires |blank| == CELLS && Run(outcome, Start(blank, readers), before + later).Some?
    ensures Run(outcome, Start(blank, readers), before).Some?
    ensures var s, t := Run(outcome, Start(blank, readers), before).value,
                        Run(outcome, Start(blank, readers), before + later).value;
      s.flag ==> t.flag && t.memory == s.memory && outcome.Ok? && s.memory == Layout(outcome.value)
  {
    RunConcat(outcome, Start(blank, readers), before, later);
    RunKeepsInvariant(outcome, blank, Start(blank, readers), before);
    var s := Run(outcome, Start(blank, readers), before).value;
    if s.flag {
      PublishedIsWhole(outcome, blank, s);
      FlagFreezesMemory(outcome, blank, s, later);
    }
  }

  // ---- Publication comes about ----

  /** How many stores the writer has before it; the flag's is the last. */
  function StoresLeft(pc: WriterPc): nat {
    match pc
    case Parsing => CELLS + 2
    case Storing(k) => if k <= CELLS then CELLS + 1 - k else 0
    case _ => 0
  }

  /** What the writer or the store buffer does next. */
  lemma NextStep(outcome: Outcome, blank: seq<Cell>, s: State) returns (e: Event)
    requires |blank| == CELLS && Invariant(outcome, blank, s) && outcome.Ok? && !s.flag
    ensures Step(outcome, s, e).Some?
    ensures var t := Step(outcome, s, e).value;
      || StoresLeft(t.pc) < StoresLeft(s.pc)
      || (t.pc == s.pc && |t.buffered| < |s.buffered|)
      || (t.pc == s.pc && t.buffered == s.buffered && t.flag)
  {
    e := FlagArrives;
    if s.pc.Parsing? {
      e := WriterParses;
    } else if s.pc.Storing? {
      e := if s.pc.next < CELLS then WriterStores else WriterStoresFlag;
    } else if s.buffered != {} {
      var i :| i in s.buffered;
      e := CellArrives(i);
    }
  }

  lemma {:induction false} WriterFinishes(outcome: Outcome, blank: seq<Cell>, s: State) returns (events: seq<Event>)
    requires |blank| == CELLS && Invariant(outcome, blank, s) && outcome.Ok?
    ensures Run(outcome, s, events).Some? && Run(outcome, s, events).value.flag
    decreases StoresLeft(s.pc), |s.buffered|, !s.flag
  {
    events := [];
    if !s.flag {
      var e := NextStep(outcome, blank, s);
      StepKeepsInvariant(outcome, blank, s, e);
      var rest := WriterFinishes(outcome, blank, Step(outcome, s, e).value);
      events := [e] + rest;
      assert events[1..] == rest;
    }
  }

  /** Whatever has happened so far, a successful parse can still be published: no run gets stuck. */
  lemma {:induction false} PublishCanFinish(outcome: Outcome, blank: seq<Cell>, readers: nat, before: seq<Event>)
    returns (later: seq<Event>)
    requires |blank| == CELLS && outcome.Ok? && Run(outcome, Start(blank, readers), before).Some?
    ensures Run(outcome, Start(blank, readers), before + later).Some?
    ensures Run(outcome, Start(blank, readers), before + later).value.flag
  {
    RunKeepsInvariant(outcome, blank, Start(blank, readers), before);
    later := WriterFinishes(outcome, blank, Run(outcome, Start(blank, readers), before).value);
    RunConcat(outcome, Start(blank, readers), before, later);
  }

  // ---- What `get` answers ----

  /** In every run: a reader that asks is told no if and only if the flag is down at that moment. */
  lemma GetTellsTheFlag(outcome: Outcome, blank: seq<Cell>, readers: nat, before: seq<Event>, r: nat)
    requires |blank| == CELLS && r < readers && Run(outcome, Start(blank, readers), before).Some?
    requires var s := Run(outcome, Start(blank, readers), before).value; r < |s.readers| && s.readers[r].Away?
    ensures var s := Run(outcome, Start(blank, readers), before).value;
      var t := Step(outcome, s, ReaderLoadsFlag(r));
      && t.Some? && t.value == s.(readers := t.value.readers)
      && (t.value.readers[r].SawNothing? <==> !s.flag)
      && (t.value.readers[r] == Reading(map[]) <==> s.flag)
  {
    RunKeepsInvariant(outcome, blank, Start(blank, readers), before);
  }

  lemma RunCons(outcome: Outcome, s: State, e: Event, rest: seq<Event>)
    requires Step(outcome, s, e).Some?
    ensures Run(outcome, s, [e] + rest) == Run(outcome, Step(outcome, s, e).value, rest)
  {
    assert ([e] + rest)[1..] == rest;
  }

  /** A reader with a reference can read every cell from the `i`-th on, in order. */
  lemma {:induction false} ReadsOn(outcome: Outcome, s: State, r: nat, i: nat) returns (events: seq<Event>)
    requires |s.memory| == CELLS && r < |s.readers| && s.readers[r].Reading? && i <= CELLS
    requires forall k :: 0 <= k < i ==> k in s.readers[r].got
    ensures Run(outcome, s, events).Some?
    ensures var t := Run(outcome, s, events).value;
      && |t.readers| == |s.readers| && t.readers[r].Reading?
      && forall k :: 0 <= k < CELLS ==> k in t.readers[r].got
    decreases CELLS - i
  {
    events := [];
    if i < CELLS {
      var t := Step(outcome, s, ReaderReadsCell(r, i)).value;
      var rest := ReadsOn(outcome, t, r, i + 1);
      RunCons(outcome, s, ReaderReadsCell(r, i), rest);
      events := [ReaderReadsCell(r, i)] + rest;
    }
  }

  /** From a state with the flag up, reader `r`, wherever it is, can ask again and read everything. */
  lemma {:induction false} GetReadsOn(outcome: Outcome, blank: seq<Cell>, s: State, r: nat) returns (events: seq<Event>)
    requires |blank| == CELLS && Invariant(outcome, blank, s) && s.flag && r < |s.readers|
    ensures Run(outcome, s, events).Some?
    ensures var t := Run(outcome, s, events).value;
      && |t.readers| == |s.readers| && t.readers[r].Reading?
      && forall k :: 0 <= k < CELLS ==> k in t.readers[r].got
  {
    var away := Step(outcome, s, ReaderReturns(r)).value;
    var asked := Step(outcome, away, ReaderLoadsFlag(r)).value;
    var rest := ReadsOn(outcome, asked, r, 0);
    RunCons(outcome, away, ReaderLoadsFlag(r), rest);
    RunCons(outcome, s, ReaderReturns(r), [ReaderLoadsFlag(r)] + rest);
    events := [ReaderReturns(r)] + ([ReaderLoadsFlag(r)] + rest);
  }

  /** After any run that has raised the flag, every reader can get the map: the parse result, whole. */
  lemma {:induction false} GetCanFinish(
      outcome: Outcome, blank: seq<Cell>, readers: nat, before: seq<Event>, r: nat) returns (later: seq<Event>)
    requires |blank| == CELLS && r < readers && Run(outcome, Start(blank, readers), before).Some?
    requires Run(outcome, Start(blank, readers), before).value.flag
    ensures Run(outcome, Start(blank, readers), before + later).Some?
    ensures |Run(outcome, Start(blank, readers), before + later).value.readers| == readers
    ensures var reader := Run(outcome, Start(blank, readers), before + later).value.readers[r];
      && reader.Reading? && outcome.Ok?
      && (forall i :: 0 <= i < CELLS ==> i in reader.got)
      && Assemble(CopyOf(reader.got)) == Some(outcome.value)
  {
    RunKeepsInvariant(outcome, blank, Start(blank, readers), before);
    later := GetReadsOn(outcome, blank, Run(outcome, Start(blank, readers), before).value, r);
    RunConcat(outcome, Start(blank, readers), before, later);
    NoPartialMap(outcome, blank, readers, before + later, r);
    RunKeepsInvariant(outcome, blank, Start(blank, readers), before + later);
  }

  /** Some run of `init` ends with this flag and these cells in memory. */
  ghost predicate CanEnd(outcome: Outcome, blank: seq<Cell>, readers: nat, flag: bool, memory: seq<Cell>) {
    exists events ::
      var r := Run(outcome, Start(blank, readers), events);
      && r.Some? && (r.value.pc.Returned? || r.value.pc.Failed?)
      && r.value.flag == flag && r.value.memory == memory
  }

  lemma InitCanEnd(outcome: Outcome, blank: seq<Cell>, readers: nat)
    requires |blank| == CELLS
    ensures CanEnd(outcome, blank, readers, outcome.Ok?, if outcome.Ok? then Layout(outcome.value) else blank)
  {
    var events := [WriterParses];
    if outcome.Ok? {
      assert Run(outcome, Start(blank, readers), []) == Some(Start(blank, readers));
      events := PublishCanFinish(outcome, blank, readers, []);
      assert [] + events == events;
    } else {
      assert events[1..] == [];
    }
    var s := Run(outcome, Start(blank, readers), events).value;
    NoPartialMap(outcome, blank, readers, events, 0);
    assert s.pc.Returned? || s.pc.Failed?;
  }

  // ---- The code ----

  function OutcomeOf(entries: seq<KernelMemoryDescriptor>, truncated: bool): Outcome
    requires |entries| <= MAX_MEMORY_DESCRIPTORS
  {
    FilterMembers(NonEmpty, entries);
    ParseOf(entries, truncated)
  }

  class GlobalMap {
    var initialized: bool
    var memoryMap: MemoryMap?

    ghost predicate Valid()
      reads this
    {
      initialized ==> memoryMap != null && memoryMap.Valid()
    }

    /** The static slot as the protocol sees it, given what was in it before. */
    ghost function Cells(blank: seq<Cell>): seq<Cell>
      requires Valid()
      reads this, if memoryMap != null then {memoryMap.descriptors} else {}
    {
      if initialized then Layout(memoryMap.View()) else blank
    }

    constructor ()
      ensures Valid() && !initialized
    {
      initialized, memoryMap := false, null;
    }

    /**
     * `memory::init`: parse, write the slot, then raise the flag; a failed parse leaves everything alone. Flag and slot
     * end up as at the end of a run of the protocol, whatever the slot held before.
     */
    method Init(source: KernelMemoryMap) returns (r: Result<MemoryMap, ParseError>)
      requires source.Valid() && Valid() && !initialized
      modifies this
      ensures Valid() && initialized == r.Ok?
      ensures r.Ok? ==> memoryMap == r.value && ParseOf(source.Entries(), source.truncated) == Ok(r.value.View())
      ensures r.Err? ==> unchanged(this) && ParseOf(source.Entries(), source.truncated) == Err(r.error)
      ensures forall blank: seq<Cell>, readers: nat :: |blank| == CELLS ==>
                CanEnd(OutcomeOf(source.Entries(), source.truncated), blank, readers, initialized, Cells(blank))
    {
      r := Parse(source);
      if r.Ok? {
        memoryMap := r.value;
        initialized := true;
      }
      forall blank: seq<Cell>, readers: nat | |blank| == CELLS
        ensures CanEnd(OutcomeOf(source.Entries(), source.truncated), blank, readers, initialized, Cells(blank))
      {
        InitCanEnd(OutcomeOf(source.Entries(), source.truncated), blank, readers);
      }
    }

    method Get() returns (r: Option<MemoryMap>)
      requires Valid()
      ensures r.Some? <==> initialized
      ensures r.Some? ==> r.value == memoryMap
    {
      if initialized {
        r := Some(memoryMap);
      } else {
        r := None;
      }
    }
  }
}
