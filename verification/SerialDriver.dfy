/** The kernel's serial port driver against that device (kernel/src/drivers/serial.rs). */
module SerialDriver {
  import opened Wrappers
  import opened Uart
  import opened Newlines
  import opened Sequences

  // ---- Registers and values as the driver names them ----

  const REG_DATA: nat := 0
  const REG_IER: nat := 1
  const REG_DLL: nat := 0
  const REG_DLM: nat := 1
  const REG_FCR: nat := 2
  const REG_LCR: nat := 3
  const REG_MCR: nat := 4

  const LCR_DLAB: bv8 := 0x80
  const LCR_8N1: bv8 := 0x03
  const FCR_ENABLE_CLEAR: bv8 := 0xC7
  const MCR_DTR_RTS_AUX2: bv8 := 0x0B
  const LSR_THRE: bv8 := 0x20

  // ---- The driver one port access at a time, under every schedule ----

  datatype Access = Access(offset: nat, value: bv8)

  const INIT_WRITES: nat := 7

  /** The register writes of `init`, in order. */
  function InitWrite(step: nat): Access
    requires step < INIT_WRITES
  {
    match step
    case 0 => Access(REG_IER, 0x00)
    case 1 => Access(REG_LCR, LCR_DLAB)
    case 2 => Access(REG_DLL, 0x01)
    case 3 => Access(REG_DLM, 0x00)
    case 4 => Access(REG_LCR, LCR_8N1)
    case 5 => Access(REG_FCR, FCR_ENABLE_CLEAR)
    case _ => Access(REG_MCR, MCR_DTR_RTS_AUX2)
  }

  datatype Pc = Initialising(step: nat) | Idle | Polling | Sending

  /**
   * `sent` and `written` record what the driver has output and what its callers have passed it; `base`, what was on
   * the line before the first write.
   */
  datatype State = State(
    uart: Uart, pc: Pc, todo: seq<bv8>, sent: seq<bv8>, written: seq<bv8>, base: seq<bv8>)

  datatype Event = DeviceDrains | DriverInits | CallerWrites(s: seq<bv8>) | DriverPolls(lsr: bv8) | DriverSends

  function Start(entry: Uart): State {
    State(entry, Initialising(0), [], [], [], [])
  }

  /** A driver whose `init` is never called, as in the panic handler (kernel/src/main.rs). */
  function StartWithoutInit(entry: Uart): State {
    State(entry, Idle, [], [], [], entry.wire + entry.pending)
  }

  function WaitOrRest(todo: seq<bv8>): Pc {
    if todo == [] then Idle else Polling
  }

  function Step(s: State, e: Event): Option<State> {
    match e
    case DeviceDrains =>
      if s.uart.pending == [] then None else Some(s.(uart := s.uart.Drained(1)))
    case DriverInits =>
      if !s.pc.Initialising? || s.pc.step >= INIT_WRITES then None
      else
        var u := s.uart.Out(InitWrite(s.pc.step).offset, InitWrite(s.pc.step).value);
        if s.pc.step + 1 < INIT_WRITES then Some(s.(uart := u, pc := Initialising(s.pc.step + 1)))
        else Some(s.(uart := u, pc := Idle, base := u.wire))
    case CallerWrites(str) =>
      if !s.pc.Idle? then None
      else Some(s.(todo := Encode(str), written := s.written + str, pc := WaitOrRest(Encode(str))))
    case DriverPolls(lsr) =>
      if !s.pc.Polling? || !s.uart.MayReadLsr(lsr) then None
      else Some(s.(pc := if lsr & LSR_THRE != 0 then Sending else Polling))
    case DriverSends =>
      if !s.pc.Sending? || s.todo == [] then None
      else
        Some(s.(uart := s.uart.Out(REG_DATA, s.todo[0]), todo := s.todo[1..], sent := s.sent + [s.todo[0]],
                pc := WaitOrRest(s.todo[1..])))
  }

  function Run(s: State, events: seq<Event>): Option<State>
    decreases |events|
  {
    if events == [] then Some(s)
    else
      var s' :- Step(s, events[0]);
      Run(s', events[1..])
  }

  lemma {:induction false} RunSnoc(s: State, events: seq<Event>, e: Event)
    requires Run(s, events).Some?
    ensures Run(s, events + [e]) == Step(Run(s, events).value, e)
    decreases |events|
  {
    if events == [] {
      assert [e][1..] == [];
    } else {
      assert (events + [e])[1..] == events[1..] + [e];
      RunSnoc(Step(s, events[0]).value, events[1..], e);
    }
  }

  /** During `init`: how far the registers have got, and that nothing but old bytes can reach the wire. */
  ghost predicate InitInvariant(entry: Uart, s: State)
    requires s.pc.Initialising?
  {
    var u, k := s.uart, s.pc.step;
    && k < INIT_WRITES
    && s == Start(entry).(uart := u, pc := s.pc)
    && (k == 0 ==> u.lcr == entry.lcr && u.ier == entry.ier)
    && (k > 0 ==> u.ier == (if entry.Dlab() then entry.ier else 0))
    && (2 <= k <= 4 ==> u.lcr == 0x80)
    && (k >= 3 ==> u.dll == 1)
    && (k >= 4 ==> u.dlm == 0)
    && (k >= 5 ==> u.lcr == 0x03)
    && (k <= 5 ==> u.wire + u.pending == entry.wire + entry.pending && entry.wire <= u.wire)
    && (k >= 6 ==> u.fcr == 0xC7 && u.pending == [] && entry.wire <= u.wire <= entry.wire + entry.pending)
  }

  /** After `init`: every byte output so far is on the wire or waiting, in order and once. */
  ghost predicate RunInvariant(entry: Uart, s: State) {
    && s.uart.InitialisedFrom(entry)
    && entry.wire <= s.base <= entry.wire + entry.pending
    && s.uart.wire + s.uart.pending == s.base + s.sent
    && s.base <= s.uart.wire
    && |s.uart.pending| <= 1
    && s.sent + s.todo == Encode(s.written)
    && (s.pc.Idle? <==> s.todo == [])
    && (s.pc.Sending? ==> s.uart.pending == [])
  }

  ghost predicate Invariant(entry: Uart, s: State) {
    if s.pc.Initialising? then InitInvariant(entry, s) else RunInvariant(entry, s)
  }

  lemma DrainKeepsInvariant(entry: Uart, s: State)
    requires Invariant(entry, s) && s.uart.pending != []
    ensures Invariant(entry, s.(uart := s.uart.Drained(1)))
  {
    DrainKeepsLine(s.uart, 1);
  }

  lemma FirstWritesKeepInvariant(entry: Uart, s: State)
    requires Invariant(entry, s) && s.pc.Initialising? && s.pc.step < 3
    ensures Invariant(entry, Step(s, DriverInits).value)
  {
  }

  lemma MiddleWritesKeepInvariant(entry: Uart, s: State)
    requires Invariant(entry, s) && s.pc.Initialising? && 3 <= s.pc.step < 5
    ensures Invariant(entry, Step(s, DriverInits).value)
  {
  }

  lemma LastWritesKeepInvariant(entry: Uart, s: State)
    requires Invariant(entry, s) && s.pc.Initialising? && 5 <= s.pc.step
    ensures Invariant(entry, Step(s, DriverInits).value)
  {
    assert s.uart.wire <= s.uart.wire + s.uart.pending;
  }

  lemma InitKeepsInvariant(entry: Uart, s: State)
    requires Invariant(entry, s) && Step(s, DriverInits).Some?
    ensures Invariant(entry, Step(s, DriverInits).value)
  {
    if s.pc.step < 3 {
      FirstWritesKeepInvariant(entry, s);
    } else if s.pc.step < 5 {
      MiddleWritesKeepInvariant(entry, s);
    } else {
      LastWritesKeepInvariant(entry, s);
    }
  }

  lemma SendKeepsInvariant(entry: Uart, s: State)
    requires Invariant(entry, s) && Step(s, DriverSends).Some?
    ensures Invariant(entry, Step(s, DriverSends).value)
  {
    assert s.todo == [s.todo[0]] + s.todo[1..];
    assert s.uart.wire == s.base + s.sent;
    assert s.uart.wire + [s.todo[0]] == s.base + (s.sent + [s.todo[0]]);
  }

  lemma StepKeepsInvariant(entry: Uart, s: State, e: Event)
    requires Invariant(entry, s) && Step(s, e).Some?
    ensures Invariant(entry, Step(s, e).value)
  {
    match e {
      case DeviceDrains => DrainKeepsInvariant(entry, s);
      case DriverInits => InitKeepsInvariant(entry, s);
      case CallerWrites(str) => EncodeConcat(s.written, str);
      case DriverPolls(_) =>
      case DriverSends => SendKeepsInvariant(entry, s);
    }
  }

  lemma {:induction false} RunKeepsInvariant(entry: Uart, s: State, events: seq<Event>)
    requires Invariant(entry, s) && Run(s, events).Some?
    ensures Invariant(entry, Run(s, events).value)
    decreases |events|
  {
    if events != [] {
      StepKeepsInvariant(entry, s, events[0]);
      RunKeepsInvariant(entry, Step(s, events[0]).value, events[1..]);
    }
  }

  /**
   * Safety over every run, from every UART state: once `init` is done the line stays configured, and the wire plus
   * the waiting byte is the wire `init` left followed by a prefix of the encoded text, all of it between calls.
   */
  lemma {:induction false} SerialSafety(entry: Uart, events: seq<Event>)
    requires Run(Start(entry), events).Some?
    ensures var s := Run(Start(entry), events).value;
      && (s.pc.Initialising? ==> entry.wire <= s.uart.wire <= entry.wire + entry.pending)
      && (!s.pc.Initialising? ==>
            && s.uart.InitialisedFrom(entry) && !s.uart.Dlab()
            && entry.wire <= s.base <= entry.wire + entry.pending
            && s.uart.wire + s.uart.pending == s.base + s.sent
            && s.sent <= Encode(s.written)
            && |s.uart.pending| <= 1)
      && (s.pc.Idle? ==> s.sent == Encode(s.written) && Decode(s.sent) == s.written)
  {
    var s := Run(Start(entry), events).value;
    RunKeepsInvariant(entry, Start(entry), events);
    DecodeEncode(s.written);
    if s.pc.Initialising? && s.pc.step <= 5 {
      assert s.uart.wire <= s.uart.wire + s.uart.pending;
    }
  }

  /** `init` is documented to disable interrupts; it does so exactly when DLAB was clear or they were off already. */
  lemma {:induction false} InterruptsOffIff(entry: Uart, events: seq<Event>)
    requires Run(Start(entry), events).Some? && !Run(Start(entry), events).value.pc.Initialising?
    ensures Run(Start(entry), events).value.uart.ier == 0 <==> !entry.Dlab() || entry.ier == 0
  {
    RunKeepsInvariant(entry, Start(entry), events);
  }

  /** Every entry state lets `init` run to its end. */
  lemma {:induction false} InitFinishes(entry: Uart) returns (events: seq<Event>)
    ensures Run(Start(entry), events).Some? && Run(Start(entry), events).value.pc.Idle?
  {
    var s := Start(entry);
    events := [];
    assert Run(s, events) == Some(s);
    while s.pc.Initialising?
      invariant Run(Start(entry), events) == Some(s)
      invariant s.pc.Idle? || (s.pc.Initialising? && s.pc.step < INIT_WRITES)
      decreases if s.pc.Initialising? then INIT_WRITES - s.pc.step else 0
    {
      RunSnoc(Start(entry), events, DriverInits);
      s, events := Step(s, DriverInits).value, events + [DriverInits];
    }
  }

  /** A state `init` can find in which it leaves an interrupt enabled: DLAB set, receive interrupt on. */
  lemma {:induction false} InterruptsCanStayOn() returns (entry: Uart, events: seq<Event>)
    ensures Run(Start(entry), events).Some? && Run(Start(entry), events).value.pc.Idle?
    ensures Run(Start(entry), events).value.uart.ier == 1
  {
    entry := Uart(1, 0, 0, 0, 0x80, 0, [], []);
    events := InitFinishes(entry);
    RunKeepsInvariant(entry, Start(entry), events);
  }

  // ---- Writing without `init` ----

  /** With DLAB clear the line grows by what is sent; with DLAB set everything lands in the divisor latch. */
  ghost predicate NoInitInvariant(entry: Uart, s: State) {
    && !s.pc.Initialising?
    && s.uart == entry.(pending := s.uart.pending, wire := s.uart.wire, dll := s.uart.dll)
    && (!entry.Dlab() ==> s.uart.dll == entry.dll)
    && s.base == entry.wire + entry.pending
    && s.uart.wire + s.uart.pending == s.base + (if entry.Dlab() then [] else s.sent)
    && s.sent + s.todo == Encode(s.written)
    && (s.pc.Idle? <==> s.todo == [])
    && (s.pc.Sending? ==> s.uart.pending == [])
  }

  lemma DrainKeepsNoInitInvariant(entry: Uart, s: State)
    requires NoInitInvariant(entry, s) && s.uart.pending != []
    ensures NoInitInvariant(entry, s.(uart := s.uart.Drained(1)))
  {
    DrainKeepsLine(s.uart, 1);
  }

  lemma SendKeepsNoInitInvariant(entry: Uart, s: State)
    requires NoInitInvariant(entry, s) && Step(s, DriverSends).Some?
    ensures NoInitInvariant(entry, Step(s, DriverSends).value)
  {
    assert s.todo == [s.todo[0]] + s.todo[1..];
    assert s.base + (s.sent + [s.todo[0]]) == (s.base + s.sent) + [s.todo[0]];
    assert s.uart.wire + s.uart.pending == s.uart.wire;
  }

  lemma StepKeepsNoInitInvariant(entry: Uart, s: State, e: Event)
    requires NoInitInvariant(entry, s) && Step(s, e).Some?
    ensures NoInitInvariant(entry, Step(s, e).value)
  {
    match e {
      case DeviceDrains => DrainKeepsNoInitInvariant(entry, s);
      case CallerWrites(str) => EncodeConcat(s.written, str);
      case DriverPolls(_) =>
      case DriverSends => SendKeepsNoInitInvariant(entry, s);
    }
  }

  lemma {:induction false} RunKeepsNoInitInvariant(entry: Uart, s: State, events: seq<Event>)
    requires NoInitInvariant(entry, s) && Run(s, events).Some?
    ensures NoInitInvariant(entry, Run(s, events).value)
    decreases |events|
  {
    if events != [] {
      StepKeepsNoInitInvariant(entry, s, events[0]);
      RunKeepsNoInitInvariant(entry, Step(s, events[0]).value, events[1..]);
    }
  }

  /**
   * Every run of a driver that never ran `init`, from every UART state: as soon as it has sent anything, the text is
   * on the line, whole and in order, if and only if DLAB was clear on entry; otherwise none of it ever gets there.
   */
  lemma {:induction false} SafetyWithoutInit(entry: Uart, events: seq<Event>)
    requires Run(StartWithoutInit(entry), events).Some?
    ensures var s := Run(StartWithoutInit(entry), events).value;
      && s.sent <= Encode(s.written)
      && (s.pc.Idle? ==> s.sent == Encode(s.written))
      && s.uart.wire + s.uart.pending == entry.wire + entry.pending + (if entry.Dlab() then [] else s.sent)
      && (s.sent != [] ==>
            (s.uart.wire + s.uart.pending == entry.wire + entry.pending + s.sent <==> !entry.Dlab()))
  {
    RunKeepsNoInitInvariant(entry, StartWithoutInit(entry), events);
  }

  /** No schedule wedges the driver: from any reachable state the current call can still run to its end. */
  lemma {:induction false} CallCanFinish(entry: Uart, s: State) returns (events: seq<Event>)
    requires Invariant(entry, s) && !s.pc.Initialising?
    ensures Run(s, events).Some? && Run(s, events).value.pc.Idle?
    ensures Run(s, events).value.written == s.written && Run(s, events).value.sent == Encode(s.written)
    decreases |s.todo|, |s.uart.pending|, s.pc.Polling?
  {
    if s.pc.Idle? {
      return [];
    }
    var e := if s.pc.Sending? then DriverSends
             else if s.uart.pending != [] then DeviceDrains
             else DriverPolls(LSR_THRE);
    StepKeepsInvariant(entry, s, e);
    var rest := CallCanFinish(entry, Step(s, e).value);
    events := [e] + rest;
    assert events[1..] == rest;
  }

  // ---- What the code's calls amount to ----

  ghost predicate Reaches(s: State, t: State) {
    exists events :: Run(s, events) == Some(t)
  }

  lemma NowReaches(s: State)
    ensures Reaches(s, s)
  {
    assert Run(s, []) == Some(s);
  }

  lemma StepReaches(s: State, t: State, e: Event)
    requires Reaches(s, t) && Step(t, e).Some?
    ensures Reaches(s, Step(t, e).value)
  {
    var events :| Run(s, events) == Some(t);
    RunSnoc(s, events, e);
    assert Run(s, events + [e]) == Step(t, e);
  }

  lemma {:induction false} DrainReaches(s: State, t: State, u: Uart)
    requires Reaches(s, t) && t.uart.DrainsTo(u)
    ensures Reaches(s, t.(uart := u))
    decreases |t.uart.pending|
  {
    if u.wire == t.uart.wire {
      assert u.pending == (u.wire + u.pending)[|u.wire|..];
      assert t.uart.pending == (t.uart.wire + t.uart.pending)[|u.wire|..];
      assert t == t.(uart := u);
    } else {
      var v := t.uart.Drained(1);
      DrainKeepsLine(t.uart, 1);
      assert u.wire[|t.uart.wire|] == (u.wire + u.pending)[|t.uart.wire|];
      assert v.wire <= u.wire;
      StepReaches(s, t, DeviceDrains);
      DrainReaches(s, t.(uart := v), u);
    }
  }

  /** A register write of the code, after whatever the device did in between, is the next write of `init`. */
  lemma Issued(entry: Uart, s: State, u: Uart) returns (t: State)
    requires Reaches(Start(entry), s) && s.pc.Initialising? && s.pc.step < INIT_WRITES
    requires exists v :: s.uart.DrainsTo(v) && u == v.Out(InitWrite(s.pc.step).offset, InitWrite(s.pc.step).value)
    ensures Reaches(Start(entry), t)
    ensures t == if s.pc.step + 1 < INIT_WRITES then s.(uart := u, pc := Initialising(s.pc.step + 1))
                 else s.(uart := u, pc := Idle, base := u.wire)
  {
    var v :| s.uart.DrainsTo(v) && u == v.Out(InitWrite(s.pc.step).offset, InitWrite(s.pc.step).value);
    DrainReaches(Start(entry), s, v);
    StepReaches(Start(entry), s.(uart := v), DriverInits);
    t := Step(s.(uart := v), DriverInits).value;
  }

  /** One byte through `write_byte`: everything waiting goes out first, then the byte goes to the data port. */
  function SendByte(u: Uart, b: bv8): Uart {
    u.Flushed().Out(REG_DATA, b)
  }

  function SendAll(u: Uart, bytes: seq<bv8>): Uart
    decreases |bytes|
  {
    if bytes == [] then u else SendAll(SendByte(u, bytes[0]), bytes[1..])
  }

  lemma {:induction false} SendConcat(u: Uart, a: seq<bv8>, b: seq<bv8>)
    ensures SendAll(u, a + b) == SendAll(SendAll(u, a), b)
    decreases |a|
  {
    if a == [] {
      assert a + b == b;
    } else {
      assert (a + b)[1..] == a[1..] + b;
      SendConcat(SendByte(u, a[0]), a[1..], b);
    }
  }

  lemma {:induction false} EncodedByteSends(u: Uart, b: bv8)
    ensures SendAll(u, EncodeByte(b)) == SendByte(if b == LF then SendByte(u, CR) else u, b)
  {
    if b == LF {
      assert [CR, LF][1..] == [LF] && [LF][1..] == [];
      assert SendAll(SendByte(u, CR), [LF]) == SendByte(SendByte(u, CR), LF);
    } else {
      assert [b][1..] == [];
    }
  }

  lemma SendByteGrowsLine(u: Uart, b: bv8)
    requires !u.Dlab()
    ensures SendByte(u, b) == u.(pending := [b], wire := u.wire + u.pending)
  {
  }

  /** With DLAB clear the line grows by exactly the bytes and no register changes. */
  lemma {:induction false} SendAllGrowsLine(u: Uart, bytes: seq<bv8>)
    requires !u.Dlab()
    ensures var v := SendAll(u, bytes);
      v.wire + v.pending == u.wire + u.pending + bytes && v == u.(pending := v.pending, wire := v.wire)
    decreases |bytes|
  {
    if bytes != [] {
      var next := SendByte(u, bytes[0]);
      SendByteGrowsLine(u, bytes[0]);
      SendAllGrowsLine(next, bytes[1..]);
      Regroup3(u.wire + u.pending, [bytes[0]], bytes[1..]);
      assert bytes == [bytes[0]] + bytes[1..];
    }
  }

  /** With DLAB set nothing is added to the line; the divisor latch is left with the last byte. */
  lemma {:induction false} SendAllMissesLine(u: Uart, bytes: seq<bv8>)
    requires u.Dlab() && bytes != []
    ensures SendAll(u, bytes) == u.Flushed().(dll := bytes[|bytes| - 1])
    decreases |bytes|
  {
    var v := SendByte(u, bytes[0]);
    assert v == u.Flushed().(dll := bytes[0]);
    if |bytes| > 1 {
      SendAllMissesLine(v, bytes[1..]);
      assert v.Flushed() == v;
    } else {
      assert bytes[1..] == [];
    }
  }

  lemma {:induction false} EncodeEndsAlike(s: seq<bv8>)
    requires s != []
    ensures Encode(s) != [] && Encode(s)[|Encode(s)| - 1] == s[|s| - 1]
  {
    EncodeSnoc(s, |s| - 1);
    assert s[..|s| - 1 + 1] == s;
  }

  /** What is on the line, and in the registers, after a whole string. */
  lemma {:induction false} LineAfter(u: Uart, s: seq<bv8>)
    requires s != []
    ensures var v := SendAll(u, Encode(s));
      && (v.wire + v.pending == u.wire + u.pending + Encode(s) <==> !u.Dlab())
      && (!u.Dlab() ==> v == u.(pending := v.pending, wire := v.wire))
      && (u.Dlab() ==> v == u.Flushed().(dll := s[|s| - 1]))
  {
    EncodeEndsAlike(s);
    if u.Dlab() {
      SendAllMissesLine(u, Encode(s));
      assert |u.wire + u.pending + Encode(s)| > |u.wire + u.pending|;
    } else {
      SendAllGrowsLine(u, Encode(s));
    }
  }

  lemma FlushDrains(u: Uart)
    ensures u.DrainsTo(u.Flushed())
    ensures forall v :: u.DrainsTo(v) && v.pending == [] ==> v == u.Flushed()
  {
  }

  lemma {:induction false} SendReaches(s: State, t: State)
    requires Reaches(s, t) && t.pc == WaitOrRest(t.todo)
    ensures Reaches(s, t.(uart := SendAll(t.uart, t.todo), todo := [], sent := t.sent + t.todo, pc := Idle))
    decreases |t.todo|
  {
    if t.todo == [] {
      assert t == t.(todo := [], sent := t.sent + t.todo);
    } else {
      var flushed := t.(uart := t.uart.Flushed());
      FlushDrains(t.uart);
      DrainReaches(s, t, t.uart.Flushed());
      StepReaches(s, flushed, DriverPolls(LSR_THRE));
      StepReaches(s, flushed.(pc := Sending), DriverSends);
      var next := Step(flushed.(pc := Sending), DriverSends).value;
      SendReaches(s, next);
      assert next.sent + next.todo == t.sent + t.todo;
    }
  }

  /** What `WriteStr` does to the UART is what a run of the protocol does, so all that holds of runs holds of it. */
  lemma {:induction false} WriteStrIsRun(s: State, str: seq<bv8>)
    requires s.pc.Idle? && s.todo == []
    ensures Reaches(s, s.(uart := SendAll(s.uart, Encode(str)), sent := s.sent + Encode(str),
                          written := s.written + str))
  {
    NowReaches(s);
    StepReaches(s, s, CallerWrites(str));
    SendReaches(s, Step(s, CallerWrites(str)).value);
  }

  // ---- The code ----

  class SerialPort {
    var uart: Uart
    var patience: nat  // how many more busy polls the device will answer with; any bound at all

    constructor (uart: Uart, patience: nat)
      ensures this.uart == uart && this.patience == patience
    {
      this.uart, this.patience := uart, patience;
    }

    /** The device at work between two port accesses. */
    method Elapse()
      modifies this`uart
      ensures old(uart).DrainsTo(uart)
    {
      var k :| 0 <= k <= |uart.pending|;
      DrainKeepsLine(uart, k);
      uart := uart.Drained(k);
    }

    method OutB(offset: nat, value: bv8)
      modifies this`uart
      ensures exists u: Uart :: old(uart).DrainsTo(u) && uart == u.Out(offset, value)
    {
      Elapse();
      uart := uart.Out(offset, value);
    }

    method InLsr() returns (lsr: bv8)
      modifies this
      ensures old(uart).DrainsTo(uart) && uart.MayReadLsr(lsr)
      ensures lsr & LSR_THRE != 0 || patience < old(patience)
    {
      Elapse();
      if patience == 0 {
        FlushDrains(uart);
        uart := uart.Flushed();
      }
      lsr :| uart.MayReadLsr(lsr) by {
        assert uart.MayReadLsr(if uart.pending == [] then LSR_THRE else 0);
      }
      if lsr & LSR_THRE == 0 {
        assert uart.MayReadLsr(lsr);
        assert uart.pending != [];
        patience := patience - 1;
      }
    }

    /**
     * `SerialPort::init`, from whatever state the UART is in: a run of the protocol from its start to its idle state.
     * It puts nothing of its own on the wire; bytes that were waiting may go out until the FIFO reset discards the
     * rest. Interrupts end up disabled unless DLAB was set on entry, in which case the first write lands in the
     * divisor latch.
     */
    method Init()
      modifies this`uart
      ensures Reaches(Start(old(uart)), State(uart, Idle, [], [], [], uart.wire))
      ensures uart.InitialisedFrom(old(uart))
      ensures uart.pending == []
      ensures old(uart.wire) <= uart.wire <= old(uart.wire) + old(uart.pending)
    {
      ghost var entry := uart;
      ghost var s := Start(entry);
      NowReaches(s);
      OutB(REG_IER, 0x00);
      s := Issued(entry, s, uart);
      OutB(REG_LCR, LCR_DLAB);
      s := Issued(entry, s, uart);
      OutB(REG_DLL, 0x01);
      s := Issued(entry, s, uart);
      OutB(REG_DLM, 0x00);
      s := Issued(entry, s, uart);
      OutB(REG_LCR, LCR_8N1);
      s := Issued(entry, s, uart);
      OutB(REG_FCR, FCR_ENABLE_CLEAR);
      s := Issued(entry, s, uart);
      OutB(REG_MCR, MCR_DTR_RTS_AUX2);
      s := Issued(entry, s, uart);
      ghost var events :| Run(Start(entry), events) == Some(s);
      RunKeepsInvariant(entry, Start(entry), events);
    }

    method PollUntilReady()
      modifies this
      ensures uart == old(uart).Flushed()
    {
      while true
        invariant old(uart).DrainsTo(uart)
        decreases patience
      {
        var lsr := InLsr();
        if lsr & LSR_THRE != 0 {
          FlushDrains(old(uart));
          return;
        }
      }
    }

    /** `write_byte`, in any UART state: the byte joins the line, or, with DLAB set, replaces the divisor's low byte. */
    method WriteByte(byte: bv8)
      modifies this
      ensures uart == SendByte(old(uart), byte)
      ensures uart.wire + uart.pending == old(uart.wire + uart.pending) + (if old(uart.Dlab()) then [] else [byte])
    {
      PollUntilReady();
      ghost var ready := uart;
      FlushDrains(ready);
      OutB(REG_DATA, byte);
    }

    /** `write_str`, in any UART state: the encoded text joins the line if and only if DLAB is clear. */
    method WriteStr(s: seq<bv8>)
      modifies this
      ensures uart == SendAll(old(uart), Encode(s))
      ensures s != [] ==>
                (uart.wire + uart.pending == old(uart.wire + uart.pending) + Encode(s) <==> !old(uart.Dlab()))
      ensures !old(uart.Dlab()) ==> uart == old(uart).(pending := uart.pending, wire := uart.wire)
      ensures old(uart.Dlab()) && s != [] ==> uart == old(uart).Flushed().(dll := s[|s| - 1])
    {
      for i := 0 to |s|
        invariant uart == SendAll(old(uart), Encode(s[..i]))
      {
        EncodeSnoc(s, i);
        SendConcat(old(uart), Encode(s[..i]), EncodeByte(s[i]));
        EncodedByteSends(uart, s[i]);
        if s[i] == LF {
          WriteByte(CR);
        }
        WriteByte(s[i]);
      }
      assert s[..|s|] == s;
      if s != [] {
        LineAfter(old(uart), s);
      }
    }
  }
}
