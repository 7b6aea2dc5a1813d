/** The interrupt descriptor table, the exception stubs, and delivery through both (boot/src/main.rs). */
module Idt {
  import opened Words
  import opened Wrappers

  // ---- Gates ----

  type U16 = n: int | 0 <= n < 0x1_0000
  type U8 = n: int | 0 <= n < 0x100

  datatype IdtEntry = IdtEntry(
    offsetLow: U16, selector: U16, ist: U8, typeAttr: U8, offsetMid: U16, offsetHigh: U32, reserved: U32)
  {
    /** The handler address as the processor puts it together: high, middle and low bits side by side. */
    function Target(): U64 {
      offsetHigh * 0x1_0000_0000 + offsetMid * 0x1_0000 + offsetLow
    }

    /** Present, ring 0, 64-bit interrupt gate, kernel code segment, no stack switch. */
    predicate IsKernelInterruptGate() {
      && typeAttr / 0x80 == 1 && typeAttr / 0x20 % 4 == 0 && typeAttr % 0x20 == 0x0E
      && selector == 0x0008 && ist == 0 && reserved == 0
    }
  }

  lemma {:induction false} GateFields(handler: U64)
    ensures BitAnd(handler, 0xFFFF) == handler % 0x1_0000
    ensures BitAnd(ShiftRight(handler, 16), 0xFFFF) == handler / 0x1_0000 % 0x1_0000
    ensures BitAnd(ShiftRight(handler, 32), 0xFFFF_FFFF) == handler / 0x1_0000_0000
  {
    var mid, high := ShiftRight(handler, 16), ShiftRight(handler, 32);
    Shift16And32(handler);
    Mask16(handler);
    Mask16(mid);
    Mask32(high);
    assert high < 0x1_0000_0000;
  }

  function NewEntry(handler: U64): IdtEntry {
    GateFields(handler);
    IdtEntry(
      BitAnd(handler, 0xFFFF), 0x0008, 0, 0x8E, BitAnd(ShiftRight(handler, 16), 0xFFFF),
      BitAnd(ShiftRight(handler, 32), 0xFFFF_FFFF), 0)
  }

  lemma SideBySide(n: U64)
    ensures n / 0x1_0000_0000 * 0x1_0000_0000 + n / 0x1_0000 % 0x1_0000 * 0x1_0000 + n % 0x1_0000 == n
  {
    var q := n / 0x1_0000;
    assert n == q * 0x1_0000 + n % 0x1_0000;
    assert q == q / 0x1_0000 * 0x1_0000 + q % 0x1_0000;
    assert q / 0x1_0000 == n / 0x1_0000_0000;
  }

  /** A gate points where it was told to, for every 64-bit address. */
  lemma GateReassembles(handler: U64)
    ensures NewEntry(handler).Target() == handler
    ensures NewEntry(handler).IsKernelInterruptGate()
    ensures var gate := NewEntry(handler);
      && gate.offsetLow == handler % 0x1_0000
      && gate.offsetMid == handler / 0x1_0000 % 0x1_0000
      && gate.offsetHigh == handler / 0x1_0000_0000
  {
    GateFields(handler);
    SideBySide(handler);
  }

  const EXCEPTIONS: nat := 32
  const VECTORS: nat := 256

  /** Every vector leads where it should: the exceptions to stubs of their own, the rest to the shared one. */
  ghost predicate Installed(idt: seq<IdtEntry>, isr: seq<U64>, irq: U64) {
    && |idt| == 256 && |isr| == 32
    && (forall v :: 0 <= v < 32 ==> idt[v].Target() == isr[v])
    && (forall v :: 32 <= v < 256 ==> idt[v].Target() == irq)
    && (forall v :: 0 <= v < 256 ==> idt[v].IsKernelInterruptGate())
  }

  /** `idt_init`, given where the linker put the stubs: one assignment for each exception vector, then the loop. */
  method IdtInit(idt: array<IdtEntry>, isr: seq<U64>, irq: U64)
    requires idt.Length == VECTORS && |isr| == EXCEPTIONS
    modifies idt
    ensures forall v :: 0 <= v < 32 ==> idt[v].Target() == isr[v]
    ensures forall v :: 32 <= v < 256 ==> idt[v].Target() == irq
    ensures Installed(idt[..], isr, irq)
  {
    forall v | 0 <= v < 32 {
      idt[v] := NewEntry(isr[v]);
    }
    var i := 32;
    while i < 256
      invariant 32 <= i <= 256
      invariant forall v :: 0 <= v < 32 ==> idt[v] == NewEntry(isr[v])
      invariant forall v :: 32 <= v < i ==> idt[v] == NewEntry(irq)
    {
      idt[i] := NewEntry(irq);
      i := i + 1;
    }
    GateReassembles(irq);
    forall v | 0 <= v < 32
      ensures idt[v].Target() == isr[v] && idt[v].IsKernelInterruptGate()
    {
      GateReassembles(isr[v]);
    }
  }

  // ---- Stubs ----

  /** The instructions the stubs are made of. */
  datatype Instr = MovRdi(imm: U64) | ZeroRsi | PopRsi | MovRdxRsp | JmpCommon

  /** The two macros, and the shared stub for vectors 32 to 255 with its sentinel. */
  datatype Stub = Isr(v: U64) | IsrEc(v: U64) | Irq
  {
    function Code(): seq<Instr> {
      match this
      case Isr(v) => [MovRdi(v), ZeroRsi, MovRdxRsp, JmpCommon]
      case IsrEc(v) => [MovRdi(v), PopRsi, MovRdxRsp, JmpCommon]
      case Irq => [MovRdi(255), ZeroRsi, MovRdxRsp, JmpCommon]
    }
  }

  /** The stubs as the assembly lists them. */
  function StubOf(vector: nat): Stub {
    match vector
    case 0 => Isr(0)
    case 1 => Isr(1)
    case 2 => Isr(2)
    case 3 => Isr(3)
    case 4 => Isr(4)
    case 5 => Isr(5)
    case 6 => Isr(6)
    case 7 => Isr(7)
    case 8 => IsrEc(8)
    case 9 => Isr(9)
    case 10 => IsrEc(10)
    case 11 => IsrEc(11)
    case 12 => IsrEc(12)
    case 13 => IsrEc(13)
    case 14 => IsrEc(14)
    case 15 => Isr(15)
    case 16 => Isr(16)
    case 17 => IsrEc(17)
    case 18 => Isr(18)
    case 19 => Isr(19)
    case 20 => Isr(20)
    case 21 => IsrEc(21)
    case 22 => Isr(22)
    case 23 => Isr(23)
    case 24 => Isr(24)
    case 25 => Isr(25)
    case 26 => Isr(26)
    case 27 => Isr(27)
    case 28 => Isr(28)
    case 29 => IsrEc(29)
    case 30 => IsrEc(30)
    case 31 => Isr(31)
    case _ => Irq
  }

  /** The bit mask by which the handler decides whether to print an error code. */
  const EC_MASK: bv64 :=
    (1 << 8) | (1 << 10) | (1 << 11) | (1 << 12) | (1 << 13) | (1 << 14) | (1 << 17) | (1 << 21) | (1 << 29) | (1 << 30)

  predicate HasErrorCode(vector: nat) {
    vector < 64 && (EC_MASK >> vector) & 1 == 1
  }

  // ---- The processor ----

  datatype Cpu = Cpu(
    rip: U64, rsp: U64, rflags: U64, cs: U64, ss: U64, rdi: U64, rsi: U64, rdx: U64, mem: map<U64, U64>)

  /** Stack addresses wrap at 2^64. */
  function Plus(a: U64, k: nat): (r: U64)
    requires k <= 64
    ensures r == (a + k) % 0x1_0000_0000_0000_0000
  {
    if a + k <= U64_MAX then a + k else a + k - (U64_MAX + 1)
  }

  function Minus8(a: U64): (r: U64)
    ensures (r + 8) % 0x1_0000_0000_0000_0000 == a
  {
    if a >= 8 then a - 8 else a - 8 + (U64_MAX + 1)
  }

  function Push(c: Cpu, x: U64): Cpu {
    c.(rsp := Minus8(c.rsp), mem := c.mem[Minus8(c.rsp) := x])
  }

  function PushFrame(c: Cpu, before: Cpu): Cpu {
    Push(Push(Push(Push(Push(c, before.ss), before.rsp), before.rflags), before.cs), before.rip)
  }

  function Aligned(c: Cpu): Cpu {
    c.(rsp := c.rsp - c.rsp % 16)
  }

  const RFLAGS_IF: nat := 0x200

  /**
   * Section 6.14 of the Intel SDM Volume 3A: align the stack, push SS, RSP, RFLAGS, CS and RIP, then the error code
   * for a vector that has one, clear IF for an interrupt gate, and continue at the gate's target.
   */
  function Deliver(c: Cpu, gate: IdtEntry, error: Option<U64>): Cpu {
    var framed := PushFrame(Aligned(c), c);
    var pushed := if error.Some? then Push(framed, error.value) else framed;
    pushed.(rip := gate.Target(), cs := gate.selector, rflags := c.rflags - c.rflags / RFLAGS_IF % 2 * RFLAGS_IF)
  }

  /** Running a stub up to its jump: the state on entry to the common landing pad, if it gets there. */
  function RunStub(c: Cpu, code: seq<Instr>): Option<Cpu>
    decreases |code|
  {
    if code == [] then None
    else
      match code[0]
      case MovRdi(imm) => RunStub(c.(rdi := imm), code[1..])
      case ZeroRsi => RunStub(c.(rsi := 0), code[1..])
      case PopRsi =>
        if c.rsp !in c.mem then None
        else RunStub(c.(rsi := c.mem[c.rsp], rsp := Plus(c.rsp, 8)), code[1..])
      case MovRdxRsp => RunStub(c.(rdx := c.rsp), code[1..])
      case JmpCommon => Some(c)
  }

  /** The code the linker placed: each stub at its address. */
  ghost predicate Linked(text: map<U64, Stub>, isr: seq<U64>, irq: U64) {
    && |isr| == 32
    && (forall v :: 0 <= v < 32 ==> isr[v] in text && text[isr[v]] == StubOf(v))
    && irq in text && text[irq] == Irq
  }

  /** The five quadwords of an exception frame, from address `a` up. */
  predicate FrameAt(mem: map<U64, U64>, a: U64, before: Cpu) {
    && a in mem && mem[a] == before.rip
    && Plus(a, 8) in mem && mem[Plus(a, 8)] == before.cs
    && Plus(a, 16) in mem && mem[Plus(a, 16)] == before.rflags
    && Plus(a, 24) in mem && mem[Plus(a, 24)] == before.rsp
    && Plus(a, 32) in mem && mem[Plus(a, 32)] == before.ss
  }

  /** What the handler is called with: vector, error code, and a pointer to the frame the processor pushed. */
  predicate HandlerSees(before: Cpu, at: Cpu, vector: U64, error: U64) {
    at.rdi == vector && at.rsi == error && at.rdx == at.rsp && FrameAt(at.mem, at.rdx, before)
  }

  /** Bit 9 of RFLAGS, the interrupt flag, is off; the other bits are as they were. */
  predicate InterruptsMasked(before: Cpu, started: Cpu) {
    && started.rflags / 0x200 % 2 == 0
    && started.rflags % 0x200 == before.rflags % 0x200
    && started.rflags / 0x400 == before.rflags / 0x400
  }

  /** Taking bit 9 away from a number leaves the bits below and above it. */
  lemma WithoutBit9(f: nat, g: nat)
    requires g == f - f / 0x200 % 2 * 0x200
    ensures g / 0x200 % 2 == 0 && g % 0x200 == f % 0x200 && g / 0x400 == f / 0x400
  {
    var high, low := f / 0x200 / 2, f % 0x200;
    DivModUnique(f, 0x400, high, f / 0x200 % 2 * 0x200 + low);
    DivModUnique(g, 0x200, 2 * high, low);
    DivModUnique(g, 0x400, high, low);
  }

  lemma DeliveryMasks(c: Cpu, gate: IdtEntry, error: Option<U64>)
    ensures InterruptsMasked(c, Deliver(c, gate, error))
  {
    WithoutBit9(c.rflags, Deliver(c, gate, error).rflags);
  }

  /** The frame is five quadwords below where the stack was. */
  lemma FrameAddress(c: Cpu, before: Cpu)
    ensures (PushFrame(c, before).rsp + 40) % 0x1_0000_0000_0000_0000 == c.rsp
  {
  }

  /** A pushed frame is where the stack pointer is, wherever the stack was, even if the address wraps. */
  lemma FrameIsPushed(c: Cpu, before: Cpu)
    ensures var f := PushFrame(c, before); FrameAt(f.mem, f.rsp, before)
  {
  }

  lemma ErrorCodeBelowFrame(f: Cpu, before: Cpu, error: U64)
    requires FrameAt(f.mem, f.rsp, before)
    ensures var p := Push(f, error);
      && p.rsp in p.mem && p.mem[p.rsp] == error
      && Plus(p.rsp, 8) == f.rsp && FrameAt(p.mem, f.rsp, before)
  {
  }

  /** What a stub does to the registers, step by step. */
  lemma {:induction false} StubRuns(c: Cpu, stub: Stub)
    requires stub.IsrEc? ==> c.rsp in c.mem
    ensures var sp, code := if stub.IsrEc? then Plus(c.rsp, 8) else c.rsp, if stub.IsrEc? then c.mem[c.rsp] else 0;
      RunStub(c, stub.Code())
      == Some(c.(rdi := if stub.Irq? then 255 else stub.v, rsi := code, rdx := sp, rsp := sp))
  {
    var code := stub.Code();
    var c1 := c.(rdi := code[0].imm);
    assert code[1..][1..] == [MovRdxRsp, JmpCommon];
    assert [MovRdxRsp, JmpCommon][1..] == [JmpCommon];
    assert RunStub(c, code) == RunStub(c1, code[1..]);
    var c2 := if stub.IsrEc? then c1.(rsi := c1.mem[c1.rsp], rsp := Plus(c1.rsp, 8)) else c1.(rsi := 0);
    assert RunStub(c1, code[1..]) == RunStub(c2, [MovRdxRsp, JmpCommon]);
    assert RunStub(c2, [MovRdxRsp, JmpCommon]) == Some(c2.(rdx := c2.rsp));
  }

  lemma MaskLowBits(v: nat)
    requires v < 16
    ensures HasErrorCode(v) <==> v in {8, 10, 11, 12, 13, 14}
  {
  }

  lemma MaskHighBits(v: nat)
    requires 16 <= v < EXCEPTIONS
    ensures HasErrorCode(v) <==> v in {17, 21, 29, 30}
  {
  }

  /** The stubs that pop an error code are the vectors of the mask, and no others; each stub loads its own number. */
  lemma StubsMatchMask(v: nat)
    ensures v < EXCEPTIONS ==> StubOf(v) == if HasErrorCode(v) then IsrEc(v) else Isr(v)
    ensures v >= EXCEPTIONS ==> StubOf(v) == Irq
    ensures v < EXCEPTIONS ==> (HasErrorCode(v) <==> v in {8, 10, 11, 12, 13, 14, 17, 21, 29, 30})
  {
    if v < 16 {
      MaskLowBits(v);
    } else if v < EXCEPTIONS {
      MaskHighBits(v);
    }
  }

  /** The frame is where the stub leaves RDX, whether or not an error code was pushed and popped on the way. */
  lemma {:induction false} StubReachesHandler(c: Cpu, gate: IdtEntry, stub: Stub, error: Option<U64>)
    requires error.Some? <==> stub.IsrEc?
    ensures var at := RunStub(Deliver(c, gate, error), stub.Code());
      && at.Some?
      && HandlerSees(c, at.value, if stub.Irq? then 255 else stub.v, if error.Some? then error.value else 0)
      && (at.value.rdx + 40) % 0x1_0000_0000_0000_0000 == c.rsp - c.rsp % 16
      && InterruptsMasked(c, Deliver(c, gate, error))
  {
    DeliveryMasks(c, gate, error);
    FrameAddress(Aligned(c), c);
    var d := Deliver(c, gate, error);
    FrameIsPushed(Aligned(c), c);
    if error.Some? {
      ErrorCodeBelowFrame(PushFrame(Aligned(c), c), c, error.value);
    }
    StubRuns(d, stub);
  }

  /** Delivery through a gate: the processor starts at the gate's target, and the stub there enters the handler. */
  ghost predicate Arrives(
      c: Cpu, gate: IdtEntry, text: map<U64, Stub>, error: Option<U64>, handler: U64, vector: U64, code: U64)
  {
    var started := Deliver(c, gate, error);
    && started.rip == handler && started.rip in text && started.cs == 0x08 && InterruptsMasked(c, started)
    && var at := RunStub(started, text[started.rip].Code());
    && at.Some? && HandlerSees(c, at.value, vector, code)
    && (at.value.rdx + 40) % 0x1_0000_0000_0000_0000 == c.rsp - c.rsp % 16
  }

  lemma {:induction false} ArrivesThrough(c: Cpu, gate: IdtEntry, text: map<U64, Stub>, error: Option<U64>)
    requires gate.IsKernelInterruptGate() && gate.Target() in text
    requires error.Some? <==> text[gate.Target()].IsrEc?
    ensures var stub := text[gate.Target()];
      Arrives(c, gate, text, error, gate.Target(), if stub.Irq? then 255 else stub.v,
              if error.Some? then error.value else 0)
  {
    StubReachesHandler(c, gate, text[gate.Target()], error);
  }

  /**
   * Delivery of any exception, from any registers and stack: if the processor pushes an error code exactly for the
   * vectors of the mask, the gate installed for the vector leads to a stub that enters the handler with the vector,
   * the error code (or 0), and the pushed frame.
   */
  lemma {:induction false} ExceptionDelivery(
      c: Cpu, idt: seq<IdtEntry>, text: map<U64, Stub>, isr: seq<U64>, irq: U64, v: nat, error: Option<U64>)
    requires Installed(idt, isr, irq) && v < 32 && Linked(text, isr, irq)
    requires error.Some? <==> HasErrorCode(v)
    ensures Arrives(c, idt[v], text, error, isr[v], v, if error.Some? then error.value else 0)
  {
    StubsMatchMask(v);
    ArrivesThrough(c, idt[v], text, error);
  }

  /** Every other vector reaches the handler through the shared stub, with the sentinel 255 and no error code. */
  lemma {:induction false} InterruptDelivery(
      c: Cpu, idt: seq<IdtEntry>, text: map<U64, Stub>, isr: seq<U64>, irq: U64, v: nat)
    requires Installed(idt, isr, irq) && 32 <= v < 256 && Linked(text, isr, irq)
    ensures Arrives(c, idt[v], text, None, irq, 255, 0)
  {
    ArrivesThrough(c, idt[v], text, None);
  }
}
