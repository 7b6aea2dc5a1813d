/** A 16550 transmitter as the driver sees it: registers, bytes waiting to go out, and the bytes that went out. */
module Uart {

  datatype Uart = Uart(
    ier: bv8, dll: bv8, dlm: bv8, fcr: bv8, lcr: bv8, mcr: bv8,
    pending: seq<bv8>,  // the holding register, or the transmit FIFO when enabled
    wire: seq<bv8>)     // everything the shift register has taken so far
  {
    predicate Dlab() {
      lcr & 0x80 != 0
    }

    predicate FifoEnabled() {
      fcr & 0x01 != 0
    }

    /** The shift register takes the oldest `k` waiting bytes. */
    function Drained(k: nat): Uart
      requires k <= |pending|
    {
      this.(pending := pending[k..], wire := wire + pending[..k])
    }

    /** The shift register has taken everything. */
    function Flushed(): Uart {
      this.(pending := [], wire := wire + pending)
    }

    /** A byte written to the holding register. A full FIFO drops it; the plain register is overwritten. */
    function Accept(b: bv8): Uart {
      if FifoEnabled() then
        if |pending| < 16 then this.(pending := pending + [b]) else this
      else this.(pending := [b])
    }

    /** Enabling, disabling or resetting the FIFO throws the waiting bytes away. */
    function SetFcr(v: bv8): Uart {
      var flush := v & 0x01 != fcr & 0x01 || (v & 0x01 != 0 && v & 0x04 != 0);
      this.(fcr := v, pending := if flush then [] else pending)
    }

    /** `out` to the port at this register offset. */
    function Out(offset: nat, value: bv8): Uart {
      if offset == 0 then if Dlab() then this.(dll := value) else Accept(value)
      else if offset == 1 then if Dlab() then this.(dlm := value) else this.(ier := value)
      else if offset == 2 then SetFcr(value)
      else if offset == 3 then this.(lcr := value)
      else if offset == 4 then this.(mcr := value)
      else this  // line status, modem status and scratch do not reach the transmitter
    }

    /** A value the line status register can show: THRE says whether anything is waiting, other bits are free. */
    predicate MayReadLsr(lsr: bv8) {
      lsr & 0x20 != 0 <==> pending == []
    }

    /** Waiting bytes went out, in order; nothing else happened. */
    predicate DrainsTo(u: Uart) {
      && u == this.(pending := u.pending, wire := u.wire)
      && u.wire + u.pending == wire + pending
      && wire <= u.wire
    }

    /** What `init` leaves behind, given the state it found. */
    predicate InitialisedFrom(entry: Uart) {
      && lcr == 0x03  // eight data bits, no parity, one stop bit, DLAB clear
      && dll == 1 && dlm == 0
      && fcr == 0xC7  // FIFOs on and flushed, receive trigger at 14 bytes
      && mcr == 0x0B  // DTR, RTS and auxiliary output 2
      && ier == (if entry.Dlab() then entry.ier else 0)
    }
  }

  /** Draining some bytes moves them from the waiting side of the line to the wire. */
  lemma DrainKeepsLine(u: Uart, k: nat)
    requires k <= |u.pending|
    ensures u.DrainsTo(u.Drained(k))
  {
    assert u.pending == u.pending[..k] + u.pending[k..];
  }
}
