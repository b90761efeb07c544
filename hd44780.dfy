/** HD44780 4-bit framing over the PCF8574: how a command or character byte
    becomes bus bytes, and, as the partner of that encoding, how the
    controller reads them back (latch a nibble on each enable pulse, join
    two nibbles, high first, into one byte). */
module Hd44780 {
  import opened Seqs
  import opened Pcf8574

  /** A logical transfer to the controller: RS = 0 selects the instruction
      register, RS = 1 the data register. */
  datatype Op = Command(code: bv8) | Data(code: bv8)

  /** What the controller samples on the falling edge of one enable pulse:
      the register-select line and the four data lines D7..D4. */
  datatype Latch = Latch(rs: bool, nibble: bv8)

  /** Low-nibble control bits of every byte of a transfer: backlight always
      on, read/write always write, register select set only for data. */
  function ControlBits(rs: bool): (r: bv8)
    ensures r & 0xF0 == 0 && r & Enable == 0 && r & ReadWrite == 0
    ensures r & Backlight == Backlight
    ensures (r & RegisterSelect == RegisterSelect) == rs
  {
    if rs then Backlight | RegisterSelect else Backlight
  }

  /** The upper four bits of v, in place. */
  function HighNibble(v: bv8): bv8 { v & 0xF0 }

  /** The lower four bits of v, moved to the upper position. */
  function LowNibble(v: bv8): bv8 { (v << 4) & 0xF0 }

  /** One enable pulse: the byte with the strobe set, then the same byte with
      it cleared, each followed by the transport's settle delay. */
  function PulseEvents(b: bv8): seq<Event>
  {
    [Write(b | Enable), Delay(SettleMicros), Write(b), Delay(SettleMicros)]
  }

  /** The events of one full byte transfer: high nibble, then low nibble. */
  function OpEvents(op: Op): seq<Event>
  {
    var ctl := ControlBits(op.Data?);
    PulseEvents(HighNibble(op.code) | ctl) + PulseEvents(LowNibble(op.code) | ctl)
  }

  /** The events of a series of transfers, in order. */
  function OpsEvents(ops: seq<Op>): seq<Event>
  {
    if ops == [] then [] else OpEvents(ops[0]) + OpsEvents(ops[1..])
  }

  lemma {:induction false} OpsEventsAppend(a: seq<Op>, b: seq<Op>)
    ensures OpsEvents(a + b) == OpsEvents(a) + OpsEvents(b)
  {
    if a == [] {
      assert a + b == b;
    } else {
      calc {
        OpsEvents(a + b);
        { assert (a + b)[0] == a[0]; assert (a + b)[1..] == a[1..] + b; }
        OpEvents(a[0]) + OpsEvents(a[1..] + b);
        { OpsEventsAppend(a[1..], b); }
        OpEvents(a[0]) + (OpsEvents(a[1..]) + OpsEvents(b));
      }
    }
  }

  lemma SingleOpEvents(op: Op)
    ensures OpsEvents([op]) == OpEvents(op)
  {
    assert [op][1..] == [];
  }

  lemma PulseWritten(b: bv8)
    ensures Written(PulseEvents(b)) == [b | Enable, b]
  {
    var ev := PulseEvents(b);
    assert ev[1..][1..][1..][1..] == [];
    assert Written(ev[1..][1..][1..]) == [];
    assert Written(ev[1..][1..]) == [b];
    assert Written(ev[1..]) == [b];
  }

  /** The four bytes of one transfer, as the driver puts them on the bus. */
  lemma OpWritten(op: Op)
    ensures var ctl := ControlBits(op.Data?);
            Written(OpEvents(op)) ==
              [HighNibble(op.code) | ctl | Enable, HighNibble(op.code) | ctl,
               LowNibble(op.code) | ctl | Enable, LowNibble(op.code) | ctl]
  {
    var ctl := ControlBits(op.Data?);
    var hi, lo := HighNibble(op.code) | ctl, LowNibble(op.code) | ctl;
    WrittenAppend(PulseEvents(hi), PulseEvents(lo));
    PulseWritten(hi);
    PulseWritten(lo);
    calc {
      Written(OpEvents(op));
      Written(PulseEvents(hi) + PulseEvents(lo));
      Written(PulseEvents(hi)) + Written(PulseEvents(lo));
      [hi | Enable, hi] + [lo | Enable, lo];
    }
  }

  /** A command is sent as h|0x0C, h|0x08, l|0x0C, l|0x08 and nothing else. */
  lemma CommandBytes(cmd: bv8)
    ensures Written(OpEvents(Command(cmd))) ==
      [(cmd & 0xF0) | 0x0C, (cmd & 0xF0) | 0x08,
       ((cmd << 4) & 0xF0) | 0x0C, ((cmd << 4) & 0xF0) | 0x08]
  {
    OpWritten(Command(cmd));
  }

  /** A character is sent in the same shape with RS also set: h|0x0D, h|0x09,
      l|0x0D, l|0x09. */
  lemma CharBytes(c: bv8)
    ensures Written(OpEvents(Data(c))) ==
      [(c & 0xF0) | 0x0D, (c & 0xF0) | 0x09,
       ((c << 4) & 0xF0) | 0x0D, ((c << 4) & 0xF0) | 0x09]
  {
    OpWritten(Data(c));
  }

  /** The value is recoverable from the first and third bytes, and bit 0
      tells commands from characters. */
  lemma NibbleRoundTrip(op: Op)
    ensures var b := Written(OpEvents(op));
            |b| == 4 && (b[0] & 0xF0) | (b[2] >> 4) == op.code &&
            (forall k :: 0 <= k < 4 ==> ((b[k] & RegisterSelect == RegisterSelect) <==> op.Data?))
  {
    OpWritten(op);
  }

  // ---- The controller's side: reading the byte stream back. ----

  /** Two consecutive bus bytes form one enable pulse: the first has the
      strobe, backlight set and read/write clear, the second differs from it
      only in the strobe bit. */
  predicate IsPulse(on: bv8, off: bv8)
  {
    on & Enable == Enable && on & Backlight == Backlight && on & ReadWrite == 0 &&
    off == on ^ Enable
  }

  /** The byte stream is a whole number of enable pulses. */
  predicate Framed(b: seq<bv8>)
    decreases |b|
  {
    b == [] || (|b| >= 2 && IsPulse(b[0], b[1]) && Framed(b[2..]))
  }

  /** What the controller latches from the enable-cleared byte of a pulse. */
  function LatchOf(off: bv8): Latch
  {
    Latch(off & RegisterSelect == RegisterSelect, off >> 4)
  }

  /** The nibbles latched by a framed byte stream, one per pulse. */
  function Latches(b: seq<bv8>): (r: seq<Latch>)
    requires Framed(b)
    ensures |r| == |b| / 2
    decreases |b|
  {
    if b == [] then [] else [LatchOf(b[1])] + Latches(b[2..])
  }

  /** In 4-bit mode every transfer is two latches with the same RS. */
  predicate Paired(ls: seq<Latch>)
    decreases |ls|
  {
    ls == [] || (|ls| >= 2 && ls[0].rs == ls[1].rs && Paired(ls[2..]))
  }

  /** The byte the controller assembles from a high and a low latch. */
  function Join(hi: Latch, lo: Latch): Op
  {
    var v := (hi.nibble << 4) | (lo.nibble & 0x0F);
    if hi.rs then Data(v) else Command(v)
  }

  /** The transfers the controller receives in 4-bit mode. */
  function Assemble(ls: seq<Latch>): (r: seq<Op>)
    requires Paired(ls)
    ensures |r| == |ls| / 2
    decreases |ls|
  {
    if ls == [] then [] else [Join(ls[0], ls[1])] + Assemble(ls[2..])
  }

  /** A byte stream that a 4-bit-mode controller reads as exactly ops. */
  predicate DecodesTo(b: seq<bv8>, ops: seq<Op>)
  {
    Framed(b) && Paired(Latches(b)) && Assemble(Latches(b)) == ops
  }

  /** One more pulse in front of a framed stream. */
  lemma FramedCons(on: bv8, off: bv8, t: seq<bv8>)
    requires IsPulse(on, off) && Framed(t)
    ensures Framed([on, off] + t) && Latches([on, off] + t) == [LatchOf(off)] + Latches(t)
  {
    var c := [on, off] + t;
    assert c[2..] == t;
  }

  lemma {:induction false} FramedAppend(a: seq<bv8>, b: seq<bv8>)
    requires Framed(a) && Framed(b)
    ensures Framed(a + b)
    decreases |a|
  {
    if a == [] {
      assert a + b == b;
    } else {
      var ab := a + b;
      assert ab[0] == a[0] && ab[1] == a[1];
      assert ab[2..] == a[2..] + b;
      FramedAppend(a[2..], b);
    }
  }

  lemma {:induction false} LatchesAppend(a: seq<bv8>, b: seq<bv8>)
    requires Framed(a) && Framed(b)
    ensures Framed(a + b) && Latches(a + b) == Latches(a) + Latches(b)
    decreases |a|
  {
    FramedAppend(a, b);
    if a == [] {
      assert a + b == b;
    } else {
      var ab := a + b;
      assert ab[1] == a[1];
      assert ab[2..] == a[2..] + b;
      LatchesAppend(a[2..], b);
      AppendAssoc([LatchOf(a[1])], Latches(a[2..]), Latches(b));
      calc {
        Latches(ab);
        [LatchOf(a[1])] + Latches(a[2..] + b);
        [LatchOf(a[1])] + (Latches(a[2..]) + Latches(b));
        [LatchOf(a[1])] + Latches(a[2..]) + Latches(b);
        Latches(a) + Latches(b);
      }
    }
  }

  lemma {:induction false} PairedAppend(a: seq<Latch>, b: seq<Latch>)
    requires Paired(a) && Paired(b)
    ensures Paired(a + b) && Assemble(a + b) == Assemble(a) + Assemble(b)
    decreases |a|
  {
    if a == [] {
      assert a + b == b;
    } else {
      var ab := a + b;
      assert ab[0] == a[0] && ab[1] == a[1];
      assert ab[2..] == a[2..] + b;
      PairedAppend(a[2..], b);
      assert Paired(ab);
      AppendAssoc([Join(a[0], a[1])], Assemble(a[2..]), Assemble(b));
      calc {
        Assemble(ab);
        [Join(a[0], a[1])] + Assemble(a[2..] + b);
        [Join(a[0], a[1])] + (Assemble(a[2..]) + Assemble(b));
        [Join(a[0], a[1])] + Assemble(a[2..]) + Assemble(b);
        Assemble(a) + Assemble(b);
      }
    }
  }

  /** Every byte of a framed stream keeps the backlight on and never asks
      the controller to drive the data lines. */
  lemma {:induction false} FramedBytes(b: seq<bv8>)
    requires Framed(b)
    ensures |b| % 2 == 0
    ensures forall k :: 0 <= k < |b| ==> b[k] & Backlight == Backlight && b[k] & ReadWrite == 0
    ensures forall k :: 0 <= k < |b| && k % 2 == 0 ==>
              b[k] & Enable == Enable && k + 1 < |b| && b[k + 1] == b[k] ^ Enable
    decreases |b|
  {
    if b != [] {
      var t := b[2..];
      FramedBytes(t);
      forall k | 2 <= k < |b| ensures b[k] == t[k - 2] && (k % 2 == 0 <==> (k - 2) % 2 == 0) { }
    }
  }

  /** A nibble in the high half, with the control bits, makes a well-formed
      pulse whose latch carries the nibble and the register select. */
  lemma NibblePulse(n: bv8, rs: bool)
    requires n & 0x0F == 0
    ensures IsPulse(n | ControlBits(rs) | Enable, n | ControlBits(rs))
    ensures LatchOf(n | ControlBits(rs)) == Latch(rs, n >> 4)
  {
    if rs {
      assert n | ControlBits(rs) == n | 0x09;
    } else {
      assert n | ControlBits(rs) == n | 0x08;
    }
  }

  /** Two well-formed pulses are framed and latch twice. */
  lemma TwoPulses(on0: bv8, off0: bv8, on1: bv8, off1: bv8)
    requires IsPulse(on0, off0) && IsPulse(on1, off1)
    ensures Framed([on0, off0, on1, off1])
    ensures Latches([on0, off0, on1, off1]) == [LatchOf(off0), LatchOf(off1)]
  {
    var b := [on0, off0, on1, off1];
    assert b[2..] == [on1, off1];
    assert b[2..][2..] == [];
  }

  /** The two latches of one transfer assemble back into that transfer. */
  lemma LatchesJoin(code: bv8, rs: bool)
    ensures var ls := [Latch(rs, code >> 4), Latch(rs, code & 0x0F)];
            Paired(ls) && Assemble(ls) == [if rs then Data(code) else Command(code)]
  {
    var ls := [Latch(rs, code >> 4), Latch(rs, code & 0x0F)];
    assert ls[2..] == [];
    assert ((code >> 4) << 4) | ((code & 0x0F) & 0x0F) == code;
    assert Assemble(ls) == [Join(ls[0], ls[1])];
  }

  /** The high nibble of a transfer makes a pulse that latches code >> 4. */
  lemma HighPulse(code: bv8, rs: bool)
    ensures IsPulse(HighNibble(code) | ControlBits(rs) | Enable, HighNibble(code) | ControlBits(rs))
    ensures LatchOf(HighNibble(code) | ControlBits(rs)) == Latch(rs, code >> 4)
  {
    assert HighNibble(code) & 0x0F == 0 && HighNibble(code) >> 4 == code >> 4;
    NibblePulse(HighNibble(code), rs);
  }

  /** The low nibble of a transfer makes a pulse that latches code & 0x0F. */
  lemma LowPulse(code: bv8, rs: bool)
    ensures IsPulse(LowNibble(code) | ControlBits(rs) | Enable, LowNibble(code) | ControlBits(rs))
    ensures LatchOf(LowNibble(code) | ControlBits(rs)) == Latch(rs, code & 0x0F)
  {
    assert LowNibble(code) & 0x0F == 0 && LowNibble(code) >> 4 == code & 0x0F;
    NibblePulse(LowNibble(code), rs);
  }

  /** The four bytes of one transfer are two well-formed pulses latching the
      high and then the low nibble. */
  lemma TransferLatches(code: bv8, rs: bool)
    ensures var ctl := ControlBits(rs);
            var b := [HighNibble(code) | ctl | Enable, HighNibble(code) | ctl,
                      LowNibble(code) | ctl | Enable, LowNibble(code) | ctl];
            Framed(b) && Latches(b) == [Latch(rs, code >> 4), Latch(rs, code & 0x0F)]
  {
    var ctl := ControlBits(rs);
    HighPulse(code, rs);
    LowPulse(code, rs);
    TwoPulses(HighNibble(code) | ctl | Enable, HighNibble(code) | ctl,
              LowNibble(code) | ctl | Enable, LowNibble(code) | ctl);
  }

  /** One transfer is two well-formed pulses latching the high and then the
      low nibble, and the controller assembles exactly that transfer. */
  lemma OpRoundTrip(op: Op)
    ensures var b := Written(OpEvents(op));
            Framed(b) &&
            Latches(b) == [Latch(op.Data?, op.code >> 4), Latch(op.Data?, op.code & 0x0F)] &&
            DecodesTo(b, [op])
  {
    OpWritten(op);
    TransferLatches(op.code, op.Data?);
    LatchesJoin(op.code, op.Data?);
    assert (if op.Data? then Data(op.code) else Command(op.code)) == op;
  }

  /** The controller reads back exactly the transfers the driver sent. */
  lemma {:induction false} OpsRoundTrip(ops: seq<Op>)
    ensures DecodesTo(Written(OpsEvents(ops)), ops)
  {
    if ops == [] {
      assert Written(OpsEvents(ops)) == [];
    } else {
      var one, rest := Written(OpEvents(ops[0])), Written(OpsEvents(ops[1..]));
      WrittenAppend(OpEvents(ops[0]), OpsEvents(ops[1..]));
      OpRoundTrip(ops[0]);
      OpsRoundTrip(ops[1..]);
      LatchesAppend(one, rest);
      PairedAppend(Latches(one), Latches(rest));
      assert [ops[0]] + ops[1..] == ops;
    }
  }

  /** Every byte the driver sends for any series of transfers has the
      backlight on and read/write clear, and the bytes come in pairs: one
      with the strobe set, then the same byte with only the strobe cleared. */
  lemma OpsBytes(ops: seq<Op>)
    ensures var b := Written(OpsEvents(ops));
            (forall k :: 0 <= k < |b| ==> b[k] & Backlight == Backlight && b[k] & ReadWrite == 0) &&
            (forall k :: 0 <= k < |b| && k % 2 == 0 ==>
               b[k] & Enable == Enable && k + 1 < |b| && b[k + 1] == b[k] ^ Enable)
  {
    OpsRoundTrip(ops);
    FramedBytes(Written(OpsEvents(ops)));
  }

  lemma {:induction false} OpsSettled(ops: seq<Op>)
    ensures Settled(OpsEvents(ops))
  {
    if ops != [] {
      var op := ops[0];
      var ctl := ControlBits(op.Data?);
      var p, q := PulseEvents(HighNibble(op.code) | ctl), PulseEvents(LowNibble(op.code) | ctl);
      assert Settled(p) && Settled(q);
      SettledAppend(p, q);
      OpsSettled(ops[1..]);
      SettledAppend(OpEvents(op), OpsEvents(ops[1..]));
    }
  }
}
