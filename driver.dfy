/** The driver: each function of the C driver as a method that appends its
    bytes (and sleeps) to the bus, proved to append exactly the events its
    specification function names. */
module LcdDriver {
  import opened Seqs
  import opened Pcf8574
  import opened Hd44780
  import opened ColdStart
  import opened LineRenderer

  /** Sends a command byte in 4-bit mode, high nibble first, RS clear. */
  method SendCommand(bus: Bus, cmd: bv8)
    modifies bus
    ensures bus.trace == old(bus.trace) + OpEvents(Command(cmd))
  {
    var high := cmd & 0xF0;
    var low := (cmd << 4) & 0xF0;
    ghost var t0 := bus.trace;
    bus.WriteByte(high | Backlight | Enable);
    bus.WriteByte(high | Backlight);
    bus.WriteByte(low | Backlight | Enable);
    bus.WriteByte(low | Backlight);
    FourWrites(t0, bus.trace, high | Backlight | Enable, high | Backlight, low | Backlight | Enable, low | Backlight);
    Framing(Command(cmd), high | Backlight, low | Backlight);
  }

  /** Sends a character byte in 4-bit mode, high nibble first, RS set. */
  method SendChar(bus: Bus, c: bv8)
    modifies bus
    ensures bus.trace == old(bus.trace) + OpEvents(Data(c))
  {
    var high := c & 0xF0;
    var low := (c << 4) & 0xF0;
    ghost var t0 := bus.trace;
    bus.WriteByte(high | Backlight | Enable | RegisterSelect);
    bus.WriteByte(high | Backlight | RegisterSelect);
    bus.WriteByte(low | Backlight | Enable | RegisterSelect);
    bus.WriteByte(low | Backlight | RegisterSelect);
    FourWrites(t0, bus.trace, high | Backlight | Enable | RegisterSelect, high | Backlight | RegisterSelect,
               low | Backlight | Enable | RegisterSelect, low | Backlight | RegisterSelect);
    assert high | Backlight | Enable | RegisterSelect == (high | Backlight | RegisterSelect) | Enable;
    assert low | Backlight | Enable | RegisterSelect == (low | Backlight | RegisterSelect) | Enable;
    Framing(Data(c), high | Backlight | RegisterSelect, low | Backlight | RegisterSelect);
  }

  lemma FourWrites(t0: seq<Event>, t: seq<Event>, a: bv8, b: bv8, c: bv8, d: bv8)
    requires t == t0 + [Write(a), Delay(SettleMicros)] + [Write(b), Delay(SettleMicros)] +
                  [Write(c), Delay(SettleMicros)] + [Write(d), Delay(SettleMicros)]
    ensures t == t0 + [Write(a), Delay(SettleMicros), Write(b), Delay(SettleMicros),
                       Write(c), Delay(SettleMicros), Write(d), Delay(SettleMicros)]
  {
  }

  lemma Framing(op: Op, hi: bv8, lo: bv8)
    requires hi == HighNibble(op.code) | ControlBits(op.Data?)
    requires lo == LowNibble(op.code) | ControlBits(op.Data?)
    ensures OpEvents(op) == [Write(hi | Enable), Delay(SettleMicros), Write(hi), Delay(SettleMicros),
                             Write(lo | Enable), Delay(SettleMicros), Write(lo), Delay(SettleMicros)]
  {
  }

  /** Brings the controller from its power-on state into 4-bit, two-line
      mode with the display on, cleared, and the cursor advancing. */
  method InitSequence(bus: Bus)
    modifies bus
    ensures bus.trace == old(bus.trace) + InitEvents()
  {
    bus.Sleep(PowerOnMicros);
    for i := 0 to ResetCount
      invariant bus.trace == old(bus.trace) + [Delay(PowerOnMicros)] + ResetEvents(i)
    {
      ghost var t := bus.trace;
      bus.WriteByte(ResetNibble | Backlight | Enable);
      bus.WriteByte(ResetNibble | Backlight);
      bus.Sleep(ResetMicros);
      ResetExtend(old(bus.trace), t, bus.trace, i);
    }
    ghost var t1 := bus.trace;
    bus.WriteByte(FourBitNibble | Backlight | Enable);
    bus.WriteByte(FourBitNibble | Backlight);
    bus.Sleep(ResetMicros);
    ghost var t2 := bus.trace;
    SendCommand(bus, FunctionSet);
    SendCommand(bus, DisplayOn);
    SendCommand(bus, ClearDisplay);
    SendCommand(bus, EntryMode);
    ghost var t3 := bus.trace;
    bus.Sleep(FinalMicros);
    InitAssemble(old(bus.trace), t1, t2, t3, bus.trace);
  }

  lemma ResetExtend(t0: seq<Event>, t: seq<Event>, u: seq<Event>, i: nat)
    requires t == t0 + [Delay(PowerOnMicros)] + ResetEvents(i)
    requires u == t + [Write(ResetNibble | Backlight | Enable), Delay(SettleMicros)] +
                  [Write(ResetNibble | Backlight), Delay(SettleMicros)] + [Delay(ResetMicros)]
    ensures u == t0 + [Delay(PowerOnMicros)] + ResetEvents(i + 1)
  {
    var p := PulseEvents(ResetNibble | Backlight);
    assert ResetEvents(i + 1) == ResetEvents(i) + p + [Delay(ResetMicros)];
  }

  lemma InitAssemble(t0: seq<Event>, t1: seq<Event>, t2: seq<Event>, t3: seq<Event>, t: seq<Event>)
    requires t1 == t0 + [Delay(PowerOnMicros)] + ResetEvents(ResetCount)
    requires t2 == t1 + [Write(FourBitNibble | Backlight | Enable), Delay(SettleMicros)] +
                   [Write(FourBitNibble | Backlight), Delay(SettleMicros)] + [Delay(ResetMicros)]
    requires t3 == t2 + OpEvents(Command(FunctionSet)) + OpEvents(Command(DisplayOn)) +
                   OpEvents(Command(ClearDisplay)) + OpEvents(Command(EntryMode))
    requires t == t3 + [Delay(FinalMicros)]
    ensures t == t0 + InitEvents()
  {
    InitOpsEvents();
    var c1, c2, c3, c4 := OpEvents(Command(FunctionSet)), OpEvents(Command(DisplayOn)),
                          OpEvents(Command(ClearDisplay)), OpEvents(Command(EntryMode));
    var w1, w2 := [Write(FourBitNibble | Backlight | Enable), Delay(SettleMicros)], [Write(FourBitNibble | Backlight), Delay(SettleMicros)];
    var pre, mode, w, fin := [Delay(PowerOnMicros)], PulseEvents(FourBitNibble | Backlight), [Delay(ResetMicros)], [Delay(FinalMicros)];
    var p := pre + ResetEvents(ResetCount);
    var a := p + mode;
    var b := a + w;
    var cmds := OpsEvents(InitOps);
    var c := b + cmds;
    assert InitEvents() == c + fin;
    AppendAssoc(t0, pre, ResetEvents(ResetCount));
    assert t1 == t0 + p;
    AppendAssoc(t1, w1, w2);
    assert w1 + w2 == mode;
    AppendAssoc(t0, p, mode);
    AppendAssoc(t0, a, w);
    assert t2 == t0 + b;
    AppendAssoc(t2, c1, c2);
    AppendAssoc(t2, c1 + c2, c3);
    AppendAssoc(t2, c1 + c2 + c3, c4);
    assert t3 == t2 + cmds;
    AppendAssoc(t0, b, cmds);
    AppendAssoc(t0, c, fin);
  }

  /** The bus after one more transfer. */
  lemma Extend(t0: seq<Event>, t: seq<Event>, done: seq<Op>, op: Op)
    requires t == t0 + OpsEvents(done) + OpEvents(op)
    ensures t == t0 + OpsEvents(done + [op])
  {
    OpsEventsAppend(done, [op]);
    SingleOpEvents(op);
    AppendAssoc(t0, OpsEvents(done), OpEvents(op));
  }

  /** Renders one line of text. The text is walked as a C string, with its
      terminator after the last byte (see CharAt). When the pointer has been
      advanced past the terminator (only on the overrun input) the C code goes
      on reading memory beyond the string; the model stops there and reports
      it. */
  method SendString(bus: Bus, s: seq<bv8>) returns (overrun: bool)
    requires IsCString(s)
    modifies bus
    ensures overrun == Overruns(s)
    ensures bus.trace == old(bus.trace) + OpsEvents(RenderOps(s))
  {
    var i := 0;
    var counter := 0;
    overrun := false;
    while CharAt(s, i) != Nul
      invariant LoopState(s, i, counter)
      invariant bus.trace == old(bus.trace) + OpsEvents(Emitted(s, i, counter))
      decreases |s| - i
    {
      ghost var at, k := i, counter;
      if counter == Columns {
        SendCommand(bus, RowTwo);
        JumpTrace(old(bus.trace), bus.trace, s, at, k);
        if CharAt(s, i) == Space {
          i := i + 1;
        }
      }
      ghost var pos := i;
      var c := CharAt(s, i);
      // printable ASCII is sent as is, anything else as a blank
      var shown := if IsPrintable(c) then c else Space;
      SendChar(bus, shown);
      counter := counter + 1;
      i := i + 1;
      if i > |s| {
        // the pointer has stepped past the terminator
        OverrunTrace(old(bus.trace), bus.trace, s, at, k, pos);
        overrun := true;
        return;
      }
      StepTrace(old(bus.trace), bus.trace, s, at, k, pos);
    }
    RenderDone(s, counter);
  }

  /** The trace after the jump to row two. */
  lemma JumpTrace(t0: seq<Event>, t: seq<Event>, s: seq<bv8>, at: nat, k: nat)
    requires LoopState(s, at, k) && k == Columns
    requires t == t0 + OpsEvents(Emitted(s, at, k)) + OpEvents(Command(RowTwo))
    ensures t == t0 + OpsEvents(Jumped(s, at, k))
  {
    Extend(t0, t, Emitted(s, at, k), Command(RowTwo));
  }

  /** The trace after an ordinary iteration. */
  lemma StepTrace(t0: seq<Event>, t: seq<Event>, s: seq<bv8>, at: nat, k: nat, pos: nat)
    requires at < |s| && LoopState(s, at, k)
    requires pos == (if k == Columns && s[at] == Space then at + 1 else at) && pos < |s|
    requires t == t0 + OpsEvents(Jumped(s, at, k)) + OpEvents(Data(Shown(CharAt(s, pos))))
    ensures LoopState(s, pos + 1, k + 1)
    ensures t == t0 + OpsEvents(Emitted(s, pos + 1, k + 1))
  {
    Extend(t0, t, Jumped(s, at, k), Data(Shown(CharAt(s, pos))));
    RenderStep(s, at, k, pos);
  }

  /** The trace after the iteration that steps past the terminator. */
  lemma OverrunTrace(t0: seq<Event>, t: seq<Event>, s: seq<bv8>, at: nat, k: nat, pos: nat)
    requires at < |s| && LoopState(s, at, k)
    requires k == Columns && s[at] == Space && pos == at + 1 == |s|
    requires t == t0 + OpsEvents(Jumped(s, at, k)) + OpEvents(Data(Shown(CharAt(s, pos))))
    ensures Overruns(s)
    ensures t == t0 + OpsEvents(RenderOps(s))
  {
    Extend(t0, t, Jumped(s, at, k), Data(Shown(CharAt(s, pos))));
    OverrunStep(s, at, k, pos);
  }

  /** The loop state of SendString after `counter` iterations that have
      consumed s[..i]. */
  ghost predicate LoopState(s: seq<bv8>, i: nat, counter: nat)
  {
    i <= |s| &&
    if counter <= Columns then i == counter
    else |s| > Columns && !Overruns(s) && i == counter + Skipped(s)
  }

  /** The transfers SendString has emitted in that state. */
  ghost function Emitted(s: seq<bv8>, i: nat, counter: nat): seq<Op>
    requires LoopState(s, i, counter)
  {
    if counter <= Columns then CharOps(s[..i])
    else CharOps(s[..Columns]) + [Command(RowTwo)] + CharOps(s[Columns + Skipped(s)..i])
  }

  /** What has been emitted once an iteration has passed the boundary check:
      the jump to row two is added when the counter is at the boundary. */
  ghost function Jumped(s: seq<bv8>, i: nat, counter: nat): seq<Op>
    requires LoopState(s, i, counter)
  {
    if counter == Columns then Emitted(s, i, counter) + [Command(RowTwo)] else Emitted(s, i, counter)
  }

  /** One ordinary iteration of the rendering loop: the jump to row two when
      the counter is at the boundary, then one character write. */
  lemma RenderStep(s: seq<bv8>, at: nat, k: nat, pos: nat)
    requires at < |s| && LoopState(s, at, k)
    requires pos == (if k == Columns && s[at] == Space then at + 1 else at)
    requires pos < |s|
    ensures LoopState(s, pos + 1, k + 1)
    ensures Emitted(s, pos + 1, k + 1) == Jumped(s, at, k) + [Data(Shown(CharAt(s, pos)))]
  {
    if k < Columns {
      StepOnRowOne(s, at, k);
    } else if k == Columns {
      StepAtBoundary(s, at, pos);
    } else {
      StepOnRowTwo(s, at, k);
    }
  }

  /** An iteration on the first row appends one character write. */
  lemma StepOnRowOne(s: seq<bv8>, at: nat, k: nat)
    requires at < |s| && LoopState(s, at, k) && k < Columns
    ensures LoopState(s, at + 1, k + 1)
    ensures Emitted(s, at + 1, k + 1) == Emitted(s, at, k) + [Data(Shown(CharAt(s, at)))]
  {
    CharOpsAppend(s[..at], [s[at]]);
    assert s[..at + 1] == s[..at] + [s[at]];
  }

  /** The iteration at the boundary jumps to row two, skips a space found
      there and writes the character after it. */
  lemma StepAtBoundary(s: seq<bv8>, at: nat, pos: nat)
    requires at < |s| && LoopState(s, at, Columns)
    requires pos == (if s[at] == Space then at + 1 else at) && pos < |s|
    ensures LoopState(s, pos + 1, Columns + 1)
    ensures Emitted(s, pos + 1, Columns + 1) ==
              Emitted(s, at, Columns) + [Command(RowTwo)] + [Data(Shown(CharAt(s, pos)))]
  {
    assert s[..at] == s[..Columns];
    assert s[Columns + Skipped(s)..pos + 1] == [s[pos]];
  }

  /** An iteration on the second row appends one character write. */
  lemma StepOnRowTwo(s: seq<bv8>, at: nat, k: nat)
    requires at < |s| && LoopState(s, at, k) && k > Columns
    ensures LoopState(s, at + 1, k + 1)
    ensures Emitted(s, at + 1, k + 1) == Emitted(s, at, k) + [Data(Shown(CharAt(s, at)))]
  {
    var from := Columns + Skipped(s);
    var head := CharOps(s[..Columns]) + [Command(RowTwo)];
    CharOpsAppend(s[from..at], [s[at]]);
    assert s[from..at + 1] == s[from..at] + [s[at]];
    assert CharOps([s[at]]) == [Data(Shown(CharAt(s, at)))];
    AppendAssoc(head, CharOps(s[from..at]), CharOps([s[at]]));
    calc {
      Emitted(s, at + 1, k + 1);
      head + CharOps(s[from..at + 1]);
      head + (CharOps(s[from..at]) + CharOps([s[at]]));
      head + CharOps(s[from..at]) + CharOps([s[at]]);
      Emitted(s, at, k) + [Data(Shown(CharAt(s, at)))];
    }
  }

  /** The iteration that skips the boundary space when it is the last
      character: it writes the blank for the terminator and leaves the
      pointer beyond it. */
  lemma OverrunStep(s: seq<bv8>, at: nat, k: nat, pos: nat)
    requires at < |s| && LoopState(s, at, k)
    requires k == Columns && s[at] == Space && pos == at + 1 == |s|
    ensures Overruns(s)
    ensures RenderOps(s) == Jumped(s, at, k) + [Data(Shown(CharAt(s, pos)))]
  {
    assert s[..at] == s[..Columns];
    assert CharOps([Nul]) == [Data(Shown(Nul))];
  }

  /** The loop ends at the terminator with everything emitted. */
  lemma RenderDone(s: seq<bv8>, counter: nat)
    requires LoopState(s, |s|, counter)
    ensures !Overruns(s) && Emitted(s, |s|, counter) == RenderOps(s)
  {
    assert s[..|s|] == s;
    if counter > Columns {
      assert s[Columns + Skipped(s)..|s|] == s[Columns + Skipped(s)..];
    }
  }
}
