/** The cold-start sequence, as the bus sees it: the driver's variant of
    the HD44780U "initializing by instruction" procedure for a 4-bit
    interface (it turns the display on before the clear). */
module ColdStart {
  import opened Pcf8574
  import opened Hd44780

  const PowerOnMicros: nat := 50000  // wait for the supply to settle
  const ResetMicros: nat := 5000     // wait after each reset and mode nibble
  const FinalMicros: nat := 1000     // wait after the last command

  /** Nibble 0x3 in the upper half: "function set, 8-bit interface". */
  const ResetNibble: bv8 := 0x30
  /** Nibble 0x2 in the upper half: "function set, 4-bit interface". */
  const FourBitNibble: bv8 := 0x20

  const FunctionSet: bv8 := 0x28   // 4-bit interface, two lines, 5x8 dots
  const DisplayOn: bv8 := 0x0C     // display on, cursor off, blink off
  const ClearDisplay: bv8 := 0x01  // clear DDRAM, cursor home
  const EntryMode: bv8 := 0x06     // increment the address, no display shift

  const InitOps: seq<Op> := [Command(FunctionSet), Command(DisplayOn), Command(ClearDisplay), Command(EntryMode)]

  /** The reset nibble is sent this many times. */
  const ResetCount: nat := 3

  /** The 24 bytes of the cold start: three 0x3 reset pulses, one 0x2 mode
      pulse, then 0x28, 0x0C, 0x01 and 0x06 as four bytes each. */
  const InitBytesLiteral: seq<bv8> :=
    [0x3C, 0x38, 0x3C, 0x38, 0x3C, 0x38,
     0x2C, 0x28,
     0x2C, 0x28, 0x8C, 0x88,
     0x0C, 0x08, 0xCC, 0xC8,
     0x0C, 0x08, 0x1C, 0x18,
     0x0C, 0x08, 0x6C, 0x68]

  /** The first k reset pulses, each followed by its wait. */
  function ResetEvents(k: nat): seq<Event>
  {
    if k == 0 then [] else ResetEvents(k - 1) + PulseEvents(ResetNibble | Backlight) + [Delay(ResetMicros)]
  }

  /** Everything the cold start does to the bus, in order. */
  function InitEvents(): seq<Event>
  {
    [Delay(PowerOnMicros)] + ResetEvents(ResetCount) +
    PulseEvents(FourBitNibble | Backlight) + [Delay(ResetMicros)] +
    OpsEvents(InitOps) + [Delay(FinalMicros)]
  }

  lemma InitOpsEvents()
    ensures OpsEvents(InitOps) ==
      OpEvents(Command(FunctionSet)) + OpEvents(Command(DisplayOn)) + OpEvents(Command(ClearDisplay)) + OpEvents(Command(EntryMode))
  {
    var c1, c2, c3, c4 := Command(FunctionSet), Command(DisplayOn), Command(ClearDisplay), Command(EntryMode);
    assert InitOps == [c1] + [c2] + [c3] + [c4];
    SingleOpEvents(c1);
    SingleOpEvents(c2);
    SingleOpEvents(c3);
    SingleOpEvents(c4);
    OpsEventsAppend([c1], [c2]);
    OpsEventsAppend([c1] + [c2], [c3]);
    OpsEventsAppend([c1] + [c2] + [c3], [c4]);
  }

  lemma DelayWritten(us: nat)
    ensures Written([Delay(us)]) == []
  {
    assert [Delay(us)][1..] == [];
  }

  lemma ResetStep(k: nat)
    requires 1 <= k
    ensures Written(ResetEvents(k)) == Written(ResetEvents(k - 1)) + [0x3C, 0x38]
  {
    var p := PulseEvents(ResetNibble | Backlight);
    PulseWritten(ResetNibble | Backlight);
    DelayWritten(ResetMicros);
    WrittenAppend(ResetEvents(k - 1) + p, [Delay(ResetMicros)]);
    WrittenAppend(ResetEvents(k - 1), p);
  }

  lemma ResetWritten()
    ensures Written(ResetEvents(ResetCount)) == [0x3C, 0x38, 0x3C, 0x38, 0x3C, 0x38]
  {
    assert Written(ResetEvents(0)) == [];
    ResetStep(1);
    ResetStep(2);
    ResetStep(ResetCount);
  }

  /** The four set-up commands as bytes. */
  lemma InitOpsWritten()
    ensures Written(OpsEvents(InitOps)) ==
      [0x2C, 0x28, 0x8C, 0x88,
       0x0C, 0x08, 0xCC, 0xC8,
       0x0C, 0x08, 0x1C, 0x18,
       0x0C, 0x08, 0x6C, 0x68]
  {
    InitOpsEvents();
    var c1, c2, c3, c4 := OpEvents(Command(FunctionSet)), OpEvents(Command(DisplayOn)), OpEvents(Command(ClearDisplay)), OpEvents(Command(EntryMode));
    WrittenAppend(c1, c2);
    WrittenAppend(c1 + c2, c3);
    WrittenAppend(c1 + c2 + c3, c4);
    CommandBytes(FunctionSet);
    CommandBytes(DisplayOn);
    CommandBytes(ClearDisplay);
    CommandBytes(EntryMode);
  }

  lemma Concat24(a: seq<bv8>, b: seq<bv8>, c: seq<bv8>)
    requires a == [0x3C, 0x38, 0x3C, 0x38, 0x3C, 0x38] && b == [0x2C, 0x28]
    requires c == [0x2C, 0x28, 0x8C, 0x88, 0x0C, 0x08, 0xCC, 0xC8, 0x0C, 0x08, 0x1C, 0x18, 0x0C, 0x08, 0x6C, 0x68]
    ensures a + b + c == InitBytesLiteral
  {
  }

  /** Delays around three groups of events write nothing of their own. */
  lemma WrittenParts(pre: seq<Event>, x: seq<Event>, y: seq<Event>, w: seq<Event>, z: seq<Event>, fin: seq<Event>)
    requires Written(pre) == [] && Written(w) == [] && Written(fin) == []
    ensures Written(pre + x + y + w + z + fin) == Written(x) + Written(y) + Written(z)
  {
    calc {
      Written(pre + x + y + w + z + fin);
      { WrittenAppend(pre + x + y + w + z, fin); }
      Written(pre + x + y + w + z) + Written(fin);
      Written(pre + x + y + w + z);
      { WrittenAppend(pre + x + y + w, z); }
      Written(pre + x + y + w) + Written(z);
      { WrittenAppend(pre + x + y, w); }
      Written(pre + x + y) + Written(w) + Written(z);
      Written(pre + x + y) + Written(z);
      { WrittenAppend(pre + x, y); }
      Written(pre + x) + Written(y) + Written(z);
      { WrittenAppend(pre, x); }
      Written(pre) + Written(x) + Written(y) + Written(z);
      Written(x) + Written(y) + Written(z);
    }
  }

  /** The bytes of the cold start are those of its pulses and commands. */
  lemma InitWrittenParts()
    ensures Written(InitEvents()) ==
      Written(ResetEvents(ResetCount)) + Written(PulseEvents(FourBitNibble | Backlight)) + Written(OpsEvents(InitOps))
  {
    DelayWritten(PowerOnMicros);
    DelayWritten(ResetMicros);
    DelayWritten(FinalMicros);
    WrittenParts([Delay(PowerOnMicros)], ResetEvents(ResetCount), PulseEvents(FourBitNibble | Backlight),
                 [Delay(ResetMicros)], OpsEvents(InitOps), [Delay(FinalMicros)]);
  }

  /** The cold start writes exactly these 24 bytes: three 0x3 reset pulses,
      one 0x2 mode pulse, then the four commands, each as its four bytes. */
  lemma InitBytes()
    ensures Written(InitEvents()) == InitBytesLiteral
  {
    var x, y, z := Written(ResetEvents(ResetCount)), Written(PulseEvents(FourBitNibble | Backlight)), Written(OpsEvents(InitOps));
    InitWrittenParts();
    ResetWritten();
    PulseWritten(FourBitNibble | Backlight);
    InitOpsWritten();
    Concat24(x, y, z);
  }

  /** The reset and mode pulses as the controller latches them. */
  lemma HeadLatches()
    ensures var h := [0x3C, 0x38, 0x3C, 0x38, 0x3C, 0x38] + [0x2C, 0x28];
            Framed(h) && Latches(h) == [Latch(false, 0x3), Latch(false, 0x3), Latch(false, 0x3), Latch(false, 0x2)]
  {
    var h := [0x3C, 0x38, 0x3C, 0x38, 0x3C, 0x38] + [0x2C, 0x28];
    var t1 := [0x2C, 0x28];
    var t2 := [0x3C, 0x38, 0x2C, 0x28];
    var t3 := [0x3C, 0x38, 0x3C, 0x38, 0x2C, 0x28];
    assert IsPulse(0x2C, 0x28) && IsPulse(0x3C, 0x38);
    assert LatchOf(0x28) == Latch(false, 0x2) && LatchOf(0x38) == Latch(false, 0x3);
    FramedCons(0x2C, 0x28, []);
    assert [0x2C, 0x28] + [] == t1;
    FramedCons(0x3C, 0x38, t1);
    assert [0x3C, 0x38] + t1 == t2;
    FramedCons(0x3C, 0x38, t2);
    assert [0x3C, 0x38] + t2 == t3;
    FramedCons(0x3C, 0x38, t3);
    assert [0x3C, 0x38] + t3 == h;
  }

  /** Read back by the controller: three 8-bit reset latches and the 4-bit
      switch (all with RS clear), after which the remaining bytes are read in
      4-bit mode as exactly the four set-up commands. */
  lemma InitDecodes()
    ensures var b := Written(InitEvents());
            Framed(b) && |b| == 24 &&
            Latches(b)[..4] == [Latch(false, 0x3), Latch(false, 0x3), Latch(false, 0x3), Latch(false, 0x2)] &&
            DecodesTo(b[8..], InitOps)
  {
    var b := Written(InitEvents());
    var r, m, t := Written(ResetEvents(ResetCount)), Written(PulseEvents(FourBitNibble | Backlight)), Written(OpsEvents(InitOps));
    InitWrittenParts();
    ResetWritten();
    PulseWritten(FourBitNibble | Backlight);
    InitOpsWritten();
    var h := r + m;
    assert b == h + t;
    HeadLatches();
    OpsRoundTrip(InitOps);
    LatchesAppend(h, t);
    assert b[8..] == t;
    assert Latches(b)[..4] == Latches(h);
  }

  /** Every byte of the cold start has the backlight on and read/write
      clear, and the bytes come in enable-set / enable-cleared pairs. */
  lemma InitFramedBytes()
    ensures var b := Written(InitEvents());
            (forall k :: 0 <= k < |b| ==> b[k] & Backlight == Backlight && b[k] & ReadWrite == 0) &&
            (forall k :: 0 <= k < |b| && k % 2 == 0 ==>
               b[k] & Enable == Enable && k + 1 < |b| && b[k + 1] == b[k] ^ Enable)
  {
    InitDecodes();
    FramedBytes(Written(InitEvents()));
  }

  /** Every byte of the reset passes is followed by the settle delay. */
  lemma {:induction false} ResetSettled(k: nat)
    ensures Settled(ResetEvents(k))
  {
    if k > 0 {
      var r := PulseEvents(ResetNibble | Backlight);
      assert Settled(r) && Settled([Delay(ResetMicros)]);
      ResetSettled(k - 1);
      SettledAppend(ResetEvents(k - 1), r);
      SettledAppend(ResetEvents(k - 1) + r, [Delay(ResetMicros)]);
    }
  }

  /** Every byte of the cold start is followed by the settle delay. */
  lemma InitSettled()
    ensures Settled(InitEvents())
  {
    var pre := [Delay(PowerOnMicros)];
    var mode := PulseEvents(FourBitNibble | Backlight);
    var w := [Delay(ResetMicros)];
    var fin := [Delay(FinalMicros)];
    assert Settled(mode) && Settled(w) && Settled(pre) && Settled(fin);
    ResetSettled(ResetCount);
    OpsSettled(InitOps);
    SettledAppend(pre, ResetEvents(ResetCount));
    SettledAppend(pre + ResetEvents(ResetCount), mode);
    SettledAppend(pre + ResetEvents(ResetCount) + mode, w);
    SettledAppend(pre + ResetEvents(ResetCount) + mode + w, OpsEvents(InitOps));
    SettledAppend(pre + ResetEvents(ResetCount) + mode + w + OpsEvents(InitOps), fin);
  }
}
