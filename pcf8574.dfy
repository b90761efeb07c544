/** The transport: a PCF8574 I2C expander whose eight output pins drive the
    HD44780 data lines D4..D7 (bits 7..4) and its control lines (bits 3..0).
    The bus is observed as the ordered trace of what the driver does to it:
    single-byte writes to the expander and the sleeps between them. */
module Pcf8574 {

  /** Control-line masks in the low nibble of every expander byte. */
  const RegisterSelect: bv8 := 0x01  // 0 = command, 1 = character data
  const ReadWrite: bv8 := 0x02       // 0 = write; the driver never reads
  const Enable: bv8 := 0x04          // strobe that latches the data nibble
  const Backlight: bv8 := 0x08       // backlight transistor

  /** Settle time, in microseconds, that follows every byte written. */
  const SettleMicros: nat := 100

  /** One observable step on the bus: a byte written to the expander at its
      fixed address, or a sleep of the given number of microseconds. */
  datatype Event = Write(val: bv8) | Delay(us: nat)

  /** The bytes of a trace, in the order they reach the expander. */
  function Written(ev: seq<Event>): (r: seq<bv8>)
    ensures |r| <= |ev|
  {
    if ev == [] then []
    else (if ev[0].Write? then [ev[0].val] else []) + Written(ev[1..])
  }

  lemma {:induction false} WrittenAppend(a: seq<Event>, b: seq<Event>)
    ensures Written(a + b) == Written(a) + Written(b)
  {
    if a == [] {
      assert a + b == b;
    } else {
      var head := if a[0].Write? then [a[0].val] else [];
      calc {
        Written(a + b);
        head + Written((a + b)[1..]);
        { assert (a + b)[1..] == a[1..] + b; }
        head + Written(a[1..] + b);
        { WrittenAppend(a[1..], b); }
        head + (Written(a[1..]) + Written(b));
      }
    }
  }

  /** Every byte written is followed at once by the settle delay. */
  ghost predicate Settled(ev: seq<Event>)
  {
    forall k :: 0 <= k < |ev| && ev[k].Write? ==> k + 1 < |ev| && ev[k + 1] == Delay(SettleMicros)
  }

  lemma SettledAppend(a: seq<Event>, b: seq<Event>)
    requires Settled(a) && Settled(b)
    ensures Settled(a + b)
  {
    forall k | 0 <= k < |a + b| && (a + b)[k].Write?
      ensures k + 1 < |a + b| && (a + b)[k + 1] == Delay(SettleMicros)
    {
      if k < |a| {
        assert (a + b)[k] == a[k];
        assert (a + b)[k + 1] == a[k + 1];
      } else {
        assert (a + b)[k] == b[k - |a|];
        assert (a + b)[k + 1] == b[k + 1 - |a|];
      }
    }
  }

  /** The I2C bus with the LCD backpack on it. The trace is the only state. */
  class Bus {
    var trace: seq<Event>

    constructor ()
      ensures trace == []
    {
      trace := [];
    }

    /** Writes one byte to the expander and waits for it to settle; the only
        operation that puts a byte on the bus. */
    method WriteByte(val: bv8)
      modifies this
      ensures trace == old(trace) + [Write(val), Delay(SettleMicros)]
    {
      trace := trace + [Write(val), Delay(SettleMicros)];
    }

    /** Sleeps for the given number of microseconds; nothing is written. */
    method Sleep(us: nat)
      modifies this
      ensures trace == old(trace) + [Delay(us)]
    {
      trace := trace + [Delay(us)];
    }
  }
}
