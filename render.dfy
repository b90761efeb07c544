/** The line renderer: which transfers one line of text becomes on a
    16x2 display, with the substitution of non-printable bytes, the jump to
    row two after sixteen characters and the skipped space at that jump. */
module LineRenderer {
  import opened Hd44780

  const Columns: nat := 16        // characters on one row
  const RowTwo: bv8 := 0xC0       // set DDRAM address 0x40, the start of row two
  const Space: bv8 := 0x20
  const Nul: bv8 := 0x00          // the C string terminator

  /** Printable ASCII, 32..126 inclusive. */
  predicate IsPrintable(c: bv8)
  {
    32 <= c <= 126
  }

  /** The character actually written for source byte c. */
  function Shown(c: bv8): (r: bv8)
    ensures IsPrintable(r)
    ensures IsPrintable(c) ==> r == c
    ensures !IsPrintable(c) ==> r == Space
  {
    if IsPrintable(c) then c else Space
  }

  /** The text a C string holds: no byte is the terminator. */
  predicate IsCString(s: seq<bv8>)
  {
    forall k :: 0 <= k < |s| ==> s[k] != Nul
  }

  /** The byte a pointer at offset i into the C string holding s reads: the
      terminator at offset |s|. */
  function CharAt(s: seq<bv8>, i: nat): (c: bv8)
    requires i <= |s|
    ensures IsCString(s) ==> (c == Nul <==> i == |s|)
    ensures i < |s| ==> c == s[i]
  {
    if i < |s| then s[i] else Nul
  }

  /** One character write per byte, in order. */
  function CharOps(s: seq<bv8>): (r: seq<Op>)
    ensures |r| == |s|
    ensures forall k :: 0 <= k < |s| ==> r[k] == Data(Shown(s[k]))
  {
    if s == [] then [] else [Data(Shown(s[0]))] + CharOps(s[1..])
  }

  lemma CharOpsAppend(a: seq<bv8>, b: seq<bv8>)
    ensures CharOps(a + b) == CharOps(a) + CharOps(b)
  {
    var l, r := CharOps(a + b), CharOps(a) + CharOps(b);
    assert |l| == |r|;
    forall k | 0 <= k < |l| ensures l[k] == r[k] {
      if k < |a| { assert (a + b)[k] == a[k]; } else { assert (a + b)[k] == b[k - |a|]; }
    }
  }

  /** The one input on which the C loop steps past the terminator: the space
      that is skipped at the jump to row two is the last character, so the
      terminator is read (and written as a blank) and the pointer is then
      advanced beyond it. */
  predicate Overruns(s: seq<bv8>)
  {
    |s| == Columns + 1 && s[Columns] == Space
  }

  /** 1 when the byte at the row boundary is a space that is skipped. */
  function Skipped(s: seq<bv8>): (r: nat)
    ensures r <= 1
  {
    if |s| > Columns && s[Columns] == Space then 1 else 0
  }

  /** What follows the jump to row two: the bytes after the first sixteen,
      less a leading space. When that space is the last byte, the C loop
      reads the terminator instead. */
  function Rest(s: seq<bv8>): (r: seq<bv8>)
    requires |s| > Columns
    ensures |r| == |s| - Columns - Skipped(s) || (Overruns(s) && r == [Nul])
  {
    if s[Columns] != Space then s[Columns..]
    else if |s| == Columns + 1 then [Nul]
    else s[Columns + 1..]
  }

  /** The transfers rendering s produces, stated as a whole rather than as the
      loop: the first sixteen characters, then (for longer input) the jump to
      row two and what follows it. */
  function RenderOps(s: seq<bv8>): seq<Op>
  {
    if |s| <= Columns then CharOps(s)
    else CharOps(s[..Columns]) + [Command(RowTwo)] + CharOps(Rest(s))
  }

  /** The characters that end up on the display: s without the one space
      at the row boundary, unless that space is the last character (then
      the blank written for the terminator takes its place). */
  function Visible(s: seq<bv8>): (r: seq<bv8>)
    ensures |r| == |s| - (if Overruns(s) then 0 else Skipped(s))
  {
    if |s| > Columns + 1 && s[Columns] == Space then s[..Columns] + s[Columns + 1..] else s
  }

  lemma IndexAround(a: seq<Op>, x: Op, b: seq<Op>, k: nat)
    requires k < |a| + 1 + |b|
    ensures (a + [x] + b)[k] == if k < |a| then a[k] else if k == |a| then x else b[k - |a| - 1]
  {
  }

  /** Each transfer of the rendering, by position. */
  lemma RenderAt(s: seq<bv8>, k: nat)
    requires k < |RenderOps(s)|
    ensures |s| <= Columns ==> RenderOps(s)[k] == Data(Shown(s[k]))
    ensures |s| > Columns && k < Columns ==> RenderOps(s)[k] == Data(Shown(s[k]))
    ensures |s| > Columns && k == Columns ==> RenderOps(s)[k] == Command(RowTwo)
    ensures |s| > Columns && k > Columns ==> RenderOps(s)[k] == Data(Shown(Rest(s)[k - Columns - 1]))
  {
    if |s| > Columns {
      WrappedAt(s, k);
    }
  }

  /** The positions of a wrapped rendering: row one, the jump, row two. */
  lemma WrappedAt(s: seq<bv8>, k: nat)
    requires |s| > Columns && k < Columns + 1 + |Rest(s)|
    ensures |RenderOps(s)| == Columns + 1 + |Rest(s)|
    ensures k < Columns ==> RenderOps(s)[k] == Data(Shown(s[k]))
    ensures k == Columns ==> RenderOps(s)[k] == Command(RowTwo)
    ensures k > Columns ==> RenderOps(s)[k] == Data(Shown(Rest(s)[k - Columns - 1]))
  {
    var a, b := CharOps(s[..Columns]), CharOps(Rest(s));
    IndexAround(a, Command(RowTwo), b, k);
    if k < Columns {
      assert s[..Columns][k] == s[k];
    }
  }

  /** Input of at most sixteen characters gives only character writes, one
      per byte. */
  lemma RenderShort(s: seq<bv8>)
    requires |s| <= Columns
    ensures RenderOps(s) == CharOps(s)
    ensures forall k :: 0 <= k < |RenderOps(s)| ==> RenderOps(s)[k].Data?
  {
  }

  /** The jump to row two is issued at most once: exactly when a
      seventeenth character is reached, and right before its write. */
  lemma RenderWrap(s: seq<bv8>)
    ensures forall k :: 0 <= k < |RenderOps(s)| ==>
              (RenderOps(s)[k].Command? <==> |s| > Columns && k == Columns)
    ensures |s| > Columns ==>
              |RenderOps(s)| > Columns + 1 && RenderOps(s)[Columns] == Command(RowTwo) && RenderOps(s)[Columns + 1].Data?
  {
    forall k | 0 <= k < |RenderOps(s)|
      ensures RenderOps(s)[k].Command? <==> |s| > Columns && k == Columns
    {
      RenderAt(s, k);
    }
    if |s| > Columns {
      RenderAt(s, Columns + 1);
    }
  }

  /** Every character written is printable ASCII. */
  lemma RenderPrintable(s: seq<bv8>)
    ensures forall k :: 0 <= k < |RenderOps(s)| && RenderOps(s)[k].Data? ==>
              IsPrintable(RenderOps(s)[k].code)
  {
    forall k | 0 <= k < |RenderOps(s)| && RenderOps(s)[k].Data?
      ensures IsPrintable(RenderOps(s)[k].code)
    {
      RenderAt(s, k);
    }
  }

  /** One character write per loop iteration, and the characters written
      are the visible text: on row one its first sixteen bytes, after the
      jump the rest. Only the one space at the boundary is dropped. */
  lemma RenderVisible(s: seq<bv8>)
    ensures |s| <= Columns ==> RenderOps(s) == CharOps(Visible(s))
    ensures |s| > Columns ==>
              RenderOps(s) == CharOps(Visible(s)[..Columns]) + [Command(RowTwo)] + CharOps(Visible(s)[Columns..])
    ensures |RenderOps(s)| == |Visible(s)| + (if |s| > Columns then 1 else 0)
  {
    if |s| > Columns {
      var v := Visible(s);
      assert v[..Columns] == s[..Columns];
      if Overruns(s) {
        assert v[Columns..] == [Space];
        assert CharOps(Rest(s)) == [Data(Space)] == CharOps([Space]);
      } else if s[Columns] == Space {
        assert v[Columns..] == s[Columns + 1..] == Rest(s);
      } else {
        assert v == s;
      }
    }
  }

  /** A space at the row boundary with more text after it is consumed
      without being written: the jump is followed at once by the byte after
      the space, and only that one space is dropped. */
  lemma RenderSpaceSkip(s: seq<bv8>)
    requires |s| > Columns + 1 && s[Columns] == Space
    ensures RenderOps(s)[..Columns + 1] == CharOps(s[..Columns]) + [Command(RowTwo)]
    ensures RenderOps(s)[Columns + 1..] == CharOps(s[Columns + 1..])
    ensures |RenderOps(s)| == |s|
  {
    var a := CharOps(s[..Columns]) + [Command(RowTwo)];
    assert Rest(s) == s[Columns + 1..];
    assert RenderOps(s) == a + CharOps(s[Columns + 1..]);
  }

  /** On the overrun input the blank written after the jump stands for the
      terminator, not the skipped space; the display is the same as if the
      space had been written. */
  lemma RenderOverrun(s: seq<bv8>)
    requires Overruns(s)
    ensures RenderOps(s) == CharOps(s[..Columns]) + [Command(RowTwo), Data(Space)]
    ensures RenderOps(s) == CharOps(s[..Columns]) + [Command(RowTwo)] + CharOps(s[Columns..])
    ensures Visible(s) == s && |RenderOps(s)| == Columns + 2
  {
    assert CharOps(Rest(s)) == [Data(Space)];
    assert s[Columns..] == [Space];
    assert CharOps([Space]) == [Data(Space)];
  }

  /** Text longer than a row whose seventeenth byte is not a space: every
      byte is written, with the jump to row two right after the sixteenth. */
  lemma NoSpaceAtBoundary(s: seq<bv8>)
    requires |s| > Columns && s[Columns] != Space
    ensures RenderOps(s) == CharOps(s[..Columns]) + [Command(RowTwo)] + CharOps(s[Columns..])
    ensures |RenderOps(s)| == |s| + 1
  {
  }

  /** Sixteen bytes, a space, then one more byte: the space is dropped and
      row two receives only that last byte. */
  lemma SpaceThenLast(s: seq<bv8>)
    requires |s| == Columns + 2 && s[Columns] == Space
    ensures RenderOps(s) == CharOps(s[..Columns]) + [Command(RowTwo), Data(Shown(s[Columns + 1]))]
  {
    assert s[Columns + 1..] == [s[Columns + 1]];
  }

  /** Two spaces at the boundary: only the first is dropped, so row two
      starts with the second. */
  lemma TwoSpacesAtBoundary(s: seq<bv8>)
    requires |s| > Columns + 1 && s[Columns] == Space && s[Columns + 1] == Space
    ensures |RenderOps(s)| == |s|
    ensures RenderOps(s)[Columns] == Command(RowTwo) && RenderOps(s)[Columns + 1] == Data(Space)
  {
    RenderAt(s, Columns);
    RenderAt(s, Columns + 1);
  }
}
