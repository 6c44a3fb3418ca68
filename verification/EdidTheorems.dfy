/**
  What the parser reads back from an EDID written field by field, where the table of video codes is
  off by one, and what the checksums catch.
 */
module EdidTheorems {
  import opened RingMath
  import opened EdidSpec

  // ---------------------------------------------------------------- validity

  lemma HeaderIff(e: seq<nat>)
    requires Edid(e)
    ensures HeaderOk(e) <==> e[0] == 0 && e[7] == 0 && forall i | 1 <= i <= 6 :: e[i] == 255
  {
    var w := e[..8];
    assert forall i | 0 <= i < 8 :: w[i] == e[i];
    assert w == HEADER <==> forall i | 0 <= i < 8 :: w[i] == HEADER[i];
  }

  lemma {:induction false} SumChanges(e: seq<nat>, lo: nat, hi: nat, i: nat, b: nat)
    requires lo <= hi <= |e| && i < |e|
    ensures Sum(e[i := b], lo, hi) == Sum(e, lo, hi) + if lo <= i < hi then b - e[i] else 0
    decreases hi
  {
    if lo < hi {
      SumChanges(e, lo, hi - 1, i, b);
    }
  }

  /** No change of a single byte, in either block, passes the checksums. */
  lemma OneByteCaught(e: seq<nat>, i: nat, b: nat)
    requires Edid(e) && ChecksumsOk(e) && i < EDID_SIZE && b < 256 && b != e[i]
    ensures !ChecksumsOk(e[i := b])
  {
    SumChanges(e, 0, 128, i, b);
    SumChanges(e, 128, 256, i, b);
  }

  // ---------------------------------------------------------------- video codes

  /** The CEA table has an entry for each of the codes 1 to 127 and 193 to 219, in this order. */
  function TablePosition(vic: nat): int {
    if 1 <= vic <= 127 then vic - 1 else if 193 <= vic <= 219 then vic - 66 else -1
  }

  lemma PositionsFill(i: nat)
    requires i < 154
    ensures exists vic :: 0 <= vic < 256 && TablePosition(vic) == i
    ensures forall v, w | 0 <= v < w < 256 && TablePosition(v) == i :: TablePosition(w) != i
  {
    assert TablePosition(if i < 127 then i + 1 else i + 66) == i;
  }

  /**
    The parser finds a code's own entry exactly for the codes that are not in the upper range.  From
    193 on it takes the next code's entry, so the last code has none, and one entry is never used.
   */
  lemma VicIndexIff(vic: nat)
    requires vic < 256
    ensures VicIndex(vic) == TablePosition(vic) <==> !(193 <= vic <= 219)
    ensures 193 <= vic <= 218 ==> VicIndex(vic) == TablePosition(vic + 1)
    ensures vic == 219 ==> VicIndex(vic) < 0
    ensures VicIndex(vic) != TablePosition(193)
  {
  }

  /** What a byte of a video block adds: codes 1 to 64 with or without the native bit, the others as they are. */
  lemma CodeListed(b: nat, t: Tables)
    requires TablesOk(t) && b < 256
    ensures CodeModes(b, t) ==
            if 1 <= b <= 127 then [t.cea[b - 1]]
            else if 129 <= b <= 192 then [t.cea[b - 129]]
            else if 193 <= b <= 218 then [t.cea[b - 65]]
            else []
  {
  }

  lemma {:induction false} CodesInOrder(a: seq<nat>, b: seq<nat>, t: Tables)
    requires TablesOk(t)
    ensures VicModes(a + b, t) == VicModes(a, t) + VicModes(b, t)
  {
    if b == [] {
      assert a + b == a;
    } else {
      hide CodeModes, TablesOk;
      CodesInOrder(a, b[..|b| - 1], t);
      assert (a + b)[..|a + b| - 1] == a + b[..|b| - 1];
    }
  }

  /** A table's entries are selected one by one, in table order. */
  lemma {:induction false} SelectedInOrder(table: seq<Mode>, bits: seq<bool>, k: nat)
    requires k <= |bits| <= |table|
    ensures Selected(table, bits) == Selected(table[..k], bits[..k]) + Selected(table[k..], bits[k..])
    ensures |bits| == 1 ==> Selected(table, bits) == if bits[0] then [table[0]] else []
    decreases |bits|
  {
    if |bits| == k {
      assert bits[..k] == bits && bits[k..] == [];
      SamePrefix(table, table[..k], bits);
    } else {
      var n := |bits| - 1;
      SelectedInOrder(table, bits[..n], k);
      assert bits[..n][..k] == bits[..k] && bits[..n][k..] == bits[k..][..n - k];
    }
  }

  lemma {:induction false} SamePrefix(a: seq<Mode>, b: seq<Mode>, bits: seq<bool>)
    requires |bits| <= |a| && |bits| <= |b| && a[..|bits|] == b[..|bits|]
    ensures Selected(a, bits) == Selected(b, bits)
  {
    if bits != [] {
      var n := |bits| - 1;
      assert a[..n] == a[..n + 1][..n] && b[..n] == b[..n + 1][..n] && a[n] == a[..n + 1][n] && b[n] == b[..n + 1][n];
      SamePrefix(a, b, bits[..n]);
    }
  }

  /** The output list keeps what came first, 32 modes of it. */
  lemma FirstKept(s: seq<Mode>)
    ensures Capped(s) <= s && |Capped(s)| == if |s| < 32 then |s| else 32
  {
  }

  // ---------------------------------------------------------------- the whole EDID

  datatype Slot = Unused | Used(width: nat, height: nat, ratio: nat, refresh: nat)

  /** The two bytes of a standard timing. */
  predicate SlotWritten(e: seq<nat>, at: nat, s: Slot)
    requires at + 2 <= |e|
  {
    match s
    case Unused => e[at] == 1 && e[at + 1] == 1
    case Used(w, h, ratio, refresh) =>
      && 248 <= w <= 2288 && w % 8 == 0 && ratio < 4 && 60 <= refresh < 124 && Proportional(w, h, ratio)
      && !(w == 256 && ratio == 0 && refresh == 61)
      && e[at] == w / 8 - 31 && e[at + 1] == ratio * 64 + (refresh - 60)
  }

  function SlotModes(slots: seq<Slot>): seq<Mode> {
    if slots == [] then []
    else
      var k := |slots| - 1;
      SlotModes(slots[..k]) +
      match slots[k]
      case Unused => []
      case Used(w, h, _, refresh) => [Mode(w, h, refresh as real)]
  }

  datatype Timing = Display | Detailed(clock: nat, hActive: nat, hBlank: nat, vActive: nat, vBlank: nat)

  /** The 18 bytes of a descriptor: a display descriptor starts with two zeroes. */
  predicate TimingWritten(e: seq<nat>, at: nat, t: Timing)
    requires at + 18 <= |e|
  {
    match t
    case Display => e[at] == 0 && e[at + 1] == 0
    case Detailed(clock, ha, hb, va, vb) =>
      && 0 < clock < 0x1_0000 && ha < 4096 && hb < 4096 && va < 4096 && vb < 4096 && ha + hb > 0 && va + vb > 0
      && e[at..at + 18] == EncodeDetailed(clock, ha, hb, va, vb)
  }

  /** Refresh in whole hertz: the pixel clock, in units of 10 kHz, by all pixels of a frame. */
  function Refresh(t: Timing): nat
    requires t.Detailed? && (t.hActive + t.hBlank) * (t.vActive + t.vBlank) > 0
  {
    t.clock * 10000 / ((t.hActive + t.hBlank) * (t.vActive + t.vBlank))
  }

  function TimingModes(timings: seq<Timing>): seq<Mode> {
    if timings == [] then []
    else
      var k := |timings| - 1;
      TimingModes(timings[..k]) + OneTiming(timings[k])
  }

  function OneTiming(t: Timing): seq<Mode> {
    match t
    case Display => []
    case Detailed(_, ha, hb, va, vb) =>
      if (ha + hb) * (va + vb) > 0 then [Mode(ha, va, Refresh(t) as real)] else []
  }

  /** Additional timings at `i`, or none in the descriptor area. */
  datatype Extra = NoExtra | Extra(i: nat, bits: seq<bool>)

  predicate ExtraWritten(e: seq<nat>, x: Extra)
    requires Edid(e)
  {
    match x
    case NoExtra => forall j | 54 <= j < 126 :: !AdditionalAt(e, j)
    case Extra(i, bits) =>
      && 54 <= i < 126 && |bits| == 44
      && AdditionalAt(e, i) && (forall j | 54 <= j < i :: !AdditionalAt(e, j))
      && (forall k | 0 <= k < 5 :: e[i + 6 + k] == PackedAt(bits, k))
      && e[i + 11] == PackByte([false, false, false, false] + bits[40..44])
  }

  /** The three bytes of the established timings. */
  predicate BitmapWritten(e: seq<nat>, bits: seq<bool>)
    requires Edid(e)
  {
    && |bits| == 17
    && e[35] == PackByte(bits[..8]) && e[36] == PackByte(bits[8..16])
    && e[37] == PackByte([false, false, false, false, false, false, false, bits[16]])
  }

  /** The extension's data blocks, with a video block among them or nothing after them that looks like one. */
  predicate BlocksWritten(e: seq<nat>, bs: seq<Block>)
    requires Edid(e)
  {
    && (forall i | 0 <= i < |bs| :: BlockOk(bs[i]))
    && 132 + |EncodeBlocks(bs)| < 256 && Holds(e, 132, EncodeBlocks(bs)) && e[130] == 4 + |EncodeBlocks(bs)|
    && (HasVideo(bs) || !StrayVideo(e, |EncodeBlocks(bs)|))
  }

  lemma {:induction false} SlotsRead(e: seq<nat>, slots: seq<Slot>, n: nat)
    requires Edid(e) && n <= |slots| == 8 && forall k | 0 <= k < 8 :: SlotWritten(e, 38 + 2 * k, slots[k])
    ensures StandardModes(e, n) == SlotModes(slots[..n])
  {
    if n > 0 {
      SlotsRead(e, slots, n - 1);
      assert slots[..n][..n - 1] == slots[..n - 1];
      SlotRead(e, 38 + 2 * (n - 1), slots[n - 1]);
    }
  }

  lemma SlotRead(e: seq<nat>, at: nat, s: Slot)
    requires at + 2 <= |e| && SlotWritten(e, at, s)
    ensures StandardSlot(e[at], e[at + 1]) ==
            match s case Unused => [] case Used(w, h, _, refresh) => [Mode(w, h, refresh as real)]
  {
    if s.Used? {
      StandardRoundTrip(s.width, s.ratio, s.refresh);
    }
  }

  lemma {:induction false} TimingsRead(e: seq<nat>, timings: seq<Timing>, n: nat)
    requires Edid(e) && n <= |timings| == 4 && forall k | 0 <= k < 4 :: TimingWritten(e, 54 + 18 * k, timings[k])
    ensures DetailedModes(e, n) == TimingModes(timings[..n])
  {
    if n > 0 {
      TimingsRead(e, timings, n - 1);
      assert timings[..n][..n - 1] == timings[..n - 1];
      hide TimingWritten, DetailedMode, OneTiming;
      TimingRead(e, 54 + 18 * (n - 1), timings[n - 1]);
    }
  }

  lemma TimingRead(e: seq<nat>, at: nat, t: Timing)
    requires at + 18 <= |e| && TimingWritten(e, at, t)
    ensures DetailedMode(e, at) == OneTiming(t)
  {
    match t
    case Display =>
    case Detailed(clock, ha, hb, va, vb) => DetailedRoundTrip(e, at, clock, ha, hb, va, vb);
  }

  lemma {:induction false} FirstExtra(e: seq<nat>, from: nat, i: nat)
    requires from <= i <= 126 && (i < 126 ==> AdditionalAt(e, i)) && forall j | from <= j < i :: !AdditionalAt(e, j)
    ensures FindAdditional(e, from) == i
    decreases i - from
  {
    if from < i {
      FirstExtra(e, from + 1, i);
    }
  }

  lemma ExtraRead(e: seq<nat>, x: Extra, t: Tables)
    requires Edid(e) && TablesOk(t) && ExtraWritten(e, x)
    ensures AdditionalModes(e, t) == match x case NoExtra => [] case Extra(_, bits) => Selected(t.additional, bits)
  {
    match x
    case NoExtra => FirstExtra(e, 54, 126);
    case Extra(i, bits) =>
      FirstExtra(e, 54, i);
      AdditionalRoundTrip(e, i + 6, bits);
  }

  /**
    An EDID written field by field is read back whole: established, standard, CEA, detailed and
    additional timings, in this order.
   */
  lemma EdidRoundTrip(e: seq<nat>, t: Tables, bits: seq<bool>, slots: seq<Slot>, bs: seq<Block>, timings: seq<Timing>,
                      x: Extra)
    requires Edid(e) && TablesOk(t) && BitmapWritten(e, bits) && BlocksWritten(e, bs) && ExtraWritten(e, x)
    requires |slots| == 8 && forall k | 0 <= k < 8 :: SlotWritten(e, 38 + 2 * k, slots[k])
    requires |timings| == 4 && forall k | 0 <= k < 4 :: TimingWritten(e, 54 + 18 * k, timings[k])
    ensures AllModes(e, t) ==
            Selected(t.bitmap, bits) + SlotModes(slots) + VicModes(FirstVideo(bs), t) + TimingModes(timings) +
            match x case NoExtra => [] case Extra(_, extra) => Selected(t.additional, extra)
  {
    BitmapRoundTrip(e, bits);
    SlotsRead(e, slots, 8);
    CeaRoundTrip(e, bs, t);
    TimingsRead(e, timings, 4);
    ExtraRead(e, x, t);
    assert slots[..8] == slots && timings[..4] == timings;
  }
}
