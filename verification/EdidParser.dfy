/**
  The EDID parser as it runs: five scanners appending to a list of at most 32 modes, each proved
  to append exactly what `EdidSpec` says the EDID lists.
 */
module EdidParser {
  import opened RingMath
  import opened EdidSpec

  class OutputModelist {
    const modelist: array<Mode>
    var size: nat

    ghost predicate Valid()
      reads this
    {
      size <= modelist.Length == OUTPUT_MODELIST_SIZE
    }

    ghost function Contents(): (s: seq<Mode>)
      requires Valid()
      reads this, modelist
      ensures |s| <= OUTPUT_MODELIST_SIZE
    {
      modelist[..size]
    }

    constructor ()
      ensures Valid() && Contents() == [] && fresh(modelist)
    {
      modelist := new Mode[OUTPUT_MODELIST_SIZE](_ => Mode(0, 0, 0.0));
      size := 0;
    }

    /** Refuses when the list is full. */
    method AddMode(m: Mode) returns (ok: bool)
      requires Valid()
      modifies this, modelist
      ensures Valid() && ok == (|old(Contents())| < OUTPUT_MODELIST_SIZE)
      ensures Contents() == Capped(old(Contents()) + [m])
    {
      if size >= OUTPUT_MODELIST_SIZE {
        return false;
      }
      modelist[size] := m;
      size := size + 1;
      return true;
    }
  }

  lemma CappedContents(s: seq<Mode>)
    requires |s| <= OUTPUT_MODELIST_SIZE
    ensures Capped(s) == s
  {
  }

  // ---------------------------------------------------------------- bits

  lemma HalfOfQuotient(b: nat, k: nat)
    ensures (b / Pow2(k)) / 2 == b / Pow2(k + 1)
  {
    var p := Pow2(k);
    var q, r := b / p, b % p;
    var q2, r2 := q / 2, q % 2;
    assert b == p * q + r && q == 2 * q2 + r2;
    assert p * q == (2 * p) * q2 + p * r2;
    assert 0 <= p * r2 + r < 2 * p by {
      if r2 == 0 { assert p * r2 == 0; } else { assert p * r2 == p; }
    }
    DivModUnique(b, 2 * p, q2, p * r2 + r);
  }

  lemma NoneSelected(table: seq<Mode>, bits: seq<bool>, c: seq<Mode>)
    requires |bits| <= |table| && |c| <= OUTPUT_MODELIST_SIZE
    ensures Capped(c + Selected(table, bits[..0])) == c
  {
    assert c + Selected(table, bits[..0]) == c;
  }

  lemma SelectedStep(table: seq<Mode>, bits: seq<bool>, k: nat)
    requires k < |bits| <= |table|
    ensures Selected(table, bits[..k + 1]) == Selected(table, bits[..k]) + if bits[k] then [table[k]] else []
  {
    assert bits[..k + 1][..k] == bits[..k];
  }

  /** Adds a mode under a condition, on top of what `c` and `before` already gave. */
  method AddIf(cond: bool, m: Mode, list: OutputModelist, ghost c: seq<Mode>, ghost before: seq<Mode>)
    requires list.Valid() && list.Contents() == Capped(c + before)
    modifies list, list.modelist
    ensures list.Valid() && list.Contents() == Capped(c + (before + if cond then [m] else []))
  {
    if cond {
      var ok := list.AddMode(m);
      CappedAppend(c + before, [m]);
      assert c + before + [m] == c + (before + [m]);
    } else {
      assert before + [] == before;
    }
  }

  /** Adds the table entries of one byte's lowest `n` bits, shifting it right bit by bit. */
  method ScanByte(list: OutputModelist, b: nat, n: nat, table: seq<Mode>, lookup: nat,
                  ghost bits: seq<bool>, ghost c: seq<Mode>, ghost b0: nat, ghost shift: nat)
    requires list.Valid() && lookup + n <= |bits| <= |table|
    requires list.Contents() == Capped(c + Selected(table, bits[..lookup]))
    requires b == b0 / Pow2(shift) && forall k | lookup <= k < lookup + n :: bits[k] == Bit(b0, shift + (k - lookup))
    modifies list, list.modelist
    ensures list.Valid() && list.Contents() == Capped(c + Selected(table, bits[..lookup + n]))
  {
    var byte := b;
    for bit := 0 to n
      invariant list.Valid() && byte == b0 / Pow2(shift + bit)
      invariant list.Contents() == Capped(c + Selected(table, bits[..lookup + bit]))
    {
      ghost var before := Selected(table, bits[..lookup + bit]);
      SelectedStep(table, bits, lookup + bit);
      HalfOfQuotient(b0, shift + bit);
      assert bits[lookup + bit] == Bit(b0, shift + bit);
      AddIf(byte % 2 == 1, table[lookup + bit], list, c, before);
      byte := byte / 2;
    }
  }

  // ---------------------------------------------------------------- the scanners

  lemma PowersUsed()
    ensures Pow2(0) == 1 && Pow2(4) == 16 && Pow2(7) == 128
  {
    assert Pow2(4) == 2 * Pow2(3) && Pow2(3) == 2 * Pow2(2) && Pow2(2) == 2 * Pow2(1);
    assert Pow2(7) == 2 * Pow2(6) && Pow2(6) == 2 * Pow2(5) && Pow2(5) == 2 * Pow2(4);
  }

  lemma BitmapByte(e: seq<nat>, i: nat)
    requires Edid(e) && i < 3
    ensures var bits, n := BitmapBits(e), if i < 2 then 8 else 1;
            forall k | 8 * i <= k < 8 * i + n ::
              bits[k] == Bit(e[TIMING_BITMAP_START + i], (if i < 2 then 0 else 7) + (k - 8 * i))
  {
    hide Bit;
  }

  method GetTimingBitmapModes(e: seq<nat>, t: Tables, list: OutputModelist)
    requires Edid(e) && TablesOk(t) && list.Valid()
    modifies list, list.modelist
    ensures list.Valid() && list.Contents() == Capped(old(list.Contents()) + BitmapModes(e, t))
  {
    PowersUsed();
    ghost var c, bits := list.Contents(), BitmapBits(e);
    NoneSelected(t.bitmap, bits, c);
    hide Bit, Selected, Capped, BitmapBits;
    for i := 0 to 2
      invariant list.Valid() && list.Contents() == Capped(c + Selected(t.bitmap, bits[..8 * i]))
    {
      var b := e[TIMING_BITMAP_START + i];
      BitmapByte(e, i);
      ScanByte(list, b, 8, t.bitmap, 8 * i, bits, c, b, 0);
    }
    var last := e[TIMING_BITMAP_START + 2];
    BitmapByte(e, 2);
    ScanByte(list, last / 128, 1, t.bitmap, 16, bits, c, last, 7);
    assert bits[..17] == bits;
  }

  /** One two-byte slot. */
  method AddStandard(a: nat, b: nat, list: OutputModelist)
    requires list.Valid()
    modifies list, list.modelist
    ensures list.Valid() && list.Contents() == Capped(old(list.Contents()) + StandardSlot(a, b))
  {
    if a == 1 && b == 1 {
      assert list.Contents() + [] == list.Contents();
      return;
    }
    var width := (a + 31) * 8;
    var height := AspectHeight(width, b / 64);
    var ok := list.AddMode(Mode(width, height, (b % 64 + 60) as real));
  }

  method GetStandardModes(e: seq<nat>, list: OutputModelist)
    requires Edid(e) && list.Valid()
    modifies list, list.modelist
    ensures list.Valid() && list.Contents() == Capped(old(list.Contents()) + StandardModes(e, STANDARD_MODES))
  {
    hide StandardSlot, Capped;
    ghost var c := list.Contents();
    var index := STANDARD_MODE_START;
    ghost var n := 0;
    CappedContents(c);
    assert c + StandardModes(e, 0) == c;
    while index <= 53
      invariant 0 <= n <= STANDARD_MODES && index == STANDARD_MODE_START + 2 * n
      invariant list.Valid() && list.Contents() == Capped(c + StandardModes(e, n))
    {
      ghost var more := StandardSlot(e[index], e[index + 1]);
      CappedAppend(c + StandardModes(e, n), more);
      assert c + StandardModes(e, n) + more == c + StandardModes(e, n + 1);
      AddStandard(e[index], e[index + 1], list);
      index := index + 2;
      n := n + 1;
    }
  }

  /** One video code; a code without a table entry adds nothing. */
  method AddCode(code: nat, t: Tables, list: OutputModelist)
    requires TablesOk(t) && list.Valid()
    modifies list, list.modelist
    ensures list.Valid() && list.Contents() == Capped(old(list.Contents()) + CodeModes(code, t))
  {
    var vic := code % 128;
    if vic > 64 {
      vic := code;
    }
    var idx := VicIndex(vic);
    if idx >= 0 {
      var ok := list.AddMode(t.cea[idx]);
    } else {
      assert list.Contents() + [] == list.Contents();
    }
  }

  /** A list that held `c`, once the codes in `e[lo..i]` have been added. */
  ghost function AfterCodes(e: seq<nat>, lo: nat, i: nat, t: Tables, c: seq<Mode>): seq<Mode>
    requires lo <= i <= |e| && TablesOk(t)
  {
    Capped(c + VicModes(e[lo..i], t))
  }

  lemma VicStep(e: seq<nat>, lo: nat, i: nat, t: Tables, c: seq<Mode>)
    requires lo <= i < |e| && TablesOk(t)
    ensures Capped(AfterCodes(e, lo, i, t, c) + CodeModes(e[i], t)) == AfterCodes(e, lo, i + 1, t, c)
  {
    hide CodeModes, Capped;
    var codes := e[lo..i + 1];
    assert codes[..i - lo] == e[lo..i] && codes[i - lo] == e[i];
    CappedAppend(c + VicModes(e[lo..i], t), CodeModes(e[i], t));
    assert c + VicModes(e[lo..i], t) + CodeModes(e[i], t) == c + VicModes(codes, t);
  }

  lemma NoCodes(e: seq<nat>, lo: nat, t: Tables, c: seq<Mode>)
    requires TablesOk(t) && lo <= |e| && |c| <= OUTPUT_MODELIST_SIZE
    ensures AfterCodes(e, lo, lo, t, c) == c
  {
    assert c + VicModes(e[lo..lo], t) == c;
  }

  method AddNextCode(e: seq<nat>, ghost lo: nat, i: nat, t: Tables, list: OutputModelist, ghost c: seq<Mode>)
    requires TablesOk(t) && list.Valid() && lo <= i < |e| && list.Contents() == AfterCodes(e, lo, i, t, c)
    modifies list, list.modelist
    ensures list.Valid() && list.Contents() == AfterCodes(e, lo, i + 1, t, c)
  {
    hide CodeModes, AfterCodes, Capped, TablesOk;
    VicStep(e, lo, i, t, c);
    AddCode(e[i], t, list);
  }

  method AddCodes(e: seq<nat>, lo: nat, hi: nat, t: Tables, list: OutputModelist)
    requires TablesOk(t) && list.Valid() && lo <= hi <= |e|
    modifies list, list.modelist
    ensures list.Valid() && list.Contents() == AfterCodes(e, lo, hi, t, old(list.Contents()))
  {
    ghost var c := list.Contents();
    NoCodes(e, lo, t, c);
    hide CodeModes, AfterCodes, Capped, TablesOk;
    for i := lo to hi
      invariant list.Valid() && list.Contents() == AfterCodes(e, lo, i, t, c)
    {
      AddNextCode(e, lo, i, t, list, c);
    }
  }

  /** Adds the modes of one video block's codes. */
  method AddVideoBlock(e: seq<nat>, at: nat, t: Tables, list: OutputModelist)
    requires Edid(e) && TablesOk(t) && list.Valid() && at < EDID_SIZE
    modifies list, list.modelist
    ensures list.Valid() && list.Contents() == Capped(old(list.Contents()) + VicModes(BlockCodes(e, at), t))
  {
    hide VicModes, Capped;
    var end := at + e[at] % 32;
    if end >= EDID_SIZE {
      end := EDID_SIZE - 1;
    }
    AddCodes(e, at + 1, end + 1, t, list);
  }

  /** Walks the data blocks up to the first video block; each step moves on by at least one byte. */
  method FindVideoBlock(e: seq<nat>, end: nat) returns (at: nat)
    requires Edid(e) && end < EDID_SIZE
    ensures at == FindVideo(e, CEA_DATA_FIRST_BLOCK_INDEX, end)
  {
    at := CEA_DATA_FIRST_BLOCK_INDEX;
    while at < end && e[at] / 32 != CEA_VIDEO_BLOCK_IDENTIFIER
      invariant FindVideo(e, CEA_DATA_FIRST_BLOCK_INDEX, end) == FindVideo(e, at, end)
      decreases end - at
    {
      at := at + e[at] % 32 + 1;
    }
  }

  /** Only the first video block counts. */
  method GetCeaModes(e: seq<nat>, t: Tables, list: OutputModelist)
    requires Edid(e) && TablesOk(t) && list.Valid()
    modifies list, list.modelist
    ensures list.Valid() && list.Contents() == Capped(old(list.Contents()) + CeaModes(e, t))
  {
    var end := CEA_DATA_FIRST_BLOCK_INDEX + e[CEA_DATA_BLOCKS_END_INDEX];
    if end > EDID_SIZE - 1 {
      end := EDID_SIZE - 1;
    }
    var at := FindVideoBlock(e, end);
    CappedContents(list.Contents());
    assert list.Contents() + [] == list.Contents();
    hide FindVideo, BlockCodes, VicModes, Capped, TablesOk;
    if at < end {
      AddVideoBlock(e, at, t, list);
    }
  }

  lemma Nonzero(a: nat, b: nat)
    ensures a * b == 0 <==> a == 0 || b == 0
  {
  }

  /** One 18-byte descriptor; display descriptors and empty timings add nothing. */
  method AddDetailed(e: seq<nat>, i: nat, list: OutputModelist)
    requires i + 18 <= |e| && list.Valid()
    modifies list, list.modelist
    ensures list.Valid() && list.Contents() == Capped(old(list.Contents()) + DetailedMode(e, i))
  {
    assert list.Contents() + [] == list.Contents();
    if e[i] == 0 && e[i + 1] == 0 {
      return;
    }
    var clock := (e[i] + e[i + 1] * 256) * CLK_UNIT;
    var hActive, hBlank := e[i + 4] / 16 * 256 + e[i + 2], e[i + 4] % 16 * 256 + e[i + 3];
    var vActive, vBlank := e[i + 7] / 16 * 256 + e[i + 5], e[i + 7] % 16 * 256 + e[i + 6];
    var hTotal, vTotal := hActive + hBlank, vActive + vBlank;
    Nonzero(hTotal, vTotal);
    if hTotal != 0 && vTotal != 0 {
      var ok := list.AddMode(Mode(hActive, vActive, (clock / (hTotal * vTotal)) as real));
    }
  }

  method GetDetailedModes(e: seq<nat>, list: OutputModelist)
    requires Edid(e) && list.Valid()
    modifies list, list.modelist
    ensures list.Valid() && list.Contents() == Capped(old(list.Contents()) + DetailedModes(e, 4))
  {
    hide DetailedMode, Capped;
    ghost var c := list.Contents();
    var i := DTD_START;
    ghost var n := 0;
    CappedContents(c);
    assert c + DetailedModes(e, 0) == c;
    while i < DTD_END - 2
      invariant 0 <= n <= 4 && i == DTD_START + DTD_STANDARD_DESC_SIZE * n
      invariant list.Valid() && list.Contents() == Capped(c + DetailedModes(e, n))
    {
      CappedAppend(c + DetailedModes(e, n), DetailedMode(e, i));
      assert c + DetailedModes(e, n) + DetailedMode(e, i) == c + DetailedModes(e, n + 1);
      AddDetailed(e, i, list);
      i := i + DTD_STANDARD_DESC_SIZE;
      n := n + 1;
    }
  }

  lemma AdditionalByte(e: seq<nat>, start: nat, i: nat)
    requires start + 6 <= |e| && i < 6
    ensures var bits := AdditionalBits(e, start);
            && (i < 5 ==> forall k | 8 * i <= k < 8 * i + 8 :: bits[k] == Bit(e[start + i], 0 + (k - 8 * i)))
            && (i == 5 ==> forall k | 40 <= k < 44 :: bits[k] == Bit(e[start + 5], 4 + (k - 40)))
  {
    hide Bit;
  }

  method AddAdditional(e: seq<nat>, start: nat, t: Tables, list: OutputModelist)
    requires Edid(e) && TablesOk(t) && list.Valid() && start + 6 <= EDID_SIZE
    modifies list, list.modelist
    ensures list.Valid()
    ensures list.Contents() == Capped(old(list.Contents()) + Selected(t.additional, AdditionalBits(e, start)))
  {
    PowersUsed();
    ghost var c, bits := list.Contents(), AdditionalBits(e, start);
    NoneSelected(t.additional, bits, c);
    hide Bit, Selected, Capped, AdditionalBits;
    for i := 0 to 5
      invariant list.Valid() && list.Contents() == Capped(c + Selected(t.additional, bits[..8 * i]))
    {
      AdditionalByte(e, start, i);
      ScanByte(list, e[start + i], 8, t.additional, 8 * i, bits, c, e[start + i], 0);
    }
    AdditionalByte(e, start, 5);
    ScanByte(list, e[start + 5] / 16, 4, t.additional, 40, bits, c, e[start + 5], 4);
    assert bits[..44] == bits;
  }

  method GetAdditionalModes(e: seq<nat>, t: Tables, list: OutputModelist)
    requires Edid(e) && TablesOk(t) && list.Valid()
    modifies list, list.modelist
    ensures list.Valid() && list.Contents() == Capped(old(list.Contents()) + AdditionalModes(e, t))
  {
    for i := DTD_START to DTD_END
      invariant FindAdditional(e, DTD_START) == FindAdditional(e, i)
    {
      if e[i..i + 5] == ADDITIONAL_HEADER {
        AddAdditional(e, i + 6, t, list);
        return;
      }
    }
    assert list.Contents() + [] == list.Contents();
  }

  // ---------------------------------------------------------------- the whole parser

  /** Both 128-byte blocks must sum to zero; the second sum starts from the first's remainder. */
  method ValidateChecksum(e: seq<nat>) returns (ok: bool)
    requires Edid(e)
    ensures ok <==> ChecksumsOk(e)
  {
    var chksum := 0;
    for i := 0 to 128
      invariant chksum == Sum(e, 0, i)
    {
      chksum := chksum + e[i];
    }
    chksum := chksum % 256;
    if chksum != 0 {
      return false;
    }
    for i := 128 to EDID_SIZE
      invariant chksum == Sum(e, 128, i)
    {
      chksum := chksum + e[i];
    }
    return chksum % 256 == 0;
  }

  lemma Gather5(c: seq<Mode>, a: seq<Mode>, b: seq<Mode>, d: seq<Mode>, f: seq<Mode>, g: seq<Mode>)
    ensures Capped(Capped(Capped(Capped(Capped(c + a) + b) + d) + f) + g) == Capped(c + (a + b + d + f + g))
  {
    CappedAppend(c + a, b);
    CappedAppend(c + a + b, d);
    CappedAppend(c + a + b + d, f);
    CappedAppend(c + a + b + d + f, g);
    assert c + a + b + d + f + g == c + (a + b + d + f + g);
  }

  /** Nothing is added to the list unless header and both checksums are right. */
  method ParseEdid(e: seq<nat>, t: Tables, list: OutputModelist) returns (ok: bool)
    requires Edid(e) && TablesOk(t) && list.Valid()
    modifies list, list.modelist
    ensures list.Valid() && (ok <==> HeaderOk(e) && ChecksumsOk(e))
    ensures list.Contents() == if ok then Capped(old(list.Contents()) + AllModes(e, t)) else old(list.Contents())
  {
    if e[..8] != HEADER {
      return false;
    }
    ok := ValidateChecksum(e);
    if !ok {
      return false;
    }
    Gather5(list.Contents(), BitmapModes(e, t), StandardModes(e, STANDARD_MODES), CeaModes(e, t),
            DetailedModes(e, 4), AdditionalModes(e, t));
    GetTimingBitmapModes(e, t, list);
    GetStandardModes(e, list);
    GetCeaModes(e, t, list);
    GetDetailedModes(e, list);
    GetAdditionalModes(e, t, list);
  }
}
