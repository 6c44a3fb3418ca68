/**
  What an EDID lists, as pure functions of its 256 bytes.  Masks of `2^k - 1` are written as
  remainders and right shifts as quotients.  The three mode tables are parameters.
 */
module EdidSpec {
  import opened RingMath

  const EDID_SIZE := 256
  const TIMING_BITMAP_START := 35
  const STANDARD_MODE_START := 38
  const STANDARD_MODES := 8
  const DTD_START := 54
  const DTD_END := 126
  const DTD_STANDARD_DESC_SIZE := 18
  const CEA_DATA_BLOCKS_END_INDEX := 130
  const CEA_DATA_FIRST_BLOCK_INDEX := 132
  const CEA_VIDEO_BLOCK_IDENTIFIER := 2
  const TIMING_BITMAP_MODELIST_SIZE := 17
  const ADDITIONAL_MODELIST_SIZE := 44
  const CEA_MODELIST_SIZE := 154
  const CLK_UNIT := 10000
  const OUTPUT_MODELIST_SIZE := 32

  datatype Mode = Mode(width: nat, height: nat, refresh: real)

  datatype Tables = Tables(bitmap: seq<Mode>, additional: seq<Mode>, cea: seq<Mode>)

  predicate TablesOk(t: Tables) {
    |t.bitmap| == TIMING_BITMAP_MODELIST_SIZE && |t.additional| == ADDITIONAL_MODELIST_SIZE &&
      |t.cea| == CEA_MODELIST_SIZE
  }

  predicate Bytes(e: seq<nat>) {
    forall i | 0 <= i < |e| :: e[i] < 256
  }

  predicate Edid(e: seq<nat>) {
    |e| == EDID_SIZE && Bytes(e)
  }

  /** Bit `k` of a byte, bit 0 least significant. */
  predicate Bit(b: nat, k: nat) {
    (b / Pow2(k)) % 2 == 1
  }

  // ---------------------------------------------------------------- validity

  const HEADER: seq<nat> := [0x00, 0xFF, 0xFF, 0xFF, 0xFF, 0xFF, 0xFF, 0x00]

  function Sum(e: seq<nat>, lo: nat, hi: nat): nat
    requires lo <= hi <= |e|
  {
    if lo == hi then 0 else Sum(e, lo, hi - 1) + e[hi - 1]
  }

  predicate HeaderOk(e: seq<nat>) {
    |e| >= 8 && e[..8] == HEADER
  }

  predicate ChecksumsOk(e: seq<nat>)
    requires |e| == EDID_SIZE
  {
    Sum(e, 0, 128) % 256 == 0 && Sum(e, 128, 256) % 256 == 0
  }

  // ---------------------------------------------------------------- the five lists

  /** The table entries whose bit is set, in table order. */
  function Selected(table: seq<Mode>, bits: seq<bool>): seq<Mode>
    requires |bits| <= |table|
  {
    if bits == [] then []
    else
      var k := |bits| - 1;
      Selected(table, bits[..k]) + if bits[k] then [table[k]] else []
  }

  /** Two bytes of established timings, and the top bit of a third. */
  function BitmapBits(e: seq<nat>): (r: seq<bool>)
    requires Edid(e)
    ensures |r| == TIMING_BITMAP_MODELIST_SIZE
  {
    seq(TIMING_BITMAP_MODELIST_SIZE, k requires 0 <= k < TIMING_BITMAP_MODELIST_SIZE =>
      if k < 16 then Bit(e[TIMING_BITMAP_START + k / 8], k % 8) else Bit(e[TIMING_BITMAP_START + 2], 7))
  }

  function BitmapModes(e: seq<nat>, t: Tables): seq<Mode>
    requires Edid(e) && TablesOk(t)
  {
    Selected(t.bitmap, BitmapBits(e))
  }

  function AspectHeight(width: nat, ratio: nat): nat {
    if ratio == 0 then width * 10 / 16
    else if ratio == 1 then width * 3 / 4
    else if ratio == 2 then width * 4 / 5
    else width * 9 / 16
  }

  function StandardMode(a: nat, b: nat): Mode {
    var width := (a + 31) * 8;
    Mode(width, AspectHeight(width, b / 64), (b % 64 + 60) as real)
  }

  /** A pair of ones is an unused slot. */
  function StandardSlot(a: nat, b: nat): seq<Mode> {
    if a == 1 && b == 1 then [] else [StandardMode(a, b)]
  }

  function StandardModes(e: seq<nat>, n: nat): seq<Mode>
    requires Edid(e) && n <= STANDARD_MODES
  {
    if n == 0 then []
    else
      var at := STANDARD_MODE_START + 2 * (n - 1);
      StandardModes(e, n - 1) + StandardSlot(e[at], e[at + 1])
  }

  function CeaEnd(e: seq<nat>): (r: nat)
    requires Edid(e)
    ensures CEA_DATA_FIRST_BLOCK_INDEX <= r < EDID_SIZE
  {
    var r := CEA_DATA_FIRST_BLOCK_INDEX + e[CEA_DATA_BLOCKS_END_INDEX];
    if r > EDID_SIZE - 1 then EDID_SIZE - 1 else r
  }

  /** Start of the first video block at or after `at`, or `end` or beyond when there is none. */
  function FindVideo(e: seq<nat>, at: nat, end: nat): (r: nat)
    requires Edid(e) && end < EDID_SIZE
    ensures at <= r && (r < end ==> e[r] / 32 == CEA_VIDEO_BLOCK_IDENTIFIER)
    decreases EDID_SIZE - at
  {
    if at >= end || e[at] / 32 == CEA_VIDEO_BLOCK_IDENTIFIER then at else FindVideo(e, at + e[at] % 32 + 1, end)
  }

  /** A video code: seven bits up to 64, all eight above. */
  function Vic(b: nat): nat {
    if b % 128 > 64 then b else b % 128
  }

  /** The table index of a video code, or none. */
  function VicIndex(vic: nat): (i: int)
    ensures i < CEA_MODELIST_SIZE
  {
    if vic == 0 then -1
    else if vic <= 127 then vic - 1
    else if vic >= 193 && vic - 65 < CEA_MODELIST_SIZE then vic - 65
    else -1
  }

  function CodeModes(code: nat, t: Tables): seq<Mode>
    requires TablesOk(t)
  {
    var i := VicIndex(Vic(code));
    if i >= 0 then [t.cea[i]] else []
  }

  function VicModes(codes: seq<nat>, t: Tables): seq<Mode>
    requires TablesOk(t)
  {
    if codes == [] then [] else VicModes(codes[..|codes| - 1], t) + CodeModes(codes[|codes| - 1], t)
  }

  /** The codes of the video block at `at`, cut off at the end of the EDID. */
  function BlockCodes(e: seq<nat>, at: nat): seq<nat>
    requires Edid(e) && at < EDID_SIZE
  {
    var end := at + e[at] % 32;
    e[at + 1..(if end >= EDID_SIZE then EDID_SIZE - 1 else end) + 1]
  }

  function CeaModes(e: seq<nat>, t: Tables): seq<Mode>
    requires Edid(e) && TablesOk(t)
  {
    var at := FindVideo(e, CEA_DATA_FIRST_BLOCK_INDEX, CeaEnd(e));
    if at < CeaEnd(e) then VicModes(BlockCodes(e, at), t) else []
  }

  /** The detailed timing in the 18 bytes at `at`, if it is one. */
  function DetailedMode(e: seq<nat>, at: nat): seq<Mode>
    requires at + 18 <= |e|
  {
    var clock := (e[at] + e[at + 1] * 256) * CLK_UNIT;
    var hActive, hBlank := e[at + 4] / 16 * 256 + e[at + 2], e[at + 4] % 16 * 256 + e[at + 3];
    var vActive, vBlank := e[at + 7] / 16 * 256 + e[at + 5], e[at + 7] % 16 * 256 + e[at + 6];
    var total := (hActive + hBlank) * (vActive + vBlank);
    if (e[at] == 0 && e[at + 1] == 0) || total == 0 then []
    else [Mode(hActive, vActive, (clock / total) as real)]
  }

  function DetailedModes(e: seq<nat>, n: nat): seq<Mode>
    requires Edid(e) && n <= 4
  {
    if n == 0 then [] else DetailedModes(e, n - 1) + DetailedMode(e, DTD_START + DTD_STANDARD_DESC_SIZE * (n - 1))
  }

  const ADDITIONAL_HEADER: seq<nat> := [0x00, 0x00, 0x00, 0xF7, 0x00]

  predicate AdditionalAt(e: seq<nat>, i: nat) {
    i + 5 <= |e| && e[i..i + 5] == ADDITIONAL_HEADER
  }

  /** The first additional-timings header in the descriptor area, or its end. */
  function FindAdditional(e: seq<nat>, i: nat): (r: nat)
    requires i <= DTD_END
    ensures i <= r <= DTD_END
    decreases DTD_END - i
  {
    if i == DTD_END || AdditionalAt(e, i) then i else FindAdditional(e, i + 1)
  }

  /** Five bytes of bits and the upper half of a sixth. */
  function AdditionalBits(e: seq<nat>, start: nat): (r: seq<bool>)
    requires start + 6 <= |e|
    ensures |r| == ADDITIONAL_MODELIST_SIZE
  {
    seq(ADDITIONAL_MODELIST_SIZE, k requires 0 <= k < ADDITIONAL_MODELIST_SIZE =>
      if k < 40 then Bit(e[start + k / 8], k % 8) else Bit(e[start + 5], k - 36))
  }

  function AdditionalModes(e: seq<nat>, t: Tables): seq<Mode>
    requires Edid(e) && TablesOk(t)
  {
    var i := FindAdditional(e, DTD_START);
    if i < DTD_END then Selected(t.additional, AdditionalBits(e, i + 6)) else []
  }

  /** Everything an EDID lists, in the order the parser visits it. */
  function AllModes(e: seq<nat>, t: Tables): seq<Mode>
    requires Edid(e) && TablesOk(t)
  {
    BitmapModes(e, t) + StandardModes(e, STANDARD_MODES) + CeaModes(e, t) + DetailedModes(e, 4) + AdditionalModes(e, t)
  }

  /** An output list keeps the first 32. */
  function Capped(s: seq<Mode>): (r: seq<Mode>)
    ensures |r| <= OUTPUT_MODELIST_SIZE
  {
    if |s| <= OUTPUT_MODELIST_SIZE then s else s[..OUTPUT_MODELIST_SIZE]
  }

  lemma CappedAppend(a: seq<Mode>, b: seq<Mode>)
    ensures Capped(Capped(a) + b) == Capped(a + b)
  {
  }

  // ---------------------------------------------------------------- detailed timings round-trip

  /** A detailed timing descriptor (section 3.10.2 of VESA E-EDID 1.4), other fields zero. */
  function EncodeDetailed(clock: nat, hActive: nat, hBlank: nat, vActive: nat, vBlank: nat): (r: seq<nat>)
    ensures |r| == 18
  {
    [clock % 256, clock / 256, hActive % 256, hBlank % 256, hActive / 256 * 16 + hBlank / 256,
     vActive % 256, vBlank % 256, vActive / 256 * 16 + vBlank / 256, 0, 0, 0, 0, 0, 0, 0, 0, 0, 0]
  }

  /** Any 12-bit timing with a clock decodes to its active size and floored refresh, without 32-bit overflow. */
  lemma DetailedRoundTrip(e: seq<nat>, at: nat, clock: nat, hActive: nat, hBlank: nat, vActive: nat, vBlank: nat)
    requires at + 18 <= |e| && e[at..at + 18] == EncodeDetailed(clock, hActive, hBlank, vActive, vBlank)
    requires 0 < clock < 0x1_0000 && hActive < 4096 && hBlank < 4096 && vActive < 4096 && vBlank < 4096
    requires hActive + hBlank > 0 && vActive + vBlank > 0
    ensures Bytes(EncodeDetailed(clock, hActive, hBlank, vActive, vBlank))
    ensures var total := (hActive + hBlank) * (vActive + vBlank);
            && 0 < total < 0x1_0000_0000 && clock * CLK_UNIT < 0x8000_0000
            && DetailedMode(e, at) == [Mode(hActive, vActive, (clock * CLK_UNIT / total) as real)]
  {
    var w := e[at..at + 18];
    assert forall k | 0 <= k < 18 :: w[k] == e[at + k];
    Nibbles(hActive, hBlank);
    Nibbles(vActive, vBlank);
    Total(hActive + hBlank, vActive + vBlank);
    ClockBytes(clock);
    TimingDecoded(e, at, clock, hActive, hBlank, vActive, vBlank);
  }

  lemma ClockBytes(clock: nat)
    requires 0 < clock < 0x1_0000
    ensures clock % 256 + clock / 256 * 256 == clock && !(clock % 256 == 0 && clock / 256 == 0)
    ensures clock % 256 < 256 && clock / 256 < 256 && clock * CLK_UNIT < 0x8000_0000
  {
  }

  /** The fields the bytes are put together to. */
  lemma TimingDecoded(e: seq<nat>, at: nat, clock: nat, hActive: nat, hBlank: nat, vActive: nat, vBlank: nat)
    requires at + 18 <= |e| && (hActive + hBlank) * (vActive + vBlank) > 0
    requires e[at] + e[at + 1] * 256 == clock && !(e[at] == 0 && e[at + 1] == 0)
    requires e[at + 4] / 16 * 256 + e[at + 2] == hActive && e[at + 4] % 16 * 256 + e[at + 3] == hBlank
    requires e[at + 7] / 16 * 256 + e[at + 5] == vActive && e[at + 7] % 16 * 256 + e[at + 6] == vBlank
    ensures var total := (hActive + hBlank) * (vActive + vBlank);
            DetailedMode(e, at) == [Mode(hActive, vActive, (clock * CLK_UNIT / total) as real)]
  {
  }

  lemma Nibbles(a: nat, b: nat)
    requires a < 4096 && b < 4096
    ensures var n := a / 256 * 16 + b / 256;
            n < 256 && n / 16 * 256 + a % 256 == a && n % 16 * 256 + b % 256 == b
  {
  }

  lemma Total(h: nat, v: nat)
    requires 0 < h <= 8190 && 0 < v <= 8190
    ensures 0 < h * v < 0x1_0000_0000
  {
    assert h * v <= 8190 * v <= 8190 * 8190;
  }

  // ---------------------------------------------------------------- bitmaps and standard timings round-trip

  /** A byte from eight bits, bit 0 least significant. */
  function PackByte(bits: seq<bool>): (b: nat)
    ensures b < Pow2(|bits|)
  {
    if bits == [] then 0 else (if bits[0] then 1 else 0) + 2 * PackByte(bits[1..])
  }

  lemma {:induction false} PackedBit(bits: seq<bool>, k: nat)
    requires k < |bits|
    ensures Bit(PackByte(bits), k) == bits[k]
  {
    var rest := PackByte(bits[1..]);
    if k == 0 {
      assert PackByte(bits) / 1 == PackByte(bits);
    } else {
      PackedBit(bits[1..], k - 1);
      QuotientOfDouble(rest, if bits[0] then 1 else 0, k - 1);
    }
  }

  lemma QuotientOfDouble(r: nat, low: nat, k: nat)
    requires low < 2
    ensures (low + 2 * r) / Pow2(k + 1) == r / Pow2(k)
  {
    var p := Pow2(k);
    var q, s := r / p, r % p;
    assert r == p * q + s;
    assert low + 2 * r == (2 * p) * q + (2 * s + low);
    DivModUnique(low + 2 * r, 2 * p, q, 2 * s + low);
  }

  /** Any choice of the seventeen established timings can be packed into its three bytes and is read back. */
  lemma BitmapRoundTrip(e: seq<nat>, bits: seq<bool>)
    requires Edid(e) && |bits| == TIMING_BITMAP_MODELIST_SIZE
    requires e[TIMING_BITMAP_START] == PackByte(bits[..8]) && e[TIMING_BITMAP_START + 1] == PackByte(bits[8..16])
    requires e[TIMING_BITMAP_START + 2] == PackByte([false, false, false, false, false, false, false, bits[16]])
    ensures BitmapBits(e) == bits
  {
    forall k | 0 <= k < TIMING_BITMAP_MODELIST_SIZE
      ensures BitmapBits(e)[k] == bits[k]
    {
      if k < 8 {
        PackedBit(bits[..8], k);
      } else if k < 16 {
        PackedBit(bits[8..16], k - 8);
      } else {
        PackedBit([false, false, false, false, false, false, false, bits[16]], 7);
      }
    }
  }

  /** Likewise any choice of the 44 additional timings, in five bytes and the upper half of a sixth. */
  lemma AdditionalRoundTrip(e: seq<nat>, start: nat, bits: seq<bool>)
    requires start + 6 <= |e| && |bits| == ADDITIONAL_MODELIST_SIZE
    requires forall i | 0 <= i < 5 :: e[start + i] == PackedAt(bits, i)
    requires e[start + 5] == PackByte([false, false, false, false] + bits[40..44])
    ensures AdditionalBits(e, start) == bits
  {
    forall k | 0 <= k < ADDITIONAL_MODELIST_SIZE
      ensures AdditionalBits(e, start)[k] == bits[k]
    {
      if k < 40 {
        assert e[start + k / 8] == PackedAt(bits, k / 8);
        PackedBit(bits[8 * (k / 8)..8 * (k / 8) + 8], k % 8);
      } else {
        PackedBit([false, false, false, false] + bits[40..44], k - 36);
      }
    }
  }

  function PackedAt(bits: seq<bool>, i: nat): nat
    requires 8 * i + 8 <= |bits|
  {
    PackByte(bits[8 * i..8 * i + 8])
  }

  /** A mode is selected iff some set bit stands for it, and as often as there are such bits. */
  lemma {:induction false} SelectedCount(table: seq<Mode>, bits: seq<bool>, m: Mode)
    requires |bits| <= |table|
    ensures multiset(Selected(table, bits))[m] == SetBits(table, bits, m)
  {
    if bits != [] {
      SelectedCount(table, bits[..|bits| - 1], m);
    }
  }

  function SetBits(table: seq<Mode>, bits: seq<bool>, m: Mode): nat
    requires |bits| <= |table|
  {
    if bits == [] then 0
    else SetBits(table, bits[..|bits| - 1], m) + if bits[|bits| - 1] && table[|bits| - 1] == m then 1 else 0
  }

  /** The tallest height at which `width` is in proportion: 16 to 10, 4 to 3, 5 to 4 or 16 to 9. */
  predicate Proportional(width: nat, height: nat, ratio: nat) {
    match ratio
    case 0 => 16 * height <= 10 * width < 16 * (height + 1)
    case 1 => 4 * height <= 3 * width < 4 * (height + 1)
    case 2 => 5 * height <= 4 * width < 5 * (height + 1)
    case _ => 16 * height <= 9 * width < 16 * (height + 1)
  }

  /** A slot lists exactly this one mode. */
  predicate Lists(slot: seq<Mode>, width: nat, ratio: nat, refresh: nat) {
    && |slot| == 1 && slot[0].width == width && slot[0].refresh == refresh as real
    && Proportional(width, slot[0].height, ratio)
  }

  /**
    Every width, aspect ratio and refresh a standard timing can express is read back, but for the one
    that means an unused slot.
   */
  lemma StandardRoundTrip(width: nat, ratio: nat, refresh: nat)
    requires 248 <= width <= 2288 && width % 8 == 0 && ratio < 4 && 60 <= refresh < 124
    ensures var a, b := width / 8 - 31, ratio * 64 + (refresh - 60);
            && 0 <= a < 256 && b < 256
            && (Lists(StandardSlot(a, b), width, ratio, refresh) <==> !(width == 256 && ratio == 0 && refresh == 61))
  {
    var a, b := width / 8 - 31, ratio * 64 + (refresh - 60);
    assert b / 64 == ratio && b % 64 == refresh - 60;
    assert (a + 31) * 8 == width;
  }

  // ---------------------------------------------------------------- CEA data blocks round-trip

  /** A data block: three-bit tag and up to 31 bytes. */
  datatype Block = Block(tag: nat, payload: seq<nat>)

  predicate BlockOk(b: Block) {
    b.tag < 8 && |b.payload| < 32 && Bytes(b.payload)
  }

  function EncodeBlock(b: Block): seq<nat> {
    [b.tag * 32 + |b.payload|] + b.payload
  }

  function EncodeBlocks(bs: seq<Block>): seq<nat> {
    if bs == [] then [] else EncodeBlock(bs[0]) + EncodeBlocks(bs[1..])
  }

  /** The codes of the first video block. */
  function FirstVideo(bs: seq<Block>): seq<nat> {
    if bs == [] then [] else if bs[0].tag == CEA_VIDEO_BLOCK_IDENTIFIER then bs[0].payload else FirstVideo(bs[1..])
  }

  predicate HasVideo(bs: seq<Block>) {
    bs != [] && (bs[0].tag == CEA_VIDEO_BLOCK_IDENTIFIER || HasVideo(bs[1..]))
  }

  lemma SliceOfSlice(e: seq<nat>, at: nat, n: nat, i: nat, j: nat)
    requires at + n <= |e| && i <= j <= n
    ensures e[at..at + n][i..j] == e[at + i..at + j]
  {
    var a, b := e[at..at + n][i..j], e[at + i..at + j];
    forall k | 0 <= k < j - i
      ensures a[k] == b[k]
    {
      assert a[k] == e[at..at + n][i + k] == e[at + i + k];
    }
  }

  lemma Parts(h: nat, p: seq<nat>, q: seq<nat>)
    ensures var w := [h] + p + q; w[0] == h && w[1..|p| + 1] == p && w[|p| + 1..|w|] == q
  {
    var w := [h] + p + q;
    assert w[1..|p| + 1] == p;
    assert w[|p| + 1..|w|] == q;
  }

  /** `w` lies in `e` at `at`. */
  predicate Holds(e: seq<nat>, at: nat, w: seq<nat>) {
    at + |w| <= |e| && e[at..at + |w|] == w
  }

  /** What the first block contributes to the bytes of the walk. */
  lemma FirstBlock(e: seq<nat>, at: nat, b: Block, rest: seq<nat>)
    requires BlockOk(b) && Holds(e, at, EncodeBlock(b) + rest)
    ensures var n := |b.payload|;
            && |EncodeBlock(b) + rest| == n + 1 + |rest| && at < |e|
            && e[at] / 32 == b.tag && e[at] % 32 == n
            && Holds(e, at + 1, b.payload) && Holds(e, at + n + 1, rest)
  {
    var n, w := |b.payload|, EncodeBlock(b) + rest;
    Parts(b.tag * 32 + n, b.payload, rest);
    assert e[at] == w[0];
    SliceOfSlice(e, at, |w|, 1, n + 1);
    SliceOfSlice(e, at, |w|, n + 1, |w|);
  }

  lemma VideoHere(e: seq<nat>, at: nat, end: nat, p: seq<nat>)
    requires Edid(e) && at + |p| < end < EDID_SIZE && Holds(e, at + 1, p)
    requires e[at] / 32 == CEA_VIDEO_BLOCK_IDENTIFIER && e[at] % 32 == |p|
    ensures FindVideo(e, at, end) == at && BlockCodes(e, at) == p
  {
  }

  lemma VideoLater(e: seq<nat>, at: nat, end: nat)
    requires Edid(e) && at < end < EDID_SIZE && e[at] / 32 != CEA_VIDEO_BLOCK_IDENTIFIER
    ensures FindVideo(e, at, end) == FindVideo(e, at + e[at] % 32 + 1, end)
  {
  }

  /** The walk over encoded blocks finds the first video block and its codes. */
  lemma {:induction false} WalkFindsVideo(e: seq<nat>, at: nat, end: nat, bs: seq<Block>)
    requires Edid(e) && end < EDID_SIZE && HasVideo(bs) && forall i | 0 <= i < |bs| :: BlockOk(bs[i])
    requires at + |EncodeBlocks(bs)| <= end && Holds(e, at, EncodeBlocks(bs))
    ensures var r := FindVideo(e, at, end);
            at <= r < end && BlockCodes(e, r) == FirstVideo(bs)
    decreases |bs|
  {
    var b, rest := bs[0], bs[1..];
    assert EncodeBlocks(bs) == EncodeBlock(b) + EncodeBlocks(rest) && BlockOk(b);
    assert forall i | 0 <= i < |rest| :: BlockOk(rest[i]);
    hide EncodeBlocks, EncodeBlock, Holds, BlockOk, FindVideo, BlockCodes;
    FirstBlock(e, at, b, EncodeBlocks(rest));
    if b.tag == CEA_VIDEO_BLOCK_IDENTIFIER {
      VideoHere(e, at, end, b.payload);
    } else {
      VideoLater(e, at, end);
      WalkFindsVideo(e, at + |b.payload| + 1, end, rest);
    }
  }

  /** Past blocks without a video block the walk simply goes on. */
  lemma {:induction false} WalkPasses(e: seq<nat>, at: nat, end: nat, bs: seq<Block>)
    requires Edid(e) && end < EDID_SIZE && !HasVideo(bs) && forall i | 0 <= i < |bs| :: BlockOk(bs[i])
    requires at + |EncodeBlocks(bs)| <= end && Holds(e, at, EncodeBlocks(bs))
    ensures FindVideo(e, at, end) == FindVideo(e, at + |EncodeBlocks(bs)|, end) && FirstVideo(bs) == []
    decreases |bs|
  {
    if bs != [] {
      var b, rest := bs[0], bs[1..];
      assert EncodeBlocks(bs) == EncodeBlock(b) + EncodeBlocks(rest) && BlockOk(b);
      assert forall i | 0 <= i < |rest| :: BlockOk(rest[i]);
      hide EncodeBlocks, EncodeBlock, Holds, BlockOk, FindVideo, Bytes;
      FirstBlock(e, at, b, EncodeBlocks(rest));
      VideoLater(e, at, end);
      var next := at + |b.payload| + 1;
      assert FindVideo(e, at, end) == FindVideo(e, next, end);
      assert at + |EncodeBlocks(bs)| == next + |EncodeBlocks(rest)|;
      WalkPasses(e, next, end, rest);
    }
  }

  /** No code of the list stands for a table entry. */
  predicate NoEntries(codes: seq<nat>) {
    forall i | 0 <= i < |codes| :: VicIndex(Vic(codes[i])) < 0
  }

  lemma {:induction false} NoModesIff(codes: seq<nat>, t: Tables)
    requires TablesOk(t)
    ensures VicModes(codes, t) == [] <==> NoEntries(codes)
  {
    if codes != [] {
      var k := |codes| - 1;
      NoModesIff(codes[..k], t);
      assert NoEntries(codes[..k]) ==> forall i | 0 <= i < k :: codes[..k][i] == codes[i];
      if NoEntries(codes) {
        assert forall i | 0 <= i < k :: codes[..k][i] == codes[i];
      }
    }
  }

  /** What the walk finds in the four bytes after the data blocks, which are no data blocks. */
  predicate StrayVideo(e: seq<nat>, n: nat)
    requires Edid(e) && CEA_DATA_FIRST_BLOCK_INDEX + n < EDID_SIZE
  {
    var at := FindVideo(e, CEA_DATA_FIRST_BLOCK_INDEX + n, CeaEnd(e));
    at < CeaEnd(e) && !NoEntries(BlockCodes(e, at))
  }

  /**
    An extension whose descriptors start right after its data blocks lists exactly the modes of its
    first video block, if and only if it has one or the bytes after the blocks do not look like one.
   */
  lemma CeaRoundTrip(e: seq<nat>, bs: seq<Block>, t: Tables)
    requires Edid(e) && TablesOk(t) && forall i | 0 <= i < |bs| :: BlockOk(bs[i])
    requires Holds(e, CEA_DATA_FIRST_BLOCK_INDEX, EncodeBlocks(bs))
    requires e[CEA_DATA_BLOCKS_END_INDEX] == 4 + |EncodeBlocks(bs)|
    requires CEA_DATA_FIRST_BLOCK_INDEX + |EncodeBlocks(bs)| < EDID_SIZE
    ensures CeaModes(e, t) == VicModes(FirstVideo(bs), t) <==> HasVideo(bs) || !StrayVideo(e, |EncodeBlocks(bs)|)
  {
    if HasVideo(bs) {
      WalkFindsVideo(e, CEA_DATA_FIRST_BLOCK_INDEX, CeaEnd(e), bs);
    } else {
      WalkPasses(e, CEA_DATA_FIRST_BLOCK_INDEX, CeaEnd(e), bs);
      var at := FindVideo(e, CEA_DATA_FIRST_BLOCK_INDEX, CeaEnd(e));
      if at < CeaEnd(e) {
        NoModesIff(BlockCodes(e, at), t);
      }
    }
  }

  /** A valid EDID without any data block, whose first detailed timing has clock 0x1041. */
  function PhantomEdid(): (e: seq<nat>)
    ensures Edid(e)
  {
    seq(EDID_SIZE, i requires 0 <= i < EDID_SIZE =>
      if 1 <= i <= 6 then 0xFF else if i == 127 then 6
      else if i == 130 then 4 else if i == 132 then 0x41 else if i == 133 then 0x10 else if i == 255 then 171 else 0)
  }

  lemma {:induction false} SumZero(e: seq<nat>, lo: nat, hi: nat)
    requires lo <= hi <= |e| && forall i | lo <= i < hi :: e[i] == 0
    ensures Sum(e, lo, hi) == 0
    decreases hi
  {
    if lo < hi { SumZero(e, lo, hi - 1); }
  }

  lemma {:induction false} SumSplit(e: seq<nat>, lo: nat, mid: nat, hi: nat)
    requires lo <= mid <= hi <= |e|
    ensures Sum(e, lo, hi) == Sum(e, lo, mid) + Sum(e, mid, hi)
    decreases hi
  {
    if mid < hi { SumSplit(e, lo, mid, hi - 1); }
  }

  lemma PhantomSums()
    ensures ChecksumsOk(PhantomEdid())
  {
    var e := PhantomEdid();
    assert Sum(e, 0, 7) == 6 * 255 by {
      assert Sum(e, 0, 2) == 255 && Sum(e, 0, 4) == 3 * 255 && Sum(e, 0, 6) == 5 * 255;
    }
    SumZero(e, 7, 127);
    SumSplit(e, 0, 7, 127);
    assert Sum(e, 128, 131) == 4 by {
      assert Sum(e, 128, 130) == 0;
    }
    assert Sum(e, 128, 133) == 69;
    SumZero(e, 134, 255);
    SumSplit(e, 128, 134, 255);
  }

  /** It passes every validity check and is given a mode that it does not list: the sixteenth of the table. */
  lemma PhantomMode(t: Tables)
    requires TablesOk(t)
    ensures HeaderOk(PhantomEdid()) && ChecksumsOk(PhantomEdid())
    ensures PhantomEdid()[CEA_DATA_BLOCKS_END_INDEX] == 4 + |EncodeBlocks([])|
    ensures CeaModes(PhantomEdid(), t) == [t.cea[15]] && VicModes(FirstVideo([]), t) == []
  {
    var e := PhantomEdid();
    PhantomSums();
    assert e[..8] == HEADER;
    assert BlockCodes(e, 132) == [0x10];
    assert [0x10][..0] == [] && VicModes([0x10][..0], t) == [];
  }
}
