/** The IP discovery binary: layout, decoding and encoding. Models the structures of
    dext/amdgpu/amdgpu_discovery.h and the decisions of dext/amdgpu/amdgpu_discovery.cpp. */
module DiscoveryFormat {
  import opened Words

  // ---- Little-endian fields ----------------------------------------------------------------

  function U16(b: seq<Byte>, i: nat): (r: nat)
    requires i + 2 <= |b|
    ensures r < 0x1_0000
  {
    (b[i] as int) + 256 * (b[i + 1] as int)
  }

  function U32(b: seq<Byte>, i: nat): (r: nat)
    requires i + 4 <= |b|
    ensures r <= U32_MAX
  {
    U16(b, i) + 0x1_0000 * U16(b, i + 2)
  }

  function U64(b: seq<Byte>, i: nat): (r: nat)
    requires i + 8 <= |b|
    ensures r <= U64_MAX
  {
    U32(b, i) + 0x1_0000_0000 * U32(b, i + 4)
  }

  /** compute_checksum: a 16-bit sum of bytes. */
  function Checksum(b: seq<Byte>): (r: nat)
    ensures r < 0x1_0000
  {
    if b == [] then 0 else (Checksum(b[..|b| - 1]) + b[|b| - 1]) % 0x1_0000
  }

  // ---- What is decoded -----------------------------------------------------------------------

  datatype IPVersion = IPVersion(major: nat, minor: nat, rev: nat)
  datatype Block = GC | HDP | SDMA0 | SDMA1 | MP0 | MP1 | NBIO | OSSSYS | GMC | MMHUB | SMUIO

  /** hwid_to_block. */
  function BlockOf(hwId: nat): Option<Block> {
    match hwId
    case 255 => Some(MP0)
    case 1 => Some(MP1)
    case 11 => Some(GC)
    case 34 => Some(MMHUB)
    case 41 => Some(HDP)
    case 40 => Some(OSSSYS)
    case 42 => Some(SDMA0)
    case 43 => Some(SDMA1)
    case 108 => Some(NBIO)
    case 4 => Some(SMUIO)
    case _ => None
  }

  /** One record of a die, with its base addresses as stored. */
  datatype Rec = Rec(hwId: nat, instance: nat, major: nat, minor: nat, revision: nat, variant: nat, bases: seq<nat>)
  datatype Die = Die(id: nat, records: seq<Rec>)

  datatype Gfx = NoGfx | Gfx(engines: nat, shPerSe: nat, cuPerSh: nat, backendsPerSe: nat, waveFront: nat,
                             wavesPerSimd: nat, scratchSlotsPerCu: nat, ldsKib: nat)

  const SEGMENTS: nat := 8 // kMaxBaseSegments
  const UNSET: nat := U32_MAX

  datatype Row = Row(base: seq<nat>, version: IPVersion)
  /** A block without a row is unset. */
  datatype Table = Table(rows: map<Block, Row>, gfx: Gfx)

  const UNSET_ROW := Row([UNSET, UNSET, UNSET, UNSET, UNSET, UNSET, UNSET, UNSET], IPVersion(0, 0, 0))

  function Used(n: nat): nat {
    if n > SEGMENTS then SEGMENTS else n
  }

  /** The 64-bit form drops the bits above the low 30. */
  function BaseOf(stored: nat, wide: bool): nat {
    if wide then stored % 0x4000_0000 else stored
  }

  /** Segments beyond the record's own keep what an earlier record of the block left there. */
  function Segment(row: Row, r: Rec, wide: bool, k: nat): nat
    requires k < SEGMENTS
  {
    if k < Used(|r.bases|) then BaseOf(r.bases[k], wide) else if k < |row.base| then row.base[k] else UNSET
  }

  function NewRow(row: Row, r: Rec, wide: bool): Row {
    Row(seq(SEGMENTS, k requires 0 <= k < SEGMENTS => Segment(row, r, wide, k)), IPVersion(r.major, r.minor, r.revision))
  }

  /** Only the first instance of a block we track counts. */
  predicate Counts(r: Rec) {
    BlockOf(r.hwId).Some? && r.instance == 0
  }

  function Apply(t: map<Block, Row>, r: Rec, wide: bool): map<Block, Row> {
    if !Counts(r) then t
    else
      var blk := BlockOf(r.hwId).value;
      var row := if blk in t then t[blk] else UNSET_ROW;
      t[blk := NewRow(row, r, wide)]
  }

  /** The table after the records in order: a later record of a block overrides an earlier one. */
  function Fold(t: map<Block, Row>, records: seq<Rec>, wide: bool): map<Block, Row>
    decreases |records|
  {
    if records == [] then t else Fold(Apply(t, records[0], wide), records[1..], wide)
  }

  lemma {:induction false} FoldAppend(t: map<Block, Row>, a: seq<Rec>, b: seq<Rec>, wide: bool)
    ensures Fold(t, a + b, wide) == Fold(Fold(t, a, wide), b, wide)
    decreases |a|
  {
    if a == [] {
      assert a + b == b;
    } else {
      assert (a + b)[0] == a[0] && (a + b)[1..] == a[1..] + b;
      FoldAppend(Apply(t, a[0], wide), a[1..], b, wide);
    }
  }

  // ---- Decoding ------------------------------------------------------------------------------

  const HEADER_BYTES: nat := 60 // DiscoveryBinaryHeader
  const IPDS_BYTES: nat := 80 // DiscoveryIPDSHeader
  const DIE_BYTES: nat := 4
  const RECORD_BYTES: nat := 8
  const CHECKSUM_START: nat := 10
  const SIGNATURE: nat := 0x28211407
  const IPDS_SIGNATURE: nat := 0x53445049

  function BaseBytes(wide: bool): nat { if wide then 8 else 4 }

  function StoredBase(b: seq<Byte>, i: nat, wide: bool): nat
    requires i + BaseBytes(wide) <= |b|
  {
    if wide then U64(b, i) else U32(b, i)
  }

  function RecordSize(b: seq<Byte>, pos: nat, wide: bool): nat
    requires pos + RECORD_BYTES <= |b|
  {
    RECORD_BYTES + b[pos + 3] * BaseBytes(wide)
  }

  function BaseAt(b: seq<Byte>, pos: nat, k: nat, wide: bool): nat
    requires pos + RECORD_BYTES <= |b| && k < b[pos + 3] && pos + RecordSize(b, pos, wide) <= |b|
  {
    StoredBase(b, pos + RECORD_BYTES + k * BaseBytes(wide), wide)
  }

  function DecodeRecord(b: seq<Byte>, pos: nat, end: nat, wide: bool): (r: Option<Rec>)
    requires end <= |b|
    ensures r.Some? ==> pos + RECORD_BYTES <= end && pos + RecordSize(b, pos, wide) <= end
  {
    if pos + RECORD_BYTES > end || pos + RecordSize(b, pos, wide) > end then None
    else Some(Rec(U16(b, pos), b[pos + 2], b[pos + 4], b[pos + 5], b[pos + 6], b[pos + 7],
                  seq(b[pos + 3], k requires 0 <= k < b[pos + 3] => BaseAt(b, pos, k, wide))))
  }

  /** n records one after the other, all inside the table. */
  function DecodeRecords(b: seq<Byte>, pos: nat, n: nat, end: nat, wide: bool): Option<seq<Rec>>
    requires end <= |b|
    decreases n
  {
    if n == 0 then Some([])
    else
      var first := DecodeRecord(b, pos, end, wide);
      if first.None? then None
      else
        var rest := DecodeRecords(b, pos + RecordSize(b, pos, wide), n - 1, end, wide);
        if rest.None? then None else Some([first.value] + rest.value)
  }

  /** One die: its directory entry must lie behind the header and name the die found there. */
  function DecodeDie(b: seq<Byte>, ipds: nat, d: nat, end: nat, wide: bool): Option<seq<Rec>>
    requires ipds + IPDS_BYTES <= end <= |b| && d < 16
  {
    var off := U16(b, ipds + 14 + d * 4 + 2);
    if off < ipds + IPDS_BYTES || off + DIE_BYTES > end then None
    else if U16(b, off) != U16(b, ipds + 14 + d * 4) then None
    else DecodeRecords(b, off + DIE_BYTES, U16(b, off + 2), end, wide)
  }

  function DecodeDies(b: seq<Byte>, ipds: nat, d: nat, n: nat, end: nat, wide: bool): Option<seq<Rec>>
    requires ipds + IPDS_BYTES <= end <= |b| && d <= n <= 16
    decreases n - d
  {
    if d == n then Some([])
    else
      var first := DecodeDie(b, ipds, d, end, wide);
      if first.None? then None
      else
        var rest := DecodeDies(b, ipds, d + 1, n, end, wide);
        if rest.None? then None else Some(first.value + rest.value)
  }

  /** The sizes parse_gc_info accepts for a version of the GC table; 0 is an unknown version. */
  function GcSize(major: nat, minor: nat): nat {
    if major == 1 && minor < 4 then [88, 100, 132, 164][minor]
    else if major == 2 && minor < 2 then [80, 108][minor]
    else 0
  }

  function GcWord(b: seq<Byte>, off: nat, k: nat): nat
    requires off + 16 + k * 4 <= |b|
  {
    U32(b, off + 12 + k * 4)
  }

  /** Version 1 counts pairs of compute units and keeps its shader arrays in word 16. */
  function GfxAt(b: seq<Byte>, off: nat, major: nat): Gfx
    requires off + (if major == 1 then 88 else 80) <= |b|
  {
    var cu := if major == 1 then 2 * (GcWord(b, off, 1) + GcWord(b, off, 2)) else GcWord(b, off, 1);
    Gfx(GcWord(b, off, 0), GcWord(b, off, if major == 1 then 16 else 2), cu, GcWord(b, off, 3), GcWord(b, off, 11),
        GcWord(b, off, 12), GcWord(b, off, 13), GcWord(b, off, 14))
  }

  predicate GfxPlausible(g: Gfx) {
    && g.Gfx? && 0 < g.engines <= 32 && 0 < g.shPerSe <= 4 && 0 < g.cuPerSh <= 64 && 0 < g.backendsPerSe <= 32
    && (g.waveFront == 32 || g.waveFront == 64) && 0 < g.wavesPerSimd <= 64 && 0 < g.scratchSlotsPerCu <= 256 && 0 < g.ldsKib <= 1024
  }

  /** parse_gc_info: an absent table is fine, a present one must be whole and plausible. */
  function DecodeGfx(b: seq<Byte>, off: nat, checksum: nat): Option<Gfx> {
    if off == 0 then Some(NoGfx)
    else if off < HEADER_BYTES || off > |b| || |b| - off < 12 then None
    else if U32(b, off) != 0x4347 then None
    else
      var major, size, required := U16(b, off + 4), U32(b, off + 8), GcSize(U16(b, off + 4), U16(b, off + 6));
      if required == 0 || size < required || size > |b| - off || Checksum(b[off..off + size]) != checksum then None
      else
        var g := GfxAt(b, off, major);
        if GfxPlausible(g) then Some(g) else None
  }

  function Wide(b: seq<Byte>, ipds: nat): bool
    requires ipds + IPDS_BYTES <= |b|
  {
    U16(b, ipds + 4) == 4 && b[ipds + 78] % 2 == 1
  }

  predicate HeaderValid(b: seq<Byte>) {
    && |b| >= HEADER_BYTES && U32(b, 0) == SIGNATURE && U16(b, 4) == 1 && HEADER_BYTES <= U16(b, 10) <= |b|
  }

  /** The IPDS header at `ipds` of a binary that ends where its header declares. */
  predicate IpdsValid(d: seq<Byte>, ipds: nat, checksum: nat) {
    && HEADER_BYTES <= ipds && ipds + IPDS_BYTES <= |d|
    && U32(d, ipds) == IPDS_SIGNATURE && 1 <= U16(d, ipds + 4) <= 4
    && IPDS_BYTES <= U16(d, ipds + 6) && ipds + U16(d, ipds + 6) <= |d| && 1 <= U16(d, ipds + 12) <= 16
    && Checksum(d[ipds..ipds + U16(d, ipds + 6)]) == checksum
  }

  /** What a binary cut to its declared size says, if it is valid. */
  function DecodeDeclared(d: seq<Byte>): Option<Table>
    requires |d| >= HEADER_BYTES
  {
    var ipds := U16(d, 12);
    if Checksum(d[CHECKSUM_START..]) != U16(d, 8) || !IpdsValid(d, ipds, U16(d, 14)) then None
    else
      var records := DecodeDies(d, ipds, 0, U16(d, ipds + 12), ipds + U16(d, ipds + 6), Wide(d, ipds));
      var gfx := DecodeGfx(d, U16(d, 20), U16(d, 22));
      if records.None? || gfx.None? then None
      else Some(Table(Fold(map[], records.value, Wide(d, ipds)), gfx.value))
  }

  /** The whole input: bytes behind the declared size play no part. */
  function Decode(b: seq<Byte>): Option<Table> {
    if !HeaderValid(b) then None else DecodeDeclared(b[..U16(b, 10)])
  }

  lemma TailIsIgnored(b: seq<Byte>, tail: seq<Byte>, other: seq<Byte>)
    requires HeaderValid(b) && U16(b, 10) == |b|
    ensures Decode(b + tail) == Decode(b + other) == Decode(b)
  {
    assert forall t: seq<Byte> :: (b + t)[..|b|] == b;
    assert HeaderValid(b + tail) && HeaderValid(b + other);
    assert b[..|b|] == b;
  }
}
