/** Encoding a list of dies as a discovery binary and decoding it again. The encoder is the reference
    the parser of dext/amdgpu/amdgpu_discovery.cpp is measured against. */
module DiscoveryRoundTrip {
  import opened Words
  import opened DiscoveryFormat

  // ---- Fields ----------------------------------------------------------------------------------

  function B16(v: nat): (r: seq<Byte>)
    requires v < 0x1_0000
    ensures |r| == 2
  {
    [v % 256, v / 256]
  }

  function B32(v: nat): (r: seq<Byte>)
    requires v <= U32_MAX
    ensures |r| == 4
  {
    B16(v % 0x1_0000) + B16(v / 0x1_0000)
  }

  function B64(v: nat): (r: seq<Byte>)
    requires v <= U64_MAX
    ensures |r| == 8
  {
    B32(v % 0x1_0000_0000) + B32(v / 0x1_0000_0000)
  }

  /** The bytes s stand in b from i on. */
  predicate HasAt(b: seq<Byte>, i: nat, s: seq<Byte>) {
    i + |s| <= |b| && b[i..i + |s|] == s
  }

  lemma Parts(b: seq<Byte>, i: nat, x: seq<Byte>, y: seq<Byte>)
    requires HasAt(b, i, x + y)
    ensures HasAt(b, i, x) && HasAt(b, i + |x|, y)
  {
    var w := b[i..i + |x + y|];
    assert w[..|x|] == x && w[|x|..] == y;
    assert b[i..i + |x|] == w[..|x|];
    assert b[i + |x|..i + |x| + |y|] == w[|x|..];
  }

  lemma ByteAt(b: seq<Byte>, i: nat, s: seq<Byte>, k: nat)
    requires HasAt(b, i, s) && k < |s|
    ensures b[i + k] == s[k]
  {
    assert b[i..i + |s|][k] == b[i + k];
  }

  lemma Dec16(b: seq<Byte>, i: nat, v: nat)
    requires v < 0x1_0000 && HasAt(b, i, B16(v))
    ensures U16(b, i) == v
  {
    ByteAt(b, i, B16(v), 0);
    ByteAt(b, i, B16(v), 1);
  }

  lemma Dec32(b: seq<Byte>, i: nat, v: nat)
    requires v <= U32_MAX && HasAt(b, i, B32(v))
    ensures U32(b, i) == v
  {
    Parts(b, i, B16(v % 0x1_0000), B16(v / 0x1_0000));
    Dec16(b, i, v % 0x1_0000);
    Dec16(b, i + 2, v / 0x1_0000);
  }

  lemma Dec64(b: seq<Byte>, i: nat, v: nat)
    requires v <= U64_MAX && HasAt(b, i, B64(v))
    ensures U64(b, i) == v
  {
    hide B32, U32;
    Parts(b, i, B32(v % 0x1_0000_0000), B32(v / 0x1_0000_0000));
    Dec32(b, i, v % 0x1_0000_0000);
    Dec32(b, i + 4, v / 0x1_0000_0000);
  }

  // ---- Records ---------------------------------------------------------------------------------

  predicate Storable(v: nat, wide: bool) {
    v <= if wide then U64_MAX else U32_MAX
  }

  predicate RecFits(r: Rec, wide: bool) {
    && r.hwId < 0x1_0000 && r.instance < 256 && r.major < 256 && r.minor < 256 && r.revision < 256 && r.variant < 256
    && |r.bases| < 256 && forall k :: 0 <= k < |r.bases| ==> Storable(r.bases[k], wide)
  }

  function EncodeBase(v: nat, wide: bool): (r: seq<Byte>)
    requires Storable(v, wide)
    ensures |r| == BaseBytes(wide)
  {
    if wide then B64(v) else B32(v)
  }

  function EncodeBases(bases: seq<nat>, wide: bool): (r: seq<Byte>)
    requires forall k :: 0 <= k < |bases| ==> Storable(bases[k], wide)
    ensures |r| == if wide then 8 * |bases| else 4 * |bases|
    decreases |bases|
  {
    if bases == [] then [] else EncodeBase(bases[0], wide) + EncodeBases(bases[1..], wide)
  }

  function EncodeRec(r: Rec, wide: bool): (s: seq<Byte>)
    requires RecFits(r, wide)
    ensures |s| == RECORD_BYTES + |r.bases| * BaseBytes(wide)
  {
    B16(r.hwId) + ([r.instance, |r.bases|, r.major, r.minor, r.revision, r.variant] + EncodeBases(r.bases, wide))
  }

  lemma {:induction false} BasesDecode(b: seq<Byte>, i: nat, bases: seq<nat>, wide: bool, k: nat)
    requires forall j :: 0 <= j < |bases| ==> Storable(bases[j], wide)
    requires HasAt(b, i, EncodeBases(bases, wide)) && k < |bases|
    ensures i + k * BaseBytes(wide) + BaseBytes(wide) <= |b| && StoredBase(b, i + k * BaseBytes(wide), wide) == bases[k]
    decreases |bases|
  {
    hide B32, B64, U32, U64;
    Parts(b, i, EncodeBase(bases[0], wide), EncodeBases(bases[1..], wide));
    if k == 0 {
      if wide {
        Dec64(b, i, bases[0]);
      } else {
        Dec32(b, i, bases[0]);
      }
    } else {
      BasesDecode(b, i + BaseBytes(wide), bases[1..], wide, k - 1);
    }
  }

  lemma RecDecodes(b: seq<Byte>, pos: nat, end: nat, r: Rec, wide: bool)
    requires RecFits(r, wide) && end <= |b| && pos + |EncodeRec(r, wide)| <= end && HasAt(b, pos, EncodeRec(r, wide))
    ensures DecodeRecord(b, pos, end, wide) == Some(r) && RecordSize(b, pos, wide) == |EncodeRec(r, wide)|
  {
    hide U16, B16, U32, U64, EncodeBases, StoredBase;
    var fixed: seq<Byte> := [r.instance, |r.bases|, r.major, r.minor, r.revision, r.variant];
    Parts(b, pos, B16(r.hwId), fixed + EncodeBases(r.bases, wide));
    Parts(b, pos + 2, fixed, EncodeBases(r.bases, wide));
    Dec16(b, pos, r.hwId);
    forall k | 0 <= k < 6
      ensures b[pos + 2 + k] == fixed[k]
    {
      ByteAt(b, pos + 2, fixed, k);
    }
    assert b[pos + 3] == fixed[1] && b[pos + 2] == fixed[0] && b[pos + 4] == fixed[2];
    assert b[pos + 5] == fixed[3] && b[pos + 6] == fixed[4] && b[pos + 7] == fixed[5];
    var got := DecodeRecord(b, pos, end, wide).value;
    forall k | 0 <= k < |r.bases|
      ensures got.bases[k] == r.bases[k]
    {
      BasesDecode(b, pos + RECORD_BYTES, r.bases, wide, k);
    }
    assert got.bases == r.bases;
  }

  predicate RecsFit(rs: seq<Rec>, wide: bool) {
    forall k :: 0 <= k < |rs| ==> RecFits(rs[k], wide)
  }

  function EncodeRecs(rs: seq<Rec>, wide: bool): seq<Byte>
    requires RecsFit(rs, wide)
  {
    if rs == [] then [] else EncodeRec(rs[0], wide) + EncodeRecs(rs[1..], wide)
  }

  lemma {:induction false} RecsDecode(b: seq<Byte>, pos: nat, end: nat, rs: seq<Rec>, wide: bool)
    requires RecsFit(rs, wide) && end <= |b| && pos + |EncodeRecs(rs, wide)| <= end && HasAt(b, pos, EncodeRecs(rs, wide))
    ensures DecodeRecords(b, pos, |rs|, end, wide) == Some(rs)
    decreases |rs|
  {
    hide EncodeRec, DecodeRecord, RecordSize;
    if rs != [] {
      Parts(b, pos, EncodeRec(rs[0], wide), EncodeRecs(rs[1..], wide));
      RecDecodes(b, pos, end, rs[0], wide);
      RecsDecode(b, pos + |EncodeRec(rs[0], wide)|, end, rs[1..], wide);
      assert [rs[0]] + rs[1..] == rs;
    }
  }

  // ---- Dies ------------------------------------------------------------------------------------

  predicate DieFits(die: Die, wide: bool) {
    die.id < 0x1_0000 && |die.records| < 0x1_0000 && RecsFit(die.records, wide)
  }

  predicate DiesFit(dies: seq<Die>, wide: bool) {
    forall k :: 0 <= k < |dies| ==> DieFits(dies[k], wide)
  }

  function EncodeDie(die: Die, wide: bool): (s: seq<Byte>)
    requires DieFits(die, wide)
    ensures |s| >= DIE_BYTES
  {
    B16(die.id) + (B16(|die.records|) + EncodeRecs(die.records, wide))
  }

  function EncodeDies(dies: seq<Die>, wide: bool): seq<Byte>
    requires DiesFit(dies, wide)
  {
    if dies == [] then [] else EncodeDie(dies[0], wide) + EncodeDies(dies[1..], wide)
  }

  /** The directory: identifier and offset of each die, padded with zeros to the slots there are. */
  function Directory(dies: seq<Die>, off: nat, slots: nat, wide: bool): (s: seq<Byte>)
    requires DiesFit(dies, wide) && |dies| <= slots && off + |EncodeDies(dies, wide)| < 0x1_0000
    ensures |s| == 4 * slots
    decreases slots
  {
    if slots == 0 then []
    else if dies == [] then [0, 0, 0, 0] + Directory([], off, slots - 1, wide)
    else B16(dies[0].id) + (B16(off) + Directory(dies[1..], off + |EncodeDie(dies[0], wide)|, slots - 1, wide))
  }

  function AllRecords(dies: seq<Die>): seq<Rec> {
    if dies == [] then [] else dies[0].records + AllRecords(dies[1..])
  }

  lemma DieDecodes(b: seq<Byte>, ipds: nat, d: nat, end: nat, die: Die, off: nat, wide: bool)
    requires DieFits(die, wide) && ipds + IPDS_BYTES <= off && off + |EncodeDie(die, wide)| <= end <= |b| && d < 16 && off < 0x1_0000
    requires HasAt(b, ipds + 14 + d * 4, B16(die.id)) && HasAt(b, ipds + 14 + d * 4 + 2, B16(off)) && HasAt(b, off, EncodeDie(die, wide))
    ensures DecodeDie(b, ipds, d, end, wide) == Some(die.records)
  {
    hide U16, B16, DecodeRecords, EncodeRecs;
    Parts(b, off, B16(die.id), B16(|die.records|) + EncodeRecs(die.records, wide));
    Parts(b, off + 2, B16(|die.records|), EncodeRecs(die.records, wide));
    Dec16(b, off, die.id);
    Dec16(b, off + 2, |die.records|);
    Dec16(b, ipds + 14 + d * 4, die.id);
    Dec16(b, ipds + 14 + d * 4 + 2, off);
    RecsDecode(b, off + DIE_BYTES, end, die.records, wide);
  }

  lemma DiesSplit(b: seq<Byte>, off: nat, dies: seq<Die>, wide: bool)
    requires DiesFit(dies, wide) && dies != [] && HasAt(b, off, EncodeDies(dies, wide))
    ensures HasAt(b, off, EncodeDie(dies[0], wide)) && HasAt(b, off + |EncodeDie(dies[0], wide)|, EncodeDies(dies[1..], wide))
    ensures |EncodeDies(dies, wide)| == |EncodeDie(dies[0], wide)| + |EncodeDies(dies[1..], wide)|
  {
    hide EncodeDie, HasAt;
    Parts(b, off, EncodeDie(dies[0], wide), EncodeDies(dies[1..], wide));
  }

  lemma DirectorySplit(b: seq<Byte>, i: nat, dies: seq<Die>, off: nat, slots: nat, wide: bool)
    requires DiesFit(dies, wide) && dies != [] && |dies| <= slots && off + |EncodeDies(dies, wide)| < 0x1_0000
    requires |EncodeDies(dies, wide)| == |EncodeDie(dies[0], wide)| + |EncodeDies(dies[1..], wide)|
    requires HasAt(b, i, Directory(dies, off, slots, wide))
    ensures HasAt(b, i, B16(dies[0].id)) && HasAt(b, i + 2, B16(off))
    ensures HasAt(b, i + 4, Directory(dies[1..], off + |EncodeDie(dies[0], wide)|, slots - 1, wide))
  {
    hide EncodeDie, HasAt, B16;
    var rest := Directory(dies[1..], off + |EncodeDie(dies[0], wide)|, slots - 1, wide);
    Parts(b, i, B16(dies[0].id), B16(off) + rest);
    Parts(b, i + 2, B16(off), rest);
  }

  lemma {:induction false} DiesDecode(b: seq<Byte>, ipds: nat, d: nat, end: nat, dies: seq<Die>, off: nat, wide: bool)
    requires DiesFit(dies, wide) && ipds + IPDS_BYTES <= off && off + |EncodeDies(dies, wide)| <= end <= |b|
    requires d + |dies| <= 16 && off + |EncodeDies(dies, wide)| < 0x1_0000
    requires HasAt(b, ipds + 14 + d * 4, Directory(dies, off, 16 - d, wide)) && HasAt(b, off, EncodeDies(dies, wide))
    ensures DecodeDies(b, ipds, d, d + |dies|, end, wide) == Some(AllRecords(dies))
    decreases |dies|
  {
    hide U16, B16, EncodeDie, DecodeDie, Directory, EncodeDies, HasAt;
    if dies != [] {
      var die, next := dies[0], off + |EncodeDie(dies[0], wide)|;
      DiesSplit(b, off, dies, wide);
      DirectorySplit(b, ipds + 14 + d * 4, dies, off, 16 - d, wide);
      DieDecodes(b, ipds, d, end, die, off, wide);
      DiesDecode(b, ipds, d + 1, end, dies[1..], next, wide);
    }
  }

  // ---- The GC table ------------------------------------------------------------------------------

  /** No GC table, or one of a version with its 32-bit words. */
  datatype GcTable = NoGc | Gc(major: nat, minor: nat, words: seq<nat>)

  predicate WordsFit(words: seq<nat>) {
    forall k :: 0 <= k < |words| ==> words[k] <= U32_MAX
  }

  predicate GcFits(gc: GcTable) {
    gc.Gc? ==> gc.major < 0x1_0000 && gc.minor < 0x1_0000 && 12 + 4 * |gc.words| < 0x1_0000 && WordsFit(gc.words)
  }

  function EncodeWords(words: seq<nat>): (s: seq<Byte>)
    requires WordsFit(words)
    ensures |s| == 4 * |words|
  {
    if words == [] then [] else B32(words[0]) + EncodeWords(words[1..])
  }

  function EncodeGc(gc: GcTable): (s: seq<Byte>)
    requires GcFits(gc)
    ensures |s| == if gc.NoGc? then 0 else 12 + 4 * |gc.words|
  {
    if gc.NoGc? then []
    else B32(0x4347) + (B16(gc.major) + (B16(gc.minor) + (B32(12 + 4 * |gc.words|) + EncodeWords(gc.words))))
  }

  function GfxFrom(w: seq<nat>, major: nat): Gfx
    requires |w| >= 17
  {
    Gfx(w[0], if major == 1 then w[16] else w[2], if major == 1 then 2 * (w[1] + w[2]) else w[1], w[3], w[11], w[12], w[13], w[14])
  }

  /** What the words of a table mean; `None` is a table the parser must refuse. */
  function GfxOf(gc: GcTable): Option<Gfx> {
    if gc.NoGc? then Some(NoGfx)
    else if GcSize(gc.major, gc.minor) == 0 || 12 + 4 * |gc.words| < GcSize(gc.major, gc.minor) then None
    else
      var g := GfxFrom(gc.words, gc.major);
      if GfxPlausible(g) then Some(g) else None
  }

  lemma {:induction false} WordsDecode(b: seq<Byte>, i: nat, words: seq<nat>, k: nat)
    requires WordsFit(words) && HasAt(b, i, EncodeWords(words)) && k < |words|
    ensures i + 4 * k + 4 <= |b| && U32(b, i + 4 * k) == words[k]
    decreases |words|
  {
    hide U32, B32;
    Parts(b, i, B32(words[0]), EncodeWords(words[1..]));
    if k == 0 {
      Dec32(b, i, words[0]);
    } else {
      WordsDecode(b, i + 4, words[1..], k - 1);
    }
  }

  lemma GcFields(b: seq<Byte>, off: nat, gc: GcTable)
    requires gc.Gc? && GcFits(gc) && HasAt(b, off, EncodeGc(gc))
    ensures off + 12 + 4 * |gc.words| <= |b| && b[off..off + 12 + 4 * |gc.words|] == EncodeGc(gc)
    ensures U32(b, off) == 0x4347 && U16(b, off + 4) == gc.major && U16(b, off + 6) == gc.minor && U32(b, off + 8) == 12 + 4 * |gc.words|
    ensures HasAt(b, off + 12, EncodeWords(gc.words))
  {
    hide U16, U32, B16, B32, EncodeWords;
    var words, size := EncodeWords(gc.words), 12 + 4 * |gc.words|;
    Parts(b, off, B32(0x4347), B16(gc.major) + (B16(gc.minor) + (B32(size) + words)));
    Parts(b, off + 4, B16(gc.major), B16(gc.minor) + (B32(size) + words));
    Parts(b, off + 6, B16(gc.minor), B32(size) + words);
    Parts(b, off + 8, B32(size), words);
    Dec32(b, off, 0x4347);
    Dec16(b, off + 4, gc.major);
    Dec16(b, off + 6, gc.minor);
    Dec32(b, off + 8, size);
  }

  lemma GcSizes(major: nat, minor: nat)
    ensures GcSize(major, minor) == 0 || GcSize(major, minor) >= (if major == 1 then 88 else 80)
  {
  }

  lemma GcWordsAre(b: seq<Byte>, off: nat, gc: GcTable)
    requires gc.Gc? && GcFits(gc) && HasAt(b, off + 12, EncodeWords(gc.words)) && |gc.words| >= 17
    ensures forall k :: 0 <= k < 17 ==> off + 16 + k * 4 <= |b| && GcWord(b, off, k) == gc.words[k]
  {
    hide U32, EncodeWords, HasAt;
    forall k | 0 <= k < 17
      ensures off + 16 + k * 4 <= |b| && GcWord(b, off, k) == gc.words[k]
    {
      WordsDecode(b, off + 12, gc.words, k);
    }
  }

  lemma GfxStands(b: seq<Byte>, off: nat, gc: GcTable)
    requires gc.Gc? && GcFits(gc) && HasAt(b, off + 12, EncodeWords(gc.words)) && 12 + 4 * |gc.words| >= (if gc.major == 1 then 88 else 80)
    requires off + 12 + 4 * |gc.words| <= |b|
    ensures GfxAt(b, off, gc.major) == GfxFrom(gc.words, gc.major)
  {
    hide GcWord, EncodeWords, HasAt, GcFits;
    GcWordsAre(b, off, gc);
  }

  /** A table that stands at its offset under its own checksum decodes to what its words mean. */
  lemma GcDecodes(b: seq<Byte>, off: nat, gc: GcTable)
    requires gc.Gc? && GcFits(gc) && off >= HEADER_BYTES && HasAt(b, off, EncodeGc(gc))
    ensures DecodeGfx(b, off, Checksum(EncodeGc(gc))) == GfxOf(gc)
  {
    hide U16, U32, Checksum, EncodeGc, EncodeWords, HasAt, GfxPlausible, GcSize, GfxAt, GfxFrom;
    GcFields(b, off, gc);
    GcSizes(gc.major, gc.minor);
    if GcSize(gc.major, gc.minor) != 0 && 12 + 4 * |gc.words| >= GcSize(gc.major, gc.minor) {
      GfxStands(b, off, gc);
    }
  }

  /** The words of a version 2.1 table that says exactly this. */
  function WordsOf(g: Gfx): seq<nat>
    requires g.Gfx?
  {
    [g.engines, g.cuPerSh, g.shPerSe, g.backendsPerSe, 0, 0, 0, 0, 0, 0, 0,
     g.waveFront, g.wavesPerSimd, g.scratchSlotsPerCu, g.ldsKib, 0, 0, 0, 0, 0, 0, 0, 0, 0]
  }

  /** Every plausible geometry has a table that means it. */
  lemma EveryGfxHasATable(g: Gfx)
    requires GfxPlausible(g)
    ensures GcFits(Gc(2, 1, WordsOf(g))) && GfxOf(Gc(2, 1, WordsOf(g))) == Some(g)
  {
  }

  // ---- The binary --------------------------------------------------------------------------------

  const DIES_START: nat := HEADER_BYTES + IPDS_BYTES

  /** What fits the format: one to sixteen dies, and 16-bit sizes and offsets throughout. */
  predicate Encodable(dies: seq<Die>, wide: bool, gc: GcTable) {
    && 1 <= |dies| <= 16 && DiesFit(dies, wide) && GcFits(gc)
    && DIES_START + |EncodeDies(dies, wide)| + |EncodeGc(gc)| < 0x1_0000
  }

  /** Where the IPDS table ends and the GC table starts. */
  function DiesEnd(dies: seq<Die>, wide: bool): nat
    requires DiesFit(dies, wide)
  {
    DIES_START + |EncodeDies(dies, wide)|
  }

  /** The IPDS table of version 4, where a flag selects 64-bit base addresses. */
  function IpdsTable(dies: seq<Die>, wide: bool): (s: seq<Byte>)
    requires Encodable(dies, wide, NoGc)
    ensures |s| == IPDS_BYTES + |EncodeDies(dies, wide)|
  {
    B32(IPDS_SIGNATURE) + (B16(4) + (B16(IPDS_BYTES + |EncodeDies(dies, wide)|) + (B32(0) + (B16(|dies|) +
      (Directory(dies, DIES_START, 16, wide) + ([if wide then 1 else 0, 0] + EncodeDies(dies, wide)))))))
  }

  /** The other entries of the table directory are empty. */
  const NO_TABLES: seq<Byte> := [0, 0, 0, 0, 0, 0, 0, 0, 0, 0, 0, 0, 0, 0, 0, 0,
                                 0, 0, 0, 0, 0, 0, 0, 0, 0, 0, 0, 0, 0, 0, 0, 0]

  /** The directory entry of the GC table; an offset of zero says there is none. */
  function GcEntry(dies: seq<Die>, wide: bool, gc: GcTable): (s: seq<Byte>)
    requires Encodable(dies, wide, gc)
    ensures |s| == 8
  {
    B16(if gc.NoGc? then 0 else DiesEnd(dies, wide)) + (B16(Checksum(EncodeGc(gc))) + (B16(|EncodeGc(gc)|) + B16(0)))
  }

  /** Everything the header checksum covers: the declared size, the table directory, and the tables. */
  function Body(dies: seq<Die>, wide: bool, gc: GcTable): (s: seq<Byte>)
    requires Encodable(dies, wide, gc)
    ensures |s| == 50 + IPDS_BYTES + |EncodeDies(dies, wide)| + |EncodeGc(gc)|
  {
    var table, tail := IpdsTable(dies, wide), EncodeGc(gc);
    B16(HEADER_BYTES + |table| + |tail|) + (B16(HEADER_BYTES) + (B16(Checksum(table)) + (B16(|table|) + (B16(0) +
      (GcEntry(dies, wide, gc) + (NO_TABLES + (table + tail)))))))
  }

  function Encode(dies: seq<Die>, wide: bool, gc: GcTable): (s: seq<Byte>)
    requires Encodable(dies, wide, gc)
    ensures |s| == DiesEnd(dies, wide) + |EncodeGc(gc)|
  {
    B32(SIGNATURE) + (B16(1) + (B16(0) + (B16(Checksum(Body(dies, wide, gc))) + Body(dies, wide, gc))))
  }

  lemma HeaderDecodes(dies: seq<Die>, wide: bool, gc: GcTable)
    requires Encodable(dies, wide, gc)
    ensures var b := Encode(dies, wide, gc);
            && U32(b, 0) == SIGNATURE && U16(b, 4) == 1 && U16(b, 8) == Checksum(Body(dies, wide, gc)) && b[CHECKSUM_START..] == Body(dies, wide, gc)
  {
    hide U16, U32, B16, B32, Body, Checksum, EncodeGc;
    var b := Encode(dies, wide, gc);
    assert HasAt(b, 0, b);
    var body := Body(dies, wide, gc);
    Parts(b, 0, B32(SIGNATURE), B16(1) + (B16(0) + (B16(Checksum(body)) + body)));
    Parts(b, 4, B16(1), B16(0) + (B16(Checksum(body)) + body));
    Parts(b, 6, B16(0), B16(Checksum(body)) + body);
    Parts(b, 8, B16(Checksum(body)), body);
    Dec32(b, 0, SIGNATURE);
    Dec16(b, 4, 1);
    Dec16(b, 8, Checksum(body));
  }

  /** Five 16-bit fields, and what follows them. */
  lemma FiveFields(b: seq<Byte>, i: nat, v: seq<Byte>, w: seq<Byte>, x: seq<Byte>, y: seq<Byte>, z: seq<Byte>, rest: seq<Byte>)
    requires |v| == |w| == |x| == |y| == |z| == 2 && HasAt(b, i, v + (w + (x + (y + (z + rest)))))
    ensures HasAt(b, i, v) && HasAt(b, i + 2, w) && HasAt(b, i + 4, x) && HasAt(b, i + 6, y) && HasAt(b, i + 8, z) && HasAt(b, i + 10, rest)
  {
    hide HasAt;
    Parts(b, i, v, w + (x + (y + (z + rest))));
    Parts(b, i + 2, w, x + (y + (z + rest)));
    Parts(b, i + 4, x, y + (z + rest));
    Parts(b, i + 6, y, z + rest);
    Parts(b, i + 8, z, rest);
  }

  lemma BehindEntry(b: seq<Byte>, i: nat, entry: seq<Byte>, others: seq<Byte>, table: seq<Byte>, tail: seq<Byte>)
    requires HasAt(b, i, entry + (others + (table + tail)))
    ensures HasAt(b, i, entry) && HasAt(b, i + |entry| + |others|, table) && HasAt(b, i + |entry| + |others| + |table|, tail)
  {
    hide HasAt;
    Parts(b, i, entry, others + (table + tail));
    Parts(b, i + |entry|, others, table + tail);
    Parts(b, i + |entry| + |others|, table, tail);
  }

  lemma EntryDecodes(b: seq<Byte>, dies: seq<Die>, wide: bool, gc: GcTable)
    requires Encodable(dies, wide, gc) && HasAt(b, 20, GcEntry(dies, wide, gc))
    ensures U16(b, 20) == (if gc.NoGc? then 0 else DiesEnd(dies, wide)) && U16(b, 22) == Checksum(EncodeGc(gc))
  {
    hide U16, B16, Checksum, EncodeDies, EncodeGc;
    var off := if gc.NoGc? then 0 else DiesEnd(dies, wide);
    Parts(b, 20, B16(off), B16(Checksum(EncodeGc(gc))) + (B16(|EncodeGc(gc)|) + B16(0)));
    Parts(b, 22, B16(Checksum(EncodeGc(gc))), B16(|EncodeGc(gc)|) + B16(0));
    Dec16(b, 20, off);
    Dec16(b, 22, Checksum(EncodeGc(gc)));
  }

  /** The fields of the header, and where the tables stand. */
  ghost predicate BodyStands(b: seq<Byte>, dies: seq<Die>, wide: bool, gc: GcTable)
    requires Encodable(dies, wide, gc)
  {
    && 24 <= |b| && U16(b, 10) == |b| && U16(b, 12) == HEADER_BYTES && U16(b, 14) == Checksum(IpdsTable(dies, wide))
    && U16(b, 20) == (if gc.NoGc? then 0 else DiesEnd(dies, wide)) && U16(b, 22) == Checksum(EncodeGc(gc))
    && HasAt(b, HEADER_BYTES, IpdsTable(dies, wide)) && HasAt(b, DiesEnd(dies, wide), EncodeGc(gc))
  }

  lemma BodyDecodes(b: seq<Byte>, dies: seq<Die>, wide: bool, gc: GcTable)
    requires Encodable(dies, wide, gc) && HasAt(b, 10, Body(dies, wide, gc)) && |b| == DiesEnd(dies, wide) + |EncodeGc(gc)|
    ensures BodyStands(b, dies, wide, gc)
  {
    hide U16, B16, IpdsTable, Checksum, EncodeDies, EncodeGc, GcEntry, HasAt;
    var table, tail, entry := IpdsTable(dies, wide), EncodeGc(gc), GcEntry(dies, wide, gc);
    FiveFields(b, 10, B16(HEADER_BYTES + |table| + |tail|), B16(HEADER_BYTES), B16(Checksum(table)), B16(|table|), B16(0),
               entry + (NO_TABLES + (table + tail)));
    BehindEntry(b, 20, entry, NO_TABLES, table, tail);
    Dec16(b, 10, HEADER_BYTES + |table| + |tail|);
    Dec16(b, 12, HEADER_BYTES);
    Dec16(b, 14, Checksum(table));
    EntryDecodes(b, dies, wide, gc);
  }

  lemma IpdsFields(b: seq<Byte>, dies: seq<Die>, wide: bool)
    requires Encodable(dies, wide, NoGc) && HasAt(b, HEADER_BYTES, IpdsTable(dies, wide)) && DiesEnd(dies, wide) <= |b|
    ensures var i := HEADER_BYTES;
            && U32(b, i) == IPDS_SIGNATURE && U16(b, i + 4) == 4 && U16(b, i + 6) == IPDS_BYTES + |EncodeDies(dies, wide)|
            && U16(b, i + 12) == |dies| && b[i + 78] == (if wide then 1 else 0)
            && HasAt(b, i + 14, Directory(dies, DIES_START, 16, wide)) && HasAt(b, DIES_START, EncodeDies(dies, wide))
  {
    hide U16, U32, B16, B32, EncodeDies, Directory, HasAt;
    var i, records := HEADER_BYTES, EncodeDies(dies, wide);
    var flags: seq<Byte> := [if wide then 1 else 0, 0];
    var directory := Directory(dies, DIES_START, 16, wide);
    var after := directory + (flags + records);
    Parts(b, i, B32(IPDS_SIGNATURE), B16(4) + (B16(IPDS_BYTES + |records|) + (B32(0) + (B16(|dies|) + after))));
    Parts(b, i + 4, B16(4), B16(IPDS_BYTES + |records|) + (B32(0) + (B16(|dies|) + after)));
    Parts(b, i + 6, B16(IPDS_BYTES + |records|), B32(0) + (B16(|dies|) + after));
    Parts(b, i + 8, B32(0), B16(|dies|) + after);
    Parts(b, i + 12, B16(|dies|), after);
    Parts(b, i + 14, directory, flags + records);
    Parts(b, i + 78, flags, records);
    Dec32(b, i, IPDS_SIGNATURE);
    Dec16(b, i + 4, 4);
    Dec16(b, i + 6, IPDS_BYTES + |records|);
    Dec16(b, i + 12, |dies|);
    ByteAt(b, i + 78, flags, 0);
  }

  lemma IpdsDecodes(b: seq<Byte>, dies: seq<Die>, wide: bool)
    requires Encodable(dies, wide, NoGc) && HasAt(b, HEADER_BYTES, IpdsTable(dies, wide)) && DiesEnd(dies, wide) <= |b|
    ensures IpdsValid(b, HEADER_BYTES, Checksum(IpdsTable(dies, wide))) && Wide(b, HEADER_BYTES) == wide
    ensures HEADER_BYTES + U16(b, HEADER_BYTES + 6) == DiesEnd(dies, wide)
    ensures DecodeDies(b, HEADER_BYTES, 0, U16(b, HEADER_BYTES + 12), DiesEnd(dies, wide), wide) == Some(AllRecords(dies))
  {
    hide U16, U32, B16, B32, Checksum, EncodeDies, Directory, DecodeDies, AllRecords;
    IpdsFields(b, dies, wide);
    var i := HEADER_BYTES;
    assert b[i..i + U16(b, i + 6)] == IpdsTable(dies, wide);
    DiesDecode(b, i, 0, DiesEnd(dies, wide), dies, DIES_START, wide);
  }

  lemma NoGcIsSmallest(dies: seq<Die>, wide: bool, gc: GcTable)
    requires Encodable(dies, wide, gc)
    ensures Encodable(dies, wide, NoGc)
  {
  }

  lemma GcTableDecodes(b: seq<Byte>, dies: seq<Die>, wide: bool, gc: GcTable)
    requires Encodable(dies, wide, gc) && HasAt(b, DiesEnd(dies, wide), EncodeGc(gc))
    ensures DecodeGfx(b, if gc.NoGc? then 0 else DiesEnd(dies, wide), Checksum(EncodeGc(gc))) == GfxOf(gc)
  {
    if gc.Gc? {
      GcDecodes(b, DiesEnd(dies, wide), gc);
    }
  }

  /** Decoding an encoded list of dies with or without a GC table, whatever bytes follow the declared
      end: refused exactly if the GC table is one to refuse, and otherwise the fold of the records in order
      and what the words of the GC table mean. */
  lemma RoundTrip(dies: seq<Die>, wide: bool, gc: GcTable, tail: seq<Byte>)
    requires Encodable(dies, wide, gc)
    ensures Decode(Encode(dies, wide, gc) + tail) ==
            if GfxOf(gc).None? then None else Some(Table(Fold(map[], AllRecords(dies), wide), GfxOf(gc).value))
  {
    hide U16, U32, Checksum, Fold, DecodeDies, Encode, IpdsTable, Body, AllRecords, DecodeGfx, GfxOf, EncodeGc;
    var b := Encode(dies, wide, gc);
    HeaderDecodes(dies, wide, gc);
    assert HasAt(b, 10, Body(dies, wide, gc));
    BodyDecodes(b, dies, wide, gc);
    NoGcIsSmallest(dies, wide, gc);
    IpdsDecodes(b, dies, wide);
    GcTableDecodes(b, dies, wide, gc);
    TailIsIgnored(b, tail, []);
    assert b[..|b|] == b;
  }

  /** A later record of a block wins, and records of other instances or unknown blocks change nothing. */
  lemma LastRecordWins(t: map<Block, Row>, rs: seq<Rec>, r: Rec, wide: bool)
    requires Counts(r)
    ensures var blk := BlockOf(r.hwId).value;
            var after := Fold(t, rs + [r], wide);
            && blk in after && after[blk].version == IPVersion(r.major, r.minor, r.revision) && |after[blk].base| == SEGMENTS
            && forall k :: 0 <= k < Used(|r.bases|) ==> after[blk].base[k] == BaseOf(r.bases[k], wide)
  {
    FoldAppend(t, rs, [r], wide);
    assert Fold(Fold(t, rs, wide), [r], wide) == Apply(Fold(t, rs, wide), r, wide);
  }
}
