/** The discovery parser with its loops. Models dext/amdgpu/amdgpu_discovery.cpp. */
module Discovery {
  import opened Words
  import opened DiscoveryFormat

  datatype Status = Success | BadArgument | Invalid
  datatype ParseResult = ParseResult(ok: bool, numDies: nat, numIpsTotal: nat)

  class DeviceContext {
    var ip: Table

    constructor (ip: Table)
      ensures this.ip == ip
    {
      this.ip := ip;
    }
  }

  method ComputeChecksum(p: seq<Byte>) returns (sum: nat)
    ensures sum == Checksum(p)
  {
    sum := 0;
    for i := 0 to |p|
      invariant sum == Checksum(p[..i])
    {
      assert p[..i + 1][..i] == p[..i];
      sum := (sum + p[i]) % 0x1_0000;
    }
    assert p[..|p|] == p;
  }

  lemma BaseInside(b: seq<Byte>, pos: nat, k: nat, wide: bool)
    requires pos + RECORD_BYTES <= |b| && pos + RecordSize(b, pos, wide) <= |b| && k < b[pos + 3]
    ensures pos + RECORD_BYTES + k * BaseBytes(wide) + BaseBytes(wide) <= |b|
  {
  }

  lemma LowBits(v: nat)
    ensures v % 0x1_0000_0000 % 0x4000_0000 == v % 0x4000_0000
  {
    var q := v / 0x1_0000_0000;
    var w := v % 0x1_0000_0000;
    assert v == (4 * q + w / 0x4000_0000) * 0x4000_0000 + w % 0x4000_0000;
    DivModUnique(v, 0x4000_0000, 4 * q + w / 0x4000_0000, w % 0x4000_0000);
  }

  /** The bases of one record as the table will hold them: at most eight, high bits dropped. */
  method ReadBases(b: seq<Byte>, pos: nat, wide: bool) returns (bases: seq<nat>)
    requires pos + RECORD_BYTES <= |b| && pos + RecordSize(b, pos, wide) <= |b|
    ensures |bases| == Used(b[pos + 3])
    ensures forall k :: 0 <= k < |bases| ==> bases[k] == BaseOf(BaseAt(b, pos, k, wide), wide)
  {
    hide U64, U32;
    var numBases := if b[pos + 3] > SEGMENTS then SEGMENTS else b[pos + 3];
    bases := [];
    for k := 0 to numBases
      invariant |bases| == k
      invariant forall j :: 0 <= j < k ==> bases[j] == BaseOf(BaseAt(b, pos, j, wide), wide)
    {
      var p := pos + RECORD_BYTES + k * BaseBytes(wide);
      BaseInside(b, pos, k, wide);
      if wide {
        LowBits(U64(b, p));
        bases := bases + [U64(b, p) % 0x1_0000_0000 % 0x4000_0000];
      } else {
        bases := bases + [U32(b, p)];
      }
      assert bases[k] == BaseOf(BaseAt(b, pos, k, wide), wide);
    }
  }

  /** setBase for each segment of the record, then setVersion. */
  method SetRow(row: Row, r: Rec, bases: seq<nat>, wide: bool) returns (n: Row)
    requires |row.base| == SEGMENTS && |bases| == Used(|r.bases|)
    requires forall k :: 0 <= k < |bases| ==> bases[k] == BaseOf(r.bases[k], wide)
    ensures n == NewRow(row, r, wide) && |n.base| == SEGMENTS
  {
    var base := row.base;
    for k := 0 to |bases|
      invariant |base| == SEGMENTS
      invariant forall j :: 0 <= j < SEGMENTS ==> base[j] == if j < k then bases[j] else row.base[j]
    {
      base := base[k := bases[k]];
    }
    n := Row(base, IPVersion(r.major, r.minor, r.revision));
    assert base == NewRow(row, r, wide).base;
  }

  /** Records so far followed by what is still to be decoded. */
  function Join(done: seq<Rec>, rest: Option<seq<Rec>>): Option<seq<Rec>> {
    if rest.None? then None else Some(done + rest.value)
  }

  ghost predicate RowsSound(rows: map<Block, Row>) {
    forall blk :: blk in rows ==> |rows[blk].base| == SEGMENTS
  }

  /** One record: decoded, applied to the rows if it counts. */
  method ParseRecord(d: seq<Byte>, pos: nat, end: nat, wide: bool, rows: map<Block, Row>) returns (ok: bool, n: map<Block, Row>)
    requires end <= |d| && RowsSound(rows)
    ensures ok <==> DecodeRecord(d, pos, end, wide).Some?
    ensures ok ==> n == Apply(rows, DecodeRecord(d, pos, end, wide).value, wide) && RowsSound(n)
  {
    n := rows;
    if pos + RECORD_BYTES > end {
      return false, n;
    }
    if pos + (RECORD_BYTES + d[pos + 3] * BaseBytes(wide)) > end {
      return false, n;
    }
    ghost var r := DecodeRecord(d, pos, end, wide).value;
    var bases := ReadBases(d, pos, wide);
    var blk := BlockOf(U16(d, pos));
    if blk.Some? && d[pos + 2] == 0 {
      var row := if blk.value in rows then rows[blk.value] else UNSET_ROW;
      var stored := Rec(U16(d, pos), d[pos + 2], d[pos + 4], d[pos + 5], d[pos + 6], d[pos + 7],
                        seq(d[pos + 3], k requires 0 <= k < d[pos + 3] => BaseAt(d, pos, k, wide)));
      row := SetRow(row, stored, bases, wide);
      n := rows[blk.value := row];
    }
    ok := true;
  }

  lemma JoinNothing(rest: Option<seq<Rec>>)
    ensures Join([], rest) == rest
  {
    if rest.Some? {
      assert [] + rest.value == rest.value;
    }
  }

  lemma JoinStep(done: seq<Rec>, r: Rec, rest: Option<seq<Rec>>)
    ensures Join(done, Join([r], rest)) == Join(done + [r], rest)
  {
    if rest.Some? {
      assert done + ([r] + rest.value) == done + [r] + rest.value;
    }
  }

  /** The inner loop: one die's records. */
  method ParseRecords(d: seq<Byte>, start: nat, count: nat, end: nat, wide: bool, rows: map<Block, Row>)
    returns (ok: bool, n: map<Block, Row>)
    requires end <= |d| && RowsSound(rows)
    ensures ok <==> DecodeRecords(d, start, count, end, wide).Some?
    ensures ok ==> n == Fold(rows, DecodeRecords(d, start, count, end, wide).value, wide) && RowsSound(n)
  {
    n := rows;
    var pos: nat := start;
    ghost var done: seq<Rec> := [];
    JoinNothing(DecodeRecords(d, start, count, end, wide));
    for i := 0 to count
      invariant RowsSound(n) && n == Fold(rows, done, wide)
      invariant DecodeRecords(d, start, count, end, wide) == Join(done, DecodeRecords(d, pos, count - i, end, wide))
    {
      ghost var was := n;
      ok, n := ParseRecord(d, pos, end, wide, n);
      if !ok {
        return;
      }
      ghost var r := DecodeRecord(d, pos, end, wide).value;
      FoldAppend(rows, done, [r], wide);
      assert Fold(was, [r], wide) == Apply(was, r, wide);
      JoinStep(done, r, DecodeRecords(d, pos + RecordSize(d, pos, wide), count - i - 1, end, wide));
      done := done + [r];
      pos := pos + RecordSize(d, pos, wide);
    }
    assert done + [] == done;
    ok := true;
  }

  lemma JoinMany(done: seq<Rec>, more: seq<Rec>, rest: Option<seq<Rec>>)
    ensures Join(done, Join(more, rest)) == Join(done + more, rest)
  {
    if rest.Some? {
      assert done + (more + rest.value) == done + more + rest.value;
    }
  }

  lemma NothingFolded(wide: bool)
    ensures Fold(map[], [], wide) == map[] && RowsSound(map[])
  {
  }

  /** What is left after one more die was taken over. */
  lemma DiesStep(d: seq<Byte>, ipds: nat, k: nat, count: nat, end: nat, wide: bool, done: seq<Rec>)
    requires ipds + IPDS_BYTES <= end <= |d| && k < count <= 16 && DecodeDie(d, ipds, k, end, wide).Some?
    ensures Join(done, DecodeDies(d, ipds, k, count, end, wide))
            == Join(done + DecodeDie(d, ipds, k, end, wide).value, DecodeDies(d, ipds, k + 1, count, end, wide))
  {
    hide DecodeDie;
    JoinMany(done, DecodeDie(d, ipds, k, end, wide).value, DecodeDies(d, ipds, k + 1, count, end, wide));
  }

  lemma {:induction false} RecordCount(b: seq<Byte>, pos: nat, n: nat, end: nat, wide: bool)
    requires end <= |b|
    ensures DecodeRecords(b, pos, n, end, wide).Some? ==> |DecodeRecords(b, pos, n, end, wide).value| == n
    decreases n
  {
    if n > 0 && DecodeRecord(b, pos, end, wide).Some? {
      RecordCount(b, pos + RecordSize(b, pos, wide), n - 1, end, wide);
    }
  }

  /** The outer loop over the die directory. */
  method ParseDies(d: seq<Byte>, ipds: nat, count: nat, end: nat, wide: bool) returns (ok: bool, n: map<Block, Row>, total: nat)
    requires ipds + IPDS_BYTES <= end <= |d| && count <= 16
    ensures ok <==> DecodeDies(d, ipds, 0, count, end, wide).Some?
    ensures ok ==> n == Fold(map[], DecodeDies(d, ipds, 0, count, end, wide).value, wide) && total == |DecodeDies(d, ipds, 0, count, end, wide).value|
  {
    NothingFolded(wide);
    hide Fold, U16, DecodeRecords, RowsSound;
    n, total := map[], 0;
    ghost var done: seq<Rec> := [];
    JoinNothing(DecodeDies(d, ipds, 0, count, end, wide));
    for k := 0 to count
      invariant RowsSound(n) && n == Fold(map[], done, wide) && total == |done|
      invariant DecodeDies(d, ipds, 0, count, end, wide) == Join(done, DecodeDies(d, ipds, k, count, end, wide))
    {
      var off := U16(d, ipds + 14 + k * 4 + 2);
      if off < ipds + IPDS_BYTES || off + DIE_BYTES > end {
        return false, n, total;
      }
      if U16(d, off) != U16(d, ipds + 14 + k * 4) {
        return false, n, total;
      }
      ok, n := ParseRecords(d, off + DIE_BYTES, U16(d, off + 2), end, wide, n);
      if !ok {
        return;
      }
      ghost var more := DecodeDie(d, ipds, k, end, wide).value;
      FoldAppend(map[], done, more, wide);
      DiesStep(d, ipds, k, count, end, wide, done);
      RecordCount(d, off + DIE_BYTES, U16(d, off + 2), end, wide);
      total := total + U16(d, off + 2);
      done := done + more;
    }
    assert done + [] == done;
    ok := true;
  }

  /** The part behind the fixed header. */
  method ParseDeclared(d: seq<Byte>) returns (ok: bool, table: Table, numDies: nat, total: nat)
    requires |d| >= HEADER_BYTES
    ensures ok <==> DecodeDeclared(d).Some?
    ensures ok ==> table == DecodeDeclared(d).value
  {
    hide DecodeDies, Fold, Checksum, DecodeGfx, U16, U32;
    table, numDies, total := Table(map[], NoGfx), 0, 0;
    var sum := ComputeChecksum(d[CHECKSUM_START..]);
    if sum != U16(d, 8) {
      return false, table, numDies, total;
    }
    var ipds := U16(d, 12);
    if ipds < HEADER_BYTES || ipds + IPDS_BYTES > |d| {
      return false, table, numDies, total;
    }
    var tableEnd := ipds + U16(d, ipds + 6);
    if U32(d, ipds) != IPDS_SIGNATURE || U16(d, ipds + 4) < 1 || U16(d, ipds + 4) > 4 || U16(d, ipds + 6) < IPDS_BYTES
       || tableEnd > |d| || U16(d, ipds + 12) == 0 || U16(d, ipds + 12) > 16 {
      return false, table, numDies, total;
    }
    sum := ComputeChecksum(d[ipds..tableEnd]);
    if sum != U16(d, 14) {
      return false, table, numDies, total;
    }
    var wide := U16(d, ipds + 4) == 4 && d[ipds + 78] % 2 == 1;
    numDies := U16(d, ipds + 12);
    var rows;
    ok, rows, total := ParseDies(d, ipds, numDies, tableEnd, wide);
    if !ok {
      return;
    }
    var gfx := DecodeGfx(d, U16(d, 20), U16(d, 22));
    if gfx.None? {
      return false, table, numDies, total;
    }
    table := Table(rows, gfx.value);
  }

  /** discovery_parse: all or nothing. The device's table becomes exactly what the binary decodes to, or
      stays as it was; nothing behind the declared size is looked at. */
  method DiscoveryParse(binary: seq<Byte>, dev: DeviceContext) returns (status: Status, result: ParseResult)
    modifies dev
    ensures status == Success <==> Decode(binary).Some?
    ensures dev.ip == if Decode(binary).Some? then Decode(binary).value else old(dev.ip)
    ensures result.ok <==> status == Success
  {
    hide DecodeDeclared;
    result := ParseResult(false, 0, 0);
    if |binary| < HEADER_BYTES {
      return BadArgument, result;
    }
    if U32(binary, 0) != SIGNATURE {
      return Invalid, result;
    }
    if U16(binary, 4) != 1 || U16(binary, 10) < HEADER_BYTES || U16(binary, 10) > |binary| {
      return Invalid, result;
    }
    var declaredSize := U16(binary, 10);
    // Every later read goes through this view of the declared bytes.
    var ok, table, numDies, total := ParseDeclared(binary[..declaredSize]);
    if !ok {
      return Invalid, result;
    }
    dev.ip := table;
    return Success, ParseResult(true, numDies, total);
  }
}
