/** Reading the GPU timestamp frequency from the ATOM firmware through a dword at a time, against direct
    little-endian decoding of the same ROM. Models clock_detail::ROMReader and
    atom_gfx_timestamp_frequency_hz of dext/amdgpu/amdgpu_clock.h. */
module RomReader {
  import opened Words

  /** A ROM that does not change: a byte at every offset. */
  type Image = nat -> Byte

  // ---- Direct decoding ---------------------------------------------------------------------------

  /** n bytes from o on, the least significant first. */
  function Little(image: Image, o: nat, n: nat): nat
    decreases n
  {
    if n == 0 then 0 else (image(o) as int) + 256 * Little(image, o + 1, n - 1)
  }

  function DirectRead(image: Image, limit: nat, o: nat, n: nat): Option<nat> {
    if n == 0 || n > 4 || o > limit || n > limit - o then None else Some(Little(image, o, n))
  }

  /** A table that starts with its own size; Some carries its version. */
  function DirectTable(image: Image, limit: nat, o: nat, required: nat): Option<nat> {
    var size := DirectRead(image, limit, o, 2);
    if o == 0 || size.None? || size.value < required || o > limit || size.value > limit - o then None
    else DirectRead(image, limit, o + 2, 2)
  }

  const VENDOR: seq<Byte> := [32, 55, 54, 49, 50, 57, 53, 53, 50, 48] // " 761295520"

  predicate VendorMatches(image: Image, limit: nat, i: nat)
    requires i <= |VENDOR|
    decreases |VENDOR| - i
  {
    i == |VENDOR| || (DirectRead(image, limit, 0x30 + i, 1) == Some(VENDOR[i]) && VendorMatches(image, limit, i + 1))
  }

  const HEADER_POINTER: nat := 0x48
  const MASTER_POINTER: nat := 0x20
  const GFX_POINTER: nat := 32
  const TSC_REFERENCE: nat := 40

  /** The declared length in bytes: units of 512. */
  function Declared(image: Image): Option<nat> {
    if DirectRead(image, 4, 0, 2) != Some(0xaa55) then None
    else
      var units := DirectRead(image, 4, 2, 1);
      if units == Some(0) || units.None? then None else Some(units.value * 512)
  }

  /** Header to master table to graphics table, each inside the declared length. */
  function DirectGfx(image: Image, limit: nat): Option<nat> {
    var header := DirectRead(image, limit, HEADER_POINTER, 2);
    if header.None? || DirectTable(image, limit, header.value, MASTER_POINTER + 2).None? then None
    else
      var signature := DirectRead(image, limit, header.value + 4, 4);
      if signature != Some(0x4d4f5441) && signature != Some(0x41544f4d) then None
      else
        var master := DirectRead(image, limit, header.value + MASTER_POINTER, 2);
        if master.None? || DirectTable(image, limit, master.value, GFX_POINTER + 2).None? then None
        else DirectRead(image, limit, master.value + GFX_POINTER, 2)
  }

  function DirectReference(image: Image, limit: nat, gfx: nat): Option<nat> {
    var version := DirectTable(image, limit, gfx, TSC_REFERENCE + 4);
    if version.None? then None
    else if version.value % 256 != 3 && !(version.value % 256 == 2 && version.value / 256 == 6) then None
    else
      var reference := DirectRead(image, limit, gfx + TSC_REFERENCE, 4);
      if reference.None? || reference.value == 0 || reference.value == U32_MAX then None else Some(reference.value * 10000)
  }

  /** The frequency in Hz, or None for a ROM that is not understood. */
  function DirectFrequency(image: Image): Option<nat> {
    var limit := Declared(image);
    if limit.None? || !VendorMatches(image, limit.value, 0) then None
    else
      var gfx := DirectGfx(image, limit.value);
      if gfx.None? then None else DirectReference(image, limit.value, gfx.value)
  }

  predicate AgreeBelow(a: Image, b: Image, limit: nat) {
    forall i: nat :: i < limit ==> a(i) == b(i)
  }

  lemma {:induction false} LittleSame(a: Image, b: Image, o: nat, n: nat, limit: nat)
    requires AgreeBelow(a, b, limit) && o + n <= limit
    ensures Little(a, o, n) == Little(b, o, n)
    decreases n
  {
    if n > 0 {
      LittleSame(a, b, o + 1, n - 1, limit);
    }
  }

  lemma DeclaredHolds(a: Image)
    requires Declared(a).Some?
    ensures Declared(a).value >= 512 && Declared(a).value % 4 == 0
    ensures forall b: Image :: AgreeBelow(a, b, 4) ==> Declared(b) == Declared(a)
  {
    forall b: Image | AgreeBelow(a, b, 4)
      ensures Declared(b) == Declared(a)
    {
      LittleSame(a, b, 0, 2, 4);
      LittleSame(a, b, 2, 1, 4);
    }
  }

  lemma SameReads(a: Image, b: Image, limit: nat)
    requires AgreeBelow(a, b, limit)
    ensures forall o: nat, n: nat :: DirectRead(a, limit, o, n) == DirectRead(b, limit, o, n)
  {
    forall o: nat, n: nat
      ensures DirectRead(a, limit, o, n) == DirectRead(b, limit, o, n)
    {
      if o <= limit && n <= limit - o {
        LittleSame(a, b, o, n, limit);
      }
    }
  }

  lemma {:induction false} VendorSame(a: Image, b: Image, limit: nat, i: nat)
    requires i <= |VENDOR| && forall o: nat, n: nat :: DirectRead(a, limit, o, n) == DirectRead(b, limit, o, n)
    ensures VendorMatches(a, limit, i) == VendorMatches(b, limit, i)
    decreases |VENDOR| - i
  {
    hide DirectRead;
    if i < |VENDOR| {
      VendorSame(a, b, limit, i + 1);
    }
  }

  /** Bytes behind the declared length have no influence. */
  lemma OutsideIsIgnored(a: Image, b: Image)
    requires Declared(a).Some? && AgreeBelow(a, b, Declared(a).value)
    ensures DirectFrequency(a) == DirectFrequency(b)
  {
    hide DirectRead;
    var limit := Declared(a).value;
    DeclaredHolds(a);
    SameReads(a, b, limit);
    VendorSame(a, b, limit, 0);
  }

  // ---- The cached reader ---------------------------------------------------------------------------

  function Dword(image: Image, o: nat): nat {
    Little(image, o, 4)
  }

  /** The byte at a lane of a dword. */
  function Lane(value: nat, lane: nat): nat
    requires lane < 4
  {
    (if lane == 0 then value else if lane == 1 then value / 0x100 else if lane == 2 then value / 0x1_0000 else value / 0x100_0000) % 256
  }

  lemma LaneIsByte(image: Image, o: nat, lane: nat)
    requires lane < 4
    ensures Lane(Dword(image, o), lane) == image(o + lane)
  {
    var a, b, c, d := image(o) as int, image(o + 1) as int, image(o + 2) as int, image(o + 3) as int;
    assert Little(image, o + 3, 1) == d;
    assert Little(image, o + 2, 2) == c + 256 * d;
    assert Little(image, o + 1, 3) == b + 256 * (c + 256 * d);
    var v := Dword(image, o);
    assert v == a + 0x100 * b + 0x1_0000 * c + 0x100_0000 * d;
    DivModUnique(v, 0x100, b + 0x100 * c + 0x1_0000 * d, a);
    DivModUnique(v, 0x1_0000, c + 0x100 * d, a + 0x100 * b);
    DivModUnique(v, 0x100_0000, d, a + 0x100 * b + 0x1_0000 * c);
    DivModUnique(b + 0x100 * c + 0x1_0000 * d, 0x100, c + 0x100 * d, b);
    DivModUnique(c + 0x100 * d, 0x100, d, c);
  }

  function Pow256(n: nat): nat {
    if n == 0 then 1 else 256 * Pow256(n - 1)
  }

  /** Adding one more byte on top. */
  lemma {:induction false} LittleAppend(image: Image, o: nat, n: nat)
    ensures Little(image, o, n + 1) == Little(image, o, n) + Pow256(n) * image(o + n)
    decreases n
  {
    if n > 0 {
      LittleAppend(image, o + 1, n - 1);
      assert 256 * (Pow256(n - 1) * image(o + n)) == Pow256(n) * image(o + n);
    }
  }

  class ROMReader {
    const image: Image
    var limit: nat
    var cachedOffset: nat
    var cachedValue: nat
    /** Every offset asked of the callback, in order. */
    ghost var requested: seq<nat>
    /** How often the callback failed. */
    ghost var failures: nat

    /** The cache tells the truth about the ROM. */
    ghost predicate Valid()
      reads this
    {
      cachedOffset != U32_MAX ==> cachedValue == Dword(image, cachedOffset)
    }

    constructor (image: Image)
      ensures Valid() && this.image == image && limit == 4 && requested == [] && failures == 0
    {
      this.image := image;
      limit, cachedOffset, cachedValue, requested, failures := 4, U32_MAX, 0, [], 0;
    }

    ghost predicate AllAligned(bound: nat)
      reads this
    {
      forall k :: 0 <= k < |requested| ==> requested[k] % 4 == 0 && requested[k] + 4 <= bound
    }

    /** The callback: a faithful dword, or a failure that may leave any value behind. */
    method Fetch(aligned: nat) returns (success: bool)
      requires aligned % 4 == 0
      modifies this`cachedValue, this`requested, this`failures
      ensures requested == old(requested) + [aligned]
      ensures success ==> cachedValue == Dword(image, aligned)
      ensures failures == old(failures) + if success then 0 else 1
    {
      requested := requested + [aligned];
      success := *;
      if success {
        cachedValue := Dword(image, aligned);
      } else {
        var garbage: nat :| true;
        cachedValue := garbage;
        failures := failures + 1;
      }
    }

    /** One byte, from the cached dword or a newly fetched one. */
    method LoadByte(at: nat) returns (byte: nat, failed: bool)
      requires Valid() && limit % 4 == 0 && at < limit < U32_MAX
      modifies this`cachedOffset, this`cachedValue, this`requested, this`failures
      ensures (!failed ==> Valid() && byte == image(at)) && (failed <==> failures != old(failures))
      ensures old(AllAligned(limit)) ==> AllAligned(limit)
    {
      hide Dword, Lane;
      var aligned := at / 4 * 4;
      assert aligned + at % 4 == at && aligned % 4 == 0 && aligned + 4 <= limit;
      if cachedOffset != aligned {
        var success := Fetch(aligned);
        if !success {
          return 0, true;
        }
        cachedOffset := aligned;
      }
      LaneIsByte(image, aligned, at % 4);
      return Lane(cachedValue, at % 4), false;
    }

    /** read. When the callback never fails this is direct decoding, and every dword it asks for is aligned
        and inside the limit; when it fails, nothing is read and the cache is no longer to be trusted. */
    method Read(offset: nat, count: nat) returns (ok: bool, out: nat, failed: bool)
      requires Valid() && limit % 4 == 0 && limit < U32_MAX
      modifies this`cachedOffset, this`cachedValue, this`requested, this`failures
      ensures ok ==> !failed && DirectRead(image, limit, offset, count) == Some(out)
      ensures !ok ==> failed || DirectRead(image, limit, offset, count) == None
      ensures (!failed ==> Valid()) && (failed <==> failures != old(failures))
      ensures old(AllAligned(limit)) ==> AllAligned(limit)
    {
      out, failed := 0, false;
      if count == 0 || count > 4 || offset > limit || count > limit - offset {
        return false, 0, false;
      }
      for i := 0 to count
        invariant Valid() && out == Little(image, offset, i) && failures == old(failures)
        invariant old(AllAligned(limit)) ==> AllAligned(limit)
      {
        var byte;
        byte, failed := LoadByte(offset + i);
        if failed {
          return false, out, true;
        }
        LittleAppend(image, offset, i);
        out := out + Pow256(i) * byte;
      }
      ok := true;
    }

    method Table(offset: nat, required: nat) returns (ok: bool, version: nat, failed: bool)
      requires Valid() && limit % 4 == 0 && limit < U32_MAX
      modifies this`cachedOffset, this`cachedValue, this`requested, this`failures
      ensures ok ==> !failed && DirectTable(image, limit, offset, required) == Some(version)
      ensures !ok ==> failed || DirectTable(image, limit, offset, required) == None
      ensures (!failed ==> Valid()) && (failed <==> failures != old(failures))
      ensures old(AllAligned(limit)) ==> AllAligned(limit)
    {
      hide DirectRead;
      ok, version, failed := false, 0, false;
      if offset == 0 {
        return;
      }
      var size;
      ok, size, failed := Read(offset, 2);
      if !ok {
        return;
      }
      if size < required || offset > limit || size > limit - offset {
        return false, 0, false;
      }
      ok, version, failed := Read(offset + 2, 2);
    }
  }

  /** Every byte of the vendor string, one read each. */
  method CheckVendor(rom: ROMReader) returns (ok: bool, failed: bool)
    requires rom.Valid() && rom.limit % 4 == 0 && rom.limit < U32_MAX && rom.AllAligned(rom.limit)
    modifies rom`cachedOffset, rom`cachedValue, rom`requested, rom`failures
    ensures ok ==> !failed && VendorMatches(rom.image, rom.limit, 0)
    ensures !ok ==> failed || !VendorMatches(rom.image, rom.limit, 0)
    ensures (!failed ==> rom.Valid()) && (failed <==> rom.failures != old(rom.failures)) && rom.AllAligned(rom.limit)
  {
    hide DirectRead;
    failed := false;
    for i := 0 to |VENDOR|
      invariant rom.Valid() && rom.AllAligned(rom.limit) && !failed && rom.failures == old(rom.failures)
      invariant VendorMatches(rom.image, rom.limit, 0) == VendorMatches(rom.image, rom.limit, i)
    {
      var byte;
      ok, byte, failed := rom.Read(0x30 + i, 1);
      if !ok || byte != VENDOR[i] {
        return false, failed;
      }
    }
    ok := true;
  }

  /** The pointer chain from the ATOM header to the graphics table. */
  method FindGfx(rom: ROMReader) returns (ok: bool, gfx: nat, failed: bool)
    requires rom.Valid() && rom.limit % 4 == 0 && rom.limit < U32_MAX && rom.AllAligned(rom.limit)
    modifies rom`cachedOffset, rom`cachedValue, rom`requested, rom`failures
    ensures ok ==> !failed && DirectGfx(rom.image, rom.limit) == Some(gfx)
    ensures !ok ==> failed || DirectGfx(rom.image, rom.limit) == None
    ensures (!failed ==> rom.Valid()) && (failed <==> rom.failures != old(rom.failures)) && rom.AllAligned(rom.limit)
  {
    hide DirectRead, DirectTable;
    var header, version, signature, master;
    gfx := 0;
    ok, header, failed := rom.Read(HEADER_POINTER, 2);
    if !ok {
      return;
    }
    ok, version, failed := rom.Table(header, MASTER_POINTER + 2);
    if !ok {
      return;
    }
    ok, signature, failed := rom.Read(header + 4, 4);
    if !ok || (signature != 0x4d4f5441 && signature != 0x41544f4d) {
      return false, 0, failed;
    }
    ok, master, failed := rom.Read(header + MASTER_POINTER, 2);
    if !ok {
      return;
    }
    ok, version, failed := rom.Table(master, GFX_POINTER + 2);
    if !ok {
      return;
    }
    ok, gfx, failed := rom.Read(master + GFX_POINTER, 2);
  }

  method ReadReference(rom: ROMReader, gfx: nat) returns (ok: bool, frequency: nat, failed: bool)
    requires rom.Valid() && rom.limit % 4 == 0 && rom.limit < U32_MAX && rom.AllAligned(rom.limit)
    modifies rom`cachedOffset, rom`cachedValue, rom`requested, rom`failures
    ensures ok ==> !failed && DirectReference(rom.image, rom.limit, gfx) == Some(frequency)
    ensures !ok ==> failed || DirectReference(rom.image, rom.limit, gfx) == None
    ensures rom.AllAligned(rom.limit) && (failed <==> rom.failures != old(rom.failures))
  {
    hide DirectRead, DirectTable;
    frequency := 0;
    var version, reference;
    ok, version, failed := rom.Table(gfx, TSC_REFERENCE + 4);
    if !ok {
      return;
    }
    if version % 256 != 3 && !(version % 256 == 2 && version / 256 == 6) {
      return false, 0, false;
    }
    ok, reference, failed := rom.Read(gfx + TSC_REFERENCE, 4);
    if !ok || reference == 0 || reference == U32_MAX {
      return false, 0, failed;
    }
    frequency := reference * 10000;
  }

  lemma DeclaredIsLarger(image: Image)
    ensures Declared(image).Some? ==> Declared(image).value >= 512
  {
  }

  lemma UnitsAreByte(image: Image)
    ensures DirectRead(image, 4, 2, 1).Some? && DirectRead(image, 4, 2, 1).value < 256
  {
    assert Little(image, 3, 0) == 0;
  }

  /** atom_gfx_timestamp_frequency_hz. With a callback that never fails the result is the one direct
      decoding gives; a failure gives none. Every dword asked for is aligned and lies inside the length
      the ROM declares, or is its very first. */
  method TimestampFrequency(image: Image) returns (ok: bool, frequency: nat, failed: bool, ghost requested: seq<nat>, ghost failures: nat)
    ensures ok ==> !failed && DirectFrequency(image) == Some(frequency)
    ensures !ok ==> failed || DirectFrequency(image) == None
    ensures failed <==> failures > 0
    ensures forall k :: 0 <= k < |requested| ==>
              requested[k] % 4 == 0 && requested[k] + 4 <= (if Declared(image).Some? then Declared(image).value else 4)
  {
    hide DirectRead, DirectReference, DirectGfx;
    var rom := new ROMReader(image);
    frequency := 0;
    var signature, units;
    ok, signature, failed := rom.Read(0, 2);
    requested, failures := rom.requested, rom.failures;
    DeclaredIsLarger(image);
    if !ok || signature != 0xaa55 {
      return false, 0, failed, requested, failures;
    }
    ok, units, failed := rom.Read(2, 1);
    requested, failures := rom.requested, rom.failures;
    if !ok || units == 0 {
      return false, 0, failed, requested, failures;
    }
    UnitsAreByte(image);
    rom.limit := units * 512;
    ok, failed := CheckVendor(rom);
    requested, failures := rom.requested, rom.failures;
    if !ok {
      return;
    }
    var gfx;
    ok, gfx, failed := FindGfx(rom);
    requested, failures := rom.requested, rom.failures;
    if !ok {
      return;
    }
    ok, frequency, failed := ReadReference(rom, gfx);
    requested, failures := rom.requested, rom.failures;
  }
}
