/** Scratch memory for AQL queues: how much to ask for, how to ask for less, and how the answer is
    written into the queue metadata. Models dext/amdgpu/amdgpu_aql_resources.h, the scratch part of
    dext/amdgpu/amdgpu_arch_capabilities.h and the reduction loop of dext/amdgpu/amdgpu_aql.cpp. */
module ScratchSizing {
  import opened Words

  datatype IPVersion = IPVersion(major: nat, minor: nat, rev: nat)
  datatype Layout = Gfx9 | Gfx10 | Gfx11 | Gfx12
  /** Each limit is `1 << bits` of the table's bit count. */
  datatype Capability = Capability(waveSizeUnit: nat, wavesLimit: nat, waveSizeLimit: nat,
                                   addressLimit: nat, recordLimit: nat, wavesPerEngine: bool, layout: Layout)

  const MAX_PRIVATE_BYTES: nat := 262128
  const ADDRESS_LIMIT: nat := 0x1_0000_0000_0000 // 1 << 48
  const WAVE_STEP: nat := 32 // kAQLScratchMinimumWavesPerEngine

  function Architecture(ip: IPVersion): Option<Capability> {
    match ip.major
    case 9 => Some(Capability(1024, 0x1000, 0x2000, ADDRESS_LIMIT, U32_MAX + 1, false, Gfx9))
    case 10 => Some(Capability(1024, 0x1000, 0x2000, ADDRESS_LIMIT, U32_MAX + 1, false, Gfx10))
    case 11 => Some(Capability(256, 0x1000, 0x8000, ADDRESS_LIMIT, U32_MAX + 1, true, Gfx11))
    case 12 => Some(Capability(256, 0x1000, 0x4_0000, ADDRESS_LIMIT, U32_MAX + 1, true, Gfx12))
    case _ => None
  }

  predicate LayoutSupported(ip: IPVersion) {
    ip == IPVersion(12, 0, 1)
  }

  datatype Geometry = Geometry(laneBytes: nat, waves: nat, bytes: nat)

  /** Scratch for every wave slot of every engine at the given lane size. */
  function Bytes(laneBytes: nat, waves: nat, engines: nat): nat {
    laneBytes * 64 * waves * engines
  }

  /** Wave slots of one engine when every compute unit is full. */
  function Slots(cuCount: nat, engines: nat, wavesPerCU: nat): nat
    requires engines > 0
  {
    (cuCount + engines - 1) / engines * wavesPerCU
  }

  /** aql_scratch_geometry. */
  function ScratchGeometry(ip: IPVersion, laneBytes: nat, cuCount: nat, engines: nat, wavesPerCU: nat): Option<Geometry> {
    var capability := Architecture(ip);
    if capability.None? || !LayoutSupported(ip) || laneBytes == 0 || laneBytes > MAX_PRIVATE_BYTES || cuCount == 0
       || engines == 0 || engines > 4 || cuCount > 512 || wavesPerCU == 0 || wavesPerCU > 64 then None
    else
      var aligned := RoundUp(laneBytes, 16);
      if aligned > MAX_PRIVATE_BYTES || aligned * 64 / capability.value.waveSizeUnit >= capability.value.waveSizeLimit then None
      else
        var waves := RoundUp(Slots(cuCount, engines, wavesPerCU), WAVE_STEP);
        if waves >= capability.value.wavesLimit then None
        else Some(Geometry(aligned, waves, Bytes(aligned, waves, engines)))
  }

  /** What the accepted sizes mean: lanes rounded up to 16 bytes, and a slot for every wave that all
      compute units together can hold, in whole steps that fit the register fields. */
  predicate Sized(g: Geometry, laneBytes: nat, cuCount: nat, engines: nat, wavesPerCU: nat) {
    && laneBytes <= g.laneBytes < laneBytes + 16 && g.laneBytes % 16 == 0 && g.laneBytes <= MAX_PRIVATE_BYTES
    && 0 < g.waves < 0x1000 && g.waves % WAVE_STEP == 0 && 0 < engines <= 4
    && g.waves * engines >= cuCount * wavesPerCU
    && g.bytes == Bytes(g.laneBytes, g.waves, engines)
  }

  lemma PositiveShare(share: nat, engines: nat)
    requires share * engines > 0
    ensures share > 0
  {
  }

  lemma PositiveProduct(x: nat, y: nat)
    requires x > 0 && y > 0
    ensures x * y > 0
  {
    MulMonotone(1, x, y);
  }

  lemma ShareCovers(cuCount: nat, engines: nat, share: nat, wavesPerCU: nat, waves: nat)
    requires 0 < engines && 0 < cuCount && 0 < wavesPerCU && share == (cuCount + engines - 1) / engines && waves >= share * wavesPerCU
    ensures waves * engines >= cuCount * wavesPerCU && waves > 0
  {
    RoundUpIsLeastMultiple(cuCount, engines);
    assert share * engines == RoundUp(cuCount, engines) >= cuCount;
    MulMonotone(cuCount, share * engines, wavesPerCU);
    SwapFactors(share, engines, wavesPerCU);
    MulMonotone(share * wavesPerCU, waves, engines);
    PositiveShare(share, engines);
    PositiveProduct(share, wavesPerCU);
  }

  lemma GeometryIsSized(ip: IPVersion, laneBytes: nat, cuCount: nat, engines: nat, wavesPerCU: nat)
    ensures var g := ScratchGeometry(ip, laneBytes, cuCount, engines, wavesPerCU);
            g.Some? ==> Sized(g.value, laneBytes, cuCount, engines, wavesPerCU)
    ensures ScratchGeometry(ip, laneBytes, cuCount, engines, wavesPerCU).Some? <==>
            && LayoutSupported(ip) && 0 < laneBytes <= MAX_PRIVATE_BYTES && 0 < cuCount <= 512 && 0 < engines <= 4
            && 0 < wavesPerCU <= 64 && RoundUp(Slots(cuCount, engines, wavesPerCU), WAVE_STEP) < 0x1000
  {
    RoundUpIsLeastMultiple(laneBytes, 16);
    assert MAX_PRIVATE_BYTES % 16 == 0;
    if 0 < engines {
      var share := (cuCount + engines - 1) / engines;
      RoundUpIsLeastMultiple(share * wavesPerCU, WAVE_STEP);
      if 0 < cuCount && 0 < wavesPerCU {
        ShareCovers(cuCount, engines, share, wavesPerCU, RoundUp(share * wavesPerCU, WAVE_STEP));
      }
    }
  }

  // ---- Asking for less --------------------------------------------------------------

  /** A size the reduction may ask for. */
  predicate Candidate(g: Geometry, waves: nat) {
    WAVE_STEP <= waves <= g.waves && waves % WAVE_STEP == 0
  }

  /** Any size that fits 32 bits and the allocator grants. The sizes asked for differ, so a fixed
      answer per size loses no behaviour of the allocator. */
  predicate Granted(g: Geometry, engines: nat, alloc: nat -> Option<nat>, waves: nat) {
    Bytes(g.laneBytes, waves, engines) <= U32_MAX && alloc(Bytes(g.laneBytes, waves, engines)).Some?
  }

  lemma NextStep(g: Geometry, waves: nat)
    requires waves % WAVE_STEP == 0 && waves >= WAVE_STEP
    ensures forall w: nat :: Candidate(g, w) && w > waves - WAVE_STEP ==> w >= waves
  {
    forall w: nat | Candidate(g, w) && w > waves - WAVE_STEP
      ensures w >= waves
    {
      var k, n := w / WAVE_STEP, waves / WAVE_STEP;
      assert w == k * WAVE_STEP && waves == n * WAVE_STEP;
    }
  }

  /** The loop of aql_queue_allocate_scratch: full occupancy first, then one step less each time;
      the first grant is the largest possible, and nothing is granted only if no step is. */
  method Reduce(g: Geometry, engines: nat, alloc: nat -> Option<nat>) returns (waves: nat, base: Option<nat>)
    requires g.waves % WAVE_STEP == 0
    ensures base.Some? ==>
      && Candidate(g, waves) && Granted(g, engines, alloc, waves) && base == alloc(Bytes(g.laneBytes, waves, engines))
      && forall w: nat :: Candidate(g, w) && Granted(g, engines, alloc, w) ==> w <= waves
    ensures base.None? ==> forall w: nat :: Candidate(g, w) ==> !Granted(g, engines, alloc, w)
  {
    waves, base := g.waves, None;
    while waves >= WAVE_STEP
      invariant waves % WAVE_STEP == 0 && waves <= g.waves && base.None?
      invariant forall w: nat :: Candidate(g, w) && w > waves ==> !Granted(g, engines, alloc, w)
    {
      var bytes := Bytes(g.laneBytes, waves, engines);
      if bytes <= U32_MAX {
        base := alloc(bytes);
        if base.Some? {
          return;
        }
      }
      NextStep(g, waves);
      waves := waves - WAVE_STEP;
    }
  }

  /** Whatever was accepted, the last step asks for less than 2 GiB, so it is never skipped for
      its size: an allocator with that much free always ends the loop with a grant. */
  lemma SmallestCandidateFits(g: Geometry, laneBytes: nat, cuCount: nat, engines: nat, wavesPerCU: nat)
    requires Sized(g, laneBytes, cuCount, engines, wavesPerCU)
    ensures Candidate(g, WAVE_STEP) && Bytes(g.laneBytes, WAVE_STEP, engines) < 0x8000_0000
  {
    assert g.waves >= WAVE_STEP;
    NonNegative(MAX_PRIVATE_BYTES - g.laneBytes, engines);
    assert (MAX_PRIVATE_BYTES - g.laneBytes) * engines == MAX_PRIVATE_BYTES * engines - g.laneBytes * engines;
    assert Bytes(g.laneBytes, WAVE_STEP, engines) == g.laneBytes * engines * 2048;
  }

  // ---- The metadata words -----------------------------------------------------------

  datatype Metadata = Metadata(srd0: nat, srd1: nat, srd2: nat, srd3: nat, location: nat, laneBytes: nat, tmpring: nat)

  /** aql_scratch_metadata. The fields packed into one word do not overlap, so `|` is written `+`. */
  function ScratchMetadata(ip: IPVersion, base: nat, bytes: nat, laneBytes: nat, engines: nat, waves: nat): Option<Metadata> {
    var capability := Architecture(ip);
    if capability.None? || !LayoutSupported(ip) || !capability.value.layout.Gfx12? || !capability.value.wavesPerEngine then None
    else
      var c := capability.value;
      var waveBytes := laneBytes * 64;
      var waveSize := waveBytes / c.waveSizeUnit;
      if || base == 0 || base % 16384 != 0 || base >= c.addressLimit || bytes == 0 || bytes >= c.recordLimit
         || bytes > c.addressLimit - base || laneBytes == 0 || laneBytes % 16 != 0 || waveBytes % c.waveSizeUnit != 0
         || waveSize >= c.waveSizeLimit || laneBytes > MAX_PRIVATE_BYTES || engines == 0 || engines > 4
         || waves < WAVE_STEP || waves >= c.wavesLimit || laneBytes * 64 * engines * waves > bytes
      then None
      else Some(Metadata(base % 0x1_0000_0000, base / 0x1_0000_0000 + 0x4000_0000, bytes,
                         4 + 5 * 8 + 6 * 64 + 7 * 512 + 0x14 * 0x1000 + 0x80_0000 + 2 * 0x1000_0000,
                         base, laneBytes, waves + waveSize * c.wavesLimit))
  }

  /** A range the allocator may hand out: aligned, not null, and addressable. */
  predicate Addressable(base: nat, bytes: nat) {
    base > 0 && base % 16384 == 0 && base + bytes <= ADDRESS_LIMIT
  }

  lemma LanesFillUnits(laneBytes: nat)
    ensures laneBytes % 16 == 0 ==> laneBytes * 64 % 256 == 0
  {
    ModOfMultiple(laneBytes / 16 * 4, 256);
  }

  /** The encoder multiplies in another order, and lanes of 16 bytes fill whole wave units. */
  lemma BytesFacts(laneBytes: nat, waves: nat, engines: nat)
    ensures laneBytes * 64 * engines * waves == Bytes(laneBytes, waves, engines)
    ensures laneBytes > 0 && waves > 0 && engines > 0 ==> Bytes(laneBytes, waves, engines) > 0
    ensures laneBytes % 16 == 0 ==> laneBytes * 64 % 256 == 0
  {
    SwapFactors(laneBytes * 64, engines, waves);
    LanesFillUnits(laneBytes);
    if laneBytes > 0 && waves > 0 && engines > 0 {
      PositiveProduct(laneBytes * 64, waves);
      PositiveProduct(laneBytes * 64 * waves, engines);
    }
  }

  /** The first size granted is never turned down: the encoder accepts every step of every accepted
      geometry, so a granted range is not handed back. */
  lemma EveryCandidateIsEncoded(ip: IPVersion, g: Geometry, laneBytes: nat, cuCount: nat, engines: nat, wavesPerCU: nat, waves: nat, base: nat)
    requires ScratchGeometry(ip, laneBytes, cuCount, engines, wavesPerCU) == Some(g)
    requires Candidate(g, waves) && Bytes(g.laneBytes, waves, engines) <= U32_MAX && Addressable(base, Bytes(g.laneBytes, waves, engines))
    ensures ScratchMetadata(ip, base, Bytes(g.laneBytes, waves, engines), g.laneBytes, engines, waves).Some?
  {
    GeometryIsSized(ip, laneBytes, cuCount, engines, wavesPerCU);
    BytesFacts(g.laneBytes, waves, engines);
  }

  /** Reading the words back as the hardware does. */
  function TmpringWaves(word: nat): nat { word % 0x1000 }
  function TmpringWaveSize(word: nat): nat { word / 0x1000 % 0x4_0000 }
  function SrdBase(m: Metadata): nat { m.srd0 + m.srd1 % 0x1_0000 * 0x1_0000_0000 }

  lemma TmpringDecodes(waves: nat, waveSize: nat)
    requires waves < 0x1000 && waveSize < 0x4_0000
    ensures TmpringWaves(waves + waveSize * 0x1000) == waves && TmpringWaveSize(waves + waveSize * 0x1000) == waveSize
  {
    DivModUnique(waves + waveSize * 0x1000, 0x1000, waveSize, waves);
  }

  lemma BaseDecodes(base: nat)
    requires base < ADDRESS_LIMIT
    ensures base % 0x1_0000_0000 + (base / 0x1_0000_0000 + 0x4000_0000) % 0x1_0000 * 0x1_0000_0000 == base
  {
  }

  /** Every word fits 32 bits, decodes to what was packed, and what the hardware will then use is
      exactly the lane size times the waves of all engines, inside the range granted. */
  lemma EncodedWordsDecode(ip: IPVersion, base: nat, bytes: nat, laneBytes: nat, engines: nat, waves: nat)
    requires ScratchMetadata(ip, base, bytes, laneBytes, engines, waves).Some?
    ensures var m := ScratchMetadata(ip, base, bytes, laneBytes, engines, waves).value;
            && m.srd0 <= U32_MAX && m.srd1 <= U32_MAX && m.srd2 <= U32_MAX && m.srd3 <= U32_MAX && m.tmpring <= U32_MAX
            && TmpringWaves(m.tmpring) == waves && TmpringWaveSize(m.tmpring) * 256 == laneBytes * 64
            && SrdBase(m) == base && m.srd2 == bytes && m.location == base && m.laneBytes == laneBytes
            && TmpringWaveSize(m.tmpring) * 256 * TmpringWaves(m.tmpring) * engines <= bytes
  {
    var m := ScratchMetadata(ip, base, bytes, laneBytes, engines, waves).value;
    TmpringDecodes(waves, laneBytes * 64 / 256);
    BaseDecodes(base);
    BytesFacts(laneBytes, waves, engines);
  }
}
