/** Opening, kicking, servicing and closing persistent AQL queues, with every upload, map, unmap and
    signal access allowed to fail and the CP acting in between. Models dext/amdgpu/amdgpu_aql.cpp and
    the queue selectors of dext/MacAMDGPU.cpp. */
module AqlQueues {
  import opened Words
  import opened ScratchSizing
  import opened AqlState

  datatype Status = Success | NotReady | BadArgument | Busy | NoMemory | NoResources | IOError | Timeout

  datatype PacketType = Invalid | KernelDispatch | Other
  datatype Packet = Packet(kind: PacketType, privateSize: nat)

  predicate RequestsScratch(p: Packet) {
    p.kind.KernelDispatch? && p.privateSize != 0
  }

  /** The k-th reserved packet after the read index; the ring has `packets` slots, a power of two. */
  function RingPacket(ring: seq<Packet>, packets: nat, read: nat, k: nat): Packet
    requires 0 < packets <= |ring|
  {
    ring[(read + k) % packets]
  }

  /** Packet k is the first scratch request, and every packet up to it is published. */
  ghost predicate FirstRequest(ring: seq<Packet>, packets: nat, read: nat, available: nat, k: nat)
    requires 0 < packets <= |ring|
  {
    && k < available && RequestsScratch(RingPacket(ring, packets, read, k))
    && forall j: nat :: j < k ==> !RingPacket(ring, packets, read, j).kind.Invalid? && !RequestsScratch(RingPacket(ring, packets, read, j))
  }

  /** How many reserved packets the ring can hold. */
  function Available(packets: nat, read: nat, write: nat): nat
    requires read <= write
  {
    if write - read < packets then write - read else packets
  }

  /** The first published request in the ring asks for `required` bytes a lane. */
  ghost predicate Wanted(ring: seq<Packet>, packets: nat, read: nat, write: nat, required: nat)
    requires 0 < packets <= |ring| && read <= write
  {
    exists k: nat :: FirstRequest(ring, packets, read, Available(packets, read, write), k) && required == RingPacket(ring, packets, read, k).privateSize
  }

  /** The scan of aql_queue_service: it stops at the first unpublished packet, and never looks past
      the ring's capacity even when producers reserved more. */
  method Scan(ring: seq<Packet>, packets: nat, read: nat, write: nat) returns (required: nat)
    requires 0 < packets <= |ring| && read < write
    ensures required != 0 ==> Wanted(ring, packets, read, write, required)
    ensures required == 0 ==> forall k: nat :: !FirstRequest(ring, packets, read, Available(packets, read, write), k)
  {
    var available := Available(packets, read, write);
    var cursor := read;
    required := 0;
    while cursor - read < available
      invariant read <= cursor <= read + available && required == 0
      invariant forall j: nat :: j < cursor - read ==> !RingPacket(ring, packets, read, j).kind.Invalid? && !RequestsScratch(RingPacket(ring, packets, read, j))
    {
      var packet := ring[cursor % packets];
      assert packet == RingPacket(ring, packets, read, cursor - read);
      if packet.kind.Invalid? {
        break;
      }
      if !packet.kind.KernelDispatch? || packet.privateSize == 0 {
        cursor := cursor + 1;
        continue;
      }
      required := packet.privateSize;
      assert FirstRequest(ring, packets, read, available, cursor - read);
      break;
    }
  }

  /** The allocator answers each size with an address or not at all; what it grants is grantable. */
  function Allocator(answer: nat -> Option<nat>, live: set<Block>): nat -> Option<nat> {
    (bytes: nat) => if answer(bytes).Some? && Grantable(Block(answer(bytes).value, bytes), live) then answer(bytes) else None
  }

  lemma AllocatorGrants(answer: nat -> Option<nat>, live: set<Block>, bytes: nat)
    ensures var r := Allocator(answer, live)(bytes);
            r.Some? ==> Grantable(Block(r.value, bytes), live)
  {
    hide Grantable;
  }

  lemma GrantedFits(g: Geometry, engines: nat, alloc: nat -> Option<nat>, waves: nat, b: Block, live: set<Block>)
    requires Granted(g, engines, alloc, waves) && b.size == Bytes(g.laneBytes, waves, engines) && Grantable(b, live)
    ensures b.size <= U32_MAX && Addressable(b.addr, b.size)
  {
  }

  /** The block has a candidate size for `laneBytes` a lane, and the encoder accepts it. */
  ghost predicate Sufficient(ip: IPVersion, laneBytes: nat, cuCount: nat, engines: nat, wavesPerCU: nat, b: Block) {
    && ScratchGeometry(ip, laneBytes, cuCount, engines, wavesPerCU).Some?
    && var g := ScratchGeometry(ip, laneBytes, cuCount, engines, wavesPerCU).value;
    exists w: nat :: && Candidate(g, w) && b.size == Bytes(g.laneBytes, w, engines)
                     && ScratchMetadata(ip, b.addr, b.size, g.laneBytes, engines, w).Some?
  }

  /** The sizing half of aql_queue_allocate_scratch. A size the allocator granted is never turned down
      by the encoder, so no granted block is lost, and it fails only if the geometry is refused or
      no candidate size is granted. */
  method ChooseBlock(ip: IPVersion, laneBytes: nat, cuCount: nat, engines: nat, wavesPerCU: nat, live: set<Block>, answer: nat -> Option<nat>)
    returns (ok: bool, b: Block)
    ensures ok ==> Grantable(b, live) && Sufficient(ip, laneBytes, cuCount, engines, wavesPerCU, b)
    ensures !ok && ScratchGeometry(ip, laneBytes, cuCount, engines, wavesPerCU).Some? ==>
      var g := ScratchGeometry(ip, laneBytes, cuCount, engines, wavesPerCU).value;
      forall w: nat :: Candidate(g, w) ==> !Granted(g, engines, Allocator(answer, live), w)
  {
    hide Allocator, ScratchGeometry, ScratchMetadata, Grantable, Bytes, Granted, Candidate;
    b := Block(0, 0);
    var g := ScratchGeometry(ip, laneBytes, cuCount, engines, wavesPerCU);
    if g.None? {
      return false, b;
    }
    GeometryIsSized(ip, laneBytes, cuCount, engines, wavesPerCU);
    var waves, base := Reduce(g.value, engines, Allocator(answer, live));
    if base.None? {
      return false, b;
    }
    b := Block(base.value, Bytes(g.value.laneBytes, waves, engines));
    AllocatorGrants(answer, live, b.size);
    GrantedFits(g.value, engines, Allocator(answer, live), waves, b, live);
    EveryCandidateIsEncoded(ip, g.value, laneBytes, cuCount, engines, wavesPerCU, waves, base.value);
    ok := true;
  }

  class AqlQueues {
    const ip: IPVersion
    const cuCount: nat
    const engines: nat
    const wavesPerCU: nat
    var s: Aql
    var blocked: bool // shutdownBlocked
    var lastHandle: nat // nextAQLHandle
    ghost var trace: seq<Aql>

    ghost predicate Recorded()
      reads this
    {
      && trace != [] && trace[|trace| - 1] == s
      && (forall k :: 0 <= k < |trace| ==> Safe(trace[k]))
      && (forall k :: 0 <= k < |trace| - 1 ==> Orderly(trace[k], trace[k + 1]))
    }

    ghost predicate Valid()
      reads this
    {
      Recorded() && Inv(s) && Settled(s) && UnownedUnmapped(s) && (!blocked ==> NothingRetained(s))
    }

    constructor (ip: IPVersion, cuCount: nat, engines: nat, wavesPerCU: nat)
      ensures Valid() && s == Aql(seq(SLOTS, _ => EMPTY), seq(SLOTS, _ => UNMAPPED), {}, {}, {}) && !blocked && lastHandle == 0
    {
      this.ip, this.cuCount, this.engines, this.wavesPerCU := ip, cuCount, engines, wavesPerCU;
      s := Aql(seq(SLOTS, _ => EMPTY), seq(SLOTS, _ => UNMAPPED), {}, {}, {});
      blocked, lastHandle := false, 0;
      trace := [s];
    }

    method Become(next: Aql)
      requires Recorded() && Safe(next) && Orderly(s, next)
      modifies this`s, this`trace
      ensures Recorded() && s == next && old(trace) < trace
    {
      hide Safe, Orderly;
      s := next;
      trace := trace + [s];
    }

    /** Enough scratch for a dispatch that asks for `laneBytes` a lane on this device. */
    ghost predicate Serves(laneBytes: nat, b: Block) {
      Sufficient(ip, laneBytes, cuCount, engines, wavesPerCU, b)
    }

    /** The new block answers the first request in the ring. */
    ghost predicate ServesRing(b: Block, ring: seq<Packet>, packets: nat, read: nat, write: nat)
      requires 0 < packets <= |ring| && read <= write
    {
      exists required: nat :: Wanted(ring, packets, read, write, required) && Serves(required, b)
    }

    method Replace(i: nat, b: Block)
      requires Recorded() && Inv(s) && i < SLOTS && s.queues[i].owner != 0 && ScratchIdle(s, i) && Grantable(b, s.scratchLive)
      modifies this`s, this`trace
      ensures Recorded() && Inv(s) && old(trace) < trace && s == ScratchReplaced(old(s), i, b)
    {
      hide Safe, Orderly, SlotSound, NoSharing, NoLeaks, LiveApart, ScratchReplaced;
      ReplacementIsOrderly(s, i, b);
      ReplaceScratchKeepsInv(s, i, b);
      InvIsSafe(ScratchReplaced(s, i, b));
      var old_ := Old(s, i);
      Become(s.(scratchLive := s.scratchLive + {b}));
      Become(s.(scratchLive := s.scratchLive - old_));
      Become(WithQueue(s, i, s.queues[i].(scratch := Some(b))));
    }

    /** aql_queue_allocate_scratch. */
    method AllocateScratch(i: nat, laneBytes: nat) returns (ok: bool, b: Block)
      requires Recorded() && Inv(s) && i < SLOTS && s.queues[i].owner != 0 && ScratchIdle(s, i)
      modifies this`s, this`trace
      ensures Recorded() && Inv(s) && old(trace) <= trace
      ensures if ok then Grantable(b, old(s).scratchLive) && s == ScratchReplaced(old(s), i, b) else s == old(s)
      ensures ok ==> Serves(laneBytes, b)
    {
      hide Safe, Orderly, SlotSound, Grantable, ScratchReplaced, Sufficient;
      var answer: nat -> Option<nat> := *;
      ok, b := ChooseBlock(ip, laneBytes, cuCount, engines, wavesPerCU, s.scratchLive, answer);
      if ok {
        Replace(i, b);
      }
    }

    /** Gives back the scratch and the storage of a slot the CP does not own. */
    method ReturnBlocks(i: nat)
      requires Recorded() && Inv(s) && i < SLOTS && s.queues[i].owner != 0 && !s.cp[i].owns
      modifies this`s, this`trace
      ensures Recorded() && Inv(s) && old(trace) <= trace && s == Emptied(old(s), i)
    {
      hide Safe, Orderly, SlotSound, NoSharing, NoLeaks, LiveApart;
      if s.queues[i].scratch.Some? {
        ReturnIsOrderly(s, i);
        ReturnScratchKeepsInv(s, i);
        InvIsSafe(ScratchReturned(s, i));
        Become(ScratchReturned(s, i));
      }
      if s.queues[i].storage.Some? {
        ReturnIsOrderly(s, i);
        ReturnStorageKeepsInv(s, i);
        InvIsSafe(StorageReturned(s, i));
        Become(StorageReturned(s, i));
      }
    }

    /** Any change of one slot that keeps what it holds. */
    method Relabel(i: nat, q: Queue, p: Cp)
      requires Recorded() && Inv(s) && i < SLOTS && SameHoldings(s.queues[i], q) && SlotSound(q, p, s)
      requires s.cp[i].owns && p.owns && s.cp[i].doorbell.Some? ==> p.doorbell.Some? && s.cp[i].doorbell.value <= p.doorbell.value
      modifies this`s, this`trace
      ensures Recorded() && Inv(s) && old(trace) < trace && s == WithCp(WithQueue(old(s), i, q), i, p)
    {
      hide Safe, Orderly, SlotSound, NoSharing, NoLeaks, LiveApart;
      RelabelKeepsInv(s, i, q, p);
      RelabelIsOrderly(s, i, q, p);
      InvIsSafe(WithCp(WithQueue(s, i, q), i, p));
      Become(WithCp(WithQueue(s, i, q), i, p));
    }

    method TakeStorage(i: nat) returns (ok: bool, b: Block)
      requires Recorded() && Inv(s) && i < SLOTS && s.queues[i].owner != 0 && s.queues[i].storage.None?
      modifies this`s, this`trace
      ensures Recorded() && Inv(s) && old(trace) <= trace
      ensures if ok then Grantable(b, old(s).storageLive) && s == StorageTaken(old(s), i, b) else s == old(s)
    {
      hide Safe, Orderly, SlotSound, NoSharing, NoLeaks, LiveApart, StorageTaken;
      b := *;
      ok := Grantable(b, s.storageLive);
      if ok {
        TakeStorageKeepsInv(s, i, b);
        TakeIsOrderly(s, i, b);
        InvIsSafe(StorageTaken(s, i, b));
        Become(StorageTaken(s, i, b));
      }
    }

    /** aql_queue_open up to the upload: every failure gives back what was allocated. */
    method Prepare(i: nat, requestedScratch: nat) returns (status: Status)
      requires Recorded() && Inv(s) && Claimed(s, i)
      modifies this`s, this`trace
      ensures Recorded() && Inv(s) && old(trace) <= trace && s.cp == old(s).cp && s.bos == old(s).bos
      ensures status != Success ==> s == old(s)
      ensures status == Success ==>
        && OnlySlot(old(s), s, i) && SameButBlocks(old(s).queues[i], s.queues[i]) && s.queues[i].storage.Some?
        && (s.queues[i].scratch.Some? <==> requestedScratch != 0)
        && (requestedScratch != 0 ==> Serves(requestedScratch, s.queues[i].scratch.value))
    {
      hide Safe, Orderly, SlotSound, NoSharing, NoLeaks, LiveApart, Grantable, Emptied, Sufficient, Serves;
      var supported: bool, mqdBuilt: bool, uploaded: bool := *, *, *;
      if !supported || requestedScratch > MAX_PRIVATE_BYTES {
        return BadArgument;
      }
      var ok, storage := TakeStorage(i);
      if !ok {
        return NoMemory;
      }
      FreshBlock(storage, old(s).storageLive);
      StorageBackUndoes(old(s), i, storage);
      if !mqdBuilt {
        ReturnBlocks(i);
        return BadArgument;
      }
      if requestedScratch != 0 {
        var scratch;
        ok, scratch := AllocateScratch(i, requestedScratch);
        if !ok {
          ReturnBlocks(i);
          return NoMemory;
        }
        FreshBlock(scratch, old(s).scratchLive);
        GivingBackUndoes(old(s), i, storage, scratch);
      }
      if !uploaded {
        ReturnBlocks(i);
        return IOError;
      }
      return Success;
    }

    static lemma SlotIsSound(s: Aql, i: nat)
      requires Inv(s) && i < SLOTS
      ensures SlotSound(s.queues[i], s.cp[i], s)
    {
    }

    /** aql_queue_open. Once a map was attempted the CP may own the queue even when the
        acknowledgement is lost, so everything is retained. */
    method OpenQueue(i: nat, packets: nat, requestedScratch: nat) returns (status: Status)
      requires Recorded() && Inv(s) && Claimed(s, i) && PacketsValid(packets)
      modifies this`s, this`trace
      ensures Recorded() && Inv(s) && old(trace) <= trace && s.bos == old(s).bos
      ensures OnlySlot(old(s), s, i) && s.queues[i].owner == old(s).queues[i].owner
              && s.queues[i].ring == old(s).queues[i].ring && s.queues[i].metadata == old(s).queues[i].metadata
      ensures status == Success ==>
        && s.queues[i].mapped && !s.queues[i].retained && !s.queues[i].published && s.queues[i].packets == packets
        && s.cp[i] == Cp(true, 0, s.queues[i].scratch, None) && (s.queues[i].scratch.Some? <==> requestedScratch != 0)
        && (requestedScratch != 0 ==> Serves(requestedScratch, s.queues[i].scratch.value))
      ensures status != Success ==> s == old(s) || (s.queues[i].retained && s.cp[i].owns)
    {
      hide Safe, Orderly, NoSharing, NoLeaks, LiveApart, Sufficient, Serves;
      status := Prepare(i, requestedScratch);
      if status != Success {
        return;
      }
      SlotIsSound(s, i);
      var q := s.queues[i].(packets := packets, retained := true);
      Relabel(i, q, s.cp[i]);
      Relabel(i, q, Cp(true, 0, q.scratch, None));
      var acknowledged: bool := *;
      if !acknowledged {
        return Timeout;
      }
      Relabel(i, q.(mapped := true, retained := false), s.cp[i]);
    }

    /** aql_queue_close: blocks go back only after the unmap was acknowledged. */
    method CloseQueue(i: nat) returns (status: Status)
      requires Recorded() && Inv(s) && i < SLOTS && s.queues[i].owner != 0
      modifies this`s, this`trace
      ensures Recorded() && Inv(s) && old(trace) <= trace && s.bos == old(s).bos
      ensures status == Success ==>
        && old(s).queues[i].mapped && OnlySlot(old(s), s, i) && s.queues[i] == EMPTY && s.cp[i] == UNMAPPED
        && s.storageLive == Emptied(old(s), i).storageLive && s.scratchLive == Emptied(old(s), i).scratchLive
      ensures status != Success ==> s == old(s) || s == WithQueue(old(s), i, old(s).queues[i].(retained := true))
    {
      hide Safe, Orderly, NoSharing, NoLeaks, LiveApart;
      SlotIsSound(s, i);
      if s.queues[i].retained {
        return NotReady;
      }
      if !s.queues[i].mapped {
        return BadArgument;
      }
      var q := s.queues[i].(retained := true);
      assert s.cp[i := s.cp[i]] == s.cp;
      Relabel(i, q, s.cp[i]);
      var acknowledged: bool := *;
      if !acknowledged {
        return Timeout;
      }
      Relabel(i, q.(mapped := false), UNMAPPED);
      ReturnBlocks(i);
      Relabel(i, EMPTY, UNMAPPED);
      return Success;
    }

    /** aql_queue_kick: producers may ring out of order, the doorbell only moves forward, and it never
        passes the packets reserved so far nor takes the value reserved for "none". */
    method Kick(i: nat, lastPacket: nat, reserved: nat) returns (status: Status)
      requires Valid() && i < SLOTS && s.queues[i].owner != 0
      modifies this`s, this`trace
      ensures Valid() && old(trace) <= trace
      ensures status == Success <==> s.queues[i].mapped && !s.queues[i].retained && lastPacket < reserved && lastPacket != U64_MAX
      ensures status != Success ==> s == old(s)
      ensures status == Success ==>
        && s.queues[i].published && s.cp[i].doorbell == Some(s.queues[i].lastDoorbell)
        && s.queues[i].lastDoorbell == (if old(s).queues[i].published && old(s).queues[i].lastDoorbell > lastPacket
                                        then old(s).queues[i].lastDoorbell else lastPacket)
        && s == WithCp(WithQueue(old(s), i, s.queues[i]), i, s.cp[i])
        && s.queues[i] == old(s).queues[i].(published := true, lastDoorbell := s.queues[i].lastDoorbell)
        && s.cp[i] == old(s).cp[i].(doorbell := s.cp[i].doorbell)
    {
      hide Safe, Orderly, NoSharing, NoLeaks, LiveApart;
      SlotIsSound(s, i);
      var q := s.queues[i];
      if !q.mapped || q.retained {
        return NotReady;
      }
      if lastPacket == U64_MAX {
        return BadArgument;
      }
      if lastPacket >= reserved {
        return BadArgument;
      }
      if q.published && lastPacket <= q.lastDoorbell {
        assert s.queues[i := q] == s.queues && s.cp[i := s.cp[i]] == s.cp;
        return Success;
      }
      Relabel(i, q.(lastDoorbell := lastPacket, published := true), s.cp[i].(doorbell := Some(lastPacket)));
      SameOwnership(old(s), s, i);
      return Success;
    }

    static lemma BlockIsNew(s: Aql, i: nat, b: Block)
      requires i < |s.queues| && Inv(s) && i < SLOTS && Grantable(b, s.scratchLive)
      ensures ScratchReplaced(s, i, b).scratchLive != s.scratchLive
    {
      FreshBlock(b, s.scratchLive);
    }

    /** aql_queue_service. The one call that returns a block of a mapped queue, and it does so exactly
        when it replaces scratch the queue already had. */
    method Service(i: nat, ring: seq<Packet>, read: nat, write: nat) returns (status: Status)
      requires Valid() && i < SLOTS && s.queues[i].owner != 0 && s.queues[i].packets <= |ring|
      modifies this`s, this`trace
      ensures Valid() && old(trace) <= trace
      ensures s != old(s) ==>
        && old(s).queues[i].mapped && !old(s).queues[i].retained && AsksForScratch(old(s).cp[i].signal) && read < write
        && 0 < old(s).queues[i].packets
        && exists b :: Serviced(old(s), s, i, b) && ServesRing(b, ring, old(s).queues[i].packets, read, write)
      ensures status == Success ==> s.cp[i].signal == 0 && (s == old(s) || s.cp[i].loaded == s.queues[i].scratch)
      ensures ReturnsMapped(old(s), s) <==> s != old(s) && old(s).queues[i].scratch.Some?
    {
      hide Safe, Orderly, NoSharing, NoLeaks, LiveApart, Grantable, ReturnsMapped, Wanted, Serves;
      SlotIsSound(s, i);
      NothingReturned(s);
      if !s.queues[i].mapped || s.queues[i].retained {
        return NotReady;
      }
      var readable: bool := *;
      if !readable {
        return IOError;
      }
      if s.cp[i].signal == 0 {
        return Success;
      }
      if !AsksForScratch(s.cp[i].signal) || write <= read {
        return IOError;
      }
      var required := Scan(ring, s.queues[i].packets, read, write);
      if required == 0 || required > MAX_PRIVATE_BYTES {
        return BadArgument;
      }
      var ok, b := AllocateScratch(i, required);
      if !ok {
        return NoMemory;
      }
      assert ServesRing(b, ring, old(s).queues[i].packets, read, write);
      assert Serviced(old(s), s, i, b);
      ServiceReturnsMapped(old(s), s, i, b);
      BlockIsNew(old(s), i, b);
      SameOwnership(old(s), s, i);
      ghost var replaced := s;
      var cleared: bool, reported: bool := *, *;
      if cleared {
        assert s.queues[i := s.queues[i]] == s.queues;
        SlotIsSound(s, i);
        Relabel(i, s.queues[i], s.cp[i].(signal := 0, loaded := s.queues[i].scratch));
        SameOwnership(replaced, s, i);
        assert Serviced(old(s), s, i, b);
        ServiceReturnsMapped(old(s), s, i, b);
      }
      status := if cleared && reported then Success else IOError;
    }

    // ---- The CP ------------------------------------------------------------------------

    /** The CP raises its inactive signal: scratch wanted, or some other error. It then waits. */
    method CpSignals(i: nat, signal: nat)
      requires Valid()
      modifies this`s, this`trace
      ensures Valid() && old(trace) <= trace
      ensures s == old(s) || (i < SLOTS && old(s).cp[i].owns && s == WithCp(old(s), i, old(s).cp[i].(signal := signal)))
    {
      hide Safe, Orderly, NoSharing, NoLeaks, LiveApart;
      if i < SLOTS {
        SlotIsSound(s, i);
        if s.cp[i].owns && !AsksForScratch(s.cp[i].signal) {
          assert s.queues[i := s.queues[i]] == s.queues;
          Relabel(i, s.queues[i], s.cp[i].(signal := signal));
          SameOwnership(old(s), s, i);
        }
      }
    }

    // ---- Selectors ---------------------------------------------------------------------

    /** No other queue of the owner uses either buffer. */
    predicate Unshared(owner: nat, ring: nat, metadata: nat, n: nat)
      reads this
    {
      forall j :: 0 <= j < n && j < |s.queues| && s.queues[j].owner == owner ==>
        s.queues[j].ring != ring && s.queues[j].metadata != ring && s.queues[j].ring != metadata && s.queues[j].metadata != metadata
    }

    static lemma UnownedIsEmpty(s: Aql, i: nat)
      requires Inv(s) && i < SLOTS && s.queues[i].owner == 0
      ensures s.queues[i] == EMPTY
    {
      SlotIsSound(s, i);
    }

    static lemma HandleIsSound(s: Aql, i: nat, handle: nat)
      requires Inv(s) && i < SLOTS && s.queues[i].owner != 0
      ensures SlotSound(s.queues[i].(handle := handle), s.cp[i], s)
    {
      SlotIsSound(s, i);
    }

    method CreateIn(i: nat, owner: nat, ring: nat, metadata: nat, packets: nat, requestedScratch: nat) returns (status: Status)
      requires Valid() && owner != 0 && i < SLOTS && s.queues[i].owner == 0 && PacketsValid(packets) && !blocked
      requires Bo(owner, ring) in s.bos && Bo(owner, metadata) in s.bos
      modifies this
      ensures Valid() && s.bos == old(s).bos
      ensures status == Success ==>
        && OnlySlot(old(s), s, i) && old(s).queues[i] == EMPTY && s.queues[i].owner == owner && s.queues[i].ring == ring
        && s.queues[i].metadata == metadata && s.queues[i].packets == packets && s.queues[i].mapped && !blocked
        && s.queues[i].handle == lastHandle == old(lastHandle) + 1
      ensures status != Success ==> (s == old(s) && !blocked) || (OnlySlot(old(s), s, i) && s.queues[i].retained && s.cp[i].owns && blocked)
    {
      hide Safe, Orderly, NoSharing, NoLeaks, LiveApart, SlotSound;
      SlotIsSound(s, i);
      UnownedIsEmpty(s, i);
      var q := EMPTY.(owner := owner, ring := ring, metadata := metadata);
      ClaimFacts(s, i, q);
      Relabel(i, q, UNMAPPED);
      ghost var claimed := s;
      status := OpenQueue(i, packets, requestedScratch);
      OnlySlotTransitive(old(s), claimed, s, i);
      if status == Success {
        ghost var ready := s;
        HandleIsSound(s, i, lastHandle + 1);
        Relabel(i, s.queues[i].(handle := lastHandle + 1), s.cp[i]);
        lastHandle := lastHandle + 1;
        assert OnlySlot(ready, s, i);
        OnlySlotTransitive(old(s), ready, s, i);
      } else if s.queues[i].retained {
        blocked := true;
      } else {
        Relabel(i, EMPTY, UNMAPPED);
      }
    }

    /** kMacAMDGPUMethodAQLQueueCreate. */
    method Create(owner: nat, ring: nat, metadata: nat, packets: nat, requestedScratch: nat) returns (status: Status, slot: nat)
      requires Valid() && owner != 0
      modifies this
      ensures Valid() && s.bos == old(s).bos
      ensures status == Success ==>
        && !old(blocked) && slot < SLOTS && old(s).queues[slot] == EMPTY && OnlySlot(old(s), s, slot)
        && s.queues[slot].owner == owner && s.queues[slot].ring == ring && s.queues[slot].metadata == metadata && ring != metadata
        && s.queues[slot].packets == packets && s.queues[slot].mapped && old(Unshared(owner, ring, metadata, SLOTS))
        && s.queues[slot].handle == lastHandle == old(lastHandle) + 1
      ensures status != Success ==> s == old(s) || blocked
    {
      hide Safe, Orderly, NoSharing, NoLeaks, LiveApart, SlotSound;
      slot := 0;
      if blocked {
        return NotReady, 0;
      }
      if ring == metadata || !PacketsValid(packets) {
        return BadArgument, 0;
      }
      if Bo(owner, ring) !in s.bos || Bo(owner, metadata) !in s.bos {
        return BadArgument, 0;
      }
      slot := SLOTS;
      for i := 0 to SLOTS
        invariant Unshared(owner, ring, metadata, i)
        invariant slot < SLOTS ==> s.queues[slot].owner == 0
        invariant slot <= SLOTS
      {
        if s.queues[i].owner == owner && (s.queues[i].ring == ring || s.queues[i].metadata == ring
                                          || s.queues[i].ring == metadata || s.queues[i].metadata == metadata) {
          return Busy, 0;
        }
        if s.queues[i].owner == 0 && slot == SLOTS {
          slot := i;
        }
      }
      if slot == SLOTS || lastHandle == U64_MAX {
        return NoResources, 0;
      }
      status := CreateIn(slot, owner, ring, metadata, packets, requestedScratch);
    }

    /** kMacAMDGPUMethodAQLQueueDestroy. */
    method Destroy(i: nat, owner: nat) returns (status: Status)
      requires Valid()
      modifies this
      ensures Valid() && s.bos == old(s).bos
      ensures status == Success ==>
        && i < SLOTS && old(s).queues[i].owner == owner && !blocked && OnlySlot(old(s), s, i) && s.queues[i] == EMPTY
        && s.storageLive == Emptied(old(s), i).storageLive && s.scratchLive == Emptied(old(s), i).scratchLive
      ensures status != Success ==>
        s == old(s) || (blocked && i < SLOTS && s == WithQueue(old(s), i, old(s).queues[i].(retained := true)))
    {
      hide Safe, Orderly, NoSharing, NoLeaks, LiveApart, SlotSound;
      if blocked || i >= SLOTS || s.queues[i].owner != owner || owner == 0 {
        return BadArgument;
      }
      status := CloseQueue(i);
      if s.queues[i].retained {
        blocked := true;
      }
    }

    /** kMacAMDGPUMethodBOFree, as far as queues are concerned. */
    method FreeBo(owner: nat, handle: nat) returns (status: Status)
      requires Valid()
      modifies this
      ensures Valid() && blocked == old(blocked)
      ensures status == Success <==> !blocked && Bo(owner, handle) in old(s).bos && Unshared(owner, handle, handle, SLOTS)
      ensures s == old(s).(bos := if status == Success then old(s).bos - {Bo(owner, handle)} else old(s).bos)
    {
      hide Safe, Orderly, NoSharing, NoLeaks, LiveApart, SlotSound;
      if blocked || Bo(owner, handle) !in s.bos {
        return BadArgument;
      }
      for i := 0 to SLOTS
        invariant Unshared(owner, handle, handle, i)
      {
        if s.queues[i].owner == owner && (s.queues[i].ring == handle || s.queues[i].metadata == handle) {
          return Busy;
        }
      }
      UnusedBoKeepsInv(s, Bo(owner, handle));
      Become(s.(bos := s.bos - {Bo(owner, handle)}));
      return Success;
    }

    method AllocBo(owner: nat, handle: nat)
      requires Valid()
      modifies this
      ensures Valid() && s == old(s).(bos := old(s).bos + {Bo(owner, handle)})
    {
      hide Safe, Orderly, NoSharing, NoLeaks, LiveApart, SlotSound;
      NewBoKeepsInv(s, Bo(owner, handle));
      Become(s.(bos := s.bos + {Bo(owner, handle)}));
    }
  }

  datatype Call =
    | AllocCall(owner: nat, handle: nat)
    | FreeCall(owner: nat, handle: nat)
    | CreateCall(owner: nat, ring: nat, metadata: nat, packets: nat, scratch: nat)
    | KickCall(i: nat, lastPacket: nat, reserved: nat)
    | ServiceCall(i: nat, read: nat, write: nat)
    | DestroyCall(i: nat, owner: nat)
    | SignalCall(i: nat, signal: nat)

  method Step(m: AqlQueues, call: Call)
    requires m.Valid()
    modifies m
    ensures m.Valid()
  {
    hide Safe, Orderly, SlotSound, NoSharing, NoLeaks, LiveApart;
    match call {
      case AllocCall(owner, handle) => { m.AllocBo(owner, handle); }
      case FreeCall(owner, handle) => { var _ := m.FreeBo(owner, handle); }
      case CreateCall(owner, ring, metadata, packets, scratch) => {
        if owner != 0 {
          var _, _ := m.Create(owner, ring, metadata, packets, scratch);
        }
      }
      case KickCall(i, lastPacket, reserved) => {
        if !m.blocked && i < SLOTS && m.s.queues[i].owner != 0 {
          var _ := m.Kick(i, lastPacket, reserved);
        }
      }
      case ServiceCall(i, read, write) => {
        if !m.blocked && i < SLOTS && m.s.queues[i].owner != 0 {
          var contents: nat -> Packet := *;
          var _ := m.Service(i, seq(m.s.queues[i].packets, k requires k >= 0 => contents(k)), read, write);
        }
      }
      case DestroyCall(i, owner) => { var _ := m.Destroy(i, owner); }
      case SignalCall(i, signal) => { m.CpSignals(i, signal); }
    }
  }

  /** Every run of these calls: the CP never uses a block or buffer that was given back, no doorbell
      moves back, no block of a queue leaves its allocator while the CP may own the queue, except
      scratch the CP itself is waiting to have replaced, and every live block is held by a slot. */
  method Run(calls: seq<Call>, ip: IPVersion, cuCount: nat, engines: nat, wavesPerCU: nat) returns (m: AqlQueues)
    ensures m.Valid() && NoLeaks(m.s) && NoSharing(m.s.queues)
    ensures forall k :: 0 <= k < |m.trace| ==> Safe(m.trace[k])
    ensures forall k :: 0 <= k < |m.trace| - 1 ==> Orderly(m.trace[k], m.trace[k + 1])
    ensures forall i :: 0 <= i < SLOTS && m.s.queues[i].owner != 0 ==>
              Bo(m.s.queues[i].owner, m.s.queues[i].ring) in m.s.bos && Bo(m.s.queues[i].owner, m.s.queues[i].metadata) in m.s.bos
  {
    hide Safe, Orderly;
    m := new AqlQueues(ip, cuCount, engines, wavesPerCU);
    for k := 0 to |calls|
      invariant fresh(m) && m.Valid()
    {
      Step(m, calls[k]);
    }
    forall i | 0 <= i < SLOTS
      ensures SlotSound(m.s.queues[i], m.s.cp[i], m.s)
    {
    }
  }
}
