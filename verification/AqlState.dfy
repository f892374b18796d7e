/** Persistent AQL queues as the driver and the command processor (CP) share them: seven slots,
    the blocks they hold, and what the CP may still use. Models PersistentAQLQueue in
    dext/amdgpu/amdgpu_aql.h and its use in dext/MacAMDGPU.cpp. */
module AqlState {
  import opened Words
  import opened ScratchSizing

  const SLOTS: nat := 7 // kPersistentAQLQueues

  datatype Block = Block(addr: nat, size: nat)
  datatype Bo = Bo(owner: nat, handle: nat)

  /** An unowned slot is all zeros; owner 0 is null. */
  datatype Queue = Queue(owner: nat, handle: nat, ring: nat, metadata: nat, packets: nat,
                         storage: Option<Block>, scratch: Option<Block>,
                         mapped: bool, retained: bool, published: bool, lastDoorbell: nat)

  const EMPTY := Queue(0, 0, 0, 0, 0, None, None, false, false, false, 0)

  /** The CP's side of one slot: whether it may own the queue, the inactive signal it raised, the
      scratch block it last loaded, and the last doorbell it received. */
  datatype Cp = Cp(owns: bool, signal: nat, loaded: Option<Block>, doorbell: Option<nat>)

  const UNMAPPED := Cp(false, 0, None, None)

  datatype Aql = Aql(queues: seq<Queue>, cp: seq<Cp>, storageLive: set<Block>, scratchLive: set<Block>, bos: set<Bo>)

  /** Bits 0 and 10 of the inactive signal: the CP asks for scratch, after every earlier user of
      scratch on this queue retired, and waits until the signal is cleared. */
  predicate AsksForScratch(signal: nat) {
    signal == 1 || signal == 0x400 || signal == 0x401
  }

  predicate Disjoint(a: Block, b: Block) {
    a.addr + a.size <= b.addr || b.addr + b.size <= a.addr
  }

  /** What a grant of either VRAM allocator promises. */
  predicate Grantable(b: Block, live: set<Block>) {
    Addressable(b.addr, b.size) && b.size > 0 && forall x :: x in live ==> Disjoint(x, b)
  }

  /** The CP uses only live blocks, and the ring and metadata it reads are live buffers. */
  ghost predicate Safe(s: Aql) {
    forall i :: 0 <= i < |s.cp| && i < |s.queues| && s.cp[i].owns ==>
      && s.queues[i].storage.Some? && s.queues[i].storage.value in s.storageLive
      && Bo(s.queues[i].owner, s.queues[i].ring) in s.bos && Bo(s.queues[i].owner, s.queues[i].metadata) in s.bos
      && (s.cp[i].loaded.Some? && !AsksForScratch(s.cp[i].signal) ==> s.cp[i].loaded.value in s.scratchLive)
  }

  predicate PacketsValid(packets: nat) {
    64 <= packets <= 4096 && PowerOfTwo(packets)
  }

  /** One slot's account, whatever step it is at. */
  ghost predicate SlotSound(q: Queue, p: Cp, s: Aql) {
    && (q.storage.Some? ==> q.storage.value in s.storageLive)
    && (q.scratch.Some? ==> q.scratch.value in s.scratchLive)
    && (q.owner == 0 ==> q == EMPTY) && (p.owns ==> PacketsValid(q.packets))
    && (q.mapped ==> p.owns) && (p.owns ==> q.mapped || q.retained)
    && (q.owner != 0 ==> Bo(q.owner, q.ring) in s.bos && Bo(q.owner, q.metadata) in s.bos)
    && (p.owns ==> q.storage.Some? && (p.loaded == q.scratch || AsksForScratch(p.signal)))
    && (p.owns ==> p.doorbell == if q.published then Some(q.lastDoorbell) else None)
  }

  ghost predicate AllSound(s: Aql) {
    |s.queues| == |s.cp| == SLOTS && forall i :: 0 <= i < SLOTS ==> SlotSound(s.queues[i], s.cp[i], s)
  }

  /** Two slots never hold the same block. */
  predicate NoSharing(queues: seq<Queue>) {
    forall i, j :: 0 <= i < |queues| && 0 <= j < |queues| && i != j ==>
      && (queues[i].storage.Some? ==> queues[i].storage != queues[j].storage)
      && (queues[i].scratch.Some? ==> queues[i].scratch != queues[j].scratch)
  }

  /** Conservation: every live block is held by a slot. */
  ghost predicate NoLeaks(s: Aql) {
    && (forall b :: b in s.storageLive ==> exists i :: 0 <= i < |s.queues| && s.queues[i].storage == Some(b))
    && (forall b :: b in s.scratchLive ==> exists i :: 0 <= i < |s.queues| && s.queues[i].scratch == Some(b))
  }

  ghost predicate LiveApart(live: set<Block>) {
    forall x, y :: x in live && y in live && x != y ==> Disjoint(x, y)
  }

  ghost predicate Inv(s: Aql) {
    AllSound(s) && NoSharing(s.queues) && NoLeaks(s) && LiveApart(s.storageLive) && LiveApart(s.scratchLive)
  }

  /** Between calls an owned slot is one the CP may own. */
  predicate Settled(s: Aql) {
    forall i :: 0 <= i < |s.queues| && i < |s.cp| && s.queues[i].owner != 0 ==> s.cp[i].owns
  }

  predicate NothingRetained(s: Aql) {
    forall i :: 0 <= i < |s.queues| && s.queues[i].owner != 0 ==> s.queues[i].mapped && !s.queues[i].retained
  }

  lemma InvIsSafe(s: Aql)
    requires Inv(s)
    ensures Safe(s)
  {
    forall i | 0 <= i < |s.cp| && s.cp[i].owns
      ensures SlotSound(s.queues[i], s.cp[i], s)
    {
    }
  }

  /** From one step to the next, while the CP may own a queue: its doorbell does not move back, its
      storage stays allocated, and its scratch does unless the CP is waiting for other scratch. */
  ghost predicate Orderly(s: Aql, n: Aql) {
    forall i :: 0 <= i < |s.cp| && i < |s.queues| && s.cp[i].owns ==>
      && (i < |n.cp| && n.cp[i].owns && s.cp[i].doorbell.Some? ==>
            n.cp[i].doorbell.Some? && s.cp[i].doorbell.value <= n.cp[i].doorbell.value)
      && (s.queues[i].storage.Some? ==> s.queues[i].storage.value in n.storageLive)
      && (s.queues[i].scratch.Some? && !AsksForScratch(s.cp[i].signal) ==> s.queues[i].scratch.value in n.scratchLive)
  }

  // ---- Steps -----------------------------------------------------------------------

  function WithQueue(s: Aql, i: nat, q: Queue): Aql
    requires i < |s.queues|
  {
    s.(queues := s.queues[i := q])
  }

  function WithCp(s: Aql, i: nat, p: Cp): Aql
    requires i < |s.cp|
  {
    s.(cp := s.cp[i := p])
  }

  function StorageTaken(s: Aql, i: nat, b: Block): Aql
    requires i < |s.queues|
  {
    WithQueue(s, i, s.queues[i].(storage := Some(b))).(storageLive := s.storageLive + {b})
  }

  function StorageReturned(s: Aql, i: nat): Aql
    requires i < |s.queues| && s.queues[i].storage.Some?
  {
    WithQueue(s, i, s.queues[i].(storage := None)).(storageLive := s.storageLive - {s.queues[i].storage.value})
  }

  function Old(s: Aql, i: nat): set<Block>
    requires i < |s.queues|
  {
    if s.queues[i].scratch.Some? then {s.queues[i].scratch.value} else {}
  }

  function ScratchReplaced(s: Aql, i: nat, b: Block): Aql
    requires i < |s.queues|
  {
    WithQueue(s, i, s.queues[i].(scratch := Some(b))).(scratchLive := s.scratchLive - Old(s, i) + {b})
  }

  function ScratchReturned(s: Aql, i: nat): Aql
    requires i < |s.queues|
  {
    WithQueue(s, i, s.queues[i].(scratch := None)).(scratchLive := s.scratchLive - Old(s, i))
  }

  /** Both blocks of the slot given back. */
  function Emptied(s: Aql, i: nat): Aql
    requires i < |s.queues|
  {
    s.(queues := s.queues[i := s.queues[i].(scratch := None, storage := None)],
       scratchLive := s.scratchLive - Old(s, i),
       storageLive := s.storageLive - (if s.queues[i].storage.Some? then {s.queues[i].storage.value} else {}))
  }

  /** A relabelled slot keeps what it holds. */
  predicate SameHoldings(p: Queue, q: Queue) {
    p.storage == q.storage && p.scratch == q.scratch
  }

  lemma SlotsKept(s: Aql, n: Aql, i: nat)
    requires AllSound(s) && i < SLOTS && |n.queues| == |n.cp| == SLOTS && n.bos == s.bos
    requires n.queues == s.queues[i := n.queues[i]] && n.cp == s.cp[i := n.cp[i]] && SlotSound(n.queues[i], n.cp[i], n)
    requires forall j :: 0 <= j < SLOTS && j != i ==>
               && (s.queues[j].storage.Some? ==> s.queues[j].storage.value in n.storageLive)
               && (s.queues[j].scratch.Some? ==> s.queues[j].scratch.value in n.scratchLive)
    ensures AllSound(n)
  {
    forall j | 0 <= j < SLOTS
      ensures SlotSound(n.queues[j], n.cp[j], n)
    {
      assert SlotSound(s.queues[j], s.cp[j], s);
    }
  }

  /** Blocks held by the other slots are still held by them. */
  lemma HeldElsewhere(s: Aql, n: Aql, i: nat)
    requires NoLeaks(s) && i < |s.queues| && |n.queues| == |s.queues| && n.queues == s.queues[i := n.queues[i]]
    ensures forall b :: b in s.storageLive && Some(b) != s.queues[i].storage ==> exists j :: 0 <= j < |n.queues| && n.queues[j].storage == Some(b)
    ensures forall b :: b in s.scratchLive && Some(b) != s.queues[i].scratch ==> exists j :: 0 <= j < |n.queues| && n.queues[j].scratch == Some(b)
  {
    forall b | b in s.storageLive && Some(b) != s.queues[i].storage
      ensures exists j :: 0 <= j < |n.queues| && n.queues[j].storage == Some(b)
    {
      var j :| 0 <= j < |s.queues| && s.queues[j].storage == Some(b);
      assert n.queues[j].storage == Some(b);
    }
    forall b | b in s.scratchLive && Some(b) != s.queues[i].scratch
      ensures exists j :: 0 <= j < |n.queues| && n.queues[j].scratch == Some(b)
    {
      var j :| 0 <= j < |s.queues| && s.queues[j].scratch == Some(b);
      assert n.queues[j].scratch == Some(b);
    }
  }

  lemma RelabelKeepsInv(s: Aql, i: nat, q: Queue, p: Cp)
    requires Inv(s) && i < SLOTS && SameHoldings(s.queues[i], q) && SlotSound(q, p, s)
    ensures Inv(WithCp(WithQueue(s, i, q), i, p))
  {
    hide LiveApart;
    var n := WithCp(WithQueue(s, i, q), i, p);
    forall j | 0 <= j < SLOTS
      ensures SlotSound(s.queues[j], s.cp[j], s)
    {
    }
    SlotsKept(s, n, i);
    HeldElsewhere(s, n, i);
  }

  /** A block granted to one slot is new to all of them. */
  lemma FreshBlock(b: Block, live: set<Block>)
    requires Grantable(b, live)
    ensures b !in live
  {
    assert b in live ==> Disjoint(b, b);
  }

  lemma TakeStorageKeepsInv(s: Aql, i: nat, b: Block)
    requires Inv(s) && i < SLOTS && s.queues[i].storage.None? && s.queues[i].owner != 0 && Grantable(b, s.storageLive)
    ensures Inv(StorageTaken(s, i, b)) && b !in s.storageLive
  {
    FreshBlock(b, s.storageLive);
    var n := StorageTaken(s, i, b);
    assert SlotSound(s.queues[i], s.cp[i], s);
    SlotsKept(s, n, i);
    HeldElsewhere(s, n, i);
    assert n.queues[i].storage == Some(b);
  }

  lemma ReturnStorageKeepsInv(s: Aql, i: nat)
    requires Inv(s) && i < SLOTS && s.queues[i].storage.Some? && !s.cp[i].owns && s.queues[i].owner != 0
    ensures Inv(StorageReturned(s, i)) && s.queues[i].storage.value in s.storageLive
  {
    var n := StorageReturned(s, i);
    assert SlotSound(s.queues[i], s.cp[i], s);
    SlotsKept(s, n, i);
    HeldElsewhere(s, n, i);
  }

  /** Scratch may change hands while the CP does not own the slot or waits for exactly this. */
  predicate ScratchIdle(s: Aql, i: nat) {
    i < |s.cp| && (!s.cp[i].owns || AsksForScratch(s.cp[i].signal))
  }

  lemma ReplaceScratchKeepsInv(s: Aql, i: nat, b: Block)
    requires Inv(s) && i < SLOTS && s.queues[i].owner != 0 && ScratchIdle(s, i) && Grantable(b, s.scratchLive)
    ensures Inv(ScratchReplaced(s, i, b)) && b !in s.scratchLive && Old(s, i) <= s.scratchLive
  {
    FreshBlock(b, s.scratchLive);
    var n := ScratchReplaced(s, i, b);
    assert SlotSound(s.queues[i], s.cp[i], s);
    SlotsKept(s, n, i);
    HeldElsewhere(s, n, i);
    assert n.queues[i].scratch == Some(b);
    assert n.queues[i].storage == s.queues[i].storage;
  }

  lemma ReturnScratchKeepsInv(s: Aql, i: nat)
    requires Inv(s) && i < SLOTS && s.queues[i].owner != 0 && !s.cp[i].owns
    ensures Inv(ScratchReturned(s, i)) && Old(s, i) <= s.scratchLive
  {
    var n := ScratchReturned(s, i);
    assert SlotSound(s.queues[i], s.cp[i], s);
    SlotsKept(s, n, i);
    HeldElsewhere(s, n, i);
    assert n.queues[i].storage == s.queues[i].storage;
  }

  // ---- Blocks returned while a queue is mapped --------------------------------------

  predicate LosesBlock(s: Aql, n: Aql, i: nat)
    requires i < |s.queues|
  {
    || (s.queues[i].storage.Some? && s.queues[i].storage.value !in n.storageLive)
    || (s.queues[i].scratch.Some? && s.queues[i].scratch.value !in n.scratchLive)
  }

  /** Whether a block leaves an allocator while the CP may own a queue that was given the block. */
  ghost predicate ReturnsMapped(s: Aql, n: Aql) {
    exists i :: 0 <= i < |s.queues| && i < |s.cp| && s.cp[i].owns && LosesBlock(s, n, i)
  }

  /** Replacing scratch returns a block of a mapped queue exactly when the queue is mapped and already
      has scratch: the queue's service call is the one place where this can happen. */
  lemma ReplacementReturnsMapped(s: Aql, i: nat, b: Block)
    requires Inv(s) && i < SLOTS && s.queues[i].owner != 0 && ScratchIdle(s, i) && Grantable(b, s.scratchLive)
    ensures ReturnsMapped(s, ScratchReplaced(s, i, b)) <==> s.cp[i].owns && s.queues[i].scratch.Some?
  {
    FreshBlock(b, s.scratchLive);
    var n := ScratchReplaced(s, i, b);
    forall j | 0 <= j < SLOTS
      ensures SlotSound(s.queues[j], s.cp[j], s)
    {
    }
    if s.cp[i].owns && s.queues[i].scratch.Some? {
      assert LosesBlock(s, n, i);
    }
  }

  /** A mapped queue with 16 KiB of scratch asks for more and gets the next 16 KiB: the first block
      goes back to the allocator with the queue still mapped. */
  function ServiceExample(): Aql {
    var scratch, storage := Block(0x4000, 0x4000), Block(0x10000, 0x4000);
    var q := Queue(1, 1, 2, 3, 64, Some(storage), Some(scratch), true, false, false, 0);
    Aql([q, EMPTY, EMPTY, EMPTY, EMPTY, EMPTY, EMPTY],
        [Cp(true, 1, Some(scratch), None), UNMAPPED, UNMAPPED, UNMAPPED, UNMAPPED, UNMAPPED, UNMAPPED],
        {storage}, {scratch}, {Bo(1, 2), Bo(1, 3)})
  }

  lemma SixtyFourPackets()
    ensures PacketsValid(64)
  {
    assert PowerOfTwo(16);
  }

  lemma ExampleIsSound()
    ensures AllSound(ServiceExample())
  {
    hide PacketsValid;
    SixtyFourPackets();
    var s := ServiceExample();
    forall i | 0 <= i < SLOTS
      ensures SlotSound(s.queues[i], s.cp[i], s)
    {
      assert i > 0 ==> s.queues[i] == EMPTY && s.cp[i] == UNMAPPED;
    }
  }

  lemma ScratchIsReturnedWhileMapped()
    ensures var s, b := ServiceExample(), Block(0x8000, 0x4000);
            Inv(s) && ScratchIdle(s, 0) && Grantable(b, s.scratchLive) && ReturnsMapped(s, ScratchReplaced(s, 0, b))
  {
    hide SlotSound;
    ExampleIsSound();
    var s, b := ServiceExample(), Block(0x8000, 0x4000);
    assert s.queues[0].storage == Some(Block(0x10000, 0x4000)) && s.queues[0].scratch == Some(Block(0x4000, 0x4000));
    assert Inv(s);
    ReplacementReturnsMapped(s, 0, b);
  }

  // ---- The same steps, in order ------------------------------------------------------

  lemma RelabelIsOrderly(s: Aql, i: nat, q: Queue, p: Cp)
    requires Inv(s) && i < SLOTS
    requires s.cp[i].owns && p.owns && s.cp[i].doorbell.Some? ==> p.doorbell.Some? && s.cp[i].doorbell.value <= p.doorbell.value
    ensures Orderly(s, WithCp(WithQueue(s, i, q), i, p))
  {
    forall j | 0 <= j < SLOTS
      ensures SlotSound(s.queues[j], s.cp[j], s)
    {
    }
  }

  lemma TakeIsOrderly(s: Aql, i: nat, b: Block)
    requires Inv(s) && i < SLOTS
    ensures Orderly(s, StorageTaken(s, i, b)) && Orderly(s, s.(scratchLive := s.scratchLive + {b}))
    ensures Safe(s.(scratchLive := s.scratchLive + {b}))
  {
    InvIsSafe(s);
    forall j | 0 <= j < SLOTS
      ensures SlotSound(s.queues[j], s.cp[j], s)
    {
    }
  }

  lemma ReturnIsOrderly(s: Aql, i: nat)
    requires Inv(s) && i < SLOTS && !s.cp[i].owns
    ensures Orderly(s, ScratchReturned(s, i))
    ensures s.queues[i].storage.Some? ==> Orderly(s, StorageReturned(s, i))
  {
    forall j | 0 <= j < SLOTS
      ensures SlotSound(s.queues[j], s.cp[j], s)
    {
    }
  }

  /** The replacement in the order of the code: allocate, free the old block, take the new one. */
  lemma ReplacementIsOrderly(s: Aql, i: nat, b: Block)
    requires Inv(s) && i < SLOTS && s.queues[i].owner != 0 && ScratchIdle(s, i) && Grantable(b, s.scratchLive)
    ensures var taken := s.(scratchLive := s.scratchLive + {b});
            var freed := taken.(scratchLive := taken.scratchLive - Old(s, i));
            var done := WithQueue(freed, i, s.queues[i].(scratch := Some(b)));
            && Safe(taken) && Orderly(s, taken) && Safe(freed) && Orderly(taken, freed)
            && done == ScratchReplaced(s, i, b) && Orderly(freed, done)
  {
    TakeIsOrderly(s, i, b);
    FreshBlock(b, s.scratchLive);
    forall j | 0 <= j < SLOTS
      ensures SlotSound(s.queues[j], s.cp[j], s)
    {
    }
  }

  predicate SameButBlocks(p: Queue, q: Queue) {
    q == p.(storage := q.storage, scratch := q.scratch)
  }

  /** Nothing but one slot and the blocks changed. */
  predicate OnlySlot(before: Aql, after: Aql, i: nat) {
    && i < |before.queues| == |after.queues| && i < |before.cp| == |after.cp|
    && after == before.(queues := before.queues[i := after.queues[i]], cp := before.cp[i := after.cp[i]],
                        storageLive := after.storageLive, scratchLive := after.scratchLive)
  }

  /** A slot claimed by a client and not yet opened. */
  predicate Claimed(s: Aql, i: nat) {
    && i < |s.queues| && i < |s.cp|
    && var q := s.queues[i];
    q.owner != 0 && q == EMPTY.(owner := q.owner, ring := q.ring, metadata := q.metadata) && !s.cp[i].owns
  }

  /** Giving everything back undoes the allocations exactly. */
  lemma StorageBackUndoes(s: Aql, i: nat, storage: Block)
    requires Claimed(s, i) && storage !in s.storageLive
    ensures Emptied(StorageTaken(s, i, storage), i) == s
  {
    var n := Emptied(StorageTaken(s, i, storage), i);
    assert n.queues == s.queues;
    assert n.storageLive == s.storageLive && n.scratchLive == s.scratchLive;
  }

  lemma GivingBackUndoes(s: Aql, i: nat, storage: Block, scratch: Block)
    requires Claimed(s, i) && storage !in s.storageLive && scratch !in s.scratchLive
    ensures Emptied(ScratchReplaced(StorageTaken(s, i, storage), i, scratch), i) == s
  {
    var m := Emptied(ScratchReplaced(StorageTaken(s, i, storage), i, scratch), i);
    assert m.queues == s.queues;
    assert m.storageLive == s.storageLive && m.scratchLive == s.scratchLive;
  }

  /** The CP saw its signal cleared: it loads the scratch the metadata now names. */
  function Resumed(s: Aql, i: nat): Aql
    requires i < |s.queues| && i < |s.cp|
  {
    WithCp(s, i, s.cp[i].(signal := 0, loaded := s.queues[i].scratch))
  }

  /** A service call replaced the scratch, and the CP did or did not see its signal cleared. */
  ghost predicate Serviced(s: Aql, n: Aql, i: nat, b: Block) {
    && i < |s.queues| && i < |s.cp| && Grantable(b, s.scratchLive)
    && var r := ScratchReplaced(s, i, b);
    n == r || n == Resumed(r, i)
  }

  lemma ServiceReturnsMapped(s: Aql, n: Aql, i: nat, b: Block)
    requires Inv(s) && i < SLOTS && s.queues[i].owner != 0 && ScratchIdle(s, i) && Serviced(s, n, i, b)
    ensures ReturnsMapped(s, n) <==> s.cp[i].owns && s.queues[i].scratch.Some?
  {
    hide Inv, AllSound;
    ReplacementReturnsMapped(s, i, b);
    var r := ScratchReplaced(s, i, b);
    assert forall j :: 0 <= j < |s.queues| ==> LosesBlock(s, n, j) == LosesBlock(s, r, j);
  }

  lemma NothingReturned(s: Aql)
    requires Inv(s)
    ensures !ReturnsMapped(s, s)
  {
    forall j | 0 <= j < SLOTS
      ensures SlotSound(s.queues[j], s.cp[j], s)
    {
    }
  }

  /** An empty slot may be claimed for live buffers, and a claim that came to nothing leaves no trace. */
  lemma ClaimFacts(s: Aql, i: nat, q: Queue)
    requires Inv(s) && i < SLOTS && s.queues[i] == EMPTY && q == EMPTY.(owner := q.owner, ring := q.ring, metadata := q.metadata) && q.owner != 0
    requires Bo(q.owner, q.ring) in s.bos && Bo(q.owner, q.metadata) in s.bos && s.cp[i] == UNMAPPED
    ensures SlotSound(q, UNMAPPED, s) && SameHoldings(s.queues[i], q)
    ensures var c := WithCp(WithQueue(s, i, q), i, UNMAPPED);
            Claimed(c, i) && OnlySlot(s, c, i) && WithCp(WithQueue(c, i, EMPTY), i, UNMAPPED) == s && c.queues[i] == q && SlotSound(EMPTY, UNMAPPED, c)
  {
    var c := WithCp(WithQueue(s, i, q), i, UNMAPPED);
    assert c.queues[i := EMPTY] == s.queues && c.cp[i := UNMAPPED] == s.cp;
  }

  lemma OnlySlotTransitive(a: Aql, b: Aql, c: Aql, i: nat)
    requires OnlySlot(a, b, i) && OnlySlot(b, c, i)
    ensures OnlySlot(a, c, i)
  {
    assert c.queues == a.queues[i := c.queues[i]];
    assert c.cp == a.cp[i := c.cp[i]];
  }

  /** An unowned slot has an unmapped CP side. */
  ghost predicate UnownedUnmapped(s: Aql) {
    forall i :: 0 <= i < |s.queues| && i < |s.cp| && s.queues[i] == EMPTY ==> s.cp[i] == UNMAPPED
  }

  /** Buffers come and go without touching the queues, as long as no queue uses them. */
  lemma UnusedBoKeepsInv(s: Aql, b: Bo)
    requires Inv(s)
    requires forall i :: 0 <= i < SLOTS && s.queues[i].owner == b.owner ==> s.queues[i].ring != b.handle && s.queues[i].metadata != b.handle
    ensures var n := s.(bos := s.bos - {b});
            Inv(n) && Safe(n) && Orderly(s, n)
  {
    var n := s.(bos := s.bos - {b});
    forall i | 0 <= i < SLOTS
      ensures SlotSound(n.queues[i], n.cp[i], n)
    {
      assert SlotSound(s.queues[i], s.cp[i], s);
    }
    InvIsSafe(n);
  }

  lemma NewBoKeepsInv(s: Aql, b: Bo)
    requires Inv(s)
    ensures var n := s.(bos := s.bos + {b});
            Inv(n) && Safe(n) && Orderly(s, n)
  {
    var n := s.(bos := s.bos + {b});
    forall i | 0 <= i < SLOTS
      ensures SlotSound(n.queues[i], n.cp[i], n)
    {
      assert SlotSound(s.queues[i], s.cp[i], s);
    }
    InvIsSafe(n);
  }

  /** A step on one slot that leaves it as owned, mapped and retained as it was. */
  lemma SameOwnership(s: Aql, n: Aql, i: nat)
    requires i < |s.queues| && i < |s.cp| && |n.queues| == |s.queues| && |n.cp| == |s.cp|
    requires n.queues == s.queues[i := n.queues[i]] && n.cp == s.cp[i := n.cp[i]] && s.cp[i].owns && n.cp[i].owns
    requires n.queues[i].owner == s.queues[i].owner != 0 && n.queues[i].mapped == s.queues[i].mapped && n.queues[i].retained == s.queues[i].retained
    ensures Settled(s) ==> Settled(n)
    ensures UnownedUnmapped(s) ==> UnownedUnmapped(n)
    ensures NothingRetained(s) ==> NothingRetained(n)
  {
  }
}
