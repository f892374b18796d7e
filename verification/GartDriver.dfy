/** The GART mapping protocol as the driver runs it: reserve, publish ownership, write PTEs,
    invalidate both hubs; later clear, invalidate, complete DMA, release. The environment may
    lose a table write, corrupt a readback, time out a hub flush, refuse DMA completion, and
    walk the page table between any two steps. Models dext/amdgpu/amdgpu_gart.cpp. */
module GartDriver {
  import opened Words
  import opened GartAllocator
  import opened GartState
  import opened GartBookkeeping

  class GartDriver {
    // GARTContext
    var enabled: bool
    var gartStart: nat
    var gartSize: nat
    var hostWindowConfigured: bool
    var readsSupported: bool
    var allocator: GARTApertureAllocator
    // GMCContext
    const gmcInited: bool
    const tableInBar: bool // vram_io_range of the whole table
    const fbStart: nat
    const fbEnd: nat
    var gmcStart: nat
    var gmcSize: nat
    // Hardware and the bindings handed out so far
    var s: State
    var buffers: set<nat>
    var commands: set<nat>
    var lastObject: nat
    /** Every state the GPU could have observed, one entry per hardware step. */
    ghost var trace: seq<State>
    ghost var session: nat

    ghost predicate AllSafe()
      reads this
    {
      forall i :: 0 <= i < |trace| ==> Safe(trace[i])
    }

    ghost predicate Running()
      reads this
    {
      !s.isolated && Inv(s) && AllSafe()
    }

    ghost predicate Geometry()
      reads this, allocator, allocator.records
    {
      && allocator.Valid()
      && (enabled ==> allocator.initialized && allocator.base == gartStart && allocator.size == gartSize)
      && allocator.size / GPU_PAGE <= |s.table|
    }

    ghost predicate Table()
      reads this, allocator, allocator.records
    {
      Running() && Geometry() && Agrees(s, allocator.Live(), allocator.base)
    }

    ghost predicate Valid()
      reads this, allocator, allocator.records
    {
      && Table()
      && Objects(s.bindings, s.prepared, buffers, commands, {})
      && (forall x :: x in buffers || x in commands ==> x <= lastObject)
    }

    /** A session starts from a cleared table and an empty aperture. */
    constructor (entries: nat, gmcInited: bool, tableInBar: bool, gmcStart: nat, gmcSize: nat, fbStart: nat, fbEnd: nat)
      ensures Valid() && !enabled && s.table == seq(entries, _ => CLEAR) && s.bindings == map[] && trace == []
      ensures fresh(allocator) && fresh(allocator.records) && allocator.Live() == {}
    {
      enabled, gartStart, gartSize := false, 0, 0;
      hostWindowConfigured, readsSupported := false, false;
      this.gmcInited, this.tableInBar, this.fbStart, this.fbEnd := gmcInited, tableInBar, fbStart, fbEnd;
      this.gmcStart, this.gmcSize := gmcStart, gmcSize;
      s := State(seq(entries, _ => CLEAR), {}, {}, map[], map[], {}, false);
      buffers, commands, lastObject := {}, {}, 0;
      trace, session := [], 0;
      allocator := new GARTApertureAllocator();
    }

    // ---- Hardware steps ----------------------------------------------------------

    ghost method Record()
      requires !s.isolated && Inv(s) && AllSafe()
      modifies this`trace
      ensures AllSafe() && trace == old(trace) + [s]
    {
      InvImpliesSafe(s);
      trace := trace + [s];
    }

    /** Any number of walks and evictions in either hub. */
    method GpuWalks()
      requires Running()
      modifies this`s, this`trace
      ensures Running() && OnlyWalks(old(s), s) && old(trace) <= trace
    {
      var steps: nat :| true;
      for i := 0 to steps
        invariant Running() && OnlyWalks(old(s), s) && old(trace) <= trace
      {
        var hub: Hub := *;
        var page: nat :| true;
        if page < |s.table| && Translates(s.table[page]) {
          var x := Xlat(page, Target(s.table[page]));
          WalkKeepsInv(s, hub, x);
          s := WithTlb(s, hub, Tlb(s, hub) + {x});
        } else {
          var evicted: set<Xlat> := *;
          EvictionKeepsInv(s, hub, Tlb(s, hub) - evicted);
          s := WithTlb(s, hub, Tlb(s, hub) - evicted);
        }
        Record();
      }
    }

    /** MemoryWrite32 of one half of an entry: posted, so it may not land. */
    method WriteHalf(k: nat, page: nat, e: Pte)
      requires Running() && k in s.bindings && page < |s.table|
      requires e == s.table[page].(low := e.low) || e == s.table[page].(high := e.high)
      requires Explains(s.bindings[k], page, e)
      requires Backed(s, s.bindings[k]) || PartOf(e, s.table[page])
      modifies this`s, this`trace
      ensures Running() && OnlyTable(old(s), s) && old(trace) <= trace
      ensures s.table == old(s).table || s.table == old(s).table[page := e]
    {
      var landed: bool := *;
      if landed {
        WriteKeepsInv(s, k, page, e);
        s := s.(table := s.table[page := e]);
      }
      Record();
      GpuWalks();
    }

    /** Both words of an entry, low word first, towards its final or its cleared value. */
    method WriteBoth(k: nat, page: nat, e: Pte)
      requires Running() && k in s.bindings && page < |s.table| && InPages(s.bindings[k], page)
      requires e == CLEAR || (e == Expected(s.bindings[k], page) && Backed(s, s.bindings[k]))
      modifies this`s, this`trace
      ensures Running() && OnlyTable(old(s), s) && old(trace) <= trace
      ensures s.table == old(s).table[page := s.table[page]]
    {
      OwnEntryIsPart(s, k, page);
      WriteHalf(k, page, s.table[page].(low := e.low));
      OwnEntryIsPart(s, k, page);
      WriteHalf(k, page, s.table[page].(high := e.high));
    }

    /** vram_write_verified: all words, then all readbacks. Success means the entries are there;
        failure may leave any of their words written. */
    method WriteVerified(k: nat, start: nat, source: seq<Pte>) returns (status: Status)
      requires Running() && k in s.bindings && start + |source| <= |s.table|
      requires forall p :: start <= p < start + |source| ==>
                 && InPages(s.bindings[k], p)
                 && (source[p - start] == CLEAR || (source[p - start] == Expected(s.bindings[k], p) && Backed(s, s.bindings[k])))
      modifies this`s, this`trace
      ensures Running() && OnlyTable(old(s), s) && old(trace) <= trace
      ensures forall p :: 0 <= p < |s.table| && !(start <= p < start + |source|) ==> s.table[p] == old(s).table[p]
      ensures status == Success || status == IOError
      ensures status == Success ==> forall p :: start <= p < start + |source| ==> s.table[p] == source[p - start]
    {
      for i := 0 to |source|
        invariant Running() && OnlyTable(old(s), s) && old(trace) <= trace
        invariant forall p :: 0 <= p < |s.table| && !(start <= p < start + |source|) ==> s.table[p] == old(s).table[p]
      {
        WriteBoth(k, start + i, source[i]);
      }
      for i := 0 to |source|
        invariant forall p :: start <= p < start + i ==> s.table[p] == source[p - start]
      {
        var corrupted: bool := *;
        if corrupted || s.table[start + i].low != source[i].low || s.table[start + i].high != source[i].high {
          return IOError;
        }
      }
      return Success;
    }

    /** vram_clear_verified over a binding's own entries, 256 bytes at a time. */
    method ClearVerified(k: nat, start: nat, count: nat) returns (status: Status)
      requires Running() && k in s.bindings && start + count <= |s.table|
      requires forall p :: start <= p < start + count ==> InPages(s.bindings[k], p)
      modifies this`s, this`trace
      ensures Running() && OnlyTable(old(s), s) && old(trace) <= trace
      ensures forall p :: 0 <= p < |s.table| && !(start <= p < start + count) ==> s.table[p] == old(s).table[p]
      ensures status == Success || status == IOError
      ensures status == Success ==> forall p :: start <= p < start + count ==> s.table[p] == CLEAR
    {
      var at: nat, left: nat := start, count;
      while left != 0
        invariant at + left == start + count && at >= start
        invariant Running() && OnlyTable(old(s), s) && old(trace) <= trace
        invariant forall p :: 0 <= p < |s.table| && !(start <= p < start + count) ==> s.table[p] == old(s).table[p]
        invariant forall p :: start <= p < at ==> s.table[p] == CLEAR
      {
        var chunk := if left < CLEAR_CHUNK then left else CLEAR_CHUNK;
        status := WriteVerified(k, at, seq(chunk, _ => CLEAR));
        if status != Success {
          return status;
        }
        at, left := at + chunk, left - chunk;
      }
      return Success;
    }

    method FlushHub(hub: Hub) returns (status: Status)
      requires Running()
      modifies this`s, this`trace
      ensures Running() && OnlyWalks(old(s), s) && old(trace) <= trace
      ensures status == Success || status == Timeout
      ensures status == Success ==> forall x :: x in Tlb(s, hub) ==> InTable(s.table, x)
    {
      var acknowledged: bool := *;
      var kept: set<Xlat> := *;
      var left := if acknowledged then {} else Tlb(s, hub) * kept;
      EvictionKeepsInv(s, hub, left);
      s := WithTlb(s, hub, left);
      Record();
      GpuWalks();
      return if acknowledged then Success else Timeout;
    }

    /** gart_invalidate: MMHUB first, then GFXHUB; the first failure is returned. */
    method Invalidate() returns (status: Status)
      requires Running()
      modifies this`s, this`trace
      ensures Running() && OnlyWalks(old(s), s) && old(trace) <= trace
      ensures status == Success || status == Timeout
      ensures status == Success ==> forall x :: x in s.mm || x in s.gfx ==> InTable(s.table, x)
    {
      status := FlushHub(MMHUB);
      if status != Success {
        return;
      }
      status := FlushHub(GFXHUB);
    }

    // ---- Binding -----------------------------------------------------------------

    predicate TableRange(offset: nat, bytes: nat)
      reads this
    {
      && enabled && bytes != 0 && offset % GPU_PAGE == 0 && bytes % GPU_PAGE == 0
      && offset <= gartSize && bytes <= gartSize - offset
      && offset / GPU_PAGE <= |s.table| && bytes / GPU_PAGE <= |s.table| - offset / GPU_PAGE
      && tableInBar
    }

    /** The binding owns its reservation while its part of `table` is still CLEAR, so whatever a later
        write leaves there is explained by a binding, and the allocator does not grant the range again. */
    method ReserveAndPublish(k: nat, busAddr: nat, bytes: nat, alignment: nat, keeper: Keeper) returns (ok: bool)
      requires Table() && enabled && k in s.bindings && !Held(s.bindings[k])
      requires PowerOfTwo(alignment) && alignment <= U64_MAX && BusRange(busAddr, bytes)
      requires Backed(s, EMPTY.(busAddr := busAddr, sizeBytes := bytes, keeper := keeper))
      requires keeper.Command? ==> forall j :: j in s.bindings ==> s.bindings[j].keeper != keeper
      modifies this`s, allocator`lastID, allocator.records
      ensures Table() && k in s.bindings && old(allocator.lastID) <= allocator.lastID
      ensures !ok ==> s == old(s) && allocator.Live() == old(allocator.Live())
      ensures ok ==>
                var r := ReservationOf(s.bindings[k]);
                && r !in old(allocator.Live()) && r.id > old(allocator.lastID)
                && allocator.Live() == old(allocator.Live()) + {r}
                && Held(s.bindings[k]) && (gartStart + r.offset) % alignment == 0
                && s == old(s).(bindings := old(s).bindings[k := NewBinding(busAddr, bytes, r, gartStart, false, keeper)])
    {
      hide Inv, Agrees, Fits, WellFormed, NothingFitsBelow, PowerOfTwo;
      var r;
      ok, r := allocator.Reserve(bytes, alignment);
      if !ok {
        return;
      }
      var b := NewBinding(busAddr, bytes, r, gartStart, false, keeper);
      PublicationIsSound(s, k, b, r, old(allocator.Live()), allocator.base, allocator.size);
      s := s.(bindings := s.bindings[k := b]);
    }

    /** The PTE loop. A failed readback stops it, with the binding still owning the range. */
    method WriteEntries(k: nat) returns (status: Status)
      requires Running() && k in s.bindings && Held(s.bindings[k]) && Backed(s, s.bindings[k])
      modifies this`s, this`trace
      ensures Running() && old(trace) <= trace && OnlyTable(old(s), s) && SameOutside(old(s), s, s.bindings[k])
      ensures status == Success ==> Complete(s, s.bindings[k])
    {
      var b := s.bindings[k];
      for i := 0 to b.numGPUPages
        invariant Running() && old(trace) <= trace && OnlyTable(old(s), s)
        invariant SameOutside(old(s), s, b)
        invariant forall p :: First(b) <= p < First(b) + i ==> s.table[p] == Expected(b, p)
      {
        status := WriteVerified(k, First(b) + i, [PteFor(b.busAddr + i * GPU_PAGE)]);
        if status != Success {
          return;
        }
      }
      return Success;
    }

    /** Entries, both invalidations, and only then `ready`. */
    method Upload(k: nat, ghost live: set<Reservation>, ghost base: nat) returns (status: Status)
      requires Running() && Agrees(s, live, base) && k in s.bindings && Held(s.bindings[k]) && !s.bindings[k].ready
      modifies this`s, this`trace
      ensures Running() && Agrees(s, live, base) && old(trace) <= trace
      ensures OnlyTable(old(s), s.(bindings := old(s).bindings))
      ensures s.bindings == old(s).bindings[k := old(s).bindings[k].(ready := status == Success)]
      ensures SameOutside(old(s), s, old(s).bindings[k])
      ensures status == Success ==> Complete(s, s.bindings[k])
    {
      hide Inv;
      var b := s.bindings[k];
      assert BindingAgrees(s, live, base, b);
      hide Agrees;
      status := WriteEntries(k);
      WritesAgree(old(s), s, k, live, base);
      if status != Success {
        assert s.bindings == s.bindings[k := b.(ready := false)];
        return;
      }
      ghost var written := s;
      status := Invalidate();
      WalksAgree(written, s, live, base);
      if status != Success {
        assert s.bindings == s.bindings[k := b.(ready := false)];
        return;
      }
      RelabelKeepsInv(s, k, b.(ready := true));
      RelabelAgrees(s, k, b.(ready := true), live, base);
      s := s.(bindings := s.bindings[k := b.(ready := true)]);
    }

    method BindFresh(k: nat, busAddr: nat, bytes: nat, alignment: nat, keeper: Keeper) returns (status: Status)
      requires Table() && enabled && k in s.bindings && !Held(s.bindings[k])
      requires s.bindings[k].buffer == 0 && s.bindings[k].command == 0
      requires PowerOfTwo(alignment) && alignment <= U64_MAX && BusRange(busAddr, bytes)
      requires Backed(s, EMPTY.(busAddr := busAddr, sizeBytes := bytes, keeper := keeper))
      requires keeper.Command? ==> forall j :: j in s.bindings ==> s.bindings[j].keeper != keeper
      modifies this`s, this`trace, allocator`lastID, allocator.records
      ensures Table() && old(trace) <= trace && old(allocator.lastID) <= allocator.lastID
      ensures Bound(old(s), s, k, busAddr, bytes, alignment, keeper, gartStart, status,
                    old(allocator.Live()), allocator.Live(), old(allocator.lastID))
    {
      hide Inv, Agrees, Objects, Safe, WellFormed, Bound, PowerOfTwo, LiveIn, BusRange, SameOutside, Complete;
      PowerIsPositive(alignment);
      var reserved := ReserveAndPublish(k, busAddr, bytes, alignment, keeper);
      if !reserved {
        NothingBound(s, k, busAddr, bytes, alignment, keeper, gartStart, allocator.Live(), old(allocator.lastID));
        return NoSpace;
      }
      ghost var published := s;
      status := Upload(k, allocator.Live(), allocator.base);
      PublishedIsBound(old(s), published, s, k, busAddr, bytes, alignment, keeper, gartStart, status,
                       ReservationOf(published.bindings[k]), old(allocator.Live()), old(allocator.lastID));
    }

    method BindRange(k: nat, busAddr: nat, bytes: nat, alignment: nat, keeper: Keeper) returns (status: Status)
      requires Table() && k in s.bindings && alignment <= U64_MAX
      // The caller's promise: the bus range stays prepared, by a mapping no other binding uses.
      requires BusRange(busAddr, bytes) ==> Backed(s, EMPTY.(busAddr := busAddr, sizeBytes := bytes, keeper := keeper))
      requires keeper.Command? ==> forall j :: j in s.bindings ==> s.bindings[j].keeper != keeper
      modifies this`s, this`trace, allocator`lastID, allocator.records
      ensures Table() && old(trace) <= trace && old(allocator.lastID) <= allocator.lastID
      ensures Bound(old(s), s, k, busAddr, bytes, alignment, keeper, gartStart, status,
                    old(allocator.Live()), allocator.Live(), old(allocator.lastID))
    {
      hide Inv;
      var b := s.bindings[k];
      assert BindingAgrees(s, allocator.Live(), allocator.base, b);
      if b.buffer != 0 || b.command != 0 {
        return BadArgument;
      }
      if !enabled {
        return NotReady;
      }
      if !BusRange(busAddr, bytes) || alignment < GPU_PAGE || !PowerOfTwo(alignment) {
        return BadArgument;
      }
      if b.owned || b.numGPUPages != 0 {
        var owns := allocator.Owns(b.reservationID, b.gartOffset, bytes);
        if !b.owned || !b.ready || b.busAddr != busAddr || b.sizeBytes != bytes || b.gartMCAddr % alignment != 0 || !owns {
          return Busy;
        }
        return Success;
      }
      var found, offset, slot := allocator.Find(bytes, alignment);
      if !found || !TableRange(offset, bytes) {
        return NoSpace;
      }
      status := BindFresh(k, busAddr, bytes, alignment, keeper);
    }

    /** gart_bind_existing: the caller keeps the DMA mapping, also after a failure that published. */
    method BindExisting(k: nat, busAddr: nat, bytes: nat) returns (status: Status)
      requires Valid() && k in s.bindings && (BusRange(busAddr, bytes) ==> Region(busAddr, bytes) in s.pinned)
      modifies this`s, this`trace, allocator`lastID, allocator.records
      ensures Valid() && old(trace) <= trace && old(allocator.lastID) <= allocator.lastID
      ensures Bound(old(s), s, k, busAddr, bytes, GPU_PAGE, Caller, gartStart, status,
                    old(allocator.Live()), allocator.Live(), old(allocator.lastID))
    {
      hide Inv, Agrees;
      PageIsPowerOfTwo();
      status := BindRange(k, busAddr, bytes, GPU_PAGE, Caller);
      SettingKeepsObjects(old(s).bindings, s.prepared, buffers, commands, {}, k, s.bindings[k]);
    }

    // ---- Unbinding ---------------------------------------------------------------

    method ClearAndFlush(k: nat, ghost live: set<Reservation>, ghost base: nat) returns (status: Status)
      requires Running() && Agrees(s, live, base) && k in s.bindings && Held(s.bindings[k]) && !s.bindings[k].ready
      modifies this`s, this`trace
      ensures Running() && Agrees(s, live, base) && old(trace) <= trace
      ensures OnlyTable(old(s), s) && SameOutside(old(s), s, s.bindings[k])
      ensures status == Success ==> Quiet(s, s.bindings[k])
    {
      var b := s.bindings[k];
      assert Shaped(s, b);
      hide Inv, Agrees, Complete, Quiet, Safe;
      status := ClearVerified(k, First(b), b.numGPUPages);
      WritesAgree(old(s), s, k, live, base);
      if status != Success {
        return;
      }
      ghost var cleared := s;
      status := Invalidate();
      WalksAgree(cleared, s, live, base);
      if status == Success {
        ClearedAndFlushedIsQuiet(s, b);
      }
    }

    /** The device-visible half of gart_unbind. */
    method Detach(k: nat, ghost live: set<Reservation>, ghost base: nat) returns (status: Status)
      requires Running() && Agrees(s, live, base) && k in s.bindings && Held(s.bindings[k])
      modifies this`s, this`trace
      ensures Running() && Agrees(s, live, base) && old(trace) <= trace
      ensures OnlyTable(old(s), s.(bindings := old(s).bindings)) && SameOutside(old(s), s, old(s).bindings[k])
      ensures s.bindings == old(s).bindings[k := old(s).bindings[k].(ready := false)]
      ensures status == Success ==> Quiet(s, old(s).bindings[k])
    {
      hide Inv, Agrees, Complete, Quiet, Safe;
      var b := s.bindings[k].(ready := false);
      RelabelKeepsInv(s, k, b);
      RelabelAgrees(s, k, b, live, base);
      s := s.(bindings := s.bindings[k := b]);
      status := ClearAndFlush(k, live, base);
      QuietDependsOnPages(s, b, old(s).bindings[k]);
    }

    /** IODMACommand::CompleteDMA for a binding nothing can reach any more. */
    method CompleteDma(k: nat) returns (ok: bool)
      requires Running() && k in s.bindings && Quiet(s, s.bindings[k])
      requires forall j :: j in s.bindings && j != k ==> s.bindings[j].keeper != Command(s.bindings[k].command)
      modifies this`s, this`trace
      ensures Running() && old(trace) <= trace && k in s.bindings && Quiet(s, s.bindings[k])
      ensures s == old(s).(mm := s.mm, gfx := s.gfx, prepared := s.prepared)
      ensures s.prepared == if ok then old(s).prepared - {s.bindings[k].command} else old(s).prepared
    {
      ok := *;
      if ok {
        CompletionKeepsInv(s, k, s.bindings[k].command);
        hide Inv;
        s := s.(prepared := s.prepared - {s.bindings[k].command});
        Record();
      }
      ghost var completed := s;
      hide Inv;
      GpuWalks();
      QuietAfterWalks(completed, s, s.bindings[k]);
    }

    /** Nothing can reach the binding any more: release what it owned. */
    method Discard(k: nat, ghost before: State, ghost retired: State)
      requires Running() && Geometry() && k in s.bindings && Quiet(s, s.bindings[k])
      requires k in before.bindings && Objects(before.bindings, before.prepared, buffers, commands, {})
      requires forall x :: x in buffers || x in commands ==> x <= lastObject
      requires retired == before.(bindings := before.bindings[k := EMPTY], prepared := before.prepared - {before.bindings[k].command})
      requires s == before.(mm := s.mm, gfx := s.gfx, prepared := retired.prepared)
      requires var b := s.bindings[k];
               Agrees(retired, allocator.Live() - (if Held(b) then {ReservationOf(b)} else {}), allocator.base)
      modifies this`s, this`buffers, this`commands, allocator.records
      ensures Valid() && buffers == old(buffers) - {before.bindings[k].buffer} && commands == old(commands) - {before.bindings[k].command}
      ensures Unbound(before, s, k, Success, old(allocator.Live()), allocator.Live())
    {
      hide Inv, Quiet, Agrees, Objects, WellFormed, Unbound;
      var b := s.bindings[k];
      ghost var live := allocator.Live() - (if Held(b) then {ReservationOf(b)} else {});
      DropKeepsInv(s, k, EMPTY);
      QuietTransfers(s, s.(bindings := s.bindings[k := EMPTY]));
      ReleaseObjects(before.bindings, before.prepared, buffers, commands, k);
      buffers, commands := buffers - {b.buffer}, commands - {b.command};
      if b.numGPUPages != 0 {
        var released := allocator.Release(b.reservationID, b.gartOffset, b.sizeBytes);
      }
      s := s.(bindings := s.bindings[k := EMPTY]);
      assert allocator.Live() == live;
      WalksAgree(retired, s, live, allocator.base);
      RetirementUnbinds(before, s, k, old(allocator.Live()), live);
    }

    /** Complete DMA if it is prepared, then drop objects, reservation and binding. */
    method Retire(k: nat) returns (status: Status)
      requires Valid() && k in s.bindings && Quiet(s, s.bindings[k])
      modifies this`s, this`trace, this`buffers, this`commands, allocator.records
      ensures Valid() && old(trace) <= trace
      ensures Unbound(old(s), s, k, status, old(allocator.Live()), allocator.Live())
      ensures buffers == if status == Success then old(buffers) - {old(s).bindings[k].buffer} else old(buffers)
      ensures commands == if status == Success then old(commands) - {old(s).bindings[k].command} else old(commands)
    {
      hide Inv, Quiet, Complete, Objects, WellFormed, Unbound;
      var b := s.bindings[k];
      CommandHasOneOwner(s.bindings, s.prepared, buffers, commands, k);
      RetirementAgrees(s, k, allocator.Live(), allocator.base);
      ghost var retired := s.(bindings := s.bindings[k := EMPTY], prepared := s.prepared - {b.command});
      hide Agrees;
      if b.command != 0 && b.dmaPrepared {
        var completed := CompleteDma(k);
        if !completed {
          WalksAgree(old(s), s, allocator.Live(), allocator.base);
          RejectedUnbindRetains(old(s), s, k, IOError, allocator.Live());
          return IOError;
        }
      }
      Discard(k, old(s), retired);
      return Success;
    }

    /** gart_unbind: clear the entries, invalidate both hubs, complete DMA, and only then release. */
    method Unbind(k: nat) returns (status: Status)
      requires Valid() && k in s.bindings
      modifies this`s, this`trace, this`buffers, this`commands, allocator.records
      ensures Valid() && old(trace) <= trace
      ensures Unbound(old(s), s, k, status, old(allocator.Live()), allocator.Live())
      ensures buffers == if status == Success then old(buffers) - {old(s).bindings[k].buffer} else old(buffers)
      ensures commands == if status == Success then old(commands) - {old(s).bindings[k].command} else old(commands)
    {
      hide Inv, Agrees, Objects, Quiet, Unbound;
      var b := s.bindings[k];
      if b.numGPUPages != 0 {
        var owns := allocator.Owns(b.reservationID, b.gartOffset, b.sizeBytes);
        if !b.owned || !owns || b.sizeBytes / GPU_PAGE != b.numGPUPages || !TableRange(b.gartOffset, b.sizeBytes) {
          RejectedUnbindRetains(s, s, k, BadArgument, allocator.Live());
          return BadArgument;
        }
        status := Detach(k, allocator.Live(), allocator.base);
        FlagKeepsObjects(old(s).bindings, s.prepared, buffers, commands, k, false);
        if status != Success {
          FailedDetachRetains(old(s), s, k, status, allocator.Live());
          return;
        }
        ghost var mid := s;
        QuietDependsOnPages(s, b, s.bindings[k]);
        status := Retire(k);
        DetachThenRetire(old(s), mid, s, k, status, old(allocator.Live()), allocator.Live());
        return;
      }
      UnheldIsQuiet(s, b);
      status := Retire(k);
    }

    // ---- System memory -----------------------------------------------------------

    /** The buffer, its CPU mapping and its DMA mapping. Every failure releases what was made. */
    method AllocateBacking(bytes: nat) returns (status: Status, buffer: nat, command: nat, segment: Region, count: nat)
      requires Valid()
      modifies this`s, this`buffers, this`commands, this`lastObject
      ensures Table() && (forall x :: x in buffers || x in commands ==> x <= lastObject)
      ensures status != Success ==> Valid() && s == old(s) && buffers == old(buffers) && commands == old(commands)
      ensures status == Success ==>
                && buffer != 0 && command != 0 && buffer !in old(buffers) + old(commands) && command !in old(buffers) + old(commands)
                && buffer != command && buffers == old(buffers) + {buffer} && commands == old(commands) + {command}
                && s == old(s).(prepared := old(s).prepared[command := segment])
                && Objects(s.bindings, s.prepared, buffers, commands, {buffer, command})
                && (forall j :: j in s.bindings ==> s.bindings[j].keeper != Command(command))
    {
      hide Inv, Agrees, Objects, WellFormed, Safe;
      buffer, command, segment, count := 0, 0, Region(0, 0), 0;
      var created: bool := *;
      if !created {
        return NoMemory, buffer, command, segment, count;
      }
      lastObject := lastObject + 1;
      buffer := lastObject;
      buffers := buffers + {buffer};
      var lengthSet: bool, mapped: bool := *, *;
      if !lengthSet || !mapped {
        buffers := buffers - {buffer};
        return if !lengthSet then IOError else NoMemory, buffer, command, segment, count;
      }
      var dmaCreated: bool := *;
      if !dmaCreated {
        buffers := buffers - {buffer};
        return NoMemory, buffer, command, segment, count;
      }
      lastObject := lastObject + 1;
      command := lastObject;
      commands := commands + {command};
      var preparedOk: bool := *;
      if !preparedOk {
        buffers, commands := buffers - {buffer}, commands - {command};
        return IOError, buffer, command, segment, count;
      }
      var address: nat, length: nat, segments: nat :| true;
      segment, count := Region(address, length), segments;
      KeepersAreAlive(s.bindings, s.prepared, old(buffers), old(commands));
      PreparingIsSound(s, command, segment, allocator.Live(), allocator.base);
      NewObjectsAreLoose(s.bindings, s.prepared, old(buffers), old(commands), buffer, command, segment);
      s := s.(prepared := s.prepared[command := segment]);
      return Success, buffer, command, segment, count;
    }

    ghost predicate HasLoose(k: nat, buffer: nat, command: nat)
      reads this
    {
      && buffer != 0 && command != 0 && buffer in buffers && command in commands && buffer !in commands && command !in buffers
      && command in s.prepared && Objects(s.bindings, s.prepared, buffers, commands, {buffer, command})
      && (forall x :: x in buffers || x in commands ==> x <= lastObject)
      && k in s.bindings && s.bindings[k].buffer == 0 && s.bindings[k].command == 0
      && (forall j :: j in s.bindings && j != k ==> s.bindings[j].keeper != Command(command))
    }

    method AdoptBacking(k: nat, buffer: nat, command: nat)
      requires Table() && HasLoose(k, buffer, command)
      requires s.bindings[k].keeper.Command? ==> s.bindings[k].keeper.id == command
      modifies this`s
      ensures Valid() && s == old(s).(bindings := old(s).bindings[k := Adopt(old(s).bindings[k], buffer, command)])
    {
      var b := Adopt(s.bindings[k], buffer, command);
      assert BindingAgrees(s, allocator.Live(), allocator.base, s.bindings[k]);
      hide Inv, Agrees, Objects;
      AdoptionKeepsObjects(s.bindings, s.prepared, buffers, commands, k, buffer, command);
      RelabelKeepsInv(s, k, b);
      RelabelAgrees(s, k, b, allocator.Live(), allocator.base);
      s := s.(bindings := s.bindings[k := b]);
    }

    /** The bind itself, while the new objects are still in the caller's locals. */
    method BindLoose(k: nat, busAddr: nat, bytes: nat, alignment: nat, buffer: nat, command: nat) returns (status: Status)
      requires Table() && HasLoose(k, buffer, command) && !Held(s.bindings[k]) && !s.bindings[k].keeper.Command?
      requires alignment <= U64_MAX && BusRange(busAddr, bytes)
      requires s.prepared[command].bus == busAddr && bytes <= s.prepared[command].bytes
      modifies this`s, this`trace, allocator`lastID, allocator.records
      ensures Table() && HasLoose(k, buffer, command) && old(trace) <= trace && old(allocator.lastID) <= allocator.lastID
      ensures NewIdsOnly(old(allocator.Live()), old(allocator.lastID), allocator.Live())
      ensures BoundBacked(old(s), s, k, bytes, alignment, 0, 0, command, status)
      ensures s.bindings[k].keeper.Command? ==> s.bindings[k].keeper.id == command
    {
      LooseIsUnprepared(s.bindings, s.prepared, buffers, commands, {buffer, command}, k);
      hide Inv, Agrees, Objects, Complete, WellFormed, Safe, SameOutside, Bound, BusRange, NewIdsOnly, LiveIn, Held;
      status := BindRange(k, busAddr, bytes, alignment, Command(command));
      BoundKeepsPointers(old(s), s, k, busAddr, bytes, alignment, command, gartStart, status,
                         old(allocator.Live()), allocator.Live(), old(allocator.lastID), buffers, commands, {buffer, command});
    }

    /** Bind the prepared segment, then record the objects in the binding, whatever the outcome. */
    method BindBacked(k: nat, busAddr: nat, bytes: nat, alignment: nat, buffer: nat, command: nat) returns (status: Status)
      requires Table() && HasLoose(k, buffer, command) && !Held(s.bindings[k]) && !s.bindings[k].keeper.Command?
      requires alignment <= U64_MAX && BusRange(busAddr, bytes)
      requires s.prepared[command].bus == busAddr && bytes <= s.prepared[command].bytes
      modifies this`s, this`trace, allocator`lastID, allocator.records
      ensures Valid() && old(trace) <= trace && old(allocator.lastID) <= allocator.lastID
      ensures NewIdsOnly(old(allocator.Live()), old(allocator.lastID), allocator.Live())
      ensures BoundBacked(old(s), s, k, bytes, alignment, buffer, command, command, status)
    {
      hide HasLoose, Geometry, Inv, Agrees, Objects, Complete, WellFormed, Safe, SameOutside, BoundBacked, BusRange, NewIdsOnly, LiveIn, Held, Adopt;
      status := BindLoose(k, busAddr, bytes, alignment, buffer, command);
      ghost var bound := s;
      AdoptBacking(k, buffer, command);
      AdoptedIsBacked(old(s), bound, s, k, bytes, alignment, buffer, command, status);
    }

    /** With the backing made: bind it, and undo everything if nothing was published. */
    method BindOrUndo(k: nat, segment: Region, count: nat, bytes: nat, alignment: nat, buffer: nat, command: nat) returns (status: Status)
      requires Table() && HasLoose(k, buffer, command) && !Held(s.bindings[k]) && !s.bindings[k].keeper.Command?
      requires alignment <= U64_MAX && s.prepared[command] == segment
      modifies this`s, this`trace, this`buffers, this`commands, allocator`lastID, allocator.records
      ensures Valid() && old(trace) <= trace && old(allocator.lastID) <= allocator.lastID
      ensures NewIdsOnly(old(allocator.Live()), old(allocator.lastID), allocator.Live())
      ensures BackedOutcome(old(s), s, k, old(buffers), buffers, old(commands), commands, buffer, command)
      ensures status == Success ==> SysmemBound(s, k, bytes, alignment) && s.bindings[k].command == command
    {
      hide Inv, Agrees, Objects, Quiet, Complete, WellFormed, Safe;
      if count != 1 || segment.bytes < bytes || !BusRange(segment.bus, bytes) {
        AdoptBacking(k, buffer, command);
        status := Unbind(k);
        status := if status != Success then status else NotAligned;
      } else {
        status := BindBacked(k, segment.bus, bytes, alignment, buffer, command);
        if status != Success && s.bindings[k].numGPUPages == 0 {
          var cleanup := Unbind(k);
          status := if cleanup != Success then cleanup else status;
        }
      }
    }

    /** gart_bind_sysmem. On failure the binding either owns everything that could not be undone,
        or nothing is left behind. */
    method BindSysmem(k: nat, sizeBytes: nat, requestedAlignment: nat) returns (status: Status)
      requires Valid() && k in s.bindings && requestedAlignment <= U64_MAX
      modifies this`s, this`trace, this`buffers, this`commands, this`lastObject, allocator`lastID, allocator.records
      ensures Valid() && old(trace) <= trace && old(allocator.lastID) <= allocator.lastID
      ensures NewIdsOnly(old(allocator.Live()), old(allocator.lastID), allocator.Live())
      ensures SysmemOutcome(old(s), s, k, old(buffers), buffers, old(commands), commands)
      ensures status == Success ==>
                var alignment := if requestedAlignment < AS_PAGE then AS_PAGE else requestedAlignment;
                SysmemBound(s, k, RoundUp(sizeBytes, alignment), alignment) && s.bindings[k].command != old(s).bindings[k].command
    {
      hide Inv, Agrees, Objects, Quiet, WellFormed, Fits, NothingFitsBelow, SysmemBound, SysmemOutcome, Safe;
      KeepersAreAlive(s.bindings, s.prepared, buffers, commands);
      var b := s.bindings[k];
      NothingHappened(s, k, buffers, commands);
      if b.owned || b.numGPUPages != 0 || b.buffer != 0 || b.command != 0 {
        return BadArgument;
      }
      if !enabled {
        return NotReady;
      }
      var alignment := if requestedAlignment < AS_PAGE then AS_PAGE else requestedAlignment;
      if !PowerOfTwo(alignment) || sizeBytes == 0 || sizeBytes > U64_MAX - (alignment - 1) {
        return BadArgument;
      }
      var rounded := RoundUp(sizeBytes, alignment);
      hide PowerOfTwo, RoundUp;
      var found, offset, slot := allocator.Find(rounded, alignment);
      if !found || !TableRange(offset, rounded) {
        return NoSpace;
      }
      var buffer, command, segment, count;
      status, buffer, command, segment, count := AllocateBacking(rounded);
      if status != Success {
        return;
      }
      status := BindOrUndo(k, segment, count, rounded, alignment, buffer, command);
      BackingIsNew(old(s), s, k, old(buffers), buffers, old(commands), commands, buffer, command, segment);
    }

    // ---- The aperture ------------------------------------------------------------

    predicate ApertureUsable()
      reads this`gmcSize, this`gmcStart, this`s
    {
      && gmcInited && gmcSize != 0 && gmcSize % GPU_PAGE == 0 && gmcStart % GPU_PAGE == 0
      && gmcSize / GPU_PAGE <= U32_MAX && gmcSize / GPU_PAGE <= |s.table|
      && gmcStart <= U64_MAX - gmcSize && tableInBar
    }

    lemma UsableApertureFits()
      requires ApertureUsable()
      ensures gmcSize / GPU_PAGE <= |s.table| && gmcSize > 0 && gmcStart + gmcSize <= U64_MAX
      ensures gmcSize % GPU_PAGE == 0 && gmcStart % GPU_PAGE == 0
    {
    }

    /** The allocator is new, or on this aperture already. */
    predicate Adoptable()
      reads this`gmcStart, this`gmcSize, this`allocator, allocator
    {
      allocator.initialized ==> allocator.base == gmcStart && allocator.size == gmcSize
    }

    /** The allocator takes over the aperture, or already has. */
    method InitAllocator() returns (ok: bool)
      requires Valid() && !enabled && ApertureUsable() && gmcStart <= U64_MAX && gmcSize <= U64_MAX
      modifies allocator
      ensures Valid() && allocator.Live() == old(allocator.Live()) && allocator.lastID == old(allocator.lastID)
      ensures ok ==> allocator.initialized && allocator.base == gmcStart && allocator.size == gmcSize
      ensures ok <==> old(Adoptable())
    {
      UsableApertureFits();
      hide Inv, Agrees, Objects, Safe, WellFormed, ApertureUsable, LiveIn;
      if !allocator.initialized {
        allocator.EmptyUntilInitialized();
        EmptyApertureMoves(s, allocator.base, gmcStart);
      }
      ok := allocator.Init(gmcStart, gmcSize);
    }

    /** The GART on the allocator's aperture. */
    method Enable()
      requires Valid() && allocator.initialized && allocator.base == gmcStart && allocator.size == gmcSize
      modifies this`enabled, this`gartStart, this`gartSize, this`readsSupported, this`hostWindowConfigured
      ensures Valid() && enabled && gartStart == gmcStart && gartSize == gmcSize && !readsSupported && !hostWindowConfigured
    {
      hide Inv, Agrees, Objects, Safe, WellFormed, LiveIn;
      enabled, gartStart, gartSize := true, gmcStart, gmcSize;
      readsSupported, hostWindowConfigured := false, false;
    }

    /** gart_init: adopt the aperture that GMC enabled. */
    method Init() returns (status: Status)
      requires Valid() && gmcStart <= U64_MAX && gmcSize <= U64_MAX
      modifies this`enabled, this`gartStart, this`gartSize, this`readsSupported, this`hostWindowConfigured, allocator
      ensures Valid() && s == old(s) && allocator.Live() == old(allocator.Live()) && allocator.lastID == old(allocator.lastID)
      ensures status == Success <==> ApertureUsable() && old(Adoptable())
      ensures status == Success ==> enabled && gartStart == gmcStart && gartSize == gmcSize && !readsSupported && !hostWindowConfigured
      ensures status != Success ==> status == NotReady && !enabled
    {
      hide Inv, Agrees, Objects, Safe, WellFormed, ApertureUsable, Adoptable, LiveIn;
      enabled := false;
      if !ApertureUsable() {
        return NotReady;
      }
      var ok := InitAllocator();
      if !ok {
        return NotReady;
      }
      Enable();
      return Success;
    }

    /** gmc_program_gart_window: per hub, program, read back, flush; the first failure is returned. */
    method ProgramWindow() returns (status: Status)
      requires Running()
      modifies this`s, this`trace
      ensures Running() && OnlyWalks(old(s), s) && old(trace) <= trace && status in {Success, IOError, Timeout}
      ensures status == Success ==> forall x :: x in s.mm || x in s.gfx ==> InTable(s.table, x)
    {
      GpuWalks();
      var hubs := [MMHUB, GFXHUB];
      for i := 0 to 2
        invariant Running() && OnlyWalks(old(s), s) && old(trace) <= trace
        invariant i > 0 ==> forall x :: x in s.mm ==> InTable(s.table, x)
        invariant i > 1 ==> forall x :: x in s.gfx ==> InTable(s.table, x)
      {
        var readback: bool := *;
        if !readback {
          return IOError;
        }
        status := FlushHub(hubs[i]);
        if status != Success {
          return;
        }
      }
      return Success;
    }

    /** The base of GART, GMC and allocator in one step, with no reservation to disturb. */
    method SetBase(base: nat)
      requires Valid() && enabled && allocator.Live() == {} && HostWindowValid(base, gartSize, fbStart, fbEnd)
      modifies this`gartStart, this`gmcStart, this`hostWindowConfigured, this`readsSupported, allocator`base
      ensures Valid() && allocator.Live() == {} && allocator.lastID == old(allocator.lastID)
      ensures hostWindowConfigured && gartStart == gmcStart == allocator.base == base
    {
      EmptyApertureMoves(s, allocator.base, base);
      WindowIsPageAligned(base, gartSize);
      hide Inv, Agrees, Objects, Safe, WellFormed;
      hostWindowConfigured, readsSupported := true, false;
      gartStart, gmcStart := base, base;
      allocator.base := base;
    }

    /** The mutation of gart_configure_host_window, with nothing reserved. */
    method MoveWindow(base: nat) returns (status: Status)
      requires Valid() && enabled && allocator.Live() == {} && HostWindowValid(base, gartSize, fbStart, fbEnd)
      modifies this`s, this`trace, this`gartStart, this`gmcStart, this`hostWindowConfigured, this`readsSupported, allocator`base
      ensures Valid() && old(trace) <= trace && allocator.Live() == {} && allocator.lastID == old(allocator.lastID)
      ensures s == old(s).(mm := s.mm, gfx := s.gfx) && hostWindowConfigured && gartStart == gmcStart == allocator.base == base
      ensures status in {Success, IOError, Timeout}
    {
      hide Inv, Agrees, Objects, Safe, WellFormed, HostWindowValid;
      SetBase(base);
      status := ProgramWindow();
      WalksAgree(old(s), s, {}, base);
    }

    /** gart_configure_host_window: moves the aperture once, and only while nothing is mapped. */
    method ConfigureHostWindow(base: nat) returns (status: Status)
      requires Valid() && base <= U64_MAX
      modifies this`s, this`trace, this`gartStart, this`gmcStart, this`hostWindowConfigured, this`readsSupported, allocator`base
      ensures Valid() && old(trace) <= trace && allocator.Live() == old(allocator.Live()) && allocator.lastID == old(allocator.lastID)
      ensures s == old(s).(mm := s.mm, gfx := s.gfx) && (gmcStart == old(gmcStart) || gmcStart == base)
      ensures status == NotReady <==> !enabled
      ensures status == BadArgument <==> enabled && !old(hostWindowConfigured) && !HostWindowValid(base, gartSize, fbStart, fbEnd)
      ensures status == Busy <==>
                enabled && !old(hostWindowConfigured) && HostWindowValid(base, gartSize, fbStart, fbEnd) && allocator.Live() != {}
      // Beyond these refusals the window counts as moved, whether or not the hubs took it.
      ensures hostWindowConfigured == (old(hostWindowConfigured) || (enabled && status !in {BadArgument, Busy}))
      // A live mapping never moves, and the window never moves twice.
      ensures gartStart != old(gartStart) ==>
                !old(hostWindowConfigured) && hostWindowConfigured && gartStart == base && HostWindowValid(base, gartSize, fbStart, fbEnd) &&
                forall k :: k in s.bindings ==> !Held(s.bindings[k])
      ensures status == Success ==> hostWindowConfigured && (!old(hostWindowConfigured) ==> gartStart == allocator.base == base)
    {
      hide Inv, Agrees, Objects, Safe, WellFormed, HostWindowValid;
      if !enabled {
        return NotReady;
      }
      if hostWindowConfigured {
        return Success;
      }
      if !HostWindowValid(base, gartSize, fbStart, fbEnd) {
        return BadArgument;
      }
      var used := allocator.BytesUsed();
      if used != 0 {
        return Busy;
      }
      EmptyApertureMoves(s, allocator.base, base);
      status := MoveWindow(base);
    }

    // ---- Reset -------------------------------------------------------------------

    /** After a verified reset only ownership of host objects is left to account for. */
    ghost predicate ResetDone()
      reads this
    {
      && s.isolated && !enabled && s.mm == {} && s.gfx == {}
      && AllSafe() && Objects(s.bindings, s.prepared, buffers, commands, {})
    }

    /** Function-level reset with bus mastering verified off. */
    method VerifiedReset()
      requires Valid()
      modifies this`s, this`trace, this`enabled
      ensures ResetDone() && s == old(s).(mm := {}, gfx := {}, isolated := true) && old(trace) <= trace
    {
      s := s.(mm := {}, gfx := {}, isolated := true);
      enabled := false;
      trace := trace + [s];
    }

    /** gart_release_after_reset: no register access, and the DMA command goes whatever CompleteDMA says. */
    method ReleaseAfterReset(k: nat)
      requires ResetDone() && k in s.bindings
      modifies this`s, this`buffers, this`commands
      ensures ResetDone() && s == old(s).(bindings := old(s).bindings[k := EMPTY], prepared := old(s).prepared - {old(s).bindings[k].command})
      ensures buffers == old(buffers) - {old(s).bindings[k].buffer} && commands == old(commands) - {old(s).bindings[k].command}
    {
      ReleaseObjects(s.bindings, s.prepared, buffers, commands, k);
      var b := s.bindings[k];
      buffers, commands := buffers - {b.buffer}, commands - {b.command};
      s := s.(prepared := s.prepared - {b.command}, bindings := s.bindings[k := EMPTY]);
    }

    /** The next session: once every binding has been released nothing leaked. The GMC may place the
        aperture anew, and the table is cleared before it is enabled again. */
    method Restart(entries: nat, start: nat, size: nat)
      requires ResetDone() && forall k :: k in s.bindings ==> s.bindings[k] == EMPTY
      modifies this
      ensures Valid() && !enabled && fresh(allocator) && fresh(allocator.records) && allocator.Live() == {}
      ensures buffers == {} && commands == {} && s.prepared == map[] && s.bindings == old(s).bindings
      ensures s.table == seq(entries, _ => CLEAR) && trace == old(trace) && gmcStart == start && gmcSize == size
      ensures session == old(session) + 1
    {
      hide Inv, Agrees, Objects, Safe, WellFormed, LiveIn;
      AllReleased(s.bindings, s.prepared, buffers, commands);
      NewSessionIsSound(s, entries);
      allocator := new GARTApertureAllocator();
      s := s.(table := seq(entries, _ => CLEAR), isolated := false);
      gmcStart, gmcSize, session := start, size, session + 1;
    }

    // ---- Runs --------------------------------------------------------------------

    /** A caller hands out a zeroed binding. */
    method AddBinding(k: nat)
      requires Valid() && k !in s.bindings
      modifies this`s
      ensures Valid() && s == old(s).(bindings := old(s).bindings[k := EMPTY])
    {
      EmptyBindingIsSound(s, k, allocator.Live(), allocator.base);
      EmptyBindingOwnsNothing(s.bindings, s.prepared, buffers, commands, k);
      hide Inv, Agrees, Objects;
      s := s.(bindings := s.bindings[k := EMPTY]);
    }

    /** A caller of gart_bind_existing prepares, and later gives up, its own DMA mapping. */
    method Pin(r: Region)
      requires Valid()
      modifies this`s
      ensures Valid() && s == old(s).(pinned := old(s).pinned + {r})
    {
      PinningIsSound(s, s.pinned + {r}, allocator.Live(), allocator.base);
      hide Inv, Agrees, Objects;
      s := s.(pinned := s.pinned + {r});
    }

    method Unpin(r: Region)
      // A held binding with keeper Caller is only backed by `pinned`, so its region stays there.
      requires Valid() && forall k :: k in s.bindings && Held(s.bindings[k]) && s.bindings[k].keeper == Caller ==>
                 Region(s.bindings[k].busAddr, s.bindings[k].sizeBytes) != r
      modifies this`s
      ensures Valid() && s == old(s).(pinned := old(s).pinned - {r})
    {
      PinningIsSound(s, s.pinned - {r}, allocator.Live(), allocator.base);
      hide Inv, Agrees, Objects;
      s := s.(pinned := s.pinned - {r});
    }

    /** Any call whose caller keeps its side: a known binding, and its own DMA mapping kept prepared
        for as long as a binding uses it. */
    method SessionStep(call: Call)
      requires Valid() && gmcStart <= U64_MAX && gmcSize <= U64_MAX
      modifies this, allocator, allocator.records
      ensures Valid() && gmcStart <= U64_MAX && gmcSize == old(gmcSize) && allocator == old(allocator) && session == old(session)
      ensures old(trace) <= trace && old(allocator.lastID) <= allocator.lastID
      ensures NewIdsOnly(old(allocator.Live()), old(allocator.lastID), allocator.Live())
    {
      var status := Success;
      hide Inv, Agrees, Objects, Safe, WellFormed, SysmemOutcome, SysmemBound, Quiet, Complete;
      match call {
        case AddCall(k) => if k !in s.bindings { AddBinding(k); }
        case PinCall(r) => Pin(r);
        case UnpinCall(r) =>
          if forall k :: k in s.bindings && Held(s.bindings[k]) && s.bindings[k].keeper == Caller ==>
               Region(s.bindings[k].busAddr, s.bindings[k].sizeBytes) != r {
            Unpin(r);
          }
        case ExistingCall(k, busAddr, bytes) =>
          if k in s.bindings && Region(busAddr, bytes) in s.pinned { status := BindExisting(k, busAddr, bytes); }
        case SysmemCall(k, bytes, alignment) =>
          if k in s.bindings && alignment <= U64_MAX { status := BindSysmem(k, bytes, alignment); }
        case UnbindCall(k) => if k in s.bindings { status := Unbind(k); }
        case WindowCall(base) => if base <= U64_MAX { status := ConfigureHostWindow(base); }
        case InitCall => status := Init();
        case WalkCall =>
          GpuWalks();
          WalksAgree(old(s), s, allocator.Live(), allocator.base);
        case _ => // a reset ends the session
      }
    }

    /** A session is running, or a verified reset has ended it. */
    ghost predicate Sound()
      reads this, allocator, allocator.records
    {
      (if s.isolated then ResetDone() else Valid()) && gmcStart <= U64_MAX && gmcSize <= U64_MAX
    }

    /** One call. Driver calls belong to a running session; releases and the restart follow its reset. */
    method Step(call: Call)
      requires Sound()
      modifies this, allocator, allocator.records
      ensures Sound() && old(trace) <= trace
      ensures allocator == old(allocator) || (fresh(allocator) && fresh(allocator.records))
      ensures old(session) <= session && (session == old(session) ==> allocator == old(allocator))
      ensures session == old(session) ==>
                old(allocator.lastID) <= allocator.lastID && NewIdsOnly(old(allocator.Live()), old(allocator.lastID), allocator.Live())
    {
      hide Inv, Agrees, Objects, Safe, WellFormed;
      if !s.isolated {
        if call.ResetCall? {
          VerifiedReset();
        } else {
          SessionStep(call);
        }
        return;
      }
      match call {
        case ReleaseCall(k) => if k in s.bindings { ReleaseAfterReset(k); }
        case RestartCall(entries, start, size) =>
          if start <= U64_MAX && size <= U64_MAX && forall k :: k in s.bindings ==> s.bindings[k] == EMPTY {
            Restart(entries, start, size);
          }
        case _ =>
      }
    }

    /** Every run over any number of sessions: every state the GPU could observe along the way is safe,
        tables and bindings agree at each return, and within a session no reservation identity is ever
        live twice. */
    method Run(calls: seq<Call>) returns (ghost log: seq<Snapshot>)
      requires Sound()
      modifies this, allocator, allocator.records
      ensures Sound() && old(trace) <= trace
      ensures forall i :: 0 <= i < |trace| ==> Safe(trace[i])
      ensures |log| == |calls| + 1 && OrderedIds(log)
      ensures log[0] == old(Snapshot(session, allocator.Live(), allocator.lastID))
      ensures log[|calls|] == Snapshot(session, allocator.Live(), allocator.lastID)
    {
      log := [Snapshot(session, allocator.Live(), allocator.lastID)];
      for i := 0 to |calls|
        invariant Sound() && old(trace) <= trace
        invariant allocator == old(allocator) || (fresh(allocator) && fresh(allocator.records))
        invariant |log| == i + 1 && OrderedIds(log) && log[0] == old(Snapshot(session, allocator.Live(), allocator.lastID))
        invariant log[i] == Snapshot(session, allocator.Live(), allocator.lastID)
      {
        hide OrderedIds, NewIdsOnly, Inv, Agrees, Objects, Safe, WellFormed;
        Step(calls[i]);
        ghost var next := Snapshot(session, allocator.Live(), allocator.lastID);
        OrderedIdsExtend(log, next);
        log := log + [next];
      }
    }
  }
}
