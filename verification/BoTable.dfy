/** A client's buffer table: up to 64 pages of 64 entries, allocated on demand, handles tagged with a
    client-wide generation. Models the BO helpers of dext/MacAMDGPU.cpp and their uses in BOAlloc,
    BOImport, BOFree and the client's release. */
module BoTable {
  import opened Words

  const PAGE_ENTRIES: nat := 64
  const MAX_PAGES: nat := 64
  const MAX_BO: nat := PAGE_ENTRIES * MAX_PAGES
  const GENERATION_UNIT: nat := 0x1_0000_0000

  datatype Entry = Entry(inUse: bool, generation: nat, payload: nat)
  const ZERO := Entry(false, 0, 0)

  datatype Status = Success | NoResources | NoMemory | BadArgument | Busy | Failed

  function MakeHandle(generation: nat, index: nat): nat {
    generation * GENERATION_UNIT + index
  }

  function HandleIndex(handle: nat): nat { handle % GENERATION_UNIT }
  function HandleGeneration(handle: nat): nat { handle / GENERATION_UNIT }

  lemma HandleRoundTrip(generation: nat, index: nat)
    requires index < GENERATION_UNIT
    ensures HandleIndex(MakeHandle(generation, index)) == index && HandleGeneration(MakeHandle(generation, index)) == generation
  {
    DivModUnique(MakeHandle(generation, index), GENERATION_UNIT, generation, index);
  }

  // ---- The table as a value ------------------------------------------------------------

  /** One sequence per page; an absent page is empty. */
  type Pages = seq<seq<Entry>>

  predicate WellFormed(t: Pages) {
    |t| == MAX_PAGES && forall p :: 0 <= p < MAX_PAGES ==> |t[p]| == 0 || |t[p]| == PAGE_ENTRIES
  }

  predicate Present(t: Pages, index: nat) {
    index / PAGE_ENTRIES < |t| && index % PAGE_ENTRIES < |t[index / PAGE_ENTRIES]|
  }

  function At(t: Pages, index: nat): Entry
    requires Present(t, index)
  {
    t[index / PAGE_ENTRIES][index % PAGE_ENTRIES]
  }

  /** mac_amdgpu_bo_lookup finds an entry for the handle. */
  predicate Resolves(t: Pages, handle: nat) {
    && Present(t, HandleIndex(handle)) && At(t, HandleIndex(handle)).inUse
    && At(t, HandleIndex(handle)).generation == HandleGeneration(handle)
  }

  /** The table and a plain map from handle to buffer say the same. */
  ghost predicate Refines(t: Pages, m: map<nat, nat>) {
    forall h: nat :: (h in m <==> Resolves(t, h)) && (h in m ==> m[h] == At(t, HandleIndex(h)).payload)
  }

  /** No generation beyond the counter is in use, so the next one is new to every slot. */
  ghost predicate Bounded(t: Pages, counter: nat) {
    forall index: nat :: Present(t, index) && At(t, index).inUse ==> 1 <= At(t, index).generation <= counter
  }

  function WithEntry(t: Pages, index: nat, e: Entry): Pages
    requires Present(t, index)
  {
    t[index / PAGE_ENTRIES := t[index / PAGE_ENTRIES][index % PAGE_ENTRIES := e]]
  }

  lemma WithEntryAt(t: Pages, index: nat, e: Entry)
    requires Present(t, index)
    ensures forall i: nat :: Present(WithEntry(t, index, e), i) <==> Present(t, i)
    ensures forall i: nat :: Present(t, i) ==> At(WithEntry(t, index, e), i) == if i == index then e else At(t, i)
  {
    forall i: nat | Present(t, i)
      ensures At(WithEntry(t, index, e), i) == if i == index then e else At(t, i)
    {
      if i / PAGE_ENTRIES == index / PAGE_ENTRIES && i % PAGE_ENTRIES == index % PAGE_ENTRIES {
        assert i == i / PAGE_ENTRIES * PAGE_ENTRIES + i % PAGE_ENTRIES;
        assert index == index / PAGE_ENTRIES * PAGE_ENTRIES + index % PAGE_ENTRIES;
      }
    }
  }

  /** Taking a free slot under a new generation adds exactly one handle to the map. */
  lemma InsertRefines(t: Pages, m: map<nat, nat>, index: nat, generation: nat, payload: nat)
    requires Refines(t, m) && Present(t, index) && !At(t, index).inUse && index < GENERATION_UNIT
    ensures var h := MakeHandle(generation, index);
            h !in m && Refines(WithEntry(t, index, Entry(true, generation, payload)), m[h := payload])
  {
    var h := MakeHandle(generation, index);
    HandleRoundTrip(generation, index);
    WithEntryAt(t, index, Entry(true, generation, payload));
    forall g: nat | HandleIndex(g) == index && HandleGeneration(g) == generation
      ensures g == h
    {
    }
  }

  lemma RemoveRefines(t: Pages, m: map<nat, nat>, h: nat, e: Entry)
    requires Refines(t, m) && h in m && !e.inUse
    ensures Refines(WithEntry(t, HandleIndex(h), e), m - {h})
  {
    WithEntryAt(t, HandleIndex(h), e);
    forall g: nat | HandleIndex(g) == HandleIndex(h) && HandleGeneration(g) == HandleGeneration(h)
      ensures g == h
    {
    }
  }

  /** A page without live entries may come and go. */
  predicate Idle(page: seq<Entry>) {
    forall i :: 0 <= i < |page| ==> !page[i].inUse
  }

  lemma SwapIdlePageRefines(t: Pages, m: map<nat, nat>, p: nat, page: seq<Entry>, counter: nat)
    requires Refines(t, m) && Bounded(t, counter) && p < |t| && Idle(t[p]) && Idle(page)
    ensures Refines(t[p := page], m) && Bounded(t[p := page], counter)
  {
    var n := t[p := page];
    forall i: nat
      ensures (Present(n, i) && At(n, i).inUse) <==> (Present(t, i) && At(t, i).inUse)
      ensures Present(n, i) && At(n, i).inUse ==> At(n, i) == At(t, i)
    {
    }
  }

  // ---- The table in memory ---------------------------------------------------------------

  lemma SlotIndex(p: nat, i: nat)
    requires i < PAGE_ENTRIES
    ensures (p * PAGE_ENTRIES + i) / PAGE_ENTRIES == p && (p * PAGE_ENTRIES + i) % PAGE_ENTRIES == i
  {
  }

  lemma SlotAt(t: Pages, p: nat, i: nat)
    requires p < |t| && i < PAGE_ENTRIES && i < |t[p]|
    ensures Present(t, p * PAGE_ENTRIES + i) && At(t, p * PAGE_ENTRIES + i) == t[p][i]
  {
    SlotIndex(p, i);
  }

  lemma FullTable(t: Pages)
    requires WellFormed(t) && forall q :: 0 <= q < MAX_PAGES ==> t[q] != []
    requires forall q, i :: 0 <= q < MAX_PAGES && 0 <= i < |t[q]| ==> t[q][i].inUse
    ensures forall i: nat :: i < MAX_BO ==> Present(t, i) && At(t, i).inUse
  {
  }

  lemma InsertBounded(t: Pages, index: nat, generation: nat, payload: nat)
    requires Present(t, index) && generation > 0 && Bounded(t, generation - 1)
    ensures Bounded(WithEntry(t, index, Entry(true, generation, payload)), generation)
  {
    WithEntryAt(t, index, Entry(true, generation, payload));
  }

  lemma RemoveBounded(t: Pages, index: nat, e: Entry, counter: nat)
    requires Present(t, index) && !e.inUse && Bounded(t, counter)
    ensures Bounded(WithEntry(t, index, e), counter)
  {
    WithEntryAt(t, index, e);
  }

  lemma LiveIsPresent(t: Pages, m: map<nat, nat>, h: nat)
    requires WellFormed(t) && Refines(t, m) && h in m
    ensures HandleIndex(h) < MAX_BO && Present(t, HandleIndex(h))
  {
  }

  lemma LiveIsBounded(t: Pages, m: map<nat, nat>, h: nat, counter: nat)
    requires Refines(t, m) && Bounded(t, counter) && h in m
    ensures HandleGeneration(h) <= counter
  {
  }

  lemma InsertKeepsBusy(t: Pages, slot: nat, e: Entry)
    requires Present(t, slot) && e.inUse
    ensures forall p :: 0 <= p < |t| && !Idle(t[p]) ==> !Idle(WithEntry(t, slot, e)[p])
  {
    var n := WithEntry(t, slot, e);
    forall p | 0 <= p < |t| && !Idle(t[p])
      ensures !Idle(n[p])
    {
      var i :| 0 <= i < |t[p]| && t[p][i].inUse;
      assert n[p][i].inUse;
    }
  }

  lemma RemoveUndoes(t: Pages, slot: nat, e: Entry)
    requires Present(t, slot) && !At(t, slot).inUse
    ensures var n := WithEntry(WithEntry(t, slot, e), slot, e.(inUse := false));
            At(WithEntry(t, slot, e), slot) == e && forall p :: 0 <= p < |t| && !Idle(t[p]) ==> !Idle(n[p])
  {
    var n := WithEntry(WithEntry(t, slot, e), slot, e.(inUse := false));
    forall p | 0 <= p < |t| && !Idle(t[p])
      ensures !Idle(n[p])
    {
      var i :| 0 <= i < |t[p]| && t[p][i].inUse;
      assert n[p][i].inUse;
    }
  }

  lemma EmptyTable(t: Pages, counter: nat)
    requires |t| == MAX_PAGES && forall p :: 0 <= p < MAX_PAGES ==> t[p] == []
    ensures WellFormed(t) && Refines(t, map[]) && Bounded(t, counter)
  {
  }

  class BoTable {
    const pages: array<array?<Entry>>
    var genCounter: nat // boGenCounter, client-wide
    ghost var repr: set<object>
    ghost var view: Pages
    /** The plain map the table refines, and every handle that was freed. */
    ghost var live: map<nat, nat>
    ghost var retired: set<nat>

    ghost predicate Laid()
      reads this, pages, repr
    {
      && pages.Length == MAX_PAGES && WellFormed(view) && pages !in repr && this !in repr
      && (forall p :: 0 <= p < MAX_PAGES ==> (pages[p] == null <==> view[p] == []))
      && (forall p :: 0 <= p < MAX_PAGES && pages[p] != null ==>
            pages[p] in repr && pages[p].Length == PAGE_ENTRIES && pages[p][..] == view[p])
      && (forall p, q :: 0 <= p < q < MAX_PAGES && pages[p] != null ==> pages[p] != pages[q])
    }

    ghost predicate Valid()
      reads this, pages, repr
    {
      && Laid() && Refines(view, live) && Bounded(view, genCounter) && genCounter <= U32_MAX
      && (forall h :: h in retired ==> h !in live && HandleGeneration(h) <= genCounter)
    }

    constructor ()
      ensures Valid() && live == map[] && retired == {} && genCounter == 0 && fresh(repr) && fresh(pages)
    {
      pages := new array?<Entry>[MAX_PAGES](_ => null);
      genCounter, repr, view, live, retired := 0, {}, seq(MAX_PAGES, _ => []), map[], {};
    }

    /** What the invariant says of every number a client may hold. */
    lemma Facts()
      requires Valid()
      ensures forall h: nat :: h in live <==> Resolves(view, h)
      ensures forall h :: h in retired ==> !Resolves(view, h)
    {
      hide Laid, Bounded;
    }

    /** mac_amdgpu_bo_lookup, for any number a client may pass. */
    method Lookup(handle: nat) returns (found: bool, e: Entry)
      requires Valid()
      ensures found <==> handle in live
      ensures found ==> e.payload == live[handle] && handle !in retired
    {
      var index := HandleIndex(handle);
      e := ZERO;
      if index >= MAX_BO {
        return false, e;
      }
      var page := pages[index / PAGE_ENTRIES];
      if page == null {
        return false, e;
      }
      e := page[index % PAGE_ENTRIES];
      assert e == view[index / PAGE_ENTRIES][index % PAGE_ENTRIES];
      return e.inUse && e.generation == HandleGeneration(handle), e;
    }

    /** Writes one entry in place. */
    method SetEntry(index: nat, e: Entry)
      requires Laid() && index < MAX_BO && Present(view, index)
      modifies repr, this`view
      ensures Laid() && view == WithEntry(old(view), index, e)
    {
      var page := pages[index / PAGE_ENTRIES];
      page[index % PAGE_ENTRIES] := e;
      view := WithEntry(view, index, e);
    }

    method AddPage(p: nat)
      requires Valid() && p < MAX_PAGES && view[p] == []
      modifies this`view, this`repr, pages
      ensures Valid() && fresh(repr - old(repr)) && old(repr) <= repr
      ensures view == old(view)[p := seq(PAGE_ENTRIES, _ => ZERO)]
      ensures forall q :: 0 <= q < MAX_PAGES && q != p ==> pages[q] == old(pages[q])
    {
      var page := new Entry[PAGE_ENTRIES](_ => ZERO);
      assert page[..] == seq(PAGE_ENTRIES, _ => ZERO);
      SwapIdlePageRefines(view, live, p, page[..], genCounter);
      pages[p] := page;
      repr := repr + {page};
      view := view[p := page[..]];
    }

    /** mac_amdgpu_bo_find_free_slot: existing pages first, then the first missing page; entries that are
        in use, and the pages that hold them, stay where they are. */
    method FindFreeSlot() returns (status: Status, slot: nat)
      requires Valid()
      modifies this`view, this`repr, pages
      ensures Valid() && fresh(repr - old(repr)) && old(repr) <= repr
      ensures forall p :: 0 <= p < MAX_PAGES && old(pages[p]) != null ==> pages[p] == old(pages[p]) && view[p] == old(view)[p]
      ensures status == Success ==> slot < MAX_BO && Present(view, slot) && !At(view, slot).inUse
      ensures status == NoResources <==> genCounter == U32_MAX || forall i: nat :: i < MAX_BO ==> Present(old(view), i) && At(old(view), i).inUse
      ensures status != Success ==> view == old(view)
    {
      slot := MAX_BO;
      if genCounter == U32_MAX {
        return NoResources, slot;
      }
      var missing: nat := MAX_PAGES;
      var p: nat := 0;
      while p < MAX_PAGES
        invariant p <= MAX_PAGES && missing <= MAX_PAGES
        invariant missing < MAX_PAGES ==> pages[missing] == null
        invariant missing == MAX_PAGES ==> forall q :: 0 <= q < p ==> pages[q] != null
        invariant forall q, i :: 0 <= q < p && 0 <= i < |view[q]| ==> view[q][i].inUse
      {
        var page := pages[p];
        if page == null {
          if missing == MAX_PAGES {
            missing := p;
          }
        } else {
          var i: nat := 0;
          while i < PAGE_ENTRIES
            invariant i <= PAGE_ENTRIES
            invariant forall k :: 0 <= k < i ==> view[p][k].inUse
          {
            assert page[..][i] == view[p][i];
            if !page[i].inUse {
              SlotAt(view, p, i);
              return Success, p * PAGE_ENTRIES + i;
            }
            i := i + 1;
          }
        }
        p := p + 1;
      }
      if missing == MAX_PAGES {
        FullTable(view);
        return NoResources, slot;
      }
      assert !Present(view, missing * PAGE_ENTRIES) by {
        SlotIndex(missing, 0);
      }
      var granted: bool := *;
      if !granted {
        return NoMemory, slot;
      }
      AddPage(missing);
      SlotAt(view, missing, 0);
      return Success, missing * PAGE_ENTRIES;
    }

    /** mac_amdgpu_bo_trim_page: a page goes only when nothing on it is in use. */
    method TrimPage(index: nat)
      requires Valid()
      modifies this`view, pages
      ensures Valid()
      ensures forall p :: 0 <= p < MAX_PAGES && !Idle(old(view)[p]) ==> pages[p] == old(pages[p]) && view[p] == old(view)[p]
      ensures forall p :: 0 <= p < MAX_PAGES && !Idle(view[p]) ==> pages[p] == old(pages[p])
    {
      if index >= MAX_BO {
        return;
      }
      var p := index / PAGE_ENTRIES;
      var page := pages[p];
      if page == null {
        return;
      }
      for i := 0 to PAGE_ENTRIES
        invariant forall k :: 0 <= k < i ==> !view[p][k].inUse
      {
        assert page[i] == view[p][i];
        if page[i].inUse {
          return;
        }
      }
      SwapIdlePageRefines(view, live, p, [], genCounter);
      pages[p] := null;
      view := view[p := []];
    }

    /** Puts a buffer into a free slot under the next generation. */
    method Insert(slot: nat, payload: nat) returns (handle: nat)
      requires Valid() && genCounter < U32_MAX && slot < MAX_BO && Present(view, slot) && !At(view, slot).inUse
      modifies repr, this`view, this`live, this`genCounter
      ensures Valid() && genCounter == old(genCounter) + 1 && HandleGeneration(handle) == genCounter && HandleIndex(handle) == slot
      ensures handle !in old(live) && handle !in retired && live == old(live)[handle := payload]
      ensures view == WithEntry(old(view), slot, Entry(true, genCounter, payload))
    {
      hide Refines, Bounded, WithEntry;
      genCounter := genCounter + 1;
      handle := MakeHandle(genCounter, slot);
      HandleRoundTrip(genCounter, slot);
      InsertRefines(view, live, slot, genCounter, payload);
      InsertBounded(view, slot, genCounter, payload);
      SetEntry(slot, Entry(true, genCounter, payload));
      live := live[handle := payload];
    }

    /** Marks a live entry free. */
    method Remove(handle: nat)
      requires Valid() && handle in live
      modifies repr, this`view, this`live
      ensures Valid() && live == old(live) - {handle} && HandleIndex(handle) < MAX_BO && Present(old(view), HandleIndex(handle))
      ensures view == WithEntry(old(view), HandleIndex(handle), At(old(view), HandleIndex(handle)).(inUse := false))
    {
      hide Refines, Bounded, WithEntry;
      var index := HandleIndex(handle);
      LiveIsPresent(view, live, handle);
      var e := pages[index / PAGE_ENTRIES][index % PAGE_ENTRIES];
      assert e == view[index / PAGE_ENTRIES][index % PAGE_ENTRIES];
      RemoveRefines(view, live, handle, e.(inUse := false));
      RemoveBounded(view, index, e.(inUse := false), genCounter);
      SetEntry(index, e.(inUse := false));
      live := live - {handle};
    }

    /** kMacAMDGPUMethodBOAlloc and BOImport. The slot is marked in use under a new generation before its
        storage is allocated; if the storage is left half-mapped the entry stays, without a handle. */
    method Alloc(payload: nat) returns (status: Status, handle: nat)
      requires Valid()
      modifies this`view, this`repr, this`live, this`genCounter, pages, repr
      ensures Valid() && fresh(repr - old(repr)) && retired == old(retired)
      ensures status == Success ==>
        && handle !in old(live) && handle !in retired && HandleGeneration(handle) == genCounter == old(genCounter) + 1
        && live == old(live)[handle := payload]
      ensures status != Success ==>
        live == old(live) || (status == Failed && handle !in old(live) && handle !in retired && live == old(live)[handle := payload])
      ensures old(genCounter) == U32_MAX ==> status == NoResources && live == old(live)
      ensures old(genCounter) <= genCounter
      ensures forall p :: 0 <= p < MAX_PAGES && !Idle(old(view)[p]) ==> pages[p] == old(pages[p])
    {
      hide Refines, Bounded, WithEntry;
      var slot;
      handle := 0;
      status, slot := FindFreeSlot();
      if status != Success {
        return;
      }
      ghost var found, table := view, pages[..];
      handle := Insert(slot, payload);
      InsertKeepsBusy(found, slot, Entry(true, genCounter, payload));
      var granted: bool, uncertain: bool := *, *;
      if granted {
        return;
      }
      status := Failed;
      if !uncertain {
        RemoveUndoes(found, slot, Entry(true, genCounter, payload));
        Remove(handle);
        assert live == old(live);
        TrimPage(slot);
      }
    }

    /** kMacAMDGPUMethodBOFree: once the storage is released the handle never resolves again. */
    method Free(handle: nat, queueOwned: bool) returns (status: Status)
      requires Valid()
      modifies this`view, this`live, this`retired, pages, repr
      ensures Valid()
      ensures status == Success ==> handle in old(live) && live == old(live) - {handle} && retired == old(retired) + {handle}
      ensures status != Success ==> live == old(live) && retired == old(retired)
      ensures status == BadArgument <==> handle !in old(live)
      ensures status == Busy <==> handle in old(live) && queueOwned
      ensures forall p :: 0 <= p < MAX_PAGES && !Idle(view[p]) ==> pages[p] == old(pages[p])
    {
      hide Refines, Bounded, WithEntry;
      var found, e := Lookup(handle);
      if !found {
        return BadArgument;
      }
      if queueOwned {
        return Busy;
      }
      var released: bool := *;
      if !released {
        return Failed;
      }
      LiveIsBounded(view, live, handle, genCounter);
      Remove(handle);
      retired := retired + {handle};
      TrimPage(HandleIndex(handle));
      return Success;
    }

    /** The table part of mac_amdgpu_bo_release_all. */
    method ReleaseAll()
      requires Valid()
      modifies this`view, this`live, this`retired, pages
      ensures Valid() && live == map[] && retired == old(retired) + old(live).Keys
    {
      hide Bounded;
      forall h | h in live
        ensures HandleGeneration(h) <= genCounter
      {
        LiveIsBounded(view, live, h, genCounter);
      }
      retired := retired + live.Keys;
      live := map[];
      view := seq(MAX_PAGES, _ => []);
      for p := 0 to MAX_PAGES
        modifies pages
        invariant forall q :: 0 <= q < p ==> pages[q] == null
      {
        pages[p] := null;
      }
      EmptyTable(view, genCounter);
    }
  }

  datatype Call = AllocCall(payload: nat) | FreeCall(handle: nat, queueOwned: bool) | ReleaseCall

  /** Every run of one client: the table stays a map, no handle is handed out twice, and a freed handle
      no longer resolves whatever was allocated since. */
  method Run(calls: seq<Call>) returns (t: BoTable, ghost handles: seq<nat>)
    ensures t.Valid()
    ensures forall h: nat :: h in t.live <==> Resolves(t.view, h)
    ensures forall h :: h in t.retired ==> !Resolves(t.view, h)
    ensures forall i, j :: 0 <= i < j < |handles| ==> handles[i] != handles[j]
  {
    hide Refines, Bounded, Resolves, WellFormed, HandleGeneration;
    t := new BoTable();
    handles := [];
    for k := 0 to |calls|
      invariant fresh(t) && fresh(t.repr) && fresh(t.pages) && t.Valid()
      invariant forall i :: 0 <= i < |handles| ==> HandleGeneration(handles[i]) <= t.genCounter
      invariant forall i, j :: 0 <= i < j < |handles| ==> handles[i] != handles[j]
    {
      match calls[k] {
        case AllocCall(payload) =>
          var status, handle := t.Alloc(payload);
          if status == Success {
            handles := handles + [handle];
          }
        case FreeCall(handle, queueOwned) =>
          var _ := t.Free(handle, queueOwned);
        case ReleaseCall => t.ReleaseAll();
      }
    }
    t.Facts();
  }
}
