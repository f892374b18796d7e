/** What the GPU can see of host memory: the page table in VRAM, the two hub TLBs, the DMA
    mappings behind them, and the bindings that own them. Every driver and GPU step on this
    state is shown to keep one invariant, from which safety follows.
    Models dext/amdgpu/amdgpu_gart.cpp at the granularity of its 32-bit table writes. */
module GartState {
  import opened Words

  const WORD: nat := 0x1_0000_0000
  const DMA_LIMIT: nat := 0x1000_0000_0000 // 44-bit DMA contract

  // PTEFlags::SYSMEM_RW split over the two words: VALID, SYSTEM, SNOOPED, EXECUTABLE, READABLE,
  // WRITEABLE in bits 0, 1, 2, 4, 5, 6; MTYPE_UC and IS_PTE in bits 55 and 63.
  const LOW_FLAGS: nat := 0x77
  const HIGH_FLAGS: nat := 0x8080_0000

  /** A page-table entry as the two 32-bit words that reach it separately. */
  datatype Pte = Pte(low: nat, high: nat)

  const CLEAR := Pte(0, 0)

  function PteFor(bus: nat): Pte {
    Pte(bus % WORD + LOW_FLAGS, bus / WORD + HIGH_FLAGS)
  }

  /** The walker takes an entry as a leaf only when VALID and IS_PTE are both set. */
  predicate Translates(e: Pte) {
    e.low % 2 == 1 && e.high >= 0x8000_0000
  }

  /** Address bits 12 to 47 of an entry. */
  function Target(e: Pte): nat {
    e.high % 0x1_0000 * WORD + e.low / GPU_PAGE * GPU_PAGE
  }

  /** `e` is `full` with some of its words still, or again, zero. */
  predicate PartOf(e: Pte, full: Pte) {
    (e.low == 0 || e.low == full.low) && (e.high == 0 || e.high == full.high)
  }

  predicate BusRange(address: nat, bytes: nat) {
    bytes != 0 && address % GPU_PAGE == 0 && bytes % GPU_PAGE == 0 && address + bytes <= DMA_LIMIT
  }

  /** The low word: VALID is set, and the page part of it is the low part of the address. */
  lemma LowWord(bus: nat)
    requires bus % GPU_PAGE == 0
    ensures var low := PteFor(bus).low;
            0 < low < WORD && low % 2 == 1 && low / GPU_PAGE * GPU_PAGE == bus % WORD
  {
    var q := bus / GPU_PAGE;
    var pages := q % 0x10_0000;
    DivModUnique(bus, WORD, q / 0x10_0000, pages * GPU_PAGE);
    DivModUnique(pages * GPU_PAGE + LOW_FLAGS, GPU_PAGE, pages, LOW_FLAGS);
  }

  /** The high word: IS_PTE is set, and the address bits below the flags are the high part. */
  lemma HighWord(bus: nat)
    requires bus < DMA_LIMIT
    ensures var high := PteFor(bus).high;
            0x8000_0000 <= high < WORD && high % 0x1_0000 == bus / WORD
  {
    DivModUnique(bus / WORD + HIGH_FLAGS, 0x1_0000, HIGH_FLAGS / 0x1_0000, bus / WORD);
  }

  /** An entry written for a legal bus page translates to exactly that page, and no half of
      it translates at all, whichever order its two words land in. */
  lemma EntryDecodes(bus: nat, e: Pte)
    requires bus % GPU_PAGE == 0 && bus < DMA_LIMIT && PartOf(e, PteFor(bus))
    ensures Translates(e) <==> e == PteFor(bus)
    ensures Translates(e) ==> Target(e) == bus
    ensures 0 < PteFor(bus).low < WORD && 0 < PteFor(bus).high < WORD
  {
    hide PteFor;
    LowWord(bus);
    HighWord(bus);
    assert bus == bus / WORD * WORD + bus % WORD;
  }

  datatype Region = Region(bus: nat, bytes: nat)

  /** Who keeps the DMA mapping behind a binding prepared: the driver's own IODMACommand,
      or the caller of gart_bind_existing. */
  datatype Keeper = Nobody | Caller | Command(id: nat)

  datatype Binding = Binding(
    buffer: nat, command: nat, // 0 is a null pointer
    busAddr: nat, sizeBytes: nat, reservationID: nat, gartOffset: nat, gartMCAddr: nat,
    numGPUPages: nat, owned: bool, ready: bool, dmaPrepared: bool, keeper: Keeper)

  const EMPTY := Binding(0, 0, 0, 0, 0, 0, 0, 0, false, false, false, Nobody)

  /** A cached or walkable translation: GART page and the bus page it reaches. */
  datatype Xlat = Xlat(page: nat, bus: nat)

  datatype Hub = MMHUB | GFXHUB

  datatype State = State(
    table: seq<Pte>,               // the page table in VRAM
    mm: set<Xlat>, gfx: set<Xlat>, // hub TLBs
    bindings: map<nat, Binding>,
    prepared: map<nat, Region>,    // DMA mappings held by driver commands
    pinned: set<Region>,           // DMA mappings that callers promised to keep
    isolated: bool)                // verified reset: no walk can happen

  predicate Held(b: Binding) {
    b.numGPUPages > 0
  }

  function First(b: Binding): nat {
    b.gartOffset / GPU_PAGE
  }

  predicate InPages(b: Binding, page: nat) {
    Held(b) && First(b) <= page < First(b) + b.numGPUPages
  }

  function BusOf(b: Binding, page: nat): nat
    requires First(b) <= page
  {
    b.busAddr + GPU_PAGE * (page - First(b))
  }

  predicate Maps(b: Binding, x: Xlat) {
    InPages(b, x.page) && x.bus == BusOf(b, x.page)
  }

  predicate Backed(s: State, b: Binding) {
    match b.keeper
    case Nobody => false
    case Caller => Region(b.busAddr, b.sizeBytes) in s.pinned
    case Command(c) =>
      c in s.prepared && s.prepared[c].bus <= b.busAddr &&
      b.busAddr + b.sizeBytes <= s.prepared[c].bus + s.prepared[c].bytes
  }

  predicate InTable(table: seq<Pte>, x: Xlat) {
    x.page < |table| && Translates(table[x.page]) && x.bus == Target(table[x.page])
  }

  predicate Visible(s: State, x: Xlat) {
    x in s.mm || x in s.gfx || InTable(s.table, x)
  }

  /** The safety property: whatever the GPU can still translate is DMA memory that an owned
      binding keeps prepared. */
  ghost predicate Safe(s: State) {
    s.isolated ||
    forall x :: Visible(s, x) ==>
      exists k :: k in s.bindings && Maps(s.bindings[k], x) && s.bindings[k].owned && Backed(s, s.bindings[k])
  }

  /** What the binding's entry for `page` holds once published. */
  function Expected(b: Binding, page: nat): Pte
    requires First(b) <= page
  {
    PteFor(BusOf(b, page))
  }

  predicate Explains(b: Binding, page: nat, e: Pte) {
    InPages(b, page) && PartOf(e, Expected(b, page))
  }

  ghost predicate EntryExplained(table: seq<Pte>, bindings: map<nat, Binding>, page: nat)
    requires page < |table|
  {
    table[page] == CLEAR || exists k :: k in bindings && Explains(bindings[k], page, table[page])
  }

  /** Nothing of the binding is left in the table or in either TLB. */
  ghost predicate Quiet(s: State, b: Binding) {
    && (forall p :: 0 <= p < |s.table| && InPages(b, p) ==> s.table[p] == CLEAR)
    && (forall x :: x in s.mm || x in s.gfx ==> !InPages(b, x.page))
  }

  predicate Shaped(s: State, b: Binding) {
    Held(b) ==>
      && b.owned && b.sizeBytes == b.numGPUPages * GPU_PAGE && b.gartOffset % GPU_PAGE == 0
      && BusRange(b.busAddr, b.sizeBytes)
      && First(b) + b.numGPUPages <= |s.table|
  }

  predicate Apart(a: Binding, b: Binding) {
    Held(a) && Held(b) ==>
      && (First(a) + a.numGPUPages <= First(b) || First(b) + b.numGPUPages <= First(a))
      && (a.keeper.Command? ==> a.keeper != b.keeper)
  }

  ghost predicate AllApart(bindings: map<nat, Binding>) {
    forall j, k :: j in bindings && k in bindings && j != k ==> Apart(bindings[j], bindings[k])
  }

  ghost predicate BackedOrQuiet(s: State) {
    forall k :: k in s.bindings && Held(s.bindings[k]) ==> Backed(s, s.bindings[k]) || Quiet(s, s.bindings[k])
  }

  ghost predicate TableExplained(table: seq<Pte>, bindings: map<nat, Binding>) {
    forall p :: 0 <= p < |table| ==> EntryExplained(table, bindings, p)
  }

  ghost predicate TlbExplained(tlb: set<Xlat>, bindings: map<nat, Binding>) {
    forall x :: x in tlb ==> exists k :: k in bindings && Maps(bindings[k], x)
  }

  ghost predicate Inv(s: State) {
    && (forall k :: k in s.bindings ==> Shaped(s, s.bindings[k]))
    && AllApart(s.bindings)
    && BackedOrQuiet(s)
    && TableExplained(s.table, s.bindings)
    && TlbExplained(s.mm, s.bindings) && TlbExplained(s.gfx, s.bindings)
  }

  lemma PageInBusRange(s: State, b: Binding, page: nat)
    requires Shaped(s, b) && InPages(b, page)
    ensures BusOf(b, page) % GPU_PAGE == 0 && BusOf(b, page) + GPU_PAGE <= b.busAddr + b.sizeBytes <= DMA_LIMIT
  {
  }

  /** A live entry maps its page for the binding that owns it. */
  lemma TableEntryHasOwner(s: State, x: Xlat)
    requires Inv(s) && InTable(s.table, x)
    ensures exists k :: k in s.bindings && Maps(s.bindings[k], x) && !Quiet(s, s.bindings[k])
  {
    assert EntryExplained(s.table, s.bindings, x.page);
    var k :| k in s.bindings && Explains(s.bindings[k], x.page, s.table[x.page]);
    PageInBusRange(s, s.bindings[k], x.page);
    EntryDecodes(BusOf(s.bindings[k], x.page), s.table[x.page]);
    assert Maps(s.bindings[k], x);
  }

  lemma InvImpliesSafe(s: State)
    requires Inv(s)
    ensures Safe(s)
  {
    forall x | Visible(s, x)
      ensures exists k :: k in s.bindings && Maps(s.bindings[k], x) && s.bindings[k].owned && Backed(s, s.bindings[k])
    {
      if x in s.mm || x in s.gfx {
        var k :| k in s.bindings && Maps(s.bindings[k], x);
        assert !Quiet(s, s.bindings[k]);
      } else {
        TableEntryHasOwner(s, x);
      }
    }
  }

  function WithTlb(s: State, hub: Hub, tlb: set<Xlat>): State {
    if hub.MMHUB? then s.(mm := tlb) else s.(gfx := tlb)
  }

  function Tlb(s: State, hub: Hub): set<Xlat> {
    if hub.MMHUB? then s.mm else s.gfx
  }

  lemma OtherPagesStayQuiet(s: State, t: State, b: Binding, x: Xlat)
    requires Quiet(s, b) && !InPages(b, x.page) && t.table == s.table && t.mm <= s.mm + {x} && t.gfx <= s.gfx + {x}
    ensures Quiet(t, b)
  {
  }

  /** Only the binding the walk went through can stop being quiet, and that one is backed. */
  lemma WalkKeepsBacked(s: State, t: State, x: Xlat, k: nat)
    requires BackedOrQuiet(s) && AllApart(s.bindings) && k in s.bindings && Maps(s.bindings[k], x) && !Quiet(s, s.bindings[k])
    requires t == s.(mm := t.mm, gfx := t.gfx) && t.mm <= s.mm + {x} && t.gfx <= s.gfx + {x}
    ensures BackedOrQuiet(t)
  {
    forall j | j in t.bindings && Held(t.bindings[j]) && Quiet(s, s.bindings[j])
      ensures Quiet(t, t.bindings[j])
    {
      assert Apart(s.bindings[j], s.bindings[k]);
      OtherPagesStayQuiet(s, t, s.bindings[j], x);
    }
  }

  /** A walk may happen at any moment, in either hub, of any page. */
  lemma WalkKeepsInv(s: State, hub: Hub, x: Xlat)
    requires Inv(s) && InTable(s.table, x)
    ensures Inv(WithTlb(s, hub, Tlb(s, hub) + {x}))
  {
    TableEntryHasOwner(s, x);
    var k :| k in s.bindings && Maps(s.bindings[k], x) && !Quiet(s, s.bindings[k]);
    assert TlbExplained(Tlb(s, hub) + {x}, s.bindings);
    WalkKeepsBacked(s, WithTlb(s, hub, Tlb(s, hub) + {x}), x, k);
    hide BackedOrQuiet, TlbExplained, TableExplained, AllApart, Quiet, InTable;
  }

  /** Entries may be evicted, and a flush drops them all. */
  lemma EvictionKeepsInv(s: State, hub: Hub, kept: set<Xlat>)
    requires Inv(s) && kept <= Tlb(s, hub)
    ensures Inv(WithTlb(s, hub, kept))
  {
    var t := WithTlb(s, hub, kept);
    assert forall k :: k in s.bindings && Quiet(s, s.bindings[k]) ==> Quiet(t, t.bindings[k]);
  }

  /** One 32-bit table write inside a binding's own pages: zero, or the final value once backed. */
  lemma WriteKeepsInv(s: State, k: nat, page: nat, e: Pte)
    requires Inv(s) && k in s.bindings && page < |s.table| && Explains(s.bindings[k], page, e)
    requires e == CLEAR || Backed(s, s.bindings[k]) || PartOf(e, s.table[page])
    ensures Inv(s.(table := s.table[page := e]))
  {
    var t := s.(table := s.table[page := e]);
    assert BackedOrQuiet(t) by {
      forall j | j in t.bindings && Held(t.bindings[j]) && Quiet(s, s.bindings[j])
        ensures Backed(t, t.bindings[j]) || Quiet(t, t.bindings[j])
      {
        assert j != k ==> Apart(s.bindings[j], s.bindings[k]);
      }
    }
    forall p | 0 <= p < |t.table|
      ensures EntryExplained(t.table, t.bindings, p)
    {
      assert EntryExplained(s.table, s.bindings, p);
    }
  }

  predicate SameMapping(a: Binding, b: Binding) {
    && a.busAddr == b.busAddr && a.sizeBytes == b.sizeBytes && a.gartOffset == b.gartOffset
    && a.numGPUPages == b.numGPUPages && a.owned == b.owned && a.keeper == b.keeper
  }

  /** Bindings the GPU can still see parts of, unchanged in what they map. */
  ghost predicate KeepsVisible(s: State, bindings: map<nat, Binding>) {
    forall j :: j in s.bindings && Held(s.bindings[j]) && !Quiet(s, s.bindings[j]) ==>
      j in bindings && SameMapping(s.bindings[j], bindings[j])
  }

  lemma SameMappingExplains(a: Binding, b: Binding)
    requires SameMapping(a, b)
    ensures forall p, e :: Explains(a, p, e) ==> Explains(b, p, e)
    ensures forall x :: Maps(a, x) ==> Maps(b, x)
  {
  }

  lemma EntryStaysExplained(s: State, bindings: map<nat, Binding>, p: nat)
    requires p < |s.table| && EntryExplained(s.table, s.bindings, p) && KeepsVisible(s, bindings)
    ensures EntryExplained(s.table, bindings, p)
  {
    if s.table[p] != CLEAR {
      var j :| j in s.bindings && Explains(s.bindings[j], p, s.table[p]);
      assert !Quiet(s, s.bindings[j]);
      SameMappingExplains(s.bindings[j], bindings[j]);
    }
  }

  /** A change of bindings that keeps every binding still visible to the GPU explains the same
      table and the same TLB entries. */
  lemma VisibleBindingsExplain(s: State, bindings: map<nat, Binding>)
    requires Inv(s) && KeepsVisible(s, bindings)
    ensures TableExplained(s.table, bindings) && TlbExplained(s.mm, bindings) && TlbExplained(s.gfx, bindings)
  {
    forall p | 0 <= p < |s.table|
      ensures EntryExplained(s.table, bindings, p)
    {
      EntryStaysExplained(s, bindings, p);
    }
    forall x | x in s.mm || x in s.gfx
      ensures exists j :: j in bindings && Maps(bindings[j], x)
    {
      var j :| j in s.bindings && Maps(s.bindings[j], x);
      SameMappingExplains(s.bindings[j], bindings[j]);
    }
  }

  lemma QuietTransfers(s: State, t: State)
    requires t.table == s.table && t.mm == s.mm && t.gfx == s.gfx
    ensures forall b :: Quiet(s, b) <==> Quiet(t, b)
  {
  }

  /** Ownership is published before the first write: a fresh, disjoint, backed range. */
  lemma PublishKeepsInv(s: State, k: nat, b: Binding)
    requires Inv(s) && k in s.bindings && !Held(s.bindings[k]) && Shaped(s, b) && Backed(s, b)
    requires forall j :: j in s.bindings && j != k ==> Apart(s.bindings[j], b) && Apart(b, s.bindings[j])
    ensures Inv(s.(bindings := s.bindings[k := b]))
  {
    var t := s.(bindings := s.bindings[k := b]);
    VisibleBindingsExplain(s, t.bindings);
    QuietTransfers(s, t);
  }

  /** DMA may be completed, and the binding dropped, once nothing of it is visible. */
  lemma CompletionKeepsInv(s: State, k: nat, c: nat)
    requires Inv(s) && k in s.bindings && Quiet(s, s.bindings[k])
    requires forall j :: j in s.bindings && j != k && Held(s.bindings[j]) ==> s.bindings[j].keeper != Command(c)
    ensures Inv(s.(prepared := s.prepared - {c}))
  {
    QuietTransfers(s, s.(prepared := s.prepared - {c}));
  }

  lemma DropKeepsInv(s: State, k: nat, b: Binding)
    requires Inv(s) && k in s.bindings && Quiet(s, s.bindings[k]) && !Held(b)
    ensures Inv(s.(bindings := s.bindings[k := b]))
  {
    var t := s.(bindings := s.bindings[k := b]);
    VisibleBindingsExplain(s, t.bindings);
    QuietTransfers(s, t);
  }

  lemma RelabelKeepsBacked(s: State, t: State, k: nat)
    requires BackedOrQuiet(s) && k in s.bindings && k in t.bindings && SameMapping(s.bindings[k], t.bindings[k])
    requires t == s.(bindings := s.bindings[k := t.bindings[k]])
    ensures BackedOrQuiet(t)
  {
    QuietTransfers(s, t);
    assert Quiet(s, s.bindings[k]) ==> Quiet(s, t.bindings[k]);
  }

  lemma RelabelKeepsApart(bindings: map<nat, Binding>, k: nat, b: Binding)
    requires AllApart(bindings) && k in bindings && SameMapping(bindings[k], b)
    ensures AllApart(bindings[k := b])
  {
    var after := bindings[k := b];
    forall i, j | i in after && j in after && i != j
      ensures Apart(after[i], after[j])
    {
      assert Apart(bindings[i], bindings[j]);
    }
  }

  lemma RelabelKeepsInv(s: State, k: nat, b: Binding)
    requires Inv(s) && k in s.bindings && SameMapping(s.bindings[k], b)
    ensures Inv(s.(bindings := s.bindings[k := b]))
  {
    var t := s.(bindings := s.bindings[k := b]);
    VisibleBindingsExplain(s, t.bindings);
    RelabelKeepsBacked(s, t, k);
    RelabelKeepsApart(s.bindings, k, b);
    hide BackedOrQuiet, AllApart, TableExplained, TlbExplained, Quiet;
  }

  /** With its entries cleared and both TLBs holding only what the table still says, a binding is quiet. */
  lemma ClearedAndFlushedIsQuiet(s: State, b: Binding)
    requires forall p :: 0 <= p < |s.table| && InPages(b, p) ==> s.table[p] == CLEAR
    requires forall x :: x in s.mm || x in s.gfx ==> InTable(s.table, x)
    ensures Quiet(s, b)
  {
  }
}
