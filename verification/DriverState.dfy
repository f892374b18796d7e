/** What the driver and the GPU jointly hold: clients and their buffer objects on one side, the
    ways in which the GPU can still reach those buffers on the other. Models the parts of
    MacAMDGPU_IVars and MacAMDGPUUserClient_IVars (dext/MacAMDGPU.cpp) that decide when client
    storage may be released. */
module DriverState {
  import opened ClientSessions

  const QUEUES: nat := 7 // kPersistentAQLQueues

  /** One entry of a client's buffer table; the client-wide generation makes handles unique. */
  datatype Bo = Bo(owner: Client, handle: nat)
  datatype Domain = Plain | Gtt // Gtt storage is reached through the page table
  datatype Slot = Slot(owner: Client, ring: nat, metadata: nat, mapped: bool, retained: bool)

  const FREE := Slot(NOBODY, 0, 0, false, false)

  datatype Driver = Driver(
    // the driver's own fields
    sessions: Sessions, pciOpen: bool, blocked: bool, stopping: bool, started: bool, ready: bool,
    pending: bool, slots: seq<Slot>, quarantine: seq<Client>,
    // its user clients; an attached client has `claimed` set
    live: set<Client>, attached: set<Client>, bos: map<Bo, Domain>,
    // the hardware
    busMaster: bool, rawLive: bool, rawUses: set<Bo>, firmware: set<nat>, mapped: set<Bo>, resets: nat,
    resetDone: bool, // the last reset was verified and PCI has not been opened since
    // history
    freed: seq<Client>, lastClient: Client, lastHandle: nat)

  const INITIAL := Driver(IDLE, false, false, false, false, false, false, seq(QUEUES, _ => FREE), [],
                          {}, {}, map[], false, false, {}, {}, {}, 0, false, [], NOBODY, 0)

  function Backing(q: Slot): set<Bo> {
    {Bo(q.owner, q.ring), Bo(q.owner, q.metadata)}
  }

  /** The GPU masters the bus and still has a raw job, a firmware queue or a page-table mapping
      that leads to the buffer. */
  ghost predicate Reaches(d: Driver, b: Bo) {
    && d.busMaster
    && (b in d.mapped || (d.rawLive && b in d.rawUses)
        || exists i :: i in d.firmware && i < |d.slots| && b in Backing(d.slots[i]))
  }

  /** Everything the GPU can reach is still held. */
  ghost predicate Safe(d: Driver) {
    forall b :: Reaches(d, b) ==> b in d.bos
  }

  ghost predicate Tracked(d: Driver) {
    && (forall b :: b in d.mapped ==> b in d.bos && d.bos[b].Gtt?)
    && (d.rawLive ==> d.pending && d.rawUses <= d.bos.Keys)
    && (forall i :: i in d.firmware && i < |d.slots| ==> Backing(d.slots[i]) <= d.bos.Keys)
  }

  ghost predicate Core(d: Driver) {
    && |d.slots| == QUEUES
    && (d.busMaster ==> d.pciOpen)
    && (!d.stopping || d.pciOpen ==> Tracked(d))
    && (forall i :: i in d.firmware ==> i < QUEUES && d.slots[i].owner != NOBODY)
  }

  lemma CoreIsSafe(d: Driver)
    requires Core(d)
    ensures Safe(d)
  {
    forall b | Reaches(d, b)
      ensures b in d.bos
    {
      if i :| i in d.firmware && i < |d.slots| && b in Backing(d.slots[i]) {
        assert Backing(d.slots[i]) <= d.bos.Keys;
      }
    }
  }

  predicate NoDuplicates(s: seq<Client>) {
    forall i, j :: 0 <= i < j < |s| ==> s[i] != s[j]
  }

  /** A quarantined client is freed at most once, and no such client is live. */
  ghost predicate QuarantineSound(quarantine: seq<Client>, freed: seq<Client>, live: set<Client>, lastClient: Client) {
    && NoDuplicates(quarantine + freed)
    && (forall c :: c in quarantine || c in freed ==> c !in live && NOBODY < c <= lastClient)
  }

  /** Storage belongs to an attached or a quarantined client, and to nobody else. */
  ghost predicate StorageOwned(bos: map<Bo, Domain>, attached: set<Client>, quarantine: seq<Client>, lastHandle: nat) {
    forall b :: b in bos ==> b.handle <= lastHandle && (b.owner in attached || b.owner in quarantine)
  }

  ghost predicate OnlyQuarantined(bos: map<Bo, Domain>, attached: set<Client>) {
    forall b :: b in bos ==> b.owner !in attached
  }

  predicate UnownedAreFree(slots: seq<Slot>) {
    forall i :: 0 <= i < |slots| && slots[i].owner == NOBODY ==> slots[i] == FREE
  }

  ghost predicate LiveKnown(live: set<Client>, lastClient: Client) {
    forall c :: c in live ==> NOBODY < c <= lastClient
  }

  /** A quarantine closes admission; PCI is open only for an attached client, and while it is
      closed an attached client holds no storage. */
  ghost predicate Accounts(d: Driver) {
    && Consistent(d.sessions, d.attached, d.ready) && (d.ready ==> d.started)
    && d.attached <= d.live && LiveKnown(d.live, d.lastClient)
    && StorageOwned(d.bos, d.attached, d.quarantine, d.lastHandle)
    && QuarantineSound(d.quarantine, d.freed, d.live, d.lastClient)
    && (d.quarantine != [] ==> d.blocked)
    && (d.pciOpen ==> d.attached != {} && !d.stopping)
    && (!d.pciOpen && !d.stopping ==> OnlyQuarantined(d.bos, d.attached))
    && UnownedAreFree(d.slots)
  }

  ghost predicate Inv(d: Driver) {
    Core(d) && Accounts(d)
  }

  lemma InitialInv()
    ensures Inv(INITIAL)
  {
  }

  /** The part of the state an admission may change. */
  predicate OnlyAdmission(before: Driver, after: Driver) {
    after == before.(sessions := after.sessions, attached := after.attached, pciOpen := after.pciOpen,
                     busMaster := after.busMaster, pending := after.pending, resetDone := after.resetDone)
  }

  /** Between two calls: admission reopens, and anything is forgotten about the GPU's reach without
      the hardware being told, only across a verified reset; and a reset leaves no storage held. */
  ghost predicate ResetRule(before: Driver, after: Driver) {
    && before.resets <= after.resets
    && (before.blocked && !after.blocked ==> before.resets < after.resets)
    && (before.resets < after.resets ==>
         && after.resetDone && after.bos == map[] && after.quarantine == [] && after.attached == {} && after.sessions == IDLE
         && !after.blocked && !after.pciOpen && !after.started && !after.pending
         && after.slots == seq(QUEUES, _ => FREE))
  }

  /** No client ever leaves the quarantine except into the list of freed clients, in order. */
  predicate FreedOnce(before: Driver, after: Driver) {
    && before.freed <= after.freed
    && (forall c :: c in before.quarantine ==> c in after.quarantine || c in after.freed)
  }

  lemma BlockKeepsInv(d: Driver)
    requires Inv(d)
    ensures Inv(d.(blocked := true))
  {
    hide Consistent, QuarantineSound;
  }

  /** A new buffer of an attached client, reached through the page table or not. */
  lemma NewBoKeepsInv(d: Driver, b: Bo, domain: Domain)
    requires Inv(d) && d.pciOpen && b.owner in d.attached && b.handle == d.lastHandle + 1
    ensures b !in d.bos
    ensures Inv(d.(bos := d.bos[b := domain], mapped := if domain.Gtt? then d.mapped + {b} else d.mapped, lastHandle := b.handle))
  {
    hide Consistent, QuarantineSound;
  }

  /** gart_unbind succeeded for the buffer. */
  function Unmapped(d: Driver, b: Bo): Driver {
    d.(mapped := d.mapped - {b})
  }

  /** What is left to say of a freed buffer once its call was admitted: one lemma for each outcome. */
  lemma FreeRefused(before: Driver, d: Driver)
    requires OnlyAdmission(before, d)
    ensures OnlyAdmission(before, d.(bos := before.bos, mapped := before.mapped, blocked := before.blocked))
    ensures d.bos == before.bos && d.mapped == before.mapped && d.slots == before.slots && d.blocked == before.blocked
  {
  }

  lemma FreeDone(before: Driver, mid: Driver, b: Bo)
    requires OnlyAdmission(before, mid)
    ensures var d := Unmapped(mid, b).(bos := mid.bos - {b});
            && OnlyAdmission(before, d.(bos := before.bos, mapped := before.mapped, blocked := before.blocked))
            && d.bos == before.bos - {b} && d.mapped == before.mapped - {b} && d.blocked == before.blocked && d.pending == mid.pending
  {
  }

  lemma FreeUncertain(before: Driver, mid: Driver)
    requires OnlyAdmission(before, mid)
    ensures var d := mid.(blocked := true);
            && OnlyAdmission(before, d.(bos := before.bos, mapped := before.mapped, blocked := before.blocked))
            && d.bos == before.bos && d.mapped == before.mapped
  {
  }

  lemma PlainIsUnmapped(d: Driver, b: Bo)
    requires Inv(d) && d.pciOpen && b in d.bos && d.bos[b].Plain?
    ensures Unmapped(d, b) == d
  {
    assert b !in d.mapped;
    assert d.mapped - {b} == d.mapped;
  }

  lemma UnmappingKeepsInv(d: Driver, b: Bo)
    requires Inv(d)
    ensures Inv(Unmapped(d, b))
  {
    hide Consistent, QuarantineSound;
  }

  /** No raw job, queue or mapping leads to the buffer, whether or not the bus is mastered. */
  ghost predicate Untracked(d: Driver, b: Bo) {
    && b !in d.mapped && !(d.rawLive && b in d.rawUses)
    && forall i :: i in d.firmware && i < |d.slots| ==> b !in Backing(d.slots[i])
  }

  /** The three causes for which a buffer's storage may go: the stopped driver closed PCI for good; the
      function was verifiably reset and PCI closed; or, for a client that is not in quarantine, no raw job
      is pending, no firmware queue uses the buffer and no page-table mapping leads to it. */
  ghost predicate ReleaseCause(d: Driver, b: Bo) {
    || (d.stopping && !d.pciOpen)
    || (d.resetDone && !d.pciOpen && !d.pending && Untracked(d, b))
    || (d.pciOpen && b.owner !in d.quarantine && !d.pending && Untracked(d, b))
  }

  lemma FreeingKeepsInv(d: Driver, b: Bo)
    requires Inv(d) && ReleaseCause(d, b)
    ensures Inv(d.(bos := d.bos - {b}))
  {
    hide Consistent, QuarantineSound;
  }

  /** A client that frees its own buffer, with nothing of the GPU left on it, is not in quarantine. */
  lemma FreeIsCaused(d: Driver, b: Bo)
    requires Inv(d) && b.owner in d.attached && d.pciOpen && !d.pending && !d.rawLive && b !in d.mapped
    requires forall i :: 0 <= i < |d.slots| ==> b !in Backing(d.slots[i])
    ensures ReleaseCause(d, b)
  {
    hide Consistent;
  }

  function WithSlot(d: Driver, i: nat, q: Slot): Driver
    requires i < |d.slots|
  {
    d.(slots := d.slots[i := q])
  }

  /** The firmware was told about the slot. */
  function Granted(d: Driver, i: nat): Driver {
    d.(firmware := d.firmware + {i})
  }

  /** The firmware acknowledged that it let go of the slot. */
  function Emptied(d: Driver, i: nat): Driver
    requires i < |d.slots|
  {
    d.(slots := d.slots[i := FREE], firmware := d.firmware - {i})
  }

  /** A slot may be relabelled while it keeps its backing, given to the firmware while its backing
      is held, and emptied once the firmware let go of it. */
  lemma RelabelKeepsCore(d: Driver, i: nat, q: Slot)
    requires Core(d) && i < |d.slots| && q.owner != NOBODY && (i in d.firmware ==> Backing(q) == Backing(d.slots[i]))
    ensures Core(WithSlot(d, i, q))
  {
    forall j | j in d.firmware
      ensures Backing(d.slots[i := q][j]) == Backing(d.slots[j])
    {
    }
  }

  lemma RelabelTwice(d: Driver, i: nat, p: Slot, q: Slot)
    requires i < |d.slots|
    ensures WithSlot(WithSlot(d, i, p), i, q) == WithSlot(d, i, q)
  {
    assert d.slots[i := p][i := q] == d.slots[i := q];
  }

  lemma EmptyRelabelled(d: Driver, i: nat, p: Slot)
    requires i < |d.slots|
    ensures Emptied(WithSlot(d, i, p), i) == Emptied(d, i)
  {
    assert d.slots[i := p][i := FREE] == d.slots[i := FREE];
  }

  lemma GrantRelabelled(d: Driver, i: nat, p: Slot)
    requires i < |d.slots|
    ensures Granted(WithSlot(d, i, p), i) == WithSlot(Granted(d, i), i, p)
  {
  }

  lemma FreeSlotIsIdle(d: Driver, i: nat)
    requires Core(d) && i < |d.slots| && d.slots[i] == FREE
    ensures i !in d.firmware && Emptied(d, i) == d
  {
    assert d.slots[i := FREE] == d.slots;
    assert d.firmware - {i} == d.firmware;
  }

  lemma BlockKeepsCore(d: Driver)
    requires Core(d)
    ensures Core(d.(blocked := true))
  {
  }

  lemma GrantKeepsCore(d: Driver, i: nat)
    requires Core(d) && i < |d.slots| && d.slots[i].owner != NOBODY && Backing(d.slots[i]) <= d.bos.Keys
    ensures Core(Granted(d, i))
  {
  }

  /** From one step to the next storage disappears only for one of those causes. */
  ghost predicate ReleaseRule(d: Driver, n: Driver) {
    forall b :: b in d.bos && b !in n.bos ==> ReleaseCause(d, b)
  }

  lemma EmptyKeepsCore(d: Driver, i: nat)
    requires Core(d) && i < |d.slots|
    ensures Core(Emptied(d, i)) && ReleaseRule(d, Emptied(d, i))
  {
    forall j | j in d.firmware - {i}
      ensures d.slots[i := FREE][j] == d.slots[j]
    {
    }
  }

  /** Slots play no part in the accounts beyond an unowned slot being empty. */
  lemma LabelKeepsAccounts(d: Driver, i: nat, q: Slot)
    requires Accounts(d) && i < |d.slots| && q.owner != NOBODY
    ensures Accounts(WithSlot(d, i, q))
  {
    hide Consistent, QuarantineSound, StorageOwned, OnlyQuarantined, LiveKnown;
  }

  lemma GrantKeepsAccounts(d: Driver, i: nat)
    requires Accounts(d) && i < |d.slots|
    ensures Accounts(Granted(d, i))
  {
    hide Consistent, QuarantineSound, StorageOwned, OnlyQuarantined, LiveKnown;
  }

  lemma EmptyKeepsAccounts(d: Driver, i: nat)
    requires Accounts(d) && i < |d.slots|
    ensures Accounts(Emptied(d, i))
  {
    hide Consistent, QuarantineSound, StorageOwned, OnlyQuarantined, LiveKnown;
  }

  lemma BlockKeepsAccounts(d: Driver)
    requires Accounts(d)
    ensures Accounts(d.(blocked := true))
  {
    hide Consistent, QuarantineSound, StorageOwned, OnlyQuarantined, LiveKnown;
  }

  lemma SlotKeepsAccounts(d: Driver, i: nat, q: Slot)
    requires Accounts(d) && i < |d.slots| && q.owner != NOBODY
    ensures Accounts(WithSlot(d, i, q)) && Accounts(Granted(d, i)) && Accounts(Emptied(d, i)) && Accounts(d.(blocked := true))
  {
    hide Accounts, WithSlot, Granted, Emptied;
    LabelKeepsAccounts(d, i, q);
    GrantKeepsAccounts(d, i);
    EmptyKeepsAccounts(d, i);
    BlockKeepsAccounts(d);
  }

  /** Removing a buffer the GPU no longer reaches. */
  lemma DropKeepsCore(d: Driver, b: Bo)
    requires Core(d) && ReleaseCause(d, b)
    ensures Core(d.(bos := d.bos - {b}))
  {
  }

  // ---- Closing a client ------------------------------------------------------------

  function WithoutOwner(bos: map<Bo, Domain>, c: Client): map<Bo, Domain> {
    map b | b in bos && b.owner != c :: bos[b]
  }

  function WithoutOwners(bos: map<Bo, Domain>, cs: seq<Client>): map<Bo, Domain> {
    map b | b in bos && b.owner !in cs :: bos[b]
  }

  /** All of the client's storage may go. */
  ghost predicate Releasable(d: Driver, c: Client) {
    forall b :: b in d.bos && b.owner == c ==> ReleaseCause(d, b)
  }

  /** Everybody's storage may go, quarantined clients included: PCI was closed for good, or after a
      verified reset. */
  predicate Isolated(d: Driver) {
    || (d.stopping && !d.pciOpen)
    || (d.resetDone && !d.pciOpen && !d.pending && d.mapped == {} && d.firmware == {} && !d.rawLive)
  }

  /** Mappings of the client, and of nobody else, went away. */
  ghost predicate MappingsShrunk(before: Driver, after: Driver, c: Client) {
    after.mapped <= before.mapped && forall b :: b in before.mapped && b.owner != c ==> b in after.mapped
  }

  lemma MappingsAlike(a: Driver, b: Driver, m: Driver, n: Driver, c: Client)
    requires a.mapped == b.mapped && m.mapped == n.mapped
    ensures MappingsShrunk(a, m, c) <==> MappingsShrunk(b, n, c)
  {
  }

  /** Slots of the client were emptied or marked, and nobody else's changed in any way. */
  ghost predicate QueuesShrunk(before: Driver, after: Driver, c: Client) {
    && |after.slots| == |before.slots| && after.firmware <= before.firmware
    && forall i :: 0 <= i < |before.slots| ==>
         if before.slots[i].owner == c
         then after.slots[i] == before.slots[i].(retained := after.slots[i].retained) || after.slots[i] == FREE
         else after.slots[i] == before.slots[i] && (i in after.firmware <==> i in before.firmware)
  }

  lemma QueuesAlike(a: Driver, b: Driver, m: Driver, n: Driver, c: Client)
    requires a.slots == b.slots && a.firmware == b.firmware && m.slots == n.slots && m.firmware == n.firmware
    ensures QueuesShrunk(a, m, c) <==> QueuesShrunk(b, n, c)
  {
  }

  lemma ShrunkAlike(a: Driver, b: Driver, m: Driver, n: Driver, c: Client)
    requires a.slots == b.slots && a.firmware == b.firmware && a.mapped == b.mapped
    requires m.slots == n.slots && m.firmware == n.firmware && m.mapped == n.mapped
    ensures QueuesShrunk(a, m, c) <==> QueuesShrunk(b, n, c)
    ensures MappingsShrunk(a, m, c) <==> MappingsShrunk(b, n, c)
  {
  }

  /** Two states that differ at most in the client's storage and the mappings leading to it. */
  ghost predicate OnlyStorage(before: Driver, after: Driver, c: Client) {
    after == before.(bos := after.bos, mapped := after.mapped) && MappingsShrunk(before, after, c)
  }

  predicate OnlyBos(before: Driver, after: Driver) {
    after == before.(bos := after.bos)
  }

  /** Storage of the client, and of nobody else, went away. */
  ghost predicate Shrunk(was: map<Bo, Domain>, now: map<Bo, Domain>, c: Client) {
    && (forall b :: b in now ==> b in was && was[b] == now[b])
    && (forall b :: b in was && b.owner != c ==> b in now)
  }

  lemma NothingYet(d: Driver, c: Client)
    ensures OnlyBos(d, d) && OnlyStorage(d, d, c) && Shrunk(d.bos, d.bos, c) && QueuesShrunk(d, d, c)
  {
  }

  lemma ShrinkStep(was: map<Bo, Domain>, now: map<Bo, Domain>, b: Bo)
    requires Shrunk(was, now, b.owner) && b in now
    ensures Shrunk(was, now - {b}, b.owner) && |now - {b}| < |now|
  {
    assert now.Keys == (now - {b}).Keys + {b};
  }

  lemma ShrunkToNothing(was: map<Bo, Domain>, now: map<Bo, Domain>, c: Client)
    requires Shrunk(was, now, c)
    ensures Shrunk(was, WithoutOwner(now, c), c) && WithoutOwner(now, c) == WithoutOwner(was, c)
    ensures (forall b :: b in now ==> b.owner != c) ==> now == WithoutOwner(was, c)
  {
  }

  lemma DropStep(start: Driver, d: Driver, b: Bo)
    requires OnlyBos(start, d) && Shrunk(start.bos, d.bos, b.owner) && Releasable(d, b.owner) && b in d.bos
    ensures var n := d.(bos := d.bos - {b});
            && ReleaseCause(d, b) && OnlyBos(start, n) && Shrunk(start.bos, n.bos, b.owner) && |n.bos| < |d.bos|
            && Releasable(n, b.owner)
  {
    ShrinkStep(start.bos, d.bos, b);
    var n := d.(bos := d.bos - {b});
    forall x | x in n.bos && x.owner == b.owner && Untracked(d, x)
      ensures Untracked(n, x)
    {
    }
  }

  lemma DroppingEnds(start: Driver, d: Driver, c: Client)
    requires OnlyBos(start, d) && Shrunk(start.bos, d.bos, c) && forall b :: b in d.bos ==> b.owner != c
    ensures d == start.(bos := WithoutOwner(start.bos, c))
  {
    ShrunkToNothing(start.bos, d.bos, c);
  }

  ghost predicate NoQueueOf(d: Driver, c: Client) {
    forall i :: i in d.firmware && i < |d.slots| ==> d.slots[i].owner != c
  }

  ghost predicate OnlyQueues(before: Driver, after: Driver, c: Client) {
    after == before.(slots := after.slots, firmware := after.firmware) && QueuesShrunk(before, after, c)
  }

  predicate NoneBelow(slots: seq<Slot>, i: nat, c: Client) {
    i <= |slots| && forall j :: 0 <= j < i ==> slots[j].owner != c
  }

  /** What closing one slot means for the loop over all slots. */
  lemma CloseStep(start: Driver, d: Driver, i: nat, c: Client)
    requires OnlyQueues(start, d, c) && i < |d.slots| && c != NOBODY && NoneBelow(d.slots, i, c) && UnownedAreFree(d.slots) && d.slots[i].owner == c
    ensures OnlyQueues(start, Emptied(d, i), c) && NoneBelow(Emptied(d, i).slots, i + 1, c) && UnownedAreFree(Emptied(d, i).slots)
    ensures OnlyQueues(start, WithSlot(d, i, d.slots[i].(retained := true)), c)
    ensures UnownedAreFree(WithSlot(d, i, d.slots[i].(retained := true)).slots)
  {
  }

  lemma NoneLeft(d: Driver, c: Client)
    requires NoneBelow(d.slots, |d.slots|, c)
    ensures NoQueueOf(d, c)
  {
  }

  /** A client that is not in quarantine, on an open device, with its queues unmapped and no raw job. */
  ghost predicate Retiring(d: Driver, c: Client) {
    d.pciOpen && !d.stopping && !d.pending && !d.rawLive && c !in d.quarantine && NoQueueOf(d, c)
  }

  /** Queues unmapped, page-table mappings gone and no raw job: the rest of the storage may go. */
  lemma RetiredIsReleasable(d: Driver, c: Client)
    requires Core(d) && Retiring(d, c)
    requires forall b :: b in d.bos && b.owner == c ==> d.bos[b].Plain?
    ensures Releasable(d, c)
  {
  }

  /** One mapping of a departing client unbound and its storage dropped. */
  lemma UnbindStep(start: Driver, d: Driver, b: Bo)
    requires OnlyStorage(start, d, b.owner) && Shrunk(start.bos, d.bos, b.owner) && b in d.bos && Retiring(d, b.owner)
    ensures var unbound := Unmapped(d, b);
            var dropped := unbound.(bos := unbound.bos - {b});
            && OnlyStorage(start, unbound, b.owner) && ReleaseCause(unbound, b)
            && OnlyStorage(start, dropped, b.owner) && Shrunk(start.bos, dropped.bos, b.owner) && |dropped.bos| < |d.bos|
            && Retiring(dropped, b.owner)
  {
    ShrinkStep(start.bos, d.bos, b);
  }

  lemma RetirementEnds(start: Driver, d: Driver, c: Client)
    requires Core(d) && Retiring(d, c) && OnlyStorage(start, d, c) && Shrunk(start.bos, d.bos, c)
    requires forall b :: b in d.bos && b.owner == c ==> d.bos[b].Plain?
    ensures Releasable(d, c)
    ensures var released := d.(bos := WithoutOwner(d.bos, c));
            OnlyStorage(start, released, c) && released.bos == WithoutOwner(start.bos, c) && Shrunk(start.bos, released.bos, c)
  {
    ShrunkToNothing(start.bos, d.bos, c);
    RetiredIsReleasable(d, c);
  }

  /** The quarantine after its first k clients were freed. */
  ghost predicate FreedFirst(start: Driver, d: Driver, k: nat) {
    && k <= |start.quarantine|
    && d == start.(quarantine := start.quarantine[k..], freed := start.freed + start.quarantine[..k],
                   bos := WithoutOwners(start.bos, start.quarantine[..k]))
  }

  lemma FreeingStarts(d: Driver)
    ensures FreedFirst(d, d, 0)
  {
    assert WithoutOwners(d.bos, []) == d.bos;
  }

  lemma FreeingSteps(start: Driver, d: Driver, k: nat)
    requires FreedFirst(start, d, k)
    ensures d.quarantine != [] ==>
      FreedFirst(start, d.(quarantine := d.quarantine[1..], freed := d.freed + [d.quarantine[0]], bos := WithoutOwner(d.bos, d.quarantine[0])), k + 1)
    ensures d.quarantine == [] ==>
      d == start.(quarantine := [], freed := start.freed + start.quarantine, bos := WithoutOwners(start.bos, start.quarantine))
  {
    var q := start.quarantine;
    if d.quarantine != [] {
      assert q[..k + 1] == q[..k] + [q[k]];
      assert WithoutOwner(WithoutOwners(start.bos, q[..k]), q[k]) == WithoutOwners(start.bos, q[..k + 1]);
    } else {
      assert q[..k] == q;
    }
  }

  function BringupReleased(d: Driver): Driver {
    d.(started := false, ready := false, slots := seq(QUEUES, _ => FREE))
  }

  /** Between a client's detach and the end of its Stop: its storage is still there. */
  ghost predicate Departing(d: Driver, c: Client) {
    && Consistent(d.sessions, d.attached, d.ready) && (d.ready ==> d.started)
    && d.attached <= d.live && c in d.live && c !in d.attached && LiveKnown(d.live, d.lastClient)
    && StorageOwned(d.bos, d.attached + {c}, d.quarantine, d.lastHandle)
    && QuarantineSound(d.quarantine, d.freed, d.live, d.lastClient)
    && (d.quarantine != [] ==> d.blocked)
    && (d.pciOpen ==> !d.stopping)
    && (!d.pciOpen && !d.stopping ==> OnlyQuarantined(d.bos, d.attached))
    && UnownedAreFree(d.slots)
  }

  lemma DetachIsDeparting(d: Driver, c: Client)
    requires Accounts(d) && c in d.live
    requires Consistent(Detached(d.sessions, c, c in d.attached), d.attached - {c}, d.ready)
    ensures Departing(d.(sessions := Detached(d.sessions, c, c in d.attached), attached := d.attached - {c}), c)
  {
    hide Consistent, QuarantineSound, Detached;
  }

  /** The client ends without storage. */
  lemma DepartedKeepsAccounts(d: Driver, c: Client)
    requires Departing(d, c) && (d.pciOpen ==> d.attached != {}) && (forall b :: b in d.bos ==> b.owner != c)
    ensures Accounts(d.(live := d.live - {c}))
  {
    hide Consistent, NoDuplicates;
  }

  /** Or it ends in quarantine, with admission closed. */
  lemma QuarantineKeepsAccounts(d: Driver, c: Client)
    requires Departing(d, c) && (d.pciOpen ==> d.attached != {}) && d.blocked
    ensures Accounts(d.(live := d.live - {c}, quarantine := [c] + d.quarantine))
  {
    hide Consistent;
    var q := [c] + d.quarantine;
    assert q + d.freed == [c] + (d.quarantine + d.freed);
    forall i, j | 0 <= i < j < |q + d.freed|
      ensures (q + d.freed)[i] != (q + d.freed)[j]
    {
      assert (q + d.freed)[j] == (d.quarantine + d.freed)[j - 1];
    }
  }

  /** The function was reset and bus mastering read back off: nothing is left of the GPU's reach. */
  function AfterReset(d: Driver): Driver {
    d.(busMaster := false, rawLive := false, rawUses := {}, firmware := {}, mapped := {}, resets := d.resets + 1, resetDone := true)
  }

  /** PCI closed after such a reset, the raw job forgotten and the quarantine freed. */
  ghost function LastClosed(d: Driver): Driver {
    AfterReset(d).(pciOpen := false, pending := false, quarantine := [], freed := d.freed + d.quarantine,
                   bos := WithoutOwners(d.bos, d.quarantine))
  }

  /** The client's queues, mappings and storage, and nobody else's. */
  ghost predicate OnlyRetirement(before: Driver, after: Driver, c: Client) {
    && after == before.(pending := after.pending, slots := after.slots, firmware := after.firmware,
                        bos := after.bos, mapped := after.mapped, blocked := after.blocked)
    && QueuesShrunk(before, after, c) && MappingsShrunk(before, after, c)
  }

  /** How a client's Stop ends: without storage, or whole in quarantine with admission closed. A
      quarantine happens only to an attached client while PCI is open; nobody else loses storage, a
      mapping or a queue unless the device was reset with no client left attached. */
  ghost predicate Ended(before: Driver, after: Driver, c: Client) {
    && after.live == before.live - {c} && after.attached == before.attached - {c}
    && (after.resets == before.resets ==> QueuesShrunk(before, after, c) && MappingsShrunk(before, after, c))
    && (if after.quarantine == [c] + before.quarantine then
          && after.blocked && before.pciOpen && c in before.attached && after.resets == before.resets
          && Shrunk(before.bos, after.bos, c)
        else
          && (forall b :: b in after.bos ==> b.owner != c)
          && (if after.resets == before.resets then
                after.quarantine == before.quarantine && after.bos == WithoutOwner(before.bos, c) && after.blocked == before.blocked
              else
                after.bos == map[] && after.quarantine == [] && after.freed == before.freed + before.quarantine))
  }

  /** Moving the head of the quarantine to the list of freed clients. */
  lemma FreeingKeepsQuarantine(quarantine: seq<Client>, freed: seq<Client>, live: set<Client>, lastClient: Client)
    requires quarantine != [] && QuarantineSound(quarantine, freed, live, lastClient)
    ensures QuarantineSound(quarantine[1..], freed + [quarantine[0]], live, lastClient)
  {
    var all, after := quarantine + freed, quarantine[1..] + (freed + [quarantine[0]]);
    assert after == all[1..] + [all[0]];
    forall c | c in quarantine[1..] || c in freed + [quarantine[0]]
      ensures c !in live && NOBODY < c <= lastClient
    {
      assert c in quarantine || c in freed;
    }
  }

  // ---- Stop GPU --------------------------------------------------------------------

  /** Everything but who is attached and whether the device is open: all backing is retained. */
  predicate BackingRetained(before: Driver, after: Driver) {
    && after == before.(sessions := after.sessions, attached := after.attached, pciOpen := after.pciOpen,
                        busMaster := after.busMaster, blocked := after.blocked, resetDone := after.resetDone)
    && (before.blocked ==> after.blocked) && (after.busMaster ==> before.busMaster)
  }

  /** Attaching the caller and closing admission retain all backing. */
  lemma AdmissionRetains(before: Driver, mid: Driver)
    requires mid == before.(sessions := mid.sessions, attached := mid.attached)
    ensures BackingRetained(before, mid) && BackingRetained(before, mid.(blocked := true))
  {
  }

  lemma RetainedSteps(before: Driver, d: Driver, master: bool)
    requires BackingRetained(before, d) && (master ==> d.busMaster)
    ensures BackingRetained(before, d.(blocked := true)) && BackingRetained(before, d.(pciOpen := true, resetDone := false))
    ensures BackingRetained(before, d.(busMaster := master))
  {
  }

  /** What Stop GPU does to the state before it has released anything. */
  lemma StopStepsKeepInv(d: Driver, master: bool)
    requires Inv(d) && !d.stopping && d.attached != {} && (master ==> d.busMaster)
    ensures Inv(d.(blocked := true)) && Inv(d.(pciOpen := true, resetDone := false)) && Inv(d.(busMaster := master))
  {
    hide Consistent, QuarantineSound, StorageOwned, LiveKnown;
  }

  /** The state Stop GPU leaves when its reset was verified. */
  ghost function Stopped(d: Driver): Driver {
    BringupReleased(LastClosed(d).(sessions := IDLE, attached := {}, bos := map[], blocked := false))
  }

  /** What a caller sees of a successful Stop GPU. */
  ghost predicate GpuStopped(before: Driver, after: Driver) {
    && after.resets == before.resets + 1 && ResetRule(before, after) && after.live == before.live
    && after.freed == before.freed + before.quarantine && after.stopping == before.stopping
  }

  lemma StoppedIsStopped(before: Driver, s: Driver)
    requires BackingRetained(before, s)
    ensures GpuStopped(before, Stopped(s))
  {
  }

  lemma IdleIsConsistent()
    ensures Consistent(IDLE, {}, false)
  {
  }

  lemma StoppedInv(d: Driver, c: Client)
    requires Inv(d) && !d.stopping && d.attached == {c}
    ensures QuarantineSound(d.quarantine, d.freed, d.live, d.lastClient)
    ensures WithoutOwner(WithoutOwners(d.bos, d.quarantine), c) == map[]
    ensures QuarantineSound([], d.freed + d.quarantine, d.live, d.lastClient) ==> Inv(Stopped(d))
  {
    hide Consistent, QuarantineSound, LiveKnown;
    var bos := WithoutOwner(WithoutOwners(d.bos, d.quarantine), c);
    assert forall b :: b in bos ==> b.owner in d.attached;
    assert bos == map[];
    IdleIsConsistent();
  }

  /** Once isolated by a reset, no bookkeeping can make the state unsafe. */
  lemma IsolatedIsCore(d: Driver)
    requires |d.slots| == QUEUES && !d.busMaster && d.mapped == {} && d.firmware == {} && !d.rawLive
    ensures Core(d)
    ensures d.resetDone && !d.pciOpen && !d.pending ==> Isolated(d)
  {
  }

  /** Detaching the only attached client leaves the table idle, once bring-up is forgotten. */
  lemma SoleDetach(d: Driver, c: Client)
    requires Consistent(d.sessions, d.attached, d.ready) && c != NOBODY && d.attached == {c}
    ensures Detached(d.sessions, c, true) == IDLE
  {
    DetachKeepsConsistent(d.sessions, d.attached, d.ready, c);
    assert d.attached - {c} == {};
  }

  // ---- A client's Stop -------------------------------------------------------------

  lemma DepartureStarts(d: Driver, c: Client)
    requires Inv(d) && c in d.live
    ensures Consistent(d.sessions, d.attached, d.ready) && c != NOBODY && |d.slots| == QUEUES
    ensures Departing(d.(sessions := Detached(d.sessions, c, c in d.attached), attached := d.attached - {c}), c)
  {
    hide NoDuplicates, Detached, OnlyQuarantined;
    DetachKeepsConsistent(d.sessions, d.attached, d.ready, c);
    DetachIsDeparting(d, c);
  }

  /** When the accounts already say that nothing of the client is left. */
  lemma DepartureFacts(d: Driver, c: Client)
    requires Inv(d) && c in d.live
    ensures c !in d.attached || (!d.pciOpen && !d.stopping) ==> forall b :: b in d.bos ==> b.owner != c
    ensures c !in d.attached && d.pciOpen ==> d.attached - {c} != {}
    ensures d.stopping ==> !d.pciOpen
  {
    hide NoDuplicates, Consistent;
    assert c !in d.attached ==> d.attached - {c} == d.attached;
  }

  lemma NoParticipants(d: Driver, c: Client)
    requires Departing(d, c)
    ensures d.sessions.participants == 0 <==> d.attached == {}
    ensures d.attached == {} ==> d.sessions.exclusive == NOBODY
  {
  }

  /** The last participant's close, with or without a verified reset. */
  ghost function LastQuarantined(d: Driver): Driver {
    d.(pciOpen := false, busMaster := false, blocked := true)
  }

  lemma LastCloseIsDeparting(d: Driver, c: Client)
    requires Departing(d, c) && d.attached == {}
    ensures Departing(LastQuarantined(d), c)
    ensures QuarantineSound(d.quarantine, d.freed, d.live, d.lastClient)
    ensures QuarantineSound([], d.freed + d.quarantine, d.live, d.lastClient) ==> Departing(LastClosed(d), c)
  {
    hide Consistent, QuarantineSound, LiveKnown;
  }

  ghost function LastReset(d: Driver): Driver {
    BringupReleased(LastClosed(d).(bos := map[])).(blocked := false)
  }

  /** Nothing but the client's own storage is left after the last close was reset. */
  lemma LastReleased(d: Driver, c: Client)
    requires Departing(d, c) && d.attached == {} && Core(LastClosed(d))
    ensures WithoutOwner(LastClosed(d).bos, c) == map[]
    ensures var r := BringupReleased(LastClosed(d).(bos := map[])).(blocked := false);
            r == LastReset(d) && Core(r) && (Departing(LastClosed(d), c) ==> Departing(r, c)) && r.sessions == IDLE
  {
    hide QuarantineSound, LiveKnown;
  }

  function Left(d: Driver, c: Client): Driver {
    d.(live := d.live - {c})
  }

  function Quarantined(d: Driver, c: Client): Driver {
    d.(live := d.live - {c}, quarantine := [c] + d.quarantine)
  }

  lemma QuarantinedForPci(before: Driver, c: Client)
    requires Accounts(before)
    ensures Consistent(before.sessions, before.attached, before.ready) && QuarantineSound(before.quarantine, before.freed, before.live, before.lastClient)
  {
  }

  /** Adding the client to the list gives another list. */
  lemma QuarantineOutlives(d: Driver, c: Client)
    ensures [c] + d.quarantine != d.quarantine && forall x :: x in d.quarantine ==> x in [c] + d.quarantine
  {
    assert |[c] + d.quarantine| == |d.quarantine| + 1;
    assert forall i :: 0 <= i < |d.quarantine| ==> ([c] + d.quarantine)[i + 1] == d.quarantine[i];
  }

  lemma EndedByReset(before: Driver, s: Driver, after: Driver, c: Client)
    requires s == before.(sessions := s.sessions, attached := before.attached - {c}) && Departing(s, c) && s.attached == {}
    requires after == Left(LastReset(s), c)
    ensures Ended(before, after, c) && ResetRule(before, after) && FreedOnce(before, after)
  {
    hide QuarantineSound, LiveKnown, QueuesShrunk, MappingsShrunk, Shrunk, WithoutOwner, WithoutOwners;
    NobodyIsIdle(Device(s.sessions, {}, s.ready));
    QuarantineOutlives(before, c);
  }

  lemma EndedUnreset(before: Driver, s: Driver, after: Driver, c: Client)
    requires s == before.(sessions := s.sessions, attached := before.attached - {c}) && s.pciOpen && c in before.attached
    requires after == Quarantined(LastQuarantined(s), c)
    ensures Ended(before, after, c) && ResetRule(before, after) && FreedOnce(before, after)
  {
    hide QueuesShrunk, MappingsShrunk, Shrunk;
    NothingYet(before, c);
    ShrunkAlike(before, before, before, after, c);
    QuarantineOutlives(before, c);
  }

  /** The ways a Stop can go after the client was detached, in the caller's terms. */
  lemma EndedLast(before: Driver, s: Driver, after: Driver, c: Client)
    requires Accounts(before) && c in before.live
    requires s == before.(sessions := s.sessions, attached := before.attached - {c}) && Departing(s, c)
    requires s.attached == {} && s.pciOpen && c in before.attached
    requires after == Left(LastReset(s), c) || after == Quarantined(LastQuarantined(s), c)
    ensures Ended(before, after, c) && ResetRule(before, after) && FreedOnce(before, after)
  {
    hide Ended, ResetRule, FreedOnce, Accounts, Departing, LastReset, LastQuarantined;
    QuarantinedForPci(before, c);
    if after == Left(LastReset(s), c) {
      EndedByReset(before, s, after, c);
    } else {
      EndedUnreset(before, s, after, c);
    }
  }

  /** The two ways a close goes while others stay attached. */
  ghost predicate EndsAlone(s: Driver, after: Driver, c: Client) {
    || (after == Left(after.(live := s.live), c) && OnlyRetirement(s, after.(live := s.live), c)
        && after.bos == WithoutOwner(s.bos, c) && after.blocked == s.blocked)
    || (after == Quarantined(after.(live := s.live, quarantine := s.quarantine), c) && after.blocked
        && OnlyRetirement(s, after.(live := s.live, quarantine := s.quarantine), c) && Shrunk(s.bos, after.bos, c))
  }

  lemma RetiresNothing(d: Driver, c: Client)
    ensures OnlyRetirement(d, d, c) && Shrunk(d.bos, d.bos, c)
  {
  }

  lemma Released(d: Driver, before: Driver, c: Client)
    requires d.bos == WithoutOwner(before.bos, c)
    ensures forall b :: b in d.bos ==> b.owner != c
  {
  }

  lemma LeavesAlone(s: Driver, m: Driver, c: Client)
    requires OnlyRetirement(s, m, c) && m.bos == WithoutOwner(s.bos, c) && m.blocked == s.blocked
    ensures EndsAlone(s, Left(m, c), c)
  {
    hide QueuesShrunk, MappingsShrunk, WithoutOwner;
    assert Left(m, c).(live := s.live) == m;
  }

  lemma QuarantinesAlone(s: Driver, m: Driver, c: Client)
    requires OnlyRetirement(s, m, c) && Shrunk(s.bos, m.bos, c)
    ensures EndsAlone(s, Quarantined(m.(blocked := true), c), c)
  {
    hide QueuesShrunk, MappingsShrunk, Shrunk;
    var after := Quarantined(m.(blocked := true), c);
    assert after.(live := s.live, quarantine := s.quarantine) == m.(blocked := true);
    ShrunkAlike(s, s, m, m.(blocked := true), c);
  }

  lemma EndedReleased(before: Driver, s: Driver, after: Driver, c: Client)
    requires s == before.(sessions := s.sessions, attached := before.attached - {c})
    requires after == Left(after.(live := s.live), c) && OnlyRetirement(s, after.(live := s.live), c)
    requires after.bos == WithoutOwner(s.bos, c) && after.blocked == s.blocked
    ensures Ended(before, after, c) && ResetRule(before, after) && FreedOnce(before, after)
  {
    hide QueuesShrunk, MappingsShrunk;
    ShrunkAlike(s, before, after.(live := s.live), after, c);
    QuarantineOutlives(before, c);
  }

  lemma EndedQuarantined(before: Driver, s: Driver, after: Driver, c: Client)
    requires s == before.(sessions := s.sessions, attached := before.attached - {c})
    requires after == Quarantined(after.(live := s.live, quarantine := s.quarantine), c) && after.blocked && s.pciOpen && c in before.attached
    requires OnlyRetirement(s, after.(live := s.live, quarantine := s.quarantine), c) && Shrunk(s.bos, after.bos, c)
    ensures Ended(before, after, c) && ResetRule(before, after) && FreedOnce(before, after)
  {
    hide QueuesShrunk, MappingsShrunk, Shrunk;
    ShrunkAlike(s, before, after.(live := s.live, quarantine := s.quarantine), after, c);
    QuarantineOutlives(before, c);
  }

  lemma EndedOthers(before: Driver, s: Driver, after: Driver, c: Client)
    requires s == before.(sessions := s.sessions, attached := before.attached - {c}) && s.pciOpen && c in before.attached
    requires EndsAlone(s, after, c)
    ensures Ended(before, after, c) && ResetRule(before, after) && FreedOnce(before, after)
  {
    hide Ended, ResetRule, FreedOnce, QueuesShrunk, MappingsShrunk, Shrunk, OnlyRetirement;
    if after == Quarantined(after.(live := s.live, quarantine := s.quarantine), c) && after.blocked
       && OnlyRetirement(s, after.(live := s.live, quarantine := s.quarantine), c) && Shrunk(s.bos, after.bos, c) {
      EndedQuarantined(before, s, after, c);
    } else {
      EndedReleased(before, s, after, c);
    }
  }

  lemma StorageOnly(s: Driver, c: Client)
    ensures OnlyRetirement(s, s.(bos := WithoutOwner(s.bos, c)), c)
  {
  }

  /** The client was not attached, or PCI is closed: it leaves at once. */
  lemma EndedAtOnce(before: Driver, s: Driver, after: Driver, c: Client)
    requires s == before.(sessions := s.sessions, attached := before.attached - {c})
    requires after == Left(s.(bos := WithoutOwner(s.bos, c)), c)
    ensures Ended(before, after, c) && ResetRule(before, after) && FreedOnce(before, after)
  {
    hide Ended, ResetRule, FreedOnce, OnlyRetirement, WithoutOwner;
    StorageOnly(s, c);
    var m := s.(bos := WithoutOwner(s.bos, c));
    assert after.(live := s.live) == m;
    EndedReleased(before, s, after, c);
  }

  /** Polled, then queues, then storage: together a retirement. */
  lemma RetiredStepwise(s: Driver, polled: Driver, unqueued: Driver, after: Driver, c: Client)
    requires polled == s.(pending := polled.pending) && OnlyQueues(polled, unqueued, c) && OnlyStorage(unqueued, after, c)
    ensures OnlyRetirement(s, after, c) && after.blocked == s.blocked && after.pciOpen == s.pciOpen && unqueued.bos == s.bos && after.slots == unqueued.slots
  {
    hide QueuesShrunk, MappingsShrunk;
    QueuesAlike(polled, s, unqueued, after, c);
    MappingsAlike(unqueued, s, after, after, c);
  }

  /** The retirement of one client's queues and storage while others stay attached. */
  lemma RetirementIsDeparting(d: Driver, after: Driver, c: Client)
    requires Departing(d, c) && OnlyRetirement(d, after, c) && Shrunk(d.bos, after.bos, c) && UnownedAreFree(after.slots)
    requires d.pciOpen && (d.blocked ==> after.blocked)
    ensures Departing(after, c)
  {
    hide Consistent, QuarantineSound, LiveKnown;
  }

  lemma BlockKeepsDeparting(d: Driver, c: Client)
    requires Departing(d, c)
    ensures Departing(d.(blocked := true), c)
  {
  }

  lemma DepartingFacts(d: Driver, c: Client)
    requires Departing(d, c)
    ensures c != NOBODY && c !in d.quarantine && UnownedAreFree(d.slots) && (d.pciOpen ==> !d.stopping)
  {
  }

  /** A client that is not attached, or whose device is closed, has nothing the GPU could reach. */
  lemma ClosedIsReleasable(d: Driver, c: Client)
    requires (d.stopping && !d.pciOpen) || forall b :: b in d.bos ==> b.owner != c
    ensures Releasable(d, c)
  {
  }

  lemma ReleasedIsDeparting(d: Driver, c: Client)
    requires Departing(d, c)
    ensures Departing(d.(bos := WithoutOwner(d.bos, c)), c)
    ensures OnlyRetirement(d, d.(bos := WithoutOwner(d.bos, c)), c)
    ensures forall b :: b in WithoutOwner(d.bos, c) ==> b.owner != c
  {
    hide Consistent, QuarantineSound, LiveKnown;
  }

  // ---- Runs ------------------------------------------------------------------------

  /** What holds between any two moments of one driver's life: admission reopens only across a
      verified reset, and a quarantined client stays one until it is freed. */
  ghost predicate Later(before: Driver, after: Driver) {
    && before.resets <= after.resets
    && (before.blocked && !after.blocked ==> before.resets < after.resets)
    && FreedOnce(before, after)
  }

  lemma RulesAreLater(before: Driver, after: Driver)
    requires FreedOnce(before, after) && (ResetRule(before, after) || (before.resets == after.resets && (before.blocked ==> after.blocked)))
    ensures Later(before, after)
  {
  }

  lemma LaterTransitive(a: Driver, b: Driver, c: Driver)
    requires Later(a, b) && Later(b, c)
    ensures Later(a, c)
  {
    assert forall x :: x in a.freed ==> x in b.freed;
    assert forall x :: x in b.freed ==> x in c.freed;
  }

  lemma QuietIsLater(before: Driver, after: Driver)
    requires after.freed == before.freed && after.quarantine == before.quarantine
    requires after.resets == before.resets && (before.blocked ==> after.blocked)
    ensures Later(before, after)
  {
  }

  lemma GpuStoppedIsLater(before: Driver, after: Driver)
    requires GpuStopped(before, after)
    ensures Later(before, after)
  {
    assert forall x :: x in before.quarantine ==> x in before.freed + before.quarantine;
  }

  lemma FreeingIsLater(before: Driver, after: Driver)
    requires after == before || (after.quarantine == [] && after.freed == before.freed + before.quarantine
                                 && after.blocked == before.blocked && after.resets == before.resets)
    ensures Later(before, after)
  {
    assert forall x :: x in before.quarantine ==> x in before.freed + before.quarantine;
  }

  lemma InvIsSound(d: Driver)
    requires Inv(d)
    ensures NoDuplicates(d.quarantine + d.freed)
  {
  }

  ghost predicate Chain(history: seq<Driver>) {
    forall i, j :: 0 <= i <= j < |history| ==> Later(history[i], history[j])
  }

  lemma ChainExtends(history: seq<Driver>, d: Driver)
    requires Chain(history) && history != [] && Later(history[|history| - 1], d)
    ensures Chain(history + [d])
  {
    hide Later;
    QuietIsLater(d, d);
    forall i | 0 <= i < |history|
      ensures Later(history[i], d)
    {
      LaterTransitive(history[i], history[|history| - 1], d);
    }
  }

  lemma StopDriverKeepsInv(d: Driver)
    requires Inv(d)
    ensures Core(d.(stopping := true))
    ensures Inv(d.(stopping := true, pciOpen := false, busMaster := false))
  {
    hide Consistent, QuarantineSound, StorageOwned, LiveKnown;
  }

  /** The driver object goes away only after its last client did. */
  lemma FreeingEndsEverything(d: Driver)
    requires Inv(d) && d.stopping && d.live == {}
    ensures Isolated(d) && QuarantineSound(d.quarantine, d.freed, d.live, d.lastClient)
    ensures WithoutOwners(d.bos, d.quarantine) == map[]
    ensures var n := BringupReleased(d.(quarantine := [], freed := d.freed + d.quarantine, bos := map[])).(firmware := {});
            QuarantineSound([], n.freed, n.live, n.lastClient) ==> Inv(n)
  {
    hide QuarantineSound;
    assert d.attached == {};
  }
}
