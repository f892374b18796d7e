/** The driver's life: opening PCI, admission, buffer objects, queues, one raw job, Stop GPU, client
    closes, driver Stop. Every hardware operation may fail. Models dext/MacAMDGPU.cpp. */
module DriverLifetime {
  import opened ClientSessions
  import opened DriverState

  datatype Status = Success | NotReady | BadArgument | Busy | Failed

  class MacAMDGPU {
    var d: Driver
    /** Every state the GPU could have acted in, one entry per step. */
    ghost var trace: seq<Driver>

    /** The GPU never reached storage that was gone, and storage went only for a cause. */
    ghost predicate AllSafe()
      reads this
    {
      && trace != [] && trace[0] == INITIAL && trace[|trace| - 1] == d
      && (forall i :: 0 <= i < |trace| ==> Safe(trace[i]))
      && (forall i :: 0 <= i < |trace| - 1 ==> ReleaseRule(trace[i], trace[i + 1]))
    }

    ghost predicate Valid()
      reads this
    {
      Inv(d) && AllSafe()
    }

    constructor ()
      ensures Valid() && d == INITIAL && trace == [INITIAL]
    {
      d := INITIAL;
      trace := [INITIAL];
      new;
      InitialInv();
    }

    method Become(next: Driver)
      requires AllSafe() && Core(next) && ReleaseRule(d, next)
      modifies this
      ensures AllSafe() && d == next && trace == old(trace) + [next]
    {
      CoreIsSafe(next);
      d := next;
      trace := trace + [d];
    }

    // ---- Hardware ------------------------------------------------------------------

    /** PCIDriverKit Close clears bus mastering. */
    method PciClose()
      requires AllSafe() && Core(d)
      modifies this
      ensures AllSafe() && Core(d) && d == old(d).(pciOpen := false, busMaster := false)
    {
      hide Safe;
      Become(d.(pciOpen := false, busMaster := false));
    }

    /** mac_amdgpu_quiesce_for_shutdown: bus mastering may already be off when a later phase fails;
        success means the function was reset and bus mastering was read back off. */
    method Quiesce() returns (ok: bool)
      requires AllSafe() && Core(d) && !d.stopping
      modifies this
      ensures AllSafe() && Core(d)
      ensures ok ==> d == AfterReset(old(d))
      ensures !ok ==> d == old(d).(busMaster := d.busMaster) && (d.busMaster ==> old(d).busMaster)
    {
      hide Safe;
      ok := *;
      if ok {
        Become(AfterReset(d));
      } else {
        var stillMaster := *;
        Become(d.(busMaster := d.busMaster && stillMaster));
      }
    }

    /** The GPU retires the raw job on its own. */
    method GpuFinishes()
      requires Valid()
      modifies this
      ensures Valid() && d == old(d).(rawLive := false)
    {
      hide Safe, Consistent;
      Become(d.(rawLive := false));
    }

    // ---- Admission -----------------------------------------------------------------

    method Connect() returns (c: Client)
      requires Valid()
      modifies this
      ensures Valid()
      ensures old(d).stopping ==> c == NOBODY && d == old(d)
      ensures !old(d).stopping ==> c !in old(d).live && c != NOBODY && d == old(d).(live := old(d).live + {c}, lastClient := c)
    {
      hide Safe, Consistent;
      if d.stopping {
        return NOBODY;
      }
      c := d.lastClient + 1;
      Become(d.(lastClient := c, live := d.live + {c}));
    }

    static lemma AttachKeepsAccounts(d: Driver, c: Client)
      requires Accounts(d) && c in d.live
      ensures var o := AttachOutcome(d.sessions, c, c in d.attached, d.ready);
              var attached := AttachedAfter(d.attached, c, o.attached);
              && Accounts(d.(sessions := o.sessions, attached := attached))
              && attached == (if o.ok then d.attached + {c} else d.attached)
    {
      hide Consistent, AttachOutcome;
      AttachKeepsConsistent(d.sessions, d.attached, d.ready, c);
      var o := AttachOutcome(d.sessions, c, c in d.attached, d.ready);
      assert o.ok ==> AttachedAfter(d.attached, c, o.attached) == d.attached + {c};
    }

    static lemma SessionsKeepCore(d: Driver, s: Sessions, attached: set<Client>)
      requires Core(d)
      ensures Core(d.(sessions := s, attached := attached))
    {
    }

    method Attach(c: Client) returns (ok: bool)
      requires Valid() && c in d.live
      modifies this
      ensures Valid() && d == old(d).(sessions := d.sessions, attached := if ok then old(d).attached + {c} else old(d).attached)
    {
      hide Safe, Core, Accounts, AttachOutcome, AttachedAfter;
      var o := AttachOutcome(d.sessions, c, c in d.attached, d.ready);
      ok := o.ok;
      AttachKeepsAccounts(d, c);
      SessionsKeepCore(d, o.sessions, AttachedAfter(d.attached, c, o.attached));
      Become(d.(sessions := o.sessions, attached := AttachedAfter(d.attached, c, o.attached)));
    }

    /** Leaves the accounts open: the caller decides what becomes of the client's storage. */
    method Detach(c: Client)
      requires AllSafe() && Core(d) && Consistent(d.sessions, d.attached, d.ready) && c != NOBODY
      modifies this
      ensures AllSafe() && Core(d) && Consistent(d.sessions, d.attached, d.ready)
      ensures d == old(d).(sessions := Detached(old(d).sessions, c, c in old(d).attached), attached := old(d).attached - {c})
    {
      hide Safe, Core;
      DetachKeepsConsistent(d.sessions, d.attached, d.ready, c);
      SessionsKeepCore(d, Detached(d.sessions, c, c in d.attached), d.attached - {c});
      Become(d.(sessions := Detached(d.sessions, c, c in d.attached), attached := d.attached - {c}));
    }

    method EnsureOpen(c: Client) returns (ok: bool)
      requires Valid() && c in d.live && !d.stopping
      modifies this
      ensures Valid() && OnlyAdmission(old(d), d) && d.pending == old(d).pending
      ensures ok ==> !d.blocked && d.pciOpen && c in d.attached
    {
      hide Safe, Consistent;
      if d.blocked {
        return false;
      }
      if !d.pciOpen && d.started {
        return false;
      }
      var alreadyAttached := c in d.attached;
      ok := Attach(c);
      if !ok {
        return false;
      }
      if d.pciOpen {
        return true;
      }
      var granted: bool := *;
      if !granted {
        if !alreadyAttached {
          Detach(c);
        }
        return false;
      }
      Become(d.(pciOpen := true, resetDone := false));
      var liveIdentity: bool := *;
      if !liveIdentity {
        PciClose();
        if !alreadyAttached {
          Detach(c);
        }
        return false;
      }
      Become(d.(busMaster := true));
    }

    /** ClientSubmission::poll. A completion is accepted only after the GPU finished. */
    method Poll() returns (done: bool)
      requires AllSafe() && Core(d) && (d.rawLive ==> d.pending)
      modifies this
      ensures AllSafe() && Core(d) && d == old(d).(pending := d.pending) && (d.pending ==> old(d).pending)
      ensures done <==> !d.pending
      ensures done ==> !d.rawLive
    {
      hide Safe;
      var fenceSeen: bool := *;
      if d.pending && fenceSeen && !d.rawLive {
        Become(d.(pending := false));
      }
      return !d.pending;
    }

    method Claim(c: Client) returns (ok: bool)
      requires Valid() && c in d.live
      modifies this
      ensures Valid() && d == old(d).(sessions := d.sessions)
      ensures ok ==> d.attached == {c}
    {
      hide Safe, Core, ClaimOutcome;
      ClaimKeepsConsistent(d.sessions, d.attached, d.ready, c);
      var o := ClaimOutcome(d.sessions, c, c in d.attached);
      ok := o.ok;
      SessionsKeepCore(d, o.sessions, d.attached);
      Become(d.(sessions := o.sessions));
    }

    /** The gates of ExternalMethod and mac_amdgpu_admit_external for a call that may change state. */
    method Admit(c: Client, raw: bool) returns (ok: bool)
      requires Valid()
      modifies this
      ensures Valid() && OnlyAdmission(old(d), d)
      ensures ok ==> !d.stopping && !d.blocked && d.pciOpen && c in d.attached && !d.pending && !d.rawLive
      ensures ok && raw ==> d.attached == {c}
    {
      hide Safe, Consistent;
      if c !in d.live || d.stopping || d.blocked || (!d.pciOpen && d.started) {
        return false;
      }
      ok := EnsureOpen(c);
      if !ok {
        return false;
      }
      if raw {
        ok := Claim(c);
        if !ok {
          return false;
        }
      }
      ok := Poll();
    }

    /** kMacAMDGPUMethodInitDevice: bring-up reaches some stage. `Failed` is a failure after work may have
        reached the hardware; other failures leave whatever stage was reached. */
    method BringUp(c: Client) returns (status: Status)
      requires Valid()
      modifies this
      ensures Valid()
      ensures OnlyAdmission(old(d), d.(sessions := old(d).sessions, started := old(d).started, ready := old(d).ready, blocked := old(d).blocked))
      ensures (old(d).started ==> d.started) && (old(d).ready ==> d.ready) && (old(d).blocked ==> d.blocked)
      ensures status == Failed <==> d.blocked && !old(d).blocked
      ensures status == Success ==> d.started && c in d.attached
      ensures d.ready && !old(d).ready ==> status == Success && d.sessions.lease == NOBODY
    {
      hide Safe;
      var ok := Admit(c, false);
      if !ok {
        return NotReady;
      }
      var progress: bool, complete: bool, uncertain: bool := *, *, *;
      if uncertain {
        Become(d.(started := true, blocked := true));
        return Failed;
      }
      if complete {
        Become(d.(started := true, ready := true, sessions := d.sessions.(lease := NOBODY)));
        return Success;
      }
      if progress {
        Become(d.(started := true));
      }
      status := if progress then Success else NotReady;
    }

    /** Releases one buffer's storage. */
    method Drop(b: Bo)
      requires AllSafe() && Core(d) && ReleaseCause(d, b)
      modifies this
      ensures AllSafe() && Core(d) && d == old(d).(bos := old(d).bos - {b})
    {
      hide Safe, Core;
      DropKeepsCore(d, b);
      Become(d.(bos := d.bos - {b}));
    }

    // ---- Buffer objects ------------------------------------------------------------

    /** kMacAMDGPUMethodBOAlloc. A page-table mapping that could not be completed nor undone keeps
        its entry and closes admission; no handle is returned for it. */
    method BoAlloc(c: Client, domain: Domain) returns (status: Status, handle: nat)
      requires Valid()
      modifies this
      ensures Valid()
      ensures OnlyAdmission(old(d), d.(bos := old(d).bos, mapped := old(d).mapped, blocked := old(d).blocked, lastHandle := old(d).lastHandle))
      ensures status == Success ==>
        && Bo(c, handle) !in old(d).bos && d.bos == old(d).bos[Bo(c, handle) := domain] && d.blocked == old(d).blocked
        && d.mapped == old(d).mapped + (if domain.Gtt? then {Bo(c, handle)} else {})
      ensures status != Success && d.bos != old(d).bos ==>
        d.blocked && domain.Gtt? && d.bos == old(d).bos[Bo(c, d.lastHandle) := Gtt] && d.mapped == old(d).mapped + {Bo(c, d.lastHandle)}
      ensures status != Success && d.bos == old(d).bos ==> d.mapped == old(d).mapped && d.blocked == old(d).blocked
    {
      hide Safe, Consistent, Core, Accounts;
      handle := 0;
      var ok := Admit(c, false);
      if !ok {
        return NotReady, 0;
      }
      var b := Bo(c, d.lastHandle + 1);
      NewBoKeepsInv(d, b, domain);
      var granted: bool, retained: bool := *, *;
      if domain.Plain? {
        if !granted {
          return Failed, 0;
        }
        Become(d.(bos := d.bos[b := Plain], lastHandle := b.handle));
      } else {
        if !granted && !retained {
          return Failed, 0;
        }
        Become(d.(bos := d.bos[b := Gtt], mapped := d.mapped + {b}, lastHandle := b.handle));
        if !granted {
          BlockKeepsInv(d);
          Become(d.(blocked := true));
          return Failed, 0;
        }
      }
      return Success, b.handle;
    }

    /** gart_unbind: success means no entry of the table or of either hub's TLB leads there. */
    method Unbind(b: Bo) returns (ok: bool)
      requires AllSafe() && Core(d)
      modifies this
      ensures AllSafe() && Core(d) && d == if ok then Unmapped(old(d), b) else old(d)
    {
      hide Safe;
      ok := *;
      if ok {
        Become(Unmapped(d, b));
      }
    }

    predicate QueueBacking(b: Bo)
      reads this
    {
      exists i :: 0 <= i < |d.slots| && d.slots[i].owner == b.owner && (d.slots[i].ring == b.handle || d.slots[i].metadata == b.handle)
    }

    /** The page-table mapping of a buffer goes, if it has one; an uncertain mapping closes admission. */
    method Unmap(b: Bo) returns (ok: bool)
      requires Valid() && b in d.bos && d.pciOpen
      modifies this
      ensures Valid()
      ensures ok ==> d == Unmapped(old(d), b)
      ensures !ok ==> d == old(d).(blocked := true)
    {
      hide Safe, Consistent, Core, Accounts, Unmapped;
      if d.bos[b].Plain? {
        PlainIsUnmapped(d, b);
        return true;
      }
      UnmappingKeepsInv(d, b);
      BlockKeepsInv(d);
      ok := Unbind(b);
      if !ok {
        Become(d.(blocked := true));
      }
    }

    /** Unmaps a buffer and releases its storage, or keeps both. */
    method FreeStorage(b: Bo) returns (ok: bool)
      requires Valid() && b in d.bos && b.owner in d.attached && d.pciOpen && !d.pending && !d.rawLive && !QueueBacking(b)
      modifies this
      ensures Valid()
      ensures ok ==> d == Unmapped(old(d), b).(bos := old(d).bos - {b})
      ensures !ok ==> d == old(d).(blocked := true)
    {
      hide Safe, Consistent, Core, Accounts, ReleaseCause, Untracked;
      ok := Unmap(b);
      if ok {
        FreeIsCaused(d, b);
        FreeingKeepsInv(d, b);
        Drop(b);
      }
    }

    /** kMacAMDGPUMethodBOFree. */
    method BoFree(c: Client, handle: nat) returns (status: Status)
      requires Valid()
      modifies this
      ensures Valid()
      ensures OnlyAdmission(old(d), d.(bos := old(d).bos, mapped := old(d).mapped, blocked := old(d).blocked))
      ensures status == Success ==>
        && Bo(c, handle) in old(d).bos && !old(QueueBacking(Bo(c, handle))) && !d.pending && d.blocked == old(d).blocked
        && d.bos == old(d).bos - {Bo(c, handle)} && d.mapped == old(d).mapped - {Bo(c, handle)}
      ensures status != Success ==> d.bos == old(d).bos && d.mapped == old(d).mapped
      ensures status == BadArgument ==> Bo(c, handle) !in old(d).bos
      ensures status == Busy ==> old(QueueBacking(Bo(c, handle)))
      ensures (status == Failed || old(d).blocked) ==> d.blocked
    {
      hide Safe, Inv, Unmapped, OnlyAdmission;
      var ok := Admit(c, false);
      FreeRefused(old(d), d);
      var b := Bo(c, handle);
      if !ok {
        return NotReady;
      }
      if b !in d.bos {
        return BadArgument;
      }
      if QueueBacking(b) {
        return Busy;
      }
      FreeDone(old(d), d, b);
      FreeUncertain(old(d), d);
      ok := FreeStorage(b);
      status := if ok then Success else Failed;
    }

    // ---- Raw work and queues -------------------------------------------------------

    /** kMacAMDGPUMethodSubmitIB: raw packets may use any buffer of the exclusive client, and a
        failed ring write may have reached the GPU all the same. */
    method SubmitRaw(c: Client) returns (ok: bool)
      requires Valid()
      modifies this
      ensures Valid()
      ensures OnlyAdmission(old(d), d.(rawLive := old(d).rawLive, rawUses := old(d).rawUses))
      ensures ok ==> d.pending && d.attached == {c} && !old(d).rawLive && d.rawUses == set b | b in d.bos && b.owner == c
      ensures !ok ==> d.rawLive == old(d).rawLive && d.rawUses == old(d).rawUses
    {
      hide Safe, Consistent;
      ok := Admit(c, true);
      if ok {
        var reached: bool := *;
        Become(d.(pending := true));
        Become(d.(rawLive := reached, rawUses := set b | b in d.bos && b.owner == c));
      }
    }

    /** The slot is claimed, then opened: once a map was attempted the firmware may own the ring, and
        only an acknowledged unmap or a reset gives it back. */
    method OpenQueue(i: nat, q: Slot) returns (status: Status)
      requires Valid() && i < |d.slots| && d.slots[i] == FREE && Backing(q) <= d.bos.Keys && q.owner != NOBODY
      modifies this
      ensures Valid()
      ensures status == Success ==> d == WithSlot(Granted(old(d), i), i, q.(mapped := true, retained := false))
      ensures status != Success ==>
        d == old(d) || d == WithSlot(Granted(old(d), i), i, q.(mapped := false, retained := true)).(blocked := true)
    {
      hide Safe, Core, Accounts, Emptied;
      var claimed, open := q.(mapped := false, retained := true), q.(mapped := true, retained := false);
      FreeSlotIsIdle(d, i);
      RelabelTwice(d, i, q, claimed);
      EmptyRelabelled(d, i, q);
      GrantRelabelled(d, i, claimed);
      RelabelTwice(Granted(d, i), i, claimed, open);
      RelabelKeepsCore(d, i, q);
      SlotKeepsAccounts(d, i, q);
      Become(WithSlot(d, i, q));
      var mapAttempted: bool, acknowledged: bool := *, *;
      if !mapAttempted {
        EmptyKeepsCore(d, i);
        Become(Emptied(d, i));
        return Failed;
      }
      RelabelKeepsCore(d, i, claimed);
      SlotKeepsAccounts(d, i, claimed);
      Become(WithSlot(d, i, claimed));
      GrantKeepsCore(d, i);
      SlotKeepsAccounts(d, i, claimed);
      Become(Granted(d, i));
      if !acknowledged {
        BlockKeepsCore(d);
        SlotKeepsAccounts(d, i, claimed);
        Become(d.(blocked := true));
        return Failed;
      }
      RelabelKeepsCore(d, i, open);
      SlotKeepsAccounts(d, i, open);
      Become(WithSlot(d, i, open));
      return Success;
    }

    /** kMacAMDGPUMethodAQLQueueCreate. */
    method QueueCreate(c: Client, ring: nat, metadata: nat) returns (status: Status, i: nat)
      requires Valid()
      modifies this
      ensures Valid()
      ensures OnlyAdmission(old(d), d.(slots := old(d).slots, firmware := old(d).firmware, blocked := old(d).blocked))
      ensures status == Success ==>
        && i < QUEUES && old(d).slots[i] == FREE && Backing(d.slots[i]) <= d.bos.Keys && d.blocked == old(d).blocked
        && d.slots == old(d).slots[i := Slot(c, ring, metadata, true, false)] && d.firmware == old(d).firmware + {i}
      ensures status != Success ==>
        || (d.slots == old(d).slots && d.firmware == old(d).firmware && d.blocked == old(d).blocked)
        || (d.blocked && i < QUEUES && old(d).slots[i] == FREE && d.firmware == old(d).firmware + {i}
            && d.slots == old(d).slots[i := Slot(c, ring, metadata, false, true)])
      ensures old(d).blocked ==> d.blocked
    {
      hide Safe, Consistent, QuarantineSound;
      i := 0;
      var ok := Admit(c, false);
      if !ok {
        return NotReady, 0;
      }
      if ring == metadata || Bo(c, ring) !in d.bos || Bo(c, metadata) !in d.bos
         || !d.bos[Bo(c, ring)].Gtt? || !d.bos[Bo(c, metadata)].Gtt? || !d.ready {
        return BadArgument, 0;
      }
      if QueueBacking(Bo(c, ring)) || QueueBacking(Bo(c, metadata)) {
        return Busy, 0;
      }
      while i < QUEUES && d.slots[i].owner != NOBODY
        invariant i <= QUEUES
      {
        i := i + 1;
      }
      if i == QUEUES {
        return Failed, 0;
      }
      status := OpenQueue(i, Slot(c, ring, metadata, false, false));
    }

    /** aql_queue_close. */
    method CloseQueue(i: nat) returns (ok: bool)
      requires AllSafe() && Core(d) && i < |d.slots| && d.slots[i].owner != NOBODY
      modifies this
      ensures AllSafe() && Core(d)
      ensures ok ==> d == Emptied(old(d), i)
      ensures !ok ==> d == old(d) || d == WithSlot(old(d), i, old(d).slots[i].(retained := true))
    {
      hide Safe, Core, Emptied;
      if d.slots[i].retained || !d.slots[i].mapped {
        return false;
      }
      var q := d.slots[i].(retained := true);
      RelabelKeepsCore(d, i, q);
      EmptyRelabelled(d, i, q);
      Become(WithSlot(d, i, q));
      ok := *;
      if ok {
        EmptyKeepsCore(d, i);
        Become(Emptied(d, i));
      }
    }

    /** kMacAMDGPUMethodAQLQueueDestroy. */
    method QueueDestroy(c: Client, i: nat) returns (ok: bool)
      requires Valid()
      modifies this
      ensures Valid()
      ensures OnlyAdmission(old(d), d.(slots := old(d).slots, firmware := old(d).firmware, blocked := old(d).blocked))
      ensures ok ==>
        && i < QUEUES && old(d).slots[i].owner == c && old(d).slots[i].mapped && d.blocked == old(d).blocked
        && d.slots == old(d).slots[i := FREE] && d.firmware == old(d).firmware - {i}
      ensures !ok ==> d.firmware == old(d).firmware
      ensures (!ok && d.slots != old(d).slots) || old(d).blocked ==> d.blocked
    {
      hide Safe, Consistent;
      ok := Admit(c, false);
      if !ok || i >= QUEUES || d.slots[i].owner != c || !d.slots[i].mapped {
        return false;
      }
      ok := CloseQueue(i);
      if !ok && d.slots[i].retained {
        Become(d.(blocked := true));
      }
    }

    // ---- Releasing storage ---------------------------------------------------------

    /** mac_amdgpu_release_client_storage. */
    method ReleaseStorage(c: Client)
      requires AllSafe() && Core(d) && Releasable(d, c)
      modifies this
      ensures AllSafe() && Core(d) && d == old(d).(bos := WithoutOwner(old(d).bos, c))
    {
      hide *;
      NothingYet(d, c);
      while exists b :: b in d.bos && b.owner == c
        invariant AllSafe() && Core(d) && Releasable(d, c) && OnlyBos(old(d), d) && Shrunk(old(d).bos, d.bos, c)
        decreases |d.bos|
      {
        var b :| b in d.bos && b.owner == c;
        DropStep(old(d), d, b);
        Drop(b);
      }
      DroppingEnds(old(d), d, c);
    }

    static lemma ListsKeepCore(d: Driver, quarantine: seq<Client>, freed: seq<Client>)
      requires Core(d)
      ensures Core(d.(quarantine := quarantine, freed := freed))
    {
    }

    static lemma IsolatedIsReleasable(d: Driver, c: Client)
      requires Isolated(d)
      ensures Releasable(d, c)
    {
    }

    method FreeHead()
      requires AllSafe() && Core(d) && Isolated(d) && QuarantineSound(d.quarantine, d.freed, d.live, d.lastClient) && d.quarantine != []
      modifies this
      ensures AllSafe() && Core(d) && QuarantineSound(d.quarantine, d.freed, d.live, d.lastClient)
      ensures d == old(d).(quarantine := old(d).quarantine[1..], freed := old(d).freed + [old(d).quarantine[0]],
                           bos := WithoutOwner(old(d).bos, old(d).quarantine[0]))
    {
      hide Safe, Core, QuarantineSound, WithoutOwner;
      var c := d.quarantine[0];
      FreeingKeepsQuarantine(d.quarantine, d.freed, d.live, d.lastClient);
      ListsKeepCore(d, d.quarantine[1..], d.freed + [c]);
      Become(d.(quarantine := d.quarantine[1..], freed := d.freed + [c]));
      IsolatedIsReleasable(d, c);
      ReleaseStorage(c);
    }

    /** mac_amdgpu_release_quarantine. */
    method ReleaseQuarantine()
      requires AllSafe() && Core(d) && Isolated(d) && QuarantineSound(d.quarantine, d.freed, d.live, d.lastClient)
      modifies this
      ensures AllSafe() && Core(d) && QuarantineSound(d.quarantine, d.freed, d.live, d.lastClient)
      ensures d == old(d).(quarantine := [], freed := old(d).freed + old(d).quarantine, bos := WithoutOwners(old(d).bos, old(d).quarantine))
    {
      hide Safe, Core, QuarantineSound, WithoutOwner, WithoutOwners, FreedFirst;
      ghost var k := 0;
      FreeingStarts(d);
      while d.quarantine != []
        invariant AllSafe() && Core(d) && Isolated(d) && QuarantineSound(d.quarantine, d.freed, d.live, d.lastClient)
        invariant FreedFirst(old(d), d, k)
        decreases |d.quarantine|
      {
        FreeingSteps(old(d), d, k);
        FreeHead();
        k := k + 1;
      }
      FreeingSteps(old(d), d, k);
    }

    /** mac_amdgpu_retire_client_queues. */
    method RetireQueues(c: Client) returns (ok: bool)
      requires AllSafe() && Core(d) && UnownedAreFree(d.slots) && |d.slots| == QUEUES && c != NOBODY
      modifies this
      ensures AllSafe() && Core(d) && UnownedAreFree(d.slots) && OnlyQueues(old(d), d, c)
      ensures ok ==> NoQueueOf(d, c)
    {
      hide Safe, Core, UnownedAreFree, Emptied, WithSlot;
      for i := 0 to QUEUES
        invariant AllSafe() && Core(d) && UnownedAreFree(d.slots) && OnlyQueues(old(d), d, c) && NoneBelow(d.slots, i, c)
      {
        if d.slots[i].owner == c {
          CloseStep(old(d), d, i, c);
          ok := CloseQueue(i);
          if !ok {
            return false;
          }
        }
      }
      NoneLeft(d, c);
      return true;
    }

    /** mac_amdgpu_retire_client_storage: page-table mappings one by one, then the rest. */
    method RetireStorage(c: Client) returns (ok: bool)
      requires AllSafe() && Core(d) && Retiring(d, c)
      modifies this
      ensures AllSafe() && Core(d) && OnlyStorage(old(d), d, c) && Shrunk(old(d).bos, d.bos, c)
      ensures ok ==> d.bos == WithoutOwner(old(d).bos, c)
    {
      hide *;
      NothingYet(d, c);
      while exists b :: b in d.bos && b.owner == c && d.bos[b].Gtt?
        invariant AllSafe() && Core(d) && OnlyStorage(old(d), d, c) && Shrunk(old(d).bos, d.bos, c)
        invariant Retiring(d, c)
        decreases |d.bos|
      {
        var b :| b in d.bos && b.owner == c && d.bos[b].Gtt?;
        UnbindStep(old(d), d, b);
        ok := Unbind(b);
        if !ok {
          return false;
        }
        Drop(b);
      }
      RetirementEnds(old(d), d, c);
      ReleaseStorage(c);
      return true;
    }

    // ---- Stop GPU, client Stop, driver Stop ----------------------------------------

    static lemma ResetIsAlone(d: Driver, c: Client)
      requires Inv(d) && c in d.live && CanReset(d.sessions, c, c in d.attached)
      ensures d.attached + {c} == {c}
    {
      ResetExcludesOthers(d.sessions, d.attached, d.ready, c);
    }

    method AdmitStop(c: Client) returns (ok: bool)
      requires Valid()
      modifies this
      ensures Valid() && BackingRetained(old(d), d)
      ensures ok ==> d.blocked && d.attached == {c} && c in d.live && !d.stopping
    {
      hide Safe, Core, Accounts, CanReset, Detached, Consistent, QuarantineSound, BackingRetained;
      AdmissionRetains(d, d);
      var elsewhereInUse: bool := *; // BAR mappings or interrupt sources of this client
      if c !in d.live || d.stopping || !CanReset(d.sessions, c, c in d.attached) || elsewhereInUse {
        return false;
      }
      ResetIsAlone(d, c);
      ok := Attach(c);
      AdmissionRetains(old(d), d);
      if !ok {
        return false;
      }
      StopStepsKeepInv(d, d.busMaster);
      Become(d.(blocked := true));
    }

    static lemma SlotsAndSessions(s: Driver, c: Client)
      requires Inv(s) && c in s.live
      ensures |s.slots| == QUEUES && Consistent(s.sessions, s.attached, s.ready) && c != NOBODY
    {
    }

    /** The end of mac_amdgpu_shutdown_gpu, after a verified reset. */
    method ReleaseAll(c: Client, ghost s: Driver)
      requires AllSafe() && Inv(s) && s.attached == {c} && !s.stopping && c in s.live && d == AfterReset(s)
      modifies this
      ensures Valid() && d == Stopped(s)
    {
      hide Safe, Core, Accounts, Detached, Consistent, QuarantineSound, WithoutOwner, WithoutOwners;
      StoppedInv(s, c);
      SlotsAndSessions(s, c);
      IsolatedIsCore(d);
      PciClose();
      SoleDetach(d, c);
      Detach(c);
      assert s.attached - {c} == {};
      IsolatedIsCore(d.(pending := false));
      Become(d.(pending := false));
      ReleaseQuarantine();
      IsolatedIsReleasable(d, c);
      ReleaseStorage(c);
      IsolatedIsCore(BringupReleased(d).(blocked := false));
      Become(BringupReleased(d).(blocked := false));
    }

    /** mac_amdgpu_shutdown_gpu. Whatever fails, all backing is retained and admission stays closed. */
    method StopGpu(c: Client) returns (status: Status)
      requires Valid()
      modifies this
      ensures Valid()
      ensures if status == Success then GpuStopped(old(d), d) else BackingRetained(old(d), d)
      ensures status == Failed ==> d.blocked && d.attached == {c}
    {
      hide Safe, Core, Accounts, Detached, Consistent, QuarantineSound, GpuStopped, Stopped, AfterReset, BackingRetained;
      var admitted := AdmitStop(c);
      if !admitted {
        return Busy;
      }
      if !d.pciOpen {
        var granted: bool := *;
        if !granted {
          return Failed;
        }
        StopStepsKeepInv(d, d.busMaster);
        RetainedSteps(old(d), d, d.busMaster);
        Become(d.(pciOpen := true, resetDone := false));
      }
      ghost var s := d;
      StopStepsKeepInv(s, false);
      RetainedSteps(old(d), s, false);
      var ok := Quiesce();
      if !ok {
        StopStepsKeepInv(s, d.busMaster);
        RetainedSteps(old(d), s, d.busMaster);
        return Failed;
      }
      ReleaseAll(c, s);
      StoppedIsStopped(old(d), s);
      status := Success;
    }

    static lemma SlotCount(d: Driver)
      requires Core(d)
      ensures |d.slots| == QUEUES
    {
    }

    method Leave(c: Client)
      requires AllSafe() && Core(d) && Departing(d, c) && (d.pciOpen ==> d.attached != {}) && forall b :: b in d.bos ==> b.owner != c
      modifies this
      ensures Valid() && d == Left(old(d), c)
    {
      hide Safe, Accounts, Departing;
      DepartedKeepsAccounts(d, c);
      Become(Left(d, c));
    }

    method ReleaseLast(c: Client, ghost s: Driver)
      requires AllSafe() && Core(s) && Departing(s, c) && s.attached == {} && d == AfterReset(s)
      modifies this
      ensures Valid() && d == Left(LastReset(s), c)
    {
      hide Safe, Core, Accounts, Departing, QuarantineSound, WithoutOwner, WithoutOwners;
      SlotCount(s);
      LastCloseIsDeparting(s, c);
      IsolatedIsCore(d);
      PciClose();
      IsolatedIsCore(d.(pending := false));
      Become(d.(pending := false));
      ReleaseQuarantine();
      LastReleased(s, c);
      IsolatedIsReleasable(d, c);
      ReleaseStorage(c);
      Become(BringupReleased(d).(blocked := false));
      Leave(c);
    }

    static lemma StillOpen(d: Driver, c: Client)
      requires Departing(d, c) && d.pciOpen
      ensures !d.stopping
    {
    }

    method EnterQuarantine(c: Client)
      requires AllSafe() && Core(d) && Departing(d, c) && (d.pciOpen ==> d.attached != {}) && d.blocked
      modifies this
      ensures Valid() && d == Quarantined(old(d), c)
    {
      hide Safe, Accounts, Departing;
      QuarantineKeepsAccounts(d, c);
      Become(Quarantined(d, c));
    }

    /** The last participant: PCI is closed whether or not the reset was verified. */
    method CloseLast(c: Client)
      requires AllSafe() && Core(d) && Departing(d, c) && d.pciOpen && d.attached == {}
      modifies this
      ensures Valid()
      ensures d == Left(LastReset(old(d)), c) || d == Quarantined(LastQuarantined(old(d)), c)
    {
      hide Safe, Core, Accounts, Departing, LastReset, AfterReset;
      ghost var s := d;
      LastCloseIsDeparting(d, c);
      StillOpen(d, c);
      var reset := Quiesce();
      if reset {
        ReleaseLast(c, s);
      } else {
        PciClose();
        BlockKeepsCore(d);
        Become(d.(blocked := true));
        EnterQuarantine(c);
      }
    }

    method Retire(c: Client) returns (ok: bool)
      requires AllSafe() && Core(d) && Departing(d, c) && d.pciOpen
      modifies this
      ensures AllSafe() && Core(d) && Departing(d, c) && OnlyRetirement(old(d), d, c) && d.blocked == old(d).blocked
      ensures Shrunk(old(d).bos, d.bos, c) && (ok ==> d.bos == WithoutOwner(old(d).bos, c))
    {
      hide Safe, Departing, Shrunk, WithoutOwner, OnlyStorage, QueuesShrunk, OnlyRetirement;
      DepartingFacts(d, c);
      ok := Poll();
      ghost var polled := d;
      NothingYet(d, c);
      if ok {
        ok := RetireQueues(c);
      }
      ghost var unqueued := d;
      NothingYet(d, c);
      if ok {
        ok := RetireStorage(c);
      }
      RetiredStepwise(old(d), polled, unqueued, d, c);
      RetirementIsDeparting(old(d), d, c);
    }

    /** Others stay attached: no reset, so only what was demonstrably given back is released. */
    method CloseOneOfMany(c: Client)
      requires AllSafe() && Core(d) && Departing(d, c) && d.pciOpen && d.attached != {}
      modifies this
      ensures Valid()
      ensures EndsAlone(old(d), d, c)
    {
      hide Safe, Core, Accounts, Departing, QueuesShrunk, MappingsShrunk, Shrunk, WithoutOwner, EndsAlone;
      var retired := false;
      RetiresNothing(d, c);
      if !d.blocked {
        retired := Retire(c);
      }
      if retired {
        LeavesAlone(old(d), d, c);
        Released(d, old(d), c);
        Leave(c);
      } else {
        QuarantinesAlone(old(d), d, c);
        BlockKeepsCore(d);
        BlockKeepsDeparting(d, c);
        Become(d.(blocked := true));
        EnterQuarantine(c);
      }
    }

    /** MacAMDGPUUserClient::FinishStop. */
    method FinishStop(c: Client)
      requires Valid()
      modifies this
      ensures Valid()
      ensures c !in old(d).live ==> d == old(d)
      ensures c in old(d).live ==> Ended(old(d), d, c) && ResetRule(old(d), d) && FreedOnce(old(d), d)
    {
      hide Safe, Core, Accounts, Departing, Detached, Consistent, Ended, ResetRule, FreedOnce,
        LastReset, LastQuarantined, OnlyRetirement, Shrunk, WithoutOwner, Releasable;
      if c !in d.live {
        return;
      }
      DepartureStarts(d, c);
      DepartureFacts(d, c);
      var participant := c in d.attached;
      Detach(c);
      ghost var s := d;
      NoParticipants(d, c);
      if participant && d.pciOpen && d.sessions.participants == 0 {
        CloseLast(c);
        EndedLast(old(d), s, d, c);
      } else if participant && d.pciOpen {
        CloseOneOfMany(c);
        EndedOthers(old(d), s, d, c);
      } else {
        ClosedIsReleasable(d, c);
        ReleaseStorage(c);
        ReleasedIsDeparting(s, c);
        Leave(c);
        EndedAtOnce(old(d), s, d, c);
      }
    }

    /** MacAMDGPU::Stop. */
    method DriverStop()
      requires Valid()
      modifies this
      ensures Valid() && d == old(d).(stopping := true, pciOpen := false, busMaster := false)
    {
      hide Safe, Core, Accounts;
      StopDriverKeepsInv(d);
      Become(d.(stopping := true));
      PciClose();
    }

    /** MacAMDGPU::free: every started client retains the driver, so none is left by now. */
    method DriverFree()
      requires Valid()
      modifies this
      ensures Valid()
      ensures if old(d).stopping && old(d).live == {}
              then d.bos == map[] && d.quarantine == [] && d.freed == old(d).freed + old(d).quarantine
                   && d.blocked == old(d).blocked && d.resets == old(d).resets
              else d == old(d)
    {
      hide Safe, Core, Accounts, QuarantineSound, WithoutOwners;
      if d.stopping && d.live == {} {
        FreeingEndsEverything(d);
        ReleaseQuarantine();
        Become(BringupReleased(d).(firmware := {}));
      }
    }
  }

  datatype Call =
    | ConnectCall
    | OpenCall(c: Client)
    | BringUpCall(c: Client)
    | AllocCall(c: Client, domain: Domain)
    | FreeCall(c: Client, handle: nat)
    | SubmitCall(c: Client)
    | CreateCall(c: Client, ring: nat, metadata: nat)
    | DestroyCall(c: Client, i: nat)
    | GpuFinishesCall
    | StopGpuCall(c: Client)
    | FinishStopCall(c: Client)
    | DriverStopCall
    | DriverFreeCall

  method Step(m: MacAMDGPU, call: Call)
    requires m.Valid()
    modifies m
    ensures m.Valid() && Later(old(m.d), m.d)
  {
    hide Safe, Inv, ResetRule, FreedOnce, Later, GpuStopped, Ended, ReleaseRule;
    match call {
      case ConnectCall => { var _ := m.Connect(); QuietIsLater(old(m.d), m.d); }
      case OpenCall(c) => { var _ := m.Admit(c, false); QuietIsLater(old(m.d), m.d); }
      case BringUpCall(c) => { var _ := m.BringUp(c); QuietIsLater(old(m.d), m.d); }
      case AllocCall(c, domain) => { var _, _ := m.BoAlloc(c, domain); QuietIsLater(old(m.d), m.d); }
      case FreeCall(c, handle) => { var _ := m.BoFree(c, handle); QuietIsLater(old(m.d), m.d); }
      case SubmitCall(c) => { var _ := m.SubmitRaw(c); QuietIsLater(old(m.d), m.d); }
      case CreateCall(c, ring, metadata) => { var _, _ := m.QueueCreate(c, ring, metadata); QuietIsLater(old(m.d), m.d); }
      case DestroyCall(c, i) => { var _ := m.QueueDestroy(c, i); QuietIsLater(old(m.d), m.d); }
      case GpuFinishesCall => { m.GpuFinishes(); QuietIsLater(old(m.d), m.d); }
      case StopGpuCall(c) => {
        var status := m.StopGpu(c);
        if status == Success {
          GpuStoppedIsLater(old(m.d), m.d);
        } else {
          QuietIsLater(old(m.d), m.d);
        }
      }
      case FinishStopCall(c) => {
        m.FinishStop(c);
        if c in old(m.d).live {
          RulesAreLater(old(m.d), m.d);
        } else {
          QuietIsLater(old(m.d), m.d);
        }
      }
      case DriverStopCall => { m.DriverStop(); QuietIsLater(old(m.d), m.d); }
      case DriverFreeCall => {
        m.DriverFree();
        FreeingIsLater(old(m.d), m.d);
      }
    }
  }

  /** Every run from Start, whatever calls arrive and whatever fails: the GPU never reaches storage that
      was released; storage goes only after PCI was closed for good, after a verified reset, or with no
      raw job pending and neither a queue nor a mapping left on it; admission reopens only across a
      verified reset; every quarantined client is freed once; and after a verified reset or the driver's
      end nobody holds storage. */
  method Run(calls: seq<Call>) returns (m: MacAMDGPU, ghost history: seq<Driver>)
    ensures m.Valid() && |history| == |calls| + 1 && history[0] == INITIAL && history[|calls|] == m.d
    ensures m.trace[0] == INITIAL && m.trace[|m.trace| - 1] == m.d
    ensures forall i :: 0 <= i < |m.trace| ==> Safe(m.trace[i])
    ensures forall i :: 0 <= i < |m.trace| - 1 ==> ReleaseRule(m.trace[i], m.trace[i + 1])
    ensures forall i, j :: 0 <= i <= j < |history| ==> Later(history[i], history[j])
    ensures NoDuplicates(m.d.quarantine + m.d.freed)
  {
    hide Safe, Inv, Later, ReleaseRule;
    m := new MacAMDGPU();
    history := [m.d];
    QuietIsLater(m.d, m.d);
    for k := 0 to |calls|
      invariant fresh(m) && m.Valid() && |history| == k + 1 && history[0] == INITIAL && history[k] == m.d
      invariant Chain(history)
    {
      Step(m, calls[k]);
      ChainExtends(history, m.d);
      history := history + [m.d];
    }
    InvIsSound(m.d);
  }
}
