/** What the GART driver keeps account of beside the page table: which binding owns which
    reservation, buffer and DMA command, and what one call may do to that account.
    Models the state that dext/amdgpu/amdgpu_gart.cpp spreads over GARTBinding and GARTContext. */
module GartBookkeeping {
  import opened Words
  import opened GartAllocator
  import opened GartState

  datatype Status = Success | NotReady | BadArgument | NoSpace | NoMemory | NotAligned | Busy | IOError | Timeout

  const AS_PAGE: nat := 16384 // kASPageSize
  const CLEAR_CHUNK: nat := 32 // entries cleared per verified write: 256 bytes

  /** gfx12_host_window_valid. */
  predicate HostWindowValid(base: nat, size: nat, fbStart: nat, fbEnd: nat) {
    && size != 0 && PowerOfTwo(size) && base >= WORD && base % size == 0
    && base < 0x8000_0000_0000 && size <= 0x8000_0000_0000 - base
    && fbStart <= fbEnd && (base > fbEnd || base + size <= fbStart)
  }

  /** A step that only moves table entries and TLB contents. */
  predicate OnlyTable(before: State, after: State) {
    after == before.(table := after.table, mm := after.mm, gfx := after.gfx) && |after.table| == |before.table|
  }

  /** New TLB entries can only come from what the table says now. */
  ghost predicate OnlyWalks(before: State, after: State) {
    && after == before.(mm := after.mm, gfx := after.gfx)
    && (forall x :: x in after.mm ==> x in before.mm || InTable(before.table, x))
    && (forall x :: x in after.gfx ==> x in before.gfx || InTable(before.table, x))
  }

  /** Every buffer and DMA command alive is owned by exactly one binding, apart from the ones
      a call in progress still holds in its locals. */
  ghost predicate Objects(bindings: map<nat, Binding>, prepared: map<nat, Region>,
                          buffers: set<nat>, commands: set<nat>, loose: set<nat>) {
    && 0 !in buffers && 0 !in commands
    && (forall k :: k in bindings ==>
         && (bindings[k].buffer != 0 ==> bindings[k].buffer in buffers - loose)
         && (bindings[k].command != 0 ==> bindings[k].command in commands - loose)
         && (bindings[k].dmaPrepared <==> bindings[k].command != 0 && bindings[k].command in prepared)
         && (Held(bindings[k]) ==> !bindings[k].keeper.Nobody?)
         && (bindings[k].keeper.Command? ==>
              && bindings[k].keeper.id in commands
              && (bindings[k].keeper.id in loose || bindings[k].keeper.id == bindings[k].command)))
    && (forall x :: x in buffers - loose ==> exists k :: k in bindings && bindings[k].buffer == x)
    && (forall x :: x in commands - loose ==> exists k :: k in bindings && bindings[k].command == x)
    && (forall j, k :: j in bindings && k in bindings && j != k ==>
         && (bindings[j].buffer != 0 ==> bindings[j].buffer != bindings[k].buffer)
         && (bindings[j].command != 0 ==> bindings[j].command != bindings[k].command))
    && prepared.Keys <= commands
  }

  function ReservationOf(b: Binding): Reservation {
    Reservation(b.gartOffset, b.sizeBytes, b.reservationID)
  }

  /** The binding that gart_bind_range publishes. */
  function NewBinding(busAddr: nat, bytes: nat, r: Reservation, start: nat, ready: bool, keeper: Keeper): Binding {
    Binding(0, 0, busAddr, bytes, r.id, r.offset, start + r.offset, bytes / GPU_PAGE, true, ready, false, keeper)
  }

  /** A reservation identity, once retired, never becomes live again. */
  ghost predicate NewIdsOnly(liveBefore: set<Reservation>, lastBefore: nat, liveAfter: set<Reservation>) {
    forall r :: r in liveAfter ==> r in liveBefore || r.id > lastBefore
  }

  /** What one moment of a run remembers of the allocator. */
  datatype Snapshot = Snapshot(session: nat, live: set<Reservation>, lastID: nat)

  /** From one moment of a run to a later one: within a session no retired identity comes back. */
  ghost predicate LaterIds(a: Snapshot, b: Snapshot) {
    && a.session <= b.session
    && (a.session == b.session ==> a.lastID <= b.lastID && NewIdsOnly(a.live, a.lastID, b.live))
  }

  ghost predicate OrderedIds(log: seq<Snapshot>) {
    forall i, j :: 0 <= i <= j < |log| ==> LaterIds(log[i], log[j])
  }

  lemma LaterIdsTransitive(a: Snapshot, b: Snapshot, c: Snapshot)
    requires LaterIds(a, b) && LaterIds(b, c)
    ensures LaterIds(a, c)
  {
  }

  lemma OrderedIdsExtend(log: seq<Snapshot>, next: Snapshot)
    requires log != [] && OrderedIds(log) && LaterIds(log[|log| - 1], next)
    ensures OrderedIds(log + [next])
  {
    var longer := log + [next];
    forall i, j | 0 <= i <= j < |longer|
      ensures LaterIds(longer[i], longer[j])
    {
      if i < |log| && j == |log| {
        LaterIdsTransitive(log[i], log[|log| - 1], next);
      } else if j < |log| {
        assert LaterIds(log[i], log[j]);
      }
    }
  }

  /** One call of a client, or the GPU on its own. */
  datatype Call =
    | AddCall(k: nat)
    | PinCall(region: Region)
    | UnpinCall(region: Region)
    | ExistingCall(k: nat, busAddr: nat, bytes: nat)
    | SysmemCall(k: nat, bytes: nat, alignment: nat)
    | UnbindCall(k: nat)
    | WindowCall(base: nat)
    | InitCall
    | WalkCall
    // a verified reset, the release of one binding after it, and the next session
    | ResetCall
    | ReleaseCall(k: nat)
    | RestartCall(entries: nat, gmcStart: nat, gmcSize: nat)

  predicate Complete(s: State, b: Binding) {
    forall p :: 0 <= p < |s.table| && InPages(b, p) ==> s.table[p] == Expected(b, p)
  }

  ghost predicate SameOutside(before: State, after: State, b: Binding) {
    |after.table| == |before.table| &&
    forall p :: 0 <= p < |after.table| && !InPages(b, p) ==> after.table[p] == before.table[p]
  }

  /** What a bind did: nothing at all, or a reservation under a new id that the binding owns,
      ready exactly when every step was acknowledged. Success always means a complete mapping. */
  ghost predicate Bound(before: State, after: State, k: nat, busAddr: nat, bytes: nat, alignment: nat, keeper: Keeper,
                        start: nat, status: Status, liveBefore: set<Reservation>, liveAfter: set<Reservation>, lastBefore: nat) {
    && k in before.bindings && k in after.bindings
    && OnlyTable(before, after.(bindings := before.bindings))
    && after.bindings == before.bindings[k := after.bindings[k]]
    && var was, b := before.bindings[k], after.bindings[k];
    && SameOutside(before, after, b)
    && (if b == was then
          liveAfter == liveBefore && (Held(was) || status != Success) && after == before
        else
          && !Held(was) && was.buffer == 0 && was.command == 0
          && ReservationOf(b) !in liveBefore && b.reservationID > lastBefore
          && liveAfter == liveBefore + {ReservationOf(b)}
          && b == NewBinding(busAddr, bytes, ReservationOf(b), start, status == Success, keeper))
    && (status == Success ==>
         && Held(b) && b.ready && Complete(after, b) && b.busAddr == busAddr && b.sizeBytes == bytes
         && alignment > 0 && b.gartMCAddr % alignment == 0)
  }

  /** What an unbind did: on success the binding is empty, its entries are gone from the table and
      both TLBs, and its reservation is retired; on failure everything it owned is retained. */
  ghost predicate Unbound(before: State, after: State, k: nat, status: Status,
                          liveBefore: set<Reservation>, liveAfter: set<Reservation>) {
    && k in before.bindings && k in after.bindings
    && var b := before.bindings[k];
    && after == before.(table := after.table, mm := after.mm, gfx := after.gfx,
                        bindings := before.bindings[k := after.bindings[k]], prepared := after.prepared)
    && SameOutside(before, after, b)
    && if status == Success then
         && after.bindings[k] == EMPTY && Quiet(after, b)
         && liveAfter == liveBefore - (if Held(b) then {ReservationOf(b)} else {})
         && after.prepared == before.prepared - {b.command}
       else
         && after.bindings[k] == b.(ready := after.bindings[k].ready) && (after.bindings[k].ready ==> b.ready)
         && liveAfter == liveBefore && after.prepared == before.prepared
  }

  /** A complete mapping whose DMA command the binding itself holds. */
  ghost predicate SysmemBound(s: State, k: nat, bytes: nat, alignment: nat) {
    && k in s.bindings
    && var b := s.bindings[k];
    && Held(b) && b.ready && Complete(s, b) && b.buffer != 0 && b.command != 0 && b.keeper == Command(b.command)
    && b.sizeBytes == bytes && alignment > 0 && b.gartMCAddr % alignment == 0
  }

  /** What is newly alive after gart_bind_sysmem is exactly what its binding took over. */
  ghost predicate SysmemOutcome(before: State, after: State, k: nat, buffersBefore: set<nat>, buffersAfter: set<nat>,
                                commandsBefore: set<nat>, commandsAfter: set<nat>) {
    && k in before.bindings && k in after.bindings && after.bindings == before.bindings[k := after.bindings[k]]
    && after.pinned == before.pinned && after.isolated == before.isolated
    && SameOutside(before, after, after.bindings[k])
    && var b, was := after.bindings[k], before.bindings[k];
    if b.command == was.command then
      buffersAfter == buffersBefore && commandsAfter == commandsBefore && after.prepared == before.prepared
    else
      && was.command == 0 && b.command !in commandsBefore && b.buffer !in buffersBefore && b.command in after.prepared
      && buffersAfter == buffersBefore + {b.buffer} && commandsAfter == commandsBefore + {b.command}
      && after.prepared - {b.command} == before.prepared
  }

  /** The same, seen from where the new objects already exist: the binding keeps both or neither. */
  ghost predicate BackedOutcome(before: State, after: State, k: nat, buffersBefore: set<nat>, buffersAfter: set<nat>,
                                commandsBefore: set<nat>, commandsAfter: set<nat>, buffer: nat, command: nat) {
    && k in before.bindings && k in after.bindings && after.bindings == before.bindings[k := after.bindings[k]]
    && after.pinned == before.pinned && after.isolated == before.isolated
    && SameOutside(before, after, after.bindings[k])
    && var b := after.bindings[k];
    if b.command == 0 then
      b.buffer == 0 && buffersAfter == buffersBefore - {buffer} && commandsAfter == commandsBefore - {command} &&
      after.prepared == before.prepared - {command}
    else
      b.buffer == buffer && b.command == command && buffersAfter == buffersBefore && commandsAfter == commandsBefore &&
      after.prepared == before.prepared
  }

  lemma NothingHappened(s: State, k: nat, buffers: set<nat>, commands: set<nat>)
    requires k in s.bindings
    ensures SysmemOutcome(s, s, k, buffers, buffers, commands, commands)
  {
    assert s.bindings == s.bindings[k := s.bindings[k]];
  }

  lemma BackingIsNew(before: State, after: State, k: nat, buffersBefore: set<nat>, buffersAfter: set<nat>,
                     commandsBefore: set<nat>, commandsAfter: set<nat>, buffer: nat, command: nat, segment: Region)
    requires k in before.bindings && before.bindings[k].command == 0 && before.prepared.Keys <= commandsBefore
    requires buffer !in buffersBefore && command !in commandsBefore && command != 0
    requires BackedOutcome(before.(prepared := before.prepared[command := segment]), after, k,
                           buffersBefore + {buffer}, buffersAfter, commandsBefore + {command}, commandsAfter, buffer, command)
    ensures SysmemOutcome(before, after, k, buffersBefore, buffersAfter, commandsBefore, commandsAfter)
  {
    assert before.prepared[command := segment] - {command} == before.prepared;
  }

  lemma KeepersAreAlive(bindings: map<nat, Binding>, prepared: map<nat, Region>, buffers: set<nat>, commands: set<nat>)
    requires Objects(bindings, prepared, buffers, commands, {})
    ensures prepared.Keys <= commands
    ensures forall j :: j in bindings && bindings[j].keeper.Command? ==> bindings[j].keeper.id in commands
    ensures forall j :: j in bindings && bindings[j].command == 0 ==> !bindings[j].keeper.Command?
  {
  }

  ghost predicate BindingAgrees(s: State, live: set<Reservation>, base: nat, b: Binding) {
    if Held(b) then
      && Backed(s, b)
      && b.reservationID != 0 && ReservationOf(b) in live
      && b.gartMCAddr == base + b.gartOffset
      && (b.ready ==> Complete(s, b))
    else !b.owned && !b.ready
  }

  /** Bindings, reservations and page table agree. */
  ghost predicate Agrees(s: State, live: set<Reservation>, base: nat) {
    && (forall k :: k in s.bindings ==> BindingAgrees(s, live, base, s.bindings[k]))
    && (forall j, k :: j in s.bindings && k in s.bindings && j != k && Held(s.bindings[j]) && Held(s.bindings[k]) ==>
         s.bindings[j].reservationID != s.bindings[k].reservationID)
    && (forall r :: r in live ==> exists k :: k in s.bindings && Held(s.bindings[k]) && ReservationOf(s.bindings[k]) == r)
  }

  lemma PreparingIsSound(s: State, c: nat, r: Region, live: set<Reservation>, base: nat)
    requires Inv(s) && Agrees(s, live, base) && c !in s.prepared
    ensures Inv(s.(prepared := s.prepared[c := r])) && Agrees(s.(prepared := s.prepared[c := r]), live, base)
  {
    var t := s.(prepared := s.prepared[c := r]);
    QuietTransfers(s, t);
    forall j | j in t.bindings
      ensures BindingAgrees(t, live, base, t.bindings[j])
    {
      assert BindingAgrees(s, live, base, s.bindings[j]);
    }
  }

  /** A new buffer and a new prepared command, still in the locals of the call that made them. */
  lemma NewObjectsAreLoose(bindings: map<nat, Binding>, prepared: map<nat, Region>, buffers: set<nat>, commands: set<nat>,
                           buffer: nat, command: nat, r: Region)
    requires Objects(bindings, prepared, buffers, commands, {})
    requires buffer != 0 && command != 0 && buffer !in buffers && command !in commands && buffer !in commands && command !in buffers
    ensures Objects(bindings, prepared[command := r], buffers + {buffer}, commands + {command}, {buffer, command})
  {
    forall x | x in buffers + {buffer} - {buffer, command}
      ensures exists j :: j in bindings && bindings[j].buffer == x
    {
      assert x in buffers - {};
    }
    forall x | x in commands + {command} - {buffer, command}
      ensures exists j :: j in bindings && bindings[j].command == x
    {
      assert x in commands - {};
    }
  }

  function Adopt(b: Binding, buffer: nat, command: nat): Binding {
    b.(buffer := buffer, command := command, dmaPrepared := true)
  }

  /** The binding takes over the loose objects. */
  lemma AdoptionKeepsObjects(bindings: map<nat, Binding>, prepared: map<nat, Region>, buffers: set<nat>, commands: set<nat>,
                             k: nat, buffer: nat, command: nat)
    requires Objects(bindings, prepared, buffers, commands, {buffer, command}) && k in bindings
    requires bindings[k].buffer == 0 && bindings[k].command == 0
    requires buffer in buffers && command in commands && command in prepared && buffer !in commands && command !in buffers
    requires forall j :: j in bindings && j != k && bindings[j].keeper.Command? ==> bindings[j].keeper.id != command
    requires bindings[k].keeper.Command? ==> bindings[k].keeper.id == command
    ensures Objects(bindings[k := Adopt(bindings[k], buffer, command)], prepared, buffers, commands, {})
  {
    var after := bindings[k := Adopt(bindings[k], buffer, command)];
    forall x | x in buffers - {}
      ensures exists j :: j in after && after[j].buffer == x
    {
      if x == buffer {
        assert after[k].buffer == x;
      } else {
        assert x in buffers - {buffer, command};
        var j :| j in bindings && bindings[j].buffer == x;
        assert after[j].buffer == x;
      }
    }
    forall x | x in commands - {}
      ensures exists j :: j in after && after[j].command == x
    {
      if x == command {
        assert after[k].command == x;
      } else {
        assert x in commands - {buffer, command};
        var j :| j in bindings && bindings[j].command == x;
        assert after[j].command == x;
      }
    }
  }

  /** Nothing refers to the aperture base except bindings that hold a range. */
  lemma EmptyApertureMoves(s: State, base: nat, other: nat)
    requires Agrees(s, {}, base)
    ensures Agrees(s, {}, other) && forall k :: k in s.bindings ==> !Held(s.bindings[k])
  {
    forall k | k in s.bindings
      ensures BindingAgrees(s, {}, other, s.bindings[k]) && !Held(s.bindings[k])
    {
      assert BindingAgrees(s, {}, base, s.bindings[k]);
    }
  }

  lemma WindowIsPageAligned(base: nat, size: nat)
    requires size > 0 && size % GPU_PAGE == 0 && base % size == 0
    ensures base % GPU_PAGE == 0
  {
    var q, r := base / size, size / GPU_PAGE;
    assert base == q * (r * GPU_PAGE) == (q * r) * GPU_PAGE;
    NonNegative(q, r);
    ModOfMultiple(q * r, GPU_PAGE);
  }

  lemma EmptyBindingKeepsInv(s: State, k: nat)
    requires Inv(s) && k !in s.bindings
    ensures Inv(s.(bindings := s.bindings[k := EMPTY]))
  {
    var t := s.(bindings := s.bindings[k := EMPTY]);
    VisibleBindingsExplain(s, t.bindings);
    QuietTransfers(s, t);
    hide Quiet, TableExplained, TlbExplained;
  }

  lemma CompleteTransfers(s: State, t: State, b: Binding)
    requires t.table == s.table
    ensures Complete(s, b) <==> Complete(t, b)
  {
  }

  lemma EmptyBindingAgrees(s: State, k: nat, live: set<Reservation>, base: nat)
    requires Agrees(s, live, base) && k !in s.bindings
    ensures Agrees(s.(bindings := s.bindings[k := EMPTY]), live, base)
  {
    var t := s.(bindings := s.bindings[k := EMPTY]);
    hide Complete;
    forall j | j in t.bindings
      ensures BindingAgrees(t, live, base, t.bindings[j])
    {
      if j != k {
        assert BindingAgrees(s, live, base, s.bindings[j]);
        CompleteTransfers(s, t, s.bindings[j]);
      }
    }
    forall r | r in live
      ensures exists j :: j in t.bindings && Held(t.bindings[j]) && ReservationOf(t.bindings[j]) == r
    {
      var j :| j in s.bindings && Held(s.bindings[j]) && ReservationOf(s.bindings[j]) == r;
      assert t.bindings[j] == s.bindings[j];
    }
  }

  lemma EmptyBindingIsSound(s: State, k: nat, live: set<Reservation>, base: nat)
    requires Inv(s) && Agrees(s, live, base) && k !in s.bindings
    ensures var t := s.(bindings := s.bindings[k := EMPTY]); Inv(t) && Agrees(t, live, base)
  {
    EmptyBindingKeepsInv(s, k);
    EmptyBindingAgrees(s, k, live, base);
  }

  lemma EmptyBindingOwnsNothing(bindings: map<nat, Binding>, prepared: map<nat, Region>, buffers: set<nat>, commands: set<nat>, k: nat)
    requires Objects(bindings, prepared, buffers, commands, {}) && k !in bindings
    ensures Objects(bindings[k := EMPTY], prepared, buffers, commands, {})
  {
    var after := bindings[k := EMPTY];
    forall x | x in buffers - {}
      ensures exists j :: j in after && after[j].buffer == x
    {
      var j :| j in bindings && bindings[j].buffer == x;
      assert after[j] == bindings[j];
    }
    forall x | x in commands - {}
      ensures exists j :: j in after && after[j].command == x
    {
      var j :| j in bindings && bindings[j].command == x;
      assert after[j] == bindings[j];
    }
  }

  lemma PinningIsSound(s: State, pinned: set<Region>, live: set<Reservation>, base: nat)
    requires Inv(s) && Agrees(s, live, base)
    requires forall k :: k in s.bindings && Held(s.bindings[k]) && s.bindings[k].keeper == Caller ==>
               Region(s.bindings[k].busAddr, s.bindings[k].sizeBytes) in pinned
    ensures Inv(s.(pinned := pinned)) && Agrees(s.(pinned := pinned), live, base)
  {
    var t := s.(pinned := pinned);
    QuietTransfers(s, t);
    forall j | j in t.bindings
      ensures BindingAgrees(t, live, base, t.bindings[j])
    {
      assert BindingAgrees(s, live, base, s.bindings[j]);
    }
  }

  lemma QuietDependsOnPages(s: State, a: Binding, b: Binding)
    requires SameMapping(a, b)
    ensures Quiet(s, a) <==> Quiet(s, b)
  {
  }

  lemma DetachThenRetire(before: State, mid: State, after: State, k: nat, status: Status,
                         liveBefore: set<Reservation>, liveAfter: set<Reservation>)
    requires k in before.bindings && OnlyTable(before, mid.(bindings := before.bindings))
    requires mid.bindings == before.bindings[k := before.bindings[k].(ready := false)]
    requires SameOutside(before, mid, before.bindings[k]) && Unbound(mid, after, k, status, liveBefore, liveAfter)
    ensures Unbound(before, after, k, status, liveBefore, liveAfter)
  {
    QuietDependsOnPages(after, before.bindings[k], mid.bindings[k]);
  }

  lemma FailedDetachRetains(before: State, after: State, k: nat, status: Status, live: set<Reservation>)
    requires k in before.bindings && status != Success && OnlyTable(before, after.(bindings := before.bindings))
    requires after.bindings == before.bindings[k := before.bindings[k].(ready := false)]
    requires SameOutside(before, after, before.bindings[k])
    ensures Unbound(before, after, k, status, live, live)
  {
  }

  lemma RejectedUnbindRetains(before: State, after: State, k: nat, status: Status, live: set<Reservation>)
    requires k in before.bindings && status != Success && after == before.(mm := after.mm, gfx := after.gfx)
    ensures Unbound(before, after, k, status, live, live)
  {
    assert before.bindings == before.bindings[k := before.bindings[k]];
  }

  lemma RetirementUnbinds(before: State, after: State, k: nat, liveBefore: set<Reservation>, liveAfter: set<Reservation>)
    requires k in before.bindings && Quiet(after, before.bindings[k])
    requires after == before.(mm := after.mm, gfx := after.gfx, bindings := before.bindings[k := EMPTY],
                              prepared := before.prepared - {before.bindings[k].command})
    requires liveAfter == liveBefore - (if Held(before.bindings[k]) then {ReservationOf(before.bindings[k])} else {})
    ensures Unbound(before, after, k, Success, liveBefore, liveAfter)
  {
  }

  lemma UnheldIsQuiet(s: State, b: Binding)
    requires !Held(b)
    ensures Quiet(s, b)
  {
  }

  lemma QuietAfterWalks(before: State, after: State, b: Binding)
    requires Quiet(before, b) && OnlyWalks(before, after)
    ensures Quiet(after, b)
  {
  }

  /** A binding other than the dropped one keeps its reservation and its mapping. */
  lemma OtherAgrees(s: State, t: State, live: set<Reservation>, base: nat, k: nat, j: nat)
    requires Agrees(s, live, base) && k in s.bindings && j in s.bindings && j != k
    requires s.bindings[k].command != 0 ==> s.bindings[j].keeper != Command(s.bindings[k].command)
    requires t == s.(bindings := t.bindings, prepared := s.prepared - {s.bindings[k].command}) && 0 !in s.prepared
    ensures BindingAgrees(t, live - (if Held(s.bindings[k]) then {ReservationOf(s.bindings[k])} else {}), base, s.bindings[j])
  {
    assert BindingAgrees(s, live, base, s.bindings[j]);
    CompleteTransfers(s, t, s.bindings[j]);
  }

  /** Dropping a quiet binding, its DMA mapping and its reservation together. */
  lemma RetirementAgrees(s: State, k: nat, live: set<Reservation>, base: nat)
    requires Agrees(s, live, base) && k in s.bindings
    requires s.bindings[k].command != 0 ==> forall j :: j in s.bindings && j != k ==> s.bindings[j].keeper != Command(s.bindings[k].command)
    requires 0 !in s.prepared
    ensures var t := s.(bindings := s.bindings[k := EMPTY], prepared := s.prepared - {s.bindings[k].command});
            Agrees(t, live - (if Held(s.bindings[k]) then {ReservationOf(s.bindings[k])} else {}), base)
  {
    var b := s.bindings[k];
    var t := s.(bindings := s.bindings[k := EMPTY], prepared := s.prepared - {b.command});
    var left := live - (if Held(b) then {ReservationOf(b)} else {});
    hide Complete;
    forall j | j in t.bindings
      ensures BindingAgrees(t, left, base, t.bindings[j])
    {
      if j != k {
        OtherAgrees(s, t, live, base, k, j);
      }
    }
    forall r | r in left
      ensures exists j :: j in t.bindings && Held(t.bindings[j]) && ReservationOf(t.bindings[j]) == r
    {
      var j :| j in s.bindings && Held(s.bindings[j]) && ReservationOf(s.bindings[j]) == r;
      assert t.bindings[j] == s.bindings[j];
    }
  }

  lemma ObjectsDependOnPointers(bindings: map<nat, Binding>, after: map<nat, Binding>, prepared: map<nat, Region>,
                                buffers: set<nat>, commands: set<nat>, loose: set<nat>)
    requires Objects(bindings, prepared, buffers, commands, loose) && after.Keys == bindings.Keys
    requires forall j :: j in bindings ==>
               && after[j].buffer == bindings[j].buffer && after[j].command == bindings[j].command
               && after[j].dmaPrepared == bindings[j].dmaPrepared
    requires forall j :: j in after ==>
               && (Held(after[j]) ==> !after[j].keeper.Nobody?)
               && (after[j].keeper.Command? ==>
                    && after[j].keeper.id in commands
                    && (after[j].keeper.id in loose || after[j].keeper.id == after[j].command))
    ensures Objects(after, prepared, buffers, commands, loose)
  {
    forall x | x in buffers - loose
      ensures exists j :: j in after && after[j].buffer == x
    {
      var j :| j in bindings && bindings[j].buffer == x;
      assert after[j].buffer == x;
    }
    forall x | x in commands - loose
      ensures exists j :: j in after && after[j].command == x
    {
      var j :| j in bindings && bindings[j].command == x;
      assert after[j].command == x;
    }
  }

  lemma SettingKeepsObjects(bindings: map<nat, Binding>, prepared: map<nat, Region>, buffers: set<nat>, commands: set<nat>,
                            loose: set<nat>, k: nat, b: Binding)
    requires Objects(bindings, prepared, buffers, commands, loose) && k in bindings
    requires b.buffer == bindings[k].buffer && b.command == bindings[k].command && b.dmaPrepared == bindings[k].dmaPrepared
    requires Held(b) ==> !b.keeper.Nobody?
    requires b.keeper.Command? ==> b.keeper.id in commands && (b.keeper.id in loose || b.keeper.id == b.command)
    ensures Objects(bindings[k := b], prepared, buffers, commands, loose)
  {
    ObjectsDependOnPointers(bindings, bindings[k := b], prepared, buffers, commands, loose);
  }

  /** What binding a loose command means for its binding: the pointers are still null, and the
      command keeps it backed if anything was published. */
  lemma BoundKeepsPointers(before: State, after: State, k: nat, busAddr: nat, bytes: nat, alignment: nat, command: nat,
                           start: nat, status: Status, liveBefore: set<Reservation>, liveAfter: set<Reservation>, lastBefore: nat,
                           buffers: set<nat>, commands: set<nat>, loose: set<nat>)
    requires Bound(before, after, k, busAddr, bytes, alignment, Command(command), start, status, liveBefore, liveAfter, lastBefore)
    requires Objects(before.bindings, before.prepared, buffers, commands, loose) && command in commands && command in loose
    requires before.bindings[k].command == 0 && before.bindings[k].buffer == 0 && !Held(before.bindings[k])
    requires !before.bindings[k].keeper.Command? && !before.bindings[k].dmaPrepared
    ensures NewIdsOnly(liveBefore, lastBefore, liveAfter)
    ensures OnlyTable(before, after.(bindings := before.bindings)) && k in after.bindings
    ensures after.bindings == before.bindings[k := after.bindings[k]] && SameOutside(before, after, after.bindings[k])
    ensures Objects(after.bindings, after.prepared, buffers, commands, loose)
    ensures var b := after.bindings[k];
            && b.buffer == 0 && b.command == 0 && (b.keeper.Command? ==> b.keeper.id == command)
            && (status == Success ==>
                 && Held(b) && b.ready && Complete(after, b) && b.keeper == Command(command) && b.sizeBytes == bytes
                 && alignment > 0 && b.gartMCAddr % alignment == 0)
  {
    SettingKeepsObjects(before.bindings, before.prepared, buffers, commands, loose, k, after.bindings[k]);
  }

  /** The outcome of binding a prepared segment: the binding holds both objects in any case. */
  ghost predicate BoundBacked(before: State, after: State, k: nat, bytes: nat, alignment: nat,
                              buffer: nat, command: nat, keeper: nat, status: Status) {
    && k in before.bindings && k in after.bindings && OnlyTable(before, after.(bindings := before.bindings))
    && after.bindings == before.bindings[k := after.bindings[k]] && SameOutside(before, after, after.bindings[k])
    && var b := after.bindings[k];
    && b.buffer == buffer && b.command == command
    && (status == Success ==>
         && Held(b) && b.ready && Complete(after, b) && b.keeper == Command(keeper) && b.sizeBytes == bytes
         && alignment > 0 && b.gartMCAddr % alignment == 0)
  }

  lemma CompleteDependsOnMapping(before: State, s: State, t: State, a: Binding, b: Binding)
    requires t.table == s.table && SameMapping(a, b)
    ensures Complete(s, a) <==> Complete(t, b)
    ensures SameOutside(before, s, a) <==> SameOutside(before, t, b)
  {
  }

  lemma AdoptedIsBacked(before: State, bound: State, after: State, k: nat, bytes: nat, alignment: nat,
                        buffer: nat, command: nat, status: Status)
    requires BoundBacked(before, bound, k, bytes, alignment, 0, 0, command, status)
    requires after == bound.(bindings := bound.bindings[k := Adopt(bound.bindings[k], buffer, command)])
    ensures BoundBacked(before, after, k, bytes, alignment, buffer, command, command, status)
  {
    CompleteDependsOnMapping(before, bound, after, bound.bindings[k], after.bindings[k]);
  }

  lemma FlagKeepsObjects(bindings: map<nat, Binding>, prepared: map<nat, Region>, buffers: set<nat>, commands: set<nat>,
                         k: nat, ready: bool)
    requires Objects(bindings, prepared, buffers, commands, {}) && k in bindings
    ensures Objects(bindings[k := bindings[k].(ready := ready)], prepared, buffers, commands, {})
  {
    SettingKeepsObjects(bindings, prepared, buffers, commands, {}, k, bindings[k].(ready := ready));
  }

  lemma CommandHasOneOwner(bindings: map<nat, Binding>, prepared: map<nat, Region>, buffers: set<nat>, commands: set<nat>, k: nat)
    requires Objects(bindings, prepared, buffers, commands, {}) && k in bindings
    ensures 0 !in prepared
    ensures forall j :: j in bindings && j != k ==> bindings[j].keeper != Command(bindings[k].command)
    ensures !bindings[k].dmaPrepared ==> bindings[k].command !in prepared
  {
  }

  /** The objects of one binding are released, and no other binding named them. */
  lemma ReleaseObjects(bindings: map<nat, Binding>, prepared: map<nat, Region>, buffers: set<nat>, commands: set<nat>, k: nat)
    requires Objects(bindings, prepared, buffers, commands, {}) && k in bindings
    ensures var b := bindings[k];
            Objects(bindings[k := EMPTY], prepared - {b.command}, buffers - {b.buffer}, commands - {b.command}, {})
  {
    var b := bindings[k];
    var after := bindings[k := EMPTY];
    forall x | x in buffers - {b.buffer}
      ensures exists j :: j in after && after[j].buffer == x
    {
      assert x in buffers - {};
      var j :| j in bindings && bindings[j].buffer == x;
      assert after[j] == bindings[j];
    }
    forall x | x in commands - {b.command}
      ensures exists j :: j in after && after[j].command == x
    {
      assert x in commands - {};
      var j :| j in bindings && bindings[j].command == x;
      assert after[j] == bindings[j];
    }
  }

  /** Table writes inside the pages of one binding that is not ready disturb no other. */
  lemma WritesAgree(before: State, after: State, k: nat, live: set<Reservation>, base: nat)
    requires Inv(before) && Agrees(before, live, base) && OnlyTable(before, after)
    requires k in before.bindings && !before.bindings[k].ready
    requires SameOutside(before, after, before.bindings[k])
    ensures Agrees(after, live, base)
  {
    forall j | j in after.bindings
      ensures BindingAgrees(after, live, base, after.bindings[j])
    {
      var b := before.bindings[j];
      assert BindingAgrees(before, live, base, b);
      if Held(b) && b.ready {
        assert Apart(b, before.bindings[k]);
        forall p | 0 <= p < |after.table| && InPages(b, p)
          ensures after.table[p] == Expected(b, p)
        {
          assert !InPages(before.bindings[k], p);
        }
      }
    }
  }

  lemma WalksAgree(before: State, after: State, live: set<Reservation>, base: nat)
    requires Agrees(before, live, base) && after == before.(mm := after.mm, gfx := after.gfx)
    ensures Agrees(after, live, base)
  {
    forall j | j in after.bindings
      ensures BindingAgrees(after, live, base, after.bindings[j])
    {
      assert BindingAgrees(before, live, base, before.bindings[j]);
    }
  }

  lemma NothingBound(s: State, k: nat, busAddr: nat, bytes: nat, alignment: nat, keeper: Keeper, start: nat,
                     live: set<Reservation>, last: nat)
    requires k in s.bindings && alignment > 0
    ensures Bound(s, s, k, busAddr, bytes, alignment, keeper, start, NoSpace, live, live, last)
  {
  }

  lemma PowerIsPositive(n: nat)
    requires PowerOfTwo(n)
    ensures n > 0
  {
  }

  /** A reservation published for a free binding and then uploaded is what a bind promises. */
  lemma PublishedIsBound(before: State, mid: State, after: State, k: nat, busAddr: nat, bytes: nat, alignment: nat, keeper: Keeper,
                         start: nat, status: Status, r: Reservation, liveBefore: set<Reservation>, lastBefore: nat)
    requires k in before.bindings && !Held(before.bindings[k]) && before.bindings[k].buffer == 0 && before.bindings[k].command == 0
    requires r !in liveBefore && r.id > lastBefore && r.size == bytes && BusRange(busAddr, bytes)
    requires alignment > 0 && (start + r.offset) % alignment == 0
    requires mid == before.(bindings := before.bindings[k := NewBinding(busAddr, bytes, r, start, false, keeper)])
    requires OnlyTable(mid, after.(bindings := mid.bindings)) && SameOutside(mid, after, mid.bindings[k])
    requires after.bindings == mid.bindings[k := mid.bindings[k].(ready := status == Success)]
    requires status == Success ==> Complete(after, after.bindings[k])
    ensures Bound(before, after, k, busAddr, bytes, alignment, keeper, start, status, liveBefore, liveBefore + {r}, lastBefore)
  {
  }

  /** Swapping in a binding for a free slot together with its new reservation. */
  lemma PublishAgrees(s: State, k: nat, b: Binding, live: set<Reservation>, base: nat)
    requires Agrees(s, live, base) && k in s.bindings && !Held(s.bindings[k])
    requires Held(b) && BindingAgrees(s, live + {ReservationOf(b)}, base, b)
    requires forall r :: r in live ==> r.id != b.reservationID
    ensures Agrees(s.(bindings := s.bindings[k := b]), live + {ReservationOf(b)}, base)
  {
    var t := s.(bindings := s.bindings[k := b]);
    var more := live + {ReservationOf(b)};
    forall j | j in t.bindings
      ensures BindingAgrees(t, more, base, t.bindings[j])
    {
      assert j != k ==> BindingAgrees(s, live, base, s.bindings[j]);
    }
    forall r | r in more
      ensures exists j :: j in t.bindings && Held(t.bindings[j]) && ReservationOf(t.bindings[j]) == r
    {
      if r in live {
        var j :| j in s.bindings && Held(s.bindings[j]) && ReservationOf(s.bindings[j]) == r;
        assert t.bindings[j] == s.bindings[j];
      } else {
        assert t.bindings[k] == b;
      }
    }
    forall i, j | i in t.bindings && j in t.bindings && i != j && Held(t.bindings[i]) && Held(t.bindings[j])
      ensures t.bindings[i].reservationID != t.bindings[j].reservationID
    {
      assert i != k ==> BindingAgrees(s, live, base, s.bindings[i]);
      assert j != k ==> BindingAgrees(s, live, base, s.bindings[j]);
    }
  }

  /** Changing only flags and host pointers of a binding; `ready` only once the table is complete. */
  lemma RelabelAgrees(s: State, k: nat, b: Binding, live: set<Reservation>, base: nat)
    requires Agrees(s, live, base) && k in s.bindings && SameMapping(s.bindings[k], b)
    requires b.reservationID == s.bindings[k].reservationID && b.gartMCAddr == s.bindings[k].gartMCAddr
    requires b.ready ==> Held(b) && Complete(s, b)
    ensures Agrees(s.(bindings := s.bindings[k := b]), live, base)
  {
    var t := s.(bindings := s.bindings[k := b]);
    assert BindingAgrees(s, live, base, s.bindings[k]);
    hide Complete;
    forall j | j in t.bindings
      ensures BindingAgrees(t, live, base, t.bindings[j])
    {
      assert BindingAgrees(s, live, base, s.bindings[j]);
      CompleteTransfers(s, t, t.bindings[j]);
    }
    forall r | r in live
      ensures exists j :: j in t.bindings && Held(t.bindings[j]) && ReservationOf(t.bindings[j]) == r
    {
      var j :| j in s.bindings && Held(s.bindings[j]) && ReservationOf(s.bindings[j]) == r;
      assert Held(t.bindings[j]) && ReservationOf(t.bindings[j]) == r;
    }
    forall i, j | i in t.bindings && j in t.bindings && i != j && Held(t.bindings[i]) && Held(t.bindings[j])
      ensures t.bindings[i].reservationID != t.bindings[j].reservationID
    {
      assert Held(s.bindings[i]) && Held(s.bindings[j]);
    }
  }

  lemma PageIsPowerOfTwo()
    ensures PowerOfTwo(GPU_PAGE) && PowerOfTwo(AS_PAGE)
  {
    assert PowerOfTwo(64) by {
      assert PowerOfTwo(16);
    }
    Product(64, 64);
    assert PowerOfTwo(4);
    Product(GPU_PAGE, 4);
  }

  /** Whatever stands in a binding's page was put there for that binding. */
  lemma OwnEntryIsPart(s: State, k: nat, page: nat)
    requires Inv(s) && k in s.bindings && page < |s.table| && InPages(s.bindings[k], page)
    ensures PartOf(s.table[page], Expected(s.bindings[k], page))
  {
    assert EntryExplained(s.table, s.bindings, page);
    if s.table[page] != CLEAR {
      var j :| j in s.bindings && Explains(s.bindings[j], page, s.table[page]);
      assert Apart(s.bindings[j], s.bindings[k]) || j == k;
    }
  }

  /** A placement the allocator just found cannot touch the pages of any live binding. */
  lemma FreshRangeIsApart(s: State, live: set<Reservation>, base: nat, r: Reservation, b: Binding)
    requires Inv(s) && Agrees(s, live, base)
    requires forall l :: l in live ==> !Overlaps(l, r.offset, r.size)
    requires b.gartOffset == r.offset && b.numGPUPages == r.size / GPU_PAGE && r.offset % GPU_PAGE == 0 && r.size % GPU_PAGE == 0
    requires b.keeper.Command? ==> forall j :: j in s.bindings ==> s.bindings[j].keeper != b.keeper
    ensures forall j :: j in s.bindings ==> Apart(s.bindings[j], b) && Apart(b, s.bindings[j])
  {
    forall j | j in s.bindings && Held(s.bindings[j])
      ensures Apart(s.bindings[j], b) && Apart(b, s.bindings[j])
    {
      assert BindingAgrees(s, live, base, s.bindings[j]);
      assert Shaped(s, s.bindings[j]);
      assert !Overlaps(ReservationOf(s.bindings[j]), r.offset, r.size);
    }
  }

  lemma PublicationIsSound(s: State, k: nat, b: Binding, r: Reservation, live: set<Reservation>, base: nat, size: nat)
    requires Inv(s) && Agrees(s, live, base) && size / GPU_PAGE <= |s.table|
    requires k in s.bindings && !Held(s.bindings[k])
    requires r.id != 0 && r.size > 0 && End(r) <= size && r.offset % GPU_PAGE == 0
    requires forall l :: l in live ==> l.id != r.id && !Overlaps(l, r.offset, r.size)
    requires b == NewBinding(b.busAddr, r.size, r, base, false, b.keeper) && BusRange(b.busAddr, r.size) && Backed(s, b)
    requires b.keeper.Command? ==> forall j :: j in s.bindings ==> s.bindings[j].keeper != b.keeper
    ensures Inv(s.(bindings := s.bindings[k := b])) && Agrees(s.(bindings := s.bindings[k := b]), live + {r}, base)
  {
    hide Inv, Agrees;
    FreshRangeIsApart(s, live, base, r, b);
    PublishKeepsInv(s, k, b);
    PublishAgrees(s, k, b, live, base);
  }

  lemma LooseIsUnprepared(bindings: map<nat, Binding>, prepared: map<nat, Region>,
                          buffers: set<nat>, commands: set<nat>, loose: set<nat>, k: nat)
    requires Objects(bindings, prepared, buffers, commands, loose) && k in bindings && bindings[k].command == 0
    ensures !bindings[k].dmaPrepared
  {
  }

  // ---- Between sessions ------------------------------------------------------------------------

  /** With every binding released nothing is left to own. */
  lemma AllReleased(bindings: map<nat, Binding>, prepared: map<nat, Region>, buffers: set<nat>, commands: set<nat>)
    requires Objects(bindings, prepared, buffers, commands, {}) && forall k :: k in bindings ==> bindings[k] == EMPTY
    ensures buffers == {} && commands == {} && prepared == map[]
  {
    forall x
      ensures x !in buffers && x !in commands
    {
      assert x in buffers ==> x in buffers - {};
      assert x in commands ==> x in commands - {};
    }
    assert prepared.Keys == {};
  }

  lemma NewSessionIsSound(s: State, entries: nat)
    requires s.mm == {} && s.gfx == {} && s.prepared == map[] && forall k :: k in s.bindings ==> s.bindings[k] == EMPTY
    ensures var n := s.(table := seq(entries, _ => CLEAR), isolated := false);
            && Inv(n) && Agrees(n, {}, 0) && Objects(n.bindings, n.prepared, {}, {}, {})
  {
  }

  // ---- What the agreement means ------------------------------------------------------------

  /** Entry i of a ready binding translates to bus page i, and the binding sits at its reservation. */
  lemma ReadyEntriesTranslate(s: State, live: set<Reservation>, base: nat, k: nat, i: nat)
    requires Inv(s) && Agrees(s, live, base) && k in s.bindings && i < s.bindings[k].numGPUPages
    ensures var b := s.bindings[k];
            && ReservationOf(b) in live && b.gartMCAddr == base + b.gartOffset && First(b) + i < |s.table|
            && (b.ready ==> Translates(s.table[First(b) + i]))
            && (Translates(s.table[First(b) + i]) ==> Target(s.table[First(b) + i]) == b.busAddr + GPU_PAGE * i)
  {
    var b := s.bindings[k];
    var p := First(b) + i;
    assert BindingAgrees(s, live, base, b) && InPages(b, p) && Shaped(s, b);
    PageInBusRange(s, b, p);
    OwnEntryIsPart(s, k, p);
    EntryDecodes(BusOf(b, p), s.table[p]);
  }

  predicate Covers(r: Reservation, page: nat) {
    r.offset <= page * GPU_PAGE < End(r)
  }

  /** An entry that no live reservation covers is zero. */
  lemma UnreservedEntriesAreClear(s: State, live: set<Reservation>, base: nat, page: nat)
    requires Inv(s) && Agrees(s, live, base) && page < |s.table|
    ensures s.table[page] == CLEAR || exists r :: r in live && Covers(r, page)
  {
    assert EntryExplained(s.table, s.bindings, page);
    if s.table[page] != CLEAR {
      var k :| k in s.bindings && Explains(s.bindings[k], page, s.table[page]);
      var b := s.bindings[k];
      assert BindingAgrees(s, live, base, b) && Shaped(s, b);
      assert Covers(ReservationOf(b), page);
    }
  }

  /** Bindings and live reservations are the same things seen from two sides, and no two share a page. */
  lemma BindingsAreReservations(s: State, live: set<Reservation>, base: nat)
    requires Inv(s) && Agrees(s, live, base)
    ensures forall r :: r in live <==> exists k :: k in s.bindings && Held(s.bindings[k]) && ReservationOf(s.bindings[k]) == r
    ensures forall j, k :: j in s.bindings && k in s.bindings && j != k ==>
              !exists p: nat :: InPages(s.bindings[j], p) && InPages(s.bindings[k], p)
  {
    forall j, k | j in s.bindings && k in s.bindings && j != k
      ensures !exists p: nat :: InPages(s.bindings[j], p) && InPages(s.bindings[k], p)
    {
      assert Apart(s.bindings[j], s.bindings[k]);
    }
    forall k | k in s.bindings && Held(s.bindings[k])
      ensures ReservationOf(s.bindings[k]) in live
    {
      assert BindingAgrees(s, live, base, s.bindings[k]);
    }
  }
}
