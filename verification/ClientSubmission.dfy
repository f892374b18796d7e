/** Raw submissions: `pending` and `current` name the only job the GPU may still owe a fence for, and
    `latches` remember what earlier jobs on the same slot completed. The GPU writes fences between any
    two steps, reads may fail, and ring writes and doorbells may be lost or may have arrived all the
    same. Models ClientSubmission in dext/amdgpu/amdgpu_client_lifecycle.h and SubmitIB and WaitFence
    in dext/MacAMDGPU.cpp. */
module ClientSubmission {
  import opened Words

  const SDMA_ENGINES: nat := 2

  /** The value one raw job writes when it is done: to its SDMA engine's slot or to the CP's. */
  datatype Fence = Sdma(value: nat) | Cp(value: nat)
  datatype Status = Success | Busy | NoResources | NoSpace | Failed | Timeout | BadArgument

  /** The two latches: the last fence the driver saw completed on either path. */
  datatype Latches = Latches(completed: nat, completedCPFence: nat)

  /** Fences handed out so far: SDMA values are counted, CP values are a set. */
  datatype Handed = Handed(issued: nat, rawCP: set<nat>)

  predicate Issued(f: Fence, h: Handed) {
    match f
    case Sdma(v) => 1 <= v <= h.issued
    case Cp(v) => v in h.rawCP
  }

  /** The driver's claim that a fence is done, as WaitFence makes it. */
  predicate Reported(f: Fence, l: Latches) {
    match f
    case Sdma(v) => v <= l.completed
    case Cp(v) => v <= l.completedCPFence
  }

  function Latched(l: Latches, f: Fence): Latches {
    match f
    case Sdma(v) => l.(completed := v)
    case Cp(v) => l.(completedCPFence := v)
  }

  /** Every fence handed out, other than the pending one, was written and is reported; the pending one
      is not reported, and it was written exactly when its slot shows it: it can neither be missed nor
      mistaken for another. A pending fence of value 0 is one not emitted yet. */
  ghost predicate Fences(pending: bool, current: Fence, slot: nat, h: Handed, l: Latches, inflight: set<Fence>, written: set<Fence>) {
    && (forall f :: Issued(f, h) && !(pending && f == current) ==> f in written && Reported(f, l))
    && (forall f :: f in written ==> Issued(f, h))
    && (forall f :: f in inflight ==> pending && current.value != 0 && f == current && f !in written)
    && (pending && current.value != 0 ==> Issued(current, h) && !Reported(current, l) && (current in written <==> slot == current.value))
    && (pending && current.value == 0 ==> current.Cp?)
    && 0 !in h.rawCP
    && (forall f :: Reported(f, l) && f.value != 0 && f.Sdma? ==> Issued(f, h))
  }

  lemma ExecuteKeepsFences(f: Fence, current: Fence, pending: bool, slot: nat, h: Handed, l: Latches, inflight: set<Fence>, written: set<Fence>)
    requires Fences(pending, current, slot, h, l, inflight, written) && f in inflight
    ensures pending && f == current && Issued(f, h) && Fences(pending, current, f.value, h, l, inflight - {f}, written + {f})
  {
  }

  /** Seeing the value completes exactly the pending job. */
  lemma CompleteKeepsFences(current: Fence, slot: nat, h: Handed, l: Latches, inflight: set<Fence>, written: set<Fence>, anySlot: nat)
    requires Fences(true, current, slot, h, l, inflight, written) && current.value != 0 && slot == current.value
    ensures current in written && Reported(current, Latched(l, current)) && inflight == {}
    ensures Fences(false, current, anySlot, h, Latched(l, current), inflight, written)
    ensures forall f :: Reported(f, l) ==> Reported(f, Latched(l, current))
  {
    assert inflight == {} by {
      if f :| f in inflight {
        assert false;
      }
    }
  }

  lemma BeginSdmaKeepsFences(current: Fence, slot: nat, h: Handed, l: Latches, inflight: set<Fence>, written: set<Fence>)
    requires Fences(false, current, slot, h, l, inflight, written) && l.completed == h.issued
    ensures Fences(true, Sdma(h.issued + 1), 0, h.(issued := h.issued + 1), l, inflight, written) && inflight == {}
  {
  }

  lemma BeginCpKeepsFences(current: Fence, slot: nat, h: Handed, l: Latches, inflight: set<Fence>, written: set<Fence>, cpSlot: nat)
    requires Fences(false, current, slot, h, l, inflight, written)
    ensures Fences(true, Cp(0), cpSlot, h, l, inflight, written) && inflight == {}
  {
  }

  /** The emitted value is larger than anything its slot may still show. */
  lemma EmitKeepsFences(value: nat, cpSlot: nat, h: Handed, l: Latches, inflight: set<Fence>, written: set<Fence>)
    requires Fences(true, Cp(0), cpSlot, h, l, inflight, written)
    requires cpSlot < value && l.completedCPFence < value && value !in h.rawCP
    ensures Fences(true, Cp(value), cpSlot, h.(rawCP := h.rawCP + {value}), l, inflight, written) && inflight == {}
  {
  }

  lemma LaunchKeepsFences(current: Fence, slot: nat, h: Handed, l: Latches, written: set<Fence>)
    requires Fences(true, current, slot, h, l, {}, written) && current.value != 0 && slot != current.value
    ensures Fences(true, current, slot, h, l, {current}, written)
  {
  }

  /** What the latches say is true: a reported fence that was handed out was written by the GPU, and
      the pending job is never reported. */
  lemma ReportedWasWritten(f: Fence, pending: bool, current: Fence, slot: nat, h: Handed, l: Latches, inflight: set<Fence>, written: set<Fence>)
    requires Fences(pending, current, slot, h, l, inflight, written) && Issued(f, h) && Reported(f, l)
    ensures f in written && !(pending && f == current)
  {
    assert f.value != 0;
  }

  ghost predicate ObserversSound(observer: nat, installed: nat, pending: bool, fired: seq<nat>) {
    && (observer != 0 ==> pending && observer == installed)
    && (forall i :: 0 <= i < |fired| ==> 1 <= fired[i] <= installed && (observer != 0 ==> fired[i] < observer))
    && (forall i, j :: 0 <= i < j < |fired| ==> fired[i] < fired[j])
  }

  lemma NotYetWritten(current: Fence, slot: nat, h: Handed, l: Latches, inflight: set<Fence>, written: set<Fence>)
    requires Fences(true, current, slot, h, l, inflight, written) && current.value != 0 && slot != current.value
    ensures current !in written
  {
  }

  lemma Settled(f: Fence, pending: bool, current: Fence, slot: nat, h: Handed, l: Latches, inflight: set<Fence>, written: set<Fence>)
    requires Fences(pending, current, slot, h, l, inflight, written) && Issued(f, h)
    ensures Reported(f, l) <==> !(pending && f == current)
    ensures Reported(f, l) ==> f in written
  {
    assert f.value != 0;
  }

  /** While nothing is pending the slots carry no information. */
  lemma IdleSlot(current: Fence, slot: nat, other: nat, h: Handed, l: Latches, inflight: set<Fence>, written: set<Fence>)
    requires Fences(false, current, slot, h, l, inflight, written)
    ensures Fences(false, current, other, h, l, inflight, written)
  {
  }

  /** Clearing the slot of a pending job is harmless exactly as long as the GPU has not written it: this
      is why admission polls before the slot is cleared. */
  lemma ClearingAPendingSlot(current: Fence, slot: nat, h: Handed, l: Latches, inflight: set<Fence>, written: set<Fence>)
    requires Fences(true, current, slot, h, l, inflight, written) && current.value != 0
    ensures Fences(true, current, 0, h, l, inflight, written) <==> current !in written
  {
  }

  /** Only one job can be counted but not completed, and no slot of the CP shows a value it has not
      reached. */
  ghost predicate CountersSound(pending: bool, current: Fence, h: Handed, l: Latches, cpSlot: nat, cpCounter: nat) {
    && h.issued <= U32_MAX - 1 && l.completed <= h.issued
    && (pending && current.Sdma? ==> current.value == h.issued == l.completed + 1)
    && (!pending || current.Cp? ==> l.completed == h.issued)
    && l.completedCPFence <= cpCounter && cpSlot <= cpCounter && forall v :: v in h.rawCP ==> v <= cpCounter
  }

  /** A client waits only for fences that were handed out. */
  ghost predicate CsSound(cs: map<nat, Fence>, lastCPFence: nat, h: Handed) {
    && (forall c :: c in cs && cs[c].value != 0 ==> Issued(cs[c], h))
    && (lastCPFence != 0 ==> lastCPFence in h.rawCP)
  }

  lemma CsOutlives(cs: map<nat, Fence>, lastCPFence: nat, h: Handed, n: Handed)
    requires CsSound(cs, lastCPFence, h) && h.issued <= n.issued && h.rawCP <= n.rawCP
    ensures CsSound(cs, lastCPFence, n)
  {
  }

  lemma CsSubmitted(cs: map<nat, Fence>, lastCPFence: nat, h: Handed, c: nat, f: Fence)
    requires CsSound(cs, lastCPFence, h) && (f.value != 0 ==> Issued(f, h))
    ensures CsSound(cs[c := f], lastCPFence, h)
  {
  }

  lemma CsDirect(cs: map<nat, Fence>, lastCPFence: nat, h: Handed, fence: nat)
    requires CsSound(cs, lastCPFence, h) && fence in h.rawCP
    ensures CsSound(cs, fence, h)
  {
  }

  lemma NothingHanded(slot: nat)
    ensures Fences(false, Cp(0), slot, Handed(0, {}), Latches(0, 0), {}, {})
  {
  }

  lemma NothingCounted(pending: bool, current: Fence, h: Handed, l: Latches, cpSlot: nat, cpCounter: nat)
    requires CountersSound(pending, current, h, l, cpSlot, cpCounter)
    ensures CountersSound(false, Cp(0), Handed(0, {}), Latches(0, 0), cpSlot, cpCounter)
  {
  }

  lemma NothingSubmitted(h: Handed)
    ensures CsSound(map[], 0, h)
  {
  }

  lemma NoObserver(observer: nat, installed: nat, pending: bool, fired: seq<nat>)
    requires ObserversSound(observer, installed, pending, fired)
    ensures ObserversSound(0, installed, pending, fired) && ObserversSound(0, installed, false, fired)
  {
  }

  class ClientSubmission {
    // ClientSubmission
    var pending: bool
    var current: Fence // usesCP and expected
    var handed: Handed // issued
    var latches: Latches // completed and completedCPFence
    var lastCPFence: nat
    var engine: nat // the SDMA instance the pending job's reader looks at
    var observer: nat // 0 is none
    // last_fence of each command submission; 0 before anything was submitted
    var cs: map<nat, Fence>
    // hardware: the slots in VRAM, the CP's fence counter, and the fence packets in a ring
    var sdmaSlot: seq<nat>
    var cpSlot: nat
    var cpCounter: nat
    var inflight: set<Fence>
    ghost var written: set<Fence>
    /** The observers that fired, in order, each named by how many had been installed. */
    var installed: nat
    ghost var fired: seq<nat>

    function Slot(): nat
      requires engine < |sdmaSlot|
      reads this
    {
      if current.Cp? then cpSlot else sdmaSlot[engine]
    }

    ghost predicate Valid()
      reads this
    {
      && |sdmaSlot| == SDMA_ENGINES && engine < SDMA_ENGINES && cpCounter <= U32_MAX
      && CountersSound(pending, current, handed, latches, cpSlot, cpCounter)
      && Fences(pending, current, Slot(), handed, latches, inflight, written)
      && ObserversSound(observer, installed, pending, fired)
      && CsSound(cs, lastCPFence, handed)
    }

    constructor ()
      ensures Valid() && !pending && handed == Handed(0, {}) && cs == map[] && fired == []
    {
      pending, current, handed, latches, lastCPFence := false, Cp(0), Handed(0, {}), Latches(0, 0), 0;
      engine, observer, cs, sdmaSlot, cpSlot, cpCounter := 0, 0, map[], seq(SDMA_ENGINES, _ => 0), 0, 0;
      inflight, written, installed, fired := {}, {}, 0, [];
    }

    /** The GPU executes a fence packet that is in a ring, or nothing. */
    method GpuRuns()
      requires Valid()
      modifies this`sdmaSlot, this`cpSlot, this`inflight, this`written
      ensures Valid() && old(written) <= written <= old(written) + old(inflight)
    {
      hide Fences, ObserversSound, CsSound;
      var done: bool := *;
      if done && inflight != {} {
        var f :| f in inflight;
        ExecuteKeepsFences(f, current, pending, Slot(), handed, latches, inflight, written);
        match f {
          case Cp(v) => cpSlot := v;
          case Sdma(v) => sdmaSlot := sdmaSlot[engine := v];
        }
        inflight := inflight - {f};
        written := written + {f};
      }
    }

    // ---- ClientSubmission --------------------------------------------------------------

    lemma SlotFacts()
      requires Valid()
      ensures pending && current.value != 0 ==> (current in written <==> Slot() == current.value)
      ensures pending && current.value == 0 ==> current.Cp?
      ensures forall f :: f in inflight ==> pending && f == current && Issued(f, handed)
    {
    }

    /** poll: with a successful read it reports completion exactly when the GPU wrote the pending job's
        own fence; a failed or all-ones read completes nothing. */
    method Poll() returns (done: bool, readable: bool)
      requires Valid()
      modifies this`pending, this`latches, this`observer, this`fired
      ensures Valid() && done == !pending && (pending ==> old(pending))
      ensures done && old(pending) ==> current.value != 0 && current in written && latches == Latched(old(latches), current)
      ensures !done || !old(pending) ==> latches == old(latches) && observer == old(observer)
      ensures readable ==> (done <==> !old(pending) || (current.value != 0 && current in written))
      ensures fired == old(fired) + (if done && old(observer) != 0 then [old(observer)] else [])
      ensures done ==> observer == 0
    {
      hide Fences, CsSound;
      readable := *;
      var observed := 0;
      SlotFacts();
      if pending && current.Cp? {
        observed := if readable then cpSlot else U64_MAX;
        if !readable || observed == U64_MAX {
          return false, false;
        }
      }
      if pending && current.Sdma? {
        observed := if readable then sdmaSlot[engine] else U32_MAX;
        if !readable || observed == U32_MAX {
          return false, false;
        }
      }
      if pending && current.value != 0 && observed == current.value {
        CompleteKeepsFences(current, Slot(), handed, latches, inflight, written, Slot());
        latches := Latched(latches, current);
        pending := false;
        var callback := observer;
        observer := 0;
        if callback != 0 {
          fired := fired + [callback];
        }
      }
      return !pending, readable;
    }

    lemma CounterFits()
      requires Valid()
      ensures cpCounter <= U32_MAX
    {
    }

    /** beginSDMA, on a slot the caller has cleared. Sequences grow by one; neither zero nor all-ones is
        ever issued. */
    method BeginSDMA(instance: nat) returns (fence: nat)
      requires Valid() && instance < SDMA_ENGINES && sdmaSlot[instance] == 0
      modifies this`pending, this`latches, this`observer, this`fired, this`engine, this`current, this`handed
      ensures Valid() && old(latches.completed) <= latches.completed
      ensures fence != 0 ==>
        && fence == handed.issued == old(handed).issued + 1 && 0 < fence < U32_MAX && handed.rawCP == old(handed).rawCP
        && pending && current == Sdma(fence) && observer == 0 && inflight == {} && current !in written && engine == instance
      ensures fence == 0 ==> handed == old(handed) && current == old(current) && engine == old(engine)
    {
      hide Fences, CsSound;
      var done, _ := Poll();
      if !done || handed.issued >= U32_MAX - 1 {
        return 0;
      }
      BeginSdmaKeepsFences(current, Slot(), handed, latches, inflight, written);
      NotYetWritten(Sdma(handed.issued + 1), 0, handed.(issued := handed.issued + 1), latches, inflight, written);
      engine := instance;
      CsOutlives(cs, lastCPFence, handed, handed.(issued := handed.issued + 1));
      handed := handed.(issued := handed.issued + 1);
      current := Sdma(handed.issued);
      pending := true;
      return current.value;
    }

    /** beginCP: no completion is accepted until a fence is emitted. */
    method BeginCP() returns (ok: bool)
      requires Valid()
      modifies this`pending, this`latches, this`observer, this`fired, this`current
      ensures Valid() && old(latches.completed) <= latches.completed
      ensures ok ==> pending && current == Cp(0) && observer == 0 && inflight == {}
      ensures !ok ==> current == old(current) && old(pending)
    {
      hide Fences, CsSound;
      var done, _ := Poll();
      if !done {
        return false;
      }
      BeginCpKeepsFences(current, Slot(), handed, latches, inflight, written, cpSlot);
      current := Cp(0);
      pending := true;
      return true;
    }

    // ---- Submission ----------------------------------------------------------------------

    /** The fence packet reached the ring, and the doorbell may have reached the GPU. */
    method Launch()
      requires Valid() && pending && current.value != 0 && inflight == {} && current !in written
      modifies this`inflight
      ensures Valid() && inflight == {current}
    {
      hide Fences, CountersSound, CsSound;
      SlotFacts();
      LaunchKeepsFences(current, Slot(), handed, latches, written);
      inflight := {current};
    }

    /** mac_amdgpu_raw_work_published: an observer for the job just started. */
    method Observe()
      requires Valid() && pending && observer == 0
      modifies this`observer, this`installed
      ensures Valid() && observer == installed == old(installed) + 1
    {
      hide Fences, CountersSound, CsSound;
      installed := installed + 1;
      observer := installed;
    }

    /** Everything up to and including the doorbell: it may fail and have reached the GPU all the same,
        and then the job stays pending. */
    method Kick() returns (status: Status)
      requires Valid() && pending && current.value != 0 && inflight == {} && current !in written && observer == 0
      modifies this`inflight, this`observer, this`installed, this`sdmaSlot, this`cpSlot, this`written
      ensures Valid() && pending && (status == Success || status == Failed)
    {
      hide *;
      var kicked: bool, arrived: bool, counted: bool := *, *, *;
      if kicked || arrived {
        Launch();
      }
      GpuRuns();
      if !kicked {
        return Failed;
      }
      if counted {
        Observe();
      }
      return Success;
    }

    /** sdma_clear_fence: a verified write that may fail half-way. */
    method ClearSlot(instance: nat) returns (ok: bool)
      requires Valid() && !pending && instance < SDMA_ENGINES
      modifies this`sdmaSlot
      ensures Valid() && (ok ==> sdmaSlot[instance] == 0)
    {
      hide Fences, ObserversSound, CountersSound, CsSound;
      var cleared: bool, landed: bool := *, *;
      if cleared || landed {
        var was := Slot();
        sdmaSlot := sdmaSlot[instance := 0];
        IdleSlot(current, was, Slot(), handed, latches, inflight, written);
      }
      return cleared;
    }

    /** last_fence of one command submission. */
    method SetFence(c: nat, f: Fence)
      requires Valid() && (f.value != 0 ==> Issued(f, handed))
      modifies this`cs
      ensures Valid() && cs == old(cs)[c := f]
    {
      hide Fences, ObserversSound, CountersSound, CsSound;
      CsSubmitted(cs, lastCPFence, handed, c, f);
      cs := cs[c := f];
    }

    /** The older direct form keeps its fence in `lastCPFence`. */
    method SetDirect(fence: nat)
      requires Valid() && fence in handed.rawCP
      modifies this`lastCPFence
      ensures Valid() && lastCPFence == fence
    {
      hide Fences, ObserversSound, CountersSound, CsSound;
      CsDirect(cs, lastCPFence, handed, fence);
      lastCPFence := fence;
    }

    /** kMacAMDGPUMethodSubmitIB on an SDMA engine. The slot is cleared before beginSDMA looks at it;
        nothing is lost because admission has just seen the previous job complete. */
    method SubmitSDMA(c: nat, instance: nat) returns (status: Status)
      requires Valid() && c in cs && cs[c].Sdma? && instance < SDMA_ENGINES
      modifies this
      ensures Valid()
      ensures status == Success ==> pending && current == Sdma(handed.issued) && cs == old(cs)[c := current]
      ensures handed.issued == old(handed).issued || (handed.issued == old(handed).issued + 1 && pending && current == Sdma(handed.issued))
      ensures status == Busy ==> old(pending) && pending && handed == old(handed) && sdmaSlot == old(sdmaSlot) && cs == old(cs)
    {
      hide Valid, Fences, ObserversSound, CountersSound, CsSound, Latched;
      var admitted, _ := Poll();
      if !admitted {
        return Busy;
      }
      var cleared := ClearSlot(instance);
      if !cleared {
        return Failed;
      }
      var fence := BeginSDMA(instance);
      if fence == 0 {
        return NoResources;
      }
      SetFence(c, Sdma(fence));
      var written_: bool, closed: bool := *, *;
      if !written_ || !closed {
        return NoSpace;
      }
      status := Kick();
    }

    /** cp_emit_eop_fence: the counter advances even when the packet does not fit. */
    method EmitFence() returns (fence: nat)
      requires Valid() && pending && current == Cp(0) && cpCounter < U32_MAX
      modifies this`cpCounter, this`current, this`handed
      ensures Valid() && cpCounter == old(cpCounter) + 1 && handed.issued == old(handed).issued
      ensures if fence == 0 then current == Cp(0) && handed == old(handed)
              else fence == cpCounter && current == Cp(fence) && fence in handed.rawCP && fence !in old(handed).rawCP && current !in written && inflight == {}
    {
      hide Fences, ObserversSound, CsSound;
      var fits: bool := *;
      cpCounter := cpCounter + 1;
      if !fits {
        return 0;
      }
      EmitKeepsFences(cpCounter, cpSlot, handed, latches, inflight, written);
      CsOutlives(cs, lastCPFence, handed, handed.(rawCP := handed.rawCP + {cpCounter}));
      handed := handed.(rawCP := handed.rawCP + {cpCounter});
      NotYetWritten(Cp(cpCounter), cpSlot, handed, latches, inflight, written);
      current := Cp(cpCounter);
      return cpCounter;
    }

    /** kMacAMDGPUMethodSubmitIB on the GFX ring, for a command submission or the older direct form. */
    method SubmitGFX(c: nat, legacy: bool) returns (status: Status, fence: nat)
      requires Valid() && (!legacy ==> c in cs && cs[c].Cp?)
      modifies this
      ensures Valid() && handed.issued == old(handed).issued
      ensures status == Success ==> pending && current == Cp(fence) && fence != 0 && fence in handed.rawCP && fence !in old(handed).rawCP
      ensures status == Success ==> if legacy then lastCPFence == fence && cs == old(cs) else cs == old(cs)[c := Cp(fence)] && lastCPFence == old(lastCPFence)
      ensures status == Busy ==> old(pending) && pending && handed == old(handed) && cs == old(cs)
    {
      hide Valid, Fences, ObserversSound, CountersSound, CsSound, Latched;
      var admitted, _ := Poll();
      if !admitted {
        return Busy, 0;
      }
      CounterFits();
      if cpCounter == U32_MAX {
        return NoResources, 0;
      }
      var ok := BeginCP();
      status, fence := Busy, 0;
      if !ok {
        return;
      }
      var copied: bool := *;
      if !copied {
        return NoSpace, 0;
      }
      fence := EmitFence();
      if fence == 0 {
        return NoSpace, 0;
      }
      if legacy {
        SetDirect(fence);
      } else {
        SetFence(c, Cp(fence));
      }
      status := Kick();
    }

    method CreateCS(c: nat, onCP: bool)
      requires Valid()
      modifies this`cs
      ensures Valid() && cs == old(cs)[c := if onCP then Cp(0) else Sdma(0)]
    {
      SetFence(c, if onCP then Cp(0) else Sdma(0));
    }

    // ---- Waiting -------------------------------------------------------------------------

    /** The polling loop of WaitFence. Success means the GPU wrote this fence and no other. */
    method Await(f: Fence, rounds: nat) returns (status: Status)
      requires Valid() && Issued(f, handed)
      modifies this`pending, this`latches, this`observer, this`fired, this`sdmaSlot, this`cpSlot, this`inflight, this`written
      ensures Valid() && old(written) <= written
      ensures status == Success ==> f in written && Reported(f, latches) && !(pending && current == f)
      ensures status == Success || status == Timeout
      ensures status == Timeout ==> !Reported(f, latches)
    {
      hide Fences, ObserversSound;
      for i := 0 to rounds
        invariant Valid() && Issued(f, handed) && old(written) <= written
      {
        var _, _ := Poll();
        if Reported(f, latches) {
          ReportedWasWritten(f, pending, current, Slot(), handed, latches, inflight, written);
          return Success;
        }
        GpuRuns();
      }
      status := if Reported(f, latches) then Success else Timeout;
      if status == Success {
        ReportedWasWritten(f, pending, current, Slot(), handed, latches, inflight, written);
      }
    }

    /** kMacAMDGPUMethodWaitFence on a command submission. */
    method Wait(c: nat, rounds: nat) returns (status: Status)
      requires Valid() && c in cs
      modifies this`pending, this`latches, this`observer, this`fired, this`sdmaSlot, this`cpSlot, this`inflight, this`written
      ensures Valid() && old(written) <= written
      ensures status == Success ==> cs[c].value == 0 || (cs[c] in written && !(pending && current == cs[c]))
    {
      hide Fences, ObserversSound;
      if cs[c].value == 0 {
        return Success;
      }
      status := Await(cs[c], rounds);
    }

    /** The older form of WaitFence accepts only the last direct CP fence. */
    method WaitLegacy(target: nat, rounds: nat) returns (status: Status)
      requires Valid()
      modifies this`pending, this`latches, this`observer, this`fired, this`sdmaSlot, this`cpSlot, this`inflight, this`written
      ensures Valid() && old(written) <= written
      ensures status == Success ==> Cp(target) in written && !(pending && current == Cp(target))
      ensures status == BadArgument <==> target == 0 || target != lastCPFence
    {
      hide Fences, ObserversSound;
      if target == 0 || target != lastCPFence {
        return BadArgument;
      }
      status := Await(Cp(target), rounds);
    }

    /** The submissions that remembered a fence are released, and the observer with them. */
    method ReleaseSubmissions()
      requires Valid()
      modifies this`cs, this`lastCPFence, this`observer
      ensures Valid() && cs == map[] && lastCPFence == 0 && observer == 0
    {
      hide Fences, ObserversSound, CountersSound, CsSound;
      NoObserver(observer, installed, pending, fired);
      NothingSubmitted(handed);
      cs, lastCPFence, observer := map[], 0, 0;
    }

    method ForgetJob()
      requires Valid() && cs == map[] && lastCPFence == 0 && observer == 0
      modifies this`pending, this`current, this`handed, this`latches, this`inflight, this`written
      ensures Valid() && !pending && current == Cp(0) && handed == Handed(0, {}) && latches == Latches(0, 0)
      ensures inflight == {} && written == {}
    {
      hide Fences, ObserversSound, CountersSound, CsSound;
      NothingCounted(pending, current, handed, latches, cpSlot, cpCounter);
      NothingSubmitted(Handed(0, {}));
      NoObserver(observer, installed, pending, fired);
      NothingHanded(cpSlot);
      pending, current, handed, latches := false, Cp(0), Handed(0, {}), Latches(0, 0);
      inflight, written := {}, {};
    }

    /** `submission = {}`: the pending job and every fence handed out are forgotten. */
    method Forget()
      requires Valid()
      modifies this`pending, this`current, this`handed, this`latches, this`lastCPFence, this`observer, this`cs, this`inflight, this`written
      ensures Valid() && !pending && current == Cp(0) && handed == Handed(0, {}) && latches == Latches(0, 0) && cs == map[]
      ensures lastCPFence == 0 && observer == 0 && inflight == {} && written == {}
    {
      ReleaseSubmissions();
      ForgetJob();
    }

    /** A verified reset starts a new session: nothing is in flight, the counters start over, and the
        SDMA slots may still show values of the old session. */
    method Reset()
      requires Valid()
      modifies this
      ensures Valid() && !pending && handed == Handed(0, {}) && cs == map[] && fired == old(fired) && installed == old(installed)
    {
      hide Fences, ObserversSound;
      Forget();
      var left: nat, right: nat :| true;
      sdmaSlot := [left, right];
      cpSlot, cpCounter := 0, 0;
      NothingHanded(Slot());
    }
  }

  datatype Call =
    | CreateCall(c: nat, onCP: bool)
    | SdmaCall(c: nat, instance: nat)
    | GfxCall(c: nat)
    | LegacyCall
    | WaitCall(c: nat, rounds: nat)
    | WaitLegacyCall(target: nat, rounds: nat)
    | GpuCall
    | ResetCall

  /** Every run: at any moment a reported fence was written by the GPU for its own job, the pending job
      is not reported, and no observer fired twice. */
  method Run(calls: seq<Call>) returns (m: ClientSubmission)
    ensures m.Valid()
    ensures forall f :: Issued(f, m.handed) && Reported(f, m.latches) ==> f in m.written && !(m.pending && f == m.current)
    ensures forall f :: Issued(f, m.handed) && !Reported(f, m.latches) ==> m.pending && f == m.current
    ensures forall i, j :: 0 <= i < j < |m.fired| ==> m.fired[i] != m.fired[j]
  {
    hide Fences;
    m := new ClientSubmission();
    for k := 0 to |calls|
      invariant fresh(m) && m.Valid()
    {
      match calls[k] {
        case CreateCall(c, onCP) => m.CreateCS(c, onCP);
        case SdmaCall(c, instance) =>
          if c in m.cs && m.cs[c].Sdma? && instance < SDMA_ENGINES {
            var _ := m.SubmitSDMA(c, instance);
          }
        case GfxCall(c) =>
          if c in m.cs && m.cs[c].Cp? {
            var _, _ := m.SubmitGFX(c, false);
          }
        case LegacyCall =>
          var _, _ := m.SubmitGFX(0, true);
        case WaitCall(c, rounds) =>
          if c in m.cs {
            var _ := m.Wait(c, rounds);
          }
        case WaitLegacyCall(target, rounds) =>
          var _ := m.WaitLegacy(target, rounds);
        case GpuCall => m.GpuRuns();
        case ResetCall => m.Reset();
      }
    }
    forall f | Issued(f, m.handed)
      ensures Reported(f, m.latches) ==> f in m.written && !(m.pending && f == m.current)
      ensures !Reported(f, m.latches) ==> m.pending && f == m.current
    {
      Settled(f, m.pending, m.current, m.Slot(), m.handed, m.latches, m.inflight, m.written);
    }
  }
}
