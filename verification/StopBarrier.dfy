/** The interrupt-drain barrier of a client's Stop: every source is counted before the first one is
    cancelled, a sentinel keeps the count above zero while the loop runs, and whoever brings it to zero
    dispatches FinishStop. Models mac_amdgpu_stop_source_drained and MacAMDGPUUserClient::Stop in
    dext/MacAMDGPU.cpp. */
module StopBarrier {
  const MAX_VECTORS: nat := 256 // MACAMDGPU_MAX_IRQ_VECTORS

  /** How one source answers: a call either promises to run the callback once, now or later, or it
      fails and promises nothing. */
  datatype Answer = Now | Eventually | Never

  ghost function LiveBelow(sources: seq<bool>, n: nat): (r: set<nat>)
    requires n <= |sources|
    ensures forall i: nat :: i in r <==> i < n && sources[i]
  {
    set i: nat | 0 <= i < n && sources[i]
  }

  ghost function Live(sources: seq<bool>): set<nat> {
    LiveBelow(sources, |sources|)
  }

  class StopBarrier {
    const interruptSources: array<bool> // whether the pointer is set
    var stopping: bool
    var stopPendingSources: nat
    /** Callbacks promised and not yet run, and sources that promised nothing. */
    var promised: set<nat>
    ghost var stuck: set<nat>
    ghost var sentinel: bool
    /** Calls of DispatchAsync(FinishStop) so far. */
    ghost var dispatched: nat

    ghost predicate Counted()
      reads this, interruptSources
    {
      && stopPendingSources == |Live(interruptSources[..])| + (if sentinel then 1 else 0)
      && promised !! stuck && promised + stuck <= Live(interruptSources[..])
      && dispatched == (if stopPendingSources == 0 then 1 else 0)
    }

    ghost predicate Valid()
      reads this, interruptSources
    {
      && interruptSources.Length == MAX_VECTORS
      && (if stopping then Counted() else dispatched == 0 && promised == {} && stuck == {} && !sentinel)
    }

    constructor (sources: seq<bool>)
      requires |sources| == MAX_VECTORS
      ensures Valid() && !stopping && interruptSources[..] == sources && dispatched == 0 && fresh(interruptSources)
    {
      interruptSources := new bool[MAX_VECTORS](i requires 0 <= i < |sources| => sources[i]);
      stopping, stopPendingSources, promised := false, 0, {};
      stuck, sentinel, dispatched := {}, false, 0;
    }

    /** mac_amdgpu_stop_source_drained. */
    method SourceDrained()
      requires stopPendingSources > 0
      modifies this`stopPendingSources, this`dispatched
      ensures stopPendingSources == old(stopPendingSources) - 1
      ensures dispatched == old(dispatched) + (if stopPendingSources == 0 then 1 else 0)
    {
      stopPendingSources := stopPendingSources - 1;
      if stopPendingSources != 0 {
        return;
      }
      dispatched := dispatched + 1;
    }

    /** The `drained` block of source i, then the count. */
    method Drained(i: nat)
      requires Valid() && stopping && i < MAX_VECTORS && interruptSources[i] && i !in stuck
      modifies this`stopPendingSources, this`promised, this`dispatched, interruptSources
      ensures Valid() && Live(interruptSources[..]) == Live(old(interruptSources[..])) - {i}
      ensures promised == old(promised) - {i} && old(dispatched) <= dispatched
      ensures dispatched > old(dispatched) ==> !sentinel && Live(interruptSources[..]) == {}
    {
      ghost var was := Live(interruptSources[..]);
      interruptSources[i] := false;
      promised := promised - {i};
      assert Live(interruptSources[..]) == was - {i};
      SourceDrained();
    }

    /** Promised callbacks run on their own queues, in any order, whenever they like. */
    method CallbacksRun()
      requires Valid() && stopping
      modifies this`stopPendingSources, this`promised, this`dispatched, interruptSources
      ensures Valid() && Live(interruptSources[..]) <= Live(old(interruptSources[..])) && promised <= old(promised)
      ensures forall i: nat :: i in Live(old(interruptSources[..])) && i !in Live(interruptSources[..]) <==> i in old(promised) && i !in promised
      ensures old(dispatched) <= dispatched && (dispatched > old(dispatched) ==> !sentinel && Live(interruptSources[..]) == {})
    {
      var n: nat :| true;
      for k := 0 to n
        invariant Valid() && Live(interruptSources[..]) <= Live(old(interruptSources[..])) && promised <= old(promised)
        invariant forall i: nat :: i in Live(old(interruptSources[..])) && i !in Live(interruptSources[..]) <==> i in old(promised) && i !in promised
        invariant old(dispatched) <= dispatched && (dispatched > old(dispatched) ==> !sentinel && Live(interruptSources[..]) == {})
      {
        if promised != {} {
          var i :| i in promised;
          Drained(i);
        }
      }
    }

    method CountSources() returns (count: nat)
      requires interruptSources.Length == MAX_VECTORS
      ensures count == |Live(interruptSources[..])|
    {
      count := 0;
      for i := 0 to MAX_VECTORS
        invariant count == |LiveBelow(interruptSources[..], i)|
      {
        assert LiveBelow(interruptSources[..], i + 1) == LiveBelow(interruptSources[..], i) + if interruptSources[i] then {i} else {};
        if interruptSources[i] {
          count := count + 1;
        }
      }
    }

    /** Cancel, and if that fails disable with completion; if neither promises anything the source stays
        counted for good. */
    method CancelSource(i: nat)
      requires Valid() && stopping && sentinel && i < MAX_VECTORS && interruptSources[i] && i !in promised + stuck
      modifies this`stopPendingSources, this`promised, this`dispatched, this`stuck, interruptSources
      ensures Valid() && dispatched == old(dispatched) == 0
      ensures Live(interruptSources[..]) <= Live(old(interruptSources[..])) && Live(old(interruptSources[..])) - {i} <= Live(interruptSources[..])
      ensures promised + stuck == old(promised) + old(stuck) + (if i in Live(interruptSources[..]) then {i} else {})
    {
      var cancel: Answer, disable: Answer := *, *;
      var answer := if cancel.Never? then disable else cancel;
      match answer {
        case Now => Drained(i);
        case Eventually => promised := promised + {i};
        case Never => stuck := stuck + {i};
      }
    }

    /** MacAMDGPUUserClient::Stop. Afterwards every source still set has promised its callback or is
        stuck; a second Stop changes nothing. */
    method Stop() returns (ok: bool)
      requires Valid() && !sentinel
      modifies this, interruptSources
      ensures Valid() && !sentinel && (ok ==> stopping)
      ensures old(stopping) ==> ok && unchanged(this) && interruptSources[..] == old(interruptSources[..])
      ensures !ok ==> unchanged(this) && interruptSources[..] == old(interruptSources[..])
      ensures ok && !old(stopping) ==> Live(interruptSources[..]) == promised + stuck && Live(interruptSources[..]) <= Live(old(interruptSources[..]))
    {
      if stopping {
        return true;
      }
      var queueFound: bool := *;
      if !queueFound {
        return false;
      }
      stopping := true;
      var count := CountSources();
      stopPendingSources := count + 1;
      sentinel := true;
      for i := 0 to MAX_VECTORS
        invariant Valid() && stopping && sentinel && dispatched == 0
        invariant Live(interruptSources[..]) <= Live(old(interruptSources[..]))
        invariant forall j: nat :: j in promised + stuck <==> j < i && j in Live(interruptSources[..])
      {
        CallbacksRun();
        if interruptSources[i] {
          CancelSource(i);
        }
      }
      CallbacksRun();
      sentinel := false;
      SourceDrained();
      return true;
    }

    /** FinishStop is dispatched at most once: exactly when the loop has ended and every source drained,
        so never while some source is stuck, and surely once the promises of the others are kept. */
    lemma DispatchedExactlyOnce()
      requires Valid() && stopping
      ensures dispatched == (if !sentinel && Live(interruptSources[..]) == {} then 1 else 0)
      ensures stuck != {} ==> dispatched == 0
    {
      if stuck != {} {
        var i :| i in stuck;
        assert i in Live(interruptSources[..]);
      }
    }
  }

  /** One client's whole Stop, with callbacks of any kind before, during and after the loop. */
  method Run(sources: seq<bool>) returns (m: StopBarrier, ok: bool)
    requires |sources| == MAX_VECTORS
    ensures m.Valid() && (m.stopping <==> ok) && m.dispatched <= 1
    ensures m.dispatched == 1 <==> ok && Live(m.interruptSources[..]) == {}
    ensures ok ==> Live(m.interruptSources[..]) == m.promised + m.stuck
    ensures m.stuck != {} ==> m.dispatched == 0
  {
    hide Live, LiveBelow;
    m := new StopBarrier(sources);
    ok := m.Stop();
    if ok {
      m.CallbacksRun();
      var again := m.Stop();
      m.CallbacksRun();
      m.DispatchedExactlyOnce();
    }
  }
}
