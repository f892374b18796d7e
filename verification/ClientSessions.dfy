/** Hardware sessions: participants, the bootstrap lease and exclusive raw access.
    Models ClientSessions in dext/amdgpu/amdgpu_client_lifecycle.h. */
module ClientSessions {
  import opened Words

  /** A client pointer; 0 is null. */
  type Client = nat
  const NOBODY: Client := 0

  datatype Sessions = Sessions(lease: Client, exclusive: Client, participants: nat)

  const IDLE := Sessions(NOBODY, NOBODY, 0)

  /** Result of an operation on the table and on the client's own `claimed` flag. */
  datatype Outcome = Outcome(sessions: Sessions, attached: bool, ok: bool)

  function AttachOutcome(s: Sessions, client: Client, attached: bool, ready: bool): Outcome {
    if s.exclusive != NOBODY && s.exclusive != client then Outcome(s, attached, false)
    else if !ready && s.lease != NOBODY && s.lease != client then Outcome(s, attached, false)
    else
      var t := if ready then s.(lease := NOBODY) else s;
      if attached then Outcome(t, true, true)
      else if t.participants == U32_MAX then Outcome(t, false, false)
      else Outcome(t.(lease := if ready then t.lease else client, participants := t.participants + 1), true, true)
  }

  function ClaimOutcome(s: Sessions, client: Client, attached: bool): Outcome {
    if !attached || s.participants != 1 || (s.exclusive != NOBODY && s.exclusive != client)
    then Outcome(s, attached, false)
    else Outcome(s.(exclusive := client), attached, true)
  }

  predicate CanReset(s: Sessions, client: Client, attached: bool) {
    s.participants == (if attached then 1 else 0) && (s.exclusive == NOBODY || s.exclusive == client)
  }

  function Detached(s: Sessions, client: Client, attached: bool): Sessions {
    var t := if attached && s.participants > 0 then s.(participants := s.participants - 1) else s;
    var u := if t.lease == client then t.(lease := NOBODY) else t;
    if u.exclusive == client then u.(exclusive := NOBODY) else u
  }

  /** The table agrees with the set of attached clients: the count is exact, an exclusive owner is
      alone, and a device still bootstrapping has at most its lease holder attached. */
  ghost predicate Consistent(s: Sessions, attached: set<Client>, ready: bool) {
    && NOBODY !in attached
    && s.participants == |attached| <= U32_MAX
    && (s.exclusive != NOBODY ==> attached == {s.exclusive})
    && (if ready then s.lease == NOBODY else attached == (if s.lease == NOBODY then {} else {s.lease}))
  }

  function AttachedAfter(attached: set<Client>, client: Client, flag: bool): set<Client> {
    if flag then attached + {client} else attached - {client}
  }

  lemma AttachKeepsConsistent(s: Sessions, attached: set<Client>, ready: bool, client: Client)
    requires Consistent(s, attached, ready) && client != NOBODY
    ensures var o := AttachOutcome(s, client, client in attached, ready);
            && Consistent(o.sessions, AttachedAfter(attached, client, o.attached), ready)
            && (o.ok ==> o.attached) && (client in attached ==> o.attached)
            && (!o.ok ==> AttachedAfter(attached, client, o.attached) == attached)
  {
    var o := AttachOutcome(s, client, client in attached, ready);
    if client in attached {
      assert AttachedAfter(attached, client, true) == attached;
    } else {
      assert s.exclusive != client;
      assert attached - {client} == attached;
      if o.attached && !ready {
        assert s.lease == NOBODY;
        assert attached + {client} == {client};
      }
    }
  }

  lemma SingletonIs(a: set<Client>, c: Client)
    requires c in a && |a| == 1
    ensures a == {c}
  {
    assert |a - {c}| == 0;
  }

  lemma ClaimKeepsConsistent(s: Sessions, attached: set<Client>, ready: bool, client: Client)
    requires Consistent(s, attached, ready) && client != NOBODY
    ensures Consistent(ClaimOutcome(s, client, client in attached).sessions, attached, ready)
    ensures ClaimOutcome(s, client, client in attached).ok ==> attached == {client}
  {
    if client in attached && |attached| == 1 {
      SingletonIs(attached, client);
    }
  }

  lemma DetachKeepsConsistent(s: Sessions, attached: set<Client>, ready: bool, client: Client)
    requires Consistent(s, attached, ready) && client != NOBODY
    ensures Consistent(Detached(s, client, client in attached), attached - {client}, ready)
  {
    if client !in attached {
      assert attached - {client} == attached;
    }
  }

  /** A reset is admitted only when no other client is attached. */
  lemma ResetExcludesOthers(s: Sessions, attached: set<Client>, ready: bool, client: Client)
    requires Consistent(s, attached, ready) && client != NOBODY
    ensures CanReset(s, client, client in attached) <==> attached <= {client}
  {
    if client in attached && |attached| == 1 {
      SingletonIs(attached, client);
    }
    if attached <= {client} {
      assert attached == {} || attached == {client};
    }
  }

  /** Everything that ever happens to the table. Becoming ready drops the lease. Stop GPU needs
      CanReset and attaches its caller first; the close of the last participant detaches first.
      Either leaves the device in bootstrap exactly when its reset was verified. */
  datatype Event =
    | Attaching(client: Client)
    | Claiming(client: Client)
    | BecomingReady
    | Stopping(client: Client, verified: bool)
    | Closing(client: Client, verified: bool)

  datatype Device = Device(sessions: Sessions, attached: set<Client>, ready: bool)

  function AfterAttach(d: Device, c: Client): Device {
    var o := AttachOutcome(d.sessions, c, c in d.attached, d.ready);
    Device(o.sessions, AttachedAfter(d.attached, c, o.attached), d.ready)
  }

  function AfterDetach(d: Device, c: Client): Device {
    Device(Detached(d.sessions, c, c in d.attached), d.attached - {c}, d.ready)
  }

  function Apply(d: Device, e: Event): Device {
    match e
    case Attaching(c) => AfterAttach(d, c)
    case Claiming(c) => d.(sessions := ClaimOutcome(d.sessions, c, c in d.attached).sessions)
    case BecomingReady => Device(d.sessions.(lease := NOBODY), d.attached, true)
    case Stopping(c, verified) =>
      var t := AfterAttach(d, c);
      if !CanReset(d.sessions, c, c in d.attached) then d
      else if c !in t.attached || !verified then t
      else AfterDetach(t, c).(ready := false)
    case Closing(c, verified) =>
      var t := AfterDetach(d, c);
      if c in d.attached && t.sessions.participants == 0 && verified then t.(ready := false) else t
  }

  function Run(events: seq<Event>): Device {
    if events == [] then Device(IDLE, {}, false)
    else Apply(Run(events[..|events| - 1]), events[|events| - 1])
  }

  predicate RealClients(events: seq<Event>) {
    forall e :: e in events && !e.BecomingReady? ==> e.client != NOBODY
  }

  ghost predicate Sound(d: Device) {
    Consistent(d.sessions, d.attached, d.ready)
  }

  /** A table without participants holds neither a lease nor an exclusive owner. */
  lemma NobodyIsIdle(d: Device)
    requires Sound(d)
    ensures d.sessions.participants == 0 <==> d.attached == {}
    ensures d.sessions.participants == 0 && !d.ready ==> d.sessions == IDLE
    ensures d.sessions.participants == 0 ==> d.sessions.exclusive == NOBODY && (d.ready ==> d.sessions == IDLE)
  {
  }

  /** Stop GPU admitted and verified returns the table to its first state, whoever was attached. */
  lemma ResetLeavesNobody(d: Device, c: Client)
    requires Sound(d) && c != NOBODY && CanReset(d.sessions, c, c in d.attached)
    ensures Apply(d, Stopping(c, true)) == Device(IDLE, {}, false)
  {
    ResetExcludesOthers(d.sessions, d.attached, d.ready, c);
    AttachKeepsConsistent(d.sessions, d.attached, d.ready, c);
    var t := AfterAttach(d, c);
    DetachKeepsConsistent(t.sessions, t.attached, t.ready, c);
    assert t.attached == {c};
    assert t.attached - {c} == {};
  }

  lemma StepKeepsConsistent(d: Device, e: Event)
    requires Sound(d) && (!e.BecomingReady? ==> e.client != NOBODY)
    ensures Sound(Apply(d, e))
  {
    match e {
      case Attaching(c) => AttachKeepsConsistent(d.sessions, d.attached, d.ready, c);
      case Claiming(c) => ClaimKeepsConsistent(d.sessions, d.attached, d.ready, c);
      case BecomingReady =>
      case Stopping(c, verified) =>
        AttachKeepsConsistent(d.sessions, d.attached, d.ready, c);
        if CanReset(d.sessions, c, c in d.attached) {
          ResetLeavesNobody(d, c);
        }
      case Closing(c, verified) =>
        DetachKeepsConsistent(d.sessions, d.attached, d.ready, c);
        NobodyIsIdle(AfterDetach(d, c));
    }
  }

  lemma {:induction false} EveryRunIsConsistent(events: seq<Event>)
    requires RealClients(events)
    ensures Sound(Run(events))
  {
    if events != [] {
      EveryRunIsConsistent(events[..|events| - 1]);
      StepKeepsConsistent(Run(events[..|events| - 1]), events[|events| - 1]);
    }
  }

  /** The table as the driver holds it. */
  class SessionTable {
    var initializationClient: Client
    var exclusiveClient: Client
    var participants: nat

    function View(): Sessions
      reads this
    {
      Sessions(initializationClient, exclusiveClient, participants)
    }

    constructor ()
      ensures View() == IDLE
    {
      initializationClient, exclusiveClient, participants := NOBODY, NOBODY, 0;
    }

    method Attach(client: Client, attached: bool, ready: bool) returns (ok: bool, nowAttached: bool)
      modifies this
      ensures Outcome(View(), nowAttached, ok) == AttachOutcome(old(View()), client, attached, ready)
    {
      if exclusiveClient != NOBODY && exclusiveClient != client {
        return false, attached;
      }
      if !ready && initializationClient != NOBODY && initializationClient != client {
        return false, attached;
      }
      if ready {
        initializationClient := NOBODY;
      }
      if attached {
        return true, true;
      }
      if participants == U32_MAX {
        return false, false;
      }
      if !ready {
        initializationClient := client;
      }
      participants := participants + 1;
      return true, true;
    }

    method ClaimExclusive(client: Client, attached: bool) returns (ok: bool)
      modifies this
      ensures Outcome(View(), attached, ok) == ClaimOutcome(old(View()), client, attached)
    {
      if !attached || participants != 1 || (exclusiveClient != NOBODY && exclusiveClient != client) {
        return false;
      }
      exclusiveClient := client;
      return true;
    }

    method Detach(client: Client, attached: bool)
      modifies this
      ensures View() == Detached(old(View()), client, attached)
    {
      if attached && participants > 0 {
        participants := participants - 1;
      }
      if initializationClient == client {
        initializationClient := NOBODY;
      }
      if exclusiveClient == client {
        exclusiveClient := NOBODY;
      }
    }
  }
}
