/** Exported VRAM: a range shared by several buffer entries goes back to its allocator with the last of
    them. Models dext/amdgpu/amdgpu_shared_buffers.h and the VRAM parts of BOAlloc, BOExport, BOImport,
    BOFree and the release of a client's storage in dext/MacAMDGPU.cpp. */
module SharedBuffers {
  import opened Words

  const CAPACITY: nat := 256

  datatype Token = Token(first: nat, second: nat)
  datatype Range = Range(gpu: nat, size: nat, alignment: nat)
  datatype Record = Record(token: Token, range: Range, references: nat)
  const UNUSED := Record(Token(0, 0), Range(0, 0, 0), 0)

  /** A buffer entry of some client, live or quarantined, that holds VRAM. */
  datatype Bo = Bo(owner: nat, handle: nat)
  datatype Holding = Holding(range: Range, shared: nat)

  predicate Disjoint(a: Range, b: Range) {
    a.gpu + a.size <= b.gpu || b.gpu + b.size <= a.gpu
  }

  predicate Grantable(r: Range, live: set<Range>) {
    r.gpu > 0 && r.size > 0 && forall x :: x in live ==> Disjoint(r, x)
  }

  ghost function Holders(holdings: map<Bo, Holding>, id: nat): set<Bo> {
    set b | b in holdings && holdings[b].shared == id
  }

  ghost function Count(holdings: map<Bo, Holding>, id: nat): nat {
    |Holders(holdings, id)|
  }

  function At(records: seq<Record>, id: nat): Record
    requires 1 <= id <= |records|
  {
    records[id - 1]
  }

  /** The count of every record is the number of its holders. */
  ghost predicate Counted(records: seq<Record>, holdings: map<Bo, Holding>) {
    forall id :: 1 <= id <= |records| ==> At(records, id).references == Count(holdings, id) <= U32_MAX
  }

  /** Holders of a record are on its range, and records in use carry different tokens. */
  ghost predicate Labelled(records: seq<Record>, holdings: map<Bo, Holding>) {
    && (forall b :: b in holdings && holdings[b].shared != 0 ==>
         holdings[b].shared <= |records| && holdings[b].range == At(records, holdings[b].shared).range)
    && (forall id :: 1 <= id <= |records| && At(records, id).references > 0 ==> At(records, id).token != Token(0, 0))
    && (forall id, other :: 1 <= id < other <= |records| && At(records, id).references > 0 && At(records, other).references > 0 ==>
         At(records, id).token != At(records, other).token)
  }

  ghost predicate HasHolder(holdings: map<Bo, Holding>, r: Range) {
    exists b :: b in holdings && holdings[b].range == r
  }

  /** Every allocated range is held, and by more than one entry only through one record. */
  ghost predicate Held(holdings: map<Bo, Holding>, live: set<Range>) {
    && (forall b :: b in holdings ==> holdings[b].range in live)
    && (forall r :: r in live ==> r.size > 0 && HasHolder(holdings, r))
    && (forall b, c :: b in holdings && c in holdings && b != c && holdings[b].range == holdings[c].range ==>
         holdings[b].shared == holdings[c].shared != 0)
    && (forall r, x :: r in live && x in live && r != x ==> Disjoint(r, x))
  }

  ghost predicate Inv(records: seq<Record>, holdings: map<Bo, Holding>, live: set<Range>) {
    |records| == CAPACITY && Counted(records, holdings) && Labelled(records, holdings) && Held(holdings, live)
  }

  // ---- Counting --------------------------------------------------------------------------

  lemma CountInsert(holdings: map<Bo, Holding>, b: Bo, h: Holding, id: nat)
    requires b !in holdings
    ensures Count(holdings[b := h], id) == Count(holdings, id) + if h.shared == id then 1 else 0
  {
    assert Holders(holdings[b := h], id) == Holders(holdings, id) + if h.shared == id then {b} else {};
  }

  lemma CountRemove(holdings: map<Bo, Holding>, b: Bo, id: nat)
    requires b in holdings
    ensures Count(holdings - {b}, id) == Count(holdings, id) - if holdings[b].shared == id then 1 else 0
  {
    assert Holders(holdings - {b}, id) == Holders(holdings, id) - if holdings[b].shared == id then {b} else {};
  }

  /** A record has a holder exactly when its count is not zero. */
  lemma CountIsHolder(holdings: map<Bo, Holding>, id: nat)
    ensures Count(holdings, id) > 0 <==> exists b :: b in holdings && holdings[b].shared == id
  {
    if Count(holdings, id) > 0 {
      var b :| b in Holders(holdings, id);
    } else {
      assert forall b :: b in holdings ==> b !in Holders(holdings, id);
    }
  }

  // ---- Steps -----------------------------------------------------------------------------

  /** The counts after one entry was added under `id` (0: under no record). */
  lemma InsertCounts(records: seq<Record>, n: seq<Record>, holdings: map<Bo, Holding>, b: Bo, h: Holding)
    requires Counted(records, holdings) && b !in holdings && |n| == |records|
    requires forall id :: 1 <= id <= |n| ==> At(n, id).references == At(records, id).references + (if h.shared == id then 1 else 0) <= U32_MAX
    ensures Counted(n, holdings[b := h])
  {
    hide Count;
    forall id | 1 <= id <= |n|
      ensures At(n, id).references == Count(holdings[b := h], id) <= U32_MAX
    {
      CountInsert(holdings, b, h, id);
    }
  }

  lemma RemoveCounts(records: seq<Record>, n: seq<Record>, holdings: map<Bo, Holding>, b: Bo)
    requires Counted(records, holdings) && b in holdings && |n| == |records|
    requires forall id :: 1 <= id <= |n| ==> At(n, id).references == At(records, id).references - (if holdings[b].shared == id then 1 else 0)
    ensures Counted(n, holdings - {b})
  {
    hide Count;
    forall id | 1 <= id <= |n|
      ensures At(n, id).references == Count(holdings - {b}, id) <= U32_MAX
    {
      CountRemove(holdings, b, id);
    }
  }

  /** A holder of each range survives when no entry is dropped or moved to another range. */
  lemma KeepsHolders(holdings: map<Bo, Holding>, n: map<Bo, Holding>, live: set<Range>)
    requires forall r :: r in live ==> HasHolder(holdings, r)
    requires forall b :: b in holdings ==> b in n && n[b].range == holdings[b].range
    ensures forall r :: r in live ==> HasHolder(n, r)
  {
    forall r | r in live
      ensures HasHolder(n, r)
    {
      var b :| b in holdings && holdings[b].range == r;
      assert b in n && n[b].range == r;
    }
  }

  lemma AllocCounts(records: seq<Record>, holdings: map<Bo, Holding>, b: Bo, r: Range)
    requires Counted(records, holdings) && b !in holdings
    ensures Counted(records, holdings[b := Holding(r, 0)])
  {
    hide Count;
    InsertCounts(records, records, holdings, b, Holding(r, 0));
  }

  lemma NewHolder(n: map<Bo, Holding>, b: Bo)
    requires b in n
    ensures HasHolder(n, n[b].range)
  {
  }

  lemma AllocKeepsInv(records: seq<Record>, holdings: map<Bo, Holding>, live: set<Range>, b: Bo, r: Range)
    requires Inv(records, holdings, live) && b !in holdings && Grantable(r, live)
    ensures r !in live && Inv(records, holdings[b := Holding(r, 0)], live + {r})
  {
    hide Counted, HasHolder, At;
    var n := holdings[b := Holding(r, 0)];
    assert r in live ==> Disjoint(r, r);
    AllocCounts(records, holdings, b, r);
    KeepsHolders(holdings, n, live);
    NewHolder(n, b);
  }

  function Published(records: seq<Record>, id: nat, token: Token, range: Range): seq<Record>
    requires 1 <= id <= |records|
  {
    records[id - 1 := Record(token, range, 1)]
  }

  lemma PublishLabels(records: seq<Record>, holdings: map<Bo, Holding>, b: Bo, id: nat, token: Token)
    requires Labelled(records, holdings) && b in holdings && 1 <= id <= |records| && At(records, id).references == 0
    requires forall c :: c in holdings ==> holdings[c].shared != id
    requires token != Token(0, 0) && forall k :: 1 <= k <= |records| && At(records, k).references > 0 ==> At(records, k).token != token
    ensures Labelled(Published(records, id, token, holdings[b].range), holdings[b := Holding(holdings[b].range, id)])
  {
    var n := Published(records, id, token, holdings[b].range);
    assert forall k :: 1 <= k <= |records| ==> At(n, k) == if k == id then Record(token, holdings[b].range, 1) else At(records, k);
  }

  lemma PublishHeld(holdings: map<Bo, Holding>, live: set<Range>, b: Bo, id: nat)
    requires Held(holdings, live) && b in holdings && holdings[b].shared == 0 && id != 0
    ensures Held(holdings[b := Holding(holdings[b].range, id)], live)
  {
    hide HasHolder;
    KeepsHolders(holdings, holdings[b := Holding(holdings[b].range, id)], live);
  }

  lemma PublishCounts(records: seq<Record>, holdings: map<Bo, Holding>, b: Bo, id: nat, token: Token)
    requires Counted(records, holdings) && b in holdings && holdings[b].shared == 0 && 1 <= id <= |records| && At(records, id).references == 0
    ensures Counted(Published(records, id, token, holdings[b].range), holdings[b := Holding(holdings[b].range, id)])
  {
    hide Count;
    var h := Holding(holdings[b].range, id);
    RemoveCounts(records, records, holdings, b);
    InsertCounts(records, Published(records, id, token, holdings[b].range), holdings - {b}, b, h);
    assert (holdings - {b})[b := h] == holdings[b := h];
  }

  lemma NoHolderYet(records: seq<Record>, holdings: map<Bo, Holding>, id: nat)
    requires Counted(records, holdings) && 1 <= id <= |records|
    ensures At(records, id).references == 0 <==> forall b :: b in holdings ==> holdings[b].shared != id
  {
    CountIsHolder(holdings, id);
  }

  /** Publishing turns one holder's private range into a record with one reference. */
  lemma PublishKeepsInv(records: seq<Record>, holdings: map<Bo, Holding>, live: set<Range>, b: Bo, id: nat, token: Token)
    requires Inv(records, holdings, live) && b in holdings && holdings[b].shared == 0 && 1 <= id <= |records| && At(records, id).references == 0
    requires token != Token(0, 0) && forall k :: 1 <= k <= |records| && At(records, k).references > 0 ==> At(records, k).token != token
    ensures Inv(Published(records, id, token, holdings[b].range), holdings[b := Holding(holdings[b].range, id)], live)
  {
    hide Counted, HasHolder;
    PublishCounts(records, holdings, b, id, token);
    NoHolderYet(records, holdings, id);
    PublishLabels(records, holdings, b, id, token);
    PublishHeld(holdings, live, b, id);
  }

  function Retained(records: seq<Record>, id: nat): seq<Record>
    requires 1 <= id <= |records|
  {
    records[id - 1 := records[id - 1].(references := records[id - 1].references + 1)]
  }

  lemma RetainCounts(records: seq<Record>, holdings: map<Bo, Holding>, b: Bo, id: nat)
    requires Counted(records, holdings) && b !in holdings && 1 <= id <= |records| && At(records, id).references < U32_MAX
    ensures Counted(Retained(records, id), holdings[b := Holding(At(records, id).range, id)])
  {
    hide Count;
    InsertCounts(records, Retained(records, id), holdings, b, Holding(At(records, id).range, id));
  }

  lemma RetainLabels(records: seq<Record>, holdings: map<Bo, Holding>, b: Bo, id: nat)
    requires Labelled(records, holdings) && b !in holdings && 1 <= id <= |records| && At(records, id).references > 0
    ensures Labelled(Retained(records, id), holdings[b := Holding(At(records, id).range, id)])
  {
    var n := Retained(records, id);
    assert forall k :: 1 <= k <= |records| ==> At(n, k).token == At(records, k).token && At(n, k).range == At(records, k).range;
    assert forall k :: 1 <= k <= |records| && k != id ==> At(n, k) == At(records, k);
  }

  lemma RetainHeld(holdings: map<Bo, Holding>, live: set<Range>, other: Bo, b: Bo)
    requires Held(holdings, live) && other in holdings && holdings[other].shared != 0 && b !in holdings
    ensures Held(holdings[b := holdings[other]], live)
  {
    hide HasHolder;
    var n := holdings[b := holdings[other]];
    forall c | c in holdings && holdings[c].range == holdings[other].range
      ensures holdings[c].shared == holdings[other].shared
    {
      assert c == other || holdings[c].shared == holdings[other].shared;
    }
    KeepsHolders(holdings, n, live);
  }

  /** One more entry on a record that has a holder. */
  lemma RetainKeepsInv(records: seq<Record>, holdings: map<Bo, Holding>, live: set<Range>, b: Bo, id: nat)
    requires Inv(records, holdings, live) && b !in holdings && 1 <= id <= |records| && 0 < At(records, id).references < U32_MAX
    ensures Inv(Retained(records, id), holdings[b := Holding(At(records, id).range, id)], live)
  {
    hide Counted, HasHolder;
    var n := holdings[b := Holding(At(records, id).range, id)];
    RetainCounts(records, holdings, b, id);
    NoHolderYet(records, holdings, id);
    var other :| other in holdings && holdings[other].shared == id;
    RetainHeld(holdings, live, other, b);
    RetainLabels(records, holdings, b, id);
  }

  /** What a release does to the records. */
  function Released(records: seq<Record>, h: Holding): seq<Record>
    requires h.shared <= |records|
  {
    if h.shared == 0 || At(records, h.shared).references == 0 then records
    else records[h.shared - 1 := records[h.shared - 1].(references := records[h.shared - 1].references - 1)]
  }

  /** Whether the holder is the only one of its range, in the terms the driver can see. */
  predicate LastHolder(records: seq<Record>, h: Holding)
    requires h.shared <= |records|
  {
    h.shared == 0 || At(records, h.shared).references == 1
  }

  /** The last reference belongs to the last entry that holds the range. */
  lemma LastHolderIsLast(records: seq<Record>, holdings: map<Bo, Holding>, live: set<Range>, b: Bo)
    requires Inv(records, holdings, live) && b in holdings
    ensures holdings[b].shared <= |records| && holdings[b].range in live
    ensures holdings[b].shared != 0 ==> At(records, holdings[b].shared).references > 0
    ensures LastHolder(records, holdings[b]) <==> forall c :: c in holdings && c != b ==> holdings[c].range != holdings[b].range
  {
    hide Count;
    var h := holdings[b];
    if h.shared != 0 {
      CountIsHolder(holdings, h.shared);
      CountRemove(holdings, b, h.shared);
      CountIsHolder(holdings - {b}, h.shared);
      if c :| c in holdings && c != b && holdings[c].range == h.range {
        assert c in holdings - {b} && (holdings - {b})[c].shared == h.shared;
      }
      if c :| c in holdings - {b} && (holdings - {b})[c].shared == h.shared {
        assert holdings[c].range == h.range;
      }
    }
  }

  lemma ReleaseCounts(records: seq<Record>, holdings: map<Bo, Holding>, b: Bo)
    requires Counted(records, holdings) && b in holdings && holdings[b].shared <= |records|
    requires holdings[b].shared != 0 ==> At(records, holdings[b].shared).references > 0
    ensures Counted(Released(records, holdings[b]), holdings - {b})
  {
    hide Count;
    RemoveCounts(records, Released(records, holdings[b]), holdings, b);
  }

  lemma ReleaseLabels(records: seq<Record>, holdings: map<Bo, Holding>, b: Bo)
    requires Labelled(records, holdings) && b in holdings && holdings[b].shared <= |records|
    ensures Labelled(Released(records, holdings[b]), holdings - {b})
  {
    var n := Released(records, holdings[b]);
    assert forall id :: 1 <= id <= |records| ==>
        At(n, id).token == At(records, id).token && At(n, id).range == At(records, id).range && At(n, id).references <= At(records, id).references;
  }

  lemma ReleaseHeld(holdings: map<Bo, Holding>, live: set<Range>, b: Bo, last: bool)
    requires Held(holdings, live) && b in holdings
    requires last <==> forall c :: c in holdings && c != b ==> holdings[c].range != holdings[b].range
    ensures Held(holdings - {b}, if last then live - {holdings[b].range} else live)
  {
    var n := holdings - {b};
    var after := if last then live - {holdings[b].range} else live;
    forall r | r in after
      ensures HasHolder(n, r)
    {
      if r != holdings[b].range {
        var c :| c in holdings && holdings[c].range == r;
        assert c in n && n[c].range == r;
      } else {
        var c :| c in holdings && c != b && holdings[c].range == holdings[b].range;
        assert c in n && n[c].range == r;
      }
    }
  }

  lemma ReleaseKeepsInv(records: seq<Record>, holdings: map<Bo, Holding>, live: set<Range>, b: Bo)
    requires Inv(records, holdings, live) && b in holdings
    ensures holdings[b].shared <= |records| && holdings[b].range in live
    ensures Inv(Released(records, holdings[b]), holdings - {b},
                if LastHolder(records, holdings[b]) then live - {holdings[b].range} else live)
  {
    LastHolderIsLast(records, holdings, live, b);
    ReleaseCounts(records, holdings, b);
    ReleaseLabels(records, holdings, b);
    ReleaseHeld(holdings, live, b, LastHolder(records, holdings[b]));
  }

  // ---- The table in memory -----------------------------------------------------------------

  /** A record of the token that is in use. */
  predicate Carries(records: seq<Record>, id: nat, token: Token)
    requires 1 <= id <= |records|
  {
    At(records, id).references != 0 && At(records, id).token == token
  }

  /** A record that an import of this token and size may join. */
  predicate Joinable(records: seq<Record>, token: Token, size: nat, id: nat) {
    && 1 <= id <= |records| && Carries(records, id, token)
    && At(records, id).range.size == size && At(records, id).references != U32_MAX
  }

  /** A token names one record at most. */
  lemma OneCarrier(records: seq<Record>, holdings: map<Bo, Holding>, token: Token, size: nat, id: nat)
    requires Labelled(records, holdings) && 1 <= id <= |records| && Carries(records, id, token)
    ensures forall k :: Joinable(records, token, size, k) ==> k == id
  {
  }

  /** The zero token names none, nor does a token that the search did not find. */
  lemma NoCarrier(records: seq<Record>, holdings: map<Bo, Holding>, token: Token, size: nat)
    requires Labelled(records, holdings)
    requires token == Token(0, 0) || forall k :: 1 <= k <= |records| ==> !Carries(records, k, token)
    ensures forall k :: !Joinable(records, token, size, k)
  {
  }

  /** Every allocation has its own number, and the numbers given back are none of the live ones. */
  ghost predicate Logged(live: set<Range>, granted: map<Range, nat>, grants: nat, freed: seq<nat>) {
    && granted.Keys == live && (forall r :: r in live ==> 1 <= granted[r] <= grants)
    && (forall r, x :: r in live && x in live && r != x ==> granted[r] != granted[x])
    && (forall i :: 0 <= i < |freed| ==> 1 <= freed[i] <= grants)
    && (forall i, r :: 0 <= i < |freed| && r in live ==> granted[r] != freed[i])
    && (forall i, j :: 0 <= i < j < |freed| ==> freed[i] != freed[j])
  }

  lemma LogGrant(live: set<Range>, granted: map<Range, nat>, grants: nat, freed: seq<nat>, r: Range)
    requires Logged(live, granted, grants, freed) && r !in live
    ensures Logged(live + {r}, granted[r := grants + 1], grants + 1, freed)
  {
  }

  lemma LogFree(live: set<Range>, granted: map<Range, nat>, grants: nat, freed: seq<nat>, r: Range)
    requires Logged(live, granted, grants, freed) && r in live
    ensures r in granted && Logged(live - {r}, granted - {r}, grants, freed + [granted[r]])
  {
  }

  lemma SizedRange(holdings: map<Bo, Holding>, live: set<Range>, b: Bo)
    requires Held(holdings, live) && b in holdings
    ensures holdings[b].range.size > 0
  {
  }

  lemma CountFits(records: seq<Record>, holdings: map<Bo, Holding>, id: nat)
    requires Counted(records, holdings) && 1 <= id <= |records|
    ensures At(records, id).references <= U32_MAX
  {
  }

  lemma NotCarried(records: seq<Record>, token: Token)
    requires forall k :: 1 <= k <= |records| ==> !Carries(records, k, token)
    ensures forall k :: 1 <= k <= |records| && At(records, k).references > 0 ==> At(records, k).token != token
  {
    forall k | 1 <= k <= |records| && At(records, k).references > 0
      ensures At(records, k).token != token
    {
      assert !Carries(records, k, token);
    }
  }

  lemma NothingCounted(records: seq<Record>)
    requires |records| == CAPACITY && forall i :: 0 <= i < CAPACITY ==> records[i] == UNUSED
    ensures Inv(records, map[], {})
  {
    forall id | 1 <= id <= CAPACITY
      ensures Count(map[], id) == 0
    {
      CountIsHolder(map[], id);
    }
  }

  class SharedVram {
    const entries: array<Record> // SharedBuffers
    var holdings: map<Bo, Holding> // the VRAM entries of all clients, live or quarantined
    var live: set<Range> // what the VRAM allocator has out
    /** Ranges given back, in order, each under the number of its allocation. */
    var granted: map<Range, nat>
    var grants: nat
    ghost var freed: seq<nat>

    ghost predicate Valid()
      reads this, entries
    {
      && Inv(entries[..], holdings, live)
      && Logged(live, granted, grants, freed)
    }

    constructor ()
      ensures Valid() && holdings == map[] && live == {} && freed == [] && fresh(entries)
    {
      entries := new Record[CAPACITY](_ => UNUSED);
      holdings, live, granted, grants, freed := map[], {}, map[], 0, [];
      new;
      NothingCounted(entries[..]);
    }

    /** SharedBuffers::find. */
    method Find(token: Token) returns (id: nat)
      requires Valid()
      ensures id <= CAPACITY && (id != 0 ==> Carries(entries[..], id, token))
      ensures id == 0 ==> token == Token(0, 0) || forall k :: 1 <= k <= CAPACITY ==> !Carries(entries[..], k, token)
    {
      hide Counted, Labelled, Held, Logged;
      if token == Token(0, 0) {
        return 0;
      }
      for i := 0 to CAPACITY
        invariant forall k :: 1 <= k <= i ==> !Carries(entries[..], k, token)
      {
        assert entries[i] == At(entries[..], i + 1);
        if entries[i].references != 0 && entries[i].token == token {
          return i + 1;
        }
      }
      return 0;
    }

    /** BOAlloc in VRAM. */
    method Alloc(b: Bo, r: Range) returns (ok: bool)
      requires Valid() && b !in holdings
      modifies this
      ensures Valid() && freed == old(freed)
      ensures ok <==> Grantable(r, old(live))
      ensures ok ==> r !in old(live) && live == old(live) + {r} && holdings == old(holdings)[b := Holding(r, 0)]
      ensures !ok ==> live == old(live) && holdings == old(holdings)
    {
      hide Counted, Labelled, Held, Logged;
      if !Grantable(r, live) {
        return false;
      }
      AllocKeepsInv(entries[..], holdings, live, b, r);
      LogGrant(live, granted, grants, freed, r);
      grants := grants + 1;
      granted := granted[r := grants];
      holdings := holdings[b := Holding(r, 0)];
      live := live + {r};
      return true;
    }

    method Publish(b: Bo, id: nat, token: Token)
      requires Valid() && b in holdings && holdings[b].shared == 0 && 1 <= id <= CAPACITY && At(entries[..], id).references == 0
      requires token != Token(0, 0)
      requires forall k :: 1 <= k <= CAPACITY && At(entries[..], k).references > 0 ==> At(entries[..], k).token != token
      modifies this`holdings, entries
      ensures Valid() && entries[..] == Published(old(entries[..]), id, token, old(holdings)[b].range)
      ensures holdings == old(holdings)[b := Holding(old(holdings)[b].range, id)]
    {
      hide Counted, Labelled, Held, Logged;
      var range := holdings[b].range;
      PublishKeepsInv(entries[..], holdings, live, b, id, token);
      entries[id - 1] := Record(token, range, 1);
      assert entries[..] == Published(old(entries[..]), id, token, range);
      holdings := holdings[b := Holding(range, id)];
    }

    /** BOExport with SharedBuffers::publish. A token already in use, a full table or the null token is
        refused; exporting again keeps the first record and adds no reference. */
    method Export(b: Bo, token: Token) returns (id: nat)
      requires Valid() && b in holdings
      modifies this`holdings, entries
      ensures Valid() && live == old(live)
      ensures old(holdings)[b].shared != 0 ==> id == old(holdings)[b].shared && holdings == old(holdings) && entries[..] == old(entries[..])
      ensures old(holdings)[b].shared == 0 && id != 0 ==>
        && 1 <= id <= CAPACITY && At(old(entries[..]), id).references == 0 && entries[..] == Published(old(entries[..]), id, token, old(holdings)[b].range)
        && holdings == old(holdings)[b := Holding(old(holdings)[b].range, id)]
      ensures id == 0 ==>
        && holdings == old(holdings) && entries[..] == old(entries[..])
        && (token == Token(0, 0) || (exists k :: 1 <= k <= CAPACITY && Carries(entries[..], k, token))
            || holdings[b].range.gpu == 0 || forall k :: 1 <= k <= CAPACITY ==> At(entries[..], k).references != 0)
    {
      hide Counted, Labelled, Held, Logged;
      SizedRange(holdings, live, b);
      if holdings[b].shared != 0 {
        return holdings[b].shared;
      }
      var range := holdings[b].range;
      if token == Token(0, 0) || range.gpu == 0 || range.size == 0 {
        return 0;
      }
      var known := Find(token);
      if known != 0 {
        return 0;
      }
      NotCarried(entries[..], token);
      for i := 0 to CAPACITY
        invariant forall k :: 1 <= k <= i ==> At(entries[..], k).references != 0
        invariant Valid() && holdings == old(holdings) && entries[..] == old(entries[..])
      {
        assert entries[i] == At(entries[..], i + 1);
        if entries[i].references == 0 {
          Publish(b, i + 1, token);
          return i + 1;
        }
      }
      return 0;
    }

    /** BOImport with SharedBuffers::retain: refused exactly if no record carries the token with this size
        and room for one more reference. */
    method Import(b: Bo, token: Token, size: nat) returns (ok: bool)
      requires Valid() && b !in holdings
      modifies this`holdings, entries
      ensures Valid() && live == old(live)
      ensures ok ==> exists id ::
        (&& Joinable(old(entries[..]), token, size, id) && entries[..] == Retained(old(entries[..]), id)
         && holdings == old(holdings)[b := Holding(At(old(entries[..]), id).range, id)])
      ensures !ok ==> holdings == old(holdings) && entries[..] == old(entries[..])
      ensures !ok ==> forall id :: !Joinable(old(entries[..]), token, size, id)
    {
      hide Counted, Labelled, Held, Logged;
      var id := Find(token);
      if id == 0 {
        NoCarrier(entries[..], holdings, token, size);
        return false;
      }
      assert entries[id - 1] == At(entries[..], id);
      var record := entries[id - 1];
      OneCarrier(entries[..], holdings, token, size, id);
      if record.range.size != size {
        return false;
      }
      if record.references == 0 || record.references == U32_MAX {
        return false;
      }
      CountFits(entries[..], holdings, id);
      RetainKeepsInv(entries[..], holdings, live, b, id);
      entries[id - 1] := record.(references := record.references + 1);
      holdings := holdings[b := Holding(record.range, id)];
      assert entries[..] == Retained(old(entries[..]), id);
      return true;
    }

    /** SharedBuffers::release, or nothing to ask when the range was never shared. */
    method DropReference(id: nat) returns (last: bool)
      requires entries.Length == CAPACITY && id <= CAPACITY && (id != 0 ==> At(entries[..], id).references > 0)
      modifies entries
      ensures last == (id == 0 || old(At(entries[..], id)).references == 1)
      ensures entries[..] == if id == 0 then old(entries[..])
                             else old(entries[..])[id - 1 := old(At(entries[..], id)).(references := old(At(entries[..], id)).references - 1)]
    {
      last := true;
      if id != 0 {
        assert entries[id - 1] == At(entries[..], id);
        entries[id - 1] := entries[id - 1].(references := entries[id - 1].references - 1);
        last := entries[id - 1].references == 0;
      }
    }

    /** The VRAM part of BOFree and of bulk release: the range goes back exactly when this was its last
        holder, among all clients and the quarantine. */
    method Release(b: Bo)
      requires Valid() && b in holdings
      modifies this, entries
      ensures Valid() && holdings == old(holdings) - {b}
      ensures var r := old(holdings)[b].range;
              if exists c :: c in holdings && holdings[c].range == r then live == old(live) && freed == old(freed)
              else r in old(live) && live == old(live) - {r} && freed == old(freed) + [old(granted)[r]]
    {
      hide Counted, Labelled, Held, Logged;
      var h := holdings[b];
      LastHolderIsLast(entries[..], holdings, live, b);
      ReleaseKeepsInv(entries[..], holdings, live, b);
      var last := DropReference(h.shared);
      assert entries[..] == Released(old(entries[..]), h);
      if last {
        LogFree(live, granted, grants, freed, h.range);
        freed := freed + [granted[h.range]];
        live := live - {h.range};
        granted := granted - {h.range};
      }
      holdings := holdings - {b};
      assert forall c :: c in holdings ==> c in old(holdings) && c != b && holdings[c] == old(holdings)[c];
      if !last {
        ghost var c :| c in old(holdings) && c != b && old(holdings)[c].range == h.range;
        assert c in holdings;
      }
    }

    /** mac_amdgpu_bo_release_all for one client. */
    method ReleaseClient(owner: nat)
      requires Valid()
      modifies this, entries
      ensures Valid() && holdings == map b | b in old(holdings) && b.owner != owner :: old(holdings)[b]
    {
      hide Inv, Logged;
      while exists b :: b in holdings && b.owner == owner
        invariant Valid()
        invariant forall b :: b in holdings ==> b in old(holdings) && holdings[b] == old(holdings)[b]
        invariant forall b :: b in old(holdings) && b.owner != owner ==> b in holdings
        decreases |holdings|
      {
        var b :| b in holdings && b.owner == owner;
        assert holdings.Keys == (holdings - {b}).Keys + {b};
        Release(b);
      }
    }
  }

  datatype Call =
    | AllocCall(b: Bo, r: Range)
    | ExportCall(b: Bo, token: Token)
    | ImportCall(b: Bo, token: Token, size: nat)
    | ReleaseCall(b: Bo)
    | ReleaseClientCall(owner: nat)

  /** Every run, over any number of clients: counts equal holders, and each allocation goes back to its
      allocator at most once, when the last holder lets go. */
  method Run(calls: seq<Call>) returns (m: SharedVram)
    ensures m.Valid()
    ensures forall id :: 1 <= id <= CAPACITY ==> At(m.entries[..], id).references == Count(m.holdings, id)
    ensures forall r :: r in m.live <==> HasHolder(m.holdings, r)
    ensures forall i, j :: 0 <= i < j < |m.freed| ==> m.freed[i] != m.freed[j]
  {
    hide Count, Labelled;
    m := new SharedVram();
    for k := 0 to |calls|
      invariant fresh(m) && fresh(m.entries) && m.Valid()
    {
      match calls[k] {
        case AllocCall(b, r) =>
          if b !in m.holdings {
            var _ := m.Alloc(b, r);
          }
        case ExportCall(b, token) =>
          if b in m.holdings {
            var _ := m.Export(b, token);
          }
        case ImportCall(b, token, size) =>
          if b !in m.holdings {
            var _ := m.Import(b, token, size);
          }
        case ReleaseCall(b) =>
          if b in m.holdings {
            m.Release(b);
          }
        case ReleaseClientCall(owner) => m.ReleaseClient(owner);
      }
    }
  }
}
