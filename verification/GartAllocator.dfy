/** The GART aperture allocator: 128 unsorted reservations, first fit.
    Models dext/amdgpu/amdgpu_gart_allocator.h. */
module GartAllocator {
  import opened Words

  datatype Reservation = Reservation(offset: nat, size: nat, id: nat)

  const FREE := Reservation(0, 0, 0)
  const CAPACITY: nat := 128

  function End(r: Reservation): nat {
    r.offset + r.size
  }

  predicate Overlaps(r: Reservation, offset: nat, bytes: nat) {
    r.id != 0 && offset < End(r) && r.offset < offset + bytes
  }

  /** `offset` is where a block of `bytes` may legally be placed. */
  predicate Fits(records: seq<Reservation>, base: nat, size: nat, offset: nat, bytes: nat, alignment: nat)
    requires alignment > 0
  {
    && offset + bytes <= size
    && (base + offset) % alignment == 0
    && forall r :: r in records ==> !Overlaps(r, offset, bytes)
  }

  predicate Shape(bytes: nat, alignment: nat, size: nat) {
    0 < bytes <= size && bytes % GPU_PAGE == 0 && alignment >= GPU_PAGE && PowerOfTwo(alignment)
  }

  /** How many live reservations end beyond `at`: each collision of the search consumes one. */
  function EndingAfter(records: seq<Reservation>, at: nat): (n: nat)
    ensures n <= |records|
  {
    if records == [] then 0
    else (if records[0].id != 0 && End(records[0]) > at then 1 else 0) + EndingAfter(records[1..], at)
  }

  /** Moving past the end of reservation `j` leaves strictly fewer reservations ahead. */
  lemma {:induction false} PassingConsumes(records: seq<Reservation>, from: nat, to: nat, j: nat)
    requires from <= to
    ensures EndingAfter(records, to) <= EndingAfter(records, from)
    ensures j < |records| && records[j].id != 0 && from < End(records[j]) <= to ==>
              EndingAfter(records, to) < EndingAfter(records, from)
  {
    if records != [] {
      PassingConsumes(records[1..], from, to, if j > 0 then j - 1 else |records|);
    }
  }

  ghost predicate NothingFitsBelow(records: seq<Reservation>, base: nat, size: nat, limit: nat, bytes: nat, alignment: nat)
    requires alignment > 0
  {
    forall o: nat :: o < limit ==> !Fits(records, base, size, o, bytes, alignment)
  }

  lemma NoAlignedPlacementAbove(records: seq<Reservation>, base: nat, size: nat, at: nat, bytes: nat, alignment: nat)
    requires PowerOfTwo(alignment) && alignment <= U64_MAX && bytes > 0 && base + size <= U64_MAX
    requires base + at > U64_MAX - (alignment - 1) && NothingFitsBelow(records, base, size, at, bytes, alignment)
    ensures forall o: nat :: !Fits(records, base, size, o, bytes, alignment)
  {
    forall o: nat | o >= at
      ensures !Fits(records, base, size, o, bytes, alignment)
    {
      if Fits(records, base, size, o, bytes, alignment) {
        AlignedBelowLimit(base + o, alignment);
      }
    }
  }

  /** Aligning the candidate up neither skips a legal placement nor brings a passed reservation back. */
  lemma RoundingSkipsNothing(records: seq<Reservation>, base: nat, size: nat, at: nat, bytes: nat, alignment: nat)
    requires alignment > 0 && NothingFitsBelow(records, base, size, at, bytes, alignment)
    ensures RoundUp(base + at, alignment) - base >= at
    ensures (base + (RoundUp(base + at, alignment) - base)) % alignment == 0
    ensures NothingFitsBelow(records, base, size, RoundUp(base + at, alignment) - base, bytes, alignment)
    ensures EndingAfter(records, RoundUp(base + at, alignment) - base) <= EndingAfter(records, at)
  {
    RoundUpIsLeastMultiple(base + at, alignment);
    PassingConsumes(records, at, RoundUp(base + at, alignment) - base, |records|);
    forall o: nat | at <= o < RoundUp(base + at, alignment) - base
      ensures !Fits(records, base, size, o, bytes, alignment)
    {
      assert base + o < RoundUp(base + at, alignment);
    }
  }

  /** Every placement before the end of a colliding reservation collides with it too. */
  lemma CollisionSkipsNothing(records: seq<Reservation>, base: nat, size: nat, at: nat, bytes: nat, alignment: nat, hit: nat)
    requires alignment > 0 && NothingFitsBelow(records, base, size, at, bytes, alignment)
    requires hit < |records| && Overlaps(records[hit], at, bytes)
    ensures NothingFitsBelow(records, base, size, End(records[hit]), bytes, alignment)
  {
    forall o: nat | at <= o < End(records[hit])
      ensures !Fits(records, base, size, o, bytes, alignment)
    {
      assert Overlaps(records[hit], o, bytes);
    }
  }

  ghost function LiveIn(records: seq<Reservation>): set<Reservation> {
    set r | r in records && r.id != 0
  }

  lemma LiveAfterUpdate(records: seq<Reservation>, slot: nat, r: Reservation)
    requires slot < |records|
    requires forall i :: 0 <= i < |records| && i != slot && records[i].id != 0 ==> records[i] != records[slot]
    ensures LiveIn(records[slot := r]) ==
            LiveIn(records) - {records[slot]} + (if r.id != 0 then {r} else {})
  {
    var after := records[slot := r];
    forall x | x in records && x != records[slot]
      ensures x in after
    {
      var k :| 0 <= k < |records| && records[k] == x;
      assert after[k] == x;
    }
    assert after[slot] == r;
  }

  /** Live reservations are in bounds, page sized, disjoint and uniquely numbered. */
  ghost predicate WellFormed(records: seq<Reservation>, size: nat, lastID: nat) {
    && (forall i :: 0 <= i < |records| && records[i].id == 0 ==> records[i] == FREE)
    && (forall i :: 0 <= i < |records| && records[i].id != 0 ==>
         && records[i].id <= lastID && 0 < records[i].size && End(records[i]) <= size
         && records[i].offset % GPU_PAGE == 0 && records[i].size % GPU_PAGE == 0)
    && (forall i, j :: 0 <= i < |records| && 0 <= j < |records| && i != j && records[i].id != 0 && records[j].id != 0 ==>
         records[i].id != records[j].id && !Overlaps(records[i], records[j].offset, records[j].size))
  }

  lemma PlacingKeepsWellFormed(records: seq<Reservation>, slot: nat, r: Reservation, size: nat, lastID: nat)
    requires WellFormed(records, size, lastID) && slot < |records| && records[slot].id == 0
    requires r.id == lastID + 1 && r.size > 0 && End(r) <= size && r.offset % GPU_PAGE == 0 && r.size % GPU_PAGE == 0
    requires forall l :: l in LiveIn(records) ==> !Overlaps(l, r.offset, r.size)
    ensures WellFormed(records[slot := r], size, lastID + 1)
  {
    var after := records[slot := r];
    forall i, j | 0 <= i < |after| && 0 <= j < |after| && i != j && after[i].id != 0 && after[j].id != 0
      ensures after[i].id != after[j].id && !Overlaps(after[i], after[j].offset, after[j].size)
    {
      assert i != slot ==> after[i] == records[i] && records[i] in LiveIn(records);
      assert j != slot ==> after[j] == records[j] && records[j] in LiveIn(records);
    }
  }

  lemma PlacementAvoidsLive(records: seq<Reservation>, base: nat, size: nat, lastID: nat, offset: nat, bytes: nat, alignment: nat)
    requires alignment > 0 && WellFormed(records, size, lastID) && Fits(records, base, size, offset, bytes, alignment)
    ensures forall l :: l in LiveIn(records) ==> l.id <= lastID && !Overlaps(l, offset, bytes)
  {
  }

  /** The live bytes among `records`. */
  function TotalSize(records: seq<Reservation>): (n: nat)
    ensures n == 0 ==> forall r :: r in records && r.size > 0 ==> r.id == 0
    ensures (forall r :: r in records ==> r.id == 0) ==> n == 0
  {
    if records == [] then 0
    else
      var last := records[|records| - 1];
      TotalSize(records[..|records| - 1]) + (if last.id != 0 then last.size else 0)
  }

  ghost function Offsets(from: nat, to: nat): (s: set<nat>)
    requires from <= to
    ensures forall o: nat :: o in s <==> from <= o < to
    ensures |s| == to - from
  {
    if from == to then {} else Offsets(from, to - 1) + {to - 1}
  }

  /** The aperture offsets that a live reservation covers. */
  ghost function Covered(records: seq<Reservation>): (s: set<nat>)
    ensures forall o: nat :: o in s ==> exists i :: 0 <= i < |records| && Overlaps(records[i], o, 1)
  {
    if records == [] then {}
    else
      var last := records[|records| - 1];
      Covered(records[..|records| - 1]) + (if last.id != 0 then Offsets(last.offset, End(last)) else {})
  }

  lemma SubsetIsSmaller(a: set<nat>, b: set<nat>)
    requires a <= b
    ensures |a| <= |b|
  {
    assert b == a + (b - a);
  }

  lemma EndIs(r: Reservation)
    ensures End(r) == r.offset + r.size
  {
  }

  lemma PrefixIsWellFormed(records: seq<Reservation>, size: nat, lastID: nat)
    requires WellFormed(records, size, lastID) && records != []
    ensures WellFormed(records[..|records| - 1], size, lastID)
  {
  }

  lemma LastIsApart(records: seq<Reservation>, size: nat, lastID: nat)
    requires WellFormed(records, size, lastID) && records != [] && records[|records| - 1].id != 0
    ensures var last := records[|records| - 1];
            Covered(records[..|records| - 1]) !! Offsets(last.offset, End(last))
  {
    hide Covered, Offsets;
    var rest, last := records[..|records| - 1], records[|records| - 1];
    forall o | o in Covered(rest)
      ensures o !in Offsets(last.offset, End(last))
    {
      var i :| 0 <= i < |rest| && Overlaps(rest[i], o, 1);
      assert !Overlaps(records[i], last.offset, last.size);
    }
  }

  lemma CoveredIsInside(records: seq<Reservation>, size: nat, lastID: nat)
    requires WellFormed(records, size, lastID)
    ensures Covered(records) <= Offsets(0, size)
  {
    hide Covered, Offsets;
  }

  /** Live reservations are disjoint, so their sizes add up to the offsets they cover: never beyond the aperture. */
  lemma {:induction false} SizesAreCovered(records: seq<Reservation>, size: nat, lastID: nat)
    requires WellFormed(records, size, lastID)
    ensures TotalSize(records) == |Covered(records)| <= size
  {
    hide WellFormed, Overlaps, End;
    if records != [] {
      var last := records[|records| - 1];
      PrefixIsWellFormed(records, size, lastID);
      SizesAreCovered(records[..|records| - 1], size, lastID);
      if last.id != 0 {
        LastIsApart(records, size, lastID);
        assert |Offsets(last.offset, End(last))| == last.size by {
          EndIs(last);
        }
      }
    }
    CoveredIsInside(records, size, lastID);
    SubsetIsSmaller(Covered(records), Offsets(0, size));
  }

  class GARTApertureAllocator {
    const records: array<Reservation>
    var base: nat
    var size: nat
    var lastID: nat
    var initialized: bool

    ghost predicate Valid()
      reads this, records
    {
      && records.Length == CAPACITY
      && base + size <= U64_MAX && base % GPU_PAGE == 0 && size % GPU_PAGE == 0
      && lastID <= U64_MAX
      && (!initialized ==> forall i :: 0 <= i < CAPACITY ==> records[i] == FREE)
      && WellFormed(records[..], size, lastID)
    }

    ghost function Live(): set<Reservation>
      reads this, records
    {
      LiveIn(records[..])
    }

    lemma EmptyUntilInitialized()
      requires Valid() && !initialized
      ensures Live() == {}
    {
    }

    constructor ()
      ensures Valid() && Live() == {} && !initialized && base == size == lastID == 0 && fresh(records)
    {
      records := new Reservation[CAPACITY](_ => FREE);
      base, size, lastID, initialized := 0, 0, 0, false;
    }

    method Init(apertureBase: nat, apertureSize: nat) returns (ok: bool)
      requires Valid() && apertureBase <= U64_MAX && apertureSize <= U64_MAX
      modifies this
      ensures Valid() && lastID == old(lastID) && Live() == old(Live())
      ensures ok ==> initialized && base == apertureBase && size == apertureSize > 0
      ensures old(initialized) || !ok ==> base == old(base) && size == old(size) && initialized == old(initialized)
      ensures ok <==> apertureSize > 0 && apertureBase % GPU_PAGE == 0 && apertureSize % GPU_PAGE == 0 &&
                      apertureBase + apertureSize <= U64_MAX &&
                      (old(initialized) ==> old(base) == apertureBase && old(size) == apertureSize)
    {
      if apertureSize == 0 || apertureBase % GPU_PAGE != 0 || apertureSize % GPU_PAGE != 0 ||
         apertureBase > U64_MAX - apertureSize {
        return false;
      }
      if initialized {
        return base == apertureBase && size == apertureSize;
      }
      base, size, initialized := apertureBase, apertureSize, true;
      return true;
    }

    /** One scan: the furthest end among the reservations that collide at `candidate`. */
    method FurthestCollision(candidate: nat, bytes: nat) returns (next: nat, ghost hit: nat)
      requires Valid()
      ensures next >= candidate
      ensures next == candidate ==> forall r :: r in records[..] ==> !Overlaps(r, candidate, bytes)
      ensures next > candidate ==> hit < CAPACITY && Overlaps(records[hit], candidate, bytes) && End(records[hit]) == next
    {
      next, hit := candidate, CAPACITY;
      for i := 0 to CAPACITY
        invariant candidate <= next
        invariant next > candidate ==> hit < i && Overlaps(records[hit], candidate, bytes) && End(records[hit]) == next
        invariant forall k :: 0 <= k < i && Overlaps(records[k], candidate, bytes) ==> End(records[k]) <= next
      {
        if Overlaps(records[i], candidate, bytes) && End(records[i]) > next {
          next := End(records[i]);
          hit := i;
        }
      }
    }

    /** First fit. A success is the lowest legal placement and the lowest free record; a failure
        means there is no legal placement, no free record, or a malformed request. The bounded
        number of passes is never what makes the search fail. */
    method Find(bytes: nat, alignment: nat) returns (ok: bool, offset: nat, slot: nat)
      requires Valid() && alignment <= U64_MAX
      ensures ok ==> slot < CAPACITY && records[slot].id == 0 && forall i :: 0 <= i < slot ==> records[i].id != 0
      ensures ok ==> alignment > 0 && initialized && Shape(bytes, alignment, size) && lastID < U64_MAX
      ensures ok ==> Fits(records[..], base, size, offset, bytes, alignment)
      ensures ok ==> NothingFitsBelow(records[..], base, size, offset, bytes, alignment)
      ensures !ok && initialized && Shape(bytes, alignment, size) && lastID < U64_MAX &&
              (exists i :: 0 <= i < CAPACITY && records[i].id == 0) ==>
                forall o: nat :: !Fits(records[..], base, size, o, bytes, alignment)
    {
      hide WellFormed, EndingAfter, RoundUp, Overlaps;
      offset, slot := 0, CAPACITY;
      if !initialized || bytes == 0 || bytes % GPU_PAGE != 0 || alignment < GPU_PAGE ||
         !PowerOfTwo(alignment) || bytes > size || lastID == U64_MAX {
        return false, offset, slot;
      }
      for i := 0 to CAPACITY
        invariant slot == CAPACITY
        invariant forall k :: 0 <= k < i ==> records[k].id != 0
      {
        if records[i].id == 0 {
          slot := i;
          break;
        }
      }
      if slot == CAPACITY {
        return false, offset, slot;
      }
      ghost var recs := records[..];
      var candidate: nat := 0;
      for pass := 0 to CAPACITY + 1
        invariant EndingAfter(recs, candidate) <= CAPACITY - pass
        invariant NothingFitsBelow(recs, base, size, candidate, bytes, alignment)
      {
        var address := base + candidate;
        if address > U64_MAX - (alignment - 1) {
          NoAlignedPlacementAbove(recs, base, size, candidate, bytes, alignment);
          return false, offset, slot;
        }
        RoundingSkipsNothing(recs, base, size, candidate, bytes, alignment);
        candidate := RoundUp(address, alignment) - base;
        if candidate > size || bytes > size - candidate {
          return false, offset, slot;
        }
        var next, hit := FurthestCollision(candidate, bytes);
        if next == candidate {
          return true, candidate, slot;
        }
        PassingConsumes(recs, candidate, next, hit);
        CollisionSkipsNothing(recs, base, size, candidate, bytes, alignment, hit);
        candidate := next;
      }
      assert false;
    }

    lemma PlacementIsPageAligned(offset: nat, alignment: nat)
      requires Valid() && PowerOfTwo(alignment) && alignment >= GPU_PAGE && (base + offset) % alignment == 0
      ensures offset % GPU_PAGE == 0
    {
      assert PowerOfTwo(GPU_PAGE) by {
        assert PowerOfTwo(64) by {
          assert PowerOfTwo(16);
        }
        Product(64, 64);
      }
      PowersDivide(GPU_PAGE, alignment);
      var k, l := (base + offset) / alignment, alignment / GPU_PAGE;
      assert base + offset == k * (l * GPU_PAGE);
      assert k * (l * GPU_PAGE) == (k * l) * GPU_PAGE;
      NonNegative(k, l);
      ModOfMultiple(k * l, GPU_PAGE);
    }

    method Reserve(bytes: nat, alignment: nat) returns (ok: bool, out: Reservation)
      requires Valid() && alignment <= U64_MAX
      modifies this`lastID, records
      ensures Valid()
      ensures ok ==> alignment > 0 && out.size == bytes && out.id == lastID == old(lastID) + 1 && old(initialized)
      ensures ok ==> Shape(bytes, alignment, size) && Fits(old(records[..]), base, size, out.offset, bytes, alignment)
      ensures ok ==> NothingFitsBelow(old(records[..]), base, size, out.offset, bytes, alignment)
      ensures ok ==> out.size > 0 && End(out) <= size && out.offset % GPU_PAGE == 0 && (base + out.offset) % alignment == 0
      ensures ok ==> forall l :: l in old(Live()) ==> l.id < out.id && !Overlaps(l, out.offset, out.size)
      ensures Live() == if ok then old(Live()) + {out} else old(Live())
      ensures !ok ==> lastID == old(lastID) && records[..] == old(records[..])
    {
      var offset, slot;
      ok, offset, slot := Find(bytes, alignment);
      if !ok {
        return false, FREE;
      }
      PlacementIsPageAligned(offset, alignment);
      PlacementAvoidsLive(records[..], base, size, lastID, offset, bytes, alignment);
      hide PowerOfTwo, NothingFitsBelow, Fits;
      lastID := lastID + 1;
      out := Reservation(offset, bytes, lastID);
      LiveAfterUpdate(records[..], slot, out);
      PlacingKeepsWellFormed(records[..], slot, out, size, lastID - 1);
      records[slot] := out;
      assert records[..] == old(records[..])[slot := out];
    }

    /** Identity check for a binding: a stale copy carries an id that was retired. */
    method Owns(id: nat, offset: nat, bytes: nat) returns (ok: bool)
      requires Valid()
      ensures ok <==> id != 0 && Reservation(offset, bytes, id) in Live()
    {
      if id == 0 || !initialized {
        return false;
      }
      for i := 0 to CAPACITY
        invariant forall k :: 0 <= k < i ==> records[k] != Reservation(offset, bytes, id)
      {
        if records[i] == Reservation(offset, bytes, id) {
          assert records[..][i] in Live();
          return true;
        }
      }
      return false;
    }

    method Release(id: nat, offset: nat, bytes: nat) returns (ok: bool)
      requires Valid()
      modifies records
      ensures Valid()
      ensures ok <==> id != 0 && Reservation(offset, bytes, id) in old(Live())
      ensures Live() == old(Live()) - {Reservation(offset, bytes, id)}
    {
      if id == 0 || !initialized {
        return false;
      }
      ghost var gone := Reservation(offset, bytes, id);
      for i := 0 to CAPACITY
        invariant forall k :: 0 <= k < i ==> records[k] != gone
        invariant records[..] == old(records[..])
      {
        if records[i] == Reservation(offset, bytes, id) {
          LiveAfterUpdate(records[..], i, FREE);
          assert records[..][i] in Live();
          records[i] := FREE;
          assert records[..] == old(records[..])[i := FREE];
          return true;
        }
      }
      return false;
    }

    /** The 64-bit sum cannot overflow: it never exceeds the aperture. */
    method BytesUsed() returns (used: nat)
      requires Valid()
      ensures used == TotalSize(records[..]) <= size
      ensures used == 0 <==> Live() == {}
    {
      used := 0;
      for i := 0 to CAPACITY
        invariant used == TotalSize(records[..i])
      {
        assert records[..i + 1][..i] == records[..i];
        if records[i].id != 0 {
          used := used + records[i].size;
        }
      }
      assert records[..CAPACITY] == records[..];
      SizesAreCovered(records[..], size, lastID);
      assert used == 0 ==> forall r :: r in records[..] ==> r.id == 0;
      assert Live() == {} ==> forall r :: r in records[..] ==> r in Live() || r.id == 0;
    }
  }
}
