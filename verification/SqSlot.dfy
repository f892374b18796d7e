/** Reading the shared sensor slot without a lock: four words in pinned memory, written by another
    process between any two loads. Models the ReadSqSlot case of dext/MacAMDGPU.cpp. */
module SqSlot {
  import opened Words

  const WRAP: nat := 0x1_0000_0000

  datatype Payload = Payload(busy: nat, ref: nat, clock: nat)
  datatype Sample = NotReady | Sample(sequence: nat, payload: Payload)

  /** The writer adds one before it touches the payload and one when it is done; the slot shows the
      count modulo 2^32. */
  predicate Publishing(count: nat) {
    count % 2 == 1
  }

  function Shown(count: nat): nat {
    count % WRAP
  }

  /** What the reader makes of the words it loaded. */
  function Decide(first: nat, busy: nat, ref: nat, clock: nat, last: nat): Sample {
    if first == 0 || first % 2 == 1 || first != last then NotReady else Sample(last, Payload(busy, ref, clock))
  }

  lemma Residues(count: nat)
    ensures count == 0 ==> Shown(count) == 0
    ensures Shown(count) % 2 == count % 2 && (Shown(count) + 1) % WRAP == Shown(count + 1)
  {
    var q, r := count / WRAP, count % WRAP;
    assert count == 2 * (q * 0x8000_0000) + r;
    DivModUnique(r, 2, r / 2, r % 2);
    DivModUnique(count, 2, q * 0x8000_0000 + r / 2, r % 2);
    if r + 1 < WRAP {
      DivModUnique(count + 1, WRAP, q, r + 1);
    } else {
      DivModUnique(count + 1, WRAP, q + 1, 0);
    }
  }

  lemma SameResidue(a: nat, b: nat)
    requires a <= b < a + WRAP && Shown(a) == Shown(b)
    ensures a == b
  {
  }

  class Slot {
    ghost var count: nat
    var word: nat // words[0]
    var busy: nat
    var ref: nat
    var clock: nat
    /** Every payload that was published, by its count. */
    ghost var published: map<nat, Payload>

    ghost predicate Valid()
      reads this
    {
      && word == Shown(count)
      && (!Publishing(count) && count > 0 ==> count in published && published[count] == Payload(busy, ref, clock))
      && (forall k :: k in published ==> k <= count && k % 2 == 0)
    }

    constructor (busy: nat, ref: nat, clock: nat)
      ensures Valid() && count == 0 && published == map[]
    {
      count, word, published := 0, 0, map[];
      this.busy, this.ref, this.clock := busy, ref, clock;
    }

    method WriterSteps()
      requires Valid()
      modifies this
      ensures Valid() && old(count) <= count
      ensures forall k :: k in old(published) ==> k in published && published[k] == old(published)[k]
      ensures count == old(count) && !Publishing(count) ==> Payload(busy, ref, clock) == old(Payload(busy, ref, clock)) && word == old(word)
    {
      hide Shown;
      Residues(count);
      var which: nat, value: nat :| true;
      if word % 2 == 0 {
        count, word := count + 1, (word + 1) % WRAP;
      } else if which == 0 {
        busy := value;
      } else if which == 1 {
        ref := value;
      } else if which == 2 {
        clock := value;
      } else {
        count, word := count + 1, (word + 1) % WRAP;
        published := published[count := Payload(busy, ref, clock)];
      }
    }

    /** Any number of steps of the writer, one word at a time. */
    method WriterRuns()
      requires Valid()
      modifies this
      ensures Valid() && old(count) <= count
      ensures forall k :: k in old(published) ==> k in published && published[k] == old(published)[k]
      ensures count == old(count) && !Publishing(count) ==> Payload(busy, ref, clock) == old(Payload(busy, ref, clock)) && word == old(word)
    {
      var steps: nat :| true;
      for i := 0 to steps
        invariant Valid() && old(count) <= count
        invariant forall k :: k in old(published) ==> k in published && published[k] == old(published)[k]
        invariant count == old(count) && !Publishing(count) ==> Payload(busy, ref, clock) == old(Payload(busy, ref, clock)) && word == old(word)
      {
        WriterSteps();
      }
    }

    /** The five loads. Unless the writer counted through all 2^32 values during this one read, a
        successful read returns one published payload, whole, under its own sequence number. */
    method Read() returns (r: Sample)
      requires Valid()
      modifies this
      ensures Valid() && old(count) <= count
      ensures r.Sample? && count - old(count) < WRAP ==>
        exists k :: k in published && old(count) <= k <= count && r == Sample(Shown(k), published[k])
      ensures r.Sample? ==> r.sequence != 0 && r.sequence % 2 == 0
      ensures count == old(count) && !Publishing(count) && Shown(count) != 0 ==> r.Sample?
    {
      hide Shown;
      Residues(count);
      WriterRuns();
      var first := word;
      ghost var k := count;
      Residues(k);
      WriterRuns();
      var busyLoaded := busy;
      WriterRuns();
      var refLoaded := ref;
      WriterRuns();
      var clockLoaded := clock;
      WriterRuns();
      var last := word;
      if first == 0 || first % 2 == 1 || first != last {
        return NotReady;
      }
      r := Sample(last, Payload(busyLoaded, refLoaded, clockLoaded));
      if count - old(count) < WRAP {
        SameResidue(k, count);
        assert k in published && r == Sample(Shown(k), published[k]);
      }
    }
  }

  // ---- The limit of the protocol -----------------------------------------------------------

  /** The slot at one moment, and what may have become of it later. */
  datatype Moment = Moment(count: nat, payload: Payload)

  predicate Later(a: Moment, b: Moment) {
    a.count <= b.count && (a.count == b.count && !Publishing(a.count) ==> a.payload == b.payload)
  }

  function ReadAt(m: seq<Moment>): Sample
    requires |m| == 5
  {
    Decide(Shown(m[0].count), m[1].payload.busy, m[2].payload.ref, m[3].payload.clock, Shown(m[4].count))
  }

  predicate Ordered(m: seq<Moment>) {
    forall i :: 0 <= i < |m| - 1 ==> Later(m[i], m[i + 1])
  }

  /** A successful read is torn, that is, not the payload the slot held when the read began, only if the
      writer counted through all 2^32 values in between. */
  lemma TornOnlyByWrap(m: seq<Moment>)
    requires |m| == 5 && Ordered(m) && ReadAt(m).Sample?
    ensures m[4].count - m[0].count < WRAP ==> ReadAt(m) == Sample(Shown(m[0].count), m[0].payload)
  {
    hide Shown;
    Residues(m[0].count);
    assert Later(m[0], m[1]) && Later(m[1], m[2]) && Later(m[2], m[3]) && Later(m[3], m[4]);
    if m[4].count - m[0].count < WRAP {
      SameResidue(m[0].count, m[4].count);
    }
  }

  /** And then it can be: the second word comes from a whole cycle later. */
  lemma WrapTears()
    ensures exists m: seq<Moment> ::
      && |m| == 5 && Ordered(m) && m[4].count - m[0].count == WRAP && ReadAt(m).Sample?
      && forall i :: 0 <= i < 5 ==> ReadAt(m).payload != m[i].payload
  {
    var before, after := Moment(2, Payload(1, 1, 1)), Moment(WRAP + 2, Payload(2, 2, 2));
    var m := [before, before, after, after, after];
    assert (WRAP + 2) % WRAP == 2;
    assert ReadAt(m) == Sample(2, Payload(1, 2, 2));
  }
}
