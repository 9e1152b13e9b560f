/** Two halves of one packet in a run of other calls: when the second to arrive finds the first. */
module Delivery {
  import opened Bytes
  import opened FragTable
  import opened FragRuns

  /* No half under an id */

  /** No live half is stored under the id, except perhaps in slot `s`. */
  predicate FreshBut(t: seq<Entry>, id: uint16, now: uint64, s: nat) {
    |t| == SIZE && forall i :: 0 <= i < SIZE && i != s ==> !(Live(t[i], now) && t[i].id == id)
  }

  predicate FreshId(t: seq<Entry>, id: uint16, now: uint64) { FreshBut(t, id, now, SIZE) }

  /** Calls for other ids, from `start` to `end`. */
  predicate Between(evs: seq<Event>, id: uint16, start: uint64, end: uint64) {
    TimedFrom(evs, start) && (evs != [] ==> evs[|evs| - 1].now <= end)
    && forall i :: 0 <= i < |evs| ==> evs[i].Offer? ==> evs[i].id != id
  }

  lemma FreshLater(t: seq<Entry>, id: uint16, now: uint64, later: uint64, s: nat)
    requires TableInv(t, now) && FreshBut(t, id, now, s) && now <= later
    ensures FreshBut(t, id, later, s)
  {
    forall i | 0 <= i < SIZE && i != s ensures !(Live(t[i], later) && t[i].id == id) {
      assert OneHalf(t[i], now);
    }
  }

  lemma FreshNext(kind: Kind, t: seq<Entry>, ev: Event, id: uint16, s: nat)
    requires TableInv(t, ev.now) && FreshBut(t, id, ev.now, s) && WellFormed(ev) && (ev.Offer? ==> ev.id != id)
    ensures FreshBut(Next(kind, t, ev).0, id, ev.now, s)
  {
    if ev.Offer? {
      var slot := SlotFor(kind, t, ev.id, ev.now);
      if slot.Some? {
        PutMeaning(t[slot.value], ev.id, ev.half, ev.now);
      }
    }
    hide Put, SlotFor, OneHalf;
  }

  lemma {:induction false} FreshAfter(kind: Kind, t: seq<Entry>, evs: seq<Event>, id: uint16, now: uint64,
                                      end: uint64, s: nat)
    requires TableInv(t, now) && FreshBut(t, id, now, s) && Between(evs, id, now, end) && now <= end
    ensures FreshBut(After(kind, t, evs), id, end, s) && TableInv(After(kind, t, evs), end)
    decreases |evs|
  {
    hide TableInv, FreshBut, Next;
    if evs == [] {
      FreshLater(t, id, now, end, s);
      InvLater(t, now, end);
    } else {
      InvLater(t, now, evs[0].now);
      FreshLater(t, id, now, evs[0].now, s);
      FreshNext(kind, t, evs[0], id, s);
      NextKeepsInv(kind, t, evs[0]);
      TimedTail(evs);
      FreshAfter(kind, Next(kind, t, evs[0]).0, evs[1..], id, evs[0].now, end, s);
    }
  }

  /** A half offered when no live half is stored under its id cannot complete a packet. */
  lemma FreshNeverJoins(kind: Kind, t: seq<Entry>, id: uint16, h: Half, now: uint64)
    requires TableInv(t, now) && FreshId(t, id, now) && WellFormed(Offer(id, h, now))
    ensures !Next(kind, t, Offer(id, h, now)).1.Joined?
    ensures |h.data| > HALF_MAX ==> FreshId(Next(kind, t, Offer(id, h, now)).0, id, now)
  {
    var slot := SlotFor(kind, t, id, now);
    if slot.Some? {
      PutMeaning(t[slot.value], id, h, now);
    }
    hide Put, SlotFor, OneHalf;
  }

  lemma TooLongRejected(kind: Kind, t: seq<Entry>, id: uint16, h: Half, now: uint64)
    requires |t| == SIZE && |h.data| > HALF_MAX
    ensures Next(kind, t, Offer(id, h, now)).1 == Rejected
  {
  }

  /* A stored half */

  /** A call that takes the slot of an id, when slots are direct. */
  predicate Overwrites(ev: Event, id: uint16) {
    ev.Offer? && |ev.half.data| <= HALF_MAX && ev.id % SIZE == id % SIZE
  }

  predicate Spared(evs: seq<Event>, id: uint16) { forall i :: 0 <= i < |evs| ==> !Overwrites(evs[i], id) }

  /**
   * Calls that leave a stored half alone: any call for another id that, with direct slots, stores nothing
   * in its slot; and sweeps while the half is young.
   */
  predicate LeavesAlone(kind: Kind, ev: Event, id: uint16, since: uint64) {
    since <= ev.now <= since + TIMEOUT
    && (ev.Offer? ==> ev.id != id && (kind.Direct? ==> !Overwrites(ev, id)))
  }

  lemma {:induction false} ProbeAvoids(t: seq<Entry>, id: uint16, now: uint64, step: nat, s: nat)
    requires |t| == SIZE && step <= SIZE && s < SIZE && Live(t[s], now) && t[s].id != id
    ensures Probe(t, id, now, step) != Some(s)
    decreases SIZE - step
  {
    if step < SIZE {
      ProbeAvoids(t, id, now, step + 1, s);
    }
  }

  /** No half is stored under the id, live or not. */
  predicate Gone(e: Entry, id: uint16) { !(Busy(e) && e.id == id) }

  /** What a call for another id does to an entry. */
  lemma OthersPut(e: Entry, ev: Event, id: uint16)
    requires ev.Offer? && ev.id != id
    ensures var e2 := Put(e, ev.id, ev.half, ev.now).0;
            (|ev.half.data| <= HALF_MAX || Gone(e, id) ==> Gone(e2, id))
            && (|ev.half.data| > HALF_MAX && e.id == id ==> e2 == e)
  {
  }

  lemma LeftAlone(kind: Kind, t: seq<Entry>, ev: Event, id: uint16, half: Half, since: uint64, s: nat)
    requires |t| == SIZE && s < SIZE && t[s] == EntryOf(id, half, since)
    requires LeavesAlone(kind, ev, id, since) && (kind.Direct? ==> s == id % SIZE)
    ensures Next(kind, t, ev).0[s] == EntryOf(id, half, since)
  {
    if ev.Offer? {
      ProbeAvoids(t, ev.id, ev.now, 0, s);
      OthersPut(t[s], ev, id);
    }
    hide Put, Probe;
  }

  lemma {:induction false} LeftAloneAll(kind: Kind, t: seq<Entry>, evs: seq<Event>, id: uint16, half: Half,
                                        since: uint64, s: nat)
    requires |t| == SIZE && s < SIZE && t[s] == EntryOf(id, half, since) && (kind.Direct? ==> s == id % SIZE)
    requires forall i :: 0 <= i < |evs| ==> LeavesAlone(kind, evs[i], id, since)
    ensures After(kind, t, evs)[s] == EntryOf(id, half, since)
    decreases |evs|
  {
    hide Next, LeavesAlone;
    if evs != [] {
      LeftAlone(kind, t, evs[0], id, half, since, s);
      LeftAloneAll(kind, Next(kind, t, evs[0]).0, evs[1..], id, half, since, s);
    }
  }

  /** The half to arrive first is stored in the slot its call finds. */
  lemma FirstArrives(kind: Kind, t: seq<Entry>, id: uint16, a: Half, start: uint64, s: nat)
    requires TableInv(t, start) && |a.data| <= HALF_MAX && WellFormed(Offer(id, a, start))
    requires SlotFor(kind, t, id, start) == Some(s) && s < SIZE && !(Live(t[s], start) && t[s].id == id)
    ensures Next(kind, t, Offer(id, a, start)) == (t[s := EntryOf(id, a, start)], Pending)
  {
    PutMeaning(t[s], id, a, start);
    hide Put, SlotFor;
  }

  /** The other half joins it if its call finds the same slot. */
  lemma SecondArrives(kind: Kind, t: seq<Entry>, id: uint16, a: Half, b: Half, start: uint64, end: uint64, s: nat)
    requires |t| == SIZE && s < SIZE && t[s] == EntryOf(id, a, start) && start <= end <= start + TIMEOUT
    requires |a.data| <= HALF_MAX && |b.data| <= HALF_MAX && a.FirstHalf? != b.FirstHalf?
    requires WellFormed(Offer(id, a, start)) && WellFormed(Offer(id, b, end))
    requires SlotFor(kind, t, id, end) == Some(s)
    ensures Next(kind, t, Offer(id, b, end)).1 == Joined(Combine(a, b))
  {
    hide Put, SlotFor, Live;
    YoungIsLive(id, a, start, end);
    PutMeaning(t[s], id, b, end);
  }

  lemma YoungIsLive(id: uint16, a: Half, start: uint64, end: uint64)
    requires start <= end <= start + TIMEOUT
    ensures Live(EntryOf(id, a, start), end)
  {
  }

  /* Direct slots */

  lemma GoneNext(t: seq<Entry>, ev: Event, id: uint16)
    requires |t| == SIZE && (ev.Offer? ==> ev.id != id) && (Gone(t[id % SIZE], id) || Overwrites(ev, id))
    ensures Gone(Next(Direct, t, ev).0[id % SIZE], id)
  {
    if ev.Offer? {
      OthersPut(t[id % SIZE], ev, id);
    }
    hide Put;
  }

  lemma {:induction false} GoneAfter(t: seq<Entry>, evs: seq<Event>, id: uint16)
    requires |t| == SIZE && forall i :: 0 <= i < |evs| && evs[i].Offer? ==> evs[i].id != id
    requires Gone(t[id % SIZE], id) || exists i :: 0 <= i < |evs| && Overwrites(evs[i], id)
    ensures Gone(After(Direct, t, evs)[id % SIZE], id)
    decreases |evs|
  {
    hide Next, Gone, Overwrites;
    if evs != [] {
      var rest := evs[1..];
      if Gone(t[id % SIZE], id) || Overwrites(evs[0], id) {
        GoneNext(t, evs[0], id);
      } else {
        var i :| 0 <= i < |evs| && Overwrites(evs[i], id);
        assert Overwrites(rest[i - 1], id);
      }
      GoneAfter(Next(Direct, t, evs[0]).0, rest, id);
    }
  }

  lemma GoneNeverJoins(t: seq<Entry>, id: uint16, b: Half, now: uint64)
    requires |t| == SIZE && Gone(t[id % SIZE], id)
    ensures !Next(Direct, t, Offer(id, b, now)).1.Joined?
  {
  }

  /** With direct slots the two halves are joined if and only if no call in between stores a half in their slot. */
  lemma {:induction false} DeliveredDirect(t: seq<Entry>, id: uint16, a: Half, evs: seq<Event>, b: Half,
                                           start: uint64, end: uint64)
    requires TableInv(t, start) && !(Live(t[id % SIZE], start) && t[id % SIZE].id == id)
    requires |a.data| <= HALF_MAX && |b.data| <= HALF_MAX && a.FirstHalf? != b.FirstHalf?
    requires WellFormed(Offer(id, a, start)) && WellFormed(Offer(id, b, end)) && start <= end <= start + TIMEOUT
    requires forall i :: 0 <= i < |evs| ==> start <= evs[i].now <= end && (evs[i].Offer? ==> evs[i].id != id)
    ensures var r := Next(Direct, t, Offer(id, a, start));
            var out := Next(Direct, After(Direct, r.0, evs), Offer(id, b, end)).1;
            r.1 == Pending && (out.Joined? <==> Spared(evs, id)) && (out.Joined? ==> out == Joined(Combine(a, b)))
  {
    assert |t| == SIZE;
    hide Next, TableInv, Live, Gone, Overwrites, WellFormed;
    var s := id % SIZE;
    FirstArrives(Direct, t, id, a, start, s);
    var t1 := t[s := EntryOf(id, a, start)];
    if Spared(evs, id) {
      LeftAloneAll(Direct, t1, evs, id, a, start, s);
      SecondArrives(Direct, After(Direct, t1, evs), id, a, b, start, end, s);
    } else {
      GoneAfter(t1, evs, id);
      GoneNeverJoins(After(Direct, t1, evs), id, b, end);
    }
  }

  /* Probing */

  /** The first probe step from `step` on whose slot no other id has taken. */
  function FreeStep(t: seq<Entry>, id: uint16, now: uint64, step: nat): (d: nat)
    requires |t| == SIZE && step <= SIZE
    ensures step <= d <= SIZE && (d < SIZE ==> !Taken(t, id, now, d))
    ensures forall k :: step <= k < d ==> Taken(t, id, now, k)
    decreases SIZE - step
  {
    if step < SIZE && Taken(t, id, now, step) then FreeStep(t, id, now, step + 1) else step
  }

  lemma {:induction false} ProbeIsFreeStep(t: seq<Entry>, id: uint16, now: uint64, step: nat)
    requires |t| == SIZE && step <= SIZE
    ensures var d := FreeStep(t, id, now, step); Probe(t, id, now, step) == if d == SIZE then None else Some((id + d) % SIZE)
    decreases SIZE - step
  {
    if step < SIZE {
      ProbeIsFreeStep(t, id, now, step + 1);
    }
    hide Live;
  }

  /** There is a free slot for the id in `t`, and the slots to pass on the way to it are still taken in `t2`. */
  predicate OnTheWay(t: seq<Entry>, t2: seq<Entry>, id: uint16, start: uint64, end: uint64)
    requires |t| == |t2| == SIZE
  {
    var d := FreeStep(t, id, start, 0);
    d < SIZE && forall k :: 0 <= k < d ==> Taken(t2, id, end, k)
  }

  /** The second half is joined if its probe ends in the one slot with a live half of its id, and else not. */
  lemma {:induction false} SecondProbes(t: seq<Entry>, id: uint16, a: Half, b: Half, start: uint64, end: uint64, d: nat)
    requires TableInv(t, end) && d < SIZE && t[(id + d) % SIZE] == EntryOf(id, a, start) && start <= end <= start + TIMEOUT
    requires FreshBut(t, id, end, (id + d) % SIZE)
    requires |a.data| <= HALF_MAX && |b.data| <= HALF_MAX && a.FirstHalf? != b.FirstHalf?
    requires WellFormed(Offer(id, a, start)) && WellFormed(Offer(id, b, end))
    ensures var out := Next(Probing, t, Offer(id, b, end)).1;
            (out.Joined? <==> forall k :: 0 <= k < d ==> Taken(t, id, end, k)) && (out.Joined? ==> out == Joined(Combine(a, b)))
  {
    var s := (id + d) % SIZE;
    ProbeFindsExactly(t, id, end, 0, d);
    var slot := Probe(t, id, end, 0);
    if slot == Some(s) {
      SecondArrives(Probing, t, id, a, b, start, end, s);
    } else if slot.Some? {
      PutMeaning(t[slot.value], id, b, end);
    }
    hide Put, Probe, Taken;
  }

  /**
   * With probing the two halves are joined if and only if there was a free slot for the first and the slots on
   * the way to it are still taken by live halves of other ids when the second comes.
   */
  lemma {:induction false} DeliveredProbing(t: seq<Entry>, id: uint16, a: Half, evs: seq<Event>, b: Half,
                                            start: uint64, end: uint64)
    requires TableInv(t, start) && FreshId(t, id, start)
    requires |a.data| <= HALF_MAX && |b.data| <= HALF_MAX && a.FirstHalf? != b.FirstHalf?
    requires WellFormed(Offer(id, a, start)) && WellFormed(Offer(id, b, end)) && start <= end <= start + TIMEOUT
    requires Between(evs, id, start, end)
    ensures var r := Next(Probing, t, Offer(id, a, start));
            var t2 := After(Probing, r.0, evs);
            var out := Next(Probing, t2, Offer(id, b, end)).1;
            r.1 == (if FreeStep(t, id, start, 0) < SIZE then Pending else Rejected)
            && (out.Joined? <==> OnTheWay(t, t2, id, start, end)) && (out.Joined? ==> out == Joined(Combine(a, b)))
  {
    hide Next, Probe, Live, OneHalf, LeavesAlone;
    var d := FreeStep(t, id, start, 0);
    FirstProbes(t, id, a, start);
    if d == SIZE {
      FreshAfter(Probing, t, evs, id, start, end, SIZE);
      FreshNeverJoins(Probing, After(Probing, t, evs), id, b, end);
    } else {
      var s := (id + d) % SIZE;
      var t1 := t[s := EntryOf(id, a, start)];
      NextKeepsInv(Probing, t, Offer(id, a, start));
      FreshAfter(Probing, t1, evs, id, start, end, s);
      OthersLeaveAlone(evs, id, start, end);
      LeftAloneAll(Probing, t1, evs, id, a, start, s);
      SecondProbes(After(Probing, t1, evs), id, a, b, start, end, d);
    }
  }

  lemma OthersLeaveAlone(evs: seq<Event>, id: uint16, start: uint64, end: uint64)
    requires Between(evs, id, start, end) && end <= start + TIMEOUT
    ensures forall i :: 0 <= i < |evs| ==> LeavesAlone(Probing, evs[i], id, start)
  {
  }

  /** The first half is stored at the first free step, if there is one. */
  lemma FirstProbes(t: seq<Entry>, id: uint16, a: Half, start: uint64)
    requires TableInv(t, start) && FreshId(t, id, start) && |a.data| <= HALF_MAX && WellFormed(Offer(id, a, start))
    ensures var d, r := FreeStep(t, id, start, 0), Next(Probing, t, Offer(id, a, start));
            if d == SIZE then r == (t, Rejected)
            else var s := (id + d) % SIZE;
                 var t1 := t[s := EntryOf(id, a, start)];
                 r == (t1, Pending) && FreshBut(t1, id, start, s)
  {
    hide Put, Probe, OneHalf, Live;
    var d := FreeStep(t, id, start, 0);
    ProbeIsFreeStep(t, id, start, 0);
    if d < SIZE {
      var s := (id + d) % SIZE;
      assert !Live(t[s], start);
      hide Taken;
      FirstArrives(Probing, t, id, a, start, s);
      hide Next;
    }
  }

  /* Both */

  /** The second half finds the first. */
  predicate StillFound(kind: Kind, t: seq<Entry>, t2: seq<Entry>, id: uint16, evs: seq<Event>, start: uint64, end: uint64)
    requires |t| == |t2| == SIZE
  {
    if kind.Direct? then Spared(evs, id) else OnTheWay(t, t2, id, start, end)
  }

  /** Two halves of a packet offered within the timeout, and calls for other ids in between. */
  lemma {:induction false} DeliveredIff(kind: Kind, t: seq<Entry>, id: uint16, a: Half, evs: seq<Event>, b: Half,
                                        start: uint64, end: uint64)
    requires TableInv(t, start) && FreshId(t, id, start)
    requires |a.data| <= HALF_MAX && |b.data| <= HALF_MAX && a.FirstHalf? != b.FirstHalf?
    requires WellFormed(Offer(id, a, start)) && WellFormed(Offer(id, b, end)) && start <= end <= start + TIMEOUT
    requires Between(evs, id, start, end)
    ensures var r := Next(kind, t, Offer(id, a, start));
            var t2 := After(kind, r.0, evs);
            var out := Next(kind, t2, Offer(id, b, end)).1;
            !r.1.Joined? && (out.Joined? <==> StillFound(kind, t, t2, id, evs, start, end))
            && (out.Joined? ==> out == Joined(Combine(a, b)))
  {
    if kind.Direct? {
      DeliveredDirect(t, id, a, evs, b, start, end);
    } else {
      DeliveredProbing(t, id, a, evs, b, start, end);
    }
    hide Next, Live, OneHalf, Spared, OnTheWay, FreeStep, After;
  }
}
