/** Whole runs of the reassembly table: garbage collection, provenance, delivery and an ideal table. */
module FragRuns {
  import opened Bytes
  import opened FragTable

  const INIT: seq<Entry> := seq(SIZE, _ => EMPTY)

  /** The clock never goes back, and captured Ethernet headers are 14 bytes. */
  predicate Timed(evs: seq<Event>) {
    && (forall i :: 0 <= i < |evs| ==> WellFormed(evs[i]))
    && (forall i, j :: 0 <= i <= j < |evs| ==> evs[i].now <= evs[j].now)
  }

  predicate TimedFrom(evs: seq<Event>, now: uint64) {
    Timed(evs) && (evs != [] ==> now <= evs[0].now)
  }

  function After(kind: Kind, t: seq<Entry>, evs: seq<Event>): (r: seq<Entry>)
    requires |t| == SIZE
    ensures |r| == SIZE
    decreases |evs|
  {
    if evs == [] then t else After(kind, Next(kind, t, evs[0]).0, evs[1..])
  }

  /** The answers to the calls that offer a half. */
  function Outcomes(kind: Kind, t: seq<Entry>, evs: seq<Event>): seq<Outcome>
    requires |t| == SIZE
    decreases |evs|
  {
    if evs == [] then []
    else (if evs[0].Gc? then [] else [Next(kind, t, evs[0]).1]) + Outcomes(kind, Next(kind, t, evs[0]).0, evs[1..])
  }

  lemma TimedTail(evs: seq<Event>)
    requires Timed(evs) && evs != []
    ensures TimedFrom(evs[1..], evs[0].now)
  {
  }

  lemma {:induction false} AfterSnoc(kind: Kind, t: seq<Entry>, evs: seq<Event>, ev: Event)
    requires |t| == SIZE
    ensures After(kind, t, evs + [ev]) == Next(kind, After(kind, t, evs), ev).0
    decreases |evs|
  {
    hide Next;
    if evs == [] {
      assert (evs + [ev])[1..] == [];
    } else {
      assert (evs + [ev])[1..] == evs[1..] + [ev];
      AfterSnoc(kind, Next(kind, t, evs[0]).0, evs[1..], ev);
    }
  }

  /** Time passing keeps the invariant, and dead entries stay dead. */
  lemma InvLater(t: seq<Entry>, now: uint64, later: uint64)
    requires TableInv(t, now) && now <= later
    ensures TableInv(t, later)
  {
  }

  lemma DeadStays(e: Entry, now: uint64, later: uint64)
    requires OneHalf(e, now) && now <= later && Dead(e, now)
    ensures Dead(e, later)
  {
  }

  /** In every reachable table no entry holds both halves after a call. */
  lemma {:induction false} ReachableInv(kind: Kind, t: seq<Entry>, evs: seq<Event>, now: uint64)
    requires TableInv(t, now) && TimedFrom(evs, now)
    ensures TableInv(After(kind, t, evs), if evs == [] then now else evs[|evs| - 1].now)
    decreases |evs|
  {
    hide Next, TableInv;
    if evs != [] {
      InvLater(t, now, evs[0].now);
      NextKeepsInv(kind, t, evs[0]);
      TimedTail(evs);
      ReachableInv(kind, Next(kind, t, evs[0]).0, evs[1..], evs[0].now);
    }
  }

  /* Garbage collection never shows */

  predicate SameEntry(a: Entry, b: Entry, now: uint64) { a == b || (Dead(a, now) && Dead(b, now)) }

  predicate Same(t: seq<Entry>, u: seq<Entry>, now: uint64) {
    |t| == |u| == SIZE && forall i :: 0 <= i < SIZE ==> SameEntry(t[i], u[i], now)
  }

  lemma SamePut(a: Entry, b: Entry, id: uint16, half: Half, now: uint64)
    requires OneHalf(a, now) && OneHalf(b, now) && SameEntry(a, b, now) && (half.FirstHalf? ==> |half.eth| == ETH)
    ensures Put(a, id, half, now).1 == Put(b, id, half, now).1
    ensures SameEntry(Put(a, id, half, now).0, Put(b, id, half, now).0, now)
  {
    PutMeaning(a, id, half, now);
    PutMeaning(b, id, half, now);
    hide Put;
  }

  lemma {:induction false} SameProbe(t: seq<Entry>, u: seq<Entry>, id: uint16, now: uint64, step: nat)
    requires Same(t, u, now) && step <= SIZE
    ensures Probe(t, id, now, step) == Probe(u, id, now, step)
    decreases SIZE - step
  {
    if step < SIZE {
      assert SameEntry(t[(id + step) % SIZE], u[(id + step) % SIZE], now);
      SameProbe(t, u, id, now, step + 1);
    }
  }

  lemma SameNext(kind: Kind, t: seq<Entry>, u: seq<Entry>, ev: Event)
    requires TableInv(t, ev.now) && TableInv(u, ev.now) && Same(t, u, ev.now) && WellFormed(ev) && ev.Offer?
    ensures Next(kind, t, ev).1 == Next(kind, u, ev).1
    ensures Same(Next(kind, t, ev).0, Next(kind, u, ev).0, ev.now)
  {
    SameProbe(t, u, ev.id, ev.now, 0);
    var slot := SlotFor(kind, t, ev.id, ev.now);
    if slot.Some? {
      SamePut(t[slot.value], u[slot.value], ev.id, ev.half, ev.now);
    }
    hide Put, Probe, Live, OneHalf;
  }

  lemma SameSwept(t: seq<Entry>, u: seq<Entry>, now: uint64)
    requires Same(t, u, now)
    ensures Same(SweptAll(t, now), u, now)
  {
    forall i | 0 <= i < SIZE ensures SameEntry(SweptAll(t, now)[i], u[i], now) {
      assert SameEntry(t[i], u[i], now);
    }
  }

  lemma SameLater(t: seq<Entry>, u: seq<Entry>, now: uint64, later: uint64)
    requires TableInv(t, now) && TableInv(u, now) && Same(t, u, now) && now <= later
    ensures Same(t, u, later)
  {
    forall i | 0 <= i < SIZE ensures SameEntry(t[i], u[i], later) {
      assert SameEntry(t[i], u[i], now);
      if t[i] != u[i] {
        DeadStays(t[i], now, later);
        DeadStays(u[i], now, later);
      }
    }
  }

  function WithoutGc(evs: seq<Event>): seq<Event> {
    if evs == [] then [] else (if evs[0].Gc? then [] else [evs[0]]) + WithoutGc(evs[1..])
  }

  lemma {:induction false} GcInvisibleFrom(kind: Kind, t: seq<Entry>, u: seq<Entry>, evs: seq<Event>, now: uint64)
    requires TableInv(t, now) && TableInv(u, now) && Same(t, u, now) && TimedFrom(evs, now)
    ensures Outcomes(kind, t, evs) == Outcomes(kind, u, WithoutGc(evs))
    decreases |evs|
  {
    hide TableInv, Same, Next;
    if evs != [] {
      var ev := evs[0];
      InvLater(t, now, ev.now);
      InvLater(u, now, ev.now);
      SameLater(t, u, now, ev.now);
      TimedTail(evs);
      NextKeepsInv(kind, t, ev);
      if ev.Gc? {
        SameSwept(t, u, ev.now);
        GcIsSweep(kind, t, ev.now);
        GcInvisibleFrom(kind, Next(kind, t, ev).0, u, evs[1..], ev.now);
        assert WithoutGc(evs) == WithoutGc(evs[1..]);
      } else {
        SameNext(kind, t, u, ev);
        NextKeepsInv(kind, u, ev);
        GcInvisibleFrom(kind, Next(kind, t, ev).0, Next(kind, u, ev).0, evs[1..], ev.now);
        assert WithoutGc(evs) == [ev] + WithoutGc(evs[1..]);
        assert WithoutGc(evs)[1..] == WithoutGc(evs[1..]);
      }
    }
  }

  lemma GcIsSweep(kind: Kind, t: seq<Entry>, now: uint64)
    requires |t| == SIZE
    ensures Next(kind, t, Gc(now)).0 == SweptAll(t, now)
  {
  }

  /** Sweeping the table at any points of a run changes no answer, collisions and probing included. */
  lemma GcInvisible(kind: Kind, evs: seq<Event>)
    requires Timed(evs)
    ensures Outcomes(kind, INIT, evs) == Outcomes(kind, INIT, WithoutGc(evs))
  {
    GcInvisibleFrom(kind, INIT, INIT, evs, 0);
  }

  /* Where packets come from */

  /** `ev` stored the half that `e` holds. */
  predicate Wrote(ev: Event, e: Entry) {
    ev.Offer? && ev.id == e.id && ev.now == e.ts
    && match ev.half
       case FirstHalf(eth, data) => e.first == Some(Front(eth, data)) && e.second == None
       case SecondHalf(data) => e.first == None && e.second == Some(data)
  }

  predicate HasSource(evs: seq<Event>, e: Entry) { exists j :: 0 <= j < |evs| && Wrote(evs[j], e) }

  predicate AllSourced(evs: seq<Event>, t: seq<Entry>) {
    |t| == SIZE && forall i :: 0 <= i < SIZE && Busy(t[i]) ==> HasSource(evs, t[i])
  }

  lemma PutSourced(e: Entry, ev: Event)
    requires ev.Offer? && WellFormed(ev) && OneHalf(e, ev.now)
    ensures var e2 := Put(e, ev.id, ev.half, ev.now).0;
            !Busy(e2) || e2 == e || Wrote(ev, e2)
  {
    PutMeaning(e, ev.id, ev.half, ev.now);
    hide Put;
  }

  lemma SourcedNext(kind: Kind, evs: seq<Event>, t: seq<Entry>, ev: Event)
    requires AllSourced(evs, t) && TableInv(t, ev.now) && WellFormed(ev)
    ensures AllSourced(evs + [ev], Next(kind, t, ev).0)
  {
    var t2 := Next(kind, t, ev).0;
    forall i | 0 <= i < SIZE && Busy(t2[i]) ensures HasSource(evs + [ev], t2[i]) {
      if t2[i] == t[i] {
        var j :| 0 <= j < |evs| && Wrote(evs[j], t[i]);
        assert Wrote((evs + [ev])[j], t2[i]);
      } else {
        if ev.Offer? {
          PutSourced(t[i], ev);
        }
        hide Put, SlotFor;
        assert Wrote((evs + [ev])[|evs|], t2[i]);
      }
    }
  }

  lemma {:induction false} ReachableSourced(kind: Kind, evs: seq<Event>)
    requires Timed(evs)
    ensures AllSourced(evs, After(kind, INIT, evs))
  {
    if evs != [] {
      var n := |evs| - 1;
      var front, ev := evs[..n], evs[n];
      assert evs == front + [ev];
      ReachableSourced(kind, front);
      ReachableInv(kind, INIT, front, 0);
      InvLater(After(kind, INIT, front), if n == 0 then 0 else evs[n - 1].now, ev.now);
      hide Next, TableInv, AllSourced;
      SourcedNext(kind, front, After(kind, INIT, front), ev);
      AfterSnoc(kind, INIT, front, ev);
    }
  }

  /** A packet made of the halves two calls offered. */
  predicate JoinOf(a: Half, b: Half, p: bytes) {
    (a.FirstHalf? && b.SecondHalf? && p == a.eth + a.data + b.data)
    || (a.SecondHalf? && b.FirstHalf? && p == b.eth + b.data + a.data)
  }

  /**
   * Every packet ever emitted joins a first and a second half that were offered under one id no more
   * than the timeout apart; the later of the two calls emits it.
   */
  lemma JoinsTwoOfferedHalves(kind: Kind, evs: seq<Event>, n: nat)
    requires Timed(evs) && n < |evs| && evs[n].Offer?
    requires Next(kind, After(kind, INIT, evs[..n]), evs[n]).1.Joined?
    ensures exists j :: 0 <= j < n && evs[j].Offer? && evs[j].id == evs[n].id && evs[n].now - evs[j].now <= TIMEOUT
                        && JoinOf(evs[j].half, evs[n].half, Next(kind, After(kind, INIT, evs[..n]), evs[n]).1.packet)
  {
    var t, ev := After(kind, INIT, evs[..n]), evs[n];
    ReachableSourced(kind, evs[..n]);
    ReachableInv(kind, INIT, evs[..n], 0);
    InvLater(t, if n == 0 then 0 else evs[n - 1].now, ev.now);
    hide After, TableInv;
    JoinedNext(kind, t, ev);
    var i := SlotFor(kind, t, ev.id, ev.now).value;
    hide Next;
    assert HasSource(evs[..n], t[i]);
    var j :| 0 <= j < n && Wrote(evs[..n][j], t[i]);
    assert evs[..n][j] == evs[j];
  }

  /** A joined packet combines the offered half with the other half of a young entry under the same id. */
  lemma JoinedNext(kind: Kind, t: seq<Entry>, ev: Event)
    requires TableInv(t, ev.now) && WellFormed(ev) && ev.Offer? && Next(kind, t, ev).1.Joined?
    ensures SlotFor(kind, t, ev.id, ev.now).Some?
    ensures var e := t[SlotFor(kind, t, ev.id, ev.now).value];
            Busy(e) && e.id == ev.id && e.ts <= ev.now && ev.now - e.ts <= TIMEOUT
            && ((ev.half.FirstHalf? && e.second.Some? && Next(kind, t, ev).1.packet == ev.half.eth + ev.half.data + e.second.value)
                || (ev.half.SecondHalf? && e.first.Some?
                    && Next(kind, t, ev).1.packet == e.first.value.eth + e.first.value.data + ev.half.data))
  {
    hide Put, SlotFor, OneHalf;
    var i := SlotFor(kind, t, ev.id, ev.now).value;
    JoinedPut(t[i], ev.id, ev.half, ev.now);
  }

  lemma JoinedPut(e: Entry, id: uint16, half: Half, now: uint64)
    requires OneHalf(e, now) && (half.FirstHalf? ==> |half.eth| == ETH) && Put(e, id, half, now).1.Joined?
    ensures Busy(e) && e.id == id && e.ts <= now && now - e.ts <= TIMEOUT
    ensures var p := Put(e, id, half, now).1.packet;
            (half.FirstHalf? && e.second.Some? && p == half.eth + half.data + e.second.value)
            || (half.SecondHalf? && e.first.Some? && p == e.first.value.eth + e.first.value.data + half.data)
  {
    PutMeaning(e, id, half, now);
    hide Put;
  }

  /** A slot that holds one half. */
  function EntryOf(id: uint16, half: Half, now: uint64): Entry {
    match half
    case FirstHalf(eth, data) => Entry(id, Some(Front(eth, data)), None, now)
    case SecondHalf(data) => Entry(id, None, Some(data), now)
  }

  /* The ideal table */

  datatype Held = Held(half: Half, ts: uint64)

  /** One half per id, with no slots to collide in. */
  type Ideal = map<uint16, Held>

  predicate IdealLive(m: Ideal, id: uint16, now: uint64) {
    id in m && (now - m[id].ts) % 0x1_0000_0000_0000_0000 <= TIMEOUT
  }

  function Combine(a: Half, b: Half): bytes
    requires a.FirstHalf? != b.FirstHalf?
  {
    if a.FirstHalf? then a.eth + a.data + b.data else b.eth + b.data + a.data
  }

  function IdealNext(m: Ideal, ev: Event): (Ideal, Outcome) {
    if ev.Gc? then (m, Pending)
    else if |ev.half.data| > HALF_MAX then (m, Rejected)
    else if IdealLive(m, ev.id, ev.now) && m[ev.id].half.FirstHalf? != ev.half.FirstHalf? then
      (m - {ev.id}, Joined(Combine(m[ev.id].half, ev.half)))
    else (m[ev.id := Held(ev.half, ev.now)], Pending)
  }

  function IdealOutcomes(m: Ideal, evs: seq<Event>): seq<Outcome>
    decreases |evs|
  {
    if evs == [] then []
    else (if evs[0].Gc? then [] else [IdealNext(m, evs[0]).1]) + IdealOutcomes(IdealNext(m, evs[0]).0, evs[1..])
  }

  /** No id with a live half shares its slot with the id offered now. */
  predicate Uncollided(m: Ideal, ev: Event) {
    ev.Offer? ==> forall k: uint16 :: IdealLive(m, k, ev.now) && k % SIZE == ev.id % SIZE ==> k == ev.id
  }

  predicate UncollidedRun(m: Ideal, evs: seq<Event>)
    decreases |evs|
  {
    evs == [] || (Uncollided(m, evs[0]) && UncollidedRun(IdealNext(m, evs[0]).0, evs[1..]))
  }

  /** The slot of an id holds what the ideal table holds for it, and every live entry is in its own slot. */
  predicate MatchesAt(t: seq<Entry>, m: Ideal, k: uint16, now: uint64)
    requires |t| == SIZE
  {
    var e := t[k % SIZE];
    (IdealLive(m, k, now) <==> Live(e, now) && e.id == k)
    && (IdealLive(m, k, now) ==> e == EntryOf(k, m[k].half, m[k].ts))
  }

  predicate Matches(t: seq<Entry>, m: Ideal, now: uint64) {
    |t| == SIZE && (forall k: uint16 :: MatchesAt(t, m, k, now))
    && (forall i :: 0 <= i < SIZE && Live(t[i], now) ==> t[i].id % SIZE == i)
  }

  predicate IdealInv(m: Ideal, now: uint64) {
    forall k :: k in m ==> m[k].ts <= now && |m[k].half.data| <= HALF_MAX && (m[k].half.FirstHalf? ==> |m[k].half.eth| == ETH)
  }

  lemma MatchesLater(t: seq<Entry>, m: Ideal, now: uint64, later: uint64)
    requires TableInv(t, now) && IdealInv(m, now) && Matches(t, m, now) && now <= later
    ensures Matches(t, m, later)
  {
    forall k: uint16 ensures MatchesAt(t, m, k, later) {
      assert MatchesAt(t, m, k, now);
    }
    forall i | 0 <= i < SIZE && Live(t[i], later) ensures t[i].id % SIZE == i {
      assert Live(t[i], now);
    }
  }

  /** Without a collision both kinds of table use the id's own slot. */
  lemma OwnSlot(kind: Kind, t: seq<Entry>, m: Ideal, ev: Event)
    requires Matches(t, m, ev.now) && ev.Offer? && Uncollided(m, ev)
    ensures SlotFor(kind, t, ev.id, ev.now) == Some(ev.id % SIZE)
    ensures Live(t[ev.id % SIZE], ev.now) ==> t[ev.id % SIZE].id == ev.id
  {
    var e := t[ev.id % SIZE];
    if Live(e, ev.now) {
      assert MatchesAt(t, m, e.id, ev.now);
    }
  }

  lemma MatchesNext(kind: Kind, t: seq<Entry>, m: Ideal, ev: Event)
    requires TableInv(t, ev.now) && IdealInv(m, ev.now) && Matches(t, m, ev.now) && WellFormed(ev) && ev.Offer? && Uncollided(m, ev)
    ensures Next(kind, t, ev).1 == IdealNext(m, ev).1
    ensures Matches(Next(kind, t, ev).0, IdealNext(m, ev).0, ev.now)
  {
    var i := ev.id % SIZE;
    OwnSlot(kind, t, m, ev);
    PutMeaning(t[i], ev.id, ev.half, ev.now);
    assert MatchesAt(t, m, ev.id, ev.now);
    hide Put, SlotFor;
    var t2, m2 := Next(kind, t, ev).0, IdealNext(m, ev).0;
    forall k: uint16 ensures MatchesAt(t2, m2, k, ev.now) {
      assert MatchesAt(t, m, k, ev.now);
    }
  }

  lemma MatchesSwept(t: seq<Entry>, m: Ideal, now: uint64)
    requires Matches(t, m, now)
    ensures Matches(SweptAll(t, now), m, now)
  {
    forall k: uint16 ensures MatchesAt(SweptAll(t, now), m, k, now) {
      assert MatchesAt(t, m, k, now);
    }
  }

  lemma {:induction false} RefinesIdealFrom(kind: Kind, t: seq<Entry>, m: Ideal, evs: seq<Event>, now: uint64)
    requires TableInv(t, now) && IdealInv(m, now) && Matches(t, m, now) && TimedFrom(evs, now) && UncollidedRun(m, evs)
    ensures Outcomes(kind, t, evs) == IdealOutcomes(m, evs)
    decreases |evs|
  {
    hide TableInv, Matches, Next, Uncollided;
    if evs != [] {
      var ev := evs[0];
      InvLater(t, now, ev.now);
      MatchesLater(t, m, now, ev.now);
      TimedTail(evs);
      NextKeepsInv(kind, t, ev);
      if ev.Gc? {
        MatchesSwept(t, m, ev.now);
        GcIsSweep(kind, t, ev.now);
      } else {
        MatchesNext(kind, t, m, ev);
      }
      RefinesIdealFrom(kind, Next(kind, t, ev).0, IdealNext(m, ev).0, evs[1..], ev.now);
    }
  }

  /** While live halves have slots of their own, either table answers every call as the ideal one does. */
  lemma RefinesIdeal(kind: Kind, evs: seq<Event>)
    requires Timed(evs) && UncollidedRun(map[], evs)
    ensures Outcomes(kind, INIT, evs) == IdealOutcomes(map[], evs)
  {
    RefinesIdealFrom(kind, INIT, map[], evs, 0);
  }

  /* What probing misses */

  /** The slot at probe step `k` is taken by another id. */
  predicate Taken(t: seq<Entry>, id: uint16, now: uint64, k: nat)
    requires |t| == SIZE
  {
    var e := t[(id + k) % SIZE];
    Live(e, now) && e.id != id
  }

  lemma StepsDiffer(id: nat, j: nat, k: nat)
    requires j < k < SIZE
    ensures (id + j) % SIZE != (id + k) % SIZE
  {
  }

  /** Probing finds a live entry of its id exactly when every slot on the way to it is taken by another id. */
  lemma {:induction false} ProbeFindsExactly(t: seq<Entry>, id: uint16, now: uint64, step: nat, d: nat)
    requires |t| == SIZE && step <= d < SIZE
    requires Live(t[(id + d) % SIZE], now) && t[(id + d) % SIZE].id == id
    ensures Probe(t, id, now, step) == Some((id + d) % SIZE) <==> forall k :: step <= k < d ==> Taken(t, id, now, k)
    decreases d - step
  {
    if step < d {
      StepsDiffer(id, step, d);
      if Taken(t, id, now, step) {
        ProbeFindsExactly(t, id, now, step + 1, d);
      }
      hide Live;
    }
  }

  /** Ids 5 and 4101 share slot 5, so 4101 is stored in slot 6; once 5 is joined its own half is missed. */
  lemma ProbingMissesAfterJoin(eth: bytes, a: bytes, b: bytes, c: bytes, d: bytes)
    requires |eth| == ETH && |a| <= HALF_MAX && |b| <= HALF_MAX && |c| <= HALF_MAX && |d| <= HALF_MAX
    ensures var evs := [Offer(5, FirstHalf(eth, a), 1), Offer(4101, FirstHalf(eth, c), 2),
                        Offer(5, SecondHalf(b), 3), Offer(4101, SecondHalf(d), 4)];
            Timed(evs)
            && Outcomes(Probing, INIT, evs) == [Pending, Pending, Joined(eth + a + b), Pending]
            && IdealOutcomes(map[], evs) == [Pending, Pending, Joined(eth + a + b), Joined(eth + c + d)]
  {
    var e0, e1 := Offer(5, FirstHalf(eth, a), 1), Offer(4101, FirstHalf(eth, c), 2);
    var e2, e3 := Offer(5, SecondHalf(b), 3), Offer(4101, SecondHalf(d), 4);
    var t0 := INIT;
    var t1 := t0[5 := EntryOf(5, e0.half, 1)];
    var t2 := t1[6 := EntryOf(4101, e1.half, 2)];
    var t3 := t2[5 := EMPTY];
    var t4 := t3[5 := EntryOf(4101, e3.half, 4)];
    PutMeaning(t0[5], 5, e0.half, 1);
    PutMeaning(t1[6], 4101, e1.half, 2);
    PutMeaning(t2[5], 5, e2.half, 3);
    PutMeaning(t3[5], 4101, e3.half, 4);
    ProbeFrom5(t1, 4101, 2);
    ProbeFrom5(t0, 5, 1);
    ProbeFrom5(t2, 5, 3);
    ProbeFrom5(t3, 4101, 4);
    hide Put, Probe, INIT;
    assert Next(Probing, t0, e0) == (t1, Pending);
    assert Next(Probing, t1, e1) == (t2, Pending);
    assert Next(Probing, t2, e2) == (t3, Joined(eth + a + b));
    assert Next(Probing, t3, e3) == (t4, Pending);
    hide Next;
    FourOutcomes(Probing, t0, e0, e1, e2, e3);
    FourIdealOutcomes(eth, a, b, c, d);
  }

  lemma ProbeFrom5(t: seq<Entry>, id: uint16, now: uint64)
    requires |t| == SIZE && id % SIZE == 5
    ensures Probe(t, id, now, 0) == if !Live(t[5], now) || t[5].id == id then Some(5)
                                    else if !Live(t[6], now) || t[6].id == id then Some(6)
                                    else Probe(t, id, now, 2)
  {
    assert (id + 1) % SIZE == 6;
    hide Live;
    assert Probe(t, id, now, 1) == if !Live(t[6], now) || t[6].id == id then Some(6) else Probe(t, id, now, 2);
  }

  lemma FourOutcomes(kind: Kind, t: seq<Entry>, e0: Event, e1: Event, e2: Event, e3: Event)
    requires |t| == SIZE && e0.Offer? && e1.Offer? && e2.Offer? && e3.Offer?
    ensures var t1 := Next(kind, t, e0).0;
            var t2 := Next(kind, t1, e1).0;
            var t3 := Next(kind, t2, e2).0;
            Outcomes(kind, t, [e0, e1, e2, e3])
            == [Next(kind, t, e0).1, Next(kind, t1, e1).1, Next(kind, t2, e2).1, Next(kind, t3, e3).1]
  {
    hide Next;
    var t1 := Next(kind, t, e0).0;
    var t2 := Next(kind, t1, e1).0;
    var t3 := Next(kind, t2, e2).0;
    assert [e0, e1, e2, e3][1..] == [e1, e2, e3] && [e1, e2, e3][1..] == [e2, e3] && [e2, e3][1..] == [e3] && [e3][1..] == [];
    assert Outcomes(kind, t3, [e3]) == [Next(kind, t3, e3).1];
    assert Outcomes(kind, t2, [e2, e3]) == [Next(kind, t2, e2).1] + Outcomes(kind, t3, [e3]);
    assert Outcomes(kind, t1, [e1, e2, e3]) == [Next(kind, t1, e1).1] + Outcomes(kind, t2, [e2, e3]);
  }

  lemma FourIdealOutcomes(eth: bytes, a: bytes, b: bytes, c: bytes, d: bytes)
    requires |a| <= HALF_MAX && |b| <= HALF_MAX && |c| <= HALF_MAX && |d| <= HALF_MAX
    ensures IdealOutcomes(map[], [Offer(5, FirstHalf(eth, a), 1), Offer(4101, FirstHalf(eth, c), 2),
                                  Offer(5, SecondHalf(b), 3), Offer(4101, SecondHalf(d), 4)])
         == [Pending, Pending, Joined(eth + a + b), Joined(eth + c + d)]
  {
    var e0, e1 := Offer(5, FirstHalf(eth, a), 1), Offer(4101, FirstHalf(eth, c), 2);
    var e2, e3 := Offer(5, SecondHalf(b), 3), Offer(4101, SecondHalf(d), 4);
    var m1: Ideal := map[5 := Held(e0.half, 1)];
    var m2: Ideal := m1[4101 := Held(e1.half, 2)];
    var m3: Ideal := m2 - {5};
    assert IdealNext(map[], e0) == (m1, Pending) && IdealNext(m1, e1) == (m2, Pending);
    assert IdealNext(m2, e2) == (m3, Joined(eth + a + b));
    assert IdealNext(m3, e3).1 == Joined(eth + c + d);
    hide IdealNext;
    assert [e0, e1, e2, e3][1..] == [e1, e2, e3] && [e1, e2, e3][1..] == [e2, e3] && [e2, e3][1..] == [e3] && [e3][1..] == [];
    assert IdealOutcomes(m3, [e3]) == [IdealNext(m3, e3).1];
    assert IdealOutcomes(m2, [e2, e3]) == [IdealNext(m2, e2).1] + IdealOutcomes(m3, [e3]);
    assert IdealOutcomes(m1, [e1, e2, e3]) == [IdealNext(m1, e1).1] + IdealOutcomes(m2, [e2, e3]);
  }
}
