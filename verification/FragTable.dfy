/**
 * The reassembly table of `src/core/fragment.c`: 4096 entries, each holding one half of a packet until
 * the other arrives.  Layers 3 and 4 use the slot the id names (`Direct`); layer 2 probes from it (`Probing`).
 */
module FragTable {
  import opened Bytes

  const SIZE: nat := 4096
  const TIMEOUT: nat := 200_000_000
  const HALF_MAX: nat := 1600
  const ETH: nat := 14
  const OUT_MAX: nat := 4096

  datatype Front = Front(eth: bytes, data: bytes)

  /** `first` and `second` stand for the got flags with their lengths and buffers. */
  datatype Entry = Entry(id: uint16, first: Option<Front>, second: Option<bytes>, ts: uint64)

  datatype Half = FirstHalf(eth: bytes, data: bytes) | SecondHalf(data: bytes)

  /** What a call of frag_try_reassemble returns: 0, -1, or 1 with the packet. */
  datatype Outcome = Pending | Rejected | Joined(packet: bytes)

  datatype Kind = Direct | Probing

  /** One call on the table; the clock is read inside each. */
  datatype Event = Offer(id: uint16, half: Half, now: uint64) | Gc(now: uint64)

  const EMPTY: Entry := Entry(0, None, None, 0)

  /** Unsigned 64-bit subtraction of timestamps. */
  function Age(e: Entry, now: uint64): (n: uint64) { (now - e.ts) % 0x1_0000_0000_0000_0000 }

  predicate Busy(e: Entry) { e.first.Some? || e.second.Some? }

  predicate Expired(e: Entry, now: uint64) { Age(e, now) > TIMEOUT }

  /** frag_l2_entry_live */
  predicate Live(e: Entry, now: uint64) { Busy(e) && !Expired(e, now) }

  /** frag_prepare_entry */
  function Prepare(e: Entry, id: uint16, now: uint64): Entry {
    (if e.id != id || (Busy(e) && Expired(e, now)) then EMPTY else e).(id := id, ts := now)
  }

  /** frag_store_first and frag_store_second; None when the half does not fit its buffer. */
  function Store(e: Entry, id: uint16, half: Half, now: uint64): Option<Entry> {
    if |half.data| > HALF_MAX then None
    else match half
      case FirstHalf(eth, data) => Some(Prepare(e, id, now).(first := Some(Front(eth, data))))
      case SecondHalf(data) => Some(Prepare(e, id, now).(second := Some(data)))
  }

  /** frag_emit_join */
  function Join(e: Entry): (Entry, Outcome) {
    if e.first.None? || e.second.None? then (e, Pending)
    else if |e.first.value.data| + |e.second.value| + ETH > OUT_MAX then (EMPTY, Rejected)
    else (EMPTY, Joined(e.first.value.eth + e.first.value.data + e.second.value))
  }

  /** What a second half does first: it clears an expired entry of its own id. */
  function Cleared(e: Entry, id: uint16, now: uint64): Entry { if Busy(e) && e.id == id && Expired(e,
                   now) then EMPTY else e }

  /** What a call does to the entry it uses. */
  function Put(e: Entry, id: uint16, half: Half, now: uint64): (Entry, Outcome) {
    var e1 := if half.SecondHalf? then Cleared(e, id, now) else e;
    match Store(e1, id, half, now)
    case None => (e1, Rejected)
    case Some(e2) => Join(e2)
  }

  /** frag_l2_acquire from probe step `step` on: the first slot that is dead or holds the id. */
  function Probe(t: seq<Entry>, id: uint16, now: uint64, step: nat): (r: Option<nat>)
    requires |t| == SIZE && step <= SIZE
    ensures r.Some? ==> r.value < SIZE
    decreases SIZE - step
  {
    if step == SIZE then None
    else
      var i := (id + step) % SIZE;
      if !Live(t[i], now) || t[i].id == id then Some(i) else Probe(t, id, now, step + 1)
  }

  function SlotFor(kind: Kind, t: seq<Entry>, id: uint16, now: uint64): (r: Option<nat>)
    requires |t| == SIZE
    ensures r.Some? ==> r.value < SIZE
  {
    if kind.Direct? then Some(id % SIZE) else Probe(t, id, now, 0)
  }

  /** frag_table_gc_at on one entry. */
  function Swept(e: Entry, now: uint64): Entry { if Busy(e) && Expired(e, now) then EMPTY else e }

  function SweptAll(t: seq<Entry>, now: uint64): (r: seq<Entry>)
    ensures |r| == |t| && forall i :: 0 <= i < |t| ==> r[i] == Swept(t[i], now)
  {
    seq(|t|, i requires 0 <= i < |t| => Swept(t[i], now))
  }

  /** All that is left of a call whose second half turns out to be empty. */
  function ClearedAt(t: seq<Entry>, id: uint16, now: uint64): (r: seq<Entry>)
    requires |t| == SIZE
    ensures |r| == SIZE
  {
    t[id % SIZE := Cleared(t[id % SIZE], id, now)]
  }

  function Next(kind: Kind, t: seq<Entry>, ev: Event): (r: (seq<Entry>, Outcome))
    requires |t| == SIZE
    ensures |r.0| == SIZE
  {
    match ev
    case Gc(now) => (SweptAll(t, now), Pending)
    case Offer(id, half, now) =>
      match SlotFor(kind, t, id, now)
      case None => (t, Rejected)
      case Some(i) => (t[i := Put(t[i], id, half, now).0], Put(t[i], id, half, now).1)
  }

  /** struct frag_table */
  class Table {
    const entries: array<Entry>

    /** frag_table_init */
    constructor ()
      ensures fresh(entries) && entries[..] == seq(SIZE, _ => EMPTY)
    {
      entries := new Entry[SIZE](_ => EMPTY);
    }

    /** frag_table_gc_at */
    method Sweep(now: uint64)
      requires entries.Length == SIZE
      modifies entries
      ensures entries[..] == SweptAll(old(entries[..]), now)
    {
      for i := 0 to SIZE
        invariant forall k :: 0 <= k < i ==> entries[k] == Swept(old(entries[k]), now)
        invariant forall k :: i <= k < SIZE ==> entries[k] == old(entries[k])
      {
        if Busy(entries[i]) && Expired(entries[i], now) {
          entries[i] := EMPTY;
        }
      }
    }

    /** frag_l2_acquire */
    method Acquire(id: uint16, now: uint64) returns (slot: Option<nat>)
      requires entries.Length == SIZE
      ensures slot == Probe(entries[..], id, now, 0)
    {
      for step := 0 to SIZE
        invariant Probe(entries[..], id, now, 0) == Probe(entries[..], id, now, step)
      {
        var i := (id + step) % SIZE;
        if !Live(entries[i], now) || entries[i].id == id { return Some(i); }
      }
      slot := None;
    }

    /** The table part of frag_try_reassemble, frag_try_reassemble_l2 and frag_try_reassemble_l4. */
    method OfferHalf(kind: Kind, id: uint16, half: Half, now: uint64) returns (out: Outcome)
      requires entries.Length == SIZE
      modifies entries
      ensures (entries[..], out) == Next(kind, old(entries[..]), Offer(id, half, now))
    {
      var slot := Some(id % SIZE);
      if kind.Probing? {
        slot := Acquire(id, now);
        if slot == None { return Rejected; }
      }
      var i := slot.value;
      var e := entries[i];
      if half.SecondHalf? {
        e := Cleared(e, id, now);
      }
      var stored := Store(e, id, half, now);
      if stored == None {
        entries[i] := e;
        return Rejected;
      }
      var joined := Join(stored.value);
      entries[i] := joined.0;
      out := joined.1;
    }

    /** What frag_try_reassemble_l4 does before it finds the second half empty. */
    method Clear(id: uint16, now: uint64)
      requires entries.Length == SIZE
      modifies entries
      ensures entries[..] == ClearedAt(old(entries[..]), id, now)
    {
      var i := id % SIZE;
      if Busy(entries[i]) && entries[i].id == id && Expired(entries[i], now) {
        entries[i] := EMPTY;
      }
    }
  }

  /* One call */

  /** Nothing but an empty shell, or too old: the entry's content can no longer matter. */
  predicate Dead(e: Entry, now: uint64) { !Live(e, now) }

  /** Every entry holds at most one half, that half fits its buffers, and it was stored at the entry's timestamp. */
  predicate OneHalf(e: Entry, now: uint64) {
    && !(e.first.Some? && e.second.Some?)
    && (e.first.Some? ==> |e.first.value.data| <= HALF_MAX && |e.first.value.eth| == ETH)
    && (e.second.Some? ==> |e.second.value| <= HALF_MAX)
    && (Busy(e) ==> e.ts <= now)
  }

  predicate TableInv(t: seq<Entry>, now: uint64) {
    |t| == SIZE && forall i :: 0 <= i < SIZE ==> OneHalf(t[i], now)
  }

  predicate WellFormed(ev: Event) {
    ev.Offer? && ev.half.FirstHalf? ==> |ev.half.eth| == ETH
  }

  /** What an entry in use by `id` becomes, and what the call answers, said without the buffer bookkeeping. */
  lemma PutMeaning(e: Entry, id: uint16, half: Half, now: uint64)
    requires OneHalf(e, now) && (half.FirstHalf? ==> |half.eth| == ETH)
    ensures var mine := Live(e, now) && e.id == id;
            Put(e, id, half, now).1 ==
              (if |half.data| > HALF_MAX then Rejected
               else if mine && half.FirstHalf? && e.second.Some? then Joined(half.eth + half.data + e.second.value)
               else if mine && half.SecondHalf? && e.first.Some? then Joined(e.first.value.eth + e.first.value.data + half.data)
               else Pending)
    ensures Put(e, id, half, now).1.Joined? ==> Put(e, id, half, now).0 == EMPTY
    ensures Put(e, id, half, now).1 == Pending ==>
              Put(e, id, half, now).0 == (match half
                                          case FirstHalf(eth, data) => Entry(id, Some(Front(eth, data)), None, now)
                                          case SecondHalf(data) => Entry(id, None, Some(data), now))
    ensures Put(e, id, half, now).1 == Rejected ==>
              Put(e, id, half, now).0 == (if half.SecondHalf? then Cleared(e, id, now) else e)
  {
  }

  lemma PutKeepsInv(e: Entry, id: uint16, half: Half, now: uint64)
    requires OneHalf(e, now) && (half.FirstHalf? ==> |half.eth| == ETH)
    ensures OneHalf(Put(e, id, half, now).0, now)
  {
    PutMeaning(e, id, half, now);
  }

  /** An empty second half is to the table what one too long for its buffer is; the theorems about runs cover it so. */
  lemma EmptyIsTooLong(t: seq<Entry>, id: uint16, data: bytes, now: uint64)
    requires |t| == SIZE && |data| > HALF_MAX
    ensures Next(Direct, t, Offer(id, SecondHalf(data), now)) == (ClearedAt(t, id, now), Rejected)
  {
  }

  lemma ClearedKeepsInv(t: seq<Entry>, id: uint16, now: uint64)
    requires TableInv(t, now)
    ensures TableInv(ClearedAt(t, id, now), now)
  {
  }

  lemma NextKeepsInv(kind: Kind, t: seq<Entry>, ev: Event)
    requires TableInv(t, ev.now) && WellFormed(ev)
    ensures TableInv(Next(kind, t, ev).0, ev.now)
  {
    if ev.Offer? {
      var slot := SlotFor(kind, t, ev.id, ev.now);
      if slot.Some? {
        PutKeepsInv(t[slot.value], ev.id, ev.half, ev.now);
      }
    }
    hide Put, SlotFor;
  }
}
