/** Receiving handshake messages in fragments: the reassembly half of `src/crypto/pqc_l2_handshake.c`. */
module PqcReceive {
  import opened Bytes
  import opened Lists
  import opened PqcSend

  const TIMEOUT_MS: nat := 2000

  /** struct pqc_l2_reassemble; the list links are the order of the sequence that holds it. */
  datatype Assembly = Assembly(id: uint32, total: uint32, count: uint16, bitmap: seq<bv8>, received: uint16,
                               data: bytes, start: uint64)

  /* The bitmap */

  function Mask(k: nat): bv8
    requires k < 8
  {
    if k == 0 then 1 else if k == 1 then 2 else if k == 2 then 4 else if k == 3 then 8
    else if k == 4 then 16 else if k == 5 then 32 else if k == 6 then 64 else 128
  }

  predicate Has(bitmap: seq<bv8>, i: nat) { i / 8 < |bitmap| && bitmap[i / 8] & Mask(i % 8) != 0 }

  function WithBit(bitmap: seq<bv8>, i: nat): (r: seq<bv8>)
    requires i / 8 < |bitmap|
    ensures |r| == |bitmap|
  {
    bitmap[i / 8 := bitmap[i / 8] | Mask(i % 8)]
  }

  /** The indices whose bits are set. */
  function Bits(bitmap: seq<bv8>): set<nat> { set i: nat | i < 8 * |bitmap| && Has(bitmap, i) }

  lemma MaskBit(b: bv8, j: nat, k: nat)
    requires j < 8 && k < 8
    ensures (b | Mask(k)) & Mask(j) != 0 <==> b & Mask(j) != 0 || j == k
  {
  }

  lemma SameByte(i: nat, j: nat)
    requires i / 8 == j / 8
    ensures i % 8 == j % 8 <==> i == j
  {
  }

  lemma WithBitHas(bitmap: seq<bv8>, i: nat, j: nat)
    requires i / 8 < |bitmap|
    ensures Has(WithBit(bitmap, i), j) <==> Has(bitmap, j) || j == i
  {
    hide Mask;
    if j / 8 == i / 8 {
      var b := bitmap[i / 8];
      assert WithBit(bitmap, i)[j / 8] == b | Mask(i % 8);
      MaskBit(b, j % 8, i % 8);
      SameByte(i, j);
      hide WithBit;
    } else {
      assert j / 8 < |bitmap| ==> WithBit(bitmap, i)[j / 8] == bitmap[j / 8];
    }
  }

  lemma WithBitBits(bitmap: seq<bv8>, i: nat)
    requires i / 8 < |bitmap|
    ensures Bits(WithBit(bitmap, i)) == Bits(bitmap) + {i}
  {
    forall j: nat ensures Has(WithBit(bitmap, i), j) <==> Has(bitmap, j) || j == i {
      WithBitHas(bitmap, i, j);
    }
    hide Has, WithBit;
  }

  function Clear(n: nat): seq<bv8> { seq(n, _ => 0) }

  lemma ClearBits(n: nat)
    ensures Bits(Clear(n)) == {}
  {
  }

  /* One fragment */

  /** The source indexes the bitmap without a check: the caller answers for the index. */
  predicate InBitmap(list: seq<Assembly>, f: Fragment) {
    var i := Find(list, f.id, 0);
    f.index / 8 < if i < |list| then |list[i].bitmap| else (f.count + 7) / 8
  }

  predicate TimedOut(start: uint64, now: uint64) { (now - start) % 0x1_0000_0000_0000_0000 > TIMEOUT_MS }

  predicate Stale(a: Assembly, now: uint64) { TimedOut(a.start, now) }

  /** The assemblies that have not timed out. */
  function Kept(list: seq<Assembly>, now: uint64): seq<Assembly> { Filtered(list, Running(now)) }

  function Running(now: uint64): Assembly -> bool { (a: Assembly) => !Stale(a, now) }

  /** The first position from `i` on with the id, or the length. */
  function Find(list: seq<Assembly>, id: uint32, i: nat): (r: nat)
    requires i <= |list|
    ensures i <= r <= |list| && (r < |list| ==> list[r].id == id)
    ensures forall k :: i <= k < r ==> list[k].id != id
    decreases |list| - i
  {
    if i == |list| || list[i].id == id then i else Find(list, id, i + 1)
  }

  /** A new assembly; `heap` is what malloc happens to return. */
  function Opened(f: Fragment, later: uint64, heap: bytes): Assembly {
    Assembly(f.id, f.total, f.count, Clear((f.count + 7) / 8), 0, heap, later)
  }

  /** A fragment seen for the first time is marked and counted, and copied if it fits. */
  function Marked(a: Assembly, f: Fragment): (r: Assembly)
    requires f.index / 8 < |a.bitmap|
  {
    if Has(a.bitmap, f.index) then a
    else
      var at := f.index * CHUNK;
      a.(bitmap := WithBit(a.bitmap, f.index), received := (a.received + 1) % 0x1_0000,
         data := if at + |f.data| <= a.total && at + |f.data| <= |a.data| then Splice(a.data, at, f.data) else a.data)
  }

  datatype Answer = Waiting | Complete(id: uint32, payload: bytes)

  /** A handshake fragment, with the clock read before and after; the list is searched after the cleanup. */
  function Take(list: seq<Assembly>, f: Fragment, later: uint64, heap: bytes): (seq<Assembly>, Answer)
    requires InBitmap(list, f)
  {
    var i := Find(list, f.id, 0);
    var l2 := if i < |list| then list else [Opened(f, later, heap)] + list;
    var k := if i < |list| then i else 0;
    var a := Marked(l2[k], f);
    if a.received == a.count then (l2[..k] + l2[k + 1..], Complete(f.id, a.data))
    else (l2[k := a], Waiting)
  }

  /** The global list of assemblies. */
  class Receiver {
    var list: seq<Assembly>

    constructor ()
      ensures list == []
    {
      list := [];
    }

    /** The timeout loop at the head of pqc_l2_recv_and_process. */
    method Cleanup(now: uint64)
      modifies this
      ensures list == Kept(old(list), now)
    {
      hide Filtered, Stale;
      var i := 0;
      FilteredEnds(list, Running(now));
      while i < |list|
        invariant i <= |list| && list[..i] + Kept(list[i..], now) == Kept(old(list), now)
        decreases |list| - i
      {
        FilteredHere(list, i, Running(now));
        if Stale(list[i], now) {
          list := list[..i] + list[i + 1..];
        } else {
          i := i + 1;
        }
      }
      FilteredEnds(list, Running(now));
    }

    /** pqc_l2_recv_and_process on a handshake fragment. */
    method Process(f: Fragment, now: uint64, later: uint64, heap: bytes) returns (out: Answer)
      requires InBitmap(Kept(list, now), f)
      modifies this
      ensures (list, out) == Take(Kept(old(list), now), f, later, heap)
    {
      hide Kept, Marked, Splice, Has;
      Cleanup(now);
      var k := 0;
      while k < |list| && list[k].id != f.id
        invariant k <= |list| && Find(list, f.id, 0) == Find(list, f.id, k)
      {
        k := k + 1;
      }
      if k == |list| {
        list, k := [Opened(f, later, heap)] + list, 0;
      }
      var a := Marked(list[k], f);
      list := list[k := a];
      if a.received == a.count {
        list := list[..k] + list[k + 1..];
        return Complete(f.id, a.data);
      }
      out := Waiting;
    }
  }

  /* Against an ideal receiver */

  /** Fragment `index` of a known message arrives; the clock reads `now` and then `later`. */
  datatype Arrival = Arrival(id: uint32, index: uint16, now: uint64, later: uint64, heap: bytes)

  /** The messages being sent, by id. */
  type Messages = map<uint32, bytes>

  predicate Sendable(msgs: Messages) { forall id :: id in msgs ==> 0 < |msgs[id]| <= 65535 }

  predicate FromSender(msgs: Messages, x: Arrival) {
    x.id in msgs && CHUNK * x.index < |msgs[x.id]| && |x.heap| == |msgs[x.id]| && x.now <= x.later
  }

  function FragmentIn(msgs: Messages, x: Arrival): Fragment
    requires Sendable(msgs) && FromSender(msgs, x)
  {
    FragmentOf(x.id, msgs[x.id], x.index)
  }

  /** What an ideal receiver remembers of a message: which fragments it has seen since when. */
  datatype Partial = Partial(got: set<nat>, start: uint64)
  type Ideal = map<uint32, Partial>

  function All(count: nat): (r: set<nat>)
    ensures |r| == count && forall i: nat :: i in r <==> i < count
  {
    if count == 0 then {} else All(count - 1) + {count - 1}
  }

  function Fresh(m: Ideal, now: uint64): Ideal {
    map id | id in m && !TimedOut(m[id].start, now) :: m[id]
  }

  /** An ideal receiver counts the fragments it has seen and answers with the message when it has seen them all. */
  function IdealTake(msgs: Messages, m: Ideal, x: Arrival): (Ideal, Answer)
    requires Sendable(msgs) && FromSender(msgs, x)
  {
    var p := if x.id in m then Partial(m[x.id].got + {x.index as nat}, m[x.id].start) else Partial({x.index as nat}, x.later);
    if p.got == All(Count(|msgs[x.id]|)) then (m - {x.id}, Complete(x.id, msgs[x.id])) else (m[x.id := p], Waiting)
  }

  function IdealNext(msgs: Messages, m: Ideal, x: Arrival): (Ideal, Answer)
    requires Sendable(msgs) && FromSender(msgs, x)
  {
    IdealTake(msgs, Fresh(m, x.now), x)
  }

  /** An assembly holds exactly the fragments that the ideal receiver has seen. */
  predicate Holds(a: Assembly, p: Partial, payload: bytes)
    requires 0 < |payload| <= 65535
  {
    a.total == |payload| == |a.data| && a.count == Count(|payload|) && |a.bitmap| == (a.count + 7) / 8 && a.start == p.start
    && Bits(a.bitmap) == p.got && a.received == |p.got| && p.got < All(a.count) && Placed(a.data, payload, p.got)
  }

  function IdOf(a: Assembly): uint32 { a.id }

  predicate NoDuplicates(list: seq<Assembly>) { Distinct(list, IdOf) }

  ghost predicate HasId(list: seq<Assembly>, id: uint32) { exists a :: a in list && a.id == id }

  ghost predicate Matches(list: seq<Assembly>, m: Ideal, msgs: Messages)
    requires Sendable(msgs)
  {
    NoDuplicates(list)
    && (forall a :: a in list ==> a.id in m && a.id in msgs && Holds(a, m[a.id], msgs[a.id]))
    && (forall id :: id in m ==> HasId(list, id))
  }

  lemma HoldsStart(list: seq<Assembly>, m: Ideal, msgs: Messages, a: Assembly)
    requires Sendable(msgs) && Matches(list, m, msgs) && a in list
    ensures a.id in m && a.id in msgs && a.start == m[a.id].start && Holds(a, m[a.id], msgs[a.id])
  {
    hide Placed, Bits, All, NoDuplicates, HasId;
  }

  /** The cleanup forgets what the ideal receiver forgets. */
  lemma KeptMatches(list: seq<Assembly>, m: Ideal, msgs: Messages, now: uint64)
    requires Sendable(msgs) && Matches(list, m, msgs)
    ensures Matches(Kept(list, now), Fresh(m, now), msgs)
  {
    hide Filtered, Distinct, Holds, HasId, TimedOut;
    FilteredDistinct(list, Running(now), IdOf);
    var l2, m2 := Kept(list, now), Fresh(m, now);
    forall a | a in l2 ensures a.id in m2 && a.id in msgs && Holds(a, m2[a.id], msgs[a.id]) {
      FilteredMembers(list, Running(now), a);
      HoldsStart(list, m, msgs, a);
    }
    forall id | id in m2 ensures HasId(l2, id) {
      KeptHasId(list, m, msgs, now, id);
    }
  }

  lemma Known(list: seq<Assembly>, id: uint32) returns (a: Assembly)
    requires HasId(list, id)
    ensures a in list && a.id == id
  {
    a :| a in list && a.id == id;
  }

  lemma Knows(list: seq<Assembly>, a: Assembly)
    requires a in list
    ensures HasId(list, a.id)
  {
  }

  lemma KeptHasId(list: seq<Assembly>, m: Ideal, msgs: Messages, now: uint64, id: uint32)
    requires Sendable(msgs) && Matches(list, m, msgs) && id in Fresh(m, now)
    ensures HasId(Kept(list, now), id)
  {
    hide Filtered, Holds, TimedOut, Distinct;
    assert HasId(list, id);
    var a := Known(list, id);
    hide HasId;
    HoldsStart(list, m, msgs, a);
    hide Matches;
    FilteredMembers(list, Running(now), a);
    Knows(Kept(list, now), a);
  }

  lemma SpliceApart(s: bytes, off: nat, x: bytes, lo: nat, hi: nat)
    requires off + |x| <= |s| && lo <= hi <= |s| && (hi <= off || off + |x| <= lo)
    ensures Splice(s, off, x)[lo..hi] == s[lo..hi]
  {
  }

  lemma ChunksApart(len: nat, i: nat, j: nat)
    requires i != j && CHUNK * i < len && CHUNK * j < len
    ensures ChunkEnd(len, i) <= CHUNK * j || ChunkEnd(len, j) <= CHUNK * i
  {
  }

  lemma {:induction false} SubsetSize(a: set<nat>, b: set<nat>)
    requires a <= b
    ensures |a| <= |b| && (|a| == |b| ==> a == b)
  {
    if a != b {
      var x :| x in b && x !in a;
      SubsetSizes(a, b - {x});
    }
  }

  lemma {:induction false} SubsetSizes(a: set<nat>, b: set<nat>)
    requires a <= b
    ensures |a| <= |b|
    decreases |a|
  {
    if x :| x in a {
      SubsetSizes(a - {x}, b - {x});
    }
  }

  /** What is in place of a message: the pieces of the fragments seen. */
  predicate Placed(data: bytes, payload: bytes, got: set<nat>)
  {
    |data| == |payload|
    && forall i :: i in got ==> CHUNK * i < |payload| && data[CHUNK * i..ChunkEnd(|payload|, i)] == Chunk(payload, i)
  }

  lemma PlacedMore(data: bytes, payload: bytes, got: set<nat>, i: nat)
    requires Placed(data, payload, got) && CHUNK * i < |payload|
    ensures CHUNK * i + |Chunk(payload, i)| <= |data|
    ensures Placed(Splice(data, CHUNK * i, Chunk(payload, i)), payload, got + {i})
  {
    var c := Chunk(payload, i);
    var d := Splice(data, CHUNK * i, c);
    SpliceParts(data, CHUNK * i, c);
    assert CHUNK * i + |c| == ChunkEnd(|payload|, i);
    hide Splice;
    forall j | j in got + {i} ensures CHUNK * j < |payload| && d[CHUNK * j..ChunkEnd(|payload|, j)] == Chunk(payload, j) {
      if j != i {
        ChunksApart(|payload|, i, j);
        SpliceApart(data, CHUNK * i, c, CHUNK * j, ChunkEnd(|payload|, j));
      }
    }
  }

  lemma PlacedWhole(data: bytes, payload: bytes, got: set<nat>)
    requires 0 < |payload| <= 65535 && Placed(data, payload, got) && got == All(Count(|payload|))
    ensures data == payload
  {
    forall k | 0 <= k < |payload| ensures data[k] == payload[k] {
      InLastChunk(|payload|, k);
      assert k / CHUNK in got;
      SameByteOf(data, payload, k / CHUNK, k);
    }
  }

  lemma InLastChunk(len: nat, k: nat)
    requires k < len <= 65535
    ensures k / CHUNK < Count(len) && CHUNK * (k / CHUNK) <= k < ChunkEnd(len, k / CHUNK)
  {
  }

  lemma SameByteOf(data: bytes, payload: bytes, i: nat, k: nat)
    requires |data| == |payload| && CHUNK * i <= k < ChunkEnd(|payload|, i)
    requires data[CHUNK * i..ChunkEnd(|payload|, i)] == Chunk(payload, i)
    ensures data[k] == payload[k]
  {
    assert data[k] == data[CHUNK * i..ChunkEnd(|payload|, i)][k - CHUNK * i];
    assert payload[k] == Chunk(payload, i)[k - CHUNK * i];
  }

  /** The index of a sendable fragment has a bit of its own. */
  lemma IndexInRange(len: nat, i: nat)
    requires 0 < len <= 65535 && CHUNK * i < len
    ensures i < Count(len) <= 47 && i / 8 < (Count(len) + 7) / 8 && i < 0x1_0000
  {
  }

  lemma MarkedData(a: Assembly, msgs: Messages, x: Arrival, got: set<nat>)
    requires Sendable(msgs) && FromSender(msgs, x) && x.index / 8 < |a.bitmap| && a.total == |a.data|
    requires Placed(a.data, msgs[x.id], got) && (Has(a.bitmap, x.index) <==> x.index as nat in got)
    ensures Placed(Marked(a, FragmentIn(msgs, x)).data, msgs[x.id], got + {x.index as nat})
  {
    hide Has, Splice, Chunk;
    PlacedMore(a.data, msgs[x.id], got, x.index);
    assert x.index as nat in got ==> got + {x.index as nat} == got;
  }

  lemma BitIn(bitmap: seq<bv8>, i: nat)
    ensures Has(bitmap, i) <==> i in Bits(bitmap)
  {
    hide Mask;
  }

  lemma MarkedBits(a: Assembly, f: Fragment, got: set<nat>)
    requires f.index / 8 < |a.bitmap| && Bits(a.bitmap) == got && a.received == |got| < 0xFFFF
    ensures Has(a.bitmap, f.index) <==> f.index as nat in got
    ensures var r := Marked(a, f);
            Bits(r.bitmap) == got + {f.index as nat} && r.received == |got + {f.index as nat}| && |r.bitmap| == |a.bitmap|
  {
    hide Has, WithBit, Bits, Splice, Mask;
    BitIn(a.bitmap, f.index);
    WithBitBits(a.bitmap, f.index);
    OneMoreSize(got, f.index);
  }

  lemma OneMoreSize(got: set<nat>, i: nat)
    ensures |got + {i}| == if i in got then |got| else |got| + 1
    ensures i in got ==> got + {i} == got
  {
    assert i in got ==> got + {i} == got;
  }

  /** Marking a fragment in an assembly does what the ideal receiver does. */
  lemma MarkHolds(a: Assembly, p: Partial, msgs: Messages, x: Arrival)
    requires Sendable(msgs) && FromSender(msgs, x) && Holds(a, p, msgs[x.id])
    ensures x.index / 8 < |a.bitmap|
    ensures var payload, r, got := msgs[x.id], Marked(a, FragmentIn(msgs, x)), p.got + {x.index as nat};
            (r.received == r.count <==> got == All(Count(|payload|)))
            && (got == All(Count(|payload|)) ==> r.data == payload)
            && (got != All(Count(|payload|)) ==> Holds(r, Partial(got, p.start), payload))
            && r.id == a.id
  {
    hide Has, WithBit, Bits, Splice, Placed, Count, FragmentIn, Marked;
    var payload, f := msgs[x.id], FragmentIn(msgs, x);
    var got, all := p.got + {x.index as nat}, All(Count(|payload|));
    FragmentIs(msgs, x);
    IndexInRange(|payload|, x.index);
    SubsetSize(p.got, all);
    SubsetSize(got, all);
    MarkedBits(a, f, p.got);
    MarkedData(a, msgs, x, p.got);
    MarkedKeeps(a, f);
    hide All;
    if got == all {
      PlacedWhole(Marked(a, f).data, payload, got);
    }
  }

  lemma FragmentIs(msgs: Messages, x: Arrival)
    requires Sendable(msgs) && FromSender(msgs, x)
    ensures var f := FragmentIn(msgs, x); f.id == x.id && f.index == x.index && f.count == Count(|msgs[x.id]|) && f.total == |msgs[x.id]|
  {
  }

  lemma MarkedKeeps(a: Assembly, f: Fragment)
    requires f.index / 8 < |a.bitmap|
    ensures var r := Marked(a, f);
            r.id == a.id && r.total == a.total && r.count == a.count && r.start == a.start && |r.data| == |a.data|
  {
    hide Has, WithBit, Splice;
  }

  lemma OpenedHolds(msgs: Messages, x: Arrival)
    requires Sendable(msgs) && FromSender(msgs, x)
    ensures Holds(Opened(FragmentIn(msgs, x), x.later, x.heap), Partial({}, x.later), msgs[x.id])
  {
    FragmentIs(msgs, x);
    IndexInRange(|msgs[x.id]|, x.index);
    ClearBits((Count(|msgs[x.id]|) + 7) / 8);
    hide FragmentIn, Clear, Bits, Count;
    assert 0 in All(Count(|msgs[x.id]|));
  }

  /** Changing, adding or removing the assembly of one id. */
  lemma MatchesUpdated(list: seq<Assembly>, m: Ideal, msgs: Messages, k: nat, a: Assembly, p: Partial)
    requires Sendable(msgs) && Matches(list, m, msgs) && k < |list| && a.id == list[k].id && a.id in msgs
    requires Holds(a, p, msgs[a.id])
    ensures Matches(list[k := a], m[a.id := p], msgs)
  {
    hide Holds;
    var l2, m2 := list[k := a], m[a.id := p];
    assert a in l2 by { assert l2[k] == a; }
    forall b | b in l2 ensures b.id in m2 && b.id in msgs && Holds(b, m2[b.id], msgs[b.id]) {
      var i :| 0 <= i < |l2| && l2[i] == b;
      assert i != k ==> b == list[i] && b in list && b.id != a.id;
    }
    forall id | id in m2 ensures HasId(l2, id) {
      if id != a.id {
        assert HasId(list, id);
        var b := Known(list, id);
        var i :| 0 <= i < |list| && list[i] == b;
        assert l2[i] == b;
      }
    }
  }

  lemma MatchesAdded(list: seq<Assembly>, m: Ideal, msgs: Messages, a: Assembly, p: Partial)
    requires Sendable(msgs) && Matches(list, m, msgs) && a.id !in m && a.id in msgs && Holds(a, p, msgs[a.id])
    ensures Matches([a] + list, m[a.id := p], msgs)
  {
    hide Holds;
    var l2, m2 := [a] + list, m[a.id := p];
    forall b | b in list ensures b.id != a.id {
      HoldsStart(list, m, msgs, b);
    }
    ConsDistinct(a, list, IdOf);
    hide NoDuplicates;
    assert a in l2;
    forall b | b in l2 ensures b.id in m2 && b.id in msgs && Holds(b, m2[b.id], msgs[b.id]) {
      assert b == a || b in list;
    }
    forall id | id in m2 ensures HasId(l2, id) {
      if id != a.id {
        assert HasId(list, id);
        var b := Known(list, id);
        assert b in l2;
      }
    }
  }

  function Without(list: seq<Assembly>, k: nat): seq<Assembly>
    requires k < |list|
  {
    list[..k] + list[k + 1..]
  }

  lemma WithoutDistinct(list: seq<Assembly>, k: nat)
    requires k < |list| && NoDuplicates(list)
    ensures NoDuplicates(Without(list, k))
  {
    var l2 := Without(list, k);
    forall i, j | 0 <= i < j < |l2| ensures l2[i].id != l2[j].id {
      WithoutAt(list, k, i);
      WithoutAt(list, k, j);
    }
  }

  lemma WithoutAt(list: seq<Assembly>, k: nat, i: nat)
    requires k < |list| && i < |list| - 1
    ensures Without(list, k)[i] == if i < k then list[i] else list[i + 1]
  {
  }

  lemma WithoutMembers(list: seq<Assembly>, k: nat, b: Assembly)
    requires k < |list| && NoDuplicates(list)
    ensures b in Without(list, k) <==> b in list && b.id != list[k].id
  {
    assert list == list[..k] + [list[k]] + list[k + 1..];
    if b in list[..k] {
      var i :| 0 <= i < k && list[i] == b;
    }
    if b in list[k + 1..] {
      var i :| 0 <= i < |list| - k - 1 && list[k + 1..][i] == b;
      assert list[k + 1 + i] == b;
    }
  }

  lemma MatchesRemoved(list: seq<Assembly>, m: Ideal, msgs: Messages, k: nat)
    requires Sendable(msgs) && Matches(list, m, msgs) && k < |list|
    ensures Matches(Without(list, k), m - {list[k].id}, msgs)
  {
    hide Holds, Without;
    var a := list[k];
    var l2, m2 := Without(list, k), m - {a.id};
    WithoutDistinct(list, k);
    forall b | b in l2 ensures b.id in m2 && b.id in msgs && Holds(b, m2[b.id], msgs[b.id]) {
      WithoutMembers(list, k, b);
    }
    forall id | id in m2 ensures HasId(l2, id) {
      assert HasId(list, id);
      var b := Known(list, id);
      WithoutMembers(list, k, b);
    }
  }

  /** A fragment of a message whose assembly is at position `k`. */
  lemma KnownTakes(list: seq<Assembly>, m: Ideal, msgs: Messages, x: Arrival, k: nat)
    requires Sendable(msgs) && FromSender(msgs, x) && Matches(list, m, msgs) && k < |list| && list[k].id == x.id
    ensures x.id in m && x.index / 8 < |list[k].bitmap|
    ensures var a := Marked(list[k], FragmentIn(msgs, x));
            var r := IdealTake(msgs, m, x);
            if a.received == a.count then r.1 == Complete(x.id, a.data) && Matches(Without(list, k), r.0, msgs)
            else r.1 == Waiting && Matches(list[k := a], r.0, msgs)
  {
    HoldsStart(list, m, msgs, list[k]);
    var p := m[x.id];
    hide Matches, Marked, FragmentIn, Holds, Count, All, FromSender, Sendable;
    MarkHolds(list[k], p, msgs, x);
    var a := Marked(list[k], FragmentIn(msgs, x));
    if a.received == a.count {
      MatchesRemoved(list, m, msgs, k);
    } else {
      MatchesUpdated(list, m, msgs, k, a, Partial(p.got + {x.index as nat}, p.start));
    }
  }

  lemma FindIs(list: seq<Assembly>, m: Ideal, msgs: Messages, id: uint32)
    requires Sendable(msgs) && Matches(list, m, msgs)
    ensures Find(list, id, 0) < |list| <==> id in m
  {
    var i := Find(list, id, 0);
    if i < |list| {
      HoldsStart(list, m, msgs, list[i]);
    } else if id in m {
      assert HasId(list, id);
      var b := Known(list, id);
    }
    hide Find, Holds;
  }

  /** The receiver answers a sender's fragment as the ideal one, and keeps matching it. */
  lemma TakeMatches(list: seq<Assembly>, m: Ideal, msgs: Messages, x: Arrival)
    requires Sendable(msgs) && FromSender(msgs, x) && Matches(list, m, msgs)
    ensures InBitmap(list, FragmentIn(msgs, x))
    ensures var r, s := Take(list, FragmentIn(msgs, x), x.later, x.heap), IdealTake(msgs, m, x);
            r.1 == s.1 && Matches(r.0, s.0, msgs)
  {
    hide FragmentIn, Marked, Matches, Find, Count, All, FromSender, Sendable, Opened, IdealTake;
    var f := FragmentIn(msgs, x);
    FragmentIs(msgs, x);
    FindIs(list, m, msgs, x.id);
    var i := Find(list, x.id, 0);
    if i < |list| {
      KnownTakes(list, m, msgs, x, i);
    } else {
      NewTakes(list, m, msgs, x);
    }
  }

  lemma NewTakes(list: seq<Assembly>, m: Ideal, msgs: Messages, x: Arrival)
    requires Sendable(msgs) && FromSender(msgs, x) && Matches(list, m, msgs) && x.id !in m
    ensures x.index / 8 < (FragmentIn(msgs, x).count + 7) / 8
    ensures var f := FragmentIn(msgs, x);
            var l2 := [Opened(f, x.later, x.heap)] + list;
            var a, r := Marked(l2[0], f), IdealTake(msgs, m, x);
            if a.received == a.count then r.1 == Complete(x.id, a.data) && Matches(l2[..0] + l2[1..], r.0, msgs)
            else r.1 == Waiting && Matches(l2[0 := a], r.0, msgs)
  {
    var f := FragmentIn(msgs, x);
    var a0, p0 := Opened(f, x.later, x.heap), Partial({}, x.later);
    FragmentIs(msgs, x);
    IndexInRange(|msgs[x.id]|, x.index);
    hide FragmentIn, Marked, Matches, Holds, Count, All, FromSender, Sendable;
    OpenedHolds(msgs, x);
    MatchesAdded(list, m, msgs, a0, p0);
    hide Opened;
    KnownTakes([a0] + list, m[x.id := p0], msgs, x, 0);
    IdealTakesNew(msgs, m, x);
    hide IdealTake;
    assert ([a0] + list)[..0] + ([a0] + list)[1..] == Without([a0] + list, 0);
  }

  lemma IdealTakesNew(msgs: Messages, m: Ideal, x: Arrival)
    requires Sendable(msgs) && FromSender(msgs, x) && x.id !in m
    ensures IdealTake(msgs, m[x.id := Partial({}, x.later)], x) == IdealTake(msgs, m, x)
  {
    hide All, Count;
    var p := Partial({x.index as nat}, x.later);
    assert {} + {x.index as nat} == {x.index as nat};
    assert m[x.id := Partial({}, x.later)] - {x.id} == m - {x.id};
    assert m[x.id := Partial({}, x.later)][x.id := p] == m[x.id := p];
  }

  /* Runs */

  predicate AllFromSender(msgs: Messages, xs: seq<Arrival>) {
    Sendable(msgs) && forall i :: 0 <= i < |xs| ==> FromSender(msgs, xs[i])
  }

  /** One call of the receiver; `RefinesIdeal` shows that no fragment of a sender indexes past the bitmap. */
  function Received(list: seq<Assembly>, msgs: Messages, x: Arrival): (seq<Assembly>, Answer)
    requires Sendable(msgs) && FromSender(msgs, x)
  {
    var l, f := Kept(list, x.now), FragmentIn(msgs, x);
    if InBitmap(l, f) then Take(l, f, x.later, x.heap) else (l, Waiting)
  }

  function Answers(list: seq<Assembly>, msgs: Messages, xs: seq<Arrival>): (r: seq<Answer>)
    requires AllFromSender(msgs, xs)
    ensures |r| == |xs|
    decreases |xs|
  {
    if xs == [] then []
    else [Received(list, msgs, xs[0]).1] + Answers(Received(list, msgs, xs[0]).0, msgs, xs[1..])
  }

  function IdealAnswers(m: Ideal, msgs: Messages, xs: seq<Arrival>): (r: seq<Answer>)
    requires AllFromSender(msgs, xs)
    ensures |r| == |xs|
    decreases |xs|
  {
    if xs == [] then []
    else [IdealNext(msgs, m, xs[0]).1] + IdealAnswers(IdealNext(msgs, m, xs[0]).0, msgs, xs[1..])
  }

  ghost predicate InBounds(list: seq<Assembly>, msgs: Messages, xs: seq<Arrival>)
    requires AllFromSender(msgs, xs)
    decreases |xs|
  {
    xs == [] || (InBitmap(Kept(list, xs[0].now), FragmentIn(msgs, xs[0])) && InBounds(Received(list, msgs, xs[0]).0, msgs, xs[1..]))
  }

  lemma {:induction false} RefinesFrom(list: seq<Assembly>, m: Ideal, msgs: Messages, xs: seq<Arrival>)
    requires AllFromSender(msgs, xs) && Matches(list, m, msgs)
    ensures Answers(list, msgs, xs) == IdealAnswers(m, msgs, xs) && InBounds(list, msgs, xs)
    decreases |xs|
  {
    if xs != [] {
      hide Matches, Kept, Take, Fresh, IdealTake, InBitmap, FragmentIn, Sendable, FromSender;
      KeptMatches(list, m, msgs, xs[0].now);
      TakeMatches(Kept(list, xs[0].now), Fresh(m, xs[0].now), msgs, xs[0]);
      RefinesFrom(Received(list, msgs, xs[0]).0, IdealNext(msgs, m, xs[0]).0, msgs, xs[1..]);
    }
  }

  /**
   * Whatever fragments of known messages arrive, lost, late, repeated, reordered and interleaved, the
   * receiver answers as the ideal one does, and never marks outside a bitmap.
   */
  lemma RefinesIdeal(msgs: Messages, xs: seq<Arrival>)
    requires AllFromSender(msgs, xs)
    ensures Answers([], msgs, xs) == IdealAnswers(map[], msgs, xs) && InBounds([], msgs, xs)
  {
    RefinesFrom([], map[], msgs, xs);
  }

  /* Delivery */

  /** The indices of a message among the first `n` arrivals. */
  function Seen(xs: seq<Arrival>, id: uint32, n: nat): set<nat>
    requires n <= |xs|
    decreases n
  {
    if n == 0 then {} else (if xs[0].id == id then {xs[0].index as nat} else {}) + Seen(xs[1..], id, n - 1)
  }

  /** Calls follow one another, all within the timeout from `t0`. */
  predicate Prompt(xs: seq<Arrival>, t0: uint64, from: uint64) {
    t0 <= from && (forall i :: 0 <= i < |xs| ==> from <= xs[i].now <= xs[i].later <= t0 + TIMEOUT_MS)
    && forall i, j :: 0 <= i < j < |xs| ==> xs[i].later <= xs[j].now
  }

  predicate Tracks(m: Ideal, id: uint32, got: set<nat>, t0: uint64, from: uint64) {
    if got == {} then id !in m else id in m && m[id].got == got && t0 <= m[id].start <= from
  }

  /** The `n`th arrival is the first after which every fragment has been seen. */
  ghost predicate Completes(xs: seq<Arrival>, id: uint32, got: set<nat>, all: set<nat>, n: nat) {
    n < |xs| && (forall j :: 0 <= j <= n ==> got + Seen(xs, id, j) != all) && got + Seen(xs, id, n + 1) == all
  }

  lemma IdealStep(msgs: Messages, m: Ideal, x: Arrival, id: uint32, got: set<nat>, t0: uint64, from: uint64)
    requires Sendable(msgs) && FromSender(msgs, x) && Tracks(m, id, got, t0, from) && id in msgs
    requires t0 <= from <= x.now <= x.later <= t0 + TIMEOUT_MS
    ensures var got2 := got + if x.id == id then {x.index as nat} else {};
            if got2 == All(Count(|msgs[id]|)) && x.id == id then IdealNext(msgs, m, x).1 == Complete(id, msgs[id])
            else !(IdealNext(msgs, m, x).1.Complete? && IdealNext(msgs, m, x).1.id == id)
                 && Tracks(IdealNext(msgs, m, x).0, id, got2, t0, x.later)
  {
    hide All, Count, FromSender, Sendable;
    assert id in m && got != {} ==> !TimedOut(m[id].start, x.now);
    assert got + {} == got;
    assert got == {} ==> got + {x.index as nat} == {x.index as nat};
  }

  lemma {:induction false} CompletesNext(xs: seq<Arrival>, id: uint32, got: set<nat>, all: set<nat>, n: nat)
    requires Completes(xs, id, got, all, n) && n > 0
    ensures Completes(xs[1..], id, got + (if xs[0].id == id then {xs[0].index as nat} else {}), all, n - 1)
  {
    var step := if xs[0].id == id then {xs[0].index as nat} else {};
    forall j | 0 <= j <= n ensures got + Seen(xs, id, j + 1) == (got + step) + Seen(xs[1..], id, j) {
    }
    forall j | 0 <= j <= n - 1 ensures (got + step) + Seen(xs[1..], id, j) != all {
      assert got + Seen(xs, id, j + 1) != all;
    }
  }

  lemma CompletesFirst(xs: seq<Arrival>, id: uint32, got: set<nat>, all: set<nat>, n: nat)
    requires Completes(xs, id, got, all, n)
    ensures xs != []
    ensures var got2 := got + if xs[0].id == id then {xs[0].index as nat} else {};
            if n == 0 then got2 == all && xs[0].id == id else got2 != all
  {
    var step := if xs[0].id == id then {xs[0].index as nat} else {};
    assert Seen(xs, id, 1) == step + Seen(xs[1..], id, 0) == step;
    assert got + Seen(xs, id, 0) != all && got + {} == got;
    assert n > 0 ==> got + Seen(xs, id, 1) != all;
  }

  lemma PromptNext(xs: seq<Arrival>, t0: uint64, from: uint64)
    requires Prompt(xs, t0, from) && xs != []
    ensures t0 <= from <= xs[0].now <= xs[0].later <= t0 + TIMEOUT_MS && Prompt(xs[1..], t0, xs[0].later)
  {
  }

  lemma {:induction false} DeliversFrom(msgs: Messages, m: Ideal, xs: seq<Arrival>, id: uint32, got: set<nat>, n: nat,
                                        t0: uint64, from: uint64)
    requires AllFromSender(msgs, xs) && id in msgs && Prompt(xs, t0, from) && Tracks(m, id, got, t0, from)
    requires Completes(xs, id, got, All(Count(|msgs[id]|)), n)
    ensures IdealAnswers(m, msgs, xs)[n] == Complete(id, msgs[id])
    ensures forall j :: 0 <= j < n ==> !(IdealAnswers(m, msgs, xs)[j].Complete? && IdealAnswers(m, msgs, xs)[j].id == id)
    decreases |xs|
  {
    hide All, Count, Tracks, IdealNext, FromSender, Sendable, Completes, Prompt;
    CompletesFirst(xs, id, got, All(Count(|msgs[id]|)), n);
    PromptNext(xs, t0, from);
    var x := xs[0];
    IdealStep(msgs, m, x, id, got, t0, from);
    if n > 0 {
      CompletesNext(xs, id, got, All(Count(|msgs[id]|)), n);
      DeliversFrom(msgs, IdealNext(msgs, m, x).0, xs[1..], id, got + (if x.id == id then {x.index as nat} else {}), n - 1,
                   t0, x.later);
    }
  }

  /**
   * Within the timeout, the receiver returns a message's payload exactly when the last of its fragments
   * has arrived, in whatever order and with whatever repetitions and other messages in between.
   */
  lemma Delivers(msgs: Messages, xs: seq<Arrival>, id: uint32, n: nat, t0: uint64)
    requires AllFromSender(msgs, xs) && id in msgs && Prompt(xs, t0, t0)
    requires Completes(xs, id, {}, All(Count(|msgs[id]|)), n)
    ensures Answers([], msgs, xs)[n] == Complete(id, msgs[id])
    ensures forall j :: 0 <= j < n ==> !(Answers([], msgs, xs)[j].Complete? && Answers([], msgs, xs)[j].id == id)
  {
    RefinesIdeal(msgs, xs);
    hide Answers, IdealAnswers, Completes, Prompt, All, Count, AllFromSender;
    DeliversFrom(msgs, map[], xs, id, {}, n, t0, t0);
  }
}
