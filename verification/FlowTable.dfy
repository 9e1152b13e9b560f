/** The flow table of `src/core/flow_table.c`: flows pinned to a WAN until their share of bytes is used up. */
module FlowTable {
  import opened Bytes
  import opened Modular
  import opened Lists
  import opened WanPool

  const SIZE: nat := 16384
  const TIMEOUT_SEC: nat := 60

  /** What an entry is found by: a whole 5-tuple, or the two addresses alone; addresses as `ntohl` gives them. */
  datatype Id =
    | ByFlow(src: uint32, dst: uint32, sport: uint16, dport: uint16, proto: uint8)
    | ByIps(src: uint32, dst: uint32)

  /** The mutable part of struct flow_entry. */
  datatype Flow = Flow(bytes: uint32, wan: int, slot: int, seen: uint64)
  datatype Entry = Entry(id: Id, flow: Flow)

  /* Keys */

  /** normalize_flow_5tuple: the lower end point first. */
  function Normal(src: uint32, dst: uint32, sport: uint16, dport: uint16, proto: uint8): Id {
    if src > dst || (src == dst && sport > dport) then ByFlow(dst, src, dport, sport, proto)
    else ByFlow(src, dst, sport, dport, proto)
  }

  /** normalize_flow_ips */
  function NormalIps(src: uint32, dst: uint32): Id {
    if src > dst then ByIps(dst, src) else ByIps(src, dst)
  }

  /** Both directions of a flow have one id, and no other flow has it. */
  lemma DirectionForgotten(src: uint32, dst: uint32, sport: uint16, dport: uint16, proto: uint8,
                           src2: uint32, dst2: uint32, sport2: uint16, dport2: uint16, proto2: uint8)
    ensures Normal(src, dst, sport, dport, proto) == Normal(src2, dst2, sport2, dport2, proto2)
            <==> proto == proto2
                 && ((src == src2 && dst == dst2 && sport == sport2 && dport == dport2)
                     || (src == dst2 && dst == src2 && sport == dport2 && dport == sport2))
  {
  }

  lemma DirectionForgottenIps(src: uint32, dst: uint32, src2: uint32, dst2: uint32)
    ensures NormalIps(src, dst) == NormalIps(src2, dst2)
            <==> (src == src2 && dst == dst2) || (src == dst2 && dst == src2)
  {
  }

  /** The bytes of an address in the other order: the hash sees addresses in network order. */
  function Swapped(x: bv32): bv32 { (x << 24) | ((x << 8) & 0xFF_0000) | ((x >> 8) & 0xFF00) | (x >> 24) }

  /** The mixing steps of flow_hash and flow_hash_ips. */
  function Mixed(x: bv32): bv32 {
    var a := (x ^ (x >> 16)) * 0x85eb_ca6b;
    var b := (a ^ (a >> 13)) * 0xc2b2_ae35;
    b ^ (b >> 16)
  }

  /** flow_hash and flow_hash_ips before the cut to the table's size. */
  function FlowBits(src: bv32, dst: bv32, sport: bv32, dport: bv32, proto: bv32): bv32 {
    Mixed(Swapped(src) ^ Swapped(dst) ^ ((sport << 16) | dport) ^ proto)
  }

  function IpsBits(src: bv32, dst: bv32): bv32 { Mixed(Swapped(src) ^ Swapped(dst)) }

  function HashOf(id: Id): (h: nat)
    ensures h < SIZE
  {
    match id
    case ByFlow(src, dst, sport, dport, proto) =>
      FlowBits(src as bv32, dst as bv32, sport as bv32, dport as bv32, (proto as nat) as bv32) as nat % SIZE
    case ByIps(src, dst) => IpsBits(src as bv32, dst as bv32) as nat % SIZE
  }

  /** A TCP flow from 192.168.1.10:12345 to 192.168.1.20:443, and its two addresses alone. */
  lemma HashExample()
    ensures FlowBits(0xC0A8_010A, 0xC0A8_0114, 12345, 443, 6) == 0xF070_6184
    ensures IpsBits(0xC0A8_010A, 0xC0A8_0114) == 0xEC68_0FFC
  {
  }

  /* Byte windows */

  /** profile_wan_limit: the WAN's share of its window size, at least one byte; 0 for no limit. */
  function Limit(p: Pool, sizes: seq<uint32>, wan: int): uint32
    requires Wellformed(p)
  {
    if wan < 0 || wan >= |sizes| || sizes[wan] == 0 then 0
    else if Sum(p.weights) == 0 then sizes[wan] / |p.wans|
    else match PosOf(p.wans, wan)
      case None => 0
      case Some(i) =>
        if p.weights[i] <= 0 then 0
        else ShareOf(sizes[wan], p.weights, i)
  }

  function ShareOf(base: uint32, ws: seq<int>, i: nat): (l: uint32)
    requires Enabled(ws, i) && base > 0
    ensures l >= 1 && base * ws[i] < (l + 1) * Sum(ws) && (l - 1) * Sum(ws) < base * ws[i]
  {
    WeightInSum(ws, i);
    ShareBounds(base, ws[i], Sum(ws));
    var l := base * ws[i] / Sum(ws);
    if l > 0 then l else 1
  }

  lemma WeightInSum(ws: seq<int>, i: nat)
    requires Enabled(ws, i)
    ensures ws[i] <= Sum(ws)
  {
    BeforeMonotone(ws, i + 1, |ws|);
  }

  lemma ShareBounds(base: nat, w: nat, sum: nat)
    requires base > 0 && 0 < w <= sum
    ensures var l := base * w / sum;
            l <= base && base * w < (l + 1) * sum && l * sum <= base * w && base * w > 0
  {
    var l, r := DivParts(base * w, sum);
    MulMonotone(base, w, sum);
    MulGrows(w, base);
    ShareParts(base, base * w, sum, l, r);
  }

  lemma ShareParts(base: nat, x: nat, sum: nat, l: nat, r: nat)
    requires sum > 0 && x <= base * sum && x == l * sum + r && r < sum
    ensures l <= base && x < (l + 1) * sum && l * sum <= x
  {
    assert (l + 1) * sum == l * sum + sum;
    CancelFactor(l, base, sum);
  }

  lemma MulMonotone(a: nat, b: nat, c: nat)
    requires b <= c
    ensures a * b <= a * c
  {
  }

  lemma CancelFactor(a: nat, b: nat, m: nat)
    requires m > 0 && a * m <= b * m
    ensures a <= b
  {
    if a > b {
      MulGrows(a - b, m);
      assert false;
    }
  }

  /** The end of a call: the bytes counted, and the rotation once the limit is reached. */
  function Tallied(p: Pool, sizes: seq<uint32>, wan: int, slot: int, count: uint32, now: uint64): Flow
    requires Wellformed(p)
  {
    var limit := Limit(p, sizes, wan);
    if limit > 0 && count >= limit then
      var pos := match PosOf(p.wans, wan) case None => 0 case Some(i) => i;
      var next := NextOf(p, pos);
      Flow(0, p.wans[next], next, now)
    else Flow(count, wan, slot, now)
  }

  function NextOf(p: Pool, pos: nat): (r: nat)
    requires Wellformed(p) && pos < |p.wans|
    ensures r < |p.wans| && r == NextEnabled(p.weights, pos)
    ensures Sum(p.weights) > 0 ==> p.weights[r] > 0
  {
    NextPositive(p.weights, pos, 1);
    NextEnabled(p.weights, pos)
  }

  lemma {:induction false} NextPositive(ws: seq<int>, pos: nat, step: nat)
    requires pos < |ws| && 1 <= step <= |ws| + 1
    ensures Sum(ws) > 0 ==> Enabled(ws, NextFrom(ws, pos, step))
    decreases |ws| + 1 - step
  {
    if step <= |ws| && Around(ws, pos, step) <= 0 {
      NextPositive(ws, pos, step + 1);
    }
  }

  /** May a flow stay on its WAN? */
  predicate Allowed(p: Pool, wan: int)
    requires Wellformed(p)
  {
    var pos := PosOf(p.wans, wan);
    pos.Some? && (Sum(p.weights) > 0 ==> p.weights[pos.value] > 0)
  }

  /** A flow whose WAN is no longer allowed goes to the first one that is. */
  function Settled(p: Pool, f: Flow): Flow
    requires Wellformed(p)
  {
    if Allowed(p, f.wan) then f
    else
      var pos := FirstPositive(p.weights);
      Flow(0, p.wans[pos], pos, f.seen)
  }

  /** A packet of a known flow. */
  function Charged(p: Pool, sizes: seq<uint32>, f: Flow, len: uint32, now: uint64): (Flow, int)
    requires Wellformed(p)
  {
    var g := Settled(p, f);
    (Tallied(p, sizes, g.wan, g.slot, (g.bytes + len) % 0x1_0000_0000, now), g.wan)
  }

  /** The first packet of a flow: its hash picks the WAN. */
  function Opened(p: Pool, sizes: seq<uint32>, h: nat, len: uint32, now: uint64): (Flow, int)
    requires Wellformed(p)
  {
    var pos := if Sum(p.weights) > 0 then SlotPos(p.weights, h % Sum(p.weights)) else h % |p.wans|;
    var slot := if Sum(p.weights) == 0 then pos else match PosOf(p.wans, p.wans[pos]) case None => 0 case Some(i) => i;
    (Tallied(p, sizes, p.wans[pos], slot, len, now), p.wans[pos])
  }

  /** Packets of flows by address only rotate over all WANs, and the answer is the WAN after the rotation. */
  function ChargedByIps(sizes: seq<uint32>, f: Flow, len: uint32, now: uint64): Flow {
    var count := (f.bytes + len) % 0x1_0000_0000;
    var limit := if 0 <= f.wan < |sizes| then sizes[f.wan] else 0;
    if limit > 0 && count >= limit then Flow(0, (f.wan + 1) % |sizes|, f.slot, now)
    else Flow(count, f.wan, f.slot, now)
  }

  /* The table */

  /** Where the id's entry is in its bucket's list, or the list's length. */
  function Position(b: seq<Entry>, id: Id): (r: nat)
    ensures r <= |b| && (r < |b| ==> b[r].id == id)
    ensures forall k :: 0 <= k < r ==> b[k].id != id
  {
    if b == [] || b[0].id == id then 0 else 1 + Position(b[1..], id)
  }

  function Lookup(b: seq<Entry>, id: Id): Option<Flow> {
    var i := Position(b, id);
    if i < |b| then Some(b[i].flow) else None
  }

  /** An entry is changed in place, or a new one linked in front. */
  function Linked(b: seq<Entry>, id: Id, flow: Flow): seq<Entry> {
    var i := Position(b, id);
    if i < |b| then b[i := Entry(id, flow)] else [Entry(id, flow)] + b
  }

  function IdOf(e: Entry): Id { e.id }

  predicate NoDuplicates(b: seq<Entry>) { Distinct(b, IdOf) }

  /** Every entry is in the bucket of its hash, and no bucket has two for one id. */
  predicate TableOk(t: seq<seq<Entry>>) {
    |t| == SIZE && forall h :: 0 <= h < SIZE ==> NoDuplicates(t[h]) && forall i :: 0 <= i < |t[h]| ==> HashOf(t[h][i].id) == h
  }

  /** The map that the table stands for. */
  function Find(t: seq<seq<Entry>>, id: Id): Option<Flow>
    requires |t| == SIZE
  {
    Lookup(t[HashOf(id)], id)
  }

  /** What a packet does to the map: the flow it leaves behind, and the WAN it is sent to. */
  function Next(p: Pool, sizes: seq<uint32>, found: Option<Flow>, h: nat, len: uint32, now: uint64): (Flow, int)
    requires Wellformed(p)
  {
    match found
    case Some(f) => Charged(p, sizes, f, len, now)
    case None => Opened(p, sizes, h, len, now)
  }

  function NextByIps(sizes: seq<uint32>, found: Option<Flow>, first: int, len: uint32, now: uint64): Flow {
    match found
    case Some(f) => ChargedByIps(sizes, f, len, now)
    case None => Flow(len, first, 0, now)
  }

  function Updated(t: seq<seq<Entry>>, id: Id, flow: Flow): (r: seq<seq<Entry>>)
    requires |t| == SIZE
    ensures |r| == SIZE
  {
    t[HashOf(id) := Linked(t[HashOf(id)], id, flow)]
  }

  lemma LookupStored(b: seq<Entry>, id: Id, flow: Flow, x: Id)
    ensures Lookup(Linked(b, id, flow), x) == if x == id then Some(flow) else Lookup(b, x)
  {
    var i := Position(b, id);
    var b2 := Linked(b, id, flow);
    if i < |b| {
      if x == id {
        PositionIs(b2, x, i);
      } else if Position(b, x) < |b| {
        PositionIs(b2, x, Position(b, x));
      } else {
        PositionNone(b2, x);
      }
    } else if x != id {
      assert b2[1..] == b;
    }
  }

  lemma {:induction false} PositionIs(b: seq<Entry>, id: Id, i: nat)
    requires i < |b| && b[i].id == id && forall k :: 0 <= k < i ==> b[k].id != id
    ensures Position(b, id) == i
    decreases i
  {
    if i > 0 {
      PositionIs(b[1..], id, i - 1);
    }
  }

  lemma PositionNone(b: seq<Entry>, id: Id)
    requires forall k :: 0 <= k < |b| ==> b[k].id != id
    ensures Position(b, id) == |b|
  {
  }

  /** Updating one id changes the map at that id and nowhere else, whatever shares its bucket. */
  lemma UpdatedFinds(t: seq<seq<Entry>>, id: Id, flow: Flow, x: Id)
    requires |t| == SIZE
    ensures Find(Updated(t, id, flow), x) == if x == id then Some(flow) else Find(t, x)
  {
    hide HashOf, Lookup, Linked;
    LookupStored(t[HashOf(id)], id, flow, x);
  }

  lemma UpdatedOk(t: seq<seq<Entry>>, id: Id, flow: Flow)
    requires TableOk(t)
    ensures TableOk(Updated(t, id, flow))
  {
    hide HashOf, Position;
    var b := t[HashOf(id)];
    var i := Position(b, id);
    assert NoDuplicates(Linked(b, id, flow));
  }

  class FlowTable {
    const buckets: array<seq<Entry>>
    const sizes: seq<uint32>

    ghost predicate Valid()
      reads buckets
    {
      TableOk(buckets[..])
    }

    /** flow_table_init */
    constructor (sizes: seq<uint32>)
      ensures Valid() && fresh(buckets) && this.sizes == sizes
      ensures forall id :: Find(buckets[..], id) == None
    {
      this.sizes := sizes;
      buckets := new seq<Entry>[SIZE](_ => []);
    }

    /** The search loop of both lookups. */
    method Search(h: nat, id: Id) returns (i: nat)
      requires h < buckets.Length
      ensures i == Position(buckets[h], id)
    {
      i := 0;
      while i < |buckets[h]| && buckets[h][i].id != id
        invariant i <= |buckets[h]| && forall k :: 0 <= k < i ==> buckets[h][k].id != id
      {
        i := i + 1;
      }
      if i < |buckets[h]| {
        PositionIs(buckets[h], id, i);
      } else {
        PositionNone(buckets[h], id);
      }
    }

    /** flow_table_get_wan_profile behind its checks. */
    method GetWanPooled(src: uint32, dst: uint32, sport: uint16, dport: uint16, proto: uint8, len: uint32,
                        now: uint64, p: Pool)
      returns (wan: int)
      requires Valid() && Wellformed(p) && |p.wans| > 1
      modifies buckets
      ensures Valid()
      ensures var id := Normal(src, dst, sport, dport, proto);
              var r := Next(p, sizes, Find(old(buckets[..]), id), HashOf(id), len, now);
              buckets[..] == Updated(old(buckets[..]), id, r.0) && wan == r.1
    {
      var id := Normal(src, dst, sport, dport, proto);
      assert buckets.Length == SIZE;
      hide Normal, HashOf, Charged, Opened, TableOk;
      var h := HashOf(id);
      var i := Search(h, id);
      var r := if i < |buckets[h]| then Charged(p, sizes, buckets[h][i].flow, len, now) else Opened(p, sizes, h, len, now);
      UpdatedOk(buckets[..], id, r.0);
      buckets[h] := if i < |buckets[h]| then buckets[h][i := Entry(id, r.0)] else [Entry(id, r.0)] + buckets[h];
      wan := r.1;
    }

    /** flow_table_get_wan; `first` is where get_next_wan stands. */
    method GetWan(src: uint32, dst: uint32, len: uint32, now: uint64, first: int) returns (wan: int)
      requires Valid()
      modifies buckets
      ensures Valid()
      ensures var id := NormalIps(src, dst);
              var f := NextByIps(sizes, Find(old(buckets[..]), id), first, len, now);
              buckets[..] == Updated(old(buckets[..]), id, f) && wan == f.wan
    {
      var id := NormalIps(src, dst);
      assert buckets.Length == SIZE;
      hide NormalIps, HashOf, ChargedByIps, TableOk;
      var h := HashOf(id);
      var i := Search(h, id);
      var f := if i < |buckets[h]| then ChargedByIps(sizes, buckets[h][i].flow, len, now) else Flow(len, first, 0, now);
      UpdatedOk(buckets[..], id, f);
      buckets[h] := if i < |buckets[h]| then buckets[h][i := Entry(id, f)] else [Entry(id, f)] + buckets[h];
      wan := f.wan;
    }

    /** flow_table_get_wan_profile: without a pool flows are told apart by address only, and one WAN needs no table. */
    method GetWanProfile(src: uint32, dst: uint32, sport: uint16, dport: uint16, proto: uint8, len: uint32,
                         now: uint64, p: Pool,
                         first: int) returns (wan: int)
      requires Valid() && |p.wans| == |p.weights|
      modifies buckets
      ensures Valid()
      ensures |p.wans| == 0 ==>
                var id := NormalIps(src, dst);
                var f := NextByIps(sizes, Find(old(buckets[..]), id), first, len, now);
                buckets[..] == Updated(old(buckets[..]), id, f) && wan == f.wan
      ensures |p.wans| == 1 ==> buckets[..] == old(buckets[..]) && wan == p.wans[0]
      ensures |p.wans| > 1 ==>
                var id := Normal(src, dst, sport, dport, proto);
                var r := Next(p, sizes, Find(old(buckets[..]), id), HashOf(id), len, now);
                buckets[..] == Updated(old(buckets[..]), id, r.0) && wan == r.1
    {
      hide NextByIps, Next, HashOf, Updated, Find, Normal, NormalIps;
      if |p.wans| == 0 {
        wan := GetWan(src, dst, len, now, first);
      } else if |p.wans| == 1 {
        wan := p.wans[0];
      } else {
        wan := GetWanPooled(src, dst, sport, dport, proto, len, now, p);
      }
    }

    /** The pointer-to-pointer loop of flow_table_gc_slice on one bucket. */
    method SweepBucket(h: nat, now: uint64)
      requires h < buckets.Length
      modifies buckets
      ensures buckets[..] == old(buckets[..])[h := Swept(old(buckets[h]), now)]
    {
      var b := buckets[h];
      var i := 0;
      hide Filtered, Expired;
      FilteredEnds(b, Unexpired(now));
      while i < |b|
        invariant i <= |b| && b[..i] + Swept(b[i..], now) == Swept(old(buckets[h]), now)
        invariant buckets[..] == old(buckets[..])
        decreases |b| - i
      {
        FilteredHere(b, i, Unexpired(now));
        if Expired(b[i].flow, now) {
          b := b[..i] + b[i + 1..];
        } else {
          i := i + 1;
        }
      }
      FilteredEnds(b, Unexpired(now));
      buckets[h] := b;
    }

    /** flow_table_gc_slice */
    method GcSlice(cursor: nat, n: nat, now: uint64) returns (next: nat)
      requires Valid() && cursor < SIZE
      modifies buckets
      ensures Valid() && next == (cursor + n) % SIZE
      ensures buckets[..] == SliceSwept(old(buckets[..]), cursor, n, now)
    {
      SliceStart(buckets[..], cursor, now);
      ghost var was := buckets[..];
      hide SliceSwept, Filtered, TableOk;
      for k := 0 to n
        invariant buckets[..] == SliceSwept(was, cursor, k, now) && buckets.Length == SIZE
      {
        SliceStep(was, cursor, k, now);
        SweepBucket((cursor + k) % SIZE, now);
      }
      SliceOk(was, cursor, n, now);
      next := (cursor + n) % SIZE;
    }
  }

  predicate Expired(f: Flow, now: uint64) { (now - f.seen) % 0x1_0000_0000_0000_0000 > TIMEOUT_SEC }

  function Unexpired(now: uint64): Entry -> bool { (e: Entry) => !Expired(e.flow, now) }

  function Swept(b: seq<Entry>, now: uint64): seq<Entry> { Filtered(b, Unexpired(now)) }

  /** Is the bucket among the `n` that start at the cursor, going round? */
  predicate InSlice(h: nat, cursor: nat, n: nat) { (h + SIZE - cursor % SIZE) % SIZE < n }

  function SliceSwept(t: seq<seq<Entry>>, cursor: nat, n: nat, now: uint64): (r: seq<seq<Entry>>)
    requires |t| == SIZE
    ensures |r| == SIZE && forall h :: 0 <= h < SIZE ==> r[h] == if InSlice(h, cursor, n) then Swept(t[h], now) else t[h]
  {
    seq(SIZE, h requires 0 <= h < SIZE => if InSlice(h, cursor, n) then Swept(t[h], now) else t[h])
  }

  lemma SliceStart(t: seq<seq<Entry>>, cursor: nat, now: uint64)
    requires |t| == SIZE
    ensures SliceSwept(t, cursor, 0, now) == t
  {
  }

  lemma SliceStep(t: seq<seq<Entry>>, cursor: nat, k: nat, now: uint64)
    requires |t| == SIZE && cursor < SIZE
    ensures var h := (cursor + k) % SIZE;
            var s := SliceSwept(t, cursor, k, now);
            SliceSwept(t, cursor, k + 1, now) == s[h := Swept(s[h], now)]
  {
    hide Filtered;
    var h := (cursor + k) % SIZE;
    FilteredTwice(t[h], Unexpired(now));
    forall x | 0 <= x < SIZE ensures InSlice(x, cursor, k + 1) <==> InSlice(x, cursor, k) || x == h {
    }
  }

  lemma SliceOk(t: seq<seq<Entry>>, cursor: nat, n: nat, now: uint64)
    requires TableOk(t)
    ensures TableOk(SliceSwept(t, cursor, n, now))
  {
    var r := SliceSwept(t, cursor, n, now);
    hide HashOf, SliceSwept, Distinct, InSlice;
    forall h | 0 <= h < SIZE ensures NoDuplicates(r[h]) && forall i :: 0 <= i < |r[h]| ==> HashOf(r[h][i].id) == h {
      FilteredDistinct(t[h], Unexpired(now), IdOf);
      forall i | 0 <= i < |r[h]| ensures HashOf(r[h][i].id) == h {
        FilteredMembers(t[h], Unexpired(now), r[h][i]);
        assert r[h][i] in r[h];
      }
    }
  }

  lemma LookupMember(b: seq<Entry>, e: Entry)
    requires NoDuplicates(b)
    ensures e in b <==> Lookup(b, e.id) == Some(e.flow)
  {
    var i := Position(b, e.id);
    if e in b {
      var j :| 0 <= j < |b| && b[j] == e;
      PositionIs(b, e.id, j);
    }
  }

  lemma LookupSwept(b: seq<Entry>, now: uint64, id: Id)
    requires NoDuplicates(b)
    ensures var f := Lookup(b, id);
            Lookup(Swept(b, now), id) == if f.Some? && Expired(f.value, now) then None else f
  {
    hide Distinct, Filtered, Lookup, Expired;
    FilteredDistinct(b, Unexpired(now), IdOf);
    var f, g := Lookup(b, id), Lookup(Swept(b, now), id);
    if f.Some? {
      LookupMember(b, Entry(id, f.value));
      FilteredMembers(b, Unexpired(now), Entry(id, f.value));
      LookupMember(Swept(b, now), Entry(id, f.value));
    }
    if g.Some? {
      LookupMember(Swept(b, now), Entry(id, g.value));
      FilteredMembers(b, Unexpired(now), Entry(id, g.value));
      LookupMember(b, Entry(id, g.value));
    }
  }

  /** A slice removes from the map exactly the expired flows of the buckets it scans. */
  lemma SliceFinds(t: seq<seq<Entry>>, cursor: nat, n: nat, now: uint64, id: Id)
    requires TableOk(t)
    ensures var f := Find(t, id);
            Find(SliceSwept(t, cursor, n, now), id)
            == if InSlice(HashOf(id), cursor, n) && f.Some? && Expired(f.value, now) then None else f
  {
    var h := HashOf(id);
    hide HashOf, Lookup, Filtered, Expired, InSlice;
    LookupSwept(t[h], now, id);
  }

  /** Where the cursor stands after `k` slices of `n` buckets. */
  function CursorAfter(cursor: nat, n: nat, k: nat): nat {
    if k == 0 then cursor % SIZE else (CursorAfter(cursor, n, k - 1) + n) % SIZE
  }

  lemma {:induction false} CursorIs(cursor: nat, n: nat, k: nat)
    ensures CursorAfter(cursor, n, k) == (cursor + k * n) % SIZE
  {
    if k > 0 {
      CursorIs(cursor, n, k - 1);
      var done := (k - 1) * n;
      MulStep(k, n);
      ModStep(cursor + done, n);
      assert CursorAfter(cursor, n, k) == ((cursor + done) % SIZE + n) % SIZE;
      hide CursorAfter;
    }
  }

  lemma MulStep(k: nat, n: nat)
    requires k > 0
    ensures k * n == (k - 1) * n + n
  {
  }

  lemma ModStep(a: nat, n: nat)
    ensures (a % SIZE + n) % SIZE == (a + n) % SIZE
  {
  }

  /** Slices of any positive length reach every bucket within one turn of the cursor. */
  lemma EveryBucketScanned(h: nat, cursor: nat, n: nat) returns (k: nat)
    requires h < SIZE && n > 0
    ensures k * n < SIZE && InSlice(h, CursorAfter(cursor, n, k), n)
  {
    var d := (h + SIZE - cursor % SIZE) % SIZE;
    k := d / n;
    assert d == k * n + d % n;
    CursorIs(cursor, n, k);
    assert k * n <= d;
    DistanceLeft(h, cursor, k * n, d);
  }

  lemma DistanceLeft(h: nat, cursor: nat, moved: nat, d: nat)
    requires h < SIZE && d == (h + SIZE - cursor % SIZE) % SIZE && moved <= d
    ensures (h + SIZE - (cursor + moved) % SIZE % SIZE) % SIZE == d - moved
  {
  }

  /* What callers get */

  /** Every answer is an allowed WAN, and one with a positive weight if there is any, even when the pool has changed. */
  lemma AnswerAllowed(p: Pool, sizes: seq<uint32>, found: Option<Flow>, h: nat, len: uint32, now: uint64)
    requires Wellformed(p)
    ensures var wan := Next(p, sizes, found, h, len, now).1;
            exists i :: 0 <= i < |p.wans| && p.wans[i] == wan && (Sum(p.weights) > 0 ==> p.weights[i] > 0)
  {
    hide Tallied, NextOf;
    match found
    case Some(f) =>
      var g := Settled(p, f);
      if Allowed(p, f.wan) {
        var i := PosOf(p.wans, f.wan).value;
        assert p.wans[i] == g.wan;
      } else {
        assert p.wans[FirstPositive(p.weights)] == g.wan;
      }
    case None =>
      if Sum(p.weights) > 0 {
        var i := SlotPos(p.weights, h % Sum(p.weights));
        OneOwner(p.weights, i, i, h % Sum(p.weights));
      } else {
        assert p.wans[h % |p.wans|] == Opened(p, sizes, h, len, now).1;
      }
  }

  function Total(lens: seq<uint32>): nat {
    if lens == [] then 0 else Total(lens[..|lens| - 1]) + lens[|lens| - 1]
  }

  /** A flow after packets of these lengths, all at pool `p`. */
  function FlowAfter(p: Pool, sizes: seq<uint32>, f: Flow, lens: seq<uint32>, now: uint64): Flow
    requires Wellformed(p)
  {
    if lens == [] then f
    else Charged(p, sizes, FlowAfter(p, sizes, f, lens[..|lens| - 1], now), lens[|lens| - 1], now).0
  }

  /** A flow on an allowed WAN with a limit it has not reached. */
  predicate OnStint(p: Pool, sizes: seq<uint32>, f: Flow)
    requires Wellformed(p)
  {
    Allowed(p, f.wan) && f.bytes < Limit(p, sizes, f.wan)
  }

  /**
   * A flow keeps its WAN exactly as long as the bytes since its last move stay under the limit; the packet
   * that reaches it still goes to that WAN, and the next WAN of the rotation starts from zero.
   */
  lemma {:induction false} StintEnds(p: Pool, sizes: seq<uint32>, f: Flow, lens: seq<uint32>, now: uint64)
    requires Wellformed(p) && OnStint(p, sizes, f) && lens != []
    requires f.bytes + Total(lens[..|lens| - 1]) < Limit(p, sizes, f.wan)
    requires f.bytes + Total(lens) < 0x1_0000_0000
    ensures var g := FlowAfter(p, sizes, f, lens[..|lens| - 1], now);
            Charged(p, sizes, g, lens[|lens| - 1], now).1 == f.wan && g.wan == f.wan && g.bytes == f.bytes + Total(lens[..|lens| - 1])
    ensures var g := FlowAfter(p, sizes, f, lens, now);
            if f.bytes + Total(lens) < Limit(p, sizes, f.wan) then g.wan == f.wan && g.bytes == f.bytes + Total(lens)
            else g.bytes == 0 && g.wan == p.wans[NextEnabled(p.weights, PosOf(p.wans, f.wan).value)]
    decreases |lens|
  {
    hide Limit, NextEnabled, PosOf, Allowed, Charged;
    var init, last := lens[..|lens| - 1], lens[|lens| - 1];
    if init != [] {
      StintEnds(p, sizes, f, init, now);
    }
    StintStep(p, sizes, FlowAfter(p, sizes, f, init, now), last, now);
  }

  lemma StintStep(p: Pool, sizes: seq<uint32>, f: Flow, len: uint32, now: uint64)
    requires Wellformed(p) && OnStint(p, sizes, f) && f.bytes + len < 0x1_0000_0000
    ensures PosOf(p.wans, f.wan).Some?
    ensures var (g, wan) := Charged(p, sizes, f, len, now);
            wan == f.wan
            && if f.bytes + len < Limit(p, sizes, f.wan) then g.wan == f.wan && g.bytes == f.bytes + len
               else g.bytes == 0 && g.wan == p.wans[NextEnabled(p.weights, PosOf(p.wans, f.wan).value)]
  {
    hide Limit, NextEnabled, PosOf;
  }

  /**
   * The bytes of a stint that starts from zero lie between the limit and the limit plus the last packet, so
   * they are the WAN's share of its window, to within one packet and one byte.
   */
  lemma StintBytes(p: Pool, sizes: seq<uint32>, wan: int, i: nat, lens: seq<uint32>)
    requires Wellformed(p) && Allowed(p, wan) && PosOf(p.wans, wan) == Some(i) && Sum(p.weights) > 0
    requires 0 <= wan < |sizes| && sizes[wan] > 0 && lens != []
    requires Total(lens[..|lens| - 1]) < Limit(p, sizes, wan) <= Total(lens)
    ensures var share, sum, last := sizes[wan] * p.weights[i], Sum(p.weights), lens[|lens| - 1];
            share - sum < Total(lens) * sum < share + (last + 1) * sum
  {
    var limit, sum, last := Limit(p, sizes, wan), Sum(p.weights), lens[|lens| - 1];
    var share := sizes[wan] * p.weights[i];
    assert limit == ShareOf(sizes[wan], p.weights, i);
    hide Limit, ShareOf, Sum, PosOf;
    TimesLess(share, limit, Total(lens), last, sum);
  }

  lemma TimesLess(share: nat, l: nat, b: nat, last: nat, sum: nat)
    requires sum > 0 && l >= 1 && share < (l + 1) * sum && (l - 1) * sum < share && l <= b < l + last
    ensures share - sum < b * sum < share + (last + 1) * sum
  {
    assert (l + 1) * sum == l * sum + sum;
    assert b * sum == l * sum + (b - l) * sum;
    assert (b - l) * sum <= last * sum;
    assert (last + 1) * sum == last * sum + sum;
    assert (l - 1) * sum == l * sum - sum;
  }
}
