/** What the flow table does over time and over many flows, said without its own terms. */
module FlowLaws {
  import opened Bytes
  import opened Modular
  import opened WanPool
  import opened FlowTable
  import opened Rotation

  /* Expiry */

  /** A packet leaves its own time in the flow's entry, whether the flow is known, new or by address only. */
  lemma SeenIsNow(p: Pool, sizes: seq<uint32>, found: Option<Flow>, h: nat, first: int, len: uint32, now: uint64)
    requires Wellformed(p)
    ensures Next(p, sizes, found, h, len, now).0.seen == now && NextByIps(sizes, found, first, len, now).seen == now
  {
    hide Limit, NextOf, Settled, PosOf, SlotPos, Sum;
  }

  /** Between time `t` and a later time the 64-bit difference is the difference. */
  lemma ExpiredIs(f: Flow, now: uint64)
    requires f.seen <= now
    ensures Expired(f, now) <==> now > f.seen + 60
  {
  }

  /** A slice of the sweep at `now` drops a flow of the scanned buckets exactly if its last packet is more than 60 seconds old. */
  lemma DroppedAfter60(t: seq<seq<Entry>>, id: Id, f: Flow, cursor: nat, n: nat, now: uint64)
    requires TableOk(t) && f.seen <= now
    ensures Find(SliceSwept(Updated(t, id, f), cursor, n, now), id)
         == if InSlice(HashOf(id), cursor, n) && now > f.seen + 60 then None else Some(f)
  {
    assert |t| == SIZE;
    hide TableOk, Find, Updated, SliceSwept, InSlice, HashOf, Expired;
    UpdatedOk(t, id, f);
    UpdatedFinds(t, id, f, id);
    SliceFinds(Updated(t, id, f), cursor, n, now, id);
    ExpiredIs(f, now);
  }

  /** The buckets that a slice scans, in numbers. */
  lemma SliceBuckets(h: nat, cursor: nat, n: nat)
    requires h < SIZE && cursor < SIZE && n <= SIZE
    ensures InSlice(h, cursor, n) <==> (cursor <= h < cursor + n || h + SIZE < cursor + n)
  {
  }

  /* Opening */

  /** How many of the `n` hash values from `h` on open a new flow on the WAN. */
  function Openings(p: Pool, sizes: seq<uint32>, wan: int, h: nat, n: nat): nat
    requires Wellformed(p)
  {
    if n == 0 then 0
    else Openings(p, sizes, wan, h, n - 1) + if Opened(p, sizes, h + n - 1, 0, 0).1 == wan then 1 else 0
  }

  /** Where a new flow opens depends on its hash and the pool alone: the position whose share the hash falls into. */
  lemma OpensAt(p: Pool, sizes: seq<uint32>, h: nat, len: uint32, now: uint64)
    requires Wellformed(p)
    ensures Sum(Shares(p)) > 0 && SlotPos(Shares(p), h % Sum(Shares(p))) < |p.wans|
    ensures Opened(p, sizes, h, len, now).1 == p.wans[SlotPos(Shares(p), h % Sum(Shares(p)))]
  {
    hide Tallied, PosOf;
    SharesPositive(p);
    if Sum(p.weights) == 0 {
      SharesEqual(p, |p.wans|);
      var s := h % |p.wans|;
      SharesEqual(p, s);
      SharesEqual(p, s + 1);
      OneOwner(Shares(p), SlotPos(Shares(p), s), s, s);
    }
  }

  lemma {:induction false} OpeningsAreHits(p: Pool, sizes: seq<uint32>, i: nat, h: nat, n: nat)
    requires Wellformed(p) && DistinctWans(p) && i < |p.wans| && Sum(Shares(p)) > 0
    ensures Openings(p, sizes, p.wans[i], h, n) == Hits(Shares(p), h, n, i)
    decreases n
  {
    hide Opened, Shares, Sum;
    if n > 0 {
      OpeningsAreHits(p, sizes, i, h, n - 1);
      OpensAt(p, sizes, h + n - 1, 0, 0);
      var j := SlotPos(Shares(p), (h + n - 1) % Sum(Shares(p)));
      PosOfDistinct(p, i);
      PosOfDistinct(p, j);
      hide SlotPos, PosOf;
    }
  }

  /**
   * New flows are spread by weight: of any Sum(weights) consecutive hash values each WAN of positive weight gets its
   * weight and the others none; when no weight is positive, of any |wans| values each WAN gets one.
   */
  lemma OpensByWeight(p: Pool, sizes: seq<uint32>, i: nat, h: nat)
    requires Wellformed(p) && DistinctWans(p) && i < |p.wans|
    ensures Sum(p.weights) > 0 ==>
              Openings(p, sizes, p.wans[i], h, Sum(p.weights)) == if p.weights[i] > 0 then p.weights[i] else 0
    ensures Sum(p.weights) == 0 ==> Openings(p, sizes, p.wans[i], h, |p.wans|) == 1
  {
    hide Openings, Hits, DistinctWans;
    SharesPositive(p);
    if Sum(p.weights) == 0 {
      SharesEqual(p, |p.wans|);
    }
    OpeningsAreHits(p, sizes, i, h, Sum(Shares(p)));
    PerPacketShare(Shares(p), h, i);
  }

  /* Flows by address only */

  /** How often a flow has moved on, and the bytes since then. */
  datatype Ride = Ride(turns: nat, bytes: nat)

  /** The WAN after `k` turns from `first`: one after the other, going round. */
  function WanAfter(count: nat, first: nat, k: nat): nat
    requires count > 0
  {
    (first + k) % count
  }

  /** A packet of a flow that moves on as soon as the window of its WAN, if it has one, is used up. */
  function RideNext(sizes: seq<uint32>, first: nat, r: Ride, len: nat): Ride
    requires sizes != []
  {
    var window := sizes[WanAfter(|sizes|, first, r.turns)];
    if 0 < window <= r.bytes + len then Ride(r.turns + 1, 0) else Ride(r.turns, r.bytes + len)
  }

  function RideAfter(sizes: seq<uint32>, first: nat, lens: seq<uint32>): Ride
    requires sizes != []
  {
    if lens == [] then Ride(0, 0) else RideNext(sizes, first, RideAfter(sizes, first, lens[..|lens| - 1]), lens[|lens| - 1])
  }

  /** The same packets through the table's entry. */
  function IpsAfter(sizes: seq<uint32>, f: Flow, lens: seq<uint32>, now: uint64): Flow {
    if lens == [] then f
    else ChargedByIps(sizes, IpsAfter(sizes, f, lens[..|lens| - 1], now), lens[|lens| - 1], now)
  }

  lemma WanAfterNext(count: nat, first: nat, k: nat)
    requires count > 0
    ensures (WanAfter(count, first, k) + 1) % count == WanAfter(count, first, k + 1)
  {
    var q, r := DivParts(first + k, count);
    if r + 1 < count {
      DivUnique(first + k + 1, count, q, r + 1);
      ModSmall(r + 1, count);
    } else {
      assert (q + 1) * count == q * count + count;
      DivUnique(first + k + 1, count, q + 1, 0);
      DivUnique(r + 1, count, 1, 0);
    }
  }

  predicate Fits(window: nat, len: nat) { window + len <= 0x1_0000_0000 }

  /** Windows so small that no packet makes a byte count wrap around. */
  predicate Modest(sizes: seq<uint32>, lens: seq<uint32>) {
    forall w, n :: 0 <= w < |sizes| && 0 <= n < |lens| ==> Fits(sizes[w], lens[n])
  }

  /**
   * A flow by address only goes round all WANs in order, moving on exactly when the bytes since it came reach the
   * window, and never from one without a window; between packets the bytes are below the window.
   */
  lemma {:induction false} IpsGoRound(sizes: seq<uint32>, f: Flow, lens: seq<uint32>, now: uint64)
    requires sizes != [] && 0 <= f.wan < |sizes| && f.bytes == 0 && Modest(sizes, lens)
    ensures var r, g := RideAfter(sizes, f.wan, lens), IpsAfter(sizes, f, lens, now);
            g.wan == WanAfter(|sizes|, f.wan, r.turns) && 0 <= g.wan < |sizes|
            && (sizes[g.wan] > 0 ==> g.bytes == r.bytes < sizes[g.wan])
  {
    WanAfterStart(|sizes|, f.wan);
    hide WanAfter, Fits;
    if lens != [] {
      var n := |lens| - 1;
      IpsGoRound(sizes, f, lens[..n], now);
      var r := RideAfter(sizes, f.wan, lens[..n]);
      WanAfterNext(|sizes|, f.wan, r.turns);
      IpsStep(sizes, IpsAfter(sizes, f, lens[..n], now), f.wan, r, lens[n], now);
      hide ChargedByIps, RideNext;
    }
  }

  lemma WanAfterStart(count: nat, first: nat)
    requires first < count
    ensures WanAfter(count, first, 0) == first && forall k: nat :: WanAfter(count, first, k) < count
  {
    ModSmall(first, count);
  }

  lemma IpsStep(sizes: seq<uint32>, g: Flow, first: nat, r: Ride, len: uint32, now: uint64)
    requires sizes != [] && 0 <= g.wan < |sizes| && g.wan == WanAfter(|sizes|, first, r.turns)
    requires forall w :: 0 <= w < |sizes| ==> Fits(sizes[w], len)
    requires (sizes[g.wan] > 0 ==> g.bytes == r.bytes < sizes[g.wan]) && (g.wan + 1) % |sizes| == WanAfter(|sizes|, first, r.turns + 1)
    ensures var g2, r2 := ChargedByIps(sizes, g, len, now), RideNext(sizes, first, r, len);
            g2.wan == WanAfter(|sizes|, first, r2.turns) && 0 <= g2.wan < |sizes|
            && (sizes[g2.wan] > 0 ==> g2.bytes == r2.bytes < sizes[g2.wan])
  {
    hide WanAfter;
  }

  /* Entries and hashes */

  /** The bytes of an address are taken in the other order. */
  lemma SwappedBytes(a: bv32, b: bv32, c: bv32, d: bv32)
    requires a < 256 && b < 256 && c < 256 && d < 256
    ensures Swapped((a << 24) | (b << 16) | (c << 8) | d) == (d << 24) | (c << 16) | (b << 8) | a
  {
  }

  /** A TCP flow from 10.1.2.3:12345 to 192.168.77.250:443, and its two addresses alone. */
  lemma HashOfMixedBytes()
    ensures FlowBits(0x0A01_0203, 0xC0A8_4DFA, 12345, 443, 6) == 0x00FD_90C0
    ensures IpsBits(0x0A01_0203, 0xC0A8_4DFA) == 0xD70B_61B4
  {
  }

  /** The position that the flow's entry names is that of its WAN. */
  predicate AtItsPosition(p: Pool, f: Flow) { 0 <= f.slot < |p.wans| && p.wans[f.slot] == f.wan }

  /** While the pool stays the same, every packet leaves the position of the flow's WAN in the entry. */
  lemma SlotFollowsWan(p: Pool, sizes: seq<uint32>, found: Option<Flow>, h: nat, len: uint32, now: uint64)
    requires Wellformed(p) && (found.Some? ==> AtItsPosition(p, found.value))
    ensures AtItsPosition(p, Next(p, sizes, found, h, len, now).0)
  {
    hide Limit, FirstPositive, SlotPos, Sum;
    if found == None {
      OpenedSlot(p, sizes, h, len, now);
    }
  }

  lemma OpenedSlot(p: Pool, sizes: seq<uint32>, h: nat, len: uint32, now: uint64)
    requires Wellformed(p)
    ensures AtItsPosition(p, Opened(p, sizes, h, len, now).0)
  {
    hide Limit, FirstPositive, Sum;
  }

  /**
   * A flow whose WAN is no longer allowed starts again, with no bytes counted, on the first position of positive weight,
   * or on the first of all if there is none.
   */
  lemma MovedStartsAnew(p: Pool, sizes: seq<uint32>, f: Flow, k: nat, len: uint32, now: uint64)
    requires Wellformed(p) && !Allowed(p, f.wan) && k < |p.wans| && IsFirstPositive(p.weights, k)
    ensures Charged(p, sizes, f, len, now) == (Tallied(p, sizes, p.wans[k], k, len, now), p.wans[k])
  {
    hide Tallied, Sum;
    assert FirstPositive(p.weights) <= k <= FirstPositive(p.weights);
    ModSmall(len, 0x1_0000_0000);
  }
}
