/**
 * A flow going round its WANs: whole runs of packets through `flow_table_get_wan_profile` with a fixed pool.
 */
module Rotation {
  import opened Bytes
  import opened Modular
  import opened WanPool
  import opened FlowTable

  datatype Packet = Packet(len: uint32, now: uint64)

  /** A pool, the window sizes, a flow that starts at position `pos`, and the packets it carries. */
  datatype Trip = Trip(pool: Pool, sizes: seq<uint32>, flow: Flow, pos: nat, packets: seq<Packet>)

  predicate DistinctWans(p: Pool) { forall i, j :: 0 <= i < j < |p.wans| ==> p.wans[i] != p.wans[j] }

  /** The weights a flow goes by: when none is positive, all WANs count alike. */
  function Shares(p: Pool): (ws: seq<int>)
    ensures Wellformed(p) ==> |ws| == |p.wans|
  {
    if Sum(p.weights) > 0 then p.weights else seq(|p.wans|, _ => 1)
  }

  lemma SharesEqual(p: Pool, n: nat)
    requires Wellformed(p) && Sum(p.weights) == 0 && n <= |p.wans|
    ensures Before(Shares(p), n) == n
  {
    if n > 0 {
      SharesEqual(p, n - 1);
    }
  }

  lemma SharesPositive(p: Pool)
    requires Wellformed(p)
    ensures Sum(Shares(p)) > 0
  {
    if Sum(p.weights) == 0 {
      SharesEqual(p, |p.wans|);
    }
  }

  /** Going by the shares is what the code does. */
  lemma NextByShares(p: Pool, i: nat)
    requires Wellformed(p) && i < |p.wans|
    ensures NextEnabled(p.weights, i) == NextEnabled(Shares(p), i)
  {
    SharesPositive(p);
    if Sum(p.weights) == 0 {
      assert Around(Shares(p), i, 1) == 1;
      assert NextFrom(Shares(p), i, 1) == (i + 1) % |p.wans|;
    }
  }

  /** The limit of the WAN at a position. */
  function LimitAt(t: Trip, i: nat): uint32
    requires Wellformed(t.pool) && i < |t.pool.wans|
  {
    Limit(t.pool, t.sizes, t.pool.wans[i])
  }

  /**
   * The trips the theorems are about: distinct WANs, a start with no bytes on an enabled WAN, and limits so
   * far below 2^32 that no packet makes a byte count wrap around.
   */
  ghost predicate Proper(t: Trip) {
    Wellformed(t.pool) && DistinctWans(t.pool) && Enabled(Shares(t.pool), t.pos)
    && t.flow.wan == t.pool.wans[t.pos] && t.flow.bytes == 0
    && forall i, n :: 0 <= i < |t.pool.wans| && 0 <= n < |t.packets| ==> LimitAt(t, i) + t.packets[n].len <= 0x1_0000_0000
  }

  /** The flow after the first `n` packets. */
  function FlowAt(t: Trip, n: nat): Flow
    requires Wellformed(t.pool) && n <= |t.packets|
  {
    if n == 0 then t.flow else Charged(t.pool, t.sizes, FlowAt(t, n - 1), t.packets[n - 1].len, t.packets[n - 1].now).0
  }

  /** The WAN that packet `n` is sent to. */
  function AnswerAt(t: Trip, n: nat): int
    requires Wellformed(t.pool) && n < |t.packets|
  {
    Charged(t.pool, t.sizes, FlowAt(t, n), t.packets[n].len, t.packets[n].now).1
  }

  /** Does packet `n` use up what the flow's WAN is given? */
  predicate UsesUp(t: Trip, n: nat)
    requires Wellformed(t.pool) && n < |t.packets|
  {
    var f := FlowAt(t, n);
    0 < Limit(t.pool, t.sizes, f.wan) <= f.bytes + t.packets[n].len
  }

  /** How many stints are over after `n` packets. */
  function StintAt(t: Trip, n: nat): nat
    requires Wellformed(t.pool) && n <= |t.packets|
  {
    if n == 0 then 0 else StintAt(t, n - 1) + if UsesUp(t, n - 1) then 1 else 0
  }

  /** The position of stint `k`. */
  function PosAt(t: Trip, k: nat): (i: nat)
    requires Enabled(Shares(t.pool), t.pos)
    ensures Enabled(Shares(t.pool), i)
  {
    Turns(Shares(t.pool), t.pos, k)
  }

  /* One packet */

  lemma PosOfDistinct(p: Pool, i: nat)
    requires DistinctWans(p) && i < |p.wans|
    ensures PosOf(p.wans, p.wans[i]) == Some(i)
  {
    PosOfFirst(p.wans, p.wans[i], i);
  }

  /** A packet of a flow on an enabled WAN. */
  lemma OnePacket(p: Pool, sizes: seq<uint32>, f: Flow, i: nat, len: uint32, now: uint64)
    requires Wellformed(p) && DistinctWans(p) && Enabled(Shares(p), i) && f.wan == p.wans[i]
    ensures var (g, wan) := Charged(p, sizes, f, len, now);
            var limit, count := Limit(p, sizes, f.wan), (f.bytes + len) % 0x1_0000_0000;
            wan == f.wan
            && if 0 < limit <= count then g.bytes == 0 && g.wan == p.wans[NextEnabled(Shares(p), i)]
               else g.bytes == count && g.wan == f.wan
  {
    hide Limit, NextEnabled;
    PosOfDistinct(p, i);
    NextByShares(p, i);
    hide PosOf, Sum;
  }

  /** The state of a trip: on the WAN of its stint, below that WAN's limit if it has one. */
  lemma {:induction false} OnCourse(t: Trip, n: nat)
    requires Proper(t) && n <= |t.packets|
    ensures var f, i := FlowAt(t, n), PosAt(t, StintAt(t, n));
            i < |t.pool.wans| && f.wan == t.pool.wans[i] && (LimitAt(t, i) > 0 ==> f.bytes < LimitAt(t, i))
  {
    hide Limit, Charged, Turns, NextEnabled, DistinctWans;
    if n == 0 {
      CourseStart(t);
    } else {
      OnCourse(t, n - 1);
      CourseStep(t, n - 1);
      hide FlowAt, StintAt;
    }
  }

  lemma CourseStart(t: Trip)
    requires Enabled(Shares(t.pool), t.pos)
    ensures PosAt(t, 0) == t.pos
  {
  }

  lemma PosNext(t: Trip, k: nat)
    requires Enabled(Shares(t.pool), t.pos)
    ensures PosAt(t, k + 1) == NextEnabled(Shares(t.pool), PosAt(t, k))
  {
    hide NextEnabled;
  }

  /** One packet of a trip on course. */
  lemma CourseStep(t: Trip, n: nat)
    requires Proper(t) && n < |t.packets|
    requires var f, i := FlowAt(t, n), PosAt(t, StintAt(t, n));
             i < |t.pool.wans| && f.wan == t.pool.wans[i] && (LimitAt(t, i) > 0 ==> f.bytes < LimitAt(t, i))
    ensures var f, g, i, j := FlowAt(t, n), FlowAt(t, n + 1), PosAt(t, StintAt(t, n)), PosAt(t, StintAt(t, n + 1));
            j < |t.pool.wans| && AnswerAt(t, n) == f.wan && g.wan == t.pool.wans[j]
            && (UsesUp(t, n) ==> j == NextEnabled(Shares(t.pool), i) && g.bytes == 0)
            && (!UsesUp(t, n) ==> j == i && (LimitAt(t, i) > 0 ==> g.bytes == f.bytes + t.packets[n].len < LimitAt(t, i)))
  {
    hide Charged, Limit, NextEnabled, Turns;
    var f, k := FlowAt(t, n), StintAt(t, n);
    var i := PosAt(t, k);
    OnePacket(t.pool, t.sizes, f, i, t.packets[n].len, t.packets[n].now);
    PosNext(t, k);
    hide DistinctWans, PosAt;
    assert StintAt(t, n + 1) == if UsesUp(t, n) then k + 1 else k;
    hide StintAt;
    assert LimitAt(t, i) + t.packets[n].len <= 0x1_0000_0000;
  }

  /* The sequence of WANs */

  /** Packet `n` goes to the WAN of the stint it falls into: the WANs answered are those of the rotation, in order. */
  lemma AnswersRotate(t: Trip, n: nat)
    requires Proper(t) && n < |t.packets|
    ensures PosAt(t, StintAt(t, n)) < |t.pool.wans| && AnswerAt(t, n) == t.pool.wans[PosAt(t, StintAt(t, n))]
  {
    hide Limit, Charged, Turns, NextEnabled, DistinctWans, PosAt, StintAt, FlowAt, AnswerAt;
    OnCourse(t, n);
    CourseStep(t, n);
  }

  /* The bytes of a stint */

  /** What the first `n` packets carry in stint `k`. */
  function BytesIn(t: Trip, n: nat, k: nat): nat
    requires Wellformed(t.pool) && n <= |t.packets|
  {
    if n == 0 then 0 else BytesIn(t, n - 1, k) + if StintAt(t, n - 1) == k then t.packets[n - 1].len else 0
  }

  /** The length of the last of the first `n` packets that falls into stint `k`. */
  function LastIn(t: Trip, n: nat, k: nat): nat
    requires Wellformed(t.pool) && n <= |t.packets|
  {
    if n == 0 then 0 else if StintAt(t, n - 1) == k then t.packets[n - 1].len else LastIn(t, n - 1, k)
  }

  /** What is known of the bytes of stint `k` after `n` packets. */
  ghost predicate Carried(t: Trip, n: nat, k: nat)
    requires Proper(t) && n <= |t.packets| && PosAt(t, k) < |t.pool.wans|
  {
    var limit, b := LimitAt(t, PosAt(t, k)), BytesIn(t, n, k);
    if k < StintAt(t, n) then 0 < limit <= b < limit + LastIn(t, n, k)
    else if k == StintAt(t, n) then limit > 0 ==> b == FlowAt(t, n).bytes < limit
    else b == 0
  }

  /**
   * A stint that is over carried at least the limit of its WAN and less than that plus its last packet; the
   * one under way has carried what the flow counts.
   */
  lemma StintBytesExact(t: Trip, n: nat, k: nat)
    requires Proper(t) && n <= |t.packets|
    ensures PosAt(t, k) < |t.pool.wans|
    ensures var limit, b := LimitAt(t, PosAt(t, k)), BytesIn(t, n, k);
            if k < StintAt(t, n) then 0 < limit <= b < limit + LastIn(t, n, k)
            else if k == StintAt(t, n) then limit > 0 ==> b == FlowAt(t, n).bytes < limit
            else b == 0
  {
    CarriedAlways(t, n, k);
    hide Limit, FlowAt, StintAt, PosAt, BytesIn, LastIn, Proper;
  }

  lemma {:induction false} CarriedAlways(t: Trip, n: nat, k: nat)
    requires Proper(t) && n <= |t.packets|
    ensures PosAt(t, k) < |t.pool.wans| && Carried(t, n, k)
  {
    hide Proper, Carried, PosAt;
    if n > 0 {
      CarriedAlways(t, n - 1, k);
      CarriedNext(t, n - 1, k);
    } else {
      CarriedFirst(t, k);
    }
  }

  lemma CarriedFirst(t: Trip, k: nat)
    requires Proper(t)
    ensures PosAt(t, k) < |t.pool.wans| && Carried(t, 0, k)
  {
    hide Limit, Turns;
  }

  lemma CarriedNext(t: Trip, n: nat, k: nat)
    requires Proper(t) && n < |t.packets| && PosAt(t, k) < |t.pool.wans| && Carried(t, n, k)
    ensures Carried(t, n + 1, k)
  {
    assert Wellformed(t.pool);
    hide Limit, FlowAt, PosAt, Proper, UsesUp, Wellformed, StintAt, BytesIn, LastIn;
    OnCourse(t, n);
    CourseStep(t, n);
    BytesMore(t, n, k);
  }

  lemma BytesMore(t: Trip, n: nat, k: nat)
    requires Wellformed(t.pool) && n < |t.packets|
    ensures StintAt(t, n + 1) == if UsesUp(t, n) then StintAt(t, n) + 1 else StintAt(t, n)
    ensures BytesIn(t, n + 1, k) == BytesIn(t, n, k) + if StintAt(t, n) == k then t.packets[n].len else 0
    ensures LastIn(t, n + 1, k) == if StintAt(t, n) == k then t.packets[n].len else LastIn(t, n, k)
  {
    hide UsesUp;
  }

  /* One rotation */

  lemma {:induction false} TurnsAdd(ws: seq<int>, pos: nat, a: nat, k: nat)
    requires Enabled(ws, pos)
    ensures Turns(ws, Turns(ws, pos, a), k) == Turns(ws, pos, a + k)
    decreases k
  {
    hide NextEnabled;
    if k > 0 {
      TurnsAdd(ws, pos, a, k - 1);
    }
  }

  /** Among as many consecutive stints as there are enabled WANs, each of these has exactly one. */
  lemma VisitedOnce(t: Trip, lo: nat, i: nat) returns (k: nat)
    requires Enabled(Shares(t.pool), t.pos) && Enabled(Shares(t.pool), i)
    ensures lo <= k < lo + Ranks(Shares(t.pool)) && PosAt(t, k) == i
    ensures forall j :: lo <= j < lo + Ranks(Shares(t.pool)) && PosAt(t, j) == i ==> j == k
  {
    hide Turns, Rank, Ranks;
    var ws, start := Shares(t.pool), PosAt(t, lo);
    var d := TurnTo(ws, start, i);
    k := lo + d;
    TurnsAdd(ws, t.pos, lo, d);
    forall j | lo <= j < lo + Ranks(ws) && PosAt(t, j) == i ensures j == k {
      TurnsAdd(ws, t.pos, lo, j - lo);
      TurnOnce(ws, start, j - lo, d);
    }
  }

  /** What the first `n` packets send to the WAN at position `i` during the stints from `lo` up to `hi`. */
  function SentTo(t: Trip, n: nat, i: nat, lo: nat, hi: nat): nat
    requires Wellformed(t.pool) && n <= |t.packets| && i < |t.pool.wans|
  {
    if n == 0 then 0
    else SentTo(t, n - 1, i, lo, hi)
         + if AnswerAt(t, n - 1) == t.pool.wans[i] && lo <= StintAt(t, n - 1) < hi then t.packets[n - 1].len else 0
  }

  /** If only stint `k` of a stretch is at position `i`, what the WAN there is sent is what stint `k` carries. */
  lemma {:induction false} SentIsStint(t: Trip, n: nat, i: nat, lo: nat, hi: nat, k: nat)
    requires Proper(t) && n <= |t.packets| && i < |t.pool.wans| && lo <= k < hi
    requires PosAt(t, k) == i && forall j :: lo <= j < hi && PosAt(t, j) == i ==> j == k
    ensures SentTo(t, n, i, lo, hi) == BytesIn(t, n, k)
  {
    hide FlowAt, StintAt, PosAt, AnswerAt;
    if n > 0 {
      SentIsStint(t, n - 1, i, lo, hi, k);
      AnswersRotate(t, n - 1);
      SameWan(t, PosAt(t, StintAt(t, n - 1)), i);
      hide Proper;
    }
  }

  lemma SameWan(t: Trip, i: nat, j: nat)
    requires Proper(t) && i < |t.pool.wans| && j < |t.pool.wans|
    ensures t.pool.wans[i] == t.pool.wans[j] <==> i == j
  {
    PosOfDistinct(t.pool, i);
    PosOfDistinct(t.pool, j);
    hide DistinctWans, Limit, PosOf;
  }

  /**
   * An enabled WAN has a limit exactly when it has a window, which must be as large as the pool if no weight is
   * positive.
   */
  lemma LimitPositiveIff(t: Trip, i: nat)
    requires Wellformed(t.pool) && DistinctWans(t.pool) && Enabled(Shares(t.pool), i)
    ensures i < |t.pool.wans|
    ensures var wan, least := t.pool.wans[i], if Sum(t.pool.weights) > 0 then 1 else |t.pool.wans|;
            LimitAt(t, i) > 0 <==> 0 <= wan < |t.sizes| && t.sizes[wan] >= least
  {
    PosOfDistinct(t.pool, i);
    hide PosOf, Sum, ShareOf, DistinctWans;
    var wan, n := t.pool.wans[i], |t.pool.wans|;
    if 0 <= wan < |t.sizes| {
      QuotientPositive(t.sizes[wan], n);
    }
  }

  lemma QuotientPositive(x: nat, n: nat)
    requires n > 0
    ensures x / n > 0 <==> x >= n
  {
    var q, r := DivParts(x, n);
    if q > 0 {
      MulGrows(q, n);
    }
  }

  /** The limit is the WAN's share of its window, rounded down or up to one byte. */
  lemma LimitIsShare(t: Trip, i: nat)
    requires Wellformed(t.pool) && DistinctWans(t.pool) && Enabled(Shares(t.pool), i) && i < |t.pool.wans| && LimitAt(t, i) > 0
    ensures var wan, ws := t.pool.wans[i], Shares(t.pool);
            0 <= wan < |t.sizes| && Sum(ws) > 0
            && (LimitAt(t, i) - 1) * Sum(ws) < t.sizes[wan] * ws[i] < (LimitAt(t, i) + 1) * Sum(ws)
  {
    PosOfDistinct(t.pool, i);
    SharesPositive(t.pool);
    if Sum(t.pool.weights) == 0 {
      SharesEqual(t.pool, |t.pool.wans|);
      var n, l := |t.pool.wans|, LimitAt(t, i);
      var q, r := DivParts(t.sizes[t.pool.wans[i]], n);
      assert (l + 1) * n == l * n + n && (l - 1) * n == l * n - n;
    }
    hide PosOf, Sum, ShareOf, DistinctWans;
  }

  /**
   * In every stretch of a trip with as many finished stints as there are enabled WANs, each enabled WAN is
   * sent its share of its window, to within one byte and the last packet of its stint.
   */
  lemma RotationShare(t: Trip, i: nat, lo: nat) returns (k: nat, last: nat)
    requires Proper(t) && Enabled(Shares(t.pool), i) && StintAt(t, |t.packets|) >= lo + Ranks(Shares(t.pool))
    ensures lo <= k < lo + Ranks(Shares(t.pool)) && PosAt(t, k) == i < |t.pool.wans|
    ensures last < |t.packets| && StintAt(t, last) == k
    ensures var wan, ws := t.pool.wans[i], Shares(t.pool);
            0 <= wan < |t.sizes|
            && var sent, share, sum := SentTo(t, |t.packets|, i, lo, lo + Ranks(ws)), t.sizes[wan] * ws[i], Sum(ws);
               share - sum < sent * sum < share + (t.packets[last].len + 1) * sum
  {
    hide Limit, FlowAt, PosAt, StintAt, SentTo, BytesIn, LastIn, Ranks, ShareOf, Sum, DistinctWans, Shares;
    var n, ws := |t.packets|, Shares(t.pool);
    k := VisitedOnce(t, lo, i);
    StintBytesExact(t, n, k);
    SentIsStint(t, n, i, lo, lo + Ranks(ws), k);
    LimitIsShare(t, i);
    last := LastPacket(t, n, k);
    TimesLess(t.sizes[t.pool.wans[i]] * ws[i], LimitAt(t, i), BytesIn(t, n, k), LastIn(t, n, k), Sum(ws));
  }

  /** The last packet of a stint. */
  lemma {:induction false} LastPacket(t: Trip, n: nat, k: nat) returns (j: nat)
    requires Wellformed(t.pool) && n <= |t.packets| && BytesIn(t, n, k) > 0
    ensures j < n && StintAt(t, j) == k && t.packets[j].len == LastIn(t, n, k)
  {
    hide StintAt;
    j := n - 1;
    if StintAt(t, n - 1) != k {
      j := LastPacket(t, n - 1, k);
    }
  }

  /* When a flow goes round at all */

  /** Every enabled WAN has a window. */
  predicate AllLimited(t: Trip)
    requires Wellformed(t.pool)
  {
    forall i :: 0 <= i < |t.pool.wans| && Shares(t.pool)[i] > 0 ==> LimitAt(t, i) > 0
  }

  /** A flow that reaches a WAN without a window never leaves it. */
  lemma {:induction false} StuckAt(t: Trip, n: nat, k: nat)
    requires Proper(t) && n <= |t.packets| && PosAt(t, k) < |t.pool.wans| && LimitAt(t, PosAt(t, k)) == 0
    ensures StintAt(t, n) <= k
  {
    hide Limit, Charged, Turns, NextEnabled, DistinctWans, PosAt;
    if n > 0 {
      StuckAt(t, n - 1, k);
      OnCourse(t, n - 1);
      hide FlowAt, Proper;
    }
  }

  lemma {:induction false} PrefixSame(t: Trip, more: seq<Packet>, n: nat)
    requires Wellformed(t.pool) && n <= |t.packets|
    ensures var u := t.(packets := t.packets + more); FlowAt(u, n) == FlowAt(t, n) && StintAt(u, n) == StintAt(t, n)
  {
    hide Charged, Limit;
    if n > 0 {
      PrefixSame(t, more, n - 1);
    }
  }

  /** A trip with `m` packets of one byte more. */
  function WithOnes(t: Trip, m: nat): (u: Trip)
    ensures |u.packets| == |t.packets| + m
  {
    t.(packets := t.packets + seq(m, _ => Packet(1, 0)))
  }

  lemma OnesProper(t: Trip, m: nat)
    requires Proper(t)
    ensures Proper(WithOnes(t, m))
  {
    var u := WithOnes(t, m);
    hide Limit, DistinctWans;
    forall i, n | 0 <= i < |u.pool.wans| && 0 <= n < |u.packets| ensures LimitAt(u, i) + u.packets[n].len <= 0x1_0000_0000 {
      assert LimitAt(u, i) == LimitAt(t, i);
      assert n < |t.packets| ==> u.packets[n] == t.packets[n];
    }
  }

  /** One more byte: the stint goes on, or ends when the limit is reached. */
  lemma OneByte(t: Trip)
    requires Proper(t) && AllLimited(t)
    ensures var u, n, i := WithOnes(t, 1), |t.packets|, PosAt(t, StintAt(t, |t.packets|));
            Proper(u) && AllLimited(u) && i < |t.pool.wans| && FlowAt(t, n).bytes < LimitAt(t, i)
            && StintAt(u, n + 1) == StintAt(t, n) + (if FlowAt(t, n).bytes + 1 == LimitAt(t, i) then 1 else 0)
            && (FlowAt(t, n).bytes + 1 < LimitAt(t, i) ==> FlowAt(u, n + 1).bytes == FlowAt(t, n).bytes + 1)
  {
    hide Limit, Charged, Turns, NextEnabled, DistinctWans;
    var u, n := WithOnes(t, 1), |t.packets|;
    OnCourse(t, n);
    OnesProper(t, 1);
    assert AllLimited(u) by {
      forall i | 0 <= i < |u.pool.wans| && Shares(u.pool)[i] > 0 ensures LimitAt(u, i) > 0 {
        assert LimitAt(t, i) > 0;
      }
    }
    PrefixSame(t, seq(1, _ => Packet(1, 0)), n);
    assert u.packets[n] == Packet(1, 0);
    assert PosAt(u, StintAt(u, n)) == PosAt(t, StintAt(t, n));
    CourseStep(u, n);
    hide FlowAt, PosAt, Proper, AllLimited;
  }

  lemma SamePos(t: Trip, u: Trip, k: nat)
    requires Proper(t) && u == WithOnes(t, 1)
    ensures PosAt(u, k) == PosAt(t, k) && Wellformed(u.pool) && Wellformed(t.pool)
    ensures PosAt(t, k) < |t.pool.wans| == |u.pool.wans| && LimitAt(u, PosAt(u, k)) == LimitAt(t, PosAt(t, k))
  {
    hide Limit;
  }

  /** A trip on course with a window for every enabled WAN. */
  ghost predicate Going(t: Trip) {
    Proper(t) && AllLimited(t) && PosAt(t, StintAt(t, |t.packets|)) < |t.pool.wans|
  }

  /** How many stints of a trip are over. */
  function StintsOf(t: Trip): nat
    requires Wellformed(t.pool)
  {
    StintAt(t, |t.packets|)
  }

  /** What a trip's stint has left before its limit. */
  ghost function Left(t: Trip): int
    requires Going(t)
  {
    LimitAt(t, PosAt(t, StintAt(t, |t.packets|))) - FlowAt(t, |t.packets|).bytes
  }

  lemma GoingOn(t: Trip)
    requires Proper(t) && AllLimited(t)
    ensures Going(t)
  {
    hide AllLimited, FlowAt, StintAt, LimitAt, Limit, PosAt, Charged;
    OnCourse(t, |t.packets|);
  }

  lemma OneByteLess(t: Trip) returns (u: Trip)
    requires Going(t)
    ensures Wellformed(t.pool) && u == t.(packets := u.packets) && Going(u) && Left(t) > 0
    ensures if Left(t) == 1 then StintsOf(u) == StintsOf(t) + 1 else StintsOf(u) == StintsOf(t) && Left(u) == Left(t) - 1
  {
    hide AllLimited, FlowAt, StintAt, LimitAt, Limit, PosAt, Charged;
    u := WithOnes(t, 1);
    OneByte(t);
    GoingOn(u);
    SamePos(t, u, StintAt(t, |t.packets|));
    hide Proper;
  }

  /** Enough bytes end a stint. */
  lemma {:induction false} StintCanEnd(t: Trip) returns (u: Trip)
    requires Going(t)
    ensures Wellformed(t.pool) && u == t.(packets := u.packets) && Going(u) && StintsOf(u) == StintsOf(t) + 1
    decreases Left(t)
  {
    hide Going, Left, StintsOf, Wellformed;
    u := OneByteLess(t);
    if Left(t) > 1 {
      u := StintCanEnd(u);
    }
  }

  /** If every enabled WAN has a window, any number of stints can be reached. */
  lemma {:induction false} ReachesStint(t: Trip, k: nat) returns (u: Trip)
    requires Going(t)
    ensures Wellformed(t.pool) && u == t.(packets := u.packets) && Going(u) && StintsOf(u) >= k
    decreases k
  {
    assert Wellformed(t.pool);
    hide Going, StintsOf, Wellformed;
    u := t;
    if k > 0 {
      u := ReachesStint(t, k - 1);
      u := StintCanEnd(u);
    }
  }

  /** These packets take the flow to stint `k`. */
  ghost predicate Reaches(t: Trip, packets: seq<Packet>, k: nat) {
    var u := t.(packets := packets);
    Proper(u) && StintAt(u, |packets|) >= k
  }

  /** Some packets do. */
  ghost predicate Reachable(t: Trip, k: nat) { exists packets :: Reaches(t, packets, k) }

  /** Without a window somewhere there is a stint that no packets reach. */
  lemma StopsSomewhere(t: Trip) returns (k: nat)
    requires Proper(t) && !AllLimited(t)
    ensures !Reachable(t, k)
  {
    hide Limit, DistinctWans, Turns, StintAt;
    var i :| 0 <= i < |t.pool.wans| && Shares(t.pool)[i] > 0 && LimitAt(t, i) == 0;
    var last := VisitedOnce(t, 0, i);
    k := last + 1;
    forall packets ensures !Reaches(t, packets, k) {
      var u := t.(packets := packets);
      if Proper(u) {
        StuckAt(u, |packets|, last);
      }
    }
  }

  /**
   * The rotation never stops exactly when every enabled WAN has a limit (`LimitPositiveIff`).  Otherwise a
   * flow ends up on a WAN it never leaves.
   */
  lemma GoesRoundIff(t: Trip)
    requires Proper(t)
    ensures AllLimited(t) <==> forall k: nat :: Reachable(t, k)
  {
    assert Wellformed(t.pool);
    hide Proper, AllLimited, StintAt;
    if AllLimited(t) {
      GoingOn(t);
      forall k: nat ensures Reachable(t, k) {
        var u := ReachesStint(t, k);
        assert Reaches(t, u.packets, k);
      }
    } else {
      var k := StopsSomewhere(t);
      assert !Reachable(t, k);
    }
  }

  /** The first packet of a flow is charged as if the flow had been on its WAN with no bytes. */
  lemma FreshFlow(p: Pool, sizes: seq<uint32>, h: nat, len: uint32, now: uint64) returns (pos: nat)
    requires Wellformed(p) && DistinctWans(p)
    ensures Enabled(Shares(p), pos) && pos < |p.wans|
    ensures Opened(p, sizes, h, len, now) == Charged(p, sizes, Flow(0, p.wans[pos], pos, now), len, now)
  {
    if Sum(p.weights) > 0 {
      pos := SlotPos(p.weights, h % Sum(p.weights));
      OneOwner(p.weights, pos, pos, h % Sum(p.weights));
    } else {
      pos := h % |p.wans|;
    }
    PosOfDistinct(p, pos);
    hide Limit, PosOf, Sum, SlotPos, Tallied;
  }
}
