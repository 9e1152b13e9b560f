/** The weighted choice of a WAN in `src/core/flow_table.c`. */
module WanPool {
  import opened Bytes
  import opened Modular

  /** The allowed WANs with their weights; no weights at all is the same as all of them zero. */
  datatype Pool = Pool(wans: seq<int>, weights: seq<int>)

  predicate Wellformed(p: Pool) { |p.wans| == |p.weights| && |p.wans| > 0 }

  /** The positive weights before position `i`. */
  function Before(ws: seq<int>, i: nat): nat
    requires i <= |ws|
  {
    if i == 0 then 0 else Before(ws, i - 1) + if ws[i - 1] > 0 then ws[i - 1] else 0
  }

  function Sum(ws: seq<int>): nat { Before(ws, |ws|) }

  /** weights_sum_positive; the weights' sum is assumed not to overflow an int. */
  method WeightsSumPositive(ws: seq<int>) returns (s: nat)
    ensures s == Sum(ws)
  {
    s := 0;
    for i := 0 to |ws|
      invariant s == Before(ws, i)
    {
      if ws[i] > 0 { s := s + ws[i]; }
    }
  }

  lemma {:induction false} BeforeMonotone(ws: seq<int>, i: nat, j: nat)
    requires i <= j <= |ws|
    ensures Before(ws, i) <= Before(ws, j)
    decreases j
  {
    if i < j {
      BeforeMonotone(ws, i, j - 1);
    }
  }

  lemma {:induction false} SomePositive(ws: seq<int>, n: nat)
    requires n <= |ws|
    ensures Before(ws, n) > 0 <==> exists i :: 0 <= i < n && ws[i] > 0
  {
    if n > 0 {
      SomePositive(ws, n - 1);
    }
  }

  /** The first position with a positive weight, 0 if there is none. */
  predicate IsFirstPositive(ws: seq<int>, r: nat) {
    if Sum(ws) > 0 then r < |ws| && ws[r] > 0 && forall i :: 0 <= i < r ==> ws[i] <= 0 else r == 0
  }

  function FirstPositive(ws: seq<int>): (r: nat)
    ensures IsFirstPositive(ws, r)
  {
    SomePositive(ws, |ws|);
    if Sum(ws) == 0 then 0 else FirstPositiveFrom(ws, 0)
  }

  function FirstPositiveFrom(ws: seq<int>, i: nat): (r: nat)
    requires i < |ws| && exists k :: i <= k < |ws| && ws[k] > 0
    ensures i <= r < |ws| && ws[r] > 0 && forall k :: i <= k < r ==> ws[k] <= 0
    decreases |ws| - i
  {
    if ws[i] > 0 then i else FirstPositiveFrom(ws, i + 1)
  }

  /** first_positive_pos */
  method FirstPositivePos(ws: seq<int>) returns (r: nat)
    ensures r == FirstPositive(ws)
  {
    SomePositive(ws, |ws|);
    for i := 0 to |ws|
      invariant forall k :: 0 <= k < i ==> ws[k] <= 0
    {
      if ws[i] > 0 { return i; }
    }
    r := 0;
  }

  /** wan_allowed_pos: the first position of a WAN. */
  function PosOf(wans: seq<int>, wan: int): (r: Option<nat>)
    ensures r.Some? ==> r.value < |wans| && wans[r.value] == wan
    ensures r.None? ==> wan !in wans
    decreases wans
  {
    if wans == [] then None
    else if wans[0] == wan then Some(0)
    else match PosOf(wans[1..], wan) case None => None case Some(i) => Some(i + 1)
  }

  lemma {:induction false} PosOfFirst(wans: seq<int>, wan: int, i: nat)
    requires i < |wans| && wans[i] == wan && forall k :: 0 <= k < i ==> wans[k] != wan
    ensures PosOf(wans, wan) == Some(i)
    decreases i
  {
    if i > 0 {
      PosOfFirst(wans[1..], wan, i - 1);
    }
  }

  method AllowedPos(wans: seq<int>, wan: int) returns (r: Option<nat>)
    ensures r == PosOf(wans, wan)
  {
    for i := 0 to |wans|
      invariant forall k :: 0 <= k < i ==> wans[k] != wan
    {
      if wans[i] == wan {
        PosOfFirst(wans, wan, i);
        return Some(i);
      }
    }
    r := None;
  }

  /* Slots */

  /** Where a slot number falls: position `i` owns as many slots as its weight. */
  predicate Owns(ws: seq<int>, i: nat, s: nat) { i < |ws| && Before(ws, i) <= s < Before(ws, i + 1) }

  lemma OneOwner(ws: seq<int>, i: nat, j: nat, s: nat)
    requires Owns(ws, i, s) && Owns(ws, j, s)
    ensures i == j && ws[i] > 0
  {
    if i < j {
      BeforeMonotone(ws, i + 1, j);
    } else if j < i {
      BeforeMonotone(ws, j + 1, i);
    }
  }

  function SlotFrom(ws: seq<int>, s: nat, i: nat): (r: nat)
    requires i < |ws| && Before(ws, i) <= s < Sum(ws)
    ensures Owns(ws, r, s)
    decreases |ws| - i
  {
    if s < Before(ws, i + 1) then i else SlotFrom(ws, s, i + 1)
  }

  function SlotPos(ws: seq<int>, s: nat): (r: nat)
    requires s < Sum(ws)
    ensures Owns(ws, r, s)
  {
    SlotFrom(ws, s, 0)
  }

  /** wrr_slot_to_wan for a positive sum: its double modulo makes any int a slot. */
  method SlotToWan(slot: int, p: Pool) returns (wan: int)
    requires Wellformed(p) && Sum(p.weights) > 0
    ensures wan == p.wans[SlotPos(p.weights, slot % Sum(p.weights))]
  {
    var sum := WeightsSumPositive(p.weights);
    var s := slot % sum;
    var acc := 0;
    wan := p.wans[|p.wans| - 1];
    for i := 0 to |p.wans|
      invariant acc == Before(p.weights, i) <= s
    {
      if p.weights[i] > 0 {
        acc := acc + p.weights[i];
        if s < acc {
          OneOwner(p.weights, i, SlotPos(p.weights, s), s);
          return p.wans[i];
        }
      }
    }
    assert false;
  }

  /** How many of the `len` numbers from `n` on fall to position `i`. */
  function Hits(ws: seq<int>, n: nat, len: nat, i: nat): nat
    requires Sum(ws) > 0
    decreases len
  {
    if len == 0 then 0
    else Hits(ws, n, len - 1, i) + if SlotPos(ws, (n + len - 1) % Sum(ws)) == i then 1 else 0
  }

  lemma {:induction false} HitsFromZero(ws: seq<int>, len: nat, i: nat)
    requires Sum(ws) > 0 && i < |ws| && len <= Sum(ws)
    ensures Hits(ws, 0, len, i)
         == if len <= Before(ws, i) then 0 else if len <= Before(ws, i + 1) then len - Before(ws, i)
            else Before(ws, i + 1) - Before(ws, i)
  {
    BeforeMonotone(ws, i, i + 1);
    if len > 0 {
      HitsFromZero(ws, len - 1, i);
      ModSmall(len - 1, Sum(ws));
      SlotPosIs(ws, i, len - 1);
      hide SlotPos, Before;
    }
  }

  lemma SlotPosIs(ws: seq<int>, i: nat, s: nat)
    requires i < |ws| && s < Sum(ws)
    ensures SlotPos(ws, s) == i <==> Before(ws, i) <= s < Before(ws, i + 1)
  {
    if Owns(ws, i, s) {
      OneOwner(ws, i, SlotPos(ws, s), s);
    }
    hide SlotPos;
  }

  /** Dropping the first number and adding one at the end, `Sum` further on, changes nothing. */
  lemma {:induction false} HitsSplitFirst(ws: seq<int>, n: nat, len: nat, i: nat)
    requires Sum(ws) > 0 && len > 0
    ensures Hits(ws, n, len, i) == (if SlotPos(ws, n % Sum(ws)) == i then 1 else 0) + Hits(ws, n + 1, len - 1, i)
    decreases len
  {
    if len > 1 {
      HitsSplitFirst(ws, n, len - 1, i);
      assert n + 1 + (len - 1) - 1 == n + len - 1;
    }
  }

  /**
   * Any `Sum` consecutive packet numbers give every WAN with a positive weight exactly its weight.  The
   * packet counter of the source has 64 bits; the statement is about numbers before it wraps around.
   */
  lemma {:induction false} PerPacketShare(ws: seq<int>, n: nat, i: nat)
    requires Sum(ws) > 0 && i < |ws|
    ensures Hits(ws, n, Sum(ws), i) == if ws[i] > 0 then ws[i] else 0
    decreases n
  {
    if n == 0 {
      HitsFromZero(ws, Sum(ws), i);
      BeforeMonotone(ws, i + 1, |ws|);
    } else {
      PerPacketShare(ws, n - 1, i);
      HitsSplitFirst(ws, n - 1, Sum(ws), i);
      ModAdd(n - 1, Sum(ws));
      assert n + Sum(ws) - 1 == n - 1 + Sum(ws);
    }
  }

  /** flow_table_pick_wan_per_packet for packet number `n`. */
  method PickPerPacket(p: Pool, n: uint64) returns (wan: int)
    requires |p.wans| == |p.weights|
    ensures p.wans == [] ==> wan == 0
    ensures |p.wans| == 1 ==> wan == p.wans[0]
    ensures |p.wans| > 1 && Sum(p.weights) > 0 ==> wan == p.wans[SlotPos(p.weights, n % Sum(p.weights))]
    ensures |p.wans| > 1 && Sum(p.weights) == 0 ==> wan == p.wans[n % |p.wans|]
  {
    if |p.wans| == 0 { return 0; }
    if |p.wans| == 1 { return p.wans[0]; }
    var sum := WeightsSumPositive(p.weights);
    if sum == 0 { return p.wans[n % |p.wans|]; }
    var s := n % sum;
    ModSmall(s, sum);
    wan := SlotToWan(s, p);
  }

  /* Rotation */

  predicate Enabled(ws: seq<int>, i: nat) { i < |ws| && ws[i] > 0 }

  /** The weight `k` positions further on, going round. */
  function Around(ws: seq<int>, pos: nat, k: nat): int
    requires pos < |ws|
  {
    ws[(pos + k) % |ws|]
  }

  function NextFrom(ws: seq<int>, pos: nat, step: nat): (r: nat)
    requires pos < |ws| && step <= |ws| + 1
    decreases |ws| + 1 - step
  {
    if step > |ws| then FirstPositive(ws)
    else if Around(ws, pos, step) > 0 then (pos + step) % |ws| else NextFrom(ws, pos, step + 1)
  }

  function NextEnabled(ws: seq<int>, pos: nat): nat
    requires pos < |ws|
  {
    if Sum(ws) == 0 then (pos + 1) % |ws| else NextFrom(ws, pos, 1)
  }

  /** next_enabled_pos */
  method NextEnabledPos(ws: seq<int>, pos: nat) returns (r: nat)
    requires pos < |ws|
    ensures r == NextEnabled(ws, pos)
  {
    var sum := WeightsSumPositive(ws);
    if sum == 0 { return (pos + 1) % |ws|; }
    var step := 1;
    while step <= |ws|
      invariant 1 <= step <= |ws| + 1 && NextFrom(ws, pos, step) == NextFrom(ws, pos, 1)
    {
      var next := (pos + step) % |ws|;
      if ws[next] > 0 { return next; }
      step := step + 1;
    }
    r := FirstPositivePos(ws);
  }

  /** How many enabled positions come before `i`. */
  function Rank(ws: seq<int>, i: nat): nat
    requires i <= |ws|
  {
    if i == 0 then 0 else Rank(ws, i - 1) + if ws[i - 1] > 0 then 1 else 0
  }

  lemma {:induction false} RankSame(ws: seq<int>, i: nat, j: nat)
    requires i <= j <= |ws| && forall k :: i <= k < j ==> ws[k] <= 0
    ensures Rank(ws, j) == Rank(ws, i)
    decreases j
  {
    if i < j {
      RankSame(ws, i, j - 1);
    }
  }

  lemma {:induction false} RankMonotone(ws: seq<int>, i: nat, j: nat)
    requires i <= j <= |ws|
    ensures Rank(ws, i) <= Rank(ws, j)
    decreases j
  {
    if i < j {
      RankMonotone(ws, i, j - 1);
    }
  }

  lemma RankGrows(ws: seq<int>, i: nat, j: nat)
    requires Enabled(ws, i) && i < j <= |ws|
    ensures Rank(ws, i) < Rank(ws, j)
  {
    RankMonotone(ws, i + 1, j);
  }

  /** The rank tells enabled positions apart. */
  lemma RankInjective(ws: seq<int>, i: nat, j: nat)
    requires Enabled(ws, i) && Enabled(ws, j) && Rank(ws, i) == Rank(ws, j)
    ensures i == j
  {
    hide Rank;
    if i < j {
      RankGrows(ws, i, j);
    } else if j < i {
      RankGrows(ws, j, i);
    }
  }

  /** How many positions are enabled. */
  function Ranks(ws: seq<int>): nat { Rank(ws, |ws|) }

  /** Nothing enabled lies in the `step - 1` positions behind `pos`, going round. */
  predicate Skipped(ws: seq<int>, pos: nat, step: nat)
    requires pos < |ws|
  {
    forall k :: 1 <= k < step ==> Around(ws, pos, k) <= 0
  }

  lemma AroundIs(ws: seq<int>, pos: nat, k: nat)
    requires pos < |ws| && k <= |ws|
    ensures (pos + k) % |ws| == if pos + k < |ws| then pos + k else pos + k - |ws|
  {
    if pos + k < |ws| {
      ModSmall(pos + k, |ws|);
    } else {
      ModOnce(pos + k, |ws|);
    }
  }

  /** From an enabled position the search finds the next enabled one, which may be itself after a full turn. */
  lemma {:induction false} NextFromFinds(ws: seq<int>, pos: nat, step: nat) returns (d: nat)
    requires Enabled(ws, pos) && 1 <= step <= |ws| && Skipped(ws, pos, step)
    ensures step <= d <= |ws| && NextFrom(ws, pos, step) == (pos + d) % |ws| && Around(ws, pos, d) > 0 && Skipped(ws, pos, d)
    decreases |ws| - step
  {
    if Around(ws, pos, step) > 0 {
      d := step;
    } else if step == |ws| {
      AroundIs(ws, pos, |ws|);
      assert false;
    } else {
      assert Skipped(ws, pos, step + 1);
      d := NextFromFinds(ws, pos, step + 1);
    }
  }

  /** Rotation moves to the next rank, going round. */
  lemma NextRank(ws: seq<int>, pos: nat)
    requires Enabled(ws, pos)
    ensures Enabled(ws, NextEnabled(ws, pos))
    ensures Rank(ws, NextEnabled(ws, pos)) == if Rank(ws, pos) + 1 == Ranks(ws) then 0 else Rank(ws, pos) + 1
  {
    SomePositive(ws, |ws|);
    var d := NextFromFinds(ws, pos, 1);
    AroundIs(ws, pos, d);
    hide NextFrom, Before;
    if pos + d < |ws| {
      NextAhead(ws, pos, pos + d);
    } else {
      NextRound(ws, pos, d);
    }
  }

  lemma SkippedAt(ws: seq<int>, pos: nat, d: nat, k: nat)
    requires pos < |ws| && 1 <= k < d <= |ws| && Skipped(ws, pos, d)
    ensures ws[if pos + k < |ws| then pos + k else pos + k - |ws|] <= 0
  {
    AroundIs(ws, pos, k);
    assert Around(ws, pos, k) <= 0;
  }

  lemma NextAhead(ws: seq<int>, pos: nat, next: nat)
    requires Enabled(ws, pos) && Enabled(ws, next) && pos < next && Skipped(ws, pos, next - pos)
    ensures Rank(ws, next) == Rank(ws, pos) + 1 < Ranks(ws)
  {
    hide Skipped;
    forall k | pos + 1 <= k < next ensures ws[k] <= 0 {
      SkippedAt(ws, pos, next - pos, k - pos);
    }
    RankSame(ws, pos + 1, next);
    RankGrows(ws, next, |ws|);
  }

  lemma NextRound(ws: seq<int>, pos: nat, d: nat)
    requires Enabled(ws, pos) && d <= |ws| <= pos + d && Enabled(ws, pos + d - |ws|) && Skipped(ws, pos, d)
    ensures Rank(ws, pos + d - |ws|) == 0 && Rank(ws, pos) + 1 == Ranks(ws)
  {
    hide Skipped;
    forall k | pos + 1 <= k < |ws| ensures ws[k] <= 0 {
      SkippedAt(ws, pos, d, k - pos);
    }
    forall k | 0 <= k < pos + d - |ws| ensures ws[k] <= 0 {
      SkippedAt(ws, pos, d, k + |ws| - pos);
    }
    RankSame(ws, pos + 1, |ws|);
    RankSame(ws, 0, pos + d - |ws|);
  }

  /** Where `k` rotations lead. */
  function Turns(ws: seq<int>, pos: nat, k: nat): (r: nat)
    requires Enabled(ws, pos)
    ensures Enabled(ws, r)
  {
    if k == 0 then pos
    else
      var p := Turns(ws, pos, k - 1);
      NextRank(ws, p);
      NextEnabled(ws, p)
  }

  lemma {:induction false} TurnsRank(ws: seq<int>, pos: nat, k: nat)
    requires Enabled(ws, pos) && k <= Ranks(ws)
    ensures Rank(ws, pos) < Ranks(ws)
    ensures Rank(ws, Turns(ws, pos, k))
         == if Rank(ws, pos) + k < Ranks(ws) then Rank(ws, pos) + k else Rank(ws, pos) + k - Ranks(ws)
  {
    RankGrows(ws, pos, |ws|);
    if k > 0 {
      TurnsRank(ws, pos, k - 1);
      NextRank(ws, Turns(ws, pos, k - 1));
    }
    hide Rank, NextEnabled;
  }

  /** Some number of rotations below a full turn leads from one enabled position to another. */
  lemma TurnTo(ws: seq<int>, pos: nat, other: nat) returns (k: nat)
    requires Enabled(ws, pos) && Enabled(ws, other)
    ensures k < Ranks(ws) && Turns(ws, pos, k) == other
  {
    hide Rank, Turns;
    RankGrows(ws, other, |ws|);
    RankGrows(ws, pos, |ws|);
    k := if Rank(ws, other) >= Rank(ws, pos) then Rank(ws, other) - Rank(ws, pos) else Rank(ws, other) + Ranks(ws) - Rank(ws, pos);
    TurnsRank(ws, pos, k);
    RankInjective(ws, Turns(ws, pos, k), other);
  }

  lemma TurnOnce(ws: seq<int>, pos: nat, j: nat, k: nat)
    requires Enabled(ws, pos) && j < Ranks(ws) && k < Ranks(ws) && Turns(ws, pos, j) == Turns(ws, pos, k)
    ensures j == k
  {
    hide Rank, Turns;
    TurnsRank(ws, pos, j);
    TurnsRank(ws, pos, k);
  }

  /** A full turn comes back to where it began, and on the way meets every enabled WAN exactly once. */
  lemma RotationVisitsAll(ws: seq<int>, pos: nat, other: nat)
    requires Enabled(ws, pos) && Enabled(ws, other)
    ensures Turns(ws, pos, Ranks(ws)) == pos
    ensures exists k :: 0 <= k < Ranks(ws) && Turns(ws, pos, k) == other
                        && forall j :: 0 <= j < Ranks(ws) && Turns(ws, pos, j) == other ==> j == k
  {
    hide Rank, Turns;
    TurnsRank(ws, pos, Ranks(ws));
    RankInjective(ws, Turns(ws, pos, Ranks(ws)), pos);
    var k := TurnTo(ws, pos, other);
    forall j | 0 <= j < Ranks(ws) && Turns(ws, pos, j) == other ensures j == k {
      TurnOnce(ws, pos, j, k);
    }
  }
}
