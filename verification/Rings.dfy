/** The packet rings and the frame pool of `src/core/interface.c`: power-of-two buffers with free-running indices. */
module Rings {
  import opened Bytes
  import opened Modular
  import opened Masks

  function Wrap(n: nat): uint32 { n % 0x1_0000_0000 }

  /** The check of ne_ring_init and pool_init. */
  predicate CapOk(cap: uint32) { cap != 0 && And32(cap, cap - 1) == 0 }

  /** The check accepts exactly the powers of two. */
  lemma CapOkMeansPower(cap: uint32)
    ensures CapOk(cap) <==> exists k :: 0 <= k < 32 && cap == Pow2(k)
  {
    Pow2Of32();
    if CapOk(cap) {
      OneBit(cap, 32);
    }
    if k :| 0 <= k < 32 && cap == Pow2(k) {
      PowerPasses(k, 32);
    }
  }

  /** Masking a free-running index, even one that has wrapped around, selects its residue. */
  lemma MaskIsResidue(n: nat, cap: uint32)
    requires CapOk(cap)
    ensures And32(Wrap(n), cap - 1) == n % cap
  {
    CapOkMeansPower(cap);
    var k :| 0 <= k < 32 && cap == Pow2(k);
    Pow2Of32();
    hide AndBits, Pow2;
    AndIgnoresHigh(n, cap - 1, 32);
    MaskBits(n, k, 32);
  }

  lemma WrapAgain(n: nat, i: nat)
    ensures Wrap(Wrap(n) + i) == Wrap(n + i)
  {
  }

  /** Fewer than `cap` steps apart means in different places. */
  lemma PlacesDiffer(n: nat, i: nat, j: nat, cap: nat)
    requires i < j < i + cap
    ensures (n + i) % cap != (n + j) % cap
  {
    var a, b, r := (n + i) / cap, (n + j) / cap, (n + i) % cap;
    if r == (n + j) % cap {
      assert n + i == a * cap + r && n + j == b * cap + r;
      if b > a {
        MulGrows(b - a, cap);
      } else if a > b {
        MulGrows(a - b, cap);
      }
      assert false;
    }
  }

  /** The elements of a ring buffer from index `tail` on, in order. */
  function Window<T>(buf: seq<T>, tail: nat, count: nat): (r: seq<T>)
    requires |buf| > 0
    ensures |r| == count
  {
    seq(count, i requires 0 <= i < count => buf[(tail + i) % |buf|])
  }

  lemma WindowPush<T>(buf: seq<T>, tail: nat, count: nat, x: T)
    requires count < |buf|
    ensures Window(buf[(tail + count) % |buf| := x], tail, count + 1) == Window(buf, tail, count) + [x]
  {
    var j := (tail + count) % |buf|;
    forall i | 0 <= i < count ensures Window(buf[j := x], tail, count + 1)[i] == Window(buf, tail, count)[i] {
      PlacesDiffer(tail, i, count, |buf|);
    }
  }

  lemma WindowAt<T>(buf: seq<T>, tail: nat, count: nat, i: nat)
    requires i < count && |buf| > 0
    ensures Window(buf, tail, count)[i] == buf[(tail + i) % |buf|]
  {
  }

  lemma WindowPop<T>(buf: seq<T>, tail: nat, count: nat, n: nat)
    requires n <= count && |buf| > 0
    ensures Window(buf, tail + n, count - n) == Window(buf, tail, count)[n..]
  {
    forall i | 0 <= i < count - n ensures Window(buf, tail + n, count - n)[i] == Window(buf, tail, count)[n..][i] {
      assert tail + n + i == tail + (n + i);
    }
  }

  /** The window does not notice that its index has wrapped around. */
  lemma WindowWraps<T>(buf: seq<T>, n: nat, count: nat, cap: uint32)
    requires CapOk(cap) && |buf| == cap
    ensures Window(buf, Wrap(n), count) == Window(buf, n, count)
  {
    assert cap > 0;
    hide CapOk, And32, Wrap;
    forall i | 0 <= i < count ensures Window(buf, Wrap(n), count)[i] == Window(buf, n, count)[i] {
      MaskIsResidue(n + i, cap);
      MaskIsResidue(Wrap(n) + i, cap);
      WrapAgain(n, i);
    }
  }

  /** How many elements two indices enclose. */
  function Held(head: uint32, tail: uint32): uint32 { (head - tail) % 0x1_0000_0000 }

  lemma HeldIs(head: uint32, tail: uint32)
    ensures Held(head, tail) == if head >= tail then head - tail else head - tail + 0x1_0000_0000
  {
  }

  lemma WrapOnce(n: nat)
    requires n < 0x2_0000_0000
    ensures Wrap(n) == if n < 0x1_0000_0000 then n else n - 0x1_0000_0000
  {
  }

  lemma Nonempty(head: uint32, tail: uint32)
    requires head != tail
    ensures Held(head, tail) > 0
  {
  }

  lemma HeldEnds(head: uint32, tail: uint32)
    ensures Wrap(tail + Held(head, tail)) == head && Wrap(tail) == tail
  {
    HeldIs(head, tail);
    WrapOnce(tail);
    WrapOnce(tail + Held(head, tail));
    hide Held, Wrap;
  }

  /** Moving either end by `n` changes the count by `n`, across the wrap-around too. */
  lemma HeadMoves(head: uint32, tail: uint32, n: nat)
    requires Held(head, tail) + n < 0x1_0000_0000
    ensures Held(Wrap(head + n), tail) == Held(head, tail) + n
  {
    HeldIs(head, tail);
    WrapOnce(head + n);
    HeldIs(Wrap(head + n), tail);
    hide Held, Wrap;
  }

  lemma TailMoves(head: uint32, tail: uint32, n: nat)
    requires n <= Held(head, tail)
    ensures Held(head, Wrap(tail + n)) == Held(head, tail) - n
  {
    HeldIs(head, tail);
    WrapOnce(tail + n);
    HeldIs(head, Wrap(tail + n));
    hide Held, Wrap;
  }

  lemma PlacesFrom(head: uint32, tail: uint32, cap: uint32, i: nat)
    requires CapOk(cap)
    ensures cap > 0
    ensures And32(Wrap(head + i), cap - 1) == (tail + (Held(head, tail) + i)) % cap
    ensures And32(Wrap(tail + i), cap - 1) == (tail + i) % cap
  {
    hide CapOk, And32, Held, Wrap;
    CapPositive(cap);
    HeldEnds(head, tail);
    var n := Held(head, tail);
    WrapAgain(tail + n, i);
    assert tail + n + i == tail + (n + i);
    MaskIsResidue(tail + (n + i), cap);
    MaskIsResidue(tail + i, cap);
  }

  lemma CapPositive(cap: uint32)
    requires CapOk(cap)
    ensures cap > 0
  {
  }

  lemma Ends(head: uint32, tail: uint32, cap: uint32)
    requires CapOk(cap)
    ensures cap > 0
    ensures Wrap(head) == head && Wrap(tail) == tail
  {
  }

  /** Storing at the masked index of the `i`th free place appends to the window. */
  lemma StoreAppends<T>(buf: seq<T>, head: uint32, tail: uint32, cap: uint32, i: nat, x: T)
    requires CapOk(cap) && |buf| == cap && Held(head, tail) + i < cap
    ensures And32(Wrap(head + i), cap - 1) < |buf|
    ensures Window(buf[And32(Wrap(head + i), cap - 1) := x], tail, Held(head, tail) + i + 1)
         == Window(buf, tail, Held(head, tail) + i) + [x]
  {
    hide CapOk, And32, Window, Held, Wrap;
    PlacesFrom(head, tail, cap, i);
    WindowPush(buf, tail, Held(head, tail) + i, x);
  }

  /** Loading from the masked index of the `i`th element. */
  lemma LoadIs<T>(buf: seq<T>, head: uint32, tail: uint32, cap: uint32, i: nat)
    requires CapOk(cap) && |buf| == cap && i < Held(head, tail)
    ensures And32(Wrap(tail + i), cap - 1) < |buf|
    ensures Window(buf, tail, Held(head, tail))[i] == buf[And32(Wrap(tail + i), cap - 1)]
  {
    PlacesFrom(head, tail, cap, i);
    WindowAt(buf, tail, Held(head, tail), i);
    hide CapOk, And32, Window, Held, Wrap;
  }

  /** Moving the tail drops the first elements. */
  lemma Drop<T>(head: uint32, tail: uint32, cap: uint32, buf: seq<T>, n: nat)
    requires CapOk(cap) && |buf| == cap && n <= Held(head, tail)
    ensures Held(head, Wrap(tail + n)) == Held(head, tail) - n && |buf| > 0
    ensures Window(buf, Wrap(tail + n), Held(head, tail) - n) == Window(buf, tail, Held(head, tail))[n..]
  {
    assert cap > 0;
    TailMoves(head, tail, n);
    WindowPop(buf, tail, Held(head, tail), n);
    WindowWraps(buf, tail + n, Held(head, tail) - n, cap);
    hide CapOk, Window, Held, Wrap;
  }

  /** struct ne_ring */
  class Ring<T(0)> {
    const buf: array<T>
    const cap: uint32
    var head: uint32
    var tail: uint32

    ghost predicate Valid()
      reads this
    {
      CapOk(cap) && buf.Length == cap && Count() <= cap
    }

    /** ne_ring_count */
    function Count(): uint32
      reads this
    {
      Held(head, tail)
    }

    ghost function Contents(): (s: seq<T>)
      reads this, buf
      requires Valid()
      ensures |s| == Count()
    {
      Window(buf[..], tail, Count())
    }

    /** ne_ring_init once its checks have passed */
    constructor (cap: uint32)
      requires CapOk(cap)
      ensures Valid() && Contents() == [] && fresh(buf) && this.cap == cap
    {
      this.cap, buf, head, tail := cap, new T[cap], 0, 0;
    }

    /** ne_ring_try_push */
    method TryPush(x: T) returns (ok: bool)
      requires Valid()
      modifies this`head, buf
      ensures Valid() && ok == (old(|Contents()|) < cap)
      ensures Contents() == if ok then old(Contents()) + [x] else old(Contents())
    {
      hide CapOk, And32, Window, Held, Wrap;
      if Count() >= cap { return false; }
      Ends(head, tail, cap);
      HeadMoves(head, tail, 1);
      StoreAppends(buf[..], head, tail, cap, 0, x);
      buf[And32(head, cap - 1)] := x;
      head := Wrap(head + 1);
      ok := true;
    }

    /** ne_ring_try_pop */
    method TryPop() returns (r: Option<T>)
      requires Valid()
      modifies this`tail
      ensures Valid() && r == (if old(Contents()) == [] then None else Some(old(Contents())[0]))
      ensures Contents() == if old(Contents()) == [] then [] else old(Contents())[1..]
    {
      if tail == head { return None; }
      hide CapOk, And32, Window, Held, Wrap;
      Nonempty(head, tail);
      Ends(head, tail, cap);
      LoadIs(buf[..], head, tail, cap, 0);
      Drop(head, tail, cap, buf[..], 1);
      r := Some(buf[And32(tail, cap - 1)]);
      tail := Wrap(tail + 1);
    }
  }

  /** struct ne_pool: the same buffer, filled and emptied in batches. */
  class Pool {
    const buf: array<uint64>
    const cap: uint32
    var head: uint32
    var tail: uint32

    ghost predicate Valid()
      reads this
    {
      CapOk(cap) && buf.Length == cap && Count() <= cap
    }

    function Count(): uint32
      reads this
    {
      Held(head, tail)
    }

    ghost function Contents(): (s: seq<uint64>)
      reads this, buf
      requires Valid()
      ensures |s| == Count()
    {
      Window(buf[..], tail, Count())
    }

    /** pool_init once its checks have passed */
    constructor (cap: uint32)
      requires CapOk(cap)
      ensures Valid() && Contents() == [] && fresh(buf) && this.cap == cap
    {
      this.cap, buf, head, tail := cap, new uint64[cap], 0, 0;
    }

    /** pool_push: as many as there is room for */
    method Push(addrs: array<uint64>, n: uint32) returns (put: uint32)
      requires Valid() && n <= addrs.Length && addrs != buf
      modifies this`head, buf
      ensures Valid() && put == (if n < cap - old(|Contents()|) then n else cap - old(|Contents()|))
      ensures Contents() == old(Contents()) + addrs[..put]
    {
      hide CapOk, Window, Held, Wrap;
      var room := cap - Count();
      put := if n < room then n else room;
      HeadMoves(head, tail, put);
      StoreAll(addrs, put);
      head := Wrap(head + put);
    }

    /** The store loop of pool_push, before the head moves. */
    method StoreAll(addrs: array<uint64>, put: nat)
      requires Valid() && Count() + put <= cap && put <= addrs.Length && addrs != buf
      modifies buf
      ensures Window(buf[..], tail, Count() + put) == old(Contents()) + addrs[..put]
    {
      hide CapOk, And32, Window, Held, Wrap;
      ghost var c, before := Count(), Contents();
      Ends(head, tail, cap);
      for i := 0 to put
        invariant Window(buf[..], tail, c + i) == before + addrs[..i]
      {
        StoreAppends(buf[..], head, tail, cap, i, addrs[i]);
        buf[And32(Wrap(head + i), cap - 1)] := addrs[i];
      }
    }

    /** pool_pop: as many as there are */
    method Pop(addrs: array<uint64>, n: uint32) returns (got: uint32)
      requires Valid() && n <= addrs.Length && addrs != buf
      modifies this`tail, addrs
      ensures Valid() && got == (if n < old(|Contents()|) then n else old(|Contents()|))
      ensures Contents() == old(Contents())[got..]
      ensures addrs[..got] == old(Contents())[..got] && addrs[got..] == old(addrs[got..])
    {
      hide CapOk, Window, Held, Wrap;
      var avail := Count();
      got := if n < avail then n else avail;
      LoadAll(addrs, got);
      Drop(head, tail, cap, buf[..], got);
      tail := Wrap(tail + got);
    }

    /** The load loop of pool_pop, before the tail moves. */
    method LoadAll(addrs: array<uint64>, got: nat)
      requires Valid() && got <= Count() && got <= addrs.Length && addrs != buf
      modifies addrs
      ensures addrs[..got] == Contents()[..got] && addrs[got..] == old(addrs[got..])
    {
      hide CapOk, And32, Window, Held, Wrap;
      ghost var before := Contents();
      for i := 0 to got
        invariant addrs[..i] == before[..i] && addrs[got..] == old(addrs[got..])
      {
        LoadIs(buf[..], head, tail, cap, i);
        addrs[i] := buf[And32(Wrap(tail + i), cap - 1)];
      }
    }
  }

  /* Histories of the bounded queue that both refine */

  /** A call with its caller and its answer. */
  datatype Done<T> = Pushed(who: nat, x: T, ok: bool) | Popped(who: nat, r: Option<T>)

  /** What a queue of at most `cap` elements becomes. */
  function QueueNext<T>(cap: nat, q: seq<T>, d: Done<T>): seq<T> {
    match d
    case Pushed(_, x, _) => if |q| < cap then q + [x] else q
    case Popped(_, _) => if q == [] then [] else q[1..]
  }

  /** Is the answer the queue's? */
  predicate Answered<T(==)>(cap: nat, q: seq<T>, d: Done<T>) {
    match d
    case Pushed(_, _, ok) => ok == (|q| < cap)
    case Popped(_, r) => r == if q == [] then None else Some(q[0])
  }

  /** What a queue that starts with `q` holds after these calls. */
  function QueueAfter<T>(cap: nat, q: seq<T>, log: seq<Done<T>>): seq<T> {
    if log == [] then q else QueueNext(cap, QueueAfter(cap, q, log[..|log| - 1]), log[|log| - 1])
  }

  /** All answers are those of a queue. */
  predicate Legal<T(==)>(cap: nat, q: seq<T>, log: seq<Done<T>>) {
    log == [] || (var front := log[..|log| - 1];
                  Legal(cap, q, front) && Answered(cap, QueueAfter(cap, q, front), log[|log| - 1]))
  }

  lemma LegalMore<T>(cap: nat, q: seq<T>, log: seq<Done<T>>, d: Done<T>)
    requires Legal(cap, q, log)
    ensures Legal(cap, q, log + [d]) <==> Answered(cap, QueueAfter(cap, q, log), d)
    ensures QueueAfter(cap, q, log + [d]) == QueueNext(cap, QueueAfter(cap, q, log), d)
  {
    hide QueueNext, Answered;
    assert (log + [d])[..|log|] == log;
  }

  function InOf<T>(d: Done<T>): seq<T> {
    match d
    case Pushed(_, x, ok) => if ok then [x] else []
    case Popped(_, _) => []
  }

  function OutOf<T>(d: Done<T>): seq<T> {
    match d
    case Pushed(_, _, _) => []
    case Popped(_, r) => if r.Some? then [r.value] else []
  }

  /** What was accepted, in order. */
  function In<T>(log: seq<Done<T>>): seq<T> {
    if log == [] then [] else In(log[..|log| - 1]) + InOf(log[|log| - 1])
  }

  /** What was given out, in order. */
  function Out<T>(log: seq<Done<T>>): seq<T> {
    if log == [] then [] else Out(log[..|log| - 1]) + OutOf(log[|log| - 1])
  }

  lemma OneCall<T>(cap: nat, q: seq<T>, d: Done<T>)
    requires Answered(cap, q, d)
    ensures q + InOf(d) == OutOf(d) + QueueNext(cap, q, d)
    ensures |QueueNext(cap, q, d)| <= if |q| > cap then |q| else cap
  {
  }

  /**
   * What has left is what was accepted, in that order, but for what is still held: nothing is lost, repeated or
   * overtaken.
   */
  lemma {:induction false} FirstInFirstOut<T>(cap: nat, q: seq<T>, log: seq<Done<T>>)
    requires Legal(cap, q, log)
    ensures q + In(log) == Out(log) + QueueAfter(cap, q, log)
    ensures |QueueAfter(cap, q, log)| <= if |q| > cap then |q| else cap
  {
    hide Answered, QueueNext, InOf, OutOf;
    if log != [] {
      var n := |log| - 1;
      FirstInFirstOut(cap, q, log[..n]);
      var p := QueueAfter(cap, q, log[..n]);
      OneCall(cap, p, log[n]);
      Regroup3(q, In(log[..n]), InOf(log[n]), Out(log[..n]), p, OutOf(log[n]), QueueNext(cap, p, log[n]));
    } else {
      assert q + [] == [] + q;
    }
  }

  lemma Regroup3<T>(q: seq<T>, a: seq<T>, i: seq<T>, b: seq<T>, p: seq<T>, o: seq<T>, p2: seq<T>)
    requires q + a == b + p && p + i == o + p2
    ensures q + (a + i) == (b + o) + p2
  {
    assert q + (a + i) == (q + a) + i;
    assert (b + p) + i == b + (p + i);
    assert b + (o + p2) == (b + o) + p2;
  }

  /* Sizing */

  /** next_pow2_u32 */
  function NextPow2(v: bv32): bv32 {
    if v <= 1 then 1
    else
      var a := v - 1;
      var b := a | (a >> 1);
      var c := b | (b >> 2);
      var d := c | (c >> 4);
      var e := d | (d >> 8);
      var f := e | (e >> 16);
      f + 1
  }

  predicate PowerOfTwo(p: bv32) { p != 0 && p & (p - 1) == 0 }

  /** The least power of two that is not below `v`, when one exists in 32 bits; 0 otherwise. */
  lemma NextPow2Least(v: bv32, p: bv32)
    ensures v <= 0x8000_0000 ==> PowerOfTwo(NextPow2(v)) && v <= NextPow2(v)
    ensures v <= 0x8000_0000 && PowerOfTwo(p) && v <= p ==> NextPow2(v) <= p
    ensures v > 0x8000_0000 ==> NextPow2(v) == 0
  {
  }
}
