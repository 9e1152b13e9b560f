/**
 * Who holds a UMEM frame: the steps of `src/core/interface.c`, `forwarder.c`, `dataplane_local.c` and
 * `dataplane_wan.c` that pass frames on, interleaved with the kernel's.  A frame is its address divided by
 * the frame size.
 */
module Frames {
  import opened Modular

  /** The capacity of every packet, fill, transmit and completion ring, and the largest batch. */
  const RING: nat := 16384
  const BATCH: nat := 64

  datatype Side = Lan | Wan
  datatype Queue = Queue(side: Side, dev: nat, index: nat)

  /** Where a frame can be: the pool, the rings, and the local variables of the threads that carry frames. */
  datatype Place =
    | Pool
    | Refill(q: Queue)                             // refill_fq_queue, between pop and submit
    | Fill(q: Queue) | Rx(q: Queue)                // fill ring and receive ring
    | Batch(q: Queue)                              // an RX thread's batch
    | Inbox(side: Side, w: nat)                    // local_to_mid and wan_to_mid
    | Job(w: nat) | Spare(w: nat)                  // a worker's packet, and the frame for its second fragment
    | Outbox(side: Side, dev: nat, w: nat)         // mid_to_local and mid_to_wan
    | Sending(q: Queue)                            // tx_drain_queue, between pop and submit
    | Tx(q: Queue) | Flight(q: Queue) | Done(q: Queue)
    | Flushing                                     // fwd_wan_flush_queue

  /** Where a worker is: in push_split_to_wan it has checked for room, taken a frame, or pushed one of two. */
  datatype Pc = Idle | Working | Roomy(dev: nat) | Both(dev: nat) | Half(dev: nat)

  /** `draining` holds what a TX thread is about: the worker whose ring it empties and how many it wants. */
  datatype State = State(at: map<Place, seq<nat>>, pcs: map<nat, Pc>, draining: map<Queue, Drain>)
  datatype Drain = Drain(w: nat, want: nat)

  function At(at: map<Place, seq<nat>>, p: Place): seq<nat> { if p in at then at[p] else [] }

  function Holds(s: State, p: Place): seq<nat> { At(s.at, p) }

  /** How many frames a place holds. */
  function Size(s: State, p: Place): nat { |Holds(s, p)| }

  function PcOf(s: State, w: nat): Pc { if w in s.pcs then s.pcs[w] else Idle }

  /** The first `n` frames at `from` go to the end of `to`. */
  function Move(at: map<Place, seq<nat>>, from: Place, to: Place, n: nat): map<Place, seq<nat>>
    requires n <= |At(at, from)| && from != to
  {
    at[to := At(at, to) + At(at, from)[..n]][from := At(at, from)[n..]]
  }

  /** pool_push of the first `n` frames at `from`, by a caller that forgets those that do not fit. */
  function Return(at: map<Place, seq<nat>>, from: Place, n: nat, cap: nat): map<Place, seq<nat>>
    requires n <= |At(at, from)| && from != Pool
  {
    var room := if |At(at, Pool)| > cap then 0 else cap - |At(at, Pool)|;
    var put := if n < room then n else room;
    at[Pool := At(at, Pool) + At(at, from)[..put]][from := At(at, from)[n..]]
  }

  datatype Event =
    | Receive(q: Queue, r: ReceiveStep)
    | Work(w: nat, k: WorkStep)
    | Transmit(q: Queue, t: TransmitStep)
    | FlushTake(dev: nat, w: nat) | FlushGive        // fwd_wan_flush_queue, by the first worker on any ring

  /** refill_fq_queue, the kernel, recv_queue and the loops of the RX threads. */
  datatype ReceiveStep =
    | RefillTake(free: nat) | RefillGive | KernelReceive | Peek(n: nat) | Dispatch(w: nat) | DropReceived

  /** crypto_worker_thread, dataplane_process_local, dataplane_process_wan and push_split_to_wan. */
  datatype WorkStep =
    | TakeJob(side: Side) | DropJob | PushJob(side: Side, dev: nat, fits: bool)
    | SplitCheck(dev: nat, fits: bool) | SplitAlloc | SplitFirst | SplitSecond

  /** tx_drain_queue, the kernel and drain_cq_queue. */
  datatype TransmitStep =
    | DrainStart(w: nat, free: nat) | DrainTake | DrainGive | KernelSend | KernelComplete(i: nat) | Reclaim(n: nat)

  /**
   * When the step can be taken.  `free` is what xsk_prod_nb_free reports, at most the ring's free slots:
   * only the kernel can make it stale, by freeing more.
   */
  predicate Enabled(s: State, ev: Event) {
    match ev
    case Receive(q, r) => CanReceive(s, q, r)
    case Work(w, k) => CanWork(s, w, k)
    case Transmit(q, t) => CanTransmit(s, q, t)
    case FlushTake(dev, w) => Size(s, Flushing) == 0 && Size(s, Outbox(Wan, dev, w)) > 0
    case FlushGive => Size(s, Flushing) > 0
  }

  predicate CanReceive(s: State, q: Queue, r: ReceiveStep) {
    match r
    case RefillTake(free) => Size(s, Refill(q)) == 0 && free <= BATCH && Size(s, Fill(q)) + free <= RING
    case RefillGive => true
    case KernelReceive => Size(s, Fill(q)) > 0
    case Peek(n) => Size(s, Batch(q)) == 0 && n <= BATCH && n <= Size(s, Rx(q))
    case Dispatch(_) => Size(s, Batch(q)) > 0
    case DropReceived => Size(s, Batch(q)) > 0
  }

  predicate CanWork(s: State, w: nat, k: WorkStep) {
    match k
    case TakeJob(side) => PcOf(s, w) == Idle && Size(s, Inbox(side, w)) > 0
    case DropJob => PcOf(s, w) == Working
    case PushJob(_, _, _) => PcOf(s, w) == Working
    case SplitCheck(_, _) => PcOf(s, w) == Working
    case SplitAlloc => PcOf(s, w).Roomy?
    case SplitFirst => PcOf(s, w).Both?
    case SplitSecond => PcOf(s, w).Half?
  }

  predicate CanTransmit(s: State, q: Queue, t: TransmitStep) {
    match t
    case DrainStart(w, free) => q !in s.draining && free <= BATCH && Size(s, Tx(q)) + free <= RING
    case DrainTake => q in s.draining && Size(s, Sending(q)) < s.draining[q].want && Size(s, Source(s, q)) > 0
    case DrainGive => q in s.draining
    case KernelSend => Size(s, Tx(q)) > 0
    case KernelComplete(i) => i < Size(s, Flight(q))
    case Reclaim(n) => n <= BATCH && n <= Size(s, Done(q))
  }

  /** The ring a TX thread is emptying into the queue. */
  function Source(s: State, q: Queue): Place
    requires q in s.draining
  {
    Outbox(q.side, q.dev, s.draining[q].w)
  }

  /** ne_ring_try_push of the frame in hand at `from`; if the ring is full it goes back to the pool. */
  function PushOrReturn(at: map<Place, seq<nat>>, from: Place, to: Place, fits: bool, cap: nat): map<Place, seq<nat>>
    requires At(at, from) != [] && from != to && from != Pool
  {
    if fits && |At(at, to)| < RING then Move(at, from, to, 1) else Return(at, from, 1, cap)
  }

  /** refill_fq_queue after the pop: on a failed reserve the frames go back to the pool. */
  function GiveToFill(at: map<Place, seq<nat>>, q: Queue, cap: nat): map<Place, seq<nat>> {
    var n := |At(at, Refill(q))|;
    if |At(at, Fill(q))| + n <= RING then Move(at, Refill(q), Fill(q), n) else Return(at, Refill(q), n, cap)
  }

  /** tx_drain_queue after the pops: on a failed reserve the frames go back to their ring, as far as they fit. */
  function GiveToTx(at: map<Place, seq<nat>>, q: Queue, src: Place): map<Place, seq<nat>>
    requires src != Sending(q)
  {
    var n := |At(at, Sending(q))|;
    if |At(at, Tx(q))| + n <= RING then Move(at, Sending(q), Tx(q), n)
    else
      var room := if |At(at, src)| > RING then 0 else RING - |At(at, src)|;
      var put := if n < room then n else room;
      at[src := At(at, src) + At(at, Sending(q))[..put]][Sending(q) := []]
  }

  /** The kernel completes transmissions in any order. */
  function Complete(at: map<Place, seq<nat>>, q: Queue, i: nat): map<Place, seq<nat>>
    requires i < |At(at, Flight(q))|
  {
    var f := At(at, Flight(q));
    at[Done(q) := At(at, Done(q)) + [f[i]]][Flight(q) := f[..i] + f[i + 1..]]
  }

  /** drain_cq_queue: what the pool has no room for stays in the completion ring. */
  function ReclaimDone(at: map<Place, seq<nat>>, q: Queue, n: nat, cap: nat): map<Place, seq<nat>>
    requires n <= |At(at, Done(q))|
  {
    var room := if |At(at, Pool)| > cap then 0 else cap - |At(at, Pool)|;
    Move(at, Done(q), Pool, if n < room then n else room)
  }

  /** The frames after a step, for a pool of capacity `cap`. */
  function Received(s: State, q: Queue, r: ReceiveStep, cap: nat): map<Place, seq<nat>>
    requires CanReceive(s, q, r)
  {
    match r
    case RefillTake(free) => Move(s.at, Pool, Refill(q), if free < Size(s, Pool) then free else Size(s, Pool))
    case RefillGive => GiveToFill(s.at, q, cap)
    case KernelReceive => Move(s.at, Fill(q), Rx(q), 1)
    case Peek(n) => Move(s.at, Rx(q), Batch(q), n)
    case Dispatch(w) => PushOrReturn(s.at, Batch(q), Inbox(q.side, w), true, cap)
    case DropReceived => Return(s.at, Batch(q), 1, cap)
  }

  function Worked(s: State, w: nat, k: WorkStep, cap: nat): map<Place, seq<nat>>
    requires CanWork(s, w, k) && Hands(s, w)
  {
    match k
    case TakeJob(side) => Move(s.at, Inbox(side, w), Job(w), 1)
    case DropJob => Return(s.at, Job(w), 1, cap)
    case PushJob(side, dev, fits) => PushOrReturn(s.at, Job(w), Outbox(side, dev, w), fits, cap)
    case SplitCheck(dev, fits) => s.at
    case SplitAlloc => if Size(s, Pool) == 0 then s.at else Move(s.at, Pool, Spare(w), 1)
    case SplitFirst =>
      var out := Outbox(Wan, PcOf(s, w).dev, w);
      if Size(s, out) < RING then Move(s.at, Job(w), out, 1) else Return(s.at, Spare(w), 1, cap)
    case SplitSecond => PushOrReturn(s.at, Spare(w), Outbox(Wan, PcOf(s, w).dev, w), true, cap)
  }

  function Transmitted(s: State, q: Queue, t: TransmitStep, cap: nat): map<Place, seq<nat>>
    requires CanTransmit(s, q, t)
  {
    match t
    case DrainStart(_, _) => s.at
    case DrainTake => Move(s.at, Source(s, q), Sending(q), 1)
    case DrainGive => GiveToTx(s.at, q, Source(s, q))
    case KernelSend => Move(s.at, Tx(q), Flight(q), 1)
    case KernelComplete(i) => Complete(s.at, q, i)
    case Reclaim(n) => ReclaimDone(s.at, q, n, cap)
  }

  /** Where the worker goes on; a failed split goes back to the caller, which drops the packet. */
  function NextPc(s: State, w: nat, k: WorkStep): Pc
    requires CanWork(s, w, k)
  {
    var pc := PcOf(s, w);
    match k
    case TakeJob(_) => Working
    case DropJob => Idle
    case PushJob(_, _, _) => Idle
    case SplitCheck(dev, fits) => if Size(s, Outbox(Wan, dev, w)) + 2 > RING || !fits then pc else Roomy(dev)
    case SplitAlloc => if Size(s, Pool) == 0 then Working else Both(pc.dev)
    case SplitFirst => if Size(s, Outbox(Wan, pc.dev, w)) < RING then Half(pc.dev) else Working
    case SplitSecond => Idle
  }

  function NextDraining(s: State, q: Queue, t: TransmitStep): map<Queue, Drain> {
    match t
    case DrainStart(w, free) => s.draining[q := Drain(w, free)]
    case DrainGive => s.draining - {q}
    case _ => s.draining
  }

  function Step(s: State, ev: Event, cap: nat): State
    requires Enabled(s, ev) && HandsInv(s)
  {
    match ev
    case Receive(q, r) => State(Received(s, q, r, cap), s.pcs, s.draining)
    case Work(w, k) => assert Hands(s, w); State(Worked(s, w, k, cap), s.pcs[w := NextPc(s, w, k)], s.draining)
    case Transmit(q, t) => State(Transmitted(s, q, t, cap), s.pcs, NextDraining(s, q, t))
    case FlushTake(dev, w) => State(Move(s.at, Outbox(Wan, dev, w), Flushing, 1), s.pcs, s.draining)
    case FlushGive => State(Return(s.at, Flushing, 1, cap), s.pcs, s.draining)
  }

  /* Invariants */

  /** What each worker has in hand. */
  predicate Hands(s: State, w: nat) {
    var pc := PcOf(s, w);
    Size(s, Job(w)) == (if pc.Idle? || pc.Half? then 0 else 1)
    && Size(s, Spare(w)) == (if pc.Both? || pc.Half? then 1 else 0)
  }

  ghost predicate HandsInv(s: State) { forall w: nat :: Hands(s, w) }

  /** The room a worker's ring keeps while the worker splits: only that worker pushes there. */
  predicate KeepsRoom(s: State, w: nat) {
    match PcOf(s, w)
    case Roomy(d) => Size(s, Outbox(Wan, d, w)) + 2 <= RING
    case Both(d) => Size(s, Outbox(Wan, d, w)) + 2 <= RING
    case Half(d) => Size(s, Outbox(Wan, d, w)) + 1 <= RING
    case _ => true
  }

  ghost predicate RoomInv(s: State) { forall w: nat :: KeepsRoom(s, w) }

  /** What was popped for a ring still fits it. */
  predicate Fits(s: State, q: Queue) {
    Size(s, Fill(q)) + Size(s, Refill(q)) <= RING
    && if q in s.draining then Size(s, Sending(q)) <= s.draining[q].want && Size(s, Tx(q)) + s.draining[q].want <= RING
       else Size(s, Sending(q)) == 0
  }

  ghost predicate FitsInv(s: State) { forall q :: Fits(s, q) }

  /** All frames, wherever they are, with their multiplicities. */
  ghost function Total(at: map<Place, seq<nat>>): multiset<nat>
    decreases |at|
  {
    if |at| == 0 then multiset{}
    else
      var p :| p in at;
      multiset(at[p]) + Total(at - {p})
  }

  /** Each of the frames 0 to n - 1 once. */
  ghost function AllFrames(n: nat): (m: multiset<nat>)
    ensures |m| == n && forall x: nat :: m[x] == if x < n then 1 else 0
  {
    if n == 0 then multiset{} else AllFrames(n - 1) + multiset{n - 1}
  }

  ghost predicate Inv(s: State, n: nat) {
    Total(s.at) == AllFrames(n) && HandsInv(s) && RoomInv(s) && FitsInv(s)
  }

  /* Conservation */

  /** The place that the definition happens to take first. */
  lemma TotalFirst(at: map<Place, seq<nat>>) returns (q: Place)
    requires |at| > 0
    ensures q in at && Total(at) == multiset(at[q]) + Total(at - {q})
  {
    q :| q in at && Total(at) == multiset(at[q]) + Total(at - {q});
  }

  lemma RemoveTwo(at: map<Place, seq<nat>>, p: Place, q: Place)
    ensures at - {q} - {p} == at - {p} - {q}
  {
  }

  lemma SumSwap(a: multiset<nat>, b: multiset<nat>, c: multiset<nat>)
    ensures a + (b + c) == b + (a + c)
  {
  }

  lemma {:induction false} TotalAt(at: map<Place, seq<nat>>, p: Place)
    requires p in at
    ensures Total(at) == multiset(at[p]) + Total(at - {p})
    decreases |at|
  {
    var q := TotalFirst(at);
    hide Total;
    if q != p {
      TotalAt(at - {q}, p);
      TotalAt(at - {p}, q);
      RemoveTwo(at, p, q);
      SumSwap(multiset(at[q]), multiset(at[p]), Total(at - {p} - {q}));
    }
  }

  /** Replacing what one place holds. */
  lemma TotalPut(at: map<Place, seq<nat>>, p: Place, x: seq<nat>)
    ensures Total(at[p := x]) + multiset(At(at, p)) == Total(at) + multiset(x)
  {
    hide Total;
    var rest := at - {p};
    TotalAt(at[p := x], p);
    assert at[p := x] - {p} == rest;
    if p in at {
      TotalAt(at, p);
      assert multiset(x) + Total(rest) + multiset(at[p]) == multiset(at[p]) + Total(rest) + multiset(x);
    } else {
      assert rest == at;
    }
  }

  lemma Cancel(a: multiset<nat>, b: multiset<nat>, c: multiset<nat>)
    requires a + c == b + c
    ensures a == b
  {
    assert forall x :: a[x] == (a + c)[x] - c[x] && b[x] == (b + c)[x] - c[x];
  }

  /** Passing frames from one place to another keeps the total. */
  lemma TotalPass(at: map<Place, seq<nat>>, from: Place, to: Place, kept: seq<nat>, passed: seq<nat>)
    requires from != to && multiset(At(at, from)) == multiset(kept) + multiset(passed)
    ensures Total(at[to := At(at, to) + passed][from := kept]) == Total(at)
  {
    var mid := at[to := At(at, to) + passed];
    TotalPut(at, to, At(at, to) + passed);
    TotalPut(mid, from, kept);
    assert At(mid, from) == At(at, from);
    Cancel(Total(mid), Total(at) + multiset(passed), multiset(At(at, to)));
    Cancel(Total(mid[from := kept]), Total(at), multiset(At(at, from)));
    hide Total;
  }

  lemma MoveConserves(at: map<Place, seq<nat>>, from: Place, to: Place, n: nat)
    requires n <= |At(at, from)| && from != to
    ensures Total(Move(at, from, to, n)) == Total(at)
  {
    assert At(at, from) == At(at, from)[..n] + At(at, from)[n..];
    TotalPass(at, from, to, At(at, from)[n..], At(at, from)[..n]);
  }

  lemma CompleteConserves(at: map<Place, seq<nat>>, q: Queue, i: nat)
    requires i < |At(at, Flight(q))|
    ensures Total(Complete(at, q, i)) == Total(at)
  {
    var f := At(at, Flight(q));
    assert f == f[..i] + ([f[i]] + f[i + 1..]);
    TotalPass(at, Flight(q), Done(q), f[..i] + f[i + 1..], [f[i]]);
  }

  /** Two places together hold no more than all frames: what is in hand always fits the pool. */
  lemma PoolHasRoom(at: map<Place, seq<nat>>, from: Place, n: nat)
    requires Total(at) == AllFrames(n) && from != Pool
    ensures |At(at, Pool)| + |At(at, from)| <= n
  {
    var rest := at;
    if Pool in at {
      TotalAt(at, Pool);
      rest := at - {Pool};
    }
    if from in rest {
      TotalAt(rest, from);
    }
    hide Total;
  }

  lemma ReturnIsMove(at: map<Place, seq<nat>>, from: Place, k: nat, n: nat)
    requires Total(at) == AllFrames(n) && from != Pool && k <= |At(at, from)|
    ensures Return(at, from, k, n) == Move(at, from, Pool, k)
  {
    PoolHasRoom(at, from, n);
  }

  /** What a step passes on, if nothing overflows. */
  datatype Flow = Stay | Pass(from: Place, to: Place, n: nat)

  function FlowIn(s: State, q: Queue, r: ReceiveStep): Flow
    requires CanReceive(s, q, r)
  {
    match r
    case RefillTake(free) => Pass(Pool, Refill(q), if free < Size(s, Pool) then free else Size(s, Pool))
    case RefillGive => Pass(Refill(q), Fill(q), Size(s, Refill(q)))
    case KernelReceive => Pass(Fill(q), Rx(q), 1)
    case Peek(n) => Pass(Rx(q), Batch(q), n)
    case Dispatch(w) => Pass(Batch(q), if Size(s, Inbox(q.side, w)) < RING then Inbox(q.side, w) else Pool, 1)
    case DropReceived => Pass(Batch(q), Pool, 1)
  }

  function FlowAt(s: State, w: nat, k: WorkStep): Flow
    requires CanWork(s, w, k)
  {
    match k
    case TakeJob(side) => Pass(Inbox(side, w), Job(w), 1)
    case DropJob => Pass(Job(w), Pool, 1)
    case PushJob(side, dev, fits) =>
      Pass(Job(w), if fits && Size(s, Outbox(side, dev, w)) < RING then Outbox(side, dev, w) else Pool, 1)
    case SplitCheck(_, _) => Stay
    case SplitAlloc => if Size(s, Pool) == 0 then Stay else Pass(Pool, Spare(w), 1)
    case SplitFirst => Pass(Job(w), Outbox(Wan, PcOf(s, w).dev, w), 1)
    case SplitSecond => Pass(Spare(w), Outbox(Wan, PcOf(s, w).dev, w), 1)
  }

  function FlowOut(s: State, q: Queue, t: TransmitStep): Flow
    requires CanTransmit(s, q, t)
  {
    match t
    case DrainStart(_, _) => Stay
    case DrainTake => Pass(Source(s, q), Sending(q), 1)
    case DrainGive => Pass(Sending(q), Tx(q), Size(s, Sending(q)))
    case KernelSend => Pass(Tx(q), Flight(q), 1)
    case KernelComplete(_) => Pass(Flight(q), Done(q), 1)
    case Reclaim(n) => Pass(Done(q), Pool, n)
  }

  function FlowOf(s: State, ev: Event): Flow
    requires Enabled(s, ev)
  {
    match ev
    case Receive(q, r) => FlowIn(s, q, r)
    case Work(w, k) => FlowAt(s, w, k)
    case Transmit(q, t) => FlowOut(s, q, t)
    case FlushTake(dev, w) => Pass(Outbox(Wan, dev, w), Flushing, 1)
    case FlushGive => Pass(Flushing, Pool, 1)
  }

  /** The frames after the flow, whichever of the ones in flight completes. */
  predicate Follows(at: map<Place, seq<nat>>, f: Flow, next: map<Place, seq<nat>>) {
    match f
    case Stay => next == at
    case Pass(from, to, k) =>
      from != to && k <= |At(at, from)|
      && (next == Move(at, from, to, k)
          || (from.Flight? && to == Done(from.q) && exists i :: 0 <= i < |At(at, from)| && next == Complete(at, from.q, i)))
  }

  lemma MoveFollows(at: map<Place, seq<nat>>, from: Place, to: Place, k: nat)
    requires from != to && k <= |At(at, from)|
    ensures Follows(at, Pass(from, to, k), Move(at, from, to, k))
  {
  }

  lemma FlowFollows(at: map<Place, seq<nat>>, f: Flow, next: map<Place, seq<nat>>)
    requires match f
             case Stay => next == at
             case Pass(from, to, k) => from != to && k <= |At(at, from)| && next == Move(at, from, to, k)
    ensures Follows(at, f, next)
  {
  }

  lemma CompleteFollows(s: State, q: Queue, i: nat, n: nat)
    requires CanTransmit(s, q, KernelComplete(i))
    ensures Follows(s.at, FlowOut(s, q, KernelComplete(i)), Transmitted(s, q, KernelComplete(i), n))
  {
    hide Complete;
  }

  lemma PushMoves(at: map<Place, seq<nat>>, from: Place, to: Place, fits: bool, n: nat)
    requires Total(at) == AllFrames(n) && At(at, from) != [] && from != to && from != Pool
    ensures PushOrReturn(at, from, to, fits, n) == Move(at, from, if fits && |At(at, to)| < RING then to else Pool, 1)
  {
    ReturnIsMove(at, from, 1, n);
    hide Total, AllFrames, Move, Return, At;
  }

  lemma ReceivedMoves(s: State, q: Queue, r: ReceiveStep, n: nat)
    requires Fits(s, q) && Total(s.at) == AllFrames(n) && CanReceive(s, q, r)
    ensures var f := FlowIn(s, q, r);
            f.Pass? && f.from != f.to && f.n <= |At(s.at, f.from)| && Received(s, q, r, n) == Move(s.at, f.from, f.to, f.n)
  {
    hide Total, AllFrames, Move, Return, At, PushOrReturn;
    if r.Dispatch? {
      PushMoves(s.at, Batch(q), Inbox(q.side, r.w), true, n);
    } else if r.DropReceived? {
      ReturnIsMove(s.at, Batch(q), 1, n);
    }
  }

  lemma WorkedMoves(s: State, w: nat, k: WorkStep, n: nat)
    requires Hands(s, w) && KeepsRoom(s, w) && Total(s.at) == AllFrames(n) && CanWork(s, w, k)
    ensures var f := FlowAt(s, w, k);
            match f
            case Stay => Worked(s, w, k, n) == s.at
            case Pass(from, to, m) => from != to && m <= |At(s.at, from)| && Worked(s, w, k, n) == Move(s.at, from, to, m)
  {
    hide Total, AllFrames, Move, Return, At, PushOrReturn, PcOf;
    if k.PushJob? {
      PushMoves(s.at, Job(w), Outbox(k.side, k.dev, w), k.fits, n);
    } else if k.DropJob? {
      ReturnIsMove(s.at, Job(w), 1, n);
    } else if k.SplitSecond? {
      PushMoves(s.at, Spare(w), Outbox(Wan, PcOf(s, w).dev, w), true, n);
    }
  }

  lemma TransmittedMoves(s: State, q: Queue, t: TransmitStep, n: nat)
    requires Fits(s, q) && Total(s.at) == AllFrames(n) && CanTransmit(s, q, t) && !t.KernelComplete?
    ensures var f := FlowOut(s, q, t);
            match f
            case Stay => Transmitted(s, q, t, n) == s.at
            case Pass(from, to, m) => from != to && m <= |At(s.at, from)| && Transmitted(s, q, t, n) == Move(s.at, from, to, m)
  {
    hide Total, AllFrames, Move, Return, At;
    if t.Reclaim? {
      PoolHasRoom(s.at, Done(q), n);
    }
  }

  /**
   * Every step passes frames from one place to another and loses none: pool_push never falls short, no
   * reserve fails, and neither push of a split finds its ring full.
   */
  lemma NothingOverflows(s: State, ev: Event, n: nat)
    requires Inv(s, n) && Enabled(s, ev)
    ensures Follows(s.at, FlowOf(s, ev), Step(s, ev, n).at)
  {
    hide Inv, Step, FlowOf, Follows, CanReceive, CanWork, CanTransmit;
    match ev
    case FlushTake(_, _) => FlushLosesNone(s, ev, n);
    case FlushGive => FlushLosesNone(s, ev, n);
    case Receive(q, r) => ReceiveLosesNone(s, q, r, n);
    case Work(w, k) => WorkLosesNone(s, w, k, n);
    case Transmit(q, t) => TransmitLosesNone(s, q, t, n);
  }

  lemma FlushLosesNone(s: State, ev: Event, n: nat)
    requires Inv(s, n) && Enabled(s, ev) && (ev.FlushTake? || ev.FlushGive?)
    ensures Follows(s.at, FlowOf(s, ev), Step(s, ev, n).at)
  {
    if ev.FlushTake? {
      MoveFollows(s.at, Outbox(Wan, ev.dev, ev.w), Flushing, 1);
    } else {
      ReturnIsMove(s.at, Flushing, 1, n);
      MoveFollows(s.at, Flushing, Pool, 1);
    }
    hide Follows, Move, Return, Total, AllFrames;
  }

  lemma ReceiveLosesNone(s: State, q: Queue, r: ReceiveStep, n: nat)
    requires Inv(s, n) && CanReceive(s, q, r)
    ensures Follows(s.at, FlowOf(s, Receive(q, r)), Step(s, Receive(q, r), n).at)
  {
    hide Received, FlowIn, Follows, Total, AllFrames, CanReceive;
    assert Fits(s, q);
    ReceivedMoves(s, q, r, n);
    FlowFollows(s.at, FlowIn(s, q, r), Received(s, q, r, n));
  }

  lemma WorkLosesNone(s: State, w: nat, k: WorkStep, n: nat)
    requires Inv(s, n) && CanWork(s, w, k)
    ensures Follows(s.at, FlowOf(s, Work(w, k)), Step(s, Work(w, k), n).at)
  {
    hide Worked, FlowAt, Follows, Total, AllFrames, CanWork;
    assert Hands(s, w) && KeepsRoom(s, w);
    WorkedMoves(s, w, k, n);
    FlowFollows(s.at, FlowAt(s, w, k), Worked(s, w, k, n));
  }

  lemma TransmitLosesNone(s: State, q: Queue, t: TransmitStep, n: nat)
    requires Inv(s, n) && CanTransmit(s, q, t)
    ensures Follows(s.at, FlowOf(s, Transmit(q, t)), Step(s, Transmit(q, t), n).at)
  {
    hide Transmitted, FlowOut, Follows, Total, AllFrames, CanTransmit, Hands, KeepsRoom, Fits;
    assert Fits(s, q);
    if t.KernelComplete? {
      CompleteFollows(s, q, t.i, n);
    } else {
      TransmittedMoves(s, q, t, n);
      FlowFollows(s.at, FlowOut(s, q, t), Transmitted(s, q, t, n));
    }
  }

  lemma FollowsConserves(at: map<Place, seq<nat>>, f: Flow, next: map<Place, seq<nat>>)
    requires Follows(at, f, next)
    ensures Total(next) == Total(at)
  {
    hide Total, Move, Complete;
    if f.Pass? {
      if next == Move(at, f.from, f.to, f.n) {
        MoveConserves(at, f.from, f.to, f.n);
      } else {
        var i :| 0 <= i < |At(at, f.from)| && next == Complete(at, f.from.q, i);
        CompleteConserves(at, f.from.q, i);
      }
    }
  }

  function NewSize(s: State, f: Flow, p: Place): int {
    match f
    case Stay => Size(s, p)
    case Pass(from, to, k) => if p == from then Size(s, p) - k else if p == to then Size(s, p) + k else Size(s, p)
  }

  lemma FollowsSizes(s: State, f: Flow, next: map<Place, seq<nat>>, p: Place)
    requires Follows(s.at, f, next) && (f.Pass? && f.from.Flight? ==> f.n == 1)
    ensures |At(next, p)| == NewSize(s, f, p)
  {
  }

  lemma StepSizes(s: State, ev: Event, n: nat, p: Place)
    requires Inv(s, n) && Enabled(s, ev)
    ensures Size(Step(s, ev, n), p) == NewSize(s, FlowOf(s, ev), p)
  {
    NothingOverflows(s, ev, n);
    FollowsSizes(s, FlowOf(s, ev), Step(s, ev, n).at, p);
    hide Total, AllFrames, Follows, Step, NewSize, At;
  }

  /** The places that the thread or kernel path behind a step works on. */
  predicate MayTouch(ev: Event, p: Place) {
    p.Pool? ||
    match ev
    case Receive(q, _) => p.Inbox? || ((p.Refill? || p.Fill? || p.Rx? || p.Batch?) && p.q == q)
    case Work(w, _) => (p.Inbox? || p.Job? || p.Spare? || p.Outbox?) && p.w == w
    case Transmit(q, _) => p.Outbox? || ((p.Sending? || p.Tx? || p.Flight? || p.Done?) && p.q == q)
    case _ => p.Outbox? || p.Flushing?
  }

  lemma FlowTouches(s: State, ev: Event)
    requires Enabled(s, ev)
    ensures FlowOf(s, ev).Pass? ==> MayTouch(ev, FlowOf(s, ev).from) && MayTouch(ev, FlowOf(s, ev).to)
  {
    hide Size;
  }

  lemma Untouched(s: State, ev: Event, n: nat, p: Place)
    requires Inv(s, n) && Enabled(s, ev) && !MayTouch(ev, p)
    ensures Size(Step(s, ev, n), p) == Size(s, p)
  {
    StepSizes(s, ev, n, p);
    FlowTouches(s, ev);
    hide Total, AllFrames, Step, FlowOf, Size, Inv, MayTouch, Enabled, HandsInv;
  }

  /** Only the worker itself pushes to its rings: the steps of others can only make room there. */
  lemma OthersMakeRoom(s: State, ev: Event, n: nat, dev: nat, w: nat)
    requires Inv(s, n) && Enabled(s, ev) && !(ev.Work? && ev.w == w)
    ensures Size(Step(s, ev, n), Outbox(Wan, dev, w)) <= Size(s, Outbox(Wan, dev, w))
  {
    StepSizes(s, ev, n, Outbox(Wan, dev, w));
    OthersTakeOnly(s, ev, dev, w);
    hide Total, AllFrames, Step, Size, Inv, HandsInv, FlowOf, Enabled;
  }

  lemma OthersTakeOnly(s: State, ev: Event, dev: nat, w: nat)
    requires Enabled(s, ev) && !(ev.Work? && ev.w == w)
    ensures FlowOf(s, ev).Pass? ==> FlowOf(s, ev).to != Outbox(Wan, dev, w)
  {
    hide Size;
  }

  lemma OthersKeepWorker(s: State, ev: Event, n: nat, w: nat)
    requires Inv(s, n) && Enabled(s, ev) && !(ev.Work? && ev.w == w)
    ensures Hands(Step(s, ev, n), w) && KeepsRoom(Step(s, ev, n), w)
  {
    assert Hands(s, w) && KeepsRoom(s, w);
    hide Total, AllFrames, Size, Inv, HandsInv, FlowOf, Received, Worked, Transmitted, Enabled;
    assert PcOf(Step(s, ev, n), w) == PcOf(s, w);
    hide Step, PcOf;
    Untouched(s, ev, n, Job(w));
    Untouched(s, ev, n, Spare(w));
    var pc := PcOf(s, w);
    if pc.Roomy? || pc.Both? || pc.Half? {
      OthersMakeRoom(s, ev, n, pc.dev, w);
    }
  }

  lemma WorkKeepsOwn(s: State, w: nat, k: WorkStep, n: nat)
    requires Inv(s, n) && CanWork(s, w, k)
    ensures Hands(Step(s, Work(w, k), n), w) && KeepsRoom(Step(s, Work(w, k), n), w)
  {
    hide Total, AllFrames, Worked, Size, NewSize, FlowAt;
    assert Hands(s, w) && KeepsRoom(s, w);
    var ev, pc := Work(w, k), NextPc(s, w, k);
    WorkerSizes(s, ev, n, w, DevOf(pc));
    WorkFits(s, w, k);
    hide Inv, HandsInv, NextPc, CanWork;
    assert PcOf(Step(s, ev, n), w) == pc;
    hide Step, PcOf;
  }

  function DevOf(pc: Pc): nat { if pc.Idle? || pc.Working? then 0 else pc.dev }

  lemma WorkFits(s: State, w: nat, k: WorkStep)
    requires Hands(s, w) && KeepsRoom(s, w) && CanWork(s, w, k)
    ensures var f, pc := FlowAt(s, w, k), NextPc(s, w, k);
            var room := NewSize(s, f, Outbox(Wan, DevOf(pc), w));
            NewSize(s, f, Job(w)) == (if pc.Idle? || pc.Half? then 0 else 1)
            && NewSize(s, f, Spare(w)) == (if pc.Both? || pc.Half? then 1 else 0)
            && (pc.Roomy? || pc.Both? ==> room + 2 <= RING) && (pc.Half? ==> room + 1 <= RING)
  {
    hide Size, PcOf;
  }

  lemma WorkerSizes(s: State, ev: Event, n: nat, w: nat, dev: nat)
    requires Inv(s, n) && Enabled(s, ev)
    ensures var s2, f := Step(s, ev, n), FlowOf(s, ev);
            Size(s2, Job(w)) == NewSize(s, f, Job(w)) && Size(s2, Spare(w)) == NewSize(s, f, Spare(w))
            && Size(s2, Outbox(Wan, dev, w)) == NewSize(s, f, Outbox(Wan, dev, w))
  {
    hide Total, AllFrames, Step, FlowOf, Size, Inv, HandsInv, Enabled, NewSize;
    StepSizes(s, ev, n, Job(w));
    StepSizes(s, ev, n, Spare(w));
    StepSizes(s, ev, n, Outbox(Wan, dev, w));
  }

  lemma OthersKeepFits(s: State, ev: Event, n: nat, q: Queue)
    requires Inv(s, n) && Enabled(s, ev) && !((ev.Receive? || ev.Transmit?) && ev.q == q)
    ensures Fits(Step(s, ev, n), q)
  {
    hide Total, AllFrames, Size, HandsInv, FlowOf, Received, Worked, Transmitted, Enabled;
    assert Fits(s, q);
    hide Inv;
    assert q in Step(s, ev, n).draining <==> q in s.draining;
    assert q in s.draining ==> Step(s, ev, n).draining[q] == s.draining[q];
    hide Step;
    Untouched(s, ev, n, Fill(q));
    Untouched(s, ev, n, Refill(q));
    Untouched(s, ev, n, Sending(q));
    Untouched(s, ev, n, Tx(q));
  }

  /** What a queue's rings hold after a step of its own receive or transmit side. */
  lemma QueueSizes(s: State, ev: Event, n: nat, q: Queue)
    requires Inv(s, n) && Enabled(s, ev) && (ev.Receive? || ev.Transmit?)
    ensures var s2, f := Step(s, ev, n), FlowOf(s, ev);
            Size(s2, Fill(q)) == NewSize(s, f, Fill(q)) && Size(s2, Refill(q)) == NewSize(s, f, Refill(q))
            && Size(s2, Sending(q)) == NewSize(s, f, Sending(q)) && Size(s2, Tx(q)) == NewSize(s, f, Tx(q))
  {
    hide Total, AllFrames, Step, FlowOf, Size, Inv, HandsInv, Enabled, NewSize;
    StepSizes(s, ev, n, Fill(q));
    StepSizes(s, ev, n, Refill(q));
    StepSizes(s, ev, n, Sending(q));
    StepSizes(s, ev, n, Tx(q));
  }

  lemma ReceiveFits(s: State, q: Queue, r: ReceiveStep)
    requires Fits(s, q) && CanReceive(s, q, r)
    ensures var f := FlowIn(s, q, r);
            NewSize(s, f, Fill(q)) + NewSize(s, f, Refill(q)) <= RING
            && NewSize(s, f, Sending(q)) == Size(s, Sending(q)) && NewSize(s, f, Tx(q)) == Size(s, Tx(q))
  {
    hide Size;
  }

  lemma ReceiveKeepsFits(s: State, q: Queue, r: ReceiveStep, n: nat)
    requires Inv(s, n) && CanReceive(s, q, r)
    ensures Fits(Step(s, Receive(q, r), n), q)
  {
    hide Total, AllFrames, Received, Size, Inv, HandsInv, NewSize, FlowIn, CanReceive, Step, Follows;
    FitsNow(s, q, n);
    ReceiveFits(s, q, r);
    QueueSizes(s, Receive(q, r), n, q);
    DrainingAfter(s, q, r, n);
  }

  lemma FitsNow(s: State, q: Queue, n: nat)
    requires Inv(s, n)
    ensures Fits(s, q)
  {
    hide Total, AllFrames, HandsInv, Fits;
  }

  lemma DrainingAfter(s: State, q: Queue, r: ReceiveStep, n: nat)
    requires Inv(s, n) && CanReceive(s, q, r)
    ensures Step(s, Receive(q, r), n).draining == s.draining
  {
    hide Total, AllFrames, HandsInv, Size, Inv, CanReceive;
  }

  lemma TransmitFits(s: State, q: Queue, t: TransmitStep)
    requires Fits(s, q) && CanTransmit(s, q, t)
    ensures var f, d := FlowOut(s, q, t), NextDraining(s, q, t);
            NewSize(s, f, Fill(q)) == Size(s, Fill(q)) && NewSize(s, f, Refill(q)) == Size(s, Refill(q))
            && if q in d then NewSize(s, f, Sending(q)) <= d[q].want && NewSize(s, f, Tx(q)) + d[q].want <= RING
               else NewSize(s, f, Sending(q)) == 0
  {
    hide Size;
  }

  lemma TransmitKeepsFits(s: State, q: Queue, t: TransmitStep, n: nat)
    requires Inv(s, n) && CanTransmit(s, q, t)
    ensures Fits(Step(s, Transmit(q, t), n), q)
  {
    hide Total, AllFrames, Transmitted, Size, Inv, HandsInv, NewSize, FlowOut, CanTransmit, NextDraining, Step, Follows;
    FitsNow(s, q, n);
    TransmitFits(s, q, t);
    QueueSizes(s, Transmit(q, t), n, q);
    DrainingNext(s, q, t, n);
  }

  lemma DrainingNext(s: State, q: Queue, t: TransmitStep, n: nat)
    requires Inv(s, n) && CanTransmit(s, q, t)
    ensures Step(s, Transmit(q, t), n).draining == NextDraining(s, q, t)
  {
    hide Total, AllFrames, HandsInv, Size, Inv, CanTransmit, NextDraining;
  }

  lemma StepKeepsInv(s: State, ev: Event, n: nat)
    requires Inv(s, n) && Enabled(s, ev)
    ensures Inv(Step(s, ev, n), n)
  {
    NothingOverflows(s, ev, n);
    FollowsConserves(s.at, FlowOf(s, ev), Step(s, ev, n).at);
    hide Total, AllFrames, Follows, Step, FlowOf, Hands, KeepsRoom, Fits, CanReceive, CanWork, CanTransmit;
    forall w: nat ensures Hands(Step(s, ev, n), w) && KeepsRoom(Step(s, ev, n), w) {
      if ev.Work? && ev.w == w {
        WorkKeepsOwn(s, w, ev.k, n);
      } else {
        OthersKeepWorker(s, ev, n, w);
      }
    }
    forall q ensures Fits(Step(s, ev, n), q) {
      if ev.Receive? && ev.q == q {
        ReceiveKeepsFits(s, q, ev.r, n);
      } else if ev.Transmit? && ev.q == q {
        TransmitKeepsFits(s, q, ev.t, n);
      } else {
        OthersKeepFits(s, ev, n, q);
      }
    }
  }

  /* Runs */

  /** ne_pair_open: every frame is pushed to the pool, whose capacity is the number of frames. */
  function Start(n: nat): State { State(map[Pool := seq(n, i => i)], map[], map[]) }

  lemma {:induction false} PoolFilled(n: nat)
    ensures multiset(seq(n, i => i)) == AllFrames(n)
  {
    if n > 0 {
      PoolFilled(n - 1);
      assert seq(n, i => i) == seq(n - 1, i => i) + [n - 1];
    }
  }

  lemma StartInv(n: nat)
    ensures Inv(Start(n), n)
  {
    var s := Start(n);
    TotalAt(s.at, Pool);
    assert s.at - {Pool} == map[];
    PoolFilled(n);
  }

  /** The steps can be taken one after the other. */
  ghost predicate Runs(s: State, evs: seq<Event>, n: nat)
    decreases |evs|
  {
    evs == [] || (HandsInv(s) && Enabled(s, evs[0]) && Runs(Step(s, evs[0], n), evs[1..], n))
  }

  ghost function After(s: State, evs: seq<Event>, n: nat): State
    requires Runs(s, evs, n)
    decreases |evs|
  {
    if evs == [] then s else After(Step(s, evs[0], n), evs[1..], n)
  }

  lemma {:induction false} RunKeepsInv(s: State, evs: seq<Event>, n: nat)
    requires Inv(s, n) && Runs(s, evs, n)
    ensures Inv(After(s, evs, n), n)
    decreases |evs|
  {
    hide Inv, HandsInv, Enabled, Step;
    if evs != [] {
      StepKeepsInv(s, evs[0], n);
      RunKeepsInv(Step(s, evs[0], n), evs[1..], n);
    }
  }

  /** After every run from the opened pair, each frame is in exactly one place, once, and there are no others. */
  lemma OneOwner(evs: seq<Event>, n: nat, x: nat, p: Place, q: Place)
    requires Runs(Start(n), evs, n)
    ensures var s := After(Start(n), evs, n);
            (x < n <==> exists r :: x in Holds(s, r))
            && multiset(Holds(s, p))[x] <= 1 && (x in Holds(s, p) && x in Holds(s, q) ==> p == q)
  {
    hide Inv, After, Runs, Start;
    StartInv(n);
    RunKeepsInv(Start(n), evs, n);
    var s := After(Start(n), evs, n);
    if x < n {
      var r := Somewhere(s, n, x);
    }
    NowhereTwice(s, n, x, p, q);
    forall r ensures x in Holds(s, r) ==> x < n {
      NowhereTwice(s, n, x, r, r);
    }
  }

  lemma Somewhere(s: State, n: nat, x: nat) returns (p: Place)
    requires Inv(s, n) && x < n
    ensures x in Holds(s, p)
  {
    hide Total, HandsInv, RoomInv, FitsInv;
    p := Owner(s.at, x);
  }

  lemma NowhereTwice(s: State, n: nat, x: nat, p: Place, q: Place)
    requires Inv(s, n)
    ensures multiset(Holds(s, p))[x] <= 1 && (x in Holds(s, p) ==> x < n)
    ensures x in Holds(s, p) && x in Holds(s, q) ==> p == q
  {
    hide Total, HandsInv, RoomInv, FitsInv, At;
    AtMost(s.at, p, x);
    if p != q {
      TwoPlaces(s.at, p, q, x);
    }
    assert x in multiset(Holds(s, p)) <==> x in Holds(s, p);
    assert x in multiset(Holds(s, q)) <==> x in Holds(s, q);
  }

  lemma {:induction false} Owner(at: map<Place, seq<nat>>, x: nat) returns (p: Place)
    requires x in Total(at)
    ensures x in At(at, p)
    decreases |at|
  {
    p := TotalFirst(at);
    if x !in at[p] {
      var q := p;
      p := Owner(at - {q}, x);
    }
  }

  lemma AtMost(at: map<Place, seq<nat>>, p: Place, x: nat)
    ensures multiset(At(at, p))[x] <= Total(at)[x]
  {
    if p in at {
      TotalAt(at, p);
    }
    hide Total;
  }

  lemma TwoPlaces(at: map<Place, seq<nat>>, p: Place, q: Place, x: nat)
    requires p != q
    ensures multiset(At(at, p))[x] + multiset(At(at, q))[x] <= Total(at)[x]
  {
    if p in at {
      TotalAt(at, p);
      AtMost(at - {p}, q, x);
    } else {
      AtMost(at, q, x);
    }
    hide Total;
  }

  /** Steps of others, seen from a worker. */
  predicate OfOthers(w: nat, evs: seq<Event>) { forall i :: 0 <= i < |evs| ==> !(evs[i].Work? && evs[i].w == w) }

  lemma {:induction false} OthersLeaveHands(s: State, evs: seq<Event>, n: nat, w: nat)
    requires Inv(s, n) && Runs(s, evs, n) && OfOthers(w, evs)
    ensures var t := After(s, evs, n);
            Inv(t, n) && PcOf(t, w) == PcOf(s, w)
            && Holds(t, Spare(w)) == Holds(s, Spare(w)) && Holds(t, Job(w)) == Holds(s, Job(w))
    decreases |evs|
  {
    hide Inv, HandsInv, Enabled, Step;
    if evs != [] {
      StepKeepsInv(s, evs[0], n);
      OtherLeavesHands(s, evs[0], n, w);
      OthersLeaveHands(Step(s, evs[0], n), evs[1..], n, w);
    }
  }

  lemma OtherLeavesHands(s: State, ev: Event, n: nat, w: nat)
    requires Inv(s, n) && Enabled(s, ev) && !(ev.Work? && ev.w == w)
    ensures var t := Step(s, ev, n);
            PcOf(t, w) == PcOf(s, w) && Holds(t, Spare(w)) == Holds(s, Spare(w)) && Holds(t, Job(w)) == Holds(s, Job(w))
  {
    assert HandsInv(s);
    hide Total, AllFrames, Received, Worked, Transmitted, Inv, FlowOf, Enabled, Follows, HandsInv;
    NothingOverflows(s, ev, n);
    FlowTouches(s, ev);
    FollowsLeaves(s.at, FlowOf(s, ev), Step(s, ev, n).at, Spare(w));
    FollowsLeaves(s.at, FlowOf(s, ev), Step(s, ev, n).at, Job(w));
  }

  lemma FollowsLeaves(at: map<Place, seq<nat>>, f: Flow, next: map<Place, seq<nat>>, p: Place)
    requires Follows(at, f, next) && (f.Pass? ==> p != f.from && p != f.to)
    ensures At(next, p) == At(at, p)
  {
  }

  /**
   * Once a splitting worker has its second frame, both fragments reach the WAN ring, first the packet's own
   * frame and then the second one, whatever the other threads do in between.
   */
  lemma SplitSendsBoth(s: State, evs: seq<Event>, n: nat, w: nat)
    requires Inv(s, n) && PcOf(s, w).Both? && OfOthers(w, evs)
    requires Runs(Step(s, Work(w, SplitFirst), n), evs, n)
    ensures var out := Outbox(Wan, PcOf(s, w).dev, w);
            var s1 := Step(s, Work(w, SplitFirst), n);
            var s2 := After(s1, evs, n);
            HandsInv(s2) && Enabled(s2, Work(w, SplitSecond))
            && var s3 := Step(s2, Work(w, SplitSecond), n);
               Holds(s1, out) == Holds(s, out) + Holds(s, Job(w)) && |Holds(s, Job(w))| == 1
               && Holds(s3, out) == Holds(s2, out) + Holds(s, Spare(w)) && |Holds(s, Spare(w))| == 1
               && PcOf(s3, w) == Idle
  {
    assert Hands(s, w) && KeepsRoom(s, w);
    FirstGoesOut(s, n, w);
    StepKeepsInv(s, Work(w, SplitFirst), n);
    var s1 := Step(s, Work(w, SplitFirst), n);
    hide Step;
    OthersLeaveHands(s1, evs, n, w);
    RunKeepsInv(s1, evs, n);
    var s2 := After(s1, evs, n);
    hide After, Runs, Total, AllFrames;
    assert Hands(s2, w) && KeepsRoom(s2, w);
    SecondGoesOut(s2, n, w);
  }

  /** The check of push_split_to_wan: the split goes on exactly if its lengths fit and its ring has room for two. */
  lemma SplitChecked(s: State, dev: nat, fits: bool, n: nat, w: nat)
    requires Inv(s, n) && PcOf(s, w) == Working
    ensures Enabled(s, Work(w, SplitCheck(dev, fits)))
    ensures var t := Step(s, Work(w, SplitCheck(dev, fits)), n);
            t.at == s.at
            && PcOf(t, w) == if fits && Size(s, Outbox(Wan, dev, w)) + 2 <= RING then Roomy(dev) else Working
  {
    hide Total, AllFrames;
  }

  /** It gets a frame exactly if the pool has one: the first. */
  lemma SplitAllocated(s: State, n: nat, w: nat)
    requires Inv(s, n) && PcOf(s, w).Roomy?
    ensures Enabled(s, Work(w, SplitAlloc))
    ensures var t := Step(s, Work(w, SplitAlloc), n);
            PcOf(t, w) == (if Holds(s, Pool) != [] then Both(PcOf(s, w).dev) else Working)
            && Holds(t, Job(w)) == Holds(s, Job(w))
            && (Holds(s, Pool) != [] ==> Holds(t, Spare(w)) == [Holds(s, Pool)[0]] && Holds(t, Pool) == Holds(s, Pool)[1..])
  {
    assert Hands(s, w);
    hide Total, AllFrames;
  }

  /**
   * A whole split, with any steps of other threads between its own.  From its check on every step of it can be taken;
   * it ends with both frames on the worker's WAN ring, the packet's own first, if the lengths fit, the ring has two
   * free slots at the check, and the pool has a frame at the allocation.
   */
  lemma SplitRuns(s: State, dev: nat, e1: seq<Event>, e2: seq<Event>, e3: seq<Event>, n: nat, w: nat)
    requires Inv(s, n) && PcOf(s, w) == Working && OfOthers(w, e1) && OfOthers(w, e2) && OfOthers(w, e3)
    requires Size(s, Outbox(Wan, dev, w)) + 2 <= RING
    requires Runs(Step(s, Work(w, SplitCheck(dev, true)), n), e1, n)
    ensures var out, x := Outbox(Wan, dev, w), Holds(s, Job(w));
            var s2 := After(Step(s, Work(w, SplitCheck(dev, true)), n), e1, n);
            |x| == 1 && HandsInv(s2) && Enabled(s2, Work(w, SplitAlloc))
            && var s3 := Step(s2, Work(w, SplitAlloc), n);
               HandsInv(s3)
               && (Holds(s2, Pool) != [] && Runs(s3, e2, n) ==>
                     var s4 := After(s3, e2, n);
                     HandsInv(s4) && Enabled(s4, Work(w, SplitFirst))
                     && var s5 := Step(s4, Work(w, SplitFirst), n);
                        HandsInv(s5) && Holds(s5, out) == Holds(s4, out) + x
                        && (Runs(s5, e3, n) ==>
                              var s6 := After(s5, e3, n);
                              HandsInv(s6) && Enabled(s6, Work(w, SplitSecond))
                              && var s7 := Step(s6, Work(w, SplitSecond), n);
                                 Holds(s7, out) == Holds(s6, out) + [Holds(s2, Pool)[0]] && PcOf(s7, w) == Idle))
  {
    hide Total, AllFrames, Step, After, Runs, KeepsRoom;
    assert Hands(s, w);
    SplitChecked(s, dev, true, n, w);
    var s1 := Step(s, Work(w, SplitCheck(dev, true)), n);
    StepKeepsInv(s, Work(w, SplitCheck(dev, true)), n);
    OthersLeaveHands(s1, e1, n, w);
    var s2 := After(s1, e1, n);
    SplitAllocated(s2, n, w);
    StepKeepsInv(s2, Work(w, SplitAlloc), n);
    var s3 := Step(s2, Work(w, SplitAlloc), n);
    if Holds(s2, Pool) != [] && Runs(s3, e2, n) {
      OthersLeaveHands(s3, e2, n, w);
      var s4 := After(s3, e2, n);
      StepKeepsInv(s4, Work(w, SplitFirst), n);
      assert KeepsRoom(s4, w);
      FirstGoesOut(s4, n, w);
      if Runs(Step(s4, Work(w, SplitFirst), n), e3, n) {
        SplitSendsBoth(s4, e3, n, w);
      }
    }
  }

  lemma FirstGoesOut(s: State, n: nat, w: nat)
    requires HandsInv(s) && KeepsRoom(s, w) && PcOf(s, w).Both?
    ensures var s1, out := Step(s, Work(w, SplitFirst), n), Outbox(Wan, PcOf(s, w).dev, w);
            Holds(s1, out) == Holds(s, out) + Holds(s, Job(w)) && Holds(s1, Spare(w)) == Holds(s, Spare(w))
            && PcOf(s1, w) == Half(PcOf(s, w).dev)
  {
    assert Hands(s, w);
    hide HandsInv, Return;
    assert Holds(s, Job(w))[..1] == Holds(s, Job(w));
  }

  lemma SecondGoesOut(s: State, n: nat, w: nat)
    requires HandsInv(s) && KeepsRoom(s, w) && PcOf(s, w).Half?
    ensures var s1, out := Step(s, Work(w, SplitSecond), n), Outbox(Wan, PcOf(s, w).dev, w);
            Holds(s1, out) == Holds(s, out) + Holds(s, Spare(w)) && PcOf(s1, w) == Idle
  {
    assert Hands(s, w);
    hide HandsInv, Return;
    assert Holds(s, Spare(w))[..1] == Holds(s, Spare(w));
  }

  /** xsk_queue_for_rx_slot and xsk_queue_for_tx_slot: is queue `q` of `nq` served by thread `slot` of `threads`? */
  predicate Serves(q: nat, slot: nat, nq: nat, threads: nat)
    requires threads > 0
  {
    var slots := if nq < threads then if nq > 0 then nq else 1 else threads;
    slot < slots && q % slots == slot
  }

  /** The queues are dealt out in turn to all threads, or to as many as there are queues. */
  lemma ServedInTurn(k: nat, r: nat, slot: nat, nq: nat, threads: nat)
    requires nq > 0 && r < threads && r < nq
    ensures Serves(k * (if nq <= threads then nq else threads) + r, slot, nq, threads) <==> slot == r
  {
    var used := if nq <= threads then nq else threads;
    DivUnique(k * used + r, used, k, r);
  }

  /** Every queue has exactly one thread, which is what makes its rings' ends single-threaded. */
  lemma OneThreadPerQueue(q: nat, nq: nat, threads: nat)
    requires q < nq && threads > 0
    ensures exists slot: nat :: slot < threads && Serves(q, slot, nq, threads)
                          && forall other: nat :: Serves(q, other, nq, threads) ==> other == slot
  {
    var slots := if nq < threads then nq else threads;
    assert Serves(q, q % slots, nq, threads);
  }
}
