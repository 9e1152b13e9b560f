/**
 * Where frames can get: from each reachable state some run returns all of them to the pool, and from there one can be
 * carried from any receive queue to any transmit queue.
 */
module FramePaths {
  import opened Frames

  /** How many steps a frame is from the pool, or more; a worker's packet may take a second frame on its way. */
  function Far(p: Place): nat {
    match p
    case Pool => 0
    case Refill(_) => 4
    case Fill(_) => 3
    case Rx(_) => 2
    case Batch(_) => 1
    case Inbox(_, _) => 13
    case Job(_) => 12
    case Spare(_) => 6
    case Outbox(_, _, _) => 5
    case Sending(_) => 4
    case Tx(_) => 3
    case Flight(_) => 2
    case Done(_) => 1
    case Flushing => 1
  }

  function Load(p: Place, frames: seq<nat>): nat { Far(p) * |frames| }

  /** The sum over all places. */
  ghost function Weight(at: map<Place, seq<nat>>): nat
    decreases |at|
  {
    if |at| == 0 then 0
    else
      var p :| p in at;
      Load(p, at[p]) + Weight(at - {p})
  }

  lemma WeightFirst(at: map<Place, seq<nat>>) returns (q: Place)
    requires |at| > 0
    ensures q in at && Weight(at) == Load(q, at[q]) + Weight(at - {q})
  {
    hide Load;
    q :| q in at && Weight(at) == Load(q, at[q]) + Weight(at - {q});
  }

  lemma {:induction false} WeightAt(at: map<Place, seq<nat>>, p: Place)
    requires p in at
    ensures Weight(at) == Load(p, at[p]) + Weight(at - {p})
    decreases |at|
  {
    var q := WeightFirst(at);
    hide Weight, Load;
    if q != p {
      WeightAt(at - {q}, p);
      WeightAt(at - {p}, q);
      RemoveTwo(at, p, q);
    }
  }

  lemma WeightPut(at: map<Place, seq<nat>>, p: Place, x: seq<nat>)
    ensures Weight(at[p := x]) + Far(p) * |At(at, p)| == Weight(at) + Far(p) * |x|
  {
    hide Weight, Far;
    var rest := at - {p};
    WeightAt(at[p := x], p);
    assert at[p := x] - {p} == rest;
    if p in at {
      WeightAt(at, p);
    } else {
      assert rest == at;
    }
  }

  lemma Distribute(a: nat, b: nat, c: nat)
    ensures a * (b + c) == a * b + a * c
  {
  }

  /** Passing `k` frames on changes the weight by what they come nearer. */
  lemma WeightPass(at: map<Place, seq<nat>>, from: Place, to: Place, kept: seq<nat>, passed: seq<nat>)
    requires from != to && |At(at, from)| == |kept| + |passed|
    ensures Weight(at[to := At(at, to) + passed][from := kept]) + Far(from) * |passed| == Weight(at) + Far(to) * |passed|
  {
    hide Weight, Far;
    var mid := at[to := At(at, to) + passed];
    WeightPut(at, to, At(at, to) + passed);
    WeightPut(mid, from, kept);
    assert At(mid, from) == At(at, from);
    Distribute(Far(to), |At(at, to)|, |passed|);
    Distribute(Far(from), |kept|, |passed|);
  }

  lemma FollowsWeight(at: map<Place, seq<nat>>, f: Flow, next: map<Place, seq<nat>>)
    requires Follows(at, f, next)
    ensures f.Stay? ==> next == at
    ensures f.Pass? && !f.from.Flight? ==> Weight(next) + Far(f.from) * f.n == Weight(at) + Far(f.to) * f.n
    ensures f.Pass? && f.from.Flight? && f.n == 1 ==> Weight(next) + Far(f.from) == Weight(at) + Far(f.to)
  {
    hide Weight, Far;
    if f.Pass? {
      if next == Move(at, f.from, f.to, f.n) {
        WeightPass(at, f.from, f.to, At(at, f.from)[f.n..], At(at, f.from)[..f.n]);
      } else {
        var i :| 0 <= i < |At(at, f.from)| && next == Complete(at, f.from.q, i);
        var g := At(at, f.from);
        WeightPass(at, f.from, f.to, g[..i] + g[i + 1..], [g[i]]);
      }
    }
  }

  /** A step that takes `k` frames from one place to another, from a state with the invariant. */
  lemma StepWeight(s: State, ev: Event, n: nat)
    requires Inv(s, n) && Enabled(s, ev)
    ensures var r, f := Step(s, ev, n), FlowOf(s, ev);
            Inv(r, n)
            && (f.Stay? ==> r.at == s.at)
            && (f.Pass? && (f.from.Flight? ==> f.n == 1) ==> Weight(r.at) + Far(f.from) * f.n == Weight(s.at) + Far(f.to) * f.n)
  {
    hide Total, AllFrames, RoomInv, FitsInv, Weight, Far, Follows, Step, FlowOf, Enabled, Hands;
    NothingOverflows(s, ev, n);
    FollowsWeight(s.at, FlowOf(s, ev), Step(s, ev, n).at);
    StepKeepsInv(s, ev, n);
  }

  lemma WeightZero(at: map<Place, seq<nat>>, p: Place)
    requires Weight(at) == 0 && p != Pool
    ensures At(at, p) == []
  {
    hide Weight;
    if p in at {
      WeightAt(at, p);
      assert Far(p) >= 1;
      MulZero(Far(p), |at[p]|);
    }
  }

  lemma MulZero(a: nat, b: nat)
    requires a >= 1 && a * b == 0
    ensures b == 0
  {
  }

  /* Bringing frames nearer */

  /** From `s` on, the steps can be taken, and at their end the frames are nearer to the pool. */
  ghost predicate Nearer(s: State, evs: seq<Event>, n: nat) {
    Runs(s, evs, n) && Inv(After(s, evs, n), n) && Weight(After(s, evs, n).at) < Weight(s.at)
  }

  lemma OneStep(s: State, ev: Event, n: nat)
    requires Inv(s, n) && Enabled(s, ev) && FlowOf(s, ev).Pass? && FlowOf(s, ev).n > 0
    requires Far(FlowOf(s, ev).to) < Far(FlowOf(s, ev).from) && (FlowOf(s, ev).from.Flight? ==> FlowOf(s, ev).n == 1)
    ensures Nearer(s, [ev], n)
  {
    hide Total, AllFrames, RoomInv, FitsInv, Weight, Far, Step, FlowOf, Enabled, Hands;
    StepWeight(s, ev, n);
    var f := FlowOf(s, ev);
    Grows(Far(f.to), Far(f.from), f.n);
    RunOne(s, ev, n);
    hide Inv, HandsInv;
  }

  lemma Grows(a: nat, b: nat, n: nat)
    requires a < b && n > 0
    ensures a * n < b * n
  {
  }

  lemma RunOne(s: State, ev: Event, n: nat)
    requires HandsInv(s) && Enabled(s, ev)
    ensures Runs(s, [ev], n) && After(s, [ev], n) == Step(s, ev, n)
  {
    hide HandsInv, Enabled, Step;
    assert [ev][1..] == [];
  }

  /** A step first, then the others. */
  lemma RunMore(s: State, ev: Event, evs: seq<Event>, n: nat)
    requires HandsInv(s) && Enabled(s, ev) && Runs(Step(s, ev, n), evs, n)
    ensures Runs(s, [ev] + evs, n) && After(s, [ev] + evs, n) == After(Step(s, ev, n), evs, n)
  {
    hide HandsInv, Enabled, Step;
    assert ([ev] + evs)[1..] == evs;
  }

  /** A step that moves no frame before others that bring some nearer. */
  lemma StayThen(s: State, ev: Event, evs: seq<Event>, n: nat)
    requires Inv(s, n) && Enabled(s, ev) && Nearer(Step(s, ev, n), evs, n)
    requires FlowOf(s, ev).Stay? || (FlowOf(s, ev).n == 0 && !FlowOf(s, ev).from.Flight?)
    ensures Nearer(s, [ev] + evs, n)
  {
    hide Total, AllFrames, RoomInv, FitsInv, Weight, Far, Step, FlowOf, Enabled, Hands;
    StepWeight(s, ev, n);
    RunMore(s, ev, evs, n);
    hide Inv, HandsInv;
  }

  /** The receiving end of a queue. */
  lemma ReceiveNearer(s: State, n: nat, p: Place) returns (evs: seq<Event>)
    requires Inv(s, n) && Size(s, p) > 0 && (p.Refill? || p.Fill? || p.Rx? || p.Batch?)
    ensures Nearer(s, evs, n)
  {
    hide Total, AllFrames, HandsInv, RoomInv, FitsInv, Size, Nearer;
    var q := p.q;
    var r := if p.Refill? then RefillGive else if p.Fill? then KernelReceive
             else if Size(s, Batch(q)) > 0 then DropReceived else Peek(1);
    evs := [Receive(q, r)];
    OneStep(s, Receive(q, r), n);
  }

  /** The rings behind a transmit queue. */
  lemma SendNearer(s: State, n: nat, p: Place) returns (evs: seq<Event>)
    requires Inv(s, n) && Size(s, p) > 0 && (p.Sending? || p.Tx? || p.Flight? || p.Done?)
    ensures Nearer(s, evs, n)
  {
    hide Total, AllFrames, HandsInv, RoomInv, Size, Nearer;
    var q := p.q;
    assert Fits(s, q);
    var t := if p.Sending? then DrainGive else if p.Tx? then KernelSend
             else if p.Flight? then KernelComplete(0) else Reclaim(1);
    evs := [Transmit(q, t)];
    OneStep(s, Transmit(q, t), n);
  }

  /** A worker with a packet in hand. */
  lemma WorkNearer(s: State, n: nat, w: nat) returns (evs: seq<Event>)
    requires Inv(s, n) && !PcOf(s, w).Idle?
    ensures Nearer(s, evs, n)
  {
    assert Hands(s, w) && KeepsRoom(s, w);
    hide Total, AllFrames, HandsInv, RoomInv, FitsInv, Size, Nearer, Hands;
    if PcOf(s, w).Roomy? {
      evs := SplitNearer(s, n, w);
    } else {
      var k := if PcOf(s, w).Working? then DropJob else if PcOf(s, w).Both? then SplitFirst else SplitSecond;
      evs := [Work(w, k)];
      OneStep(s, Work(w, k), n);
    }
  }

  /** Two steps that pass one frame each. */
  lemma TwoSteps(s: State, ev: Event, ev2: Event, n: nat)
    requires Inv(s, n) && Enabled(s, ev) && Inv(Step(s, ev, n), n) && Enabled(Step(s, ev, n), ev2)
    requires var f, g := FlowOf(s, ev), FlowOf(Step(s, ev, n), ev2);
             f.Pass? && g.Pass? && f.n == 1 && g.n == 1 && Far(f.to) + Far(g.to) < Far(f.from) + Far(g.from)
    ensures Nearer(s, [ev] + [ev2], n)
  {
    hide Total, AllFrames, RoomInv, FitsInv, Weight, Far, Step, FlowOf, Enabled, Hands;
    var r := Step(s, ev, n);
    StepWeight(s, ev, n);
    StepWeight(r, ev2, n);
    RunOne(r, ev2, n);
    RunMore(s, ev, [ev2], n);
    hide Inv, HandsInv;
  }

  lemma AllocFlow(s: State, n: nat, w: nat)
    requires Inv(s, n) && PcOf(s, w).Roomy?
    ensures Enabled(s, Work(w, SplitAlloc))
    ensures var r := Step(s, Work(w, SplitAlloc), n);
            FlowOf(s, Work(w, SplitAlloc)) == (if PcOf(r, w).Working? then Stay else Pass(Pool, Spare(w), 1))
            && (PcOf(r, w).Working? || PcOf(r, w).Both?)
  {
    hide Total, AllFrames, HandsInv, RoomInv, FitsInv, Hands, Worked;
  }

  lemma SplitNearer(s: State, n: nat, w: nat) returns (evs: seq<Event>)
    requires Inv(s, n) && PcOf(s, w).Roomy?
    ensures Nearer(s, evs, n)
  {
    hide Total, AllFrames, HandsInv, RoomInv, FitsInv, Hands, Weight, Step, PcOf, Nearer, Size, Runs, After;
    AllocFlow(s, n, w);
    var ev := Work(w, SplitAlloc);
    StepKeepsInv(s, ev, n);
    var r := Step(s, ev, n);
    var ev2 := Work(w, if PcOf(r, w).Working? then DropJob else SplitFirst);
    evs := [ev] + [ev2];
    if PcOf(r, w).Working? {
      OneStep(r, ev2, n);
      StayThen(s, ev, [ev2], n);
    } else {
      TwoSteps(s, ev, ev2, n);
    }
  }

  /** A packet that waits for a worker: the worker first ends what it is at. */
  lemma InboxNearer(s: State, n: nat, side: Side, w: nat) returns (evs: seq<Event>)
    requires Inv(s, n) && Size(s, Inbox(side, w)) > 0
    ensures Nearer(s, evs, n)
  {
    hide Total, AllFrames, HandsInv, RoomInv, FitsInv, Size, Nearer, PcOf;
    if PcOf(s, w).Idle? {
      evs := [Work(w, TakeJob(side))];
      OneStep(s, Work(w, TakeJob(side)), n);
    } else {
      evs := WorkNearer(s, n, w);
    }
  }

  /** A packet that waits for the flush at a queue change. */
  lemma FlushNearer(s: State, n: nat, dev: nat, w: nat) returns (evs: seq<Event>)
    requires Inv(s, n) && (Size(s, Outbox(Wan, dev, w)) > 0 || Size(s, Flushing) > 0)
    ensures Nearer(s, evs, n)
  {
    hide Total, AllFrames, HandsInv, RoomInv, FitsInv, Size, Nearer;
    var ev := if Size(s, Flushing) > 0 then FlushGive else FlushTake(dev, w);
    evs := [ev];
    OneStep(s, ev, n);
  }

  /** A packet that waits for a transmit thread which is not about anything: it starts on this packet's ring. */
  lemma StartNearer(s: State, n: nat, side: Side, dev: nat, w: nat) returns (evs: seq<Event>)
    requires Inv(s, n) && Size(s, Outbox(side, dev, w)) > 0 && Queue(side, dev, 0) !in s.draining
    ensures Nearer(s, evs, n)
  {
    hide Total, AllFrames, HandsInv, RoomInv, Size, Nearer, FlowOf, Weight, Runs, After;
    var q := Queue(side, dev, 0);
    assert Fits(s, q);
    if Size(s, Tx(q)) > 0 {
      evs := SendNearer(s, n, Tx(q));
    } else {
      var ev, ev2 := Transmit(q, DrainStart(w, 1)), Transmit(q, DrainTake);
      evs := [ev] + [ev2];
      Started(s, n, q, w);
      StepKeepsInv(s, ev, n);
      hide Step, FitsInv;
      OneStep(Step(s, ev, n), ev2, n);
      StayThen(s, ev, [ev2], n);
    }
  }

  lemma Started(s: State, n: nat, q: Queue, w: nat)
    requires Inv(s, n) && Size(s, Outbox(q.side, q.dev, w)) > 0 && q !in s.draining && Size(s, Tx(q)) == 0
    ensures Enabled(s, Transmit(q, DrainStart(w, 1))) && FlowOf(s, Transmit(q, DrainStart(w, 1))) == Stay
    ensures var r := Step(s, Transmit(q, DrainStart(w, 1)), n);
            Enabled(r, Transmit(q, DrainTake))
            && FlowOf(r, Transmit(q, DrainTake)) == Pass(Outbox(q.side, q.dev, w), Sending(q), 1)
  {
    assert Fits(s, q);
    hide Total, AllFrames, HandsInv, RoomInv, FitsInv;
  }

  lemma OutboxNearer(s: State, n: nat, side: Side, dev: nat, w: nat) returns (evs: seq<Event>)
    requires Inv(s, n) && Size(s, Outbox(side, dev, w)) > 0
    ensures Nearer(s, evs, n)
  {
    hide Total, AllFrames, HandsInv, RoomInv, FitsInv, Size, Nearer, FlowOf, Weight, Runs, After;
    var q := Queue(side, dev, 0);
    if q !in s.draining {
      evs := StartNearer(s, n, side, dev, w);
    } else if Size(s, Sending(q)) > 0 {
      evs := SendNearer(s, n, Sending(q));
    } else {
      GivenUp(s, n, q, side, dev, w);
      var ev := Transmit(q, DrainGive);
      StepKeepsInv(s, ev, n);
      evs := StartNearer(Step(s, ev, n), n, side, dev, w);
      hide Step;
      StayThen(s, ev, evs, n);
      evs := [ev] + evs;
    }
  }

  lemma GivenUp(s: State, n: nat, q: Queue, side: Side, dev: nat, w: nat)
    requires Inv(s, n) && q in s.draining && Size(s, Sending(q)) == 0
    ensures Enabled(s, Transmit(q, DrainGive)) && FlowOf(s, Transmit(q, DrainGive)) == Pass(Sending(q), Tx(q), 0)
    ensures var r := Step(s, Transmit(q, DrainGive), n);
            q !in r.draining && Size(r, Outbox(side, dev, w)) == Size(s, Outbox(side, dev, w))
  {
    assert Fits(s, q);
    StepSizes(s, Transmit(q, DrainGive), n, Outbox(side, dev, w));
    hide Total, AllFrames, HandsInv, RoomInv, FitsInv, Transmitted, Size;
  }

  /** Wherever a frame is, some steps bring it, or one that is in its way, nearer to the pool. */
  lemma SomeNearer(s: State, n: nat, p: Place) returns (evs: seq<Event>)
    requires Inv(s, n) && p != Pool && Size(s, p) > 0
    ensures Nearer(s, evs, n)
  {
    match p
    case Refill(_) => evs := ReceiveNearer(s, n, p);
    case Fill(_) => evs := ReceiveNearer(s, n, p);
    case Rx(_) => evs := ReceiveNearer(s, n, p);
    case Batch(_) => evs := ReceiveNearer(s, n, p);
    case Inbox(side, w) => evs := InboxNearer(s, n, side, w);
    case Job(w) => assert Hands(s, w); evs := WorkNearer(s, n, w);
    case Spare(w) => assert Hands(s, w); evs := WorkNearer(s, n, w);
    case Outbox(side, dev, w) => evs := OutboxNearer(s, n, side, dev, w);
    case Sending(_) => evs := SendNearer(s, n, p);
    case Tx(_) => evs := SendNearer(s, n, p);
    case Flight(_) => evs := SendNearer(s, n, p);
    case Done(_) => evs := SendNearer(s, n, p);
    case Flushing => evs := FlushNearer(s, n, 0, 0);
    hide Total, AllFrames, HandsInv, RoomInv, FitsInv, Size, Nearer, PcOf;
  }

  /** One run and then another. */
  lemma {:induction false} RunOn(s: State, evs: seq<Event>, more: seq<Event>, n: nat)
    requires Inv(s, n) && Runs(s, evs, n) && Runs(After(s, evs, n), more, n)
    ensures Runs(s, evs + more, n) && After(s, evs + more, n) == After(After(s, evs, n), more, n)
    decreases |evs|
  {
    hide Inv, HandsInv, Enabled, Step;
    if evs == [] {
      assert evs + more == more;
    } else {
      StepKeepsInv(s, evs[0], n);
      RunOn(Step(s, evs[0], n), evs[1..], more, n);
      assert (evs + more)[1..] == evs[1..] + more;
    }
  }

  lemma {:induction false} Drained(s: State, n: nat) returns (evs: seq<Event>)
    requires Inv(s, n)
    ensures Runs(s, evs, n) && forall p :: p != Pool ==> Holds(After(s, evs, n), p) == []
    decreases Weight(s.at)
  {
    assert Runs(s, [], n) && After(s, [], n) == s;
    hide Inv, Weight, Far, Runs, After;
    if p :| p != Pool && Size(s, p) > 0 {
      evs := SomeNearer(s, n, p);
      var more := Drained(After(s, evs, n), n);
      RunOn(s, evs, more, n);
      evs := evs + more;
    } else {
      evs := [];
      forall p | p != Pool ensures Holds(After(s, evs, n), p) == [] {
        assert Size(s, p) == 0;
      }
    }
  }

  /**
   * Nothing gets stuck: whatever has happened since the pair was opened, it can go on so that every frame is in the
   * pool again and nothing is anywhere else.
   */
  lemma AllComeBack(evs: seq<Event>, n: nat) returns (more: seq<Event>)
    requires Runs(Start(n), evs, n)
    ensures Runs(Start(n), evs + more, n)
    ensures var s := After(Start(n), evs + more, n);
            (forall x: nat :: x in Holds(s, Pool) <==> x < n) && forall p :: p != Pool ==> Holds(s, p) == []
  {
    hide Inv, Runs, After, Start;
    StartInv(n);
    RunKeepsInv(Start(n), evs, n);
    more := Drained(After(Start(n), evs, n), n);
    RunOn(Start(n), evs, more, n);
    forall x: nat, p ensures var s := After(Start(n), evs + more, n);
                             (x in Holds(s, p) ==> x < n) && (x < n ==> exists r :: x in Holds(s, r))
    {
      OneOwner(evs + more, n, x, p, p);
    }
  }

  /* The way of a packet */

  /** Apart from the pool only `p` holds anything: the frame `x`. */
  ghost predicate Alone(s: State, x: nat, p: Place) {
    p != Pool && forall r :: r != Pool ==> Holds(s, r) == if r == p then [x] else []
  }

  /** After these steps from `s` on the frame `x` is at `p`, and nothing else is outside the pool. */
  ghost predicate Carried(s: State, evs: seq<Event>, n: nat, x: nat, p: Place) {
    Inv(s, n) && Runs(s, evs, n) && Alone(After(s, evs, n), x, p) && Inv(After(s, evs, n), n)
  }

  /** What a step makes of a frame that is alone. */
  predicate Brings(s: State, ev: Event, p: Place, p2: Place) {
    p2 != Pool && Enabled(s, ev) && FlowOf(s, ev) == if p2 == p then Stay else Pass(p, p2, 1)
  }

  /** One step more. */
  lemma CarryOn(s: State, evs: seq<Event>, n: nat, x: nat, p: Place, ev: Event, p2: Place)
    requires Carried(s, evs, n, x, p) && Brings(After(s, evs, n), ev, p, p2)
    ensures Carried(s, evs + [ev], n, x, p2) && HandsInv(After(s, evs, n))
    ensures After(s, evs + [ev], n) == Step(After(s, evs, n), ev, n)
  {
    var t := After(s, evs, n);
    NothingOverflows(t, ev, n);
    StepKeepsInv(t, ev, n);
    FollowsAlone(t, x, p, FlowOf(t, ev), Step(t, ev, n), p2);
    RunOne(t, ev, n);
    hide Total, AllFrames, RoomInv, FitsInv, Hands, FlowOf, Enabled, Alone, Step, Follows, Runs, After;
    RunOn(s, evs, [ev], n);
  }

  lemma FollowsAlone(s: State, x: nat, p: Place, f: Flow, t: State, p2: Place)
    requires Alone(s, x, p) && f == (if p2 == p then Stay else Pass(p, p2, 1)) && Follows(s.at, f, t.at) && p2 != Pool
    ensures Alone(t, x, p2)
  {
    forall r | r != Pool ensures Holds(t, r) == if r == p2 then [x] else [] {
      assert Holds(s, r) == (if r == p then [x] else []) && Holds(s, p) == [x];
    }
  }

  lemma AloneReceives(s: State, x: nat, q: Queue, w: nat)
    ensures Alone(s, x, Refill(q)) ==> Brings(s, Receive(q, RefillGive), Refill(q), Fill(q))
    ensures Alone(s, x, Fill(q)) ==> Brings(s, Receive(q, KernelReceive), Fill(q), Rx(q))
    ensures Alone(s, x, Rx(q)) ==> Brings(s, Receive(q, Peek(1)), Rx(q), Batch(q))
    ensures Alone(s, x, Batch(q)) ==> Brings(s, Receive(q, Dispatch(w)), Batch(q), Inbox(q.side, w))
    ensures Alone(s, x, Inbox(q.side, w)) && PcOf(s, w) == Idle
            ==> Brings(s, Work(w, TakeJob(q.side)), Inbox(q.side, w), Job(w))
  {
  }

  lemma AloneSends(s: State, x: nat, out: Queue, w: nat)
    ensures Alone(s, x, Job(w)) && PcOf(s, w) == Working
            ==> Brings(s, Work(w, PushJob(out.side, out.dev, true)), Job(w), Outbox(out.side, out.dev, w))
    ensures Alone(s, x, Outbox(out.side, out.dev, w)) && out !in s.draining
            ==> Brings(s, Transmit(out, DrainStart(w, 1)), Outbox(out.side, out.dev, w), Outbox(out.side, out.dev, w))
    ensures Alone(s, x, Outbox(out.side, out.dev, w)) && out in s.draining && s.draining[out] == Drain(w, 1)
            ==> Brings(s, Transmit(out, DrainTake), Outbox(out.side, out.dev, w), Sending(out))
    ensures Alone(s, x, Sending(out)) && out in s.draining ==> Brings(s, Transmit(out, DrainGive), Sending(out), Tx(out))
    ensures Alone(s, x, Tx(out)) ==> Brings(s, Transmit(out, KernelSend), Tx(out), Flight(out))
  {
  }

  /** Only the pool holds anything. */
  ghost predicate AllIn(s: State) { forall p :: p != Pool ==> Holds(s, p) == [] }

  lemma FirstOut(s: State, n: nat, q: Queue)
    requires Inv(s, n) && AllIn(s) && Holds(s, Pool) != []
    ensures Carried(s, [Receive(q, RefillTake(1))], n, Holds(s, Pool)[0], Refill(q))
    ensures var t := After(s, [Receive(q, RefillTake(1))], n); t.pcs == s.pcs && t.draining == s.draining
  {
    var ev := Receive(q, RefillTake(1));
    hide Total, AllFrames, RoomInv, FitsInv, Hands, Runs, After;
    FirstTaken(s, q);
    NothingOverflows(s, ev, n);
    StepKeepsInv(s, ev, n);
    RunOne(s, ev, n);
    var t := Step(s, ev, n);
    hide Inv, Step, HandsInv;
    forall r | r != Pool ensures Holds(t, r) == if r == Refill(q) then [Holds(s, Pool)[0]] else [] {
      assert Holds(s, r) == [];
    }
  }

  lemma FirstTaken(s: State, q: Queue)
    requires AllIn(s) && Holds(s, Pool) != []
    ensures Enabled(s, Receive(q, RefillTake(1))) && FlowOf(s, Receive(q, RefillTake(1))) == Pass(Pool, Refill(q), 1)
  {
    assert Holds(s, Refill(q)) == [] && Holds(s, Fill(q)) == [];
  }

  /** From the pool to the receive ring. */
  lemma ToRx(s: State, n: nat, q: Queue) returns (evs: seq<Event>)
    requires Inv(s, n) && AllIn(s) && Holds(s, Pool) != []
    ensures Carried(s, evs, n, Holds(s, Pool)[0], Rx(q))
    ensures After(s, evs, n).pcs == s.pcs && After(s, evs, n).draining == s.draining
  {
    var x := Holds(s, Pool)[0];
    evs := [Receive(q, RefillTake(1))];
    FirstOut(s, n, q);
    hide Inv, AllIn, Runs, After, Alone, Brings, Received;
    AloneReceives(After(s, evs, n), x, q, 0);
    CarryOn(s, evs, n, x, Refill(q), Receive(q, RefillGive), Fill(q));
    evs := evs + [Receive(q, RefillGive)];
    AloneReceives(After(s, evs, n), x, q, 0);
    CarryOn(s, evs, n, x, Fill(q), Receive(q, KernelReceive), Rx(q));
    evs := evs + [Receive(q, KernelReceive)];
  }

  /** From the receive ring through worker `w` to its ring for the device. */
  lemma ThroughWorker(s: State, evs: seq<Event>, n: nat, x: nat, q: Queue, w: nat, out: Queue) returns (more: seq<Event>)
    requires Carried(s, evs, n, x, Rx(q)) && PcOf(After(s, evs, n), w) == Idle
    ensures evs <= more && Carried(s, more, n, x, Outbox(out.side, out.dev, w))
    ensures After(s, more, n).draining == After(s, evs, n).draining
  {
    hide Inv, Runs, After, Alone, Brings, Received, Worked;
    more := evs;
    AloneReceives(After(s, more, n), x, q, w);
    CarryOn(s, more, n, x, Rx(q), Receive(q, Peek(1)), Batch(q));
    more := more + [Receive(q, Peek(1))];
    AloneReceives(After(s, more, n), x, q, w);
    CarryOn(s, more, n, x, Batch(q), Receive(q, Dispatch(w)), Inbox(q.side, w));
    more := more + [Receive(q, Dispatch(w))];
    AloneReceives(After(s, more, n), x, q, w);
    CarryOn(s, more, n, x, Inbox(q.side, w), Work(w, TakeJob(q.side)), Job(w));
    more := more + [Work(w, TakeJob(q.side))];
    AloneSends(After(s, more, n), x, out, w);
    CarryOn(s, more, n, x, Job(w), Work(w, PushJob(out.side, out.dev, true)), Outbox(out.side, out.dev, w));
    more := more + [Work(w, PushJob(out.side, out.dev, true))];
  }

  /** From there to the wire. */
  lemma ToWire(s: State, evs: seq<Event>, n: nat, x: nat, w: nat, out: Queue) returns (more: seq<Event>)
    requires Carried(s, evs, n, x, Outbox(out.side, out.dev, w)) && out !in After(s, evs, n).draining
    ensures evs <= more && Carried(s, more, n, x, Flight(out))
  {
    hide Inv, Runs, After, Alone, Brings, Transmitted;
    var ring := Outbox(out.side, out.dev, w);
    more := evs;
    AloneSends(After(s, more, n), x, out, w);
    CarryOn(s, more, n, x, ring, Transmit(out, DrainStart(w, 1)), ring);
    more := more + [Transmit(out, DrainStart(w, 1))];
    AloneSends(After(s, more, n), x, out, w);
    CarryOn(s, more, n, x, ring, Transmit(out, DrainTake), Sending(out));
    more := more + [Transmit(out, DrainTake)];
    AloneSends(After(s, more, n), x, out, w);
    CarryOn(s, more, n, x, Sending(out), Transmit(out, DrainGive), Tx(out));
    more := more + [Transmit(out, DrainGive)];
    AloneSends(After(s, more, n), x, out, w);
    CarryOn(s, more, n, x, Tx(out), Transmit(out, KernelSend), Flight(out));
    more := more + [Transmit(out, KernelSend)];
  }

  /** All frames in the pool, and the queue's transmit thread about nothing. */
  lemma Rested(s: State, n: nat, out: Queue) returns (evs: seq<Event>)
    requires Inv(s, n)
    ensures Runs(s, evs, n)
    ensures var t := After(s, evs, n); Inv(t, n) && AllIn(t) && out !in t.draining
  {
    evs := Drained(s, n);
    RunKeepsInv(s, evs, n);
    var t := After(s, evs, n);
    if out in t.draining {
      hide Runs, After;
      assert Size(t, Sending(out)) == 0;
      GivenBack(t, n, out);
      RunOne(t, Transmit(out, DrainGive), n);
      StepKeepsInv(t, Transmit(out, DrainGive), n);
      hide Inv, AllIn, Step, HandsInv, Enabled;
      RunOn(s, evs, [Transmit(out, DrainGive)], n);
      evs := evs + [Transmit(out, DrainGive)];
    }
    hide Inv;
  }

  lemma GivenBack(s: State, n: nat, out: Queue)
    requires Inv(s, n) && AllIn(s) && out in s.draining
    ensures Enabled(s, Transmit(out, DrainGive))
    ensures var t := Step(s, Transmit(out, DrainGive), n); AllIn(t) && out !in t.draining
  {
    var ev := Transmit(out, DrainGive);
    assert Holds(s, Sending(out)) == [];
    GivenUp(s, n, out, Lan, 0, 0);
    NothingOverflows(s, ev, n);
    var t := Step(s, ev, n);
    hide Inv, Step, HandsInv;
    forall p | p != Pool ensures Holds(t, p) == [] {
      assert Holds(s, p) == [];
    }
  }

  lemma FreeHands(s: State, n: nat, w: nat)
    requires Inv(s, n) && AllIn(s)
    ensures PcOf(s, w) == Idle
  {
    assert Hands(s, w);
    assert Holds(s, Job(w)) == [] && Holds(s, Spare(w)) == [];
    hide Total, AllFrames, HandsInv, RoomInv, FitsInv;
  }

  lemma PoolNotEmpty(s: State, n: nat)
    requires Inv(s, n) && AllIn(s) && n > 0
    ensures Holds(s, Pool) != []
  {
    var p := Somewhere(s, n, 0);
    hide Inv;
    assert p != Pool ==> Holds(s, p) == [];
  }

  /**
   * No way is ever barred: whatever has happened since the pair was opened, it can go on so that a frame is received on
   * any queue `q`, is forwarded by any worker `w`, and goes out on any queue `out`.
   */
  lemma EveryWayOpen(evs: seq<Event>, n: nat, q: Queue, w: nat, out: Queue) returns (x: nat, a: seq<Event>, b: seq<Event>)
    requires n > 0 && Runs(Start(n), evs, n)
    ensures a <= b && Runs(Start(n), evs + a, n) && Runs(Start(n), evs + b, n)
    ensures Holds(After(Start(n), evs + a, n), Rx(q)) == [x] && Holds(After(Start(n), evs + b, n), Flight(out)) == [x]
  {
    hide Inv, Runs, After, Start, AllIn;
    StartInv(n);
    RunKeepsInv(Start(n), evs, n);
    var s := After(Start(n), evs, n);
    var rest := Rested(s, n, out);
    var t := After(s, rest, n);
    PoolNotEmpty(t, n);
    FreeHands(t, n, w);
    x := Holds(t, Pool)[0];
    var in_ := ToRx(t, n, q);
    var through := ThroughWorker(t, in_, n, x, q, w, out);
    var sent := ToWire(t, through, n, x, w, out);
    RunOn(s, rest, in_, n);
    RunOn(s, rest, sent, n);
    a, b := rest + in_, rest + sent;
    RunOn(Start(n), evs, a, n);
    RunOn(Start(n), evs, b, n);
  }
}
