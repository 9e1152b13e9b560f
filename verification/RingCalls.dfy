/** The calls that go through the ring: each one ends, logged once with the answer that its caller gets. */
module RingCalls {
  import opened Bytes
  import opened Masks
  import opened Rings
  import opened RingSteps

  /** The pushes, or the pops, among the calls that have taken effect. */
  function Pushes<T>(log: seq<Done<T>>): seq<Done<T>> {
    if log == [] then []
    else Pushes(log[..|log| - 1]) + if log[|log| - 1].Pushed? then [log[|log| - 1]] else []
  }

  function Pops<T>(log: seq<Done<T>>): seq<Done<T>> {
    if log == [] then []
    else Pops(log[..|log| - 1]) + if log[|log| - 1].Popped? then [log[|log| - 1]] else []
  }

  lemma SidesMore<T>(log: seq<Done<T>>, d: Done<T>)
    ensures Pushes(log + [d]) == Pushes(log) + if d.Pushed? then [d] else []
    ensures Pops(log + [d]) == Pops(log) + if d.Popped? then [d] else []
  {
    assert (log + [d])[..|log|] == log;
  }

  /** How many of the events are steps of the call that pushes, or pops. */
  function PushSteps<T>(evs: seq<Event<T>>): nat
    decreases |evs|
  {
    if evs == [] then 0 else (if evs[0].PushStep? then 1 else 0) + PushSteps(evs[1..])
  }

  function PopSteps<T>(evs: seq<Event<T>>): nat
    decreases |evs|
  {
    if evs == [] then 0 else (if evs[0].PopStep? then 1 else 0) + PopSteps(evs[1..])
  }

  /** The call under way pushes `x` for `who` and has at most `left` steps to take before it can leave. */
  predicate Pushing<T(==)>(p: Push<T>, who: nat, x: T, left: nat) {
    match p
    case Entered(w, y) => w == who && y == x && left >= 4
    case HeadSeen(w, y, _) => w == who && y == x && left >= 3
    case Room(w, y, _) => w == who && y == x && left >= 2
    case Filled(w, y, _) => w == who && y == x && left >= 1
    case _ => false
  }

  predicate Popping<T>(p: Pop<T>, who: nat, left: nat) {
    match p
    case Called(w) => w == who && left >= 4
    case TailSeen(w, _) => w == who && left >= 3
    case Ready(w, _) => w == who && left >= 2
    case Loaded(w, _, _) => w == who && left >= 1
    case _ => false
  }

  /** A step of its own brings a push nearer to its end or ends it. */
  lemma PushGoesOn<T>(s: State<T>, who: nat, x: T, left: nat)
    requires Inv(s) && Pushing(s.push, who, x, left)
    ensures var r := AfterPush(s);
            (left > 1 && Pushing(r.push, who, x, left - 1) && r.log == s.log)
            || (r.push == Leaving(who, |Queue(s)| < s.cap) && r.log == s.log + [Pushed(who, x, |Queue(s)| < s.cap)])
  {
    hide Window, CapOk, And32, Wrap, Legal, QueueAfter, Held;
  }

  /** A pop's step logs a pop or nothing. */
  lemma PopLogsPop<T>(s: State<T>)
    requires Shaped(s)
    ensures AfterPop(s).push == s.push && Pushes(AfterPop(s).log) == Pushes(s.log)
  {
    hide And32, Wrap;
    if s.pop.TailSeen? {
      SidesMore(s.log, Popped(s.pop.who, None));
    } else if s.pop.Loaded? {
      SidesMore(s.log, Popped(s.pop.who, Some(s.pop.x)));
    }
    hide Pushes, Pops;
  }

  /** No other step concerns the push. */
  lemma PushAdvances<T>(s: State<T>, ev: Event<T>, who: nat, x: T, left: nat)
    requires Inv(s) && Pushing(s.push, who, x, left)
    ensures var r := Step(s, ev);
            if !ev.PushStep? then r.push == s.push && Pushes(r.log) == Pushes(s.log)
            else (left > 1 && Pushing(r.push, who, x, left - 1) && r.log == s.log)
                 || (r.push == Leaving(who, |Queue(s)| < s.cap) && r.log == s.log + [Pushed(who, x, |Queue(s)| < s.cap)])
  {
    PushGoesOn(s, who, x, left);
    PopLogsPop(s);
    assert Shaped(s) && !s.push.Idle?;
    hide Inv, AfterPush, AfterPop, Pushes, Queue, Pushing;
  }

  lemma PopAdvances<T>(s: State<T>, ev: Event<T>, who: nat, left: nat)
    requires Inv(s) && Popping(s.pop, who, left)
    ensures var r, a := Step(s, ev), if Queue(s) == [] then None else Some(Queue(s)[0]);
            if !ev.PopStep? then r.pop == s.pop && Pops(r.log) == Pops(s.log)
            else (left > 1 && Popping(r.pop, who, left - 1) && r.log == s.log)
                 || (r.pop == Returning(who, a) && r.log == s.log + [Popped(who, a)])
  {
    hide Window, CapOk, And32, Wrap, Legal, QueueAfter, Held;
    if ev.PushStep? && s.push.HeadSeen? {
      SidesMore(s.log, Pushed(s.push.who, s.push.x, false));
    } else if ev.PushStep? && s.push.Filled? {
      SidesMore(s.log, Pushed(s.push.who, s.push.x, true));
    }
    if ev.PopStep? && s.pop.TailSeen? && s.head == s.tail {
      HeldNone(s);
    }
    hide Pushes, Pops;
  }

  lemma HeldNone<T>(s: State<T>)
    requires Inv(s) && s.head == s.tail
    ensures Queue(s) == []
  {
    hide Window, CapOk, And32, Wrap, Legal, QueueAfter;
  }

  /** The log, and then the caller, say the same. */
  predicate PushLeft<T(==)>(before: seq<Done<T>>, s: State<T>, who: nat, x: T) {
    s.push.Leaving? && s.push.who == who && Pushes(s.log) == Pushes(before) + [Pushed(who, x, s.push.ok)]
  }

  predicate PopLeft<T(==)>(before: seq<Done<T>>, s: State<T>, who: nat) {
    s.pop.Returning? && s.pop.who == who && Pops(s.log) == Pops(before) + [Popped(who, s.pop.r)]
  }

  lemma {:induction false} PushEnds<T>(s: State<T>, evs: seq<Event<T>>, who: nat, x: T, left: nat) returns (i: nat)
    requires Inv(s) && Pushing(s.push, who, x, left) && PushSteps(evs) >= left
    ensures i <= |evs| && PushSteps(evs[..i]) <= left && PushLeft(s.log, Run(s, evs[..i]), who, x)
    decreases |evs|
  {
    assert Shaped(s) && evs != [];
    var ev, rest := evs[0], evs[1..];
    var r := Step(s, ev);
    PushAdvances(s, ev, who, x, left);
    StepKeepsInv(s, ev);
    SidesMore(s.log, Pushed(who, x, |Queue(s)| < s.cap));
    hide Inv, Step, Pushes;
    if ev.PushStep? && r.push.Leaving? {
      i := 1;
      assert evs[..1][1..] == [];
    } else {
      var k := PushEnds(r, rest, who, x, if ev.PushStep? then left - 1 else left);
      i := k + 1;
      assert evs[..i][1..] == rest[..k];
    }
  }

  lemma {:induction false} PopEnds<T>(s: State<T>, evs: seq<Event<T>>, who: nat, left: nat) returns (i: nat)
    requires Inv(s) && Popping(s.pop, who, left) && PopSteps(evs) >= left
    ensures i <= |evs| && PopSteps(evs[..i]) <= left && PopLeft(s.log, Run(s, evs[..i]), who)
    decreases |evs|
  {
    assert Shaped(s) && evs != [];
    var ev, rest := evs[0], evs[1..];
    var r := Step(s, ev);
    PopAdvances(s, ev, who, left);
    StepKeepsInv(s, ev);
    SidesMore(s.log, Popped(who, if Queue(s) == [] then None else Some(Queue(s)[0])));
    hide Inv, Step, Pops;
    if ev.PopStep? && r.pop.Returning? {
      i := 1;
      assert evs[..1][1..] == [];
    } else {
      var k := PopEnds(r, rest, who, if ev.PopStep? then left - 1 else left);
      i := k + 1;
      assert evs[..i][1..] == rest[..k];
    }
  }

  /**
   * A push that finds the lock free ends within four of its own steps, whatever the other threads do in between: it is
   * then in the log, once, as this caller's, with the answer that the caller gets, and gives the lock back.
   */
  lemma PushReturns<T>(s: State<T>, evs: seq<Event<T>>, who: nat, x: T) returns (i: nat)
    requires Inv(s) && s.push.Idle? && PushSteps(evs) >= 4
    ensures i <= |evs| && PushSteps(evs[..i]) <= 4
    ensures var r := Run(Step(s, PushCall(who, x)), evs[..i]);
            PushLeft(s.log, r, who, x) && Step(r, PushStep) == r.(push := Idle)
  {
    StepKeepsInv(s, PushCall(who, x));
    i := PushEnds(Step(s, PushCall(who, x)), evs, who, x, 4);
    hide Inv, Run, Pushes;
  }

  /** And so does a pop. */
  lemma PopReturns<T>(s: State<T>, evs: seq<Event<T>>, who: nat) returns (i: nat)
    requires Inv(s) && s.pop.Resting? && PopSteps(evs) >= 4
    ensures i <= |evs| && PopSteps(evs[..i]) <= 4
    ensures var r := Run(Step(s, PopCall(who)), evs[..i]);
            PopLeft(s.log, r, who) && Step(r, PopStep) == r.(pop := Resting)
  {
    StepKeepsInv(s, PopCall(who));
    i := PopEnds(Step(s, PopCall(who)), evs, who, 4);
    hide Inv, Run, Pops;
  }
}
