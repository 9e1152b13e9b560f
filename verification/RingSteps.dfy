/**
 * ne_ring_try_push and ne_ring_try_pop load by load and store by store: any number of threads that push under
 * the push lock, and others that pop under the pop lock or one that pops without it.
 */
module RingSteps {
  import opened Bytes
  import opened Masks
  import opened Rings

  /** Where the call that holds the push lock stands. */
  datatype Push<T> = Idle
                   | Entered(who: nat, x: T)
                   | HeadSeen(who: nat, x: T, head: uint32)
                   | Room(who: nat, x: T, head: uint32)
                   | Filled(who: nat, x: T, head: uint32)
                   | Leaving(who: nat, ok: bool)

  /** Where the call that pops stands. */
  datatype Pop<T> = Resting
                  | Called(who: nat)
                  | TailSeen(who: nat, tail: uint32)
                  | Ready(who: nat, tail: uint32)
                  | Loaded(who: nat, tail: uint32, x: T)
                  | Returning(who: nat, r: Option<T>)

  /** The ring, the two calls under way, and the calls that have taken effect with their answers. */
  datatype State<T> = State(cap: uint32, buf: seq<T>, head: uint32, tail: uint32, push: Push<T>, pop: Pop<T>,
                            log: seq<Done<T>>)

  /** One atomic step; a thread that finds a lock taken spins. */
  datatype Event<T> = PushCall(who: nat, x: T) | PushStep | PopCall(who: nat) | PopStep

  predicate Shaped<T>(s: State<T>) { |s.buf| == s.cap > 0 }

  function AfterPush<T>(s: State<T>): (r: State<T>)
    requires Shaped(s)
    ensures Shaped(r)
  {
    match s.push
    case Idle => s
    case Entered(who, x) => s.(push := HeadSeen(who, x, s.head))
    case HeadSeen(who, x, h) =>
      if Held(h, s.tail) >= s.cap then s.(push := Leaving(who, false), log := s.log + [Pushed(who, x, false)])
      else s.(push := Room(who, x, h))
    case Room(who, x, h) => s.(push := Filled(who, x, h), buf := s.buf[And32(h, s.cap - 1) := x])
    case Filled(who, x, h) => s.(push := Leaving(who, true), head := Wrap(h + 1), log := s.log + [Pushed(who, x, true)])
    case Leaving(_, _) => s.(push := Idle)
  }

  function AfterPop<T>(s: State<T>): (r: State<T>)
    requires Shaped(s)
    ensures Shaped(r)
  {
    match s.pop
    case Resting => s
    case Called(who) => s.(pop := TailSeen(who, s.tail))
    case TailSeen(who, t) =>
      if t == s.head then s.(pop := Returning(who, None), log := s.log + [Popped(who, None)])
      else s.(pop := Ready(who, t))
    case Ready(who, t) => s.(pop := Loaded(who, t, s.buf[And32(t, s.cap - 1)]))
    case Loaded(who, t, x) => s.(pop := Returning(who, Some(x)), tail := Wrap(t + 1), log := s.log + [Popped(who, Some(x))])
    case Returning(_, _) => s.(pop := Resting)
  }

  function Step<T>(s: State<T>, ev: Event<T>): (r: State<T>)
    requires Shaped(s)
    ensures Shaped(r)
  {
    match ev
    case PushCall(who, x) => if s.push.Idle? then s.(push := Entered(who, x)) else s
    case PushStep => AfterPush(s)
    case PopCall(who) => if s.pop.Resting? then s.(pop := Called(who)) else s
    case PopStep => AfterPop(s)
  }

  function Run<T>(s: State<T>, evs: seq<Event<T>>): (r: State<T>)
    requires Shaped(s)
    ensures Shaped(r)
    decreases |evs|
  {
    if evs == [] then s else Run(Step(s, evs[0]), evs[1..])
  }

  /** The queue the calls so far have made. */
  function Queue<T>(s: State<T>): seq<T> { QueueAfter(s.cap, [], s.log) }

  /** What the ring and the two calls know of the queue. */
  ghost predicate Inv<T>(s: State<T>) {
    Shaped(s) && CapOk(s.cap) && Legal(s.cap, [], s.log)
    && Held(s.head, s.tail) == |Queue(s)| <= s.cap
    && (s.push.HeadSeen? || s.push.Room? || s.push.Filled? ==> s.push.head == s.head)
    && (s.push.Room? || s.push.Filled? ==> |Queue(s)| < s.cap)
    && Window(s.buf, s.tail, Held(s.head, s.tail)) == Queue(s)
    && (s.push.Filled? ==> Window(s.buf, s.tail, Held(s.head, s.tail) + 1) == Queue(s) + [s.push.x])
    && (s.pop.TailSeen? || s.pop.Ready? || s.pop.Loaded? ==> s.pop.tail == s.tail)
    && (s.pop.Ready? || s.pop.Loaded? ==> Queue(s) != [])
    && (s.pop.Loaded? ==> s.pop.x == Queue(s)[0])
  }

  function Init<T>(cap: uint32, buf: seq<T>): State<T> { State(cap, buf, 0, 0, Idle, Resting, []) }

  lemma InitInv<T>(cap: uint32, buf: seq<T>)
    requires CapOk(cap) && |buf| == cap
    ensures Inv(Init(cap, buf))
  {
  }

  lemma WindowFront<T>(buf: seq<T>, tail: nat, n: nat)
    requires |buf| > 0
    ensures Window(buf, tail, n + 1)[..n] == Window(buf, tail, n)
  {
  }

  /** A full ring: the push is turned away when the queue is full. */
  lemma TailLoaded<T>(s: State<T>)
    requires Inv(s) && s.push.HeadSeen?
    ensures Inv(AfterPush(s))
  {
    hide Window, CapOk, Held, And32, QueueAfter, Legal;
    LegalMore(s.cap, [], s.log, Pushed(s.push.who, s.push.x, false));
  }

  lemma SlotStored<T>(s: State<T>)
    requires Inv(s) && s.push.Room?
    ensures Inv(AfterPush(s)) && Queue(AfterPush(s)) == Queue(s)
  {
    hide Window, CapOk, Held, And32, Wrap, QueueAfter, Legal;
    Ends(s.head, s.tail, s.cap);
    StoreAppends(s.buf, s.head, s.tail, s.cap, 0, s.push.x);
    WindowFront(AfterPush(s).buf, s.tail, |Queue(s)|);
  }

  lemma HeadStored<T>(s: State<T>)
    requires Inv(s) && s.push.Filled?
    ensures Inv(AfterPush(s)) && Queue(AfterPush(s)) == Queue(s) + [s.push.x]
  {
    hide Window, CapOk, Held, And32, Wrap, QueueAfter, Legal;
    HeadMoves(s.head, s.tail, 1);
    LegalMore(s.cap, [], s.log, Pushed(s.push.who, s.push.x, true));
  }

  lemma HeadLoaded<T>(s: State<T>)
    requires Inv(s) && s.pop.TailSeen?
    ensures Inv(AfterPop(s))
  {
    hide Window, CapOk, And32, QueueAfter, Legal;
    LegalMore(s.cap, [], s.log, Popped(s.pop.who, None));
    if s.head != s.tail {
      Nonempty(s.head, s.tail);
    } else {
      assert Held(s.head, s.tail) == 0;
    }
    hide Held;
  }

  lemma SlotLoaded<T>(s: State<T>)
    requires Inv(s) && s.pop.Ready?
    ensures Inv(AfterPop(s))
  {
    hide Window, CapOk, Held, And32, Wrap, QueueAfter, Legal;
    Ends(s.head, s.tail, s.cap);
    LoadIs(s.buf, s.head, s.tail, s.cap, 0);
  }

  lemma TailStored<T>(s: State<T>)
    requires Inv(s) && s.pop.Loaded?
    ensures Inv(AfterPop(s)) && Queue(s) != [] && s.pop.x == Queue(s)[0] && Queue(AfterPop(s)) == Queue(s)[1..]
  {
    hide Window, CapOk, Held, And32, Wrap, QueueAfter, Legal;
    LegalMore(s.cap, [], s.log, Popped(s.pop.who, Some(s.pop.x)));
    Drop(s.head, s.tail, s.cap, s.buf, 1);
    if s.push.Filled? {
      HeadMoves(s.head, s.tail, 1);
      Drop(Wrap(s.head + 1), s.tail, s.cap, s.buf, 1);
      assert (Queue(s) + [s.push.x])[1..] == Queue(s)[1..] + [s.push.x];
    }
  }

  /** Every step of either side keeps the invariant, and so keeps the answers those of a queue. */
  lemma StepKeepsInv<T>(s: State<T>, ev: Event<T>)
    requires Inv(s)
    ensures Inv(Step(s, ev))
  {
    if ev.PushStep? && s.push.HeadSeen? {
      TailLoaded(s);
    } else if ev.PushStep? && s.push.Room? {
      SlotStored(s);
    } else if ev.PushStep? && s.push.Filled? {
      HeadStored(s);
    } else if ev.PopStep? && s.pop.TailSeen? {
      HeadLoaded(s);
    } else if ev.PopStep? && s.pop.Ready? {
      SlotLoaded(s);
    } else if ev.PopStep? && s.pop.Loaded? {
      TailStored(s);
    }
    hide Window, CapOk, Held, And32, Wrap, QueueAfter, Legal;
  }

  lemma {:induction false} RunKeepsInv<T>(s: State<T>, evs: seq<Event<T>>)
    requires Inv(s)
    ensures Inv(Run(s, evs))
    decreases |evs|
  {
    assert Shaped(s);
    hide Inv, Step;
    if evs != [] {
      StepKeepsInv(s, evs[0]);
      RunKeepsInv(Step(s, evs[0]), evs[1..]);
    }
  }

  /**
   * Whatever the interleaving, every call takes effect at one of its own steps, with the answer of a queue of
   * at most `cap` elements: so what has been popped, and then what is held, is what was pushed, in order.
   */
  lemma Linearizable<T>(cap: uint32, buf: seq<T>, evs: seq<Event<T>>)
    requires CapOk(cap) && |buf| == cap
    ensures var s := Run(Init(cap, buf), evs);
            Legal(cap, [], s.log) && In(s.log) == Out(s.log) + Queue(s) && |Queue(s)| <= cap
  {
    InitInv(cap, buf);
    RunKeepsInv(Init(cap, buf), evs);
    RunKeepsCap(Init(cap, buf), evs);
    var s := Run(Init(cap, buf), evs);
    hide Run, QueueAfter, Legal, CapOk, Held, Window, In, Out;
    FirstInFirstOut(cap, [], s.log);
    assert [] + In(s.log) == In(s.log);
  }

  lemma {:induction false} RunKeepsCap<T>(s: State<T>, evs: seq<Event<T>>)
    requires Shaped(s)
    ensures Run(s, evs).cap == s.cap
    decreases |evs|
  {
    if evs != [] {
      RunKeepsCap(Step(s, evs[0]), evs[1..]);
    }
  }

  /** The slot about to be written is never the slot about to be read: copying a packet need not be atomic. */
  lemma NoRace<T>(s: State<T>)
    requires Inv(s) && s.push.Room? && s.pop.Ready?
    ensures And32(s.push.head, s.cap - 1) != And32(s.pop.tail, s.cap - 1)
  {
    hide Window, CapOk, Held, And32, Wrap, QueueAfter, Legal;
    Ends(s.head, s.tail, s.cap);
    PlacesFrom(s.head, s.tail, s.cap, 0);
    PlacesDiffer(s.tail, 0, Held(s.head, s.tail), s.cap);
  }
}
