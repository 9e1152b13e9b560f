/**
 * The reload handshake of `src/core/forwarder_reload.c` between one control thread and worker 0, store by
 * store, with the mutex and the condition variable.  Timeout and stop are left out.
 */
module Reload {

  /** What is asked for: `mode`, the configuration and the profile that caused it. */
  datatype Request = Request(mode: int, cfg: int, trigger: int)

  const RELOAD_CONFIG: int := 0

  datatype Owner = Nobody | ControlThread | WorkerThread

  /** forwarder_queue_reload, by the statement that comes next. */
  datatype Control =
    | Idle | Lock(req: Request) | SetCfg(req: Request) | ClearRc(req: Request) | SetMode(req: Request)
    | ClearDone | SetPending | Check | Asleep | Woken | ReadRc | Unlock(rc: int) | Return(rc: int)

  /** fwd_reload_apply_if_pending, by the statement that comes next. */
  datatype Worker = Poll | Apply | StoreRc(rc: int) | ResetMode | ClearPending | SetDone | LockToWake | Wake | UnlockAfter

  /** The shared variables, the two threads, and what has happened so far. */
  datatype State = State(
    cfg: int, trigger: int, mode: int, rc: int, pending: bool, done: bool, mutex: Owner,
    control: Control, worker: Worker,
    queued: seq<Request>, applied: seq<(Request, int)>, returned: seq<int>)

  /** `Queue` starts a call, `ControlStep` and `WorkerStep(rc)` continue; `rc` is what the reload itself returns. */
  datatype Event = Queue(req: Request) | ControlStep | WorkerStep(rc: int) | SpuriousWakeup

  predicate Enabled(s: State, ev: Event) {
    match ev
    case Queue(_) => s.control.Idle?
    case ControlStep => !s.control.Idle? && !s.control.Asleep? && (s.control.Lock? || s.control.Woken? ==> s.mutex.Nobody?)
    case WorkerStep(_) => s.worker.LockToWake? ==> s.mutex.Nobody?
    case SpuriousWakeup => s.control.Asleep?
  }

  function ControlNext(s: State): State
    requires Enabled(s, ControlStep)
  {
    match s.control
    case Lock(req) => s.(mutex := ControlThread, control := SetCfg(req))
    case SetCfg(req) => s.(cfg := req.cfg, trigger := req.trigger, control := ClearRc(req))
    case ClearRc(req) => s.(rc := -1, control := SetMode(req))
    case SetMode(req) => s.(mode := req.mode, control := ClearDone)
    case ClearDone => s.(done := false, control := SetPending)
    case SetPending => s.(pending := true, control := Check)
    case Check => if s.done then s.(control := ReadRc) else s.(mutex := Nobody, control := Asleep)
    case Woken => s.(mutex := ControlThread, control := Check)
    case ReadRc => s.(control := Unlock(s.rc))
    case Unlock(rc) => s.(mutex := Nobody, control := Return(rc))
    case Return(rc) => s.(control := Idle, returned := s.returned + [if s.done then rc else -1])
  }

  function WorkerNext(s: State, result: int): State
    requires Enabled(s, WorkerStep(result))
  {
    match s.worker
    case Poll => if s.pending then s.(worker := Apply) else s
    case Apply => s.(worker := StoreRc(result), applied := s.applied + [(Request(s.mode, s.cfg, s.trigger), result)])
    case StoreRc(rc) => s.(rc := rc, worker := ResetMode)
    case ResetMode => s.(mode := RELOAD_CONFIG, worker := ClearPending)
    case ClearPending => s.(pending := false, worker := SetDone)
    case SetDone => s.(done := true, worker := LockToWake)
    case LockToWake => s.(mutex := WorkerThread, worker := Wake)
    case Wake => s.(worker := UnlockAfter, control := if s.control.Asleep? then Woken else s.control)
    case UnlockAfter => s.(mutex := Nobody, worker := Poll)
  }

  function Next(s: State, ev: Event): State
    requires Enabled(s, ev)
  {
    match ev
    case Queue(req) => s.(control := Lock(req), queued := s.queued + [req])
    case ControlStep => ControlNext(s)
    case WorkerStep(rc) => WorkerNext(s, rc)
    case SpuriousWakeup => s.(control := Woken)
  }

  const INIT: State := State(0, 0, RELOAD_CONFIG, 0, false, false, Nobody, Idle, Poll, [], [], [])

  /* Where a request is */

  /** The request has not been published yet. */
  predicate Preparing(c: Control) { c.Lock? || c.SetCfg? || c.ClearRc? || c.SetMode? || c.ClearDone? || c.SetPending? }

  /** The control thread waits for `done`, or has seen it. */
  predicate Waiting(c: Control) { c.Check? || c.Asleep? || c.Woken? }
  predicate Leaving(c: Control) { c.ReadRc? || c.Unlock? || c.Return? }

  /** The worker has a result that it has not announced yet, or is about to wake the caller. */
  predicate Done(w: Worker) { w.StoreRc? || w.ResetMode? || w.ClearPending? || w.SetDone? }
  predicate Announcing(w: Worker) { w.LockToWake? || w.Wake? || w.UnlockAfter? }

  /** What of the request the control thread has written. */
  predicate Written(s: State) {
    s.queued != [] && var req := s.queued[|s.queued| - 1];
    (s.control.Lock? ==> s.control.req == req) && (s.control.SetCfg? ==> s.control.req == req)
    && (s.control.ClearRc? ==> s.control.req == req && s.cfg == req.cfg && s.trigger == req.trigger)
    && (s.control.SetMode? ==> s.control.req == req && s.cfg == req.cfg && s.trigger == req.trigger)
    && (s.control.ClearDone? || s.control.SetPending? || (Waiting(s.control) && !s.done && !Done(s.worker))
        ==> Request(s.mode, s.cfg, s.trigger) == req)
  }

  /** Who holds the mutex, by where the threads are. */
  predicate MutexInv(s: State) {
    (s.mutex == ControlThread <==> s.control.SetCfg? || s.control.ClearRc? || s.control.SetMode? || s.control.ClearDone?
                                   || s.control.SetPending? || s.control.Check? || s.control.ReadRc? || s.control.Unlock?)
    && (s.mutex == WorkerThread <==> s.worker.Wake? || s.worker.UnlockAfter?)
  }

  /** Which of the flags stand, and how far the histories have come. */
  predicate PhaseInv(s: State) {
    if s.control.Idle? then
      !s.pending && (s.worker.Poll? || Announcing(s.worker)) && |s.applied| == |s.queued| == |s.returned|
    else if Preparing(s.control) then
      !s.pending && (s.worker.Poll? || Announcing(s.worker)) && |s.applied| == |s.returned| == |s.queued| - 1
      && (s.control.SetPending? ==> !s.done)
    else if Leaving(s.control) then
      s.done && !s.pending && (s.worker.Poll? || Announcing(s.worker)) && |s.applied| == |s.queued| == |s.returned| + 1
    else
      |s.returned| == |s.queued| - 1
      && (if s.worker.SetDone? then !s.pending else s.pending == !s.done)
      && (if s.done then (s.worker.Poll? || Announcing(s.worker)) && |s.applied| == |s.queued|
          else if Done(s.worker) then |s.applied| == |s.queued|
          else |s.applied| == |s.queued| - 1)
  }

  /** The result of the last request, on its way back to the caller. */
  predicate ResultInv(s: State) {
    (s.worker.StoreRc? && s.applied != [] ==> s.worker.rc == s.applied[|s.applied| - 1].1)
    && ((Waiting(s.control) && (s.worker.ResetMode? || s.worker.ClearPending? || s.worker.SetDone? || s.done)) || Leaving(s.control)
        ==> s.applied != [] && s.rc == s.applied[|s.applied| - 1].1)
    && (s.control.Unlock? || s.control.Return? ==> s.applied != [] && s.control.rc == s.applied[|s.applied| - 1].1)
  }

  /** Each request applied once, in order, as it was asked for; each caller told its own result. */
  predicate HistoryInv(s: State) {
    (forall i :: 0 <= i < |s.applied| && i < |s.queued| ==> s.applied[i].0 == s.queued[i])
    && (forall i :: 0 <= i < |s.returned| && i < |s.applied| ==> s.returned[i] == s.applied[i].1)
  }

  /** If the control thread sleeps after `done` was set, the broadcast is still to come. */
  predicate NoLostWakeup(s: State) { s.control.Asleep? && s.done ==> s.worker.LockToWake? || s.worker.Wake? }

  predicate Inv(s: State) {
    MutexInv(s) && PhaseInv(s) && ResultInv(s) && HistoryInv(s) && NoLostWakeup(s) && (s.control.Idle? || Written(s))
  }

  lemma InitInv()
    ensures Inv(INIT)
  {
  }

  lemma QueueKeepsInv(s: State, req: Request)
    requires Inv(s) && s.control.Idle?
    ensures Inv(Next(s, Queue(req)))
  {
  }

  lemma ControlKeepsInv(s: State)
    requires Inv(s) && Enabled(s, ControlStep)
    ensures Inv(Next(s, ControlStep))
  {
    hide HistoryInv, ResultInv, MutexInv, PhaseInv, NoLostWakeup, Next;
    ControlKeepsHistory(s);
    ControlKeepsResult(s);
    ControlKeepsPhase(s);
    ControlKeepsWakeup(s);
  }

  lemma ControlKeepsPhase(s: State)
    requires MutexInv(s) && PhaseInv(s) && Enabled(s, ControlStep)
    ensures PhaseInv(Next(s, ControlStep)) && MutexInv(Next(s, ControlStep))
  {
  }

  lemma ControlKeepsWakeup(s: State)
    requires MutexInv(s) && PhaseInv(s) && NoLostWakeup(s) && (s.control.Idle? || Written(s)) && Enabled(s, ControlStep)
    ensures var n := Next(s, ControlStep); NoLostWakeup(n) && (n.control.Idle? || Written(n))
  {
  }

  lemma ControlKeepsHistory(s: State)
    requires HistoryInv(s) && PhaseInv(s) && ResultInv(s) && Enabled(s, ControlStep)
    ensures HistoryInv(Next(s, ControlStep))
  {
  }

  lemma ControlKeepsResult(s: State)
    requires PhaseInv(s) && ResultInv(s) && Enabled(s, ControlStep)
    ensures ResultInv(Next(s, ControlStep))
  {
  }

  lemma WorkerKeepsInv(s: State, rc: int)
    requires Inv(s) && Enabled(s, WorkerStep(rc))
    ensures Inv(Next(s, WorkerStep(rc)))
  {
    hide HistoryInv, ResultInv, MutexInv, PhaseInv, NoLostWakeup, Next;
    WorkerKeepsHistory(s, rc);
    WorkerKeepsResult(s, rc);
    WorkerKeepsPhase(s, rc);
    WorkerKeepsWakeup(s, rc);
  }

  lemma WorkerKeepsPhase(s: State, rc: int)
    requires MutexInv(s) && PhaseInv(s) && Enabled(s, WorkerStep(rc))
    ensures PhaseInv(Next(s, WorkerStep(rc))) && MutexInv(Next(s, WorkerStep(rc)))
  {
  }

  lemma WorkerKeepsWakeup(s: State, rc: int)
    requires MutexInv(s) && PhaseInv(s) && NoLostWakeup(s) && (s.control.Idle? || Written(s)) && Enabled(s, WorkerStep(rc))
    ensures var n := Next(s, WorkerStep(rc)); NoLostWakeup(n) && (n.control.Idle? || Written(n))
  {
  }

  lemma WorkerKeepsHistory(s: State, rc: int)
    requires HistoryInv(s) && PhaseInv(s) && (s.control.Idle? || Written(s)) && Enabled(s, WorkerStep(rc))
    ensures HistoryInv(Next(s, WorkerStep(rc)))
  {
  }

  lemma WorkerKeepsResult(s: State, rc: int)
    requires PhaseInv(s) && ResultInv(s) && Enabled(s, WorkerStep(rc))
    ensures ResultInv(Next(s, WorkerStep(rc)))
  {
  }

  lemma StepKeepsInv(s: State, ev: Event)
    requires Inv(s) && Enabled(s, ev)
    ensures Inv(Next(s, ev))
  {
    match ev
    case Queue(req) => QueueKeepsInv(s, req);
    case ControlStep => ControlKeepsInv(s);
    case WorkerStep(rc) => WorkerKeepsInv(s, rc);
    case SpuriousWakeup =>
  }

  /* Runs */

  predicate Runs(s: State, evs: seq<Event>)
    decreases |evs|
  {
    evs == [] || (Enabled(s, evs[0]) && Runs(Next(s, evs[0]), evs[1..]))
  }

  function After(s: State, evs: seq<Event>): State
    requires Runs(s, evs)
    decreases |evs|
  {
    if evs == [] then s else After(Next(s, evs[0]), evs[1..])
  }

  lemma {:induction false} RunKeepsInv(s: State, evs: seq<Event>)
    requires Inv(s) && Runs(s, evs)
    ensures Inv(After(s, evs))
    decreases |evs|
  {
    if evs != [] {
      StepKeepsInv(s, evs[0]);
      hide Inv, Enabled, Next;
      RunKeepsInv(Next(s, evs[0]), evs[1..]);
    }
  }

  /**
   * In every interleaving, requests are applied once each and in order, with their own mode, configuration
   * and trigger; each call returns the result of its own request; and when the control thread is idle
   * nothing queued is left over.
   */
  lemma AppliedExactlyOnce(evs: seq<Event>, i: nat)
    requires Runs(INIT, evs)
    ensures var s := After(INIT, evs);
            |s.returned| <= |s.applied| <= |s.queued| <= |s.returned| + 1
            && (i < |s.applied| ==> s.applied[i].0 == s.queued[i])
            && (i < |s.returned| ==> s.returned[i] == s.applied[i].1)
            && (s.control.Idle? ==> |s.queued| == |s.returned|)
  {
    hide After, Runs, Next;
    InitInv();
    RunKeepsInv(INIT, evs);
  }

  /* Progress */

  /** The worker's remaining statements of the round it is in. */
  function WorkerLeft(w: Worker): nat {
    match w
    case Poll => 0
    case Apply => 8
    case StoreRc(_) => 7
    case ResetMode => 6
    case ClearPending => 5
    case SetDone => 4
    case LockToWake => 3
    case Wake => 2
    case UnlockAfter => 1
  }

  function ControlLeft(c: Control): nat {
    match c
    case Idle => 0
    case Lock(_) => 13
    case SetCfg(_) => 12
    case ClearRc(_) => 11
    case SetMode(_) => 10
    case ClearDone => 9
    case SetPending => 8
    case Woken => 7
    case Check => 6
    case Asleep => 5
    case ReadRc => 3
    case Unlock(_) => 2
    case Return(_) => 1
  }

  /** A round of the worker is still to come: the request is not published, or published and not picked up. */
  predicate RoundToCome(s: State) { Preparing(s.control) || (s.pending && (s.worker.Poll? || Announcing(s.worker))) }

  function Rank(s: State): nat { 3 * (WorkerLeft(s.worker) + if RoundToCome(s) then 9 else 0) + ControlLeft(s.control) }

  /** A step of the control thread, or of the worker when it has something to do. */
  predicate Works(s: State, ev: Event) {
    Enabled(s, ev) && (ev.ControlStep? || (ev.WorkerStep? && !(s.worker.Poll? && !s.pending)))
  }

  /**
   * No wakeup is lost: until the call has returned some thread can go on, and every such step brings the
   * return nearer.  Only spurious wakeups, of which there must not be infinitely many, add work.
   */
  lemma CallReturns(s: State, ev: Event)
    requires Inv(s) && !s.control.Idle?
    ensures Works(s, ControlStep) || Works(s, WorkerStep(0))
    ensures Works(s, ev) ==> Rank(Next(s, ev)) < Rank(s)
  {
    hide HistoryInv, ResultInv, Written;
  }

  /** So a call is over after at most `Rank` working steps without a spurious wakeup. */
  lemma {:induction false} CallReturnsWithin(s: State, evs: seq<Event>)
    requires Inv(s) && Runs(s, evs) && AllWork(s, evs)
    ensures |evs| <= Rank(s)
    decreases |evs|
  {
    if evs != [] {
      CallReturns(s, evs[0]);
      StepKeepsInv(s, evs[0]);
      hide Inv, Rank, Next, Works, Enabled;
      CallReturnsWithin(Next(s, evs[0]), evs[1..]);
    }
  }

  predicate AllWork(s: State, evs: seq<Event>)
    requires Runs(s, evs)
    decreases |evs|
  {
    evs == [] || (!s.control.Idle? && Works(s, evs[0]) && AllWork(Next(s, evs[0]), evs[1..]))
  }

  /** So it does return: some run of working steps, at most `Rank` many, ends the call. */
  lemma {:induction false} SomeRunReturns(s: State) returns (evs: seq<Event>)
    requires Inv(s)
    ensures Runs(s, evs) && AllWork(s, evs) && After(s, evs).control.Idle?
    decreases Rank(s)
  {
    hide Inv, Rank, Works, Next;
    if s.control.Idle? {
      evs := [];
    } else {
      var ev := if Works(s, ControlStep) then ControlStep else WorkerStep(0);
      CallReturns(s, ev);
      WorksEnabled(s, ev);
      StepKeepsInv(s, ev);
      hide Enabled;
      var more := SomeRunReturns(Next(s, ev));
      evs := [ev] + more;
      assert evs[1..] == more;
    }
  }

  lemma WorksEnabled(s: State, ev: Event)
    requires Works(s, ev)
    ensures Enabled(s, ev)
  {
  }

  /* What the shared variables say */

  /**
   * The result is the failure code until the worker has stored the request's own, and the mode is back to the default
   * before the request counts as done.
   */
  predicate SharedInv(s: State) {
    (s.control.SetMode? || s.control.ClearDone? || s.control.SetPending? || (Waiting(s.control) && s.pending)
     ==> s.worker.ResetMode? || s.worker.ClearPending? || s.rc == -1)
    && (!(s.control.ClearDone? || s.control.SetPending? || (Waiting(s.control) && s.pending)) || s.worker.ClearPending?
        ==> s.mode == RELOAD_CONFIG)
  }

  lemma StepKeepsShared(s: State, ev: Event)
    requires Inv(s) && SharedInv(s) && Enabled(s, ev)
    ensures SharedInv(Next(s, ev))
  {
    hide HistoryInv, Written, NoLostWakeup;
  }

  lemma {:induction false} RunKeepsShared(s: State, evs: seq<Event>)
    requires Inv(s) && SharedInv(s) && Runs(s, evs)
    ensures SharedInv(After(s, evs))
    decreases |evs|
  {
    hide Inv, SharedInv, Enabled, Next;
    if evs != [] {
      StepKeepsInv(s, evs[0]);
      StepKeepsShared(s, evs[0]);
      RunKeepsShared(Next(s, evs[0]), evs[1..]);
    }
  }

  /** Whenever no call is under way the mode is the default one, whatever was asked for last. */
  lemma ModeComesBack(evs: seq<Event>)
    requires Runs(INIT, evs)
    ensures var s := After(INIT, evs);
            (s.control.Idle? ==> s.mode == RELOAD_CONFIG) && (s.pending && s.worker.Apply? ==> s.rc == -1)
  {
    hide After, Runs, Next;
    InitInv();
    RunKeepsInv(INIT, evs);
    RunKeepsShared(INIT, evs);
  }
}
