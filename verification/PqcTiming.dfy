/** Which fragments the handshake's receiver puts together: none that come more than two seconds after the first. */
module PqcTiming {
  import opened Bytes
  import opened PqcSend
  import opened PqcReceive

  /** Calls follow one another. */
  predicate InOrder(xs: seq<Arrival>) { forall i, j :: 0 <= i < j < |xs| ==> xs[i].later <= xs[j].now }

  /** The ideal receiver after `n` arrivals. */
  function IdealAfter(msgs: Messages, xs: seq<Arrival>, n: nat): Ideal
    requires AllFromSender(msgs, xs) && n <= |xs|
  {
    if n == 0 then map[] else IdealNext(msgs, IdealAfter(msgs, xs, n - 1), xs[n - 1]).0
  }

  /** Fragment `k` of the message is among the arrivals from `lo` up to `hi`. */
  ghost predicate Came(xs: seq<Arrival>, id: uint32, k: nat, lo: nat, hi: nat)
    requires hi <= |xs|
  {
    exists j :: lo <= j < hi && xs[j].id == id && xs[j].index == k
  }

  ghost predicate AllCame(xs: seq<Arrival>, id: uint32, count: nat, lo: nat, hi: nat)
    requires hi <= |xs|
  {
    forall k :: 0 <= k < count ==> Came(xs, id, k, lo, hi)
  }

  /** What is remembered of a message began with arrival `first` and holds only what came since. */
  ghost predicate BeganAt(xs: seq<Arrival>, id: uint32, p: Partial, first: nat, n: nat)
    requires n <= |xs|
  {
    first < n && xs[first].id == id && p.start == xs[first].later && forall k :: k in p.got ==> Came(xs, id, k, first, n)
  }

  ghost predicate Began(xs: seq<Arrival>, id: uint32, p: Partial, n: nat)
    requires n <= |xs|
  {
    exists first: nat :: BeganAt(xs, id, p, first, n)
  }

  lemma BeganMore(xs: seq<Arrival>, id: uint32, p: Partial, n: nat)
    requires n < |xs| && Began(xs, id, p, n)
    ensures Began(xs, id, p, n + 1)
    ensures xs[n].id == id ==> Began(xs, id, Partial(p.got + {xs[n].index as nat}, p.start), n + 1)
  {
    var first: nat :| BeganAt(xs, id, p, first, n);
    forall k | k in p.got ensures Came(xs, id, k, first, n + 1) {
      assert Came(xs, id, k, first, n);
    }
    if xs[n].id == id {
      assert Came(xs, id, xs[n].index, first, n + 1);
      assert BeganAt(xs, id, Partial(p.got + {xs[n].index as nat}, p.start), first, n + 1);
    }
    assert BeganAt(xs, id, p, first, n + 1);
  }

  lemma BeginsHere(xs: seq<Arrival>, n: nat)
    requires n < |xs|
    ensures Began(xs, xs[n].id, Partial({xs[n].index as nat}, xs[n].later), n + 1)
  {
    assert Came(xs, xs[n].id, xs[n].index, n, n + 1);
    assert BeganAt(xs, xs[n].id, Partial({xs[n].index as nat}, xs[n].later), n, n + 1);
  }

  /** What the fragment makes of the message it belongs to. */
  function Grown(m: Ideal, x: Arrival): Partial {
    if x.id in m then Partial(m[x.id].got + {x.index as nat}, m[x.id].start) else Partial({x.index as nat}, x.later)
  }

  lemma GrownBegan(m: Ideal, xs: seq<Arrival>, n: nat)
    requires n < |xs| && forall id :: id in m ==> Began(xs, id, m[id], n)
    ensures Began(xs, xs[n].id, Grown(m, xs[n]), n + 1)
  {
    hide Began;
    if xs[n].id in m {
      BeganMore(xs, xs[n].id, m[xs[n].id], n);
    } else {
      BeginsHere(xs, n);
    }
  }

  lemma {:induction false} AllBegan(msgs: Messages, xs: seq<Arrival>, n: nat, id: uint32)
    requires AllFromSender(msgs, xs) && n <= |xs| && id in IdealAfter(msgs, xs, n)
    ensures Began(xs, id, IdealAfter(msgs, xs, n)[id], n)
  {
    hide Began, FromSender, Sendable, TimedOut, All, Count;
    if n > 0 {
      var m := Fresh(IdealAfter(msgs, xs, n - 1), xs[n - 1].now);
      forall i | i in m ensures Began(xs, i, m[i], n - 1) {
        AllBegan(msgs, xs, n - 1, i);
      }
      if id == xs[n - 1].id {
        GrownBegan(m, xs, n - 1);
      } else {
        AllBegan(msgs, xs, n - 1, id);
        BeganMore(xs, id, m[id], n - 1);
      }
    }
  }

  lemma {:induction false} AnswerIs(msgs: Messages, m: Ideal, xs: seq<Arrival>, n: nat, at: nat)
    requires AllFromSender(msgs, xs) && at <= n < |xs| && m == IdealAfter(msgs, xs, at)
    ensures IdealAnswers(m, msgs, xs[at..])[n - at] == IdealNext(msgs, IdealAfter(msgs, xs, n), xs[n]).1
    decreases n - at
  {
    hide IdealNext, FromSender, Sendable;
    var rest := xs[at..];
    assert rest[0] == xs[at] && rest[1..] == xs[at + 1..];
    if at < n {
      AnswerIs(msgs, IdealNext(msgs, m, xs[at]).0, xs, n, at + 1);
    }
  }

  /** A clock that has gone on by more than two seconds since the start. */
  lemma TimedOutIs(start: uint64, now: uint64)
    requires start <= now
    ensures TimedOut(start, now) <==> now > start + 2000
  {
  }

  /**
   * A message is only ever put together from fragments of its own id that came from some arrival on, the last of them
   * no more than 2000 ms after that one; and they are all its fragments.
   */
  lemma OnlyInTime(msgs: Messages, xs: seq<Arrival>, n: nat) returns (first: nat)
    requires AllFromSender(msgs, xs) && InOrder(xs) && n < |xs| && Answers([], msgs, xs)[n].Complete?
    ensures var id := xs[n].id;
            Answers([], msgs, xs)[n] == Complete(id, msgs[id]) && first <= n && xs[first].id == id
            && (first < n ==> xs[n].now <= xs[first].later + 2000)
            && AllCame(xs, id, (|msgs[id]| + 1399) / 1400, first, n + 1)
  {
    hide Answers, IdealAnswers, TimedOut, All, Began, Came, AllCame;
    var x, m0 := xs[n], IdealAfter(msgs, xs, n);
    RefinesIdeal(msgs, xs);
    AnswerIs(msgs, map[], xs, n, 0);
    assert xs[0..] == xs;
    var m := Fresh(m0, x.now);
    forall i | i in m ensures Began(xs, i, m[i], n) {
      AllBegan(msgs, xs, n, i);
    }
    hide IdealAfter, InBounds;
    GrownBegan(m, xs, n);
    first := FirstOf(xs, x.id, Grown(m, x), n + 1);
    InTime(msgs, m0, xs, n, first);
    AllCome(msgs, m, xs, n, first);
  }

  lemma FirstOf(xs: seq<Arrival>, id: uint32, p: Partial, n: nat) returns (first: nat)
    requires n <= |xs| && Began(xs, id, p, n)
    ensures BeganAt(xs, id, p, first, n)
  {
    first :| BeganAt(xs, id, p, first, n);
  }

  /** The message was not dropped for its age when the last fragment came. */
  lemma InTime(msgs: Messages, m0: Ideal, xs: seq<Arrival>, n: nat, first: nat)
    requires AllFromSender(msgs, xs) && InOrder(xs) && n < |xs|
    requires BeganAt(xs, xs[n].id, Grown(Fresh(m0, xs[n].now), xs[n]), first, n + 1)
    ensures first < n ==> xs[n].now <= xs[first].later + 2000
  {
    hide Came;
    if first < n {
      TimedOutIs(xs[first].later, xs[n].now);
      hide TimedOut;
    }
  }

  lemma AllCome(msgs: Messages, m: Ideal, xs: seq<Arrival>, n: nat, first: nat)
    requires AllFromSender(msgs, xs) && n < |xs| && BeganAt(xs, xs[n].id, Grown(m, xs[n]), first, n + 1)
    requires IdealTake(msgs, m, xs[n]).1.Complete?
    ensures AllCame(xs, xs[n].id, (|msgs[xs[n].id]| + 1399) / 1400, first, n + 1)
  {
    hide Came, All;
    assert Grown(m, xs[n]).got == All(Count(|msgs[xs[n].id]|));
    assert Count(|msgs[xs[n].id]|) == (|msgs[xs[n].id]| + 1399) / 1400;
  }
}
