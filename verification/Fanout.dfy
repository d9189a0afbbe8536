/** One native stream shared by several readers through a single batch slot.

    A run is any sequence of reader polls, reader drops and source wake-ups. The source is the
    environment: every poll that reaches it carries the answer it gives. A waker is a token; a
    reader waits when its last poll returned pending and its token has not been woken since. */
module Fanout {
  import opened Bytes

  type Waker = nat

  datatype SourcePoll<B> = SourcePending | SourceItem(batch: B) | SourceError | SourceEnd

  datatype ReaderPoll<B> = Pending | Item(batch: B) | Error(cause: Cause) | End

  datatype Cause = ProducerFailed | ConsumerCancelled

  /** The completion callback's argument, and whether source and batch were gone when it ran. */
  datatype Callback = Callback(successful: bool, released: bool)

  datatype Reader<B> = Reader(
    finished: bool,
    dropped: bool,
    waiting: Option<Waker>,
    sawEof: bool,
    delivered: seq<B>)

  datatype State<B> = State(
    source: bool,
    batch: Option<B>,
    pending: seq<bool>,
    wakers: seq<Option<Waker>>,
    remaining: nat,
    eof: bool,
    failure: Option<Cause>,
    completion: bool,
    readers: seq<Reader<B>>,
    sourceWaker: Option<Waker>,
    pulled: seq<B>,
    callbacks: seq<Callback>)

  datatype Event<B> =
    | Poll(reader: nat, waker: Waker, answer: SourcePoll<B>)
    | Drop(reader: nat)
    | SourceWake

  // ---- the steps as functions ------------------------------------------------------------

  function Init<B>(consumers: nat): State<B> {
    State(true, None, seq(consumers, _ => false), seq(consumers, _ => None), consumers, false, None, true,
          seq(consumers, _ => Reader(false, false, None, false, [])), None, [], [])
  }

  predicate SameShape<B>(s: State<B>, t: State<B>) {
    |t.readers| == |s.readers| && |t.pending| == |s.pending| && |t.wakers| == |s.wakers|
  }

  /** Every reader waiting on `token` becomes runnable. */
  function Wake<B>(readers: seq<Reader<B>>, token: Option<Waker>): (r: seq<Reader<B>>)
    ensures |r| == |readers|
  {
    seq(|readers|, i requires 0 <= i < |readers| =>
      if token.Some? && readers[i].waiting == token then readers[i].(waiting := None) else readers[i])
  }

  function WakeEach<B>(readers: seq<Reader<B>>, tokens: seq<Option<Waker>>): (r: seq<Reader<B>>)
    ensures |r| == |readers|
  {
    if tokens == [] then readers
    else Wake(WakeEach(readers, tokens[..|tokens| - 1]), tokens[|tokens| - 1])
  }

  /** `wake_readers`. */
  function WakeReaders<B>(s: State<B>): (t: State<B>)
    ensures SameShape(s, t)
  {
    s.(readers := WakeEach(s.readers, s.wakers), wakers := seq(|s.wakers|, _ => None))
  }

  /** `Shared::fail`: only the first failure counts; work is released before completion. */
  function Fail<B>(s: State<B>, cause: Cause): (t: State<B>)
    ensures SameShape(s, t)
  {
    if s.failure.Some? then s
    else Complete(WakeReaders(s.(failure := Some(cause), source := false, batch := None)), false)
  }

  /** Take the callback, if it is still there, and call it. */
  function Complete<B>(s: State<B>, successful: bool): (t: State<B>)
    ensures SameShape(s, t)
  {
    if !s.completion then s
    else s.(completion := false,
            callbacks := s.callbacks + [Callback(successful, !s.source && s.batch.None?)])
  }

  function SetReader<B>(s: State<B>, i: nat, r: Reader<B>): (t: State<B>)
    requires i < |s.readers|
    ensures SameShape(s, t)
  {
    s.(readers := s.readers[i := r])
  }

  function Park<B>(s: State<B>, i: nat, w: Waker): (t: State<B>)
    requires i < |s.readers| && i < |s.wakers|
    ensures SameShape(s, t)
  {
    SetReader(s.(wakers := s.wakers[i := Some(w)]), i, s.readers[i].(waiting := Some(w)))
  }

  predicate AnyPending(pending: seq<bool>) {
    exists j :: 0 <= j < |pending| && pending[j]
  }

  /** Hand the held batch to reader `i`; the last reader to take it frees the slot. */
  function Take<B>(s: State<B>, i: nat): (t: State<B>)
    requires i < |s.readers| && i < |s.pending| && s.batch.Some?
    ensures SameShape(s, t)
  {
    var r := s.readers[i];
    var t := SetReader(s.(pending := s.pending[i := false]), i, r.(delivered := r.delivered + [s.batch.value]));
    if AnyPending(t.pending) then t else WakeReaders(t.(batch := None))
  }

  function ObserveEof<B>(s: State<B>, i: nat): (t: State<B>)
    requires i < |s.readers| && s.remaining > 0
    ensures SameShape(s, t)
  {
    var t := SetReader(s.(remaining := s.remaining - 1), i, s.readers[i].(finished := true, sawEof := true));
    if t.remaining == 0 then Complete(t, true) else t
  }

  function ObserveFailure<B>(s: State<B>, i: nat): (t: State<B>)
    requires i < |s.readers|
    ensures SameShape(s, t)
  {
    SetReader(s, i, s.readers[i].(finished := true))
  }

  function Fill<B>(s: State<B>, b: B): (t: State<B>)
    ensures SameShape(s, t)
  {
    WakeReaders(s.(batch := Some(b), pending := seq(|s.pending|, _ => true), pulled := s.pulled + [b]))
  }

  function EndSource<B>(s: State<B>): (t: State<B>)
    ensures SameShape(s, t)
  {
    WakeReaders(s.(source := false, eof := true))
  }

  predicate Shaped<B>(s: State<B>) {
    |s.readers| == |s.pending| == |s.wakers|
  }

  /** A poll of this reader goes through to the source. */
  predicate ReachesSource<B>(s: State<B>, i: nat)
    requires i < |s.readers|
  {
    !s.readers[i].finished && s.failure.None? && s.batch.None? && !s.eof
  }

  /** The reader is being polled, so it is no longer waiting. */
  function Entered<B>(s: State<B>, i: nat): (t: State<B>)
    requires i < |s.readers|
    ensures SameShape(s, t)
  {
    SetReader(s, i, s.readers[i].(waiting := None))
  }

  /** `Reader::poll_next`. A source that is gone, or readers that all ended, cannot be polled
      or counted again; `Poll` leaves those states alone and `Inv` shows they never arise. */
  function PollNext<B>(s: State<B>, i: nat, w: Waker, answer: SourcePoll<B>): (r: (State<B>, ReaderPoll<B>))
    requires Shaped(s) && i < |s.readers|
    ensures SameShape(s, r.0)
  {
    var t := Entered(s, i);
    if s.readers[i].finished then (t, End)
    else if t.failure.Some? then (ObserveFailure(t, i), Error(t.failure.value))
    else if t.batch.Some? then
      if t.pending[i] then (Take(t, i), Item(t.batch.value)) else (Park(t, i, w), Pending)
    else if t.eof then
      if t.remaining == 0 then (t, End) else (ObserveEof(t, i), End)
    else
      match answer
      case SourcePending => (Park(t, i, w).(sourceWaker := Some(w)), Pending)
      case SourceItem(b) => (Take(Fill(t, b), i), Item(b))
      case SourceError => (ObserveFailure(Fail(t, ProducerFailed), i), Error(ProducerFailed))
      case SourceEnd =>
        if t.remaining == 0 then (EndSource(t), End) else (ObserveEof(EndSource(t), i), End)
  }

  /** `Drop for Reader`. */
  function DropReader<B>(s: State<B>, i: nat): (t: State<B>)
    requires i < |s.readers|
    ensures SameShape(s, t)
  {
    var t := SetReader(s, i, s.readers[i].(dropped := true, waiting := None));
    if s.readers[i].finished then t else Fail(t, ConsumerCancelled)
  }

  function Step<B>(s: State<B>, e: Event<B>): (t: State<B>)
    requires Shaped(s)
    ensures Shaped(t) && |t.readers| == |s.readers|
  {
    match e
    case Poll(i, w, answer) =>
      if i < |s.readers| && !s.readers[i].dropped then PollNext(s, i, w, answer).0 else s
    case Drop(i) =>
      if i < |s.readers| && !s.readers[i].dropped then DropReader(s, i) else s
    case SourceWake =>
      if s.source then s.(readers := Wake(s.readers, s.sourceWaker), sourceWaker := None) else s
  }

  function Run<B>(s: State<B>, events: seq<Event<B>>): (t: State<B>)
    requires Shaped(s)
    ensures Shaped(t) && |t.readers| == |s.readers|
  {
    if events == [] then s else Step(Run(s, events[..|events| - 1]), events[|events| - 1])
  }

  // ---- the invariant ---------------------------------------------------------------------

  predicate Live<B>(r: Reader<B>) {
    !r.finished && !r.dropped
  }

  /** How many readers have not observed the end of the stream. */
  function Unended<B>(readers: seq<Reader<B>>): nat {
    if readers == [] then 0
    else Unended(readers[..|readers| - 1]) + (if readers[|readers| - 1].sawEof then 0 else 1)
  }

  ghost predicate Delivery<B>(s: State<B>)
    requires Shaped(s)
  {
    && (s.batch.Some? ==> AnyPending(s.pending) && s.pulled != [] && s.batch.value == s.pulled[|s.pulled| - 1])
    && (s.batch.Some? ==> s.failure.None? && !s.eof)
    && (s.batch.None? && s.failure.None? ==> !AnyPending(s.pending))
    && (forall i :: 0 <= i < |s.readers| ==>
          && (s.pending[i] ==> s.pulled != [])
          && s.readers[i].delivered == if s.pending[i] then s.pulled[..|s.pulled| - 1] else s.pulled)
  }

  ghost predicate Endings<B>(s: State<B>)
    requires Shaped(s)
  {
    && (s.source <==> !s.eof && s.failure.None?)
    && s.remaining == Unended(s.readers)
    && (s.eof ==> !AnyPending(s.pending))
    && forall i :: 0 <= i < |s.readers| ==>
         && (s.readers[i].sawEof ==> s.eof && s.readers[i].finished)
         && (s.readers[i].finished && !s.readers[i].sawEof ==> s.failure.Some?)
         && (s.readers[i].dropped && !s.readers[i].finished ==> s.failure.Some?)
  }

  predicate Called<B>(s: State<B>, successful: bool) {
    |s.callbacks| == 1 && s.callbacks[0] == Callback(successful, true)
  }

  ghost predicate Completions<B>(s: State<B>) {
    && (s.completion <==> s.callbacks == [])
    && (s.callbacks != [] ==> Called(s, false) || Called(s, true))
    && (s.failure.Some? <==> Called(s, false))
    && (s.remaining == 0 <==> Called(s, true))
  }

  ghost predicate Wakeups<B>(s: State<B>)
    requires Shaped(s)
  {
    && (forall i :: 0 <= i < |s.readers| && s.readers[i].waiting.Some? ==>
          && s.wakers[i] == s.readers[i].waiting
          && Live(s.readers[i]) && !s.pending[i] && s.source)
    && (s.source && s.batch.None? ==> SourceHoldsWaiter(s) || SomeRunnable(s))
  }

  /** The source will wake a reader that is waiting. */
  ghost predicate SourceHoldsWaiter<B>(s: State<B>) {
    s.sourceWaker.Some? && exists i :: 0 <= i < |s.readers| && Live(s.readers[i]) && s.readers[i].waiting == s.sourceWaker
  }

  /** Some live reader is due to be polled. */
  ghost predicate SomeRunnable<B>(s: State<B>) {
    exists i :: 0 <= i < |s.readers| && Live(s.readers[i]) && s.readers[i].waiting.None?
  }

  ghost predicate Inv<B>(s: State<B>) {
    && Shaped(s) && s.readers != []
    && Delivery(s) && Endings(s) && Completions(s) && Wakeups(s)
  }

  // ---- counting readers ------------------------------------------------------------------

  lemma {:induction false} UnendedAgrees<B>(a: seq<Reader<B>>, b: seq<Reader<B>>)
    requires |a| == |b| && forall i :: 0 <= i < |a| ==> a[i].sawEof == b[i].sawEof
    ensures Unended(a) == Unended(b)
    decreases |a|
  {
    if a == [] {
    } else {
      UnendedAgrees(a[..|a| - 1], b[..|b| - 1]);
    }
  }

  lemma {:induction false} UnendedUpdate<B>(a: seq<Reader<B>>, i: nat, r: Reader<B>)
    requires i < |a| && !a[i].sawEof && r.sawEof
    ensures Unended(a) == Unended(a[i := r]) + 1
    decreases |a|
  {
    var n := |a| - 1;
    if i == n {
      assert a[i := r][..n] == a[..n];
    } else {
      UnendedUpdate(a[..n], i, r);
      assert a[i := r][..n] == a[..n][i := r];
    }
  }

  lemma {:induction false} UnendedZero<B>(a: seq<Reader<B>>)
    ensures Unended(a) == 0 <==> forall i :: 0 <= i < |a| ==> a[i].sawEof
    decreases |a|
  {
    if a == [] {
    } else {
      var n := |a| - 1;
      UnendedZero(a[..n]);
      if forall i :: 0 <= i < |a| ==> a[i].sawEof {
        assert forall i :: 0 <= i < n ==> a[..n][i].sawEof;
      }
      if forall i :: 0 <= i < n ==> a[..n][i].sawEof {
        forall i | 0 <= i < n ensures a[i].sawEof {
          assert a[..n][i].sawEof;
        }
      }
    }
  }

  // ---- waking ----------------------------------------------------------------------------

  lemma {:induction false} WakeEachEffect<B>(readers: seq<Reader<B>>, tokens: seq<Option<Waker>>, i: nat)
    requires i < |readers|
    ensures var r := WakeEach(readers, tokens)[i];
      r == readers[i] || r == readers[i].(waiting := None)
    ensures readers[i].waiting in tokens ==> WakeEach(readers, tokens)[i].waiting.None?
    decreases |tokens|
  {
    if tokens == [] {
    } else {
      WakeEachEffect(readers, tokens[..|tokens| - 1], i);
      if readers[i].waiting in tokens {
        assert readers[i].waiting in tokens[..|tokens| - 1] || readers[i].waiting == tokens[|tokens| - 1];
      }
    }
  }

  /** `wake_readers` reaches every waiting reader, because each has registered its waker. */
  lemma WakeReadersEffect<B>(s: State<B>)
    requires Shaped(s)
    requires forall i :: 0 <= i < |s.readers| && s.readers[i].waiting.Some? ==> s.wakers[i] == s.readers[i].waiting
    ensures var t := WakeReaders(s);
      && t == s.(readers := t.readers, wakers := t.wakers) && Shaped(t)
      && (forall i :: 0 <= i < |s.readers| ==> t.readers[i] == s.readers[i].(waiting := None))
      && Unended(t.readers) == Unended(s.readers)
  {
    var t := WakeReaders(s);
    forall i | 0 <= i < |s.readers| ensures t.readers[i] == s.readers[i].(waiting := None) {
      WakeEachEffect(s.readers, s.wakers, i);
      if s.readers[i].waiting.Some? {
        assert s.wakers[i] in s.wakers;
      }
    }
    UnendedAgrees(s.readers, t.readers);
  }

  // ---- every step keeps the invariant ----------------------------------------------------

  lemma InitInv<B>(consumers: nat)
    requires consumers > 0
    ensures Inv(Init<B>(consumers))
  {
    var s := Init<B>(consumers);
    FreshUnended(s.readers);
    assert s.readers[0].waiting.None? && Live(s.readers[0]);
  }

  lemma {:induction false} FreshUnended<B>(a: seq<Reader<B>>)
    requires forall i :: 0 <= i < |a| ==> !a[i].sawEof
    ensures Unended(a) == |a|
    decreases |a|
  {
    if a == [] {
    } else {
      FreshUnended(a[..|a| - 1]);
    }
  }

  lemma EnteredInv<B>(s: State<B>, i: nat)
    requires Inv(s) && i < |s.readers|
    ensures Inv(Entered(s, i))
  {
    hide Unended;
    var t := Entered(s, i);
    UnendedAgrees(s.readers, t.readers);
    if s.readers[i].waiting.Some? {
      assert Live(t.readers[i]);
    } else {
      assert t.readers == s.readers;
    }
  }

  /** Reader `i` takes a batch that others still owe. */
  lemma TakeHeld<B>(s: State<B>, i: nat)
    requires Inv(s) && i < |s.readers| && s.batch.Some? && s.pending[i] && s.readers[i].waiting.None?
    requires AnyPending(s.pending[i := false])
    ensures Inv(Take(s, i))
  {
    hide Unended;
    var t := Take(s, i);
    UnendedAgrees(s.readers, t.readers);
    assert t.readers[i].delivered == s.pulled;
    assert Delivery(t) && Endings(t) && Completions(t);
  }

  /** Reader `i` is the last to take the batch. */
  lemma TakeLast<B>(s: State<B>, i: nat)
    requires Inv(s) && i < |s.readers| && s.batch.Some? && s.pending[i] && s.readers[i].waiting.None?
    requires !AnyPending(s.pending[i := false])
    ensures Inv(Take(s, i))
  {
    hide Unended, WakeReaders, AnyPending, Take;
    LastTakeEffect(s, i);
    var t := Take(s, i);
    UnendedAgrees(s.readers, t.readers);
    assert !AnyPending(t.pending);
    NonePending(t.pending);
    assert Delivery(t);
    assert Endings(t) && Completions(t);
    assert Live(t.readers[0]) && t.readers[0].waiting.None?;
  }

  lemma NonePending(pending: seq<bool>)
    requires !AnyPending(pending)
    ensures forall j :: 0 <= j < |pending| ==> !pending[j]
  {
  }

  /** What the last take changes: everybody is woken and the slot is free. */
  lemma LastTakeEffect<B>(s: State<B>, i: nat)
    requires Inv(s) && i < |s.readers| && s.batch.Some? && s.pending[i] && s.readers[i].waiting.None?
    requires !AnyPending(s.pending[i := false])
    ensures var t := Take(s, i);
      && t == s.(pending := s.pending[i := false], batch := None, readers := t.readers, wakers := t.wakers) && Shaped(t)
      && (forall j :: 0 <= j < |s.readers| && j != i ==> t.readers[j] == s.readers[j].(waiting := None))
      && t.readers[i] == s.readers[i].(delivered := s.pulled)
  {
    hide Unended, WakeReaders;
    var r := s.readers[i].(delivered := s.readers[i].delivered + [s.batch.value]);
    assert r.delivered == s.pulled;
    var u := SetReader(s.(pending := s.pending[i := false]), i, r).(batch := None);
    WakeReadersEffect(u);
    assert Take(s, i) == WakeReaders(u);
  }

  lemma TakeInv<B>(s: State<B>, i: nat)
    requires Inv(s) && i < |s.readers| && s.batch.Some? && s.pending[i] && s.readers[i].waiting.None?
    ensures Inv(Take(s, i))
  {
    hide Inv, Take;
    PollFacts(s, i);
    if AnyPending(s.pending[i := false]) {
      TakeHeld(s, i);
    } else {
      TakeLast(s, i);
    }
  }

  lemma ParkInv<B>(s: State<B>, i: nat, w: Waker)
    requires Inv(s) && i < |s.readers| && Live(s.readers[i]) && s.source && !s.pending[i]
    ensures s.batch.Some? ==> Inv(Park(s, i, w))
    ensures s.batch.None? ==> Inv(Park(s, i, w).(sourceWaker := Some(w)))
  {
    hide Unended;
    var t := Park(s, i, w);
    UnendedAgrees(s.readers, t.readers);
    if s.batch.None? {
      var u := t.(sourceWaker := Some(w));
      assert Live(u.readers[i]) && u.readers[i].waiting == u.sourceWaker;
    }
  }

  lemma FillInv<B>(s: State<B>, b: B)
    requires Inv(s) && s.source && s.batch.None?
    ensures Inv(Fill(s, b)) && forall i :: 0 <= i < |s.readers| ==> Fill(s, b).pending[i]
  {
    var t := s.(batch := Some(b), pending := seq(|s.pending|, _ => true), pulled := s.pulled + [b]);
    WakeReadersEffect(t);
    var u := WakeReaders(t);
    assert u.pending[0];
    assert t.pulled[..|t.pulled| - 1] == s.pulled;
  }

  lemma EndSourceInv<B>(s: State<B>)
    requires Inv(s) && s.source && s.batch.None?
    ensures Inv(EndSource(s))
  {
    WakeReadersEffect(s.(source := false, eof := true));
  }

  lemma ObserveEofInv<B>(s: State<B>, i: nat)
    requires Inv(s) && i < |s.readers| && s.eof && s.failure.None? && !s.readers[i].finished
    ensures s.remaining > 0 && Inv(ObserveEof(s, i))
  {
    UnendedZero(s.readers);
    var r := s.readers[i].(finished := true, sawEof := true);
    UnendedUpdate(s.readers, i, r);
  }

  lemma ObserveFailureInv<B>(s: State<B>, i: nat)
    requires Inv(s) && i < |s.readers| && s.failure.Some?
    ensures Inv(ObserveFailure(s, i))
  {
    hide Unended;
    UnendedAgrees(s.readers, ObserveFailure(s, i).readers);
  }

  /** What failing does to a state that has not failed. */
  lemma FailEffect<B>(s: State<B>, cause: Cause)
    requires Shaped(s) && s.failure.None? && s.completion && s.callbacks == []
    requires forall i :: 0 <= i < |s.readers| && s.readers[i].waiting.Some? ==> s.wakers[i] == s.readers[i].waiting
    ensures var t := Fail(s, cause);
      && t == s.(failure := Some(cause), source := false, batch := None, completion := false,
                 callbacks := [Callback(false, true)], readers := t.readers, wakers := t.wakers)
      && (forall i :: 0 <= i < |s.readers| ==> t.readers[i] == s.readers[i].(waiting := None))
      && Unended(t.readers) == Unended(s.readers)
  {
    WakeReadersEffect(s.(failure := Some(cause), source := false, batch := None));
  }

  lemma FailInv<B>(s: State<B>, i: nat, dropped: bool, cause: Cause)
    requires Inv(s) && i < |s.readers| && !s.readers[i].finished && s.failure.None?
    ensures Inv(Fail(Left(s, i, dropped), cause)) && Fail(Left(s, i, dropped), cause).failure.Some?
  {
    hide Fail, WakeReaders, Unended;
    var t := Left(s, i, dropped);
    UnendedZero(s.readers);
    UnendedAgrees(s.readers, t.readers);
    FailEffect(t, cause);
    var u := Fail(t, cause);
    assert forall j :: 0 <= j < |u.readers| ==> u.readers[j].delivered == s.readers[j].delivered;
    assert Delivery(u);
    assert Endings(u);
    assert Called(u, false);
  }

  /** Reader `i` stops waiting and, when `dropped`, is gone. */
  function Left<B>(s: State<B>, i: nat, dropped: bool): State<B>
    requires i < |s.readers|
  {
    SetReader(s, i, s.readers[i].(dropped := dropped || s.readers[i].dropped, waiting := None))
  }

  lemma PollInv<B>(s: State<B>, i: nat, w: Waker, answer: SourcePoll<B>)
    requires Inv(s) && i < |s.readers| && !s.readers[i].dropped
    ensures Inv(PollNext(s, i, w, answer).0)
  {
    hide Inv, Take, Fill, Fail, EndSource, ObserveEof, ObserveFailure, Park;
    PollFacts(s, i);
    var t := Entered(s, i);
    EnteredInv(s, i);
    if !s.readers[i].finished {
      PollFacts(t, i);
      if t.failure.Some? {
        ObserveFailureInv(t, i);
      } else if t.batch.Some? {
        if t.pending[i] {
          TakeInv(t, i);
        } else {
          ParkInv(t, i, w);
        }
      } else if t.eof {
        ObserveEofInv(t, i);
      } else {
        match answer
        case SourcePending => ParkInv(t, i, w);
        case SourceItem(b) =>
          FillInv(t, b);
          FilledFacts(t, b, i);
          TakeInv(Fill(t, b), i);
        case SourceError =>
          FailInv(t, i, false, ProducerFailed);
          assert Left(t, i, false) == t;
          ObserveFailureInv(Fail(t, ProducerFailed), i);
        case SourceEnd =>
          EndSourceInv(t);
          EndedFacts(t, i);
          ObserveEofInv(EndSource(t), i);
      }
    }
  }

  lemma PollFacts<B>(s: State<B>, i: nat)
    requires Inv(s) && i < |s.readers|
    ensures Shaped(s)
    ensures s.source <==> !s.eof && s.failure.None?
    ensures s.batch.None? && s.failure.None? ==> !s.pending[i]
    ensures s.batch.Some? ==> s.source
  {
  }

  lemma FilledFacts<B>(s: State<B>, b: B, i: nat)
    requires Inv(s) && i < |s.readers| && s.readers[i].waiting.None?
    ensures var t := Fill(s, b);
      |t.readers| == |s.readers| && t.batch == Some(b) && t.readers[i].waiting.None?
  {
    WakeEachEffect(s.readers, s.wakers, i);
  }

  lemma EndedFacts<B>(s: State<B>, i: nat)
    requires Inv(s) && i < |s.readers|
    ensures var t := EndSource(s);
      && |t.readers| == |s.readers| && t.eof && t.failure == s.failure && t.remaining == s.remaining
      && t.readers[i].finished == s.readers[i].finished
  {
    WakeEachEffect(s.readers, s.wakers, i);
  }

  lemma DropAfterFailure<B>(s: State<B>, i: nat)
    requires Inv(s) && i < |s.readers| && s.failure.Some?
    ensures Inv(DropReader(s, i))
  {
    UnendedAgrees(s.readers, DropReader(s, i).readers);
  }

  lemma DropInv<B>(s: State<B>, i: nat)
    requires Inv(s) && i < |s.readers|
    ensures Inv(DropReader(s, i))
  {
    hide Fail, Unended;
    if s.readers[i].finished {
      var t := DropReader(s, i);
      UnendedAgrees(s.readers, t.readers);
    } else if s.failure.None? {
      FailInv(s, i, true, ConsumerCancelled);
      assert Left(s, i, true) == SetReader(s, i, s.readers[i].(dropped := true, waiting := None));
    } else {
      DropAfterFailure(s, i);
    }
  }

  lemma SourceWakeInv<B>(s: State<B>)
    requires Inv(s) && s.source
    ensures Inv(Step(s, SourceWake))
  {
    hide Unended, Wake, AnyPending;
    var t := Step(s, SourceWake);
    forall i | 0 <= i < |s.readers|
      ensures t.readers[i] == s.readers[i] || t.readers[i] == s.readers[i].(waiting := None)
      ensures s.sourceWaker.Some? && s.readers[i].waiting == s.sourceWaker ==> t.readers[i].waiting.None?
    {
      WakeEffect(s.readers, s.sourceWaker, i);
    }
    UnendedAgrees(s.readers, t.readers);
    WokenRest(s, t);
    WokenWakeups(s, t);
  }

  /** Waking readers touches neither deliveries nor endings. */
  lemma WokenRest<B>(s: State<B>, t: State<B>)
    requires Inv(s) && t == s.(readers := t.readers, sourceWaker := t.sourceWaker) && |t.readers| == |s.readers|
    requires forall i :: 0 <= i < |s.readers| ==> t.readers[i] == s.readers[i] || t.readers[i] == s.readers[i].(waiting := None)
    requires Unended(t.readers) == Unended(s.readers)
    ensures Shaped(t) && Delivery(t) && Endings(t) && Completions(t)
  {
    hide Unended, AnyPending, Wakeups;
  }

  lemma WokenWakeups<B>(s: State<B>, t: State<B>)
    requires Inv(s) && s.source && t == s.(readers := t.readers, sourceWaker := None) && |t.readers| == |s.readers|
    requires forall i :: 0 <= i < |s.readers| ==> t.readers[i] == s.readers[i] || t.readers[i] == s.readers[i].(waiting := None)
    requires forall i :: 0 <= i < |s.readers| && s.sourceWaker.Some? && s.readers[i].waiting == s.sourceWaker ==> t.readers[i].waiting.None?
    ensures Wakeups(t)
  {
    hide Unended, AnyPending, Delivery, Endings, Completions;
    if s.batch.None? {
      var i :| 0 <= i < |s.readers| && Live(s.readers[i]) &&
        (s.readers[i].waiting.None? || s.readers[i].waiting == s.sourceWaker);
      assert Live(t.readers[i]) && t.readers[i].waiting.None?;
    }
  }

  lemma WakeEffect<B>(readers: seq<Reader<B>>, token: Option<Waker>, i: nat)
    requires i < |readers|
    ensures var r := Wake(readers, token)[i];
      && (r == readers[i] || r == readers[i].(waiting := None))
      && (token.Some? && readers[i].waiting == token ==> r.waiting.None?)
  {
  }

  lemma StepInv<B>(s: State<B>, e: Event<B>)
    requires Inv(s)
    ensures Inv(Step(s, e))
  {
    hide Inv, PollNext, DropReader;
    assert Shaped(s) by { PollShape(s); }
    match e
    case Poll(i, w, answer) =>
      if i < |s.readers| && !s.readers[i].dropped {
        PollInv(s, i, w, answer);
      }
    case Drop(i) =>
      if i < |s.readers| && !s.readers[i].dropped {
        DropInv(s, i);
      }
    case SourceWake =>
      if s.source {
        SourceWakeInv(s);
      }
  }

  lemma PollShape<B>(s: State<B>)
    requires Inv(s)
    ensures Shaped(s)
  {
  }

  lemma {:induction false} RunInv<B>(s: State<B>, events: seq<Event<B>>)
    requires Inv(s)
    ensures Inv(Run(s, events))
    decreases |events|
  {
    hide Inv, Step;
    assert Shaped(s) by { PollShape(s); }
    if events == [] {
    } else {
      RunInv(s, events[..|events| - 1]);
      StepInv(Run(s, events[..|events| - 1]), events[|events| - 1]);
    }
  }

  /** A step never takes a callback back, nor revives the source; a poll answered by the
      source keeps it exactly when the answer is pending or a batch. */
  lemma StepKeeps<B>(s: State<B>, e: Event<B>)
    requires Inv(s)
    ensures |s.callbacks| <= |Step(s, e).callbacks|
    ensures Step(s, e).source ==> s.source
    ensures e.Poll? && e.reader < |s.readers| && !s.readers[e.reader].dropped && ReachesSource(s, e.reader) ==>
              s.source && (Step(s, e).source <==> e.answer.SourcePending? || e.answer.SourceItem?)
  {
    hide Unended, WakeEach;
  }

  // ---- what holds in every run -----------------------------------------------------------

  /** Deliveries. Each reader has received what was pulled from the source, or all of it but
      the last batch; a reader that reached the end received all of it. */
  lemma EveryReaderSeesTheStream<B>(consumers: nat, events: seq<Event<B>>, i: nat)
    requires i < consumers
    ensures var s := Run(Init<B>(consumers), events);
      && (s.readers[i].delivered == s.pulled
          || (s.pulled != [] && s.readers[i].delivered == s.pulled[..|s.pulled| - 1]))
      && (s.readers[i].sawEof ==> s.eof && s.readers[i].delivered == s.pulled)
  {
    hide Run;
    InitInv<B>(consumers);
    RunInv(Init<B>(consumers), events);
  }

  /** The source is polled only when it is still there and every reader has taken everything
      pulled so far. */
  lemma SourcePolledOnlyWhenDrained<B>(consumers: nat, events: seq<Event<B>>, i: nat, j: nat)
    requires i < consumers && j < consumers
    ensures var s := Run(Init<B>(consumers), events);
      ReachesSource(s, i) ==> s.source && !s.pending[j] && s.readers[j].delivered == s.pulled
  {
    hide Run;
    InitInv<B>(consumers);
    RunInv(Init<B>(consumers), events);
  }

  /** The end and a failure are final: whatever follows, the run stays ended, keeps its cause,
      and pulls nothing more. */
  lemma PulledIsFinal<B>(consumers: nat, events: seq<Event<B>>, later: seq<Event<B>>)
    requires consumers > 0
    ensures var s := Run(Init<B>(consumers), events);
      var t := Run(s, later);
      s.eof || s.failure.Some? ==>
        && t.pulled == s.pulled && !t.source && t.batch.None?
        && (s.eof ==> t.eof) && (s.failure.Some? ==> t.failure == s.failure)
  {
    hide Run;
    InitInv<B>(consumers);
    RunInv(Init<B>(consumers), events);
    var s := Run(Init<B>(consumers), events);
    if s.eof || s.failure.Some? {
      EndedStays(s, later);
    }
  }

  lemma {:induction false} EndedStays<B>(s: State<B>, later: seq<Event<B>>)
    requires Inv(s) && (s.eof || s.failure.Some?)
    ensures var t := Run(s, later);
      && Inv(t) && t.pulled == s.pulled && !t.source && t.batch.None?
      && (s.eof ==> t.eof) && (s.failure.Some? ==> t.failure == s.failure)
    decreases |later|
  {
    hide Step, Inv;
    EndedIsEmpty(s);
    if later == [] {
    } else {
      var n := |later| - 1;
      EndedStays(s, later[..n]);
      EndedStep(Run(s, later[..n]), later[n]);
      StepInv(Run(s, later[..n]), later[n]);
    }
  }

  lemma EndedIsEmpty<B>(s: State<B>)
    requires Inv(s) && (s.eof || s.failure.Some?)
    ensures Shaped(s) && !s.source && s.batch.None?
  {
  }

  lemma EndedStep<B>(s: State<B>, e: Event<B>)
    requires Inv(s) && (s.eof || s.failure.Some?)
    ensures var t := Step(s, e);
      && t.pulled == s.pulled && !t.source && t.batch.None?
      && (s.eof ==> t.eof) && (s.failure.Some? ==> t.failure == s.failure)
  {
    hide Unended, WakeEach;
  }

  /** A waiting reader has its waker registered, and waits for nothing it could already have. */
  lemma WaitersAreRegistered<B>(consumers: nat, events: seq<Event<B>>, i: nat)
    requires i < consumers
    ensures var s := Run(Init<B>(consumers), events);
      s.readers[i].waiting.Some? ==>
        && s.wakers[i] == s.readers[i].waiting && !s.readers[i].finished && !s.readers[i].dropped
        && !s.eof && s.failure.None? && !(s.batch.Some? && s.pending[i])
  {
    hide Run;
    InitInv<B>(consumers);
    RunInv(Init<B>(consumers), events);
  }

  /** No lost wakeup: while any reader is unfinished, some unfinished reader is due to be
      polled, or the source holds the waker of one that waits. */
  lemma NoLostWakeup<B>(consumers: nat, events: seq<Event<B>>)
    requires consumers > 0
    ensures var s := Run(Init<B>(consumers), events);
      (exists i :: 0 <= i < consumers && Live(s.readers[i])) ==>
        SomeRunnable(s) || (s.source && SourceHoldsWaiter(s))
  {
    hide Run;
    InitInv<B>(consumers);
    RunInv(Init<B>(consumers), events);
    var s := Run(Init<B>(consumers), events);
    if i :| 0 <= i < consumers && Live(s.readers[i]) {
      if s.batch.Some? {
        var j :| 0 <= j < |s.pending| && s.pending[j];
        assert Live(s.readers[j]) && s.readers[j].waiting.None?;
      } else if !s.source {
        assert Live(s.readers[i]) && s.readers[i].waiting.None?;
      }
    }
  }

  // ---- when exactly the source holds a waker ---------------------------------------------

  ghost predicate SomeoneWaits<B>(s: State<B>) {
    exists i :: 0 <= i < |s.readers| && s.readers[i].waiting.Some?
  }

  /** While the slot is empty and a reader waits, a waker the source still holds is one of a
      waiting reader; otherwise it has fired. */
  ghost predicate Fired<B>(s: State<B>) {
    s.source && s.batch.None? && SomeoneWaits(s) ==> s.sourceWaker.None? || SourceHoldsWaiter(s)
  }

  /** The last reader to take a batch wakes everyone. */
  lemma LastTakeWakesAll<B>(s: State<B>, i: nat)
    requires Inv(s) && i < |s.readers| && s.batch.Some? && s.pending[i] && s.readers[i].waiting.None?
    ensures Fired(Take(s, i))
  {
    hide Unended, WakeReaders;
    if !AnyPending(s.pending[i := false]) {
      LastTakeEffect(s, i);
    }
  }

  lemma PendingHoldsWaiter<B>(s: State<B>, i: nat, w: Waker)
    requires Inv(s) && i < |s.readers| && Live(s.readers[i])
    ensures Fired(Park(s, i, w).(sourceWaker := Some(w)))
  {
    var t := Park(s, i, w).(sourceWaker := Some(w));
    assert Live(t.readers[i]) && t.readers[i].waiting == t.sourceWaker;
  }

  lemma FiredPoll<B>(s: State<B>, i: nat, w: Waker, answer: SourcePoll<B>)
    requires Inv(s) && Fired(s) && i < |s.readers| && !s.readers[i].dropped
    ensures Fired(PollNext(s, i, w, answer).0)
  {
    hide Inv, Take, Fill, Fired;
    PollFacts(s, i);
    var t := Entered(s, i);
    EnteredInv(s, i);
    PollFacts(t, i);
    if s.readers[i].finished {
      FinishedDoNotWait(s, i);
      assert t == s;
    } else if t.failure.Some? || (t.batch.None? && t.eof) {
      SourceGone(PollNext(s, i, w, answer).0);
    } else if t.batch.Some? {
      if t.pending[i] {
        LastTakeWakesAll(t, i);
      } else {
        SlotHeld(Park(t, i, w));
      }
    } else {
      match answer
      case SourcePending => PendingHoldsWaiter(t, i, w);
      case SourceItem(b) =>
        FillInv(t, b);
        FilledFacts(t, b, i);
        FilledPending(t, b, i);
        LastTakeWakesAll(Fill(t, b), i);
      case SourceError => SourceGone(PollNext(s, i, w, answer).0);
      case SourceEnd => SourceGone(PollNext(s, i, w, answer).0);
    }
  }

  lemma FinishedDoNotWait<B>(s: State<B>, i: nat)
    requires Inv(s) && i < |s.readers| && !Live(s.readers[i])
    ensures Entered(s, i) == s
  {
    assert s.readers[i].waiting.None?;
    assert s.readers[i := s.readers[i]] == s.readers;
  }

  lemma FilledPending<B>(s: State<B>, b: B, i: nat)
    requires Shaped(s) && i < |s.readers|
    ensures i < |Fill(s, b).pending| && Fill(s, b).pending[i]
  {
  }

  lemma SourceGone<B>(s: State<B>)
    ensures !s.source ==> Fired(s)
  {
  }

  lemma SlotHeld<B>(s: State<B>)
    ensures s.batch.Some? ==> Fired(s)
  {
  }

  lemma FiredStep<B>(s: State<B>, e: Event<B>)
    requires Inv(s) && Fired(s)
    ensures Fired(Step(s, e))
  {
    hide Inv, PollNext, Unended, WakeEach;
    match e
    case Poll(i, w, answer) =>
      if i < |s.readers| && !s.readers[i].dropped {
        FiredPoll(s, i, w, answer);
      }
    case Drop(i) =>
      if i < |s.readers| && !s.readers[i].dropped {
        if s.readers[i].finished {
          FinishedDoNotWait(s, i);
          DropOfFinished(s, i);
        } else {
          DropOfUnfinished(s, i);
        }
      }
    case SourceWake =>
  }

  lemma DropOfFinished<B>(s: State<B>, i: nat)
    requires Fired(s) && i < |s.readers| && s.readers[i].finished && s.readers[i].waiting.None?
    ensures Fired(DropReader(s, i))
  {
    var t := DropReader(s, i);
    if SomeoneWaits(t) {
      var j :| 0 <= j < |t.readers| && t.readers[j].waiting.Some?;
      assert s.readers[j].waiting.Some?;
      if SourceHoldsWaiter(s) {
        var k :| 0 <= k < |s.readers| && Live(s.readers[k]) && s.readers[k].waiting == s.sourceWaker;
        assert t.readers[k] == s.readers[k];
      }
    }
  }

  lemma DropOfUnfinished<B>(s: State<B>, i: nat)
    requires Inv(s) && i < |s.readers| && !s.readers[i].finished
    ensures Fired(DropReader(s, i))
  {
    hide Unended, WakeEach;
  }

  lemma {:induction false} FiredRun<B>(consumers: nat, events: seq<Event<B>>)
    requires consumers > 0
    ensures Inv(Run(Init<B>(consumers), events)) && Fired(Run(Init<B>(consumers), events))
    decreases |events|
  {
    hide Inv, Step, Fired;
    InitInv<B>(consumers);
    if events == [] {
      NoOneWaits<B>(consumers);
    } else {
      var n := |events| - 1;
      var s := Run(Init<B>(consumers), events[..n]);
      FiredRun<B>(consumers, events[..n]);
      FiredStep(s, events[n]);
      StepInv(s, events[n]);
    }
  }

  lemma NoOneWaits<B>(consumers: nat)
    ensures Fired(Init<B>(consumers))
  {
  }

  /** The exact rule. While a reader waits and no batch is held, the source holds the waker of a
      waiting live reader if and only if it holds a waker at all: the rule fails exactly from a
      firing of the source's waker to the next pending answer. */
  lemma SourceHoldsWaiterUntilFired<B>(consumers: nat, events: seq<Event<B>>, i: nat)
    requires i < consumers
    ensures var s := Run(Init<B>(consumers), events);
      s.readers[i].waiting.Some? && s.batch.None? ==> s.source && (SourceHoldsWaiter(s) <==> s.sourceWaker.Some?)
  {
    hide Run;
    FiredRun<B>(consumers, events);
  }

  /** A waiting reader is not enough for the source to hold a waker: between the wake-up of one
      reader and its poll, the source holds none although another still waits. */
  lemma WakerMayBeSpent()
    ensures var s := Run(Init<nat>(2), [Poll(0, 10, SourcePending), Poll(1, 11, SourcePending), SourceWake]);
      && s.source && s.batch.None? && s.readers[0].waiting == Some(10)
      && !SourceHoldsWaiter(s) && s.readers[1].waiting.None?
  {
    var a: Event<nat> := Poll(0, 10, SourcePending);
    var b: Event<nat> := Poll(1, 11, SourcePending);
    assert [a, b, SourceWake][..2] == [a, b] && [a, b][..1] == [a] && [a][..0] == [];
    var first := Step(Init<nat>(2), a);
    var second := Step(first, b);
    assert Run(Init<nat>(2), [a]) == first;
    assert Run(Init<nat>(2), [a, b]) == second;
    assert second.readers[0].waiting == Some(10) && second.sourceWaker == Some(11);
  }

  /** The completion callback runs at most once, always after source and batch are released;
      with success exactly when every reader observed the end, and with failure exactly when
      the producer failed or a reader was dropped early. Once every reader is gone it has run,
      so the fallback in the destructor of the shared state never fires. */
  lemma CompletionRunsOnce<B>(consumers: nat, events: seq<Event<B>>)
    requires consumers > 0
    ensures var s := Run(Init<B>(consumers), events);
      && |s.callbacks| <= 1 && (s.callbacks != [] ==> s.callbacks[0].released)
      && (Called(s, true) <==> forall i :: 0 <= i < consumers ==> s.readers[i].sawEof)
      && (Called(s, false) <==> s.failure.Some?)
      && ((forall i :: 0 <= i < consumers ==> s.readers[i].dropped) ==> |s.callbacks| == 1 && !s.completion)
  {
    hide Run;
    InitInv<B>(consumers);
    RunInv(Init<B>(consumers), events);
    var s := Run(Init<B>(consumers), events);
    UnendedZero(s.readers);
  }

  // ---- the shared state as it is updated in place ----------------------------------------

  /** `Shared` together with its readers. */
  class SharedStream<B> {
    var source: bool
    var batch: Option<B>
    var pending: seq<bool>
    var wakers: seq<Option<Waker>>
    var remaining: nat
    var eof: bool
    var failure: Option<Cause>
    var completion: bool
    var readers: seq<Reader<B>>
    var sourceWaker: Option<Waker>
    ghost var pulled: seq<B>
    ghost var callbacks: seq<Callback>

    ghost function Abs(): State<B>
      reads this
    {
      State(source, batch, pending, wakers, remaining, eof, failure, completion, readers, sourceWaker,
            pulled, callbacks)
    }

    /** `split`. */
    constructor (consumers: nat)
      requires consumers > 0
      ensures Abs() == Init(consumers) && Inv(Abs())
    {
      source := true;
      batch := None;
      pending := seq(consumers, _ => false);
      wakers := seq(consumers, _ => None);
      remaining := consumers;
      eof := false;
      failure := None;
      completion := true;
      readers := seq(consumers, _ => Reader(false, false, None, false, []));
      sourceWaker := None;
      pulled := [];
      callbacks := [];
      new;
      InitInv<B>(consumers);
    }

    method WakeAll()
      modifies this
      ensures Abs() == WakeReaders(old(Abs()))
    {
      ghost var tokens := wakers;
      for i := 0 to |wakers|
        invariant |wakers| == |tokens|
        invariant forall k :: 0 <= k < i ==> wakers[k] == None
        invariant forall k :: i <= k < |tokens| ==> wakers[k] == tokens[k]
        invariant readers == WakeEach(old(readers), tokens[..i])
        invariant Abs() == old(Abs()).(readers := readers, wakers := wakers)
      {
        readers := Wake(readers, wakers[i]);
        wakers := wakers[i := None];
        assert tokens[..i + 1][..i] == tokens[..i];
      }
      assert tokens[..|tokens|] == tokens;
      assert wakers == seq(|tokens|, _ => None);
    }

    method Call(successful: bool)
      modifies this
      ensures Abs() == Complete(old(Abs()), successful)
    {
      if completion {
        completion := false;
        callbacks := callbacks + [Callback(successful, !source && batch.None?)];
      }
    }

    method FailWith(cause: Cause)
      modifies this
      ensures Abs() == Fail(old(Abs()), cause)
    {
      if failure.Some? {
        return;
      }
      failure := Some(cause);
      source := false;
      batch := None;
      WakeAll();
      Call(false);
    }

    method DropAt(i: nat)
      requires i < |readers|
      modifies this
      ensures Abs() == DropReader(old(Abs()), i)
    {
      var finished := readers[i].finished;
      readers := readers[i := readers[i].(dropped := true, waiting := None)];
      if !finished {
        FailWith(ConsumerCancelled);
      }
    }

    method TakeAt(i: nat) returns (item: B)
      requires i < |readers| && i < |pending| && batch.Some?
      modifies this
      ensures item == old(batch).value && Abs() == Take(old(Abs()), i)
    {
      hide WakeReaders;
      item := batch.value;
      pending := pending[i := false];
      readers := readers[i := readers[i].(delivered := readers[i].delivered + [item])];
      if !AnyPending(pending) {
        batch := None;
        WakeAll();
      }
    }

    method ParkAt(i: nat, w: Waker)
      requires i < |readers| && i < |wakers|
      modifies this
      ensures Abs() == Park(old(Abs()), i, w)
    {
      wakers := wakers[i := Some(w)];
      readers := readers[i := readers[i].(waiting := Some(w))];
    }

    method ObserveEofAt(i: nat)
      requires i < |readers| && remaining > 0
      modifies this
      ensures Abs() == ObserveEof(old(Abs()), i)
    {
      hide Complete;
      readers := readers[i := readers[i].(finished := true, sawEof := true)];
      remaining := remaining - 1;
      if remaining == 0 {
        Call(true);
      }
    }

    /** What a ready answer from the source does to the shared state. */
    method Accept(answer: SourcePoll<B>)
      requires !answer.SourcePending?
      modifies this
      ensures Abs() == Polled(old(Abs()), answer)
    {
      hide WakeReaders, Fail;
      match answer {
        case SourceItem(b) =>
          batch := Some(b);
          pending := seq(|pending|, _ => true);
          pulled := pulled + [b];
          WakeAll();
        case SourceError =>
          FailWith(ProducerFailed);
        case SourceEnd =>
          source := false;
          eof := true;
          WakeAll();
      }
    }

    /** The poll loop: it reaches the source at most once, and never when the source is gone. */
    method PollAt(i: nat, w: Waker, answer: SourcePoll<B>) returns (r: ReaderPoll<B>)
      requires Inv(Abs()) && i < |readers| && !readers[i].dropped
      modifies this
      ensures (Abs(), r) == PollNext(old(Abs()), i, w, answer)
      ensures Inv(Abs())
    {
      hide Inv, Take, Park, ObserveEof, Fill, Fail, EndSource;
      PollInv(Abs(), i, w, answer);
      EnteredInv(Abs(), i);
      PollFacts(Abs(), i);
      readers := readers[i := readers[i].(waiting := None)];
      ghost var entered := Abs();
      PollFacts(entered, i);
      if readers[i].finished {
        return End;
      }
      var polled := false;
      while true
        invariant SameShape(entered, Abs())
        invariant Abs() == if polled then Polled(entered, answer) else entered
        invariant polled ==> ReachesSource(entered, i) && !answer.SourcePending?
        decreases !polled
      {
        if polled {
          PolledFacts(entered, answer, i);
        }
        if failure.Some? {
          readers := readers[i := readers[i].(finished := true)];
          return Error(failure.value);
        }
        if batch.Some? {
          if pending[i] {
            var item := TakeAt(i);
            return Item(item);
          }
          ParkAt(i, w);
          return Pending;
        }
        if eof {
          EofFacts(entered, answer, polled, i);
          ObserveEofAt(i);
          return End;
        }
        assert !polled && source; // the unwrap cannot fail
        if answer.SourcePending? {
          ParkAt(i, w);
          sourceWaker := Some(w);
          return Pending;
        }
        Accept(answer);
        polled := true;
      }
    }
  }

  /** The state after the source has answered a poll with something other than pending. */
  ghost function Polled<B>(s: State<B>, answer: SourcePoll<B>): State<B> {
    match answer
    case SourcePending => s
    case SourceItem(b) => Fill(s, b)
    case SourceError => Fail(s, ProducerFailed)
    case SourceEnd => EndSource(s)
  }

  /** One answer from the source decides the poll. */
  lemma PolledFacts<B>(s: State<B>, answer: SourcePoll<B>, i: nat)
    requires Inv(s) && i < |s.readers| && ReachesSource(s, i) && !answer.SourcePending?
    ensures var t := Polled(s, answer);
      && Shaped(t) && |t.readers| == |s.readers|
      && (answer.SourceItem? ==> t.failure.None? && t.batch == Some(answer.batch) && t.pending[i])
      && (answer.SourceError? ==> t.failure == Some(ProducerFailed))
      && (answer.SourceEnd? ==> t.failure.None? && t.batch.None? && t.eof)
  {
    if answer.SourceError? {
      FailEffect(s, ProducerFailed);
    }
  }

  lemma EofFacts<B>(s: State<B>, answer: SourcePoll<B>, polled: bool, i: nat)
    requires Inv(s) && i < |s.readers| && !s.readers[i].finished && s.failure.None? && s.batch.None?
    requires if polled then ReachesSource(s, i) && answer.SourceEnd? else s.eof
    ensures s.remaining > 0 && (if polled then Polled(s, answer) else s).remaining > 0
  {
    UnendedZero(s.readers);
  }
}
