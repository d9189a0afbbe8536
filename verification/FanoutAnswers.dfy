/** What the readers of a shared stream are told. A run leaves each reader with a transcript, the
    answers to its polls; the transcript and the reader's state determine each other. */
module FanoutAnswers {
  import opened Bytes
  import opened Fanout

  /** The answer an event gives, and to whom. */
  function Answer<B>(s: State<B>, e: Event<B>): Option<(nat, ReaderPoll<B>)>
    requires Shaped(s)
  {
    match e
    case Poll(i, w, answer) =>
      if i < |s.readers| && !s.readers[i].dropped then Some((i, PollNext(s, i, w, answer).1)) else None
    case _ => None
  }

  /** All answers given to reader `i`, in order. */
  function Transcript<B>(s: State<B>, events: seq<Event<B>>, i: nat): seq<ReaderPoll<B>>
    requires Shaped(s)
  {
    if events == [] then []
    else
      var n := |events| - 1;
      Transcript(s, events[..n], i) + Told(Answer(Run(s, events[..n]), events[n]), i)
  }

  function Told<B>(a: Option<(nat, ReaderPoll<B>)>, i: nat): seq<ReaderPoll<B>> {
    if a.Some? && a.value.0 == i then [a.value.1] else []
  }

  function Items<B>(log: seq<ReaderPoll<B>>): seq<B> {
    if log == [] then []
    else
      var last := log[|log| - 1];
      Items(log[..|log| - 1]) + (if last.Item? then [last.batch] else [])
  }

  lemma ItemsSnoc<B>(log: seq<ReaderPoll<B>>, a: ReaderPoll<B>)
    ensures Items(log + [a]) == Items(log) + (if a.Item? then [a.batch] else [])
  {
    assert (log + [a])[..|log|] == log;
  }

  predicate Open<B>(a: ReaderPoll<B>) {
    a.Pending? || a.Item?
  }

  ghost predicate AllOpen<B>(log: seq<ReaderPoll<B>>) {
    forall j :: 0 <= j < |log| ==> Open(log[j])
  }

  /** Open answers, then `verdict` once, then only ends. */
  ghost predicate ClosedWith<B(!new)>(log: seq<ReaderPoll<B>>, verdict: ReaderPoll<B>) {
    exists p: nat :: ClosedAt(log, p, verdict)
  }

  ghost predicate ClosedAt<B>(log: seq<ReaderPoll<B>>, p: nat, verdict: ReaderPoll<B>) {
    && p < |log| && (forall j :: 0 <= j < p ==> Open(log[j])) && log[p] == verdict
    && forall j :: p < j < |log| ==> log[j] == End
  }

  /** The transcript of a reader in state `r`. */
  ghost predicate Tells<B(!new)>(log: seq<ReaderPoll<B>>, r: Reader<B>, failure: Option<Cause>) {
    && Items(log) == r.delivered
    && (r.waiting.Some? ==> log != [] && log[|log| - 1] == Pending)
    && (!r.finished ==> AllOpen(log))
    && (r.finished && r.sawEof ==> ClosedWith(log, End))
    && (r.finished && !r.sawEof ==> failure.Some? && ClosedWith(log, Error(failure.value)))
  }

  // ---- one event -------------------------------------------------------------------------

  /** What a poll tells its reader is what it does to it. */
  ghost predicate TellsStep<B>(before: Reader<B>, after: Reader<B>, a: ReaderPoll<B>, w: Waker, failure: Option<Cause>) {
    && (a == Pending <==> after.waiting.Some?) && (a == Pending ==> after.waiting == Some(w))
    && (before.finished ==> a == End && after == before.(waiting := None))
    && (!before.finished ==>
          && after.finished == (a.End? || a.Error?) && after.sawEof == a.End?
          && after.delivered == (if a.Item? then before.delivered + [a.batch] else before.delivered)
          && (a.Error? ==> failure == Some(a.cause)))
  }

  lemma PollTells<B>(s: State<B>, i: nat, w: Waker, answer: SourcePoll<B>)
    requires Inv(s) && i < |s.readers| && !s.readers[i].dropped
    ensures var (t, a) := PollNext(s, i, w, answer);
      |t.readers| == |s.readers| && TellsStep(s.readers[i], t.readers[i], a, w, t.failure)
  {
    hide Unended, WakeReaders, AnyPending;
    var t := Entered(s, i);
    EnteredInv(s, i);
    PollFacts(t, i);
    if !s.readers[i].finished && t.failure.None? {
      if t.batch.Some? {
        if t.pending[i] {
          TakeTells(t, i);
        }
      } else if t.eof {
        EofCounts(t, i);
      } else {
        match answer
        case SourcePending =>
        case SourceItem(b) =>
          FillInv(t, b);
          FilledFacts(t, b, i);
          FilledPending(t, b, i);
          TakeTells(Fill(t, b), i);
          FillTells(t, b, i);
        case SourceError => FailTells(t, ProducerFailed, i);
        case SourceEnd =>
          EofCounts(t, i);
          EndTells(t, i);
      }
    }
  }

  lemma TakeTells<B>(s: State<B>, i: nat)
    requires Inv(s) && i < |s.readers| && s.batch.Some? && s.pending[i] && s.readers[i].waiting.None?
    ensures var t := Take(s, i);
      t.readers[i] == s.readers[i].(delivered := s.readers[i].delivered + [s.batch.value]) && t.failure == s.failure
  {
    hide Unended, WakeReaders;
    if !AnyPending(s.pending[i := false]) {
      LastTakeEffect(s, i);
    }
  }

  lemma FillTells<B>(s: State<B>, b: B, i: nat)
    requires Inv(s) && i < |s.readers|
    ensures var t := Fill(s, b);
      t.readers[i] == s.readers[i].(waiting := None) && t.failure == s.failure && t.batch == Some(b)
  {
    hide Unended, WakeReaders;
    WakeReadersEffect(s.(batch := Some(b), pending := seq(|s.pending|, _ => true), pulled := s.pulled + [b]));
  }

  lemma FailTells<B>(s: State<B>, cause: Cause, i: nat)
    requires Inv(s) && i < |s.readers| && s.failure.None?
    ensures var t := Fail(s, cause);
      t.readers[i] == s.readers[i].(waiting := None) && t.failure == Some(cause)
  {
    hide Unended, WakeReaders;
    WakeReadersEffect(s.(failure := Some(cause), source := false, batch := None));
  }

  lemma EndTells<B>(s: State<B>, i: nat)
    requires Inv(s) && i < |s.readers|
    ensures var t := EndSource(s);
      t.readers[i] == s.readers[i].(waiting := None) && t.failure == s.failure && t.remaining == s.remaining
  {
    hide Unended, WakeReaders;
    WakeReadersEffect(s.(source := false, eof := true));
  }

  /** An unfinished reader of a stream that did not fail is still counted. */
  lemma EofCounts<B>(s: State<B>, i: nat)
    requires Inv(s) && i < |s.readers| && !s.readers[i].finished
    ensures s.remaining > 0 && !s.readers[i].sawEof
  {
    UnendedZero(s.readers);
  }

  /** Events that do not poll a reader tell it nothing and take nothing from it. */
  lemma OthersKeep<B>(s: State<B>, e: Event<B>, i: nat)
    requires Inv(s) && i < |s.readers| && Told(Answer(s, e), i) == []
    ensures var (r, t) := (s.readers[i], Step(s, e).readers[i]);
      && t.finished == r.finished && t.sawEof == r.sawEof && t.delivered == r.delivered
      && (t.waiting == r.waiting || t.waiting.None?)
  {
    hide Unended, WakeEach, Wake, AnyPending, PollNext;
    match e
    case Poll(j, w, answer) =>
      if j < |s.readers| && !s.readers[j].dropped {
        PollKeepsOthers(s, j, w, answer, i);
      }
    case Drop(j) =>
      DropKeepsOthers(s, j, i);
    case SourceWake => WakeEffect(s.readers, s.sourceWaker, i);
  }

  lemma DropKeepsOthers<B>(s: State<B>, j: nat, i: nat)
    requires Inv(s) && i < |s.readers|
    ensures var (r, t) := (s.readers[i], Step(s, Drop(j)).readers[i]);
      && t.finished == r.finished && t.sawEof == r.sawEof && t.delivered == r.delivered
      && (t.waiting == r.waiting || t.waiting.None?)
  {
    hide Unended, WakeEach, Wake, AnyPending;
    if j < |s.readers| && !s.readers[j].dropped {
      var u := SetReader(s, j, s.readers[j].(dropped := true, waiting := None));
      WakeEachEffect(u.readers, u.wakers, i);
    }
  }

  ghost predicate Spared<B>(r: Reader<B>, t: Reader<B>) {
    t == r || t == r.(waiting := None)
  }

  lemma PollKeepsOthers<B>(s: State<B>, j: nat, w: Waker, answer: SourcePoll<B>, i: nat)
    requires Inv(s) && i < |s.readers| && j < |s.readers| && i != j
    ensures Spared(s.readers[i], PollNext(s, j, w, answer).0.readers[i])
  {
    hide Unended, WakeReaders, AnyPending, Inv;
    var t := Entered(s, j);
    assert t.readers[i] == s.readers[i];
    PollFacts(s, j);
    SparedInPlace(t, j, i);
    match answer
    case SourcePending =>
    case SourceItem(b) => SparedByItem(t, j, i, b);
    case SourceError => WokenIsSpared(t.(failure := Some(ProducerFailed), source := false, batch := None), i);
    case SourceEnd => WokenIsSpared(t.(source := false, eof := true), i);
  }

  lemma SparedInPlace<B>(s: State<B>, j: nat, i: nat)
    requires i < |s.readers| && j < |s.readers| && i != j && Shaped(s)
    ensures s.batch.Some? ==> Spared(s.readers[i], Take(s, j).readers[i])
    ensures s.remaining > 0 ==> Spared(s.readers[i], ObserveEof(s, j).readers[i])
    ensures Spared(s.readers[i], ObserveFailure(s, j).readers[i])
  {
    hide WakeReaders;
    if s.batch.Some? {
      TakeSpares(s, j, i);
    }
  }

  lemma SparedByItem<B>(s: State<B>, j: nat, i: nat, b: B)
    requires i < |s.readers| && j < |s.readers| && i != j && Shaped(s)
    ensures Spared(s.readers[i], Take(Fill(s, b), j).readers[i])
  {
    hide Take, WakeReaders;
    WokenIsSpared(s.(batch := Some(b), pending := seq(|s.pending|, _ => true), pulled := s.pulled + [b]), i);
    FilledBatch(s, b);
    TakeSpares(Fill(s, b), j, i);
  }

  lemma FilledBatch<B>(s: State<B>, b: B)
    ensures Fill(s, b).batch == Some(b)
  {
  }

  lemma WokenIsSpared<B>(s: State<B>, i: nat)
    requires i < |s.readers|
    ensures Spared(s.readers[i], WakeReaders(s).readers[i])
  {
    WakeEachEffect(s.readers, s.wakers, i);
  }

  lemma TakeSpares<B>(s: State<B>, j: nat, i: nat)
    requires i < |s.readers| && j < |s.readers| && i != j && Shaped(s) && s.batch.Some?
    ensures Spared(s.readers[i], Take(s, j).readers[i])
  {
    hide WakeReaders;
    var r := s.readers[j];
    var t := SetReader(s.(pending := s.pending[j := false]), j, r.(delivered := r.delivered + [s.batch.value]));
    WokenIsSpared(t.(batch := None), i);
  }

  // ---- every run -------------------------------------------------------------------------

  lemma ClosedGrows<B(!new)>(log: seq<ReaderPoll<B>>, verdict: ReaderPoll<B>)
    requires ClosedWith(log, verdict)
    ensures ClosedWith(log + [End], verdict)
  {
    var p: nat :| ClosedAt(log, p, verdict);
    assert ClosedAt(log + [End], p, verdict);
  }

  lemma ClosesNow<B(!new)>(log: seq<ReaderPoll<B>>, verdict: ReaderPoll<B>)
    requires AllOpen(log)
    ensures ClosedWith(log + [verdict], verdict)
  {
    assert ClosedAt(log + [verdict], |log|, verdict);
  }

  /** One more answer keeps transcript and reader in step. */
  lemma TellsMore<B(!new)>(
    log: seq<ReaderPoll<B>>, before: Reader<B>, after: Reader<B>, a: ReaderPoll<B>, w: Waker,
    failure: Option<Cause>, later: Option<Cause>)
    requires Tells(log, before, failure) && TellsStep(before, after, a, w, later)
    requires failure.Some? ==> later == failure
    ensures Tells(log + [a], after, later)
  {
    hide Items;
    ItemsSnoc(log, a);
    if before.finished {
      if before.sawEof {
        ClosedGrows(log, End);
      } else {
        ClosedGrows(log, Error(failure.value));
      }
    } else if !Open(a) {
      ClosesNow(log, a);
    }
  }

  lemma {:induction false} TranscriptTells<B(!new)>(consumers: nat, events: seq<Event<B>>, i: nat)
    requires i < consumers
    ensures var s := Run(Init<B>(consumers), events);
      Inv(s) && Tells(Transcript(Init<B>(consumers), events, i), s.readers[i], s.failure)
    decreases |events|
  {
    hide Inv, Step, Tells, Answer;
    InitInv<B>(consumers);
    if events == [] {
      NothingTold<B>(consumers, i);
    } else {
      var n := |events| - 1;
      var (s, e) := (Run(Init<B>(consumers), events[..n]), events[n]);
      var log := Transcript(Init<B>(consumers), events[..n], i);
      TranscriptTells<B>(consumers, events[..n], i);
      StepInv(s, e);
      StepTells(s, e, i, log);
    }
  }

  lemma NothingTold<B(!new)>(consumers: nat, i: nat)
    requires i < consumers
    ensures Tells([], Init<B>(consumers).readers[i], None)
  {
  }

  lemma StepTells<B(!new)>(s: State<B>, e: Event<B>, i: nat, log: seq<ReaderPoll<B>>)
    requires Inv(s) && i < |s.readers| && Tells(log, s.readers[i], s.failure)
    ensures Tells(log + Told(Answer(s, e), i), Step(s, e).readers[i], Step(s, e).failure)
  {
    hide PollNext, Items, Inv;
    PollFacts(s, i);
    FailureStays(s, e);
    if Told(Answer(s, e), i) == [] {
      OthersKeep(s, e, i);
      assert log + [] == log;
    } else {
      PollTells(s, i, e.waker, e.answer);
      TellsMore(log, s.readers[i], Step(s, e).readers[i], Answer(s, e).value.1, e.waker, s.failure, Step(s, e).failure);
    }
  }

  lemma FailureStays<B>(s: State<B>, e: Event<B>)
    requires Inv(s)
    ensures s.failure.Some? ==> Step(s, e).failure == s.failure
  {
    if s.failure.Some? {
      EndedStep(s, e);
    }
  }

  /** What a reader is told over any run. The items of its transcript are exactly what it was
      delivered; it is told open answers until it finishes, then once how, and only ends after:
      `End` if it saw the end of the stream, the cause of the failure otherwise. While it waits
      its last answer was `Pending`. */
  lemma ReadersAreToldTheTruth<B(!new)>(consumers: nat, events: seq<Event<B>>, i: nat)
    requires i < consumers
    ensures var (s, log) := (Run(Init<B>(consumers), events), Transcript(Init<B>(consumers), events, i));
      && Items(log) == s.readers[i].delivered
      && (!s.readers[i].finished ==> AllOpen(log))
      && (s.readers[i].sawEof <==> ClosedWith(log, End))
      && (s.readers[i].finished && !s.readers[i].sawEof ==>
            s.failure.Some? && ClosedWith(log, Error(s.failure.value)))
      && (forall c :: Error(c) in log ==> s.failure == Some(c) && !s.readers[i].sawEof)
      && (s.readers[i].waiting.Some? ==> log != [] && log[|log| - 1] == Pending)
  {
    hide Run, Transcript, Items;
    TranscriptTells<B>(consumers, events, i);
    var (s, log) := (Run(Init<B>(consumers), events), Transcript(Init<B>(consumers), events, i));
    FinishedFacts(s, i);
    forall c | Error(c) in log ensures s.failure == Some(c) && !s.readers[i].sawEof {
      ErrorIsVerdict(log, s.readers[i], s.failure, c);
    }
    if ClosedWith(log, End) && !s.readers[i].sawEof {
      EndIsVerdict(log, s.readers[i], s.failure);
    }
  }

  lemma FinishedFacts<B>(s: State<B>, i: nat)
    requires Inv(s) && i < |s.readers|
    ensures s.readers[i].sawEof ==> s.readers[i].finished
  {
  }

  lemma ErrorIsVerdict<B(!new)>(log: seq<ReaderPoll<B>>, r: Reader<B>, failure: Option<Cause>, c: Cause)
    requires Tells(log, r, failure) && Error(c) in log && (r.sawEof ==> r.finished)
    ensures failure == Some(c) && !r.sawEof
  {
    hide Items;
    var j :| 0 <= j < |log| && log[j] == Error(c);
    assert !Open(log[j]);
    if r.finished {
      var verdict := if r.sawEof then End else Error(failure.value);
      var p: nat :| ClosedAt(log, p, verdict);
    }
  }

  lemma EndIsVerdict<B(!new)>(log: seq<ReaderPoll<B>>, r: Reader<B>, failure: Option<Cause>)
    requires Tells(log, r, failure) && ClosedWith(log, End)
    ensures r.sawEof
  {
    hide Items;
    var p: nat :| ClosedAt(log, p, End);
    assert !Open(log[p]);
  }

  /** What a live reader is told next: whatever is available to it, at once. */
  lemma AvailableIsAnswered<B>(consumers: nat, events: seq<Event<B>>, i: nat, w: Waker, answer: SourcePoll<B>)
    requires i < consumers
    ensures var s := Run(Init<B>(consumers), events);
      !s.readers[i].dropped && !s.readers[i].finished ==>
        var a := Answer(s, Poll(i, w, answer));
        && (s.failure.Some? ==> a == Some((i, Error(s.failure.value))))
        && (s.batch.Some? && s.pending[i] ==> a == Some((i, Item(s.batch.value))))
        && (s.batch.Some? && !s.pending[i] ==> a == Some((i, Pending)))
        && (s.eof && s.failure.None? ==> a == Some((i, End)))
        && (ReachesSource(s, i) ==>
              match answer
              case SourcePending => a == Some((i, Pending))
              case SourceItem(b) => a == Some((i, Item(b)))
              case SourceError => a == Some((i, Error(ProducerFailed)))
              case SourceEnd => a == Some((i, End)))
  {
    hide Run, Unended, WakeReaders;
    InitInv<B>(consumers);
    RunInv(Init<B>(consumers), events);
  }

  // ---- the source and the failures -------------------------------------------------------

  /** The answers of the source to the polls that reached it. */
  function Asked<B>(s: State<B>, events: seq<Event<B>>): seq<SourcePoll<B>>
    requires Shaped(s)
  {
    if events == [] then []
    else
      var n := |events| - 1;
      Asked(s, events[..n]) + AskedBy(Run(s, events[..n]), events[n])
  }

  function AskedBy<B>(s: State<B>, e: Event<B>): seq<SourcePoll<B>> {
    if e.Poll? && e.reader < |s.readers| && !s.readers[e.reader].dropped && ReachesSource(s, e.reader)
    then [e.answer] else []
  }

  predicate CancelledBy<B>(s: State<B>, e: Event<B>) {
    e.Drop? && e.reader < |s.readers| && !s.readers[e.reader].dropped && !s.readers[e.reader].finished
  }

  /** What each event does to the stream as a whole. */
  lemma EventsDecide<B>(s: State<B>, e: Event<B>)
    requires Inv(s)
    ensures var (t, asked) := (Step(s, e), AskedBy(s, e));
      && t.pulled == s.pulled + (if |asked| == 1 && asked[0].SourceItem? then [asked[0].batch] else [])
      && t.eof == (s.eof || asked == [SourceEnd])
      && t.failure == (if s.failure.Some? then s.failure
                       else if asked == [SourceError] then Some(ProducerFailed)
                       else if CancelledBy(s, e) then Some(ConsumerCancelled)
                       else None)
  {
    hide Unended, PollNext, WakeReaders;
    match e
    case Poll(i, w, answer) =>
      if i < |s.readers| && !s.readers[i].dropped {
        PollDecides(s, i, w, answer);
      }
    case Drop(i) =>
      if i < |s.readers| && !s.readers[i].dropped {
        WakingKeepsStream(SetReader(s, i, s.readers[i].(dropped := true, waiting := None))
          .(failure := Some(ConsumerCancelled), source := false, batch := None));
      }
    case SourceWake =>
  }

  ghost predicate SameStream<B>(s: State<B>, t: State<B>) {
    t.pulled == s.pulled && t.eof == s.eof && t.failure == s.failure
  }

  lemma WakingKeepsStream<B>(s: State<B>)
    ensures SameStream(s, WakeReaders(s)) && WakeReaders(s).completion == s.completion
    ensures WakeReaders(s).remaining == s.remaining && WakeReaders(s).batch == s.batch
  {
  }

  lemma TakeKeepsStream<B>(s: State<B>, i: nat)
    requires i < |s.readers| && i < |s.pending| && s.batch.Some?
    ensures SameStream(s, Take(s, i))
  {
    hide WakeReaders;
    var r := s.readers[i];
    var t := SetReader(s.(pending := s.pending[i := false]), i, r.(delivered := r.delivered + [s.batch.value]));
    WakingKeepsStream(t.(batch := None));
  }

  lemma PollDecides<B>(s: State<B>, i: nat, w: Waker, answer: SourcePoll<B>)
    requires Inv(s) && i < |s.readers|
    ensures var t := PollNext(s, i, w, answer).0;
      && t.pulled == s.pulled + (if ReachesSource(s, i) && answer.SourceItem? then [answer.batch] else [])
      && t.eof == (s.eof || (ReachesSource(s, i) && answer.SourceEnd?))
      && t.failure == (if ReachesSource(s, i) && answer.SourceError? then Some(ProducerFailed) else s.failure)
  {
    hide Unended, WakeReaders, Take;
    PollFacts(s, i);
    var t := Entered(s, i);
    if t.batch.Some? {
      TakeKeepsStream(t, i);
    } else if ReachesSource(s, i) {
      match answer
      case SourcePending =>
      case SourceItem(b) =>
        WakingKeepsStream(t.(batch := Some(b), pending := seq(|t.pending|, _ => true), pulled := t.pulled + [b]));
        TakeKeepsStream(Fill(t, b), i);
      case SourceError => WakingKeepsStream(t.(failure := Some(ProducerFailed), source := false, batch := None));
      case SourceEnd => WakingKeepsStream(t.(source := false, eof := true));
    }
  }

  function Batches<B>(answers: seq<SourcePoll<B>>): seq<B> {
    if answers == [] then []
    else
      var last := answers[|answers| - 1];
      Batches(answers[..|answers| - 1]) + (if last.SourceItem? then [last.batch] else [])
  }

  lemma BatchesSnoc<B>(answers: seq<SourcePoll<B>>, a: SourcePoll<B>)
    ensures Batches(answers + [a]) == Batches(answers) + (if a.SourceItem? then [a.batch] else [])
  {
    assert (answers + [a])[..|answers|] == answers;
  }

  /** Over any run the stream is what the source said: its batches in order, ended exactly when
      the source ended, failed for the producer exactly when the source failed first. */
  lemma {:induction false} RunFollowsTheSource<B>(consumers: nat, events: seq<Event<B>>)
    requires consumers > 0
    ensures var (s, asked) := (Run(Init<B>(consumers), events), Asked(Init<B>(consumers), events));
      && Inv(s)
      && s.pulled == Batches(asked)
      && (s.eof <==> SourceEnd in asked)
      && (s.failure == Some(ProducerFailed) <==> SourceError in asked)
    decreases |events|
  {
    hide Inv, Step, AskedBy;
    InitInv<B>(consumers);
    if events == [] {
    } else {
      var n := |events| - 1;
      var s := Run(Init<B>(consumers), events[..n]);
      RunFollowsTheSource<B>(consumers, events[..n]);
      StepInv(s, events[n]);
      EventsDecide(s, events[n]);
      AskedOnce(s, events[n]);
      var asked := Asked(Init<B>(consumers), events[..n]);
      if AskedBy(s, events[n]) == [] {
        assert asked + [] == asked;
      } else {
        BatchesSnoc(asked, AskedBy(s, events[n])[0]);
      }
    }
  }

  lemma AskedOnce<B>(s: State<B>, e: Event<B>)
    ensures |AskedBy(s, e)| <= 1 && (AskedBy(s, e) != [] ==> AskedBy(s, e) == [AskedBy(s, e)[0]] && s.failure.None?)
  {
  }
}
