/** How invocations start, what they hold while they run, and how each way of ending them ends:
    exactly, for every reachable world. */
module InvocationOutcomes {
  import opened Bytes
  import opened Invocation
  import Fanout

  // ---- starting --------------------------------------------------------------------------

  function Schemas(slots: seq<Slot>): seq<nat> {
    seq(|slots|, i requires 0 <= i < |slots| => slots[i].schema)
  }

  ghost predicate Filled(slots: seq<Slot>, batches: seq<nat>) {
    |slots| == |batches| && forall i :: 0 <= i < |slots| ==> slots[i] == Slot(batches[i], true)
  }

  /** The cached plan accepts the batches: it exists or can be lowered, and the schemas agree. */
  predicate Fits(c: Context, batches: seq<nat>, lowers: bool) {
    match c.inputs
    case None => lowers
    case Some(slots) => Schemas(slots) == batches
  }

  /** Replacing batches works exactly when every schema agrees, and then fills every slot; a schema
      change leaves none filled. */
  lemma {:induction false} ReplaceFills(slots: seq<Slot>, batches: seq<nat>, at: nat)
    requires |slots| == |batches| && at <= |slots|
    requires forall i :: 0 <= i < at ==> slots[i] == Slot(batches[i], true)
    ensures var (r, ok) := Replace(slots, batches, at);
      && (ok <==> Schemas(slots) == batches)
      && (ok ==> Filled(r, batches))
      && (!ok ==> forall i :: 0 <= i < |r| ==> !r[i].filled)
      && Schemas(r) == Schemas(slots)
    decreases |slots| - at
  {
    if at == |slots| {
      assert forall i :: 0 <= i < |slots| ==> Schemas(slots)[i] == batches[i];
    } else if slots[at].schema != batches[at] {
      assert Schemas(slots)[at] != batches[at];
      assert Schemas(Cleared(Some(slots)).value) == Schemas(slots);
    } else {
      var next := slots[at := slots[at].(filled := true)];
      assert Schemas(next) == Schemas(slots);
      ReplaceFills(next, batches, at + 1);
    }
  }

  lemma NewSlotsFit(batches: seq<nat>)
    ensures Schemas(NewSlots(batches)) == batches && |NewSlots(batches)| == |batches|
  {
  }

  /** Preparing works exactly when the cached plan fits, fills every slot then, leaves none filled
      after a schema change, and never changes the schemas of a plan that was lowered before. */
  lemma PrepareExactly(c: Context, batches: seq<nat>, lowers: bool)
    ensures var (p, ok) := Prepare(c, batches, lowers);
      && (ok <==> Fits(c, batches, lowers))
      && (ok ==> p.inputs.Some? && Filled(p.inputs.value, batches))
      && (!ok && c.inputs.Some? && |c.inputs.value| == |batches| ==>
            p.inputs.Some? && forall i :: 0 <= i < |p.inputs.value| ==> !p.inputs.value[i].filled)
      && (c.inputs.Some? ==> p.inputs.Some? && Schemas(p.inputs.value) == Schemas(c.inputs.value))
      && p == c.(inputs := p.inputs)
  {
    hide Replace;
    if c.inputs.Some? || lowers {
      NewSlotsFit(batches);
      var slots := if c.inputs.None? then NewSlots(batches) else c.inputs.value;
      if |slots| == |batches| {
        ReplaceFills(slots, batches, 0);
      } else {
        assert |Schemas(slots)| != |batches|;
      }
    }
  }

  /** An idle tree starts a stream exactly when the control request is valid, the plan fits and
      an execution stream can be had; the invocation then holds exactly its batches and its
      controls, no stream stays retained, and the new stream owns the completion. */
  lemma StartsExactly(w: World, batches: seq<nat>, events: Option<bool>, lowers: bool, reusable: bool, executes: bool)
    requires Reachable(w) && w.context.word == Idle
    ensures var c := w.context;
      var v := Act(w, DoStart(batches, events, lowers, reusable, executes));
      var keep := reusable && !Recovers(c);
      && (v.context.word == Active <==>
            && !c.region && events != Some(false) && Fits(c, batches, lowers) && (executes || (c.retained && keep)))
      && (v.context.word == Active ==>
            && v.context.inputs.Some? && Filled(v.context.inputs.value, batches)
            && v.context.controls == events.Some? && !v.context.retained
            && v.owners == w.owners + [OwnedStream(Stream(true, keep, true, false), c.begun)])
      && (v.context.word != Active ==> v.owners == w.owners)
  {
    hide Prepare, Reachable;
    ReachableInv(w);
    var c := w.context;
    var (installed, valid) := Install(Claimed(c), events);
    PrepareExactly(installed, batches, lowers);
  }

  lemma RegionStartsExactly(w: World, batches: seq<nat>, events: Option<bool>, lowers: bool, starts: bool)
    requires Reachable(w) && w.context.word == Idle
    ensures var c := w.context;
      var v := Act(w, DoStartRegion(batches, events, lowers, starts));
      && (v.context.word == Active <==>
            c.region && events != Some(false) && Fits(c, batches, lowers) && starts)
      && (v.context.word == Active ==>
            && v.context.inputs.Some? && Filled(v.context.inputs.value, batches)
            && v.context.controls == events.Some?
            && v.owners == w.owners + [OwnedRegion(false, c.begun)])
      && (v.context.word == RecoveryRequired <==>
            c.region && events != Some(false) && Fits(c, batches, lowers) && !starts)
  {
    hide Prepare, Reachable;
    ReachableInv(w);
    var c := w.context;
    var (installed, valid) := Install(Claimed(c), events);
    PrepareExactly(installed, batches, lowers);
  }

  /** A synchronous call always ends within itself: in recovery exactly when the plan recovers,
      was prepared, and failed; and it never leaves a stream retained once prepared. */
  lemma ExecuteExactly(w: World, batches: seq<nat>, lowers: bool, succeeds: bool)
    requires Reachable(w) && w.context.word == Idle
    ensures var c := w.context;
      var v := Act(w, DoExecute(batches, lowers, succeeds));
      var ready := !c.region && Fits(c, batches, lowers);
      && v.owners == w.owners && v.context.word != Active
      && (v.context.word == RecoveryRequired <==> Recovers(c) && ready && !succeeds)
      && v.context.retained == (c.retained && !ready)
  {
    hide Prepare, Reachable;
    ReachableInv(w);
    PrepareExactly(Claimed(w.context), batches, lowers);
  }

  /** What an active invocation holds, it holds to the end. */
  lemma ActiveKeepsInputs(w: World, a: Action)
    requires Reachable(w) && w.context.word == Active && Act(w, a).context.word == Active
    ensures var (c, d) := (w.context, Act(w, a).context);
      d.inputs == c.inputs && d.controls == c.controls && d.begun == c.begun && d.finished == c.finished
  {
    hide Reachable, FanoutEvent, Fanout.Inv;
    ReachableInv(w);
    if a.DoFanoutEvent? && a.owner < |w.owners| && w.owners[a.owner].OwnedFanout?
       && Fanout.Shaped(w.owners[a.owner].shared) {
      FanoutHolds(w, a.owner, a.event);
    }
  }

  lemma FanoutHolds(w: World, k: nat, e: Fanout.Event<nat>)
    requires Inv(w) && k < |w.owners| && w.owners[k].OwnedFanout? && Fanout.Shaped(w.owners[k].shared)
    requires FanoutEvent(w.context, w.owners[k], e).0.word == Active == w.context.word
    ensures var (c, d) := (w.context, FanoutEvent(w.context, w.owners[k], e).0);
      d.inputs == c.inputs && d.controls == c.controls && d.begun == c.begun && d.finished == c.finished
  {
    hide Fanout.Step, Fanout.Inv, Cleared;
    assert !w.owners[k].source.owns;
  }

  // ---- ending ----------------------------------------------------------------------------

  /** The action ends the invocation of this owner in failure. */
  predicate Fails(o: Owner, a: Action) {
    match o
    case OwnedStream(s, _) =>
      || (a.DoPoll? && a.answer.SourceError?)
      || (a.DoFanOut? && (s.polled || a.consumers == 0))
      || a.DoDrop?
    case OwnedRegion(_, _) => (a.DoRegionCallback? && !a.success) || a.DoDrop?
    case OwnedFanout(_, _, _) => false
  }

  /** The action ends it in success. */
  predicate Succeeds(o: Owner, a: Action) {
    match o
    case OwnedStream(s, _) => a.DoPoll? && (a.answer.SourceEnd? || (a.answer.SourcePending? && s.reusable))
    case OwnedRegion(_, _) => a.DoRegionCallback? && a.success
    case OwnedFanout(_, _, _) => false
  }

  /** The exact outcome of every action on a stream or a region that has not finished. The word
      becomes recovery if and only if the plan recovers and the action is an error, a drop, a
      refused fan-out or a failed callback; a normal end, a reusable stream going pending and a
      successful callback return to idle; anything else leaves the invocation active. Only the
      reusable stream leaves its execution behind. */
  lemma HowInvocationsEnd(w: World, k: nat, a: Action)
    requires Reachable(w) && k < |w.owners| && Unfinished(w.owners[k]) && Touches(a, k)
    requires !w.owners[k].OwnedFanout?
    ensures var (o, v) := (w.owners[k], Act(w, a));
      && v.context.word == (if Fails(o, a) then if Recovers(w.context) then RecoveryRequired else Idle
                            else if Succeeds(o, a) then Idle else Active)
      && (Unfinished(v.owners[k]) <==> !Fails(o, a) && !Succeeds(o, a))
      && v.context.retained == (w.context.retained || (o.OwnedStream? && a.DoPoll? && a.answer.SourcePending? && o.stream.reusable))
      && (v.context.word != Active ==> Clean(v.context) && v.context.finished == w.context.finished + [o.epoch])
  {
    hide Reachable, Cleared;
    ReachableInv(w);
    if v: World :| v == Act(w, a) && v.context.word != Active {
      FinishClean(w.context, true, w.owners[k].epoch);
      FinishClean(w.context, false, w.owners[k].epoch);
      FinishClean(w.context.(retained := true), true, w.owners[k].epoch);
    }
  }

  // ---- what a plan stream yields ---------------------------------------------------------

  /** Polls of one stream against the answers of its execution stream. */
  function PollAll(c: Context, s: Stream, answers: seq<Fanout.SourcePoll<nat>>, epoch: nat)
    : (r: (Context, Stream, seq<Fanout.SourcePoll<nat>>))
    ensures |r.2| == |answers|
  {
    if answers == [] then (c, s, [])
    else
      var n := |answers| - 1;
      var (d, t, told) := PollAll(c, s, answers[..n], epoch);
      var (e, u, answer) := PollStream(d, t, answers[n], epoch);
      (e, u, told + [answer])
  }

  /** The answer after which the stream is gone. */
  predicate Terminal(a: Fanout.SourcePoll<nat>, reusable: bool) {
    a.SourceEnd? || a.SourceError? || (a.SourcePending? && reusable)
  }

  /** No answer among the first `n` is terminal. */
  ghost predicate NoneTerminal(answers: seq<Fanout.SourcePoll<nat>>, n: nat, reusable: bool) {
    forall i :: 0 <= i < n && i < |answers| ==> !Terminal(answers[i], reusable)
  }

  /** What poll `j` should answer. */
  ghost function Yield(answers: seq<Fanout.SourcePoll<nat>>, j: nat, reusable: bool): Fanout.SourcePoll<nat>
    requires j < |answers|
  {
    if !NoneTerminal(answers, j, reusable) then Fanout.SourceEnd
    else if Terminal(answers[j], reusable) && !answers[j].SourceError? then Fanout.SourceEnd
    else answers[j]
  }

  lemma YieldOfPrefix(answers: seq<Fanout.SourcePoll<nat>>, n: nat, j: nat, reusable: bool)
    requires j < n <= |answers|
    ensures Yield(answers[..n], j, reusable) == Yield(answers, j, reusable)
  {
    assert forall i :: 0 <= i < n ==> answers[..n][i] == answers[i];
    assert NoneTerminal(answers[..n], j, reusable) == NoneTerminal(answers, j, reusable);
  }

  lemma NoneTerminalSnoc(answers: seq<Fanout.SourcePoll<nat>>, n: nat, reusable: bool)
    requires n < |answers|
    ensures NoneTerminal(answers, n + 1, reusable) <==> NoneTerminal(answers, n, reusable) && !Terminal(answers[n], reusable)
    ensures NoneTerminal(answers[..n], n, reusable) <==> NoneTerminal(answers, n, reusable)
  {
    assert forall i :: 0 <= i < n ==> answers[..n][i] == answers[i];
  }

  /** Batches, pending answers and the first error come through unchanged; a reusable stream ends
      where its execution goes pending; after the first terminal answer every poll ends. */
  lemma {:induction false} StreamYieldsTheExecution(c: Context, s: Stream, answers: seq<Fanout.SourcePoll<nat>>, epoch: nat)
    requires s.live
    ensures var (d, t, told) := PollAll(c, s, answers, epoch);
      && t == Stream(NoneTerminal(answers, |answers|, s.reusable), s.reusable, s.owns, s.polled || answers != [])
      && (forall j :: 0 <= j < |answers| ==> told[j] == Yield(answers, j, s.reusable))
    decreases |answers|
  {
    hide Finish, NoneTerminal;
    if answers == [] {
      assert NoneTerminal(answers, 0, s.reusable) by { NothingTerminal(s.reusable); }
    } else {
      var n := |answers| - 1;
      StreamYieldsTheExecution(c, s, answers[..n], epoch);
      NoneTerminalSnoc(answers, n, s.reusable);
      forall j | 0 <= j < n ensures Yield(answers[..n], j, s.reusable) == Yield(answers, j, s.reusable) {
        YieldOfPrefix(answers, n, j, s.reusable);
      }
    }
  }

  lemma NothingTerminal(reusable: bool)
    ensures NoneTerminal([], 0, reusable)
  {
  }

  // ---- the cached plan -------------------------------------------------------------------

  /** A plan is lowered once: its inputs keep their schemas whatever happens. */
  lemma SchemasAreStable(w: World, a: Action)
    requires w.context.inputs.Some?
    ensures var d := Act(w, a).context;
      d.inputs.Some? && Schemas(d.inputs.value) == Schemas(w.context.inputs.value)
  {
    hide Prepare, FanoutEvent, Fanout.Inv, Finish, Schemas, ExecutePlan, StartInvocation, StartRegion, PollStream, DropStream;
    var c := w.context;
    forall d: Context, ok, epoch ensures SameSchemas(d, Finish(d, ok, epoch)) {
      FinishKeepsSchemas(d, ok, epoch);
    }
    match a
    case DoExecute(batches, lowers, ok) => ExecuteKeepsSchemas(c, batches, lowers, ok);
    case DoStart(batches, events, lowers, reusable, ok) => StartKeepsSchemas(c, batches, events, lowers, reusable, ok);
    case DoStartRegion(batches, events, lowers, ok) => StartRegionKeepsSchemas(c, batches, events, lowers, ok);
    case DoPoll(k, answer) =>
      if k < |w.owners| && w.owners[k].OwnedStream? {
        StreamKeepsSchemas(c, w.owners[k].stream, answer, w.owners[k].epoch);
      }
    case DoFanOut(k, _) =>
      if k < |w.owners| && w.owners[k].OwnedStream? {
        StreamKeepsSchemas(c, w.owners[k].stream, Fanout.SourceEnd, w.owners[k].epoch);
      }
    case DoDrop(k) =>
      if k < |w.owners| && w.owners[k].OwnedStream? {
        StreamKeepsSchemas(c, w.owners[k].stream, Fanout.SourceEnd, w.owners[k].epoch);
      }
    case DoFanoutEvent(k, e) =>
      if k < |w.owners| && w.owners[k].OwnedFanout? && Fanout.Shaped(w.owners[k].shared) {
        FanoutKeepsSchemas(c, w.owners[k], e);
      }
    case _ =>
  }

  lemma ExecuteKeepsSchemas(c: Context, batches: seq<nat>, lowers: bool, ok: bool)
    ensures SameSchemas(c, ExecutePlan(c, batches, lowers, ok))
  {
    hide Prepare, Finish, Schemas;
    if c.word == Idle {
      PrepareExactly(Claimed(c), batches, lowers);
      var p := PreparePlan(Claimed(c), batches, lowers).0;
      FinishKeepsSchemas(p, true, c.begun);
      FinishKeepsSchemas(p.(retained := false), ok, c.begun);
    }
  }

  lemma StartKeepsSchemas(c: Context, batches: seq<nat>, events: Option<bool>, lowers: bool, reusable: bool, ok: bool)
    ensures SameSchemas(c, StartInvocation(c, batches, events, lowers, reusable, ok).0)
  {
    hide Prepare, Finish, Schemas;
    if c.word == Idle {
      var installed := Install(Claimed(c), events).0;
      PrepareExactly(installed, batches, lowers);
      var p := PreparePlan(installed, batches, lowers).0;
      FinishKeepsSchemas(installed, true, c.begun);
      FinishKeepsSchemas(p, true, c.begun);
      FinishKeepsSchemas(p.(retained := false), false, c.begun);
    }
  }

  lemma StartRegionKeepsSchemas(c: Context, batches: seq<nat>, events: Option<bool>, lowers: bool, ok: bool)
    ensures SameSchemas(c, StartRegion(c, batches, events, lowers, ok).0)
  {
    hide Prepare, Finish, Schemas;
    if c.word == Idle {
      var installed := Install(Claimed(c), events).0;
      PrepareExactly(installed, batches, lowers);
      var p := Prepare(installed, batches, lowers).0;
      FinishKeepsSchemas(installed, true, c.begun);
      FinishKeepsSchemas(p, true, c.begun);
      FinishKeepsSchemas(p, false, c.begun);
    }
  }

  lemma StreamKeepsSchemas(c: Context, s: Stream, answer: Fanout.SourcePoll<nat>, epoch: nat)
    ensures SameSchemas(c, PollStream(c, s, answer, epoch).0) && SameSchemas(c, DropStream(c, s, epoch).0)
  {
    hide Finish, Schemas;
    FinishKeepsSchemas(c, true, epoch);
    FinishKeepsSchemas(c, false, epoch);
    FinishKeepsSchemas(c.(retained := true), true, epoch);
  }

  ghost predicate SameSchemas(c: Context, d: Context) {
    c.inputs.Some? ==> d.inputs.Some? && Schemas(d.inputs.value) == Schemas(c.inputs.value)
  }

  lemma FinishKeepsSchemas(c: Context, ok: bool, epoch: nat)
    ensures SameSchemas(c, Finish(c, ok, epoch))
  {
    if c.inputs.Some? {
      assert Schemas(Cleared(c.inputs).value) == Schemas(c.inputs.value);
    }
  }

  lemma FanoutKeepsSchemas(c: Context, o: Owner, e: Fanout.Event<nat>)
    requires o.OwnedFanout? && Fanout.Shaped(o.shared)
    ensures SameSchemas(c, FanoutEvent(c, o, e).0)
  {
    hide Fanout.Step, Finish, Schemas, PollStream, DropStream;
    var reaches := e.Poll? && e.reader < |o.shared.readers| && !o.shared.readers[e.reader].dropped
      && Fanout.ReachesSource(o.shared, e.reader);
    if reaches {
      StreamKeepsSchemas(c, o.source, e.answer, o.epoch);
    }
    var (polled, source, answer) :=
      if reaches then PollStream(c, o.source, e.answer, o.epoch) else (c, o.source, Fanout.SourceEnd);
    var after := Fanout.Step(o.shared, if reaches then Fanout.Poll(e.reader, e.waker, answer) else e);
    StreamKeepsSchemas(polled, source, Fanout.SourceEnd, o.epoch);
    var dropped := if after.source then polled else DropStream(polled, source, o.epoch).0;
    if |after.callbacks| > |o.shared.callbacks| {
      FinishKeepsSchemas(dropped, after.callbacks[|after.callbacks| - 1].successful, o.epoch);
    }
    assert FanoutEvent(c, o, e).0 == Callback(dropped, o.shared, after, o.epoch);
  }
}
