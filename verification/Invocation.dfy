/** The invocation word of a native execution context and everything that may own its completion:
    a guard inside one call, a plan stream, a fan-out of a plan stream, or a region's completion
    object. Calls arrive one at a time, as from Flink's mailbox; what a call may meet (a lowering
    failure, an execution error, a stream's answer) is part of the call. */
module Invocation {
  import opened Bytes
  import Fanout

  /** 0, 1 and 2 in the source. */
  datatype Word = Idle | Active | RecoveryRequired

  /** A reusable input: the schema it was created with and whether it holds a batch. */
  datatype Slot = Slot(schema: nat, filled: bool)

  datatype Context = Context(
    persistent: bool,
    region: bool,
    word: Word,
    inputs: Option<seq<Slot>>,
    controls: bool,
    retained: bool,
    begun: nat,
    finished: seq<nat>)

  // ---- the invocation word ---------------------------------------------------------------

  function Cleared(inputs: Option<seq<Slot>>): Option<seq<Slot>> {
    match inputs
    case None => None
    case Some(slots) =>
      Some(seq(|slots|, i requires 0 <= i < |slots| => slots[i].(filled := false)))
  }

  predicate Recovers(c: Context) {
    c.persistent || c.region
  }

  /** `finish_invocation`, called by the owner of invocation `epoch`. */
  function Finish(c: Context, successful: bool, epoch: nat): Context {
    c.(controls := false,
       inputs := Cleared(c.inputs),
       word := if !successful && Recovers(c) then RecoveryRequired else Idle,
       finished := c.finished + [epoch])
  }

  /** The compare-and-swap from 0 to 1. */
  function Claimed(c: Context): Context
    requires c.word == Idle
  {
    c.(word := Active, begun := c.begun + 1)
  }

  datatype Guard = Guard(executing: bool, armed: bool, successful: bool)

  /** `Drop for InvocationGuard`. */
  function Released(c: Context, g: Guard, epoch: nat): Context {
    if g.armed then Finish(c, !g.executing || g.successful, epoch) else c
  }

  // ---- preparing inputs ------------------------------------------------------------------

  /** `replace_batch` on the slots from `at` on; a schema change clears every slot. */
  function Replace(slots: seq<Slot>, batches: seq<nat>, at: nat): (r: (seq<Slot>, bool))
    requires |slots| == |batches| && at <= |slots|
    ensures |r.0| == |slots|
    decreases |slots| - at
  {
    if at == |slots| then (slots, true)
    else if slots[at].schema != batches[at] then (Cleared(Some(slots)).value, false)
    else Replace(slots[at := slots[at].(filled := true)], batches, at + 1)
  }

  function NewSlots(batches: seq<nat>): seq<Slot> {
    seq(|batches|, i requires 0 <= i < |batches| => Slot(batches[i], false))
  }

  /** `prepare_execution`: the cached plan is lowered once; `lowers` says whether that works. */
  function Prepare(c: Context, batches: seq<nat>, lowers: bool): (Context, bool) {
    if c.inputs.None? && !lowers then (c, false)
    else
      var slots := if c.inputs.None? then NewSlots(batches) else c.inputs.value;
      if |slots| != |batches| then (c.(inputs := Some(slots)), false)
      else
        var (replaced, ok) := Replace(slots, batches, 0);
        (c.(inputs := Some(replaced)), ok)
  }

  /** `prepare_plan`: a region is refused before any slot is touched. */
  function PreparePlan(c: Context, batches: seq<nat>, lowers: bool): (Context, bool) {
    if c.region then (c, false) else Prepare(c, batches, lowers)
  }

  // ---- the calls -------------------------------------------------------------------------

  const SETUP := Guard(false, true, false)

  /** `execute_plan`. */
  function ExecutePlan(c: Context, batches: seq<nat>, lowers: bool, succeeds: bool): Context {
    if c.word != Idle then c
    else
      var (p, ok) := PreparePlan(Claimed(c), batches, lowers);
      if !ok then Released(p, SETUP, c.begun)
      else Released(p.(retained := false), Guard(true, true, succeeds), c.begun)
  }

  /** `state_control`: `bound` is whether the node has a persistent binding. */
  function StateControl(c: Context, mutating: bool, bound: bool, succeeds: bool): Context {
    if c.word != Idle then c
    else if !bound || !c.persistent then Released(Claimed(c), SETUP, c.begun)
    else Released(Claimed(c), Guard(mutating, true, succeeds), c.begun)
  }

  /** `restore_state_reader`: `prepared` covers the binding, the state resources and reading
      and validating the canonical input. */
  function RestoreStateReader(c: Context, prepared: bool, succeeds: bool): Context {
    if c.word != Idle then c
    else if !prepared || !c.persistent then Released(Claimed(c), SETUP, c.begun)
    else Released(Claimed(c), Guard(true, true, succeeds), c.begun)
  }

  /** The controls installed by a control invocation, `None` for a data invocation. */
  function Install(c: Context, events: Option<bool>): (Context, bool) {
    match events
    case None => (c, true)
    case Some(valid) => if valid && !c.controls then (c.(controls := true), true) else (c, false)
  }

  /** A native plan stream: `live` is whether it still holds an execution stream. */
  datatype Stream = Stream(live: bool, reusable: bool, owns: bool, polled: bool)

  /** `start_invocation`: `reusable` is the verdict of `can_retain_stream`, which only a
      stateless tree can pass; `executes` is whether building a fresh stream works. */
  function StartInvocation(c: Context, batches: seq<nat>, events: Option<bool>, lowers: bool,
                           reusable: bool, executes: bool): (Context, Option<Stream>) {
    if c.word != Idle then (c, None)
    else
      var (installed, valid) := Install(Claimed(c), events);
      if !valid then (Released(installed, SETUP, c.begun), None)
      else
        var (p, ok) := PreparePlan(installed, batches, lowers);
        if !ok then (Released(p, SETUP, c.begun), None)
        else
          var keep := reusable && !Recovers(c);
          var taken := p.(retained := false);
          if (p.retained && keep) || executes
          then (taken, Some(Stream(true, keep, true, false)))
          else (Released(taken, Guard(true, true, false), c.begun), None)
  }

  /** `start_region_invocation`: the guard hands over before the region starts; a failed start
      drops the completion object. */
  function StartRegion(c: Context, batches: seq<nat>, events: Option<bool>, lowers: bool, starts: bool): (Context, bool) {
    if !c.region || c.word != Idle then (c, false)
    else
      var (installed, valid) := Install(Claimed(c), events);
      if !valid then (Released(installed, SETUP, c.begun), false)
      else
        var (p, ok) := Prepare(installed, batches, lowers);
        if !ok then (Released(p, SETUP, c.begun), false)
        else if starts then (p, true)
        else (Finish(p, false, c.begun), false)
  }

  // ---- streams ---------------------------------------------------------------------------

  function FinishStream(c: Context, s: Stream, successful: bool, epoch: nat): Context {
    if s.owns then Finish(c, successful, epoch) else c
  }

  /** `NativePlanStream::poll_next` over the execution stream's answer. */
  function PollStream(c: Context, s: Stream, answer: Fanout.SourcePoll<nat>, epoch: nat)
    : (Context, Stream, Fanout.SourcePoll<nat>)
  {
    var p := s.(polled := true);
    if !s.live then (c, p, Fanout.SourceEnd)
    else match answer
      case SourceEnd => (FinishStream(c, s, true, epoch), p.(live := false), Fanout.SourceEnd)
      case SourceError => (FinishStream(c, s, false, epoch), p.(live := false), Fanout.SourceError)
      case SourcePending =>
        if s.reusable
        then (FinishStream(c.(retained := true), s, true, epoch), p.(live := false), Fanout.SourceEnd)
        else (c, p, Fanout.SourcePending)
      case SourceItem(b) => (c, p, Fanout.SourceItem(b))
  }

  /** `Drop for NativePlanStream`. */
  function DropStream(c: Context, s: Stream, epoch: nat): (Context, Stream) {
    if s.live then (FinishStream(c, s, false, epoch), s.(live := false)) else (c, s)
  }

  // ---- owners of a completion ------------------------------------------------------------

  datatype Owner =
    | OwnedStream(stream: Stream, epoch: nat)
    | OwnedFanout(shared: Fanout.State<nat>, source: Stream, epoch: nat)
    | OwnedRegion(finished: bool, epoch: nat)

  datatype World = World(context: Context, owners: seq<Owner>)

  datatype Action =
    | DoExecute(batches: seq<nat>, lowers: bool, succeeds: bool)
    | DoStart(batches: seq<nat>, events: Option<bool>, lowers: bool, reusable: bool, executes: bool)
    | DoStartRegion(batches: seq<nat>, events: Option<bool>, lowers: bool, starts: bool)
    | DoStateControl(mutating: bool, bound: bool, succeeds: bool)
    | DoRestore(prepared: bool, succeeds: bool)
    | DoPoll(owner: nat, answer: Fanout.SourcePoll<nat>)
    | DoFanOut(owner: nat, consumers: nat)
    | DoFanoutEvent(owner: nat, event: Fanout.Event<nat>)
    | DoRegionCallback(owner: nat, success: bool)
    | DoDrop(owner: nat)

  function Start(persistent: bool, region: bool): World {
    World(Context(persistent, region, Idle, None, false, false, 0, []), [])
  }

  function Put(w: World, c: Context, k: nat, o: Owner): World
    requires k < |w.owners|
  {
    World(c, w.owners[k := o])
  }

  /** The fan-out's completion callback, if this event ran it. */
  function Callback(c: Context, before: Fanout.State<nat>, after: Fanout.State<nat>, epoch: nat): Context {
    if |after.callbacks| > |before.callbacks|
    then Finish(c, after.callbacks[|after.callbacks| - 1].successful, epoch)
    else c
  }

  /** One reader event of a fan-out. A poll that reaches the source polls the plan stream; a
      failure drops it; either may end in the completion callback. */
  function FanoutEvent(c: Context, o: Owner, e: Fanout.Event<nat>): (Context, Owner)
    requires o.OwnedFanout? && Fanout.Shaped(o.shared)
  {
    if e.Poll? && e.reader < |o.shared.readers| && !o.shared.readers[e.reader].dropped
       && Fanout.ReachesSource(o.shared, e.reader) then
      var (polled, source, answer) := PollStream(c, o.source, e.answer, o.epoch);
      var after := Fanout.Step(o.shared, Fanout.Poll(e.reader, e.waker, answer));
      var (dropped, last) := if after.source then (polled, source) else DropStream(polled, source, o.epoch);
      (Callback(dropped, o.shared, after, o.epoch), OwnedFanout(after, last, o.epoch))
    else
      var after := Fanout.Step(o.shared, e);
      var (dropped, last) := if after.source then (c, o.source) else DropStream(c, o.source, o.epoch);
      (Callback(dropped, o.shared, after, o.epoch), OwnedFanout(after, last, o.epoch))
  }

  /** `Completion::finish`, reached through the callback or through a drop. */
  function FinishRegion(c: Context, o: Owner, success: bool): (Context, Owner)
    requires o.OwnedRegion?
  {
    if o.finished then (c, o) else (Finish(c, success, o.epoch), OwnedRegion(true, o.epoch))
  }

  function DropOwner(c: Context, o: Owner): (Context, Owner) {
    match o
    case OwnedStream(s, epoch) =>
      var (d, last) := DropStream(c, s, epoch);
      (d, OwnedStream(last, epoch))
    case OwnedRegion(_, _) => FinishRegion(c, o, false)
    case OwnedFanout(_, _, _) => (c, o) // readers are dropped one at a time
  }

  /** `fan_out` consumes the stream: a refusal drops it. */
  function FanOut(c: Context, o: Owner, consumers: nat): (Context, Owner)
    requires o.OwnedStream?
  {
    if o.stream.polled || !o.stream.live || consumers == 0 then DropOwner(c, o)
    else (c, OwnedFanout(Fanout.Init(consumers), o.stream.(owns := false), o.epoch))
  }

  function Act(w: World, a: Action): World {
    var c := w.context;
    match a
    case DoExecute(batches, lowers, succeeds) => w.(context := ExecutePlan(c, batches, lowers, succeeds))
    case DoStart(batches, events, lowers, reusable, executes) =>
      var (d, s) := StartInvocation(c, batches, events, lowers, reusable, executes);
      if s.None? then w.(context := d) else World(d, w.owners + [OwnedStream(s.value, c.begun)])
    case DoStartRegion(batches, events, lowers, starts) =>
      var (d, started) := StartRegion(c, batches, events, lowers, starts);
      if !started then w.(context := d) else World(d, w.owners + [OwnedRegion(false, c.begun)])
    case DoStateControl(mutating, bound, succeeds) => w.(context := StateControl(c, mutating, bound, succeeds))
    case DoRestore(prepared, succeeds) => w.(context := RestoreStateReader(c, prepared, succeeds))
    case DoPoll(k, answer) =>
      if k < |w.owners| && w.owners[k].OwnedStream? then
        var (d, s, _) := PollStream(c, w.owners[k].stream, answer, w.owners[k].epoch);
        Put(w, d, k, w.owners[k].(stream := s))
      else w
    case DoFanOut(k, consumers) =>
      if k < |w.owners| && w.owners[k].OwnedStream? then
        var (d, o) := FanOut(c, w.owners[k], consumers);
        Put(w, d, k, o)
      else w
    case DoFanoutEvent(k, e) =>
      if k < |w.owners| && w.owners[k].OwnedFanout? && Fanout.Shaped(w.owners[k].shared) then
        var (d, o) := FanoutEvent(c, w.owners[k], e);
        Put(w, d, k, o)
      else w
    case DoRegionCallback(k, success) =>
      if k < |w.owners| && w.owners[k].OwnedRegion? then
        var (d, o) := FinishRegion(c, w.owners[k], success);
        Put(w, d, k, o)
      else w
    case DoDrop(k) =>
      if k < |w.owners| then
        var (d, o) := DropOwner(c, w.owners[k]);
        Put(w, d, k, o)
      else w
  }

  function Run(w: World, actions: seq<Action>): World {
    if actions == [] then w else Act(Run(w, actions[..|actions| - 1]), actions[|actions| - 1])
  }

  // ---- the invariant ---------------------------------------------------------------------

  /** This owner will still finish its invocation. */
  predicate Unfinished(o: Owner) {
    match o
    case OwnedStream(s, _) => s.live
    case OwnedFanout(shared, _, _) => shared.completion
    case OwnedRegion(finished, _) => !finished
  }

  ghost predicate OwnerInv(c: Context, o: Owner) {
    match o
    case OwnedStream(s, _) => s.owns && (s.reusable ==> !Recovers(c))
    case OwnedFanout(shared, source, _) =>
      Fanout.Inv(shared) && !source.owns && source.live == shared.source && (source.reusable ==> !Recovers(c))
    case OwnedRegion(_, _) => c.region
  }

  ghost predicate Clean(c: Context) {
    !c.controls && (c.inputs.Some? ==> forall i :: 0 <= i < |c.inputs.value| ==> !c.inputs.value[i].filled)
  }

  /** Invocations `0 .. n` have finished, each once and in order. */
  predicate FinishedInOrder(c: Context, n: nat) {
    |c.finished| == n && forall i :: 0 <= i < n ==> c.finished[i] == i
  }

  ghost predicate ContextInv(c: Context) {
    && (c.word == Active ==> c.begun > 0)
    && FinishedInOrder(c, if c.word == Active then c.begun - 1 else c.begun)
    && (c.word != Active ==> Clean(c))
    && (c.word == RecoveryRequired ==> Recovers(c))
    && (c.retained ==> !Recovers(c))
  }

  ghost predicate Inv(w: World) {
    && ContextInv(w.context)
    && (forall k :: 0 <= k < |w.owners| ==> OwnerInv(w.context, w.owners[k]))
    && (forall k :: 0 <= k < |w.owners| && Unfinished(w.owners[k]) ==>
          w.context.word == Active && w.owners[k].epoch == w.context.begun - 1)
    && (forall j, k :: 0 <= j < k < |w.owners| ==> !(Unfinished(w.owners[j]) && Unfinished(w.owners[k])))
    && (w.context.word == Active ==> exists k :: 0 <= k < |w.owners| && Unfinished(w.owners[k]))
  }

  // ---- every action keeps the invariant --------------------------------------------------

  lemma FinishClean(c: Context, successful: bool, epoch: nat)
    ensures Clean(Finish(c, successful, epoch))
  {
  }

  /** A context that differs from `c` only in what an invocation may touch while it runs. */
  ghost predicate Working(c: Context, d: Context) {
    d == c.(inputs := d.inputs, controls := d.controls, retained := d.retained)
    && (d.retained ==> !Recovers(d))
  }

  /** A call that claims the word and finishes before it returns. */
  lemma CallInv(w: World, d: Context, successful: bool)
    requires Inv(w) && w.context.word == Idle && Working(Claimed(w.context), d)
    ensures Inv(w.(context := Finish(d, successful, w.context.begun)))
  {
    FinishClean(d, successful, w.context.begun);
  }

  /** A call that claims the word and returns an owner for the invocation. */
  lemma OwnerStartsInv(w: World, d: Context, o: Owner)
    requires Inv(w) && w.context.word == Idle && Working(Claimed(w.context), d)
    requires OwnerInv(d, o) && Unfinished(o) && o.epoch == w.context.begun
    ensures Inv(World(d, w.owners + [o]))
  {
    var v := World(d, w.owners + [o]);
    assert Unfinished(v.owners[|w.owners|]);
  }

  /** An owner finishes its invocation. */
  lemma OwnerFinishesInv(w: World, d: Context, k: nat, o: Owner, successful: bool)
    requires Inv(w) && k < |w.owners| && Unfinished(w.owners[k]) && Working(w.context, d)
    requires OwnerInv(d, o) && !Unfinished(o)
    ensures Inv(Put(w, Finish(d, successful, w.owners[k].epoch), k, o))
  {
    FinishClean(d, successful, w.owners[k].epoch);
  }

  /** An owner moves on without finishing. */
  lemma OwnerKeepsInv(w: World, d: Context, k: nat, o: Owner)
    requires Inv(w) && k < |w.owners|
    requires d == w.context || (Working(w.context, d) && w.context.word == Active)
    requires OwnerInv(d, o) && Unfinished(o) == Unfinished(w.owners[k]) && o.epoch == w.owners[k].epoch
    ensures Inv(Put(w, d, k, o))
  {
    var v := Put(w, d, k, o);
    if d.word == Active {
      var j :| 0 <= j < |w.owners| && Unfinished(w.owners[j]);
      assert Unfinished(v.owners[j]);
    }
  }

  lemma PrepareWorks(c: Context, d: Context, batches: seq<nat>, lowers: bool)
    requires Working(c, d)
    ensures Working(c, Prepare(d, batches, lowers).0)
    ensures Working(c, PreparePlan(d, batches, lowers).0)
  {
    hide Replace;
  }

  lemma StartCallInv(w: World, batches: seq<nat>, events: Option<bool>, lowers: bool, reusable: bool, executes: bool)
    requires Inv(w)
    ensures Inv(Act(w, DoStart(batches, events, lowers, reusable, executes)))
  {
    hide Inv, Replace, Finish;
    if w.context.word == Idle {
      var c := Claimed(w.context);
      assert w.context.retained ==> !Recovers(w.context) by { ContextFacts(w); }
      var (installed, valid) := Install(c, events);
      if !valid {
        CallInv(w, installed, true);
      } else {
        PrepareWorks(c, installed, batches, lowers);
        var (p, ok) := PreparePlan(installed, batches, lowers);
        if !ok {
          CallInv(w, p, true);
        } else {
          var keep := reusable && !Recovers(w.context);
          var taken := p.(retained := false);
          if (p.retained && keep) || executes {
            OwnerStartsInv(w, taken, OwnedStream(Stream(true, keep, true, false), w.context.begun));
          } else {
            CallInv(w, taken, false);
          }
        }
      }
    }
  }

  lemma StartRegionCallInv(w: World, batches: seq<nat>, events: Option<bool>, lowers: bool, starts: bool)
    requires Inv(w)
    ensures Inv(Act(w, DoStartRegion(batches, events, lowers, starts)))
  {
    hide Inv, Replace, Finish;
    if w.context.word == Idle && w.context.region {
      var c := Claimed(w.context);
      assert w.context.retained ==> !Recovers(w.context) by { ContextFacts(w); }
      var (installed, valid) := Install(c, events);
      if !valid {
        CallInv(w, installed, true);
      } else {
        PrepareWorks(c, installed, batches, lowers);
        var (p, ok) := Prepare(installed, batches, lowers);
        if !ok {
          CallInv(w, p, true);
        } else if starts {
          OwnerStartsInv(w, p, OwnedRegion(false, w.context.begun));
        } else {
          CallInv(w, p, false);
        }
      }
    }
  }

  lemma ContextFacts(w: World)
    requires Inv(w)
    ensures w.context.retained ==> !Recovers(w.context)
  {
  }

  lemma OneCallInv(w: World, a: Action)
    requires Inv(w) && (a.DoExecute? || a.DoStateControl? || a.DoRestore?)
    ensures Inv(Act(w, a))
  {
    hide Inv, Replace, Finish;
    if w.context.word == Idle {
      var c := Claimed(w.context);
      ContextFacts(w);
      CallInv(w, c, true);
      CallInv(w, c, false);
      if a.DoExecute? {
        PrepareWorks(c, c, a.batches, a.lowers);
        var (p, ok) := PreparePlan(c, a.batches, a.lowers);
        CallInv(w, p, true);
        CallInv(w, p.(retained := false), a.succeeds);
      }
    }
  }

  lemma PollCallInv(w: World, k: nat, answer: Fanout.SourcePoll<nat>)
    requires Inv(w)
    ensures Inv(Act(w, DoPoll(k, answer)))
  {
    hide Inv, Finish;
    if k < |w.owners| && w.owners[k].OwnedStream? {
      OwnerFacts(w, k);
      var o := w.owners[k];
      var (d, s, _) := PollStream(w.context, o.stream, answer, o.epoch);
      var after := o.(stream := s);
      if o.stream.live && !s.live {
        var kept := if answer.SourcePending? then w.context.(retained := true) else w.context;
        OwnerFinishesInv(w, kept, k, after, !answer.SourceError?);
      } else {
        OwnerKeepsInv(w, w.context, k, after);
      }
    }
  }

  lemma OwnerFacts(w: World, k: nat)
    requires Inv(w) && k < |w.owners|
    ensures OwnerInv(w.context, w.owners[k])
    ensures w.context.retained ==> !Recovers(w.context)
    ensures Unfinished(w.owners[k]) ==> w.context.word == Active && w.owners[k].epoch == w.context.begun - 1
  {
  }

  lemma DropCallInv(w: World, k: nat)
    requires Inv(w) && k < |w.owners|
    ensures var (d, o) := DropOwner(w.context, w.owners[k]); Inv(Put(w, d, k, o))
  {
    hide Inv, Finish;
    OwnerFacts(w, k);
    var (d, o) := DropOwner(w.context, w.owners[k]);
    if Unfinished(w.owners[k]) && !w.owners[k].OwnedFanout? {
      OwnerFinishesInv(w, w.context, k, o, false);
    } else {
      OwnerKeepsInv(w, w.context, k, o);
    }
  }

  lemma FanOutCallInv(w: World, k: nat, consumers: nat)
    requires Inv(w) && k < |w.owners| && w.owners[k].OwnedStream?
    ensures var (d, o) := FanOut(w.context, w.owners[k], consumers); Inv(Put(w, d, k, o))
  {
    hide Inv, DropOwner, Fanout.Inv;
    OwnerFacts(w, k);
    var o := w.owners[k];
    if o.stream.polled || !o.stream.live || consumers == 0 {
      DropCallInv(w, k);
    } else {
      Fanout.InitInv<nat>(consumers);
      OwnerKeepsInv(w, w.context, k, OwnedFanout(Fanout.Init(consumers), o.stream.(owns := false), o.epoch));
    }
  }

  lemma RegionCallInv(w: World, k: nat, success: bool)
    requires Inv(w) && k < |w.owners| && w.owners[k].OwnedRegion?
    ensures var (d, o) := FinishRegion(w.context, w.owners[k], success); Inv(Put(w, d, k, o))
  {
    hide Inv, Finish;
    OwnerFacts(w, k);
    var (d, o) := FinishRegion(w.context, w.owners[k], success);
    if w.owners[k].finished {
      OwnerKeepsInv(w, w.context, k, o);
    } else {
      OwnerFinishesInv(w, w.context, k, o, success);
    }
  }

  /** What one fan-out event does to its owner: the callback runs exactly when the owner stops
      being unfinished, and the context otherwise changes only by retaining the stream. */
  lemma FanoutEventEffect(c: Context, o: Owner, e: Fanout.Event<nat>) returns (kept: Context)
    requires o.OwnedFanout? && OwnerInv(c, o) && Fanout.Shaped(o.shared)
    ensures var (d, after) := FanoutEvent(c, o, e);
      && after.OwnedFanout? && after.epoch == o.epoch && OwnerInv(c, after)
      && (Unfinished(after) ==> Unfinished(o))
      && (kept == c || (kept == c.(retained := true) && !Recovers(c) && Unfinished(o)))
      && d == if Unfinished(o) && !Unfinished(after)
              then Finish(kept, Fanout.Called(after.shared, true), o.epoch) else kept
  {
    hide Fanout.Step, Fanout.Inv, Finish;
    if e.Poll? && e.reader < |o.shared.readers| && !o.shared.readers[e.reader].dropped
       && Fanout.ReachesSource(o.shared, e.reader) {
      var (polled, source, answer) := PollStream(c, o.source, e.answer, o.epoch);
      kept := polled;
      var f := Fanout.Poll(e.reader, e.waker, answer);
      Fanout.StepInv(o.shared, f);
      Fanout.StepKeeps(o.shared, f);
      CallbackFacts(o.shared, f);
      OpenWhileSourced(o.shared);
    } else {
      kept := c;
      Fanout.StepInv(o.shared, e);
      Fanout.StepKeeps(o.shared, e);
      CallbackFacts(o.shared, e);
    }
  }

  lemma OpenWhileSourced(s: Fanout.State<nat>)
    requires Fanout.Inv(s) && s.source
    ensures s.completion
  {
    Fanout.UnendedZero(s.readers);
  }

  lemma CallbackFacts(s: Fanout.State<nat>, e: Fanout.Event<nat>)
    requires Fanout.Inv(s) && Fanout.Inv(Fanout.Step(s, e))
    requires |s.callbacks| <= |Fanout.Step(s, e).callbacks|
    ensures var t := Fanout.Step(s, e);
      && (t.completion ==> s.completion)
      && (|t.callbacks| > |s.callbacks| <==> s.completion && !t.completion)
      && (s.completion && !t.completion ==> |t.callbacks| == 1 && t.callbacks[0].successful == Fanout.Called(t, true))
  {
    hide Fanout.Step;
  }

  lemma FanoutCallInv(w: World, k: nat, e: Fanout.Event<nat>)
    requires Inv(w) && k < |w.owners| && w.owners[k].OwnedFanout? && Fanout.Shaped(w.owners[k].shared)
    ensures var (d, o) := FanoutEvent(w.context, w.owners[k], e); Inv(Put(w, d, k, o))
  {
    hide Inv, Finish, FanoutEvent, OwnerInv;
    OwnerFacts(w, k);
    var c := w.context;
    var o := w.owners[k];
    var kept := FanoutEventEffect(c, o, e);
    var (d, after) := FanoutEvent(c, o, e);
    assert OwnerInv(kept, after) by { SameOwnerInv(c, kept, after); }
    if Unfinished(o) && !Unfinished(after) {
      OwnerFinishesInv(w, kept, k, after, Fanout.Called(after.shared, true));
    } else {
      OwnerKeepsInv(w, kept, k, after);
    }
  }

  lemma SameOwnerInv(c: Context, d: Context, o: Owner)
    requires OwnerInv(c, o) && c.persistent == d.persistent && c.region == d.region
    ensures OwnerInv(d, o)
  {
  }

  lemma ActInv(w: World, a: Action)
    requires Inv(w)
    ensures Inv(Act(w, a))
  {
    hide Inv, FanoutEvent, FanOut, FinishRegion, DropOwner, Fanout.Shaped;
    match a
    case DoExecute(_, _, _) => OneCallInv(w, a);
    case DoStateControl(_, _, _) => OneCallInv(w, a);
    case DoRestore(_, _) => OneCallInv(w, a);
    case DoStart(batches, events, lowers, reusable, executes) =>
      StartCallInv(w, batches, events, lowers, reusable, executes);
    case DoStartRegion(batches, events, lowers, starts) => StartRegionCallInv(w, batches, events, lowers, starts);
    case DoPoll(k, answer) => PollCallInv(w, k, answer);
    case DoFanOut(k, consumers) =>
      if k < |w.owners| && w.owners[k].OwnedStream? {
        FanOutCallInv(w, k, consumers);
      }
    case DoFanoutEvent(k, e) =>
      if k < |w.owners| && w.owners[k].OwnedFanout? && Fanout.Shaped(w.owners[k].shared) {
        FanoutCallInv(w, k, e);
      }
    case DoRegionCallback(k, success) =>
      if k < |w.owners| && w.owners[k].OwnedRegion? {
        RegionCallInv(w, k, success);
      }
    case DoDrop(k) =>
      if k < |w.owners| {
        DropCallInv(w, k);
      }
  }

  lemma {:induction false} RunInv(w: World, actions: seq<Action>)
    requires Inv(w)
    ensures Inv(Run(w, actions))
    decreases |actions|
  {
    hide Inv, Act;
    if actions == [] {
    } else {
      RunInv(w, actions[..|actions| - 1]);
      ActInv(Run(w, actions[..|actions| - 1]), actions[|actions| - 1]);
    }
  }

  // ---- what holds in every run -----------------------------------------------------------

  lemma StartInv(persistent: bool, region: bool)
    ensures Inv(Start(persistent, region))
  {
  }

  /** A world some run reaches. */
  ghost predicate Reachable(w: World) {
    exists persistent, region, actions :: w == Run(Start(persistent, region), actions)
  }

  lemma ReachableInv(w: World)
    requires Reachable(w)
    ensures Inv(w)
  {
    hide Run, Inv;
    var persistent, region, actions :| w == Run(Start(persistent, region), actions);
    StartInv(persistent, region);
    RunInv(Start(persistent, region), actions);
  }

  /** Every invocation that began has been finished exactly once and in the order they began,
      except the current one while the word says it is active. */
  lemma EveryInvocationFinishesOnce(w: World)
    requires Reachable(w)
    ensures var c := w.context;
      && (c.word == Active ==> c.begun > 0)
      && FinishedInOrder(c, if c.word == Active then c.begun - 1 else c.begun)
  {
    ReachableInv(w);
  }

  /** While the word is active exactly one owner will finish, and it belongs to the latest
      invocation; otherwise none is left. */
  lemma OneOwnerPerInvocation(w: World)
    requires Reachable(w)
    ensures w.context.word == Active <==> exists k :: 0 <= k < |w.owners| && Unfinished(w.owners[k])
    ensures forall j, k :: 0 <= j < k < |w.owners| ==> !(Unfinished(w.owners[j]) && Unfinished(w.owners[k]))
    ensures forall k :: 0 <= k < |w.owners| && Unfinished(w.owners[k]) ==>
              w.owners[k].epoch == w.context.begun - 1
  {
    ReachableInv(w);
  }

  predicate Touches(a: Action, k: nat) {
    match a
    case DoPoll(j, _) => j == k
    case DoFanOut(j, _) => j == k
    case DoFanoutEvent(j, _) => j == k
    case DoRegionCallback(j, _) => j == k
    case DoDrop(j) => j == k
    case _ => false
  }

  /** An owner that has finished its invocation can be polled, fanned out, called back or
      dropped later without any effect on the context. */
  lemma FinishedOwnersAreInert(w: World, k: nat, a: Action)
    requires Reachable(w) && k < |w.owners| && !Unfinished(w.owners[k]) && Touches(a, k)
    ensures Act(w, a).context == w.context
  {
    hide Run, Inv, Finish, FanoutEvent;
    ReachableInv(w);
    OwnerFacts(w, k);
    if a.DoFanoutEvent? && w.owners[k].OwnedFanout? && Fanout.Shaped(w.owners[k].shared) {
      var kept := FanoutEventEffect(w.context, w.owners[k], a.event);
    }
  }

  lemma FanoutEventBegun(c: Context, o: Owner, e: Fanout.Event<nat>)
    requires o.OwnedFanout? && Fanout.Shaped(o.shared)
    ensures FanoutEvent(c, o, e).0.begun == c.begun
  {
    hide Fanout.Step, Finish, PollStream, DropStream;
    forall d, s, answer ensures PollStream(d, s, answer, o.epoch).0.begun == d.begun {
      PollStreamBegun(d, s, answer, o.epoch);
    }
    forall d, s ensures DropStream(d, s, o.epoch).0.begun == d.begun {
      DropStreamBegun(d, s, o.epoch);
    }
    forall d, ok ensures Finish(d, ok, o.epoch).begun == d.begun {
      FinishBegun(d, ok, o.epoch);
    }
  }

  lemma FinishBegun(c: Context, successful: bool, epoch: nat)
    ensures Finish(c, successful, epoch).begun == c.begun
  {
  }

  lemma PollStreamBegun(c: Context, s: Stream, answer: Fanout.SourcePoll<nat>, epoch: nat)
    ensures PollStream(c, s, answer, epoch).0.begun == c.begun
  {
  }

  lemma DropStreamBegun(c: Context, s: Stream, epoch: nat)
    ensures DropStream(c, s, epoch).0.begun == c.begun
  {
  }

  /** While an invocation is active, and once recovery is required, nothing begins. */
  lemma OnlyIdleBegins(w: World, a: Action)
    requires w.context.word != Idle
    ensures Act(w, a).context.begun == w.context.begun
  {
    hide FanoutEvent, Cleared, Fanout.Shaped;
    if a.DoFanoutEvent? && a.owner < |w.owners| && w.owners[a.owner].OwnedFanout?
       && Fanout.Shaped(w.owners[a.owner].shared) {
      FanoutEventBegun(w.context, w.owners[a.owner], a.event);
    }
  }

  /** Recovery-required is final: no action changes anything in the context again. */
  lemma {:induction false} RecoveryIsAbsorbing(w: World, actions: seq<Action>)
    requires Reachable(w) && w.context.word == RecoveryRequired
    ensures Run(w, actions).context == w.context && Inv(Run(w, actions))
    decreases |actions|
  {
    hide Inv, Act;
    ReachableInv(w);
    if actions == [] {
    } else {
      var n := |actions| - 1;
      RecoveryIsAbsorbing(w, actions[..n]);
      RecoveryStays(Run(w, actions[..n]), actions[n]);
      ActInv(Run(w, actions[..n]), actions[n]);
    }
  }

  lemma RecoveryStays(w: World, a: Action)
    requires Inv(w) && w.context.word == RecoveryRequired
    ensures Act(w, a).context == w.context
  {
    hide Finish, Replace, FanoutEvent, Fanout.Inv;
    if a.DoFanoutEvent? && a.owner < |w.owners| && w.owners[a.owner].OwnedFanout?
       && Fanout.Shaped(w.owners[a.owner].shared) {
      var kept := FanoutEventEffect(w.context, w.owners[a.owner], a.event);
    } else if (a.DoPoll? || a.DoFanOut? || a.DoRegionCallback? || a.DoDrop?) && a.owner < |w.owners| {
      assert !Unfinished(w.owners[a.owner]);
    }
  }

  /** A tree without persistent state never requires recovery, and whenever no invocation is
      active every input slot and the control request are empty. */
  lemma StatelessNeverRecovers(w: World)
    requires Reachable(w)
    ensures w.context.word == RecoveryRequired ==> Recovers(w.context)
    ensures w.context.word != Active ==> Clean(w.context)
  {
    ReachableInv(w);
  }

  /** How an active invocation ends. A stream error, a dropped stream, a region failure or a
      refused fan-out requires recovery exactly for persistent or region plans. */
  lemma FailureRequiresRecovery(w: World, k: nat, a: Action)
    requires Reachable(w) && k < |w.owners| && Unfinished(w.owners[k]) && Touches(a, k)
    requires !w.owners[k].OwnedFanout? && !(w.owners[k].OwnedRegion? && a.DoPoll?)
    requires match a
      case DoPoll(_, answer) => answer.SourceError?
      case DoFanOut(_, consumers) => w.owners[k].OwnedStream? && (w.owners[k].stream.polled || consumers == 0)
      case DoRegionCallback(_, success) => w.owners[k].OwnedRegion? && !success
      case DoDrop(_) => true
      case _ => false
    ensures Act(w, a).context.word == if Recovers(w.context) then RecoveryRequired else Idle
  {
    ReachableInv(w);
  }

  /** The same for a fan-out: its last event decides, with success exactly when every reader
      has observed the end of the stream. */
  lemma FanoutDecides(w: World, k: nat, e: Fanout.Event<nat>)
    requires Reachable(w) && k < |w.owners| && w.owners[k].OwnedFanout? && Unfinished(w.owners[k])
    ensures var v := Act(w, DoFanoutEvent(k, e));
      && v.owners[k].OwnedFanout?
      && v.context.word ==
           if Unfinished(v.owners[k]) then Active
           else if Recovers(w.context)
                   && !(forall i :: 0 <= i < |v.owners[k].shared.readers| ==> v.owners[k].shared.readers[i].sawEof)
                then RecoveryRequired
           else Idle
  {
    hide Run, Fanout.Step, FanoutEvent;
    ReachableInv(w);
    var o := w.owners[k];
    Fanout.PollShape(o.shared);
    var kept := FanoutEventEffect(w.context, o, e);
    var (d, after) := FanoutEvent(w.context, o, e);
    Fanout.UnendedZero(after.shared.readers);
  }

  /** A call that fails while setting up returns to idle; one that fails after execution began
      requires recovery exactly for persistent or region plans. */
  lemma CallsEndPrecisely(c: Context, batches: seq<nat>, events: Option<bool>, lowers: bool, reusable: bool, ok: bool)
    requires c.word == Idle && (c.retained ==> !Recovers(c))
    ensures var ready := PreparePlan(Claimed(c), batches, lowers).1;
      ExecutePlan(c, batches, lowers, ok).word == if ready && !ok && Recovers(c) then RecoveryRequired else Idle
    ensures var (installed, valid) := Install(Claimed(c), events);
      var ready := valid && PreparePlan(installed, batches, lowers).1;
      var runs := ok || (c.retained && reusable && !Recovers(c));
      StartInvocation(c, batches, events, lowers, reusable, ok).0.word ==
        if !ready then Idle else if runs then Active else if Recovers(c) then RecoveryRequired else Idle
    ensures var (installed, valid) := Install(Claimed(c), events);
      var ready := valid && Prepare(installed, batches, lowers).1;
      StartRegion(c, batches, events, lowers, ok).0.word ==
        if !c.region || !ready then Idle else if ok then Active else RecoveryRequired
  {
    hide Replace;
  }

  /** A state call on an idle context ends within itself: in recovery exactly when the plan has
      persistent state, the node is bound, and a mutation failed. */
  lemma StateCallsEndPrecisely(c: Context, mutating: bool, bound: bool, ok: bool)
    requires c.word == Idle
    ensures StateControl(c, mutating, bound, ok).word ==
              if c.persistent && bound && mutating && !ok then RecoveryRequired else Idle
    ensures RestoreStateReader(c, bound, ok).word ==
              if c.persistent && bound && !ok then RecoveryRequired else Idle
  {
  }

  // ---- the code that updates the context -------------------------------------------------

  class NativeExecutionContext {
    const persistent: bool
    const region: bool
    var word: Word
    var inputs: Option<seq<Slot>>
    var controls: bool
    var retained: bool
    ghost var begun: nat
    ghost var finished: seq<nat>

    ghost function Abs(): Context
      reads this
    {
      Context(persistent, region, word, inputs, controls, retained, begun, finished)
    }

    constructor (persistent: bool, region: bool)
      ensures Abs() == Start(persistent, region).context
    {
      this.persistent := persistent;
      this.region := region;
      word := Idle;
      inputs := None;
      controls := false;
      retained := false;
      begun := 0;
      finished := [];
    }

    /** `InvocationGuard::begin`. */
    method Begin() returns (guard: Option<Guard>)
      modifies this
      ensures old(word) == Idle ==> guard == Some(SETUP) && Abs() == Claimed(old(Abs()))
      ensures old(word) != Idle ==> guard == None && Abs() == old(Abs())
    {
      if word != Idle {
        return None;
      }
      word := Active;
      begun := begun + 1;
      return Some(SETUP);
    }

    method FinishInvocation(successful: bool, ghost epoch: nat)
      modifies this
      ensures Abs() == Finish(old(Abs()), successful, epoch)
    {
      controls := false;
      if inputs.Some? {
        var slots := inputs.value;
        for i := 0 to |slots|
          invariant |slots| == |inputs.value|
          invariant forall k :: 0 <= k < i ==> slots[k] == inputs.value[k].(filled := false)
          invariant forall k :: i <= k < |slots| ==> slots[k] == inputs.value[k]
        {
          slots := slots[i := slots[i].(filled := false)];
        }
        assert slots == Cleared(inputs).value;
        inputs := Some(slots);
      }
      word := if !successful && (persistent || region) then RecoveryRequired else Idle;
      finished := finished + [epoch];
    }

    method DropGuard(guard: Guard, ghost epoch: nat)
      modifies this
      ensures Abs() == Released(old(Abs()), guard, epoch)
    {
      if guard.armed {
        FinishInvocation(!guard.executing || guard.successful, epoch);
      }
    }

    method PrepareExecution(batches: seq<nat>, lowers: bool) returns (ok: bool)
      modifies this
      ensures (Abs(), ok) == Prepare(old(Abs()), batches, lowers)
    {
      if inputs.None? {
        if !lowers {
          return false;
        }
        inputs := Some(NewSlots(batches));
      }
      var slots := inputs.value;
      if |slots| != |batches| {
        return false;
      }
      for i := 0 to |slots|
        invariant |slots| == |batches|
        invariant Replace(slots, batches, i) == Replace(inputs.value, batches, 0)
      {
        if slots[i].schema != batches[i] {
          inputs := Cleared(Some(slots));
          return false;
        }
        slots := slots[i := slots[i].(filled := true)];
      }
      inputs := Some(slots);
      return true;
    }

    method PreparePlanFor(batches: seq<nat>, lowers: bool) returns (ok: bool)
      modifies this
      ensures (Abs(), ok) == PreparePlan(old(Abs()), batches, lowers)
    {
      if region {
        return false;
      }
      ok := PrepareExecution(batches, lowers);
    }

    method InstallControls(events: Option<bool>) returns (ok: bool)
      modifies this
      ensures (Abs(), ok) == Install(old(Abs()), events)
    {
      if events.None? {
        return true;
      }
      if !events.value || controls {
        return false;
      }
      controls := true;
      return true;
    }

    /** `execute_plan`; the guard is dropped on every way out. */
    method Execute(batches: seq<nat>, lowers: bool, succeeds: bool)
      modifies this
      ensures Abs() == ExecutePlan(old(Abs()), batches, lowers, succeeds)
    {
      hide Replace;
      ghost var epoch := begun;
      var begin := Begin();
      if begin.None? {
        return;
      }
      var guard := begin.value;
      var ok := PreparePlanFor(batches, lowers);
      if !ok {
        DropGuard(guard, epoch);
        return;
      }
      retained := false;
      guard := guard.(executing := true);
      guard := guard.(successful := succeeds);
      DropGuard(guard, epoch);
    }

    method ControlState(mutating: bool, bound: bool, succeeds: bool)
      modifies this
      ensures Abs() == StateControl(old(Abs()), mutating, bound, succeeds)
    {
      ghost var epoch := begun;
      var begin := Begin();
      if begin.None? {
        return;
      }
      var guard := begin.value;
      if !bound || !persistent {
        DropGuard(guard, epoch);
        return;
      }
      if mutating {
        guard := guard.(executing := true);
      }
      guard := guard.(successful := succeeds);
      DropGuard(guard, epoch);
    }

    method RestoreReader(prepared: bool, succeeds: bool)
      modifies this
      ensures Abs() == RestoreStateReader(old(Abs()), prepared, succeeds)
    {
      ghost var epoch := begun;
      var begin := Begin();
      if begin.None? {
        return;
      }
      var guard := begin.value;
      if !prepared || !persistent {
        DropGuard(guard, epoch);
        return;
      }
      guard := guard.(executing := true);
      guard := guard.(successful := succeeds);
      DropGuard(guard, epoch);
    }

    /** `start_invocation`: on success the guard is disarmed and the stream owns the rest. */
    method StartStream(batches: seq<nat>, events: Option<bool>, lowers: bool, reusable: bool, executes: bool)
      returns (stream: Option<Stream>)
      modifies this
      ensures (Abs(), stream) == StartInvocation(old(Abs()), batches, events, lowers, reusable, executes)
    {
      hide Replace;
      ghost var epoch := begun;
      var begin := Begin();
      if begin.None? {
        return None;
      }
      var guard := begin.value;
      var installed := InstallControls(events);
      if !installed {
        DropGuard(guard, epoch);
        return None;
      }
      var ok := PreparePlanFor(batches, lowers);
      if !ok {
        DropGuard(guard, epoch);
        return None;
      }
      var keep := reusable && !persistent && !region;
      guard := guard.(executing := true);
      var prior := retained;
      retained := false;
      if !(prior && keep) && !executes {
        DropGuard(guard, epoch);
        return None;
      }
      guard := guard.(armed := false);
      DropGuard(guard, epoch);
      return Some(Stream(true, keep, true, false));
    }

    /** `start_region_invocation`: the completion object takes over before the region starts. */
    method StartRegionOutput(batches: seq<nat>, events: Option<bool>, lowers: bool, starts: bool)
      returns (started: bool)
      modifies this
      ensures (Abs(), started) == StartRegion(old(Abs()), batches, events, lowers, starts)
    {
      hide Replace;
      if !region {
        return false;
      }
      ghost var epoch := begun;
      var begin := Begin();
      if begin.None? {
        return false;
      }
      var guard := begin.value;
      var installed := InstallControls(events);
      if !installed {
        DropGuard(guard, epoch);
        return false;
      }
      var ok := PrepareExecution(batches, lowers);
      if !ok {
        DropGuard(guard, epoch);
        return false;
      }
      guard := guard.(armed := false);
      if !starts {
        FinishInvocation(false, epoch);
      }
      DropGuard(guard, epoch);
      return starts;
    }
  }

  class NativePlanStream {
    const context: NativeExecutionContext
    const reusable: bool
    ghost const epoch: nat
    var stream: bool
    var owns: bool
    var polled: bool

    ghost function Abs(): Stream
      reads this
    {
      Stream(stream, reusable, owns, polled)
    }

    constructor (context: NativeExecutionContext, reusable: bool, ghost epoch: nat)
      ensures this.context == context && this.epoch == epoch
      ensures Abs() == Stream(true, reusable, true, false)
    {
      this.context := context;
      this.reusable := reusable;
      this.epoch := epoch;
      stream := true;
      owns := true;
      polled := false;
    }

    method FinishWith(successful: bool)
      modifies context
      ensures context.Abs() == FinishStream(old(context.Abs()), Abs(), successful, epoch)
    {
      if owns {
        context.FinishInvocation(successful, epoch);
      }
    }

    method PollNext(answer: Fanout.SourcePoll<nat>) returns (r: Fanout.SourcePoll<nat>)
      modifies this, context
      ensures (context.Abs(), Abs(), r) == PollStream(old(context.Abs()), old(Abs()), answer, epoch)
    {
      hide Finish;
      polled := true;
      if !stream {
        return Fanout.SourceEnd;
      }
      match answer {
        case SourceEnd =>
          stream := false;
          FinishWith(true);
          return Fanout.SourceEnd;
        case SourceError =>
          stream := false;
          FinishWith(false);
          return Fanout.SourceError;
        case SourcePending =>
          if reusable {
            stream := false;
            context.retained := true;
            FinishWith(true);
            return Fanout.SourceEnd;
          }
          return Fanout.SourcePending;
        case SourceItem(b) =>
          return Fanout.SourceItem(b);
      }
    }

    /** `fan_out`: a refusal drops the stream; otherwise completion passes to the shared stream. */
    method FanOutTo(consumers: nat) returns (shared: Option<Fanout.SharedStream<nat>>)
      modifies this, context
      ensures var (c, o) := FanOut(old(context.Abs()), OwnedStream(old(Abs()), epoch), consumers);
        && context.Abs() == c
        && (shared.None? <==> o.OwnedStream?)
        && (if shared.None? then Abs() == o.stream
            else fresh(shared.value) && shared.value.Abs() == o.shared && Abs() == o.source)
    {
      hide Finish, Fanout.Inv;
      if polled || !stream || consumers == 0 {
        DropIt();
        return None;
      }
      owns := false;
      var split := new Fanout.SharedStream<nat>(consumers);
      return Some(split);
    }

    method DropIt()
      modifies this, context
      ensures (context.Abs(), Abs()) == DropStream(old(context.Abs()), old(Abs()), epoch)
    {
      hide Finish;
      if stream {
        stream := false;
        FinishWith(false);
      }
    }
  }

  // ---- a plan stream behind a fan-out ----------------------------------------------------

  /** A plan stream shared by readers: `split` owns the stream as its source, and its callback
      finishes the invocation. */
  class SharedPlanStream {
    const shared: Fanout.SharedStream<nat>
    const source: NativePlanStream

    ghost function Abs(): Owner
      reads this, shared, source
    {
      OwnedFanout(shared.Abs(), source.Abs(), source.epoch)
    }

    constructor (shared: Fanout.SharedStream<nat>, source: NativePlanStream)
      ensures this.shared == shared && this.source == source
    {
      this.shared := shared;
      this.source := source;
    }

    /** A reader's poll. The plan stream is polled exactly when the poll reaches the source, it is
        dropped when the shared state lets go of it, and the callback finishes the invocation. */
    method PollReader(i: nat, w: Fanout.Waker, answer: Fanout.SourcePoll<nat>)
      returns (r: Fanout.ReaderPoll<nat>)
      requires Fanout.Inv(shared.Abs()) && i < |shared.readers| && !shared.readers[i].dropped
      modifies shared, source, source.context
      ensures Fanout.Inv(shared.Abs())
      ensures (source.context.Abs(), Abs()) == FanoutEvent(old(source.context.Abs()), old(Abs()), Fanout.Poll(i, w, answer))
      ensures var reaches := Fanout.ReachesSource(old(shared.Abs()), i);
        var given := if reaches then PollStream(old(source.context.Abs()), old(source.Abs()), answer, source.epoch).2 else answer;
        r == Fanout.PollNext(old(shared.Abs()), i, w, given).1
    {
      hide Fanout.Inv, Fanout.Step, Fanout.PollNext, PollStream, DropStream, Finish;
      ghost var o := Abs();
      Fanout.PollShape(o.shared);
      var given := answer;
      if !shared.readers[i].finished && shared.failure.None? && shared.batch.None? && !shared.eof {
        given := source.PollNext(answer);
      }
      var completing := shared.completion;
      r := shared.PollAt(i, w, given);
      PolledStep(o.shared, i, w, given);
      Settle(completing, o.shared, Fanout.Poll(i, w, given));
    }

    /** A reader's drop. */
    method DropReader(i: nat)
      requires Fanout.Inv(shared.Abs()) && i < |shared.readers| && !shared.readers[i].dropped
      modifies shared, source, source.context
      ensures Fanout.Inv(shared.Abs())
      ensures (source.context.Abs(), Abs()) == FanoutEvent(old(source.context.Abs()), old(Abs()), Fanout.Drop(i))
    {
      hide Fanout.Inv, Fanout.Step, Fanout.DropReader, DropStream, Finish;
      ghost var o := Abs();
      Fanout.PollShape(o.shared);
      var completing := shared.completion;
      shared.DropAt(i);
      DroppedStep(o.shared, i);
      Fanout.StepInv(o.shared, Fanout.Drop(i));
      Settle(completing, o.shared, Fanout.Drop(i));
    }

    /** What follows a reader event: the stream goes with the source, then the callback runs. */
    method Settle(completing: bool, ghost before: Fanout.State<nat>, ghost e: Fanout.Event<nat>)
      requires Fanout.Inv(before) && Fanout.Shaped(before) && shared.Abs() == Fanout.Step(before, e)
      requires completing == before.completion
      modifies source, source.context
      ensures shared.Abs() == old(shared.Abs())
      ensures var (d, last) := if shared.source then (old(source.context.Abs()), old(source.Abs()))
                               else DropStream(old(source.context.Abs()), old(source.Abs()), source.epoch);
        && source.Abs() == last
        && source.context.Abs() == Callback(d, before, shared.Abs(), source.epoch)
    {
      hide Fanout.Inv, Fanout.Step, DropStream, Finish;
      if !shared.source {
        source.DropIt();
      }
      CallbackIsVisible(before, e);
      if completing && !shared.completion {
        source.context.FinishInvocation(shared.failure.None?, source.epoch);
      }
    }
  }

  lemma PolledStep(s: Fanout.State<nat>, i: nat, w: Fanout.Waker, answer: Fanout.SourcePoll<nat>)
    requires Fanout.Shaped(s) && i < |s.readers| && !s.readers[i].dropped
    ensures Fanout.Step(s, Fanout.Poll(i, w, answer)) == Fanout.PollNext(s, i, w, answer).0
  {
    hide Fanout.PollNext;
  }

  lemma DroppedStep(s: Fanout.State<nat>, i: nat)
    requires Fanout.Shaped(s) && i < |s.readers| && !s.readers[i].dropped
    ensures Fanout.Step(s, Fanout.Drop(i)) == Fanout.DropReader(s, i)
  {
    hide Fanout.DropReader;
  }

  /** Whether an event ran the callback, and with what, can be read off the shared fields. */
  lemma CallbackIsVisible(s: Fanout.State<nat>, e: Fanout.Event<nat>)
    requires Fanout.Inv(s) && Fanout.Shaped(s)
    ensures var t := Fanout.Step(s, e);
      && (|t.callbacks| > |s.callbacks| <==> s.completion && !t.completion)
      && (|t.callbacks| > |s.callbacks| ==> t.callbacks[|t.callbacks| - 1].successful == t.failure.None?)
  {
    hide Fanout.Step;
    Fanout.StepInv(s, e);
    Fanout.StepKeeps(s, e);
    hide Fanout.Delivery, Fanout.Endings, Fanout.Wakeups;
  }
}
