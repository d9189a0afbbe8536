/** The event queue of a region output: every batch of the region's stream becomes one event per
    output its port feeds, pulled one at a time. */
module RegionEvents {
  import opened Bytes

  /** What the region's stream yields; `leased` says whether memory for the batch was granted. */
  datatype Arrival = Arrival(port: nat, schema: nat, batch: nat, leased: bool) | Broken

  /** Where a port leads: the Arrow edge, routers, or both. */
  datatype Port = Port(arrow: bool, frames: seq<nat>)

  datatype Delivery = ToArrow(port: nat, batch: nat) | ToRouter(id: nat, batch: nat)

  datatype Event = End | Exported(port: nat, batch: nat, withSchema: bool) | Routed(id: nat, batch: nat)

  datatype OutputError = Failed

  datatype Queue = Queue(
    stream: Option<seq<Arrival>>, schemas: seq<nat>, emitted: seq<bool>, failed: bool,
    bindings: Option<seq<Port>>, pending: seq<Delivery>)

  // ---- one call --------------------------------------------------------------------------

  /** Known port, unchanged schema, memory granted. */
  predicate Good(q: Queue, a: Arrival) {
    && a.Arrival? && a.port < |q.schemas| && a.schema == q.schemas[a.port] && a.leased
    && (q.bindings.Some? ==> a.port < |q.bindings.value|)
  }

  function Routers(ids: seq<nat>, batch: nat): seq<Delivery> {
    seq(|ids|, i requires 0 <= i < |ids| => ToRouter(ids[i], batch))
  }

  function Deliveries(q: Queue, a: Arrival): seq<Delivery>
    requires Good(q, a)
  {
    if q.bindings.None? then [ToArrow(a.port, a.batch)]
    else
      var port := q.bindings.value[a.port];
      (if port.arrow then [ToArrow(a.port, a.batch)] else []) + Routers(port.frames, a.batch)
  }

  /** Pull until something is pending: true if so, false at the end of the stream. */
  function Refill(q: Queue): (Queue, Result<bool, OutputError>)
    decreases if q.stream.Some? then |q.stream.value| else 0
  {
    if q.pending != [] then (q, Ok(true))
    else if q.stream.None? then (q, Ok(false))
    else if q.stream.value == [] then (q.(stream := None), Ok(false))
    else
      var (a, rest) := (q.stream.value[0], q.(stream := Some(q.stream.value[1..])));
      if !Good(q, a) then (rest, Err(Failed)) else Refill(rest.(pending := Deliveries(q, a)))
  }

  function Pop(q: Queue, exports: bool): (Queue, Result<Event, OutputError>)
    requires q.pending != []
  {
    var rest := q.(pending := q.pending[1..]);
    if !exports then (rest, Err(Failed))
    else match q.pending[0]
      case ToRouter(id, batch) => (rest, Ok(Routed(id, batch)))
      case ToArrow(port, batch) =>
        if port >= |q.emitted| then (rest, Err(Failed))
        else (rest.(emitted := q.emitted[port := true]), Ok(Exported(port, batch, !q.emitted[port])))
  }

  function NextInner(q: Queue, exports: bool): (Queue, Result<Event, OutputError>) {
    if q.failed then (q, Err(Failed))
    else match Refill(q)
      case (r, Err(e)) => (r, Err(e))
      case (r, Ok(more)) => if more && r.pending != [] then Pop(r, exports) else (r, Ok(End))
  }

  /** A call that fails poisons the output and drops its stream. */
  function NextEvent(q: Queue, exports: bool): (Queue, Result<Event, OutputError>) {
    match NextInner(q, exports)
    case (r, Ok(e)) => (r, Ok(e))
    case (r, Err(e)) => (r.(failed := true, pending := [], stream := None), Err(e))
  }

  // ---- what the stream owes --------------------------------------------------------------

  /** Deliveries of the arrivals before the first bad one. */
  function Owed(q: Queue, arrivals: seq<Arrival>): seq<Delivery> {
    if arrivals == [] || !Good(q, arrivals[0]) then []
    else Deliveries(q, arrivals[0]) + Owed(q, arrivals[1..])
  }

  predicate Sound(q: Queue, arrivals: seq<Arrival>) {
    forall i :: 0 <= i < |arrivals| ==> Good(q, arrivals[i])
  }

  function Plan(q: Queue): seq<Delivery> {
    q.pending + (if q.stream.Some? then Owed(q, q.stream.value) else [])
  }

  ghost predicate SoundAhead(q: Queue) {
    q.stream.Some? ==> Sound(q, q.stream.value)
  }

  ghost predicate Valid(q: Queue) {
    && |q.emitted| == |q.schemas|
    && forall i :: 0 <= i < |q.pending| && q.pending[i].ToArrow? ==> q.pending[i].port < |q.schemas|
  }

  predicate SameShape(q: Queue, r: Queue) {
    r.schemas == q.schemas && r.bindings == q.bindings && |r.emitted| == |q.emitted|
  }

  lemma {:induction false} OwedDependsOnShape(q: Queue, r: Queue, arrivals: seq<Arrival>)
    requires SameShape(q, r)
    ensures Owed(q, arrivals) == Owed(r, arrivals) && Sound(q, arrivals) == Sound(r, arrivals)
    decreases |arrivals|
  {
    assert forall i :: 0 <= i < |arrivals| ==> Good(q, arrivals[i]) == Good(r, arrivals[i]);
    if arrivals == [] {
    } else {
      OwedDependsOnShape(q, r, arrivals[1..]);
    }
  }

  /** Refilling only moves deliveries from the stream to the queue, skipping nothing. */
  lemma {:induction false} RefillKeepsPlan(q: Queue)
    requires Valid(q) && !q.failed
    ensures var (r, result) := Refill(q);
      && SameShape(q, r) && r.emitted == q.emitted && Valid(r) && !r.failed
      && (result.Ok? ==> Plan(r) == Plan(q) && (SoundAhead(r) <==> SoundAhead(q)))
      && (result == Ok(true) ==> r.pending != [])
      && (result == Ok(false) ==> r.pending == [] && r.stream.None? && Plan(q) == [] && SoundAhead(q))
      && (result.Err? ==> !SoundAhead(q) && Plan(q) == [])
    decreases if q.stream.Some? then |q.stream.value| else 0
  {
    if q.pending != [] || q.stream.None? || q.stream.value == [] {
    } else {
      var arrivals := q.stream.value;
      var a := arrivals[0];
      var rest := q.(stream := Some(arrivals[1..]));
      OwedDependsOnShape(q, rest, arrivals[1..]);
      SoundSplit(q, arrivals);
      if Good(q, a) {
        var next := rest.(pending := Deliveries(q, a));
        OwedDependsOnShape(q, next, arrivals[1..]);
        DeliveriesInRange(q, a);
        RefillKeepsPlan(next);
        assert Plan(q) == Plan(next);
      }
    }
  }

  lemma SoundSplit(q: Queue, arrivals: seq<Arrival>)
    requires arrivals != []
    ensures Sound(q, arrivals) == (Good(q, arrivals[0]) && Sound(q, arrivals[1..]))
  {
    hide Good;
    if Good(q, arrivals[0]) && Sound(q, arrivals[1..]) {
      forall i | 0 <= i < |arrivals| ensures Good(q, arrivals[i]) {
        if i > 0 {
          assert arrivals[1..][i - 1] == arrivals[i];
        }
      }
    } else if Sound(q, arrivals) {
      forall i | 0 <= i < |arrivals| - 1 ensures Good(q, arrivals[1..][i]) {
        assert arrivals[1..][i] == arrivals[i + 1];
      }
    }
  }

  lemma DeliveriesInRange(q: Queue, a: Arrival)
    requires Good(q, a)
    ensures var ds := Deliveries(q, a);
      forall i :: 0 <= i < |ds| && ds[i].ToArrow? ==> ds[i].port < |q.schemas|
  {
  }

  /** The delivery an event carries out. */
  function Carried(e: Event): seq<Delivery> {
    match e
    case End => []
    case Exported(port, batch, _) => [ToArrow(port, batch)]
    case Routed(id, batch) => [ToRouter(id, batch)]
  }

  lemma PopTakesOne(q: Queue, exports: bool)
    requires Valid(q) && q.pending != []
    ensures var (r, result) := Pop(q, exports);
      && SameShape(q, r) && Valid(r) && r.failed == q.failed && r.stream == q.stream
      && (result.Ok? <==> exports)
      && (result.Ok? ==> !result.value.End? && Plan(q) == Carried(result.value) + Plan(r))
      && (result.Ok? ==> (SoundAhead(r) <==> SoundAhead(q)))
      && (result.Ok? && result.value.Exported? ==>
            && result.value.port < |q.emitted| && result.value.withSchema == !q.emitted[result.value.port]
            && r.emitted == q.emitted[result.value.port := true])
      && (result.Ok? && result.value.Routed? ==> r.emitted == q.emitted)
  {
    hide Owed, Sound, Good;
    var (r, result) := Pop(q, exports);
    if q.stream.Some? {
      OwedDependsOnShape(q, r, q.stream.value);
    }
    assert q.pending == [q.pending[0]] + q.pending[1..];
    ConcatAssoc([q.pending[0]], q.pending[1..], if q.stream.Some? then Owed(q, q.stream.value) else []);
  }

  /** One call of a healthy output: it delivers the next thing owed, or ends when nothing is owed,
      or fails for good. */
  lemma NextEventDelivers(q: Queue, exports: bool)
    requires Valid(q) && !q.failed
    ensures var (r, result) := NextEvent(q, exports);
      && SameShape(q, r) && Valid(r)
      && (result.Err? ==> r.failed && r.pending == [] && r.stream.None?)
      && (result.Ok? ==> !r.failed && Plan(q) == Carried(result.value) + Plan(r) && (SoundAhead(r) <==> SoundAhead(q)))
      && (result == Ok(End) <==> Plan(q) == [] && SoundAhead(q))
      && (result == Ok(End) ==> r.emitted == q.emitted)
      && (exports && Plan(q) != [] ==> result.Ok?)
      && (result.Ok? && result.value.Exported? ==>
            && result.value.port < |q.emitted| && result.value.withSchema == !q.emitted[result.value.port]
            && r.emitted == q.emitted[result.value.port := true])
      && (result.Ok? && result.value.Routed? ==> r.emitted == q.emitted)
  {
    hide Plan, SoundAhead, Pop, Refill;
    RefillKeepsPlan(q);
    var (r, result) := Refill(q);
    if result == Ok(true) {
      PopTakesOne(r, exports);
      PlanHasPending(r);
    } else if result == Ok(false) {
      EmptyPlan(r);
    }
  }

  lemma PlanHasPending(q: Queue)
    requires q.pending != []
    ensures Plan(q) != []
  {
  }

  lemma EmptyPlan(q: Queue)
    requires q.pending == [] && q.stream.None?
    ensures Plan(q) == [] && SoundAhead(q)
  {
  }

  // ---- every sequence of calls -----------------------------------------------------------

  datatype Log = Log(queue: Queue, events: seq<Event>, ended: bool)

  function Step(l: Log, exports: bool): Log {
    match NextEvent(l.queue, exports)
    case (q, Err(_)) => l.(queue := q)
    case (q, Ok(e)) => Log(q, if e.End? then l.events else l.events + [e], l.ended || e.End?)
  }

  function Run(q: Queue, calls: seq<bool>): Log {
    if calls == [] then Log(q, [], false) else Step(Run(q, calls[..|calls| - 1]), calls[|calls| - 1])
  }

  function Delivered(events: seq<Event>): seq<Delivery> {
    if events == [] then [] else Delivered(events[..|events| - 1]) + Carried(events[|events| - 1])
  }

  lemma DeliveredSnoc(events: seq<Event>, e: Event)
    ensures Delivered(events + [e]) == Delivered(events) + Carried(e)
  {
    assert (events + [e])[..|events|] == events;
  }

  ghost predicate Exports(events: seq<Event>, port: nat) {
    exists i :: 0 <= i < |events| && events[i].Exported? && events[i].port == port
  }

  /** The schema goes out with the first batch of its port, and only then. */
  ghost predicate SchemaFirst(events: seq<Event>) {
    forall i :: 0 <= i < |events| && events[i].Exported? ==>
      events[i].withSchema == !Exports(events[..i], events[i].port)
  }

  ghost predicate Inv(l: Log, q: Queue) {
    && SameShape(q, l.queue) && Valid(l.queue)
    && (!l.queue.failed ==> Plan(q) == Delivered(l.events) + Plan(l.queue) && (SoundAhead(l.queue) <==> SoundAhead(q)))
    && (l.queue.failed ==> Delivered(l.events) <= Plan(q) && !l.ended)
    && (l.ended ==> Plan(l.queue) == [] && SoundAhead(l.queue))
  }

  ghost predicate SchemaInv(l: Log) {
    && SchemaFirst(l.events)
    && (forall p :: 0 <= p < |l.queue.emitted| ==> l.queue.emitted[p] == Exports(l.events, p))
    && (forall i :: 0 <= i < |l.events| && l.events[i].Exported? ==> l.events[i].port < |l.queue.emitted|)
  }

  lemma StepKeepsInv(l: Log, q: Queue, exports: bool)
    requires Inv(l, q)
    ensures Inv(Step(l, exports), q)
  {
    hide Plan, SoundAhead, NextInner, Delivered;
    if !l.queue.failed {
      NextEventDelivers(l.queue, exports);
      var (r, result) := NextEvent(l.queue, exports);
      if result.Ok? {
        var e := result.value;
        DeliveredSnoc(l.events, e);
        ConcatAssoc(Delivered(l.events), Carried(e), Plan(r));
        if e.End? {
          assert Carried(e) + Plan(r) == Plan(r);
        }
      }
    } else {
      assert NextInner(l.queue, exports) == (l.queue, Err(Failed)) by { PoisonedFails(l.queue, exports); }
      PoisonedStays(l.queue, exports);
    }
  }

  lemma PoisonedFails(q: Queue, exports: bool)
    requires q.failed
    ensures NextInner(q, exports) == (q, Err(Failed))
  {
  }

  lemma PoisonedStays(q: Queue, exports: bool)
    requires q.failed && Valid(q)
    ensures var (r, result) := NextEvent(q, exports);
      result.Err? && r.failed && SameShape(q, r) && Valid(r) && r.emitted == q.emitted
  {
  }

  lemma StepKeepsSchemas(l: Log, exports: bool)
    requires Valid(l.queue) && SchemaInv(l)
    ensures SchemaInv(Step(l, exports))
  {
    hide Plan, SoundAhead, NextEvent, Delivered, Valid;
    var (r, result) := NextEvent(l.queue, exports);
    if l.queue.failed {
      PoisonedStays(l.queue, exports);
    } else {
      NextEventDelivers(l.queue, exports);
      if result.Err? {
        ErrorKeepsFlags(l.queue, exports);
      } else if !result.value.End? {
        SnocSchemas(l.events, result.value, l.queue.emitted, r.emitted);
      }
    }
  }

  lemma ErrorKeepsFlags(q: Queue, exports: bool)
    requires Valid(q) && !q.failed && NextEvent(q, exports).1.Err?
    ensures NextEvent(q, exports).0.emitted == q.emitted
  {
    RefillKeepsPlan(q);
  }

  lemma ExportsSnoc(events: seq<Event>, e: Event, port: nat)
    ensures Exports(events + [e], port) == (Exports(events, port) || (e.Exported? && e.port == port))
  {
    var longer := events + [e];
    if Exports(events, port) {
      var i :| 0 <= i < |events| && events[i].Exported? && events[i].port == port;
      assert longer[i] == events[i];
    }
    if e.Exported? && e.port == port {
      assert longer[|events|] == e;
    }
  }

  lemma SnocSchemas(events: seq<Event>, e: Event, before: seq<bool>, after: seq<bool>)
    requires SchemaFirst(events) && !e.End?
    requires forall p :: 0 <= p < |before| ==> before[p] == Exports(events, p)
    requires forall i :: 0 <= i < |events| && events[i].Exported? ==> events[i].port < |before|
    requires e.Routed? ==> after == before
    requires e.Exported? ==> e.port < |before| && e.withSchema == !before[e.port] && after == before[e.port := true]
    ensures SchemaFirst(events + [e])
    ensures forall p :: 0 <= p < |after| ==> after[p] == Exports(events + [e], p)
    ensures forall i :: 0 <= i < |events + [e]| && (events + [e])[i].Exported? ==> (events + [e])[i].port < |after|
  {
    hide Exports;
    var longer := events + [e];
    forall p | 0 <= p < |after| ensures after[p] == Exports(longer, p) {
      ExportsSnoc(events, e, p);
    }
    forall i | 0 <= i < |longer| && longer[i].Exported?
      ensures longer[i].withSchema == !Exports(longer[..i], longer[i].port)
    {
      assert longer[..i] == events[..i];
      if i == |events| {
        assert events[..i] == events;
      }
    }
  }

  lemma {:induction false} RunKeeps(q: Queue, calls: seq<bool>)
    requires Valid(q) && !q.failed && forall p :: 0 <= p < |q.emitted| ==> !q.emitted[p]
    ensures Inv(Run(q, calls), q) && SchemaInv(Run(q, calls))
    decreases |calls|
  {
    hide Step, Plan, SoundAhead;
    if calls != [] {
      var n := |calls| - 1;
      RunKeeps(q, calls[..n]);
      StepKeepsInv(Run(q, calls[..n]), q, calls[n]);
      StepKeepsSchemas(Run(q, calls[..n]), calls[n]);
    } else {
      assert Delivered([]) + Plan(q) == Plan(q);
    }
  }

  ghost predicate Fresh(q: Queue) {
    && !q.failed && q.pending == [] && |q.emitted| == |q.schemas|
    && forall p :: 0 <= p < |q.emitted| ==> !q.emitted[p]
  }

  /** Whatever the caller does, the events are the deliveries owed by the stream, in order and
      without gaps; the end is reported only when everything was delivered and the stream was
      sound to its end; and each port's schema goes out exactly with its first batch. */
  lemma EventsFollowTheStream(q: Queue, calls: seq<bool>)
    requires Fresh(q)
    ensures var l := Run(q, calls);
      && Delivered(l.events) <= Plan(q)
      && (l.ended ==> Delivered(l.events) == Plan(q) && SoundAhead(q))
      && SchemaFirst(l.events)
      && (l.queue.failed ==> forall exports :: NextEvent(l.queue, exports).1.Err?)
  {
    hide Run, Plan, SoundAhead, NextEvent;
    RunKeeps(q, calls);
    var l := Run(q, calls);
    if l.queue.failed {
      forall exports ensures NextEvent(l.queue, exports).1.Err? {
        PoisonedStays(l.queue, exports);
      }
    }
  }

  // ---- who gets what ---------------------------------------------------------------------

  /** The batches the Arrow edge of a port receives. */
  function ToPort(ds: seq<Delivery>, port: nat): seq<nat> {
    if ds == [] then []
    else (if ds[0].ToArrow? && ds[0].port == port then [ds[0].batch] else []) + ToPort(ds[1..], port)
  }

  /** The batches router `id` receives. */
  function ToId(ds: seq<Delivery>, id: nat): seq<nat> {
    if ds == [] then []
    else (if ds[0].ToRouter? && ds[0].id == id then [ds[0].batch] else []) + ToId(ds[1..], id)
  }

  lemma {:induction false} FilterConcat(a: seq<Delivery>, b: seq<Delivery>, x: nat)
    ensures ToPort(a + b, x) == ToPort(a, x) + ToPort(b, x)
    ensures ToId(a + b, x) == ToId(a, x) + ToId(b, x)
    decreases |a|
  {
    if a == [] {
      assert a + b == b;
    } else {
      FilterConcat(a[1..], b, x);
      TailOfConcat(a, b);
    }
  }

  /** `batch` once for every time `id` is listed. */
  function Times(ids: seq<nat>, id: nat, batch: nat): seq<nat> {
    if ids == [] then [] else (if ids[0] == id then [batch] else []) + Times(ids[1..], id, batch)
  }

  lemma {:induction false} RoutersGetTheBatch(ids: seq<nat>, batch: nat, x: nat)
    ensures ToPort(Routers(ids, batch), x) == [] && ToId(Routers(ids, batch), x) == Times(ids, x, batch)
    decreases |ids|
  {
    if ids == [] {
    } else {
      assert Routers(ids, batch)[1..] == Routers(ids[1..], batch);
      RoutersGetTheBatch(ids[1..], batch, x);
    }
  }

  /** What one batch owes to the Arrow edge of port `x` and to router `x`. */
  function EdgeShare(bindings: Option<seq<Port>>, a: Arrival, x: nat): seq<nat> {
    if a.Arrival? && a.port == x && (bindings.None? || (x < |bindings.value| && bindings.value[x].arrow))
    then [a.batch] else []
  }

  function RouterShare(bindings: Option<seq<Port>>, a: Arrival, x: nat): seq<nat> {
    if a.Arrival? && bindings.Some? && a.port < |bindings.value|
    then Times(bindings.value[a.port].frames, x, a.batch) else []
  }

  lemma OneBatch(q: Queue, a: Arrival, x: nat)
    requires Good(q, a)
    ensures ToPort(Deliveries(q, a), x) == EdgeShare(q.bindings, a, x)
    ensures ToId(Deliveries(q, a), x) == RouterShare(q.bindings, a, x)
  {
    if q.bindings.None? {
      assert [ToArrow(a.port, a.batch)][1..] == [];
    } else {
      var port := q.bindings.value[a.port];
      var edge := if port.arrow then [ToArrow(a.port, a.batch)] else [];
      FilterConcat(edge, Routers(port.frames, a.batch), x);
      RoutersGetTheBatch(port.frames, a.batch, x);
      assert port.arrow ==> edge[1..] == [];
    }
  }

  function EdgeShares(bindings: Option<seq<Port>>, arrivals: seq<Arrival>, x: nat): seq<nat> {
    if arrivals == [] then [] else EdgeShare(bindings, arrivals[0], x) + EdgeShares(bindings, arrivals[1..], x)
  }

  function RouterShares(bindings: Option<seq<Port>>, arrivals: seq<Arrival>, x: nat): seq<nat> {
    if arrivals == [] then [] else RouterShare(bindings, arrivals[0], x) + RouterShares(bindings, arrivals[1..], x)
  }

  lemma {:induction false} EveryoneGetsTheirShare(q: Queue, arrivals: seq<Arrival>, x: nat)
    requires Sound(q, arrivals)
    ensures ToPort(Owed(q, arrivals), x) == EdgeShares(q.bindings, arrivals, x)
    ensures ToId(Owed(q, arrivals), x) == RouterShares(q.bindings, arrivals, x)
    decreases |arrivals|
  {
    hide Deliveries, Good, EdgeShare, RouterShare;
    if arrivals == [] {
    } else {
      SoundSplit(q, arrivals);
      EveryoneGetsTheirShare(q, arrivals[1..], x);
      OneBatch(q, arrivals[0], x);
      FilterConcat(Deliveries(q, arrivals[0]), Owed(q, arrivals[1..]), x);
    }
  }

  /** An arrival is good exactly when it is a batch of a declared port with that port's schema,
      its memory was granted, and the port is bound where ports are bound. */
  lemma GoodExactly(q: Queue, port: nat, schema: nat, batch: nat, leased: bool)
    ensures !Good(q, Broken)
    ensures Good(q, Arrival(port, schema, batch, leased)) <==>
              && port < |q.schemas| && q.schemas[port] == schema && leased
              && (q.bindings.None? || port < |q.bindings.value|)
  {
  }

  /** When an output has ended, the Arrow edge of every port and every router have received
      exactly their batches of the stream, in order; and the stream was sound throughout. */
  lemma EndedMeansAllDelivered(q: Queue, calls: seq<bool>, x: nat)
    requires Fresh(q) && q.stream.Some? && Run(q, calls).ended
    ensures Sound(q, q.stream.value)
    ensures ToPort(Delivered(Run(q, calls).events), x) == EdgeShares(q.bindings, q.stream.value, x)
    ensures ToId(Delivered(Run(q, calls).events), x) == RouterShares(q.bindings, q.stream.value, x)
  {
    hide Run, Delivered, Owed, Sound;
    EventsFollowTheStream(q, calls);
    EveryoneGetsTheirShare(q, q.stream.value, x);
    assert Plan(q) == Owed(q, q.stream.value);
  }

  /** A sound stream is delivered: calls that can export never fail, and one call more than there
      are deliveries reports the end. */
  lemma {:induction false} SoundStreamsAreDelivered(q: Queue, calls: seq<bool>)
    requires Fresh(q) && q.stream.Some? && Sound(q, q.stream.value) && forall i :: 0 <= i < |calls| ==> calls[i]
    ensures var l := Run(q, calls);
      && !l.queue.failed
      && |l.events| == (if |calls| < |Plan(q)| then |calls| else |Plan(q)|)
      && (l.ended <==> |calls| > |Plan(q)|)
    decreases |calls|
  {
    hide Step, Plan, Sound, SoundAhead;
    if calls == [] {
    } else {
      var n := |calls| - 1;
      SoundStreamsAreDelivered(q, calls[..n]);
      FreshIsValid(q);
      RunKeeps(q, calls[..n]);
      var l := Run(q, calls[..n]);
      NextOfSound(l, q);
      NoEndLogged(q, calls[..n]);
      DeliveredLength(l.events);
      assert |Plan(q)| == |l.events| + |Plan(l.queue)|;
    }
  }

  lemma {:induction false} DeliveredLength(events: seq<Event>)
    ensures End !in events ==> |Delivered(events)| == |events|
    decreases |events|
  {
    if events == [] {
    } else {
      DeliveredLength(events[..|events| - 1]);
      assert forall e :: e in events[..|events| - 1] ==> e in events;
    }
  }

  lemma {:induction false} NoEndLogged(q: Queue, calls: seq<bool>)
    ensures End !in Run(q, calls).events
    decreases |calls|
  {
    hide NextEvent;
    if calls == [] {
    } else {
      NoEndLogged(q, calls[..|calls| - 1]);
    }
  }

  lemma FreshIsValid(q: Queue)
    requires Fresh(q)
    ensures Valid(q)
  {
  }

  lemma NextOfSound(l: Log, q: Queue)
    requires Inv(l, q) && !l.queue.failed && Fresh(q) && q.stream.Some? && Sound(q, q.stream.value)
    ensures var m := Step(l, true);
      && !m.queue.failed
      && (if Plan(l.queue) == [] then m.events == l.events && m.ended
          else |m.events| == |l.events| + 1 && m.ended == l.ended)
  {
    hide Plan, NextEvent;
    NextEventDelivers(l.queue, true);
    assert SoundAhead(q);
    if Plan(l.queue) != [] {
      var (r, result) := NextEvent(l.queue, true);
      assert !result.value.End?;
    }
  }

  // ---- the object ------------------------------------------------------------------------

  class Output {
    var stream: Option<seq<Arrival>>
    const schemas: seq<nat>
    var emittedSchema: seq<bool>
    var failed: bool
    const bindings: Option<seq<Port>>
    var pending: seq<Delivery>

    ghost function Abs(): Queue
      reads this
    {
      Queue(stream, schemas, emittedSchema, failed, bindings, pending)
    }

    constructor (arrivals: seq<Arrival>, schemas: seq<nat>, bindings: Option<seq<Port>>)
      ensures Fresh(Abs()) && stream == Some(arrivals) && this.schemas == schemas && this.bindings == bindings
    {
      stream := Some(arrivals);
      this.schemas := schemas;
      this.bindings := bindings;
      emittedSchema := seq(|schemas|, _ => false);
      failed := false;
      pending := [];
    }

    /** The loop that waits for something to deliver. */
    method Fill() returns (r: Result<bool, OutputError>)
      requires Valid(Abs()) && !failed
      modifies this
      ensures (Abs(), r) == Refill(old(Abs())) && Valid(Abs()) && (r == Ok(true) ==> pending != [])
    {
      hide Owed, Plan, SoundAhead;
      RefillKeepsPlan(Abs());
      while pending == []
        invariant !failed && Valid(Abs())
        invariant Refill(Abs()) == Refill(old(Abs()))
        decreases if stream.Some? then |stream.value| + 1 else 0
      {
        if stream.None? {
          return Ok(false);
        }
        if stream.value == [] {
          stream := None;
          return Ok(false);
        }
        var a := stream.value[0];
        ghost var q := Abs();
        stream := Some(stream.value[1..]);
        if a.Broken? || a.port >= |schemas| || a.schema != schemas[a.port] || !a.leased {
          return Err(Failed);
        }
        if bindings.Some? && a.port >= |bindings.value| {
          return Err(Failed);
        }
        DeliveriesInRange(q, a);
        if bindings.Some? {
          var port := bindings.value[a.port];
          if port.arrow {
            pending := pending + [ToArrow(a.port, a.batch)];
          }
          pending := pending + Routers(port.frames, a.batch);
        } else {
          pending := pending + [ToArrow(a.port, a.batch)];
        }
        assert pending == Deliveries(q, a);
      }
      return Ok(true);
    }

    method Pull(exports: bool) returns (r: Result<Event, OutputError>)
      requires Valid(Abs())
      modifies this
      ensures (Abs(), r) == NextInner(old(Abs()), exports)
    {
      hide Refill;
      if failed {
        return Err(Failed);
      }
      var filled := Fill();
      if filled.Err? {
        return Err(filled.error);
      }
      if !filled.value {
        return Ok(End);
      }
      var first := pending[0];
      pending := pending[1..];
      if !exports {
        return Err(Failed);
      }
      match first
      case ToRouter(id, batch) => return Ok(Routed(id, batch));
      case ToArrow(port, batch) =>
        var withSchema := !emittedSchema[port];
        emittedSchema := emittedSchema[port := true];
        return Ok(Exported(port, batch, withSchema));
    }

    method Next(exports: bool) returns (r: Result<Event, OutputError>)
      requires Valid(Abs())
      modifies this
      ensures (Abs(), r) == NextEvent(old(Abs()), exports)
    {
      hide NextInner;
      r := Pull(exports);
      if r.Err? {
        failed := true;
        pending := [];
        stream := None;
      }
    }
  }
}
