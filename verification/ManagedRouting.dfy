/** Routing under memory admission: every frame is built inside credit reserved before it, and
    finished frames keep theirs. Workspace sizes and the encoded size of a frame are parameters. */
module ManagedRouting {
  import opened Bytes
  import opened MemoryPool
  import BinaryRow
  import Routing

  datatype ExchangeError = Rows(row: BinaryRow.RowError) | Credits(memory: MemoryError) | Overflow | OverWorkspace | Ipc

  datatype Memory = Memory(credit: Credit, routing: nat, workspace: nat, retained: nat)

  // ---- one frame -------------------------------------------------------------------------

  function Needed(m: Memory): nat {
    m.routing + m.retained + m.workspace
  }

  /** Whether the next frame has to ask the broker. */
  predicate Asks(m: Memory) {
    m.credit.size < Needed(m) <= USIZE_MAX
  }

  /** What a later call pays for at least. */
  function Stride(workspace: nat): (r: nat)
    ensures r > 0
  {
    if workspace < 4 then 1 else workspace / 4
  }

  function Additional(m: Memory): (r: nat)
    requires Asks(m)
    ensures r >= Stride(m.workspace)
  {
    var missing := Needed(m) - m.credit.size;
    if missing < m.workspace / 4 then m.workspace / 4 else missing
  }

  function BeforeFrame(m: Memory): (Memory, Result<(), ExchangeError>) {
    if Needed(m) > USIZE_MAX then (m, Err(Overflow))
    else if Needed(m) <= m.credit.size then (m, Ok(()))
    else match Grow(m.credit, Additional(m))
      case (_, Err(e)) => (m, Err(Credits(e)))
      case (credit, Ok(_)) => (m.(credit := credit), Ok(()))
  }

  function RetainFrame(m: Memory, metadata: nat, body: nat): (Memory, Result<(), ExchangeError>) {
    if metadata + body > USIZE_MAX then (m, Err(Overflow))
    else if metadata + body > m.workspace then (m, Err(OverWorkspace))
    else if m.retained + metadata + body > USIZE_MAX then (m, Err(Overflow))
    else (m.(retained := m.retained + metadata + body), Ok(()))
  }

  // ---- whole runs ------------------------------------------------------------------------

  /** Admit and retain frames of the given sizes until one fails; `calls` counts the broker
      requests made on the way. */
  datatype Trace = Trace(memory: Memory, calls: nat, result: Result<(), ExchangeError>)

  function FrameStep(t: Trace, frame: (nat, nat)): Trace {
    if t.result.Err? then t
    else
      var calls := if Asks(t.memory) then t.calls + 1 else t.calls;
      match BeforeFrame(t.memory)
      case (_, Err(e)) => Trace(t.memory, calls, Err(e))
      case (m, Ok(_)) =>
        var (after, result) := RetainFrame(m, frame.0, frame.1);
        Trace(after, calls, result)
  }

  function Frames(m: Memory, frames: seq<(nat, nat)>): Trace {
    if frames == [] then Trace(m, 0, Ok(())) else FrameStep(Frames(m, frames[..|frames| - 1]), frames[|frames| - 1])
  }

  /** Credit covers the routing state and everything retained. */
  ghost predicate Covered(m: Memory) {
    m.credit.size >= m.routing + m.retained
  }

  /** What the calls so far have paid for: the workspace by the first, a stride by each later
      one. */
  ghost predicate Paid(m: Memory, calls: nat) {
    calls > 0 ==> m.credit.size >= m.routing + m.workspace + (calls - 1) * Stride(m.workspace)
  }

  /** No call is made before retained frames have used up the earlier ones. */
  ghost predicate FewCalls(m: Memory, calls: nat) {
    calls > 1 ==> (calls - 2) * Stride(m.workspace) < m.retained
  }

  ghost predicate TraceInv(t: Trace) {
    Covered(t.memory) && FewCalls(t.memory, t.calls) && (t.result.Ok? ==> Paid(t.memory, t.calls))
  }

  lemma GrowGrants(c: Credit, n: nat)
    requires Grow(c, n).1.Ok?
    ensures Grow(c, n).0.size == c.size + n
  {
  }

  /** A frame is only built once the credit covers it as well. */
  lemma AdmittedFrameIsCovered(m: Memory)
    requires BeforeFrame(m).1.Ok?
    ensures var after := BeforeFrame(m).0;
      && after.credit.size >= after.routing + after.retained + after.workspace
      && (if Asks(m) then after.credit.size == m.credit.size + Additional(m) else after == m)
      && after == m.(credit := after.credit)
  {
    hide Grow;
    if Asks(m) {
      GrowGrants(m.credit, Additional(m));
    }
  }

  lemma FrameKeeps(t: Trace, frame: (nat, nat))
    requires TraceInv(t)
    ensures TraceInv(FrameStep(t, frame))
  {
    hide Grow;
    if t.result.Ok? {
      AskingIsRare(t.memory, t.calls);
      if BeforeFrame(t.memory).1.Ok? {
        AdmissionPays(t.memory, t.calls);
      }
    }
  }

  /** A frame that asks finds the earlier calls used up by retained frames. */
  lemma AskingIsRare(m: Memory, calls: nat)
    requires Covered(m) && Paid(m, calls) && FewCalls(m, calls)
    ensures FewCalls(m, if Asks(m) then calls + 1 else calls)
  {
  }

  lemma AdmissionPays(m: Memory, calls: nat)
    requires Covered(m) && Paid(m, calls) && BeforeFrame(m).1.Ok?
    ensures Paid(BeforeFrame(m).0, if Asks(m) then calls + 1 else calls)
    ensures BeforeFrame(m).0.credit.size >= Needed(m) && BeforeFrame(m).0 == m.(credit := BeforeFrame(m).0.credit)
  {
    hide Grow, Stride, Additional;
    AdmittedFrameIsCovered(m);
    var stride := Stride(m.workspace);
    if calls > 0 {
      assert calls * stride == (calls - 1) * stride + stride;
    }
  }

  /** For any sequence of frames, successful or not: credit always covers the routing state and
      all retained frames, and the number of broker calls depends on the retained bytes alone,
      not on how many frames there are. */
  lemma {:induction false} FramesAreCovered(m: Memory, frames: seq<(nat, nat)>)
    requires Covered(m)
    ensures var t := Frames(m, frames);
      && TraceInv(t)
      && t.memory.workspace == m.workspace && t.memory.routing == m.routing
      && t.calls <= 2 + t.memory.retained / Stride(m.workspace)
    decreases |frames|
  {
    hide FrameStep;
    if frames == [] {
    } else {
      var n := |frames| - 1;
      FramesAreCovered(m, frames[..n]);
      FrameKeeps(Frames(m, frames[..n]), frames[n]);
      FrameStepGeometry(Frames(m, frames[..n]), frames[n]);
    }
    CallsAreFew(Frames(m, frames).memory, Frames(m, frames).calls);
  }

  lemma CallsAreFew(m: Memory, calls: nat)
    requires FewCalls(m, calls)
    ensures calls <= 2 + m.retained / Stride(m.workspace)
  {
    hide Stride;
    if calls > 2 {
      QuotientAtLeast(m.retained, Stride(m.workspace), calls - 2);
    }
  }

  lemma FrameStepGeometry(t: Trace, frame: (nat, nat))
    ensures var after := FrameStep(t, frame).memory;
      after.workspace == t.memory.workspace && after.routing == t.memory.routing
  {
    hide Grow;
  }

  lemma QuotientAtLeast(n: nat, m: nat, q: nat)
    requires m > 0 && q * m <= n
    ensures q <= n / m
  {
    var e := n / m;
    assert n == e * m + n % m && (e + 1) * m == e * m + m;
    if e < q {
      MulLe(e + 1, q, m);
    }
  }

  /** Credit never runs ahead of what is needed by more than a quarter workspace. */
  ghost predicate Tight(m: Memory) {
    m.credit.size <= m.routing + m.retained + m.workspace + m.workspace / 4
  }

  lemma FrameKeepsTight(t: Trace, frame: (nat, nat))
    requires Tight(t.memory)
    ensures Tight(FrameStep(t, frame).memory)
  {
    hide Grow;
    if t.result.Ok? && BeforeFrame(t.memory).1.Ok? {
      AdmittedFrameIsCovered(t.memory);
    }
  }

  /** For any frames, accepted or refused, the credit held is at most what routing, retained
      frames and one and a quarter workspaces take. */
  lemma {:induction false} CreditStaysTight(m: Memory, frames: seq<(nat, nat)>)
    requires Tight(m)
    ensures Tight(Frames(m, frames).memory)
    decreases |frames|
  {
    hide FrameStep;
    if frames == [] {
    } else {
      CreditStaysTight(m, frames[..|frames| - 1]);
      FrameKeepsTight(Frames(m, frames[..|frames| - 1]), frames[|frames| - 1]);
    }
  }

  /** What the broker holds besides this owner. */
  function Elsewhere(c: Credit): int {
    c.broker.reserved + c.broker.others - c.size
  }

  ghost predicate Backed(c: Credit) {
    c.size <= c.broker.reserved && InLimit(c.broker) && c.broker.limit <= I64_MAX
  }

  /** Frames within the workspace are accepted, one and all, when the broker has room for them and
      for one and a quarter workspaces. */
  lemma {:induction false} FramesFit(m: Memory, frames: seq<(nat, nat)>)
    requires Backed(m.credit) && Tight(m)
    requires forall i :: 0 <= i < |frames| ==> frames[i].0 + frames[i].1 <= m.workspace
    requires Elsewhere(m.credit) + m.routing + m.retained + Sum(frames) + m.workspace + m.workspace / 4 <= m.credit.broker.limit
    ensures var t := Frames(m, frames);
      && t.result.Ok? && Backed(t.memory.credit) && Tight(t.memory)
      && Elsewhere(t.memory.credit) == Elsewhere(m.credit) && t.memory.credit.broker.limit == m.credit.broker.limit
      && t.memory == Memory(t.memory.credit, m.routing, m.workspace, m.retained + Sum(frames))
    decreases |frames|
  {
    hide FrameStep;
    if frames == [] {
    } else {
      var n := |frames| - 1;
      FramesFit(m, frames[..n]);
      FrameFits(Frames(m, frames[..n]), frames[n]);
    }
  }

  lemma FrameFits(t: Trace, frame: (nat, nat))
    requires t.result.Ok? && Backed(t.memory.credit) && Tight(t.memory) && frame.0 + frame.1 <= t.memory.workspace
    requires var m := t.memory;
      Elsewhere(m.credit) + m.routing + m.retained + frame.0 + frame.1 + m.workspace + m.workspace / 4 <= m.credit.broker.limit
    ensures var (m, after) := (t.memory, FrameStep(t, frame).memory);
      && FrameStep(t, frame).result.Ok? && Backed(after.credit) && Tight(after)
      && Elsewhere(after.credit) == Elsewhere(m.credit) && after.credit.broker.limit == m.credit.broker.limit
      && after == Memory(after.credit, m.routing, m.workspace, m.retained + frame.0 + frame.1)
  {
    var m := t.memory;
    if Asks(m) {
      var n := Additional(m);
      assert m.credit.size + n <= Needed(m) + m.workspace / 4;
      GrowFits(m.credit, n);
    }
    FrameKeepsTight(t, frame);
  }

  lemma GrowFits(c: Credit, n: nat)
    requires Backed(c) && c.broker.reserved + c.broker.others + n <= c.broker.limit
    ensures Grow(c, n).1.Ok? && Backed(Grow(c, n).0) && Elsewhere(Grow(c, n).0) == Elsewhere(c)
    ensures Grow(c, n).0 == Credit(c.broker.(reserved := c.broker.reserved + n), c.size + n)
  {
  }

  /** A frame above the workspace is always refused. */
  lemma BigFramesAreRefused(m: Memory, frames: seq<(nat, nat)>, frame: (nat, nat))
    requires frame.0 + frame.1 > m.workspace
    ensures Frames(m, frames + [frame]).result.Err?
  {
    StepIsRecorded(m, frames, frame);
    WorkspaceStays(m, frames);
    hide Grow;
  }

  lemma {:induction false} WorkspaceStays(m: Memory, frames: seq<(nat, nat)>)
    ensures Frames(m, frames).memory.workspace == m.workspace
    decreases |frames|
  {
    hide FrameStep;
    if frames == [] {
    } else {
      WorkspaceStays(m, frames[..|frames| - 1]);
      FrameStepGeometry(Frames(m, frames[..|frames| - 1]), frames[|frames| - 1]);
    }
  }

  lemma {:induction false} RefusalStands(m: Memory, frames: seq<(nat, nat)>, k: nat)
    requires k <= |frames| && Frames(m, frames[..k]).result.Err?
    ensures Frames(m, frames).result.Err?
    decreases |frames|
  {
    hide BeforeFrame, RetainFrame;
    if k == |frames| {
      assert frames[..k] == frames;
    } else {
      var n := |frames| - 1;
      assert frames[..n][..k] == frames[..k];
      RefusalStands(m, frames[..n], k);
    }
  }

  function Sum(frames: seq<(nat, nat)>): nat {
    if frames == [] then 0 else Sum(frames[..|frames| - 1]) + frames[|frames| - 1].0 + frames[|frames| - 1].1
  }

  /** What is retained is exactly what the frames occupy. */
  lemma {:induction false} RetainedIsTheSum(m: Memory, frames: seq<(nat, nat)>)
    requires Frames(m, frames).result.Ok?
    ensures Frames(m, frames).memory.retained == m.retained + Sum(frames)
    decreases |frames|
  {
    hide Grow;
    if frames == [] {
    } else {
      RetainedIsTheSum(m, frames[..|frames| - 1]);
    }
  }

  // ---- the objects -----------------------------------------------------------------------

  class RoutingMemory {
    const reservation: HostMemoryReservation
    const routingBytes: nat
    const frameWorkspace: nat
    var retainedBytes: nat

    ghost function Abs(): Memory
      reads this, reservation, reservation.broker
    {
      Memory(reservation.Abs(), routingBytes, frameWorkspace, retainedBytes)
    }

    constructor (reservation: HostMemoryReservation, routingBytes: nat, frameWorkspace: nat)
      ensures this.reservation == reservation && this.routingBytes == routingBytes
      ensures this.frameWorkspace == frameWorkspace && retainedBytes == 0
    {
      this.reservation := reservation;
      this.routingBytes := routingBytes;
      this.frameWorkspace := frameWorkspace;
      retainedBytes := 0;
    }

    method Before() returns (r: Result<(), ExchangeError>)
      modifies reservation, reservation.broker
      ensures (Abs(), r) == BeforeFrame(old(Abs()))
      ensures reservation.broker.requests <= old(reservation.broker.requests) + (if Asks(old(Abs())) then 1 else 0)
    {
      hide Grow, Stride;
      var bytes := routingBytes + retainedBytes + frameWorkspace;
      if bytes > USIZE_MAX {
        return Err(Overflow);
      }
      if bytes <= reservation.size {
        return Ok(());
      }
      var missing := bytes - reservation.size;
      var additional := if missing < frameWorkspace / 4 then frameWorkspace / 4 else missing;
      var grown := reservation.TryGrow(additional);
      FailedGrowKeeps(old(reservation.Abs()), additional);
      if grown.Err? {
        return Err(Credits(grown.error));
      }
      return Ok(());
    }

    method Retain(metadata: nat, body: nat) returns (r: Result<(), ExchangeError>)
      modifies this`retainedBytes
      ensures (Abs(), r) == RetainFrame(old(Abs()), metadata, body)
    {
      var bytes := metadata + body;
      if bytes > USIZE_MAX {
        return Err(Overflow);
      }
      if bytes > frameWorkspace {
        return Err(OverWorkspace);
      }
      if retainedBytes + bytes > USIZE_MAX {
        return Err(Overflow);
      }
      retainedBytes := retainedBytes + bytes;
      return Ok(());
    }
  }

  lemma FailedGrowKeeps(c: Credit, n: nat)
    ensures Grow(c, n).1.Err? ==> Grow(c, n).0 == c
  {
  }

  // ---- routing a batch -------------------------------------------------------------------

  /** The capacities of the metadata and the body of an encoded frame, or a failure to encode. */
  type Encoder = BinaryRow.Batch -> Option<(nat, nat)>

  /** The broker has been charged exactly what the owner holds, within its limit. */
  ghost predicate Charged(before: Broker, now: Credit) {
    && now.broker == before.(reserved := before.reserved + now.size)
    && InLimit(now.broker) && now.broker.limit <= I64_MAX
  }

  lemma ChargedKept(before: Broker, c: Credit, n: nat)
    requires Charged(before, c)
    ensures Charged(before, Grow(c, n).0) && Charged(before, Resize(c, n).0)
    ensures Resize(c, n).1.Ok? ==> Resize(c, n).0.size == n
    ensures n <= c.size ==> Resize(c, n).1.Ok?
  {
    assert Charged(before, Grow(c, n).0);
    if n > c.size {
      assert Charged(before, Grow(c, n - c.size).0);
    }
  }

  ghost predicate Sized(frames: seq<Routing.Frame>, sizes: seq<(nat, nat)>, ipc: Encoder) {
    |frames| == |sizes| && forall i :: 0 <= i < |frames| ==> ipc(frames[i].table) == Some(sizes[i])
  }

  /** The selection becomes a frame: it can be materialized and encoded. */
  ghost predicate Framed(sel: Routing.Selection, batch: BinaryRow.Batch, columns: nat, ipc: Encoder)
    requires BinaryRow.ValidBatch(batch) && Routing.InRows(Routing.Selected(sel), batch.rows)
  {
    && Routing.Materializable(batch, columns, Routing.Selected(sel))
    && ipc(Routing.Gathered(batch, columns, Routing.Selected(sel))).Some?
  }

  ghost predicate AllFramed(sels: seq<Routing.Selection>, batch: BinaryRow.Batch, columns: nat, ipc: Encoder)
    requires BinaryRow.ValidBatch(batch) && Routing.SelectionsInRows(sels, batch.rows)
  {
    forall i :: 0 <= i < |sels| ==> Framed(sels[i], batch, columns, ipc)
  }

  ghost function SizeOf(sel: Routing.Selection, batch: BinaryRow.Batch, columns: nat, ipc: Encoder): (nat, nat)
    requires BinaryRow.ValidBatch(batch) && Routing.InRows(Routing.Selected(sel), batch.rows)
    requires Framed(sel, batch, columns, ipc)
  {
    ipc(Routing.Gathered(batch, columns, Routing.Selected(sel))).value
  }

  /** The sizes of all frames. */
  ghost function Expected(sels: seq<Routing.Selection>, batch: BinaryRow.Batch, columns: nat, ipc: Encoder): (r: seq<(nat, nat)>)
    requires BinaryRow.ValidBatch(batch) && Routing.SelectionsInRows(sels, batch.rows) && AllFramed(sels, batch, columns, ipc)
    ensures |r| == |sels| && forall i :: 0 <= i < |sels| ==> r[i] == SizeOf(sels[i], batch, columns, ipc)
  {
    seq(|sels|, i requires 0 <= i < |sels| => SizeOf(sels[i], batch, columns, ipc))
  }

  /** Admission, materialization, encoding and retention of one frame, after `calls` requests to
      the broker for earlier frames; `total` counts this frame's request as well. */
  method EncodeFrameAccounted(
    sel: Routing.Selection, batch: BinaryRow.Batch, columns: nat, ipc: Encoder, memory: RoutingMemory,
    ghost before: Broker, ghost calls: nat)
    returns (r: Result<(BinaryRow.Batch, (nat, nat)), ExchangeError>, ghost total: nat)
    requires BinaryRow.ValidBatch(batch) && Routing.InRows(Routing.Selected(sel), batch.rows)
    requires Charged(before, memory.reservation.Abs()) && TraceInv(Trace(memory.Abs(), calls, Ok(())))
    modifies memory, memory.reservation, memory.reservation.broker
    ensures Charged(before, memory.reservation.Abs()) && Covered(memory.Abs()) && FewCalls(memory.Abs(), total)
    ensures memory.reservation.broker.requests + calls <= old(memory.reservation.broker.requests) + total
    ensures r.Err? ==> memory.retainedBytes == old(memory.retainedBytes)
    ensures r.Err? && Framed(sel, batch, columns, ipc) ==>
              FrameStep(Trace(old(memory.Abs()), calls, Ok(())), SizeOf(sel, batch, columns, ipc)).result.Err?
    ensures r.Ok? ==>
      && Framed(sel, batch, columns, ipc) && r.value.1 == SizeOf(sel, batch, columns, ipc)
      && TraceInv(Trace(memory.Abs(), total, Ok(())))
      && ipc(r.value.0) == Some(r.value.1) && BinaryRow.ValidBatch(r.value.0) && columns <= |batch.columns|
      && Routing.Tuples(r.value.0) == Routing.Picked(batch, columns, Routing.Selected(sel))
      && FrameStep(Trace(old(memory.Abs()), calls, Ok(())), r.value.1) == Trace(memory.Abs(), total, Ok(()))
  {
    hide Grow, Charged, Stride, Routing.Tuples, Routing.Picked, Routing.Gathered, Routing.Materializable, Routing.Selected,
      BinaryRow.ValidBatch, RetainFrame, BeforeFrame;
    ghost var m := memory.Abs();
    total := if Asks(m) then calls + 1 else calls;
    BeforeKeeps(before, m);
    AskingIsRare(m, calls);
    var admitted := memory.Before();
    if admitted.Err? {
      return Err(admitted.error), total;
    }
    AdmissionPays(m, calls);
    var table := Routing.Materialize(batch, Routing.Selected(sel), columns);
    if table.Err? {
      return Err(Rows(table.error)), total;
    }
    var encoded := ipc(table.value);
    if encoded.None? {
      return Err(Ipc), total;
    }
    RetainKeeps(memory.Abs(), encoded.value.0, encoded.value.1, total);
    var retained := memory.Retain(encoded.value.0, encoded.value.1);
    if retained.Err? {
      return Err(retained.error), total;
    }
    StepAccepts(m, calls, encoded.value);
    Routing.EnoughColumns(batch, columns, Routing.Selected(sel));
    return Ok((table.value, encoded.value)), total;
  }

  /** One frame after the other, until the first failure. On every exit credit covers what is
      retained, and the broker was asked for no more than the retained frames account for. */
  method EncodeFramesAccounted(
    sels: seq<Routing.Selection>, batch: BinaryRow.Batch, columns: nat, p: nat, max: nat, ipc: Encoder,
    memory: RoutingMemory, ghost before: Broker)
    returns (r: Result<seq<Routing.Frame>, ExchangeError>, sizes: seq<(nat, nat)>)
    requires BinaryRow.ValidBatch(batch) && Routing.SelectionsInRows(sels, batch.rows)
    requires p > 0 || forall i :: 0 <= i < |sels| ==> sels[i].Run?
    requires Charged(before, memory.reservation.Abs()) && Covered(memory.Abs())
    modifies memory, memory.reservation, memory.reservation.broker
    ensures Charged(before, memory.reservation.Abs()) && Covered(memory.Abs())
    ensures memory.retainedBytes == old(memory.retainedBytes) + Sum(sizes)
    ensures memory.reservation.broker.requests
         <= old(memory.reservation.broker.requests) + 2 + memory.retainedBytes / Stride(memory.frameWorkspace)
    ensures r.Ok? <==> && AllFramed(sels, batch, columns, ipc)
                       && Frames(old(memory.Abs()), Expected(sels, batch, columns, ipc)).result.Ok?
    ensures r.Ok? ==> sizes == Expected(sels, batch, columns, ipc)
    ensures r.Ok? ==> Frames(old(memory.Abs()), sizes).memory == memory.Abs()
    ensures r.Ok? ==> Sized(r.value, sizes, ipc) && |r.value| == |sels| && Routing.ValidFrames(r.value)
    ensures r.Ok? && p > 0 && columns <= |batch.columns| ==> Routing.FramesOf(r.value, sels, batch, columns, p, max)
  {
    hide FrameStep, Charged, TraceInv, FewCalls, Stride, Covered, Routing.Tuples, Routing.Picked, Routing.Selected, BinaryRow.ValidBatch,
      Routing.FramesOf, Routing.ValidFrames, Frames, Sum;
    var frames: seq<Routing.Frame> := [];
    sizes := [];
    ghost var (start, calls) := (memory.Abs(), 0);
    NothingFramed(start);
    Routing.NoFrames(sels, batch, columns, p, max);
    var i := 0;
    while i < |sels|
      invariant 0 <= i <= |sels| && |frames| == i && Routing.ValidFrames(frames)
      invariant Sized(frames, sizes, ipc)
      invariant Charged(before, memory.reservation.Abs())
      invariant TraceInv(Trace(memory.Abs(), calls, Ok(()))) && Frames(start, sizes) == Trace(memory.Abs(), calls, Ok(()))
      invariant memory.reservation.broker.requests <= old(memory.reservation.broker.requests) + calls
      invariant memory.retainedBytes == start.retained + Sum(sizes)
      invariant |sizes| == i && forall j :: 0 <= j < i ==>
        Framed(sels[j], batch, columns, ipc) && sizes[j] == SizeOf(sels[j], batch, columns, ipc)
      invariant p > 0 && columns <= |batch.columns| ==> Routing.FramesOf(frames, sels, batch, columns, p, max)
    {
      var encoded;
      ghost var total;
      ghost var m := memory.Abs();
      encoded, total := EncodeFrameAccounted(sels[i], batch, columns, ipc, memory, before, calls);
      if encoded.Err? {
        CallsAreFew(memory.Abs(), total);
        if AllFramed(sels, batch, columns, ipc) {
          RefusedFrame(start, sizes, Expected(sels, batch, columns, ipc), m, calls, i);
        }
        return Err(encoded.error), sizes;
      }
      var (table, size) := encoded.value;
      StepIsRecorded(start, sizes, size);
      calls := total;
      var tag := if sels[i].Run? then sels[i].group else Routing.AlignedTag(sels[i].destination, p, max);
      var frame := Routing.Frame(tag, table);
      Routing.ValidFramesSnoc(frames, frame);
      if p > 0 {
        Routing.FramesOfSnoc(frames, frame, sels, batch, columns, p, max);
      }
      frames, sizes := frames + [frame], sizes + [size];
      RetainedIsTheSum(start, sizes);
      i := i + 1;
    }
    TraceFacts(memory.Abs(), calls);
    CallsAreFew(memory.Abs(), calls);
    assert sizes == Expected(sels, batch, columns, ipc);
    return Ok(frames), sizes;
  }

  /** A refused frame refuses the whole run. */
  lemma RefusedFrame(start: Memory, sizes: seq<(nat, nat)>, all: seq<(nat, nat)>, m: Memory, calls: nat, i: nat)
    requires i < |all| && |sizes| == i && sizes == all[..i]
    requires Frames(start, sizes) == Trace(m, calls, Ok(()))
    requires FrameStep(Trace(m, calls, Ok(())), all[i]).result.Err?
    ensures Frames(start, all).result.Err?
  {
    hide FrameStep;
    StepIsRecorded(start, sizes, all[i]);
    assert sizes + [all[i]] == all[..i + 1];
    RefusalStands(start, all, i + 1);
  }

  lemma TraceFacts(m: Memory, calls: nat)
    requires TraceInv(Trace(m, calls, Ok(())))
    ensures Covered(m) && FewCalls(m, calls)
  {
  }

  lemma NothingFramed(m: Memory)
    ensures Frames(m, []) == Trace(m, 0, Ok(())) && Sum([]) == 0
    ensures Covered(m) ==> TraceInv(Trace(m, 0, Ok(())))
  {
  }

  lemma BeforeKeeps(before: Broker, m: Memory)
    requires Charged(before, m.credit) && Covered(m)
    ensures Charged(before, BeforeFrame(m).0.credit) && Covered(BeforeFrame(m).0)
    ensures BeforeFrame(m).1.Ok? ==> BeforeFrame(m).0.credit.size >= Needed(m)
    ensures BeforeFrame(m).0 == m.(credit := BeforeFrame(m).0.credit)
  {
    hide Grow, Charged;
    if Asks(m) {
      ChargedKept(before, m.credit, Additional(m));
    }
    if BeforeFrame(m).1.Ok? {
      AdmittedFrameIsCovered(m);
    }
  }

  lemma RetainKeeps(m: Memory, metadata: nat, body: nat, calls: nat)
    requires m.credit.size >= Needed(m) && FewCalls(m, calls) && Paid(m, calls)
    ensures var after := RetainFrame(m, metadata, body).0;
      && TraceInv(Trace(after, calls, Ok(()))) && after.credit == m.credit
      && (RetainFrame(m, metadata, body).1.Err? ==> after == m)
  {
    hide Stride;
  }

  lemma StepAccepts(m: Memory, calls: nat, frame: (nat, nat))
    requires BeforeFrame(m).1.Ok? && RetainFrame(BeforeFrame(m).0, frame.0, frame.1).1.Ok?
    ensures FrameStep(Trace(m, calls, Ok(())), frame)
         == Trace(RetainFrame(BeforeFrame(m).0, frame.0, frame.1).0, if Asks(m) then calls + 1 else calls, Ok(()))
  {
    hide BeforeFrame, Asks;
  }

  lemma StepIsRecorded(start: Memory, sizes: seq<(nat, nat)>, frame: (nat, nat))
    ensures Frames(start, sizes + [frame]) == FrameStep(Frames(start, sizes), frame)
  {
    hide FrameStep;
    assert (sizes + [frame])[..|sizes|] == sizes;
  }

  /** All capacities on top of the vector that holds the frames. */
  method FrameBytes(vector: nat, sizes: seq<(nat, nat)>) returns (r: Result<nat, ExchangeError>)
    requires vector <= USIZE_MAX
    ensures r == if vector + Sum(sizes) <= USIZE_MAX then Ok(vector + Sum(sizes)) else Err(Credits(ResourcesExhausted))
  {
    var bytes := vector;
    var i := 0;
    while i < |sizes|
      invariant 0 <= i <= |sizes| && bytes == vector + Sum(sizes[..i]) <= USIZE_MAX
    {
      assert sizes[..i + 1][..i] == sizes[..i];
      SumGrows(sizes, i + 1);
      bytes := bytes + sizes[i].0 + sizes[i].1;
      if bytes > USIZE_MAX {
        return Err(Credits(ResourcesExhausted));
      }
      i := i + 1;
    }
    assert sizes[..|sizes|] == sizes;
    return Ok(bytes);
  }

  lemma {:induction false} SumGrows(sizes: seq<(nat, nat)>, k: nat)
    requires k <= |sizes|
    ensures Sum(sizes[..k]) <= Sum(sizes)
    decreases |sizes|
  {
    if k < |sizes| {
      SumGrows(sizes[..|sizes| - 1], k);
      assert sizes[..|sizes| - 1][..k] == sizes[..k];
    } else {
      assert sizes[..k] == sizes;
    }
  }

  /** Everything routing needs once its own credit `m` was granted: a batch that can be routed,
      frames that can be built and are all admitted, and credit for the final accounting. */
  ghost predicate RoutesWithin(
    m: Memory, batch: BinaryRow.Batch, fields: BinaryRow.KeyFields, max: nat, p: nat, preserve: bool, columns: nat,
    vector: nat, ipc: Encoder)
    requires BinaryRow.ValidBatch(batch)
  {
    && Routing.SelectionError(batch, fields, max, p, preserve).None?
    && var sels := Routing.Selections(Routing.Groups(batch, fields, max).value, p, max, preserve);
    && Routing.SelectionsInRows(sels, batch.rows) && AllFramed(sels, batch, columns, ipc)
    && var sizes := Expected(sels, batch, columns, ipc);
    && Frames(m, sizes).result.Ok? && vector + Sum(sizes) <= USIZE_MAX
    && Resize(Frames(m, sizes).memory.credit, vector + Sum(sizes)).1.Ok?
  }

  /** When a batch is routed: when the routing credit is granted and the rest goes through. */
  ghost predicate Routes(
    broker: Broker, batch: BinaryRow.Batch, fields: BinaryRow.KeyFields, max: nat, p: nat, preserve: bool, columns: nat,
    routingBytes: nat, workspace: nat, vector: nat, ipc: Encoder)
    requires BinaryRow.ValidBatch(batch)
  {
    var (credit, granted) := Grow(Credit(broker, 0), routingBytes);
    granted.Ok? && RoutesWithin(Memory(credit, routingBytes, workspace, 0), batch, fields, max, p, preserve, columns, vector, ipc)
  }

  /** In particular a routable batch whose frames fit the workspace is routed whenever the broker
      has room for the routing state, the frames, their vector and one and a quarter workspaces. */
  lemma RoomSuffices(
    broker: Broker, batch: BinaryRow.Batch, fields: BinaryRow.KeyFields, max: nat, p: nat, preserve: bool, columns: nat,
    routingBytes: nat, workspace: nat, vector: nat, ipc: Encoder)
    requires BinaryRow.ValidBatch(batch) && InLimit(broker) && broker.limit <= I64_MAX
    requires Routing.SelectionError(batch, fields, max, p, preserve).None?
    requires var sels := Routing.Selections(Routing.Groups(batch, fields, max).value, p, max, preserve);
      && Routing.SelectionsInRows(sels, batch.rows) && AllFramed(sels, batch, columns, ipc)
      && var sizes := Expected(sels, batch, columns, ipc);
         && (forall i :: 0 <= i < |sizes| ==> sizes[i].0 + sizes[i].1 <= workspace)
         && broker.reserved + broker.others + routingBytes + Sum(sizes) + workspace + workspace / 4 + vector <= broker.limit
    ensures Routes(broker, batch, fields, max, p, preserve, columns, routingBytes, workspace, vector, ipc)
  {
    hide Frames, Expected, AllFramed, Routing.Groups, Routing.Selections, Routing.SelectionsInRows, Sum;
    var sels := Routing.Selections(Routing.Groups(batch, fields, max).value, p, max, preserve);
    var sizes := Expected(sels, batch, columns, ipc);
    GrowFits(Credit(broker, 0), routingBytes);
    var m := Memory(Grow(Credit(broker, 0), routingBytes).0, routingBytes, workspace, 0);
    FramesFit(m, sizes);
    ResizeFits(Frames(m, sizes).memory.credit, vector + Sum(sizes));
  }

  lemma ResizeFits(c: Credit, size: nat)
    requires Backed(c) && Elsewhere(c) + size <= c.broker.limit
    ensures Resize(c, size).1.Ok?
  {
  }

  class AccountedFrames {
    const frames: seq<Routing.Frame>
    const reservation: HostMemoryReservation

    constructor (frames: seq<Routing.Frame>, reservation: HostMemoryReservation)
      ensures this.frames == frames && this.reservation == reservation
    {
      this.frames := frames;
      this.reservation := reservation;
    }
  }

  /** Routes one batch. A failure leaves the broker as it was; success leaves it charged with
      exactly the bytes of the frames and of the vector holding them, every destination getting
      its rows in input order. Either way the number of broker calls is bounded by the bytes
      retained, not by the number of frames. */
  method RouteRecordBatch(
    batch: BinaryRow.Batch, fields: BinaryRow.KeyFields, max: nat, p: nat, preserve: bool, columns: nat,
    routingBytes: nat, workspace: nat, vector: nat, ipc: Encoder, broker: MemoryBroker)
    returns (r: Result<AccountedFrames, ExchangeError>, sizes: seq<(nat, nat)>)
    requires BinaryRow.ValidBatch(batch) && vector <= USIZE_MAX
    requires InLimit(broker.Abs()) && broker.limit <= I64_MAX
    modifies broker
    ensures r.Ok? <==>
              Routes(old(broker.Abs()), batch, fields, max, p, preserve, columns, routingBytes, workspace, vector, ipc)
    ensures r.Err? ==> broker.Abs() == old(broker.Abs())
    ensures broker.requests <= old(broker.requests) + 5 + Sum(sizes) / Stride(workspace)
    ensures r.Ok? ==>
      && fresh(r.value.reservation) && r.value.reservation.broker == broker
      && r.value.reservation.size == vector + Sum(sizes)
      && broker.Abs() == old(broker.Abs()).(reserved := old(broker.reserved) + vector + Sum(sizes))
      && Sized(r.value.frames, sizes, ipc) && Routing.ValidFrames(r.value.frames)
    ensures r.Ok? && Routing.SelectionError(batch, fields, max, p, preserve).None? && p <= max ==>
      forall d :: 0 <= d < p ==>
        Routing.DeliversTo(r.value.frames, batch, columns, Routing.Groups(batch, fields, max).value, p, max, d)
    ensures Routing.SelectionError(batch, fields, max, p, preserve).Some? ==> r.Err?
  {
    hide Grow, Stride, Sum, RoutesWithin, Routing.Groups, Routing.DeliversTo, Routing.SelectionError, Routing.ValidFrames;
    ghost var before := broker.Abs();
    var reservation := new HostMemoryReservation(broker);
    var memory := new RoutingMemory(reservation, routingBytes, workspace);
    ChargedKept(before, reservation.Abs(), routingBytes);
    FirstGrant(memory.Abs());
    var admitted := reservation.TryGrow(routingBytes);
    if admitted.Err? {
      reservation.DropIt();
      return Err(Credits(admitted.error)), [];
    }
    var routed;
    routed, sizes := RouteWithin(batch, fields, max, p, preserve, columns, vector, ipc, memory, before);
    if routed.Err? {
      reservation.DropIt();
      return Err(routed.error), sizes;
    }
    var accounted := new AccountedFrames(routed.value, reservation);
    return Ok(accounted), sizes;
  }

  /** Everything after the routing credit was granted. */
  method RouteWithin(
    batch: BinaryRow.Batch, fields: BinaryRow.KeyFields, max: nat, p: nat, preserve: bool, columns: nat,
    vector: nat, ipc: Encoder, memory: RoutingMemory, ghost before: Broker)
    returns (r: Result<seq<Routing.Frame>, ExchangeError>, sizes: seq<(nat, nat)>)
    requires BinaryRow.ValidBatch(batch) && vector <= USIZE_MAX
    requires Charged(before, memory.reservation.Abs()) && Covered(memory.Abs())
    modifies memory, memory.reservation, memory.reservation.broker
    ensures Charged(before, memory.reservation.Abs())
    ensures r.Ok? <==> RoutesWithin(old(memory.Abs()), batch, fields, max, p, preserve, columns, vector, ipc)
    ensures memory.reservation.broker.requests
         <= old(memory.reservation.broker.requests) + 3 + (old(memory.retainedBytes) + Sum(sizes)) / Stride(memory.frameWorkspace)
    ensures r.Ok? ==> memory.reservation.size == vector + Sum(sizes) && Sized(r.value, sizes, ipc)
    ensures r.Ok? ==> Routing.SelectionError(batch, fields, max, p, preserve).None? && Routing.ValidFrames(r.value)
    ensures r.Ok? && p <= max ==>
      forall d :: 0 <= d < p ==>
        Routing.DeliversTo(r.value, batch, columns, Routing.Groups(batch, fields, max).value, p, max, d)
  {
    hide Grow, Resize, Charged, Covered, Frames, Stride, Sum, AllFramed, Expected, Sized, Routing.Groups, Routing.DeliversTo, Routing.FramesOf, Routing.Selections, Routing.SelectionError, Routing.ValidFrames;
    sizes := [];
    var sels := Routing.Select(batch, fields, max, p, preserve);
    if sels.Err? {
      return Err(Rows(sels.error)), sizes;
    }
    Routing.SelectionFacts(batch, fields, max, p, preserve);
    var frames;
    frames, sizes := EncodeFramesAccounted(sels.value, batch, columns, p, max, ipc, memory, before);
    if frames.Err? {
      return Err(frames.error), sizes;
    }
    var total := FrameBytes(vector, sizes);
    if total.Err? {
      return Err(total.error), sizes;
    }
    ChargedKept(before, memory.reservation.Abs(), total.value);
    var resized := memory.reservation.ResizeTo(total.value);
    if resized.Err? {
      return Err(Credits(resized.error)), sizes;
    }
    if p <= max {
      Routing.FramesDeliverAll(frames.value, batch, columns, fields, p, max, preserve);
    }
    return Ok(frames.value), sizes;
  }

  lemma FirstGrant(m: Memory)
    requires m.credit.size == 0 && m.retained == 0
    ensures Grow(m.credit, m.routing).1.Ok? ==> Covered(m.(credit := Grow(m.credit, m.routing).0))
  {
  }
}
