/** Handles to region outputs. A handle names a slot through a registry; a caller takes the output
    out of its slot, works on it without any lock, and puts it back unless the handle was closed
    meanwhile. Every lock-protected section is one step, so a run is any interleaving of them. */
module RegionOutput {
  import opened Bytes

  const I64_MAX: nat := 0x7fff_ffff_ffff_ffff

  /** Slot `k` was created for output `k`; an output refused a handle leaves an empty closed slot. */
  datatype Slot = Slot(output: Option<nat>, closed: bool)

  /** How far a call has got. */
  datatype Caller =
    | Finished
    | LookedUp(slot: nat)                 // with_output holds the registry entry
    | Holding(slot: nat, output: nat)     // with_output is running its action
    | Closing(slot: nat)                  // close has removed the registry entry
    | Dropping(output: nat)               // the output is about to be dropped, outside the lock

  datatype World = World(
    next: nat,
    registry: map<nat, nat>,
    slots: seq<Slot>,
    callers: seq<Caller>,
    dropped: seq<nat>)

  datatype Step =
    | Register
    | LookUp(handle: nat)
    | Take(caller: nat)
    | PutBack(caller: nat)
    | Remove(handle: nat)
    | CloseSlot(caller: nat)
    | FinishDrop(caller: nat)

  const START := World(1, map[], [], [], [])

  function Call(w: World, c: Caller): World {
    w.(callers := w.callers + [c])
  }

  function SetCaller(w: World, c: nat, s: Caller): World
    requires c < |w.callers|
  {
    w.(callers := w.callers[c := s])
  }

  function SetSlot(w: World, k: nat, s: Slot): World
    requires k < |w.slots|
  {
    w.(slots := w.slots[k := s])
  }

  predicate At(w: World, c: nat, slot: nat) {
    c < |w.callers| && slot < |w.slots|
  }

  function Next(w: World, s: Step): World {
    match s
    case Register =>
      if w.next > I64_MAX then w.(slots := w.slots + [Slot(None, true)], dropped := w.dropped + [|w.slots|])
      else w.(next := w.next + 1, registry := w.registry[w.next := |w.slots|],
              slots := w.slots + [Slot(Some(|w.slots|), false)])
    case LookUp(h) =>
      if h in w.registry then Call(w, LookedUp(w.registry[h])) else Call(w, Finished)
    case Take(c) =>
      if c < |w.callers| && w.callers[c].LookedUp? && At(w, c, w.callers[c].slot) then
        var k := w.callers[c].slot;
        match w.slots[k].output
        case None => SetCaller(w, c, Finished) // busy or closed
        case Some(o) => SetSlot(SetCaller(w, c, Holding(k, o)), k, w.slots[k].(output := None))
      else w
    case PutBack(c) =>
      if c < |w.callers| && w.callers[c].Holding? && At(w, c, w.callers[c].slot) then
        var Holding(k, o) := w.callers[c];
        if w.slots[k].closed then SetCaller(w, c, Dropping(o))
        else SetSlot(SetCaller(w, c, Finished), k, w.slots[k].(output := Some(o)))
      else w
    case Remove(h) =>
      if h in w.registry then Call(w, Closing(w.registry[h])).(registry := w.registry - {h})
      else Call(w, Finished)
    case CloseSlot(c) =>
      if c < |w.callers| && w.callers[c].Closing? && At(w, c, w.callers[c].slot) then
        var k := w.callers[c].slot;
        var closer := match w.slots[k].output case None => Finished case Some(o) => Dropping(o);
        SetSlot(SetCaller(w, c, closer), k, Slot(None, true))
      else w
    case FinishDrop(c) =>
      if c < |w.callers| && w.callers[c].Dropping? then
        SetCaller(w.(dropped := w.dropped + [w.callers[c].output]), c, Finished)
      else w
  }

  function Run(w: World, steps: seq<Step>): World {
    if steps == [] then w else Next(Run(w, steps[..|steps| - 1]), steps[|steps| - 1])
  }

  // ---- where an output is ----------------------------------------------------------------

  function Owns(c: Caller, o: nat): nat {
    if (c.Holding? || c.Dropping?) && c.output == o then 1 else 0
  }

  /** Calls that own output `o`. */
  function Held(callers: seq<Caller>, o: nat): nat {
    if callers == [] then 0
    else Held(callers[..|callers| - 1], o) + Owns(callers[|callers| - 1], o)
  }

  /** In how many places output `o` is: its slot, a call, or among the dropped. */
  function Places(w: World, o: nat): nat
    requires o < |w.slots|
  {
    (if w.slots[o].output == Some(o) then 1 else 0) + Held(w.callers, o) + multiset(w.dropped)[o]
  }

  lemma {:induction false} HeldUpdate(callers: seq<Caller>, c: nat, s: Caller, o: nat)
    requires c < |callers|
    ensures Held(callers[c := s], o) + Owns(callers[c], o) == Held(callers, o) + Owns(s, o)
    decreases |callers|
  {
    var n := |callers| - 1;
    if c == n {
      assert callers[c := s][..n] == callers[..n];
    } else {
      HeldUpdate(callers[..n], c, s, o);
      assert callers[c := s][..n] == callers[..n][c := s];
    }
  }

  lemma HeldSnoc(callers: seq<Caller>, s: Caller, o: nat)
    ensures Held(callers + [s], o) == Held(callers, o) + Owns(s, o)
  {
    assert (callers + [s])[..|callers|] == callers;
  }

  ghost predicate CallerInv(w: World, c: Caller) {
    match c
    case Finished => true
    case LookedUp(k) => k < |w.slots|
    case Holding(k, o) => k == o < |w.slots|
    case Closing(k) => k < |w.slots| && !w.slots[k].closed && k !in w.registry.Values
    case Dropping(o) => o < |w.slots| && w.slots[o].closed
  }

  /** A handle not yet closed is in the registry or in the hands of the call closing it. */
  ghost predicate Open(w: World, k: nat) {
    k in w.registry.Values || Closing(k) in w.callers
  }

  ghost predicate RegistryInv(w: World) {
    && (forall h :: h in w.registry ==> h < w.next && w.registry[h] < |w.slots| && !w.slots[w.registry[h]].closed)
    && (forall h, g :: h in w.registry && g in w.registry && w.registry[h] == w.registry[g] ==> h == g)
  }

  ghost predicate Inv(w: World) {
    && RegistryInv(w)
    && (forall k :: 0 <= k < |w.slots| ==>
          && (w.slots[k].output == None || w.slots[k].output == Some(k))
          && (w.slots[k].closed ==> w.slots[k].output == None)
          && (!w.slots[k].closed ==> Open(w, k)))
    && (forall c :: 0 <= c < |w.callers| ==> CallerInv(w, w.callers[c]))
    && (forall i :: 0 <= i < |w.dropped| ==> w.dropped[i] < |w.slots| && w.slots[w.dropped[i]].closed)
    && (forall i, j :: 0 <= i < j < |w.callers| && w.callers[i].Closing? ==> w.callers[i] != w.callers[j])
  }

  /** Each output is in exactly one place. */
  ghost predicate Linear(w: World) {
    forall o :: 0 <= o < |w.slots| ==> Places(w, o) == 1
  }

  // ---- every step keeps both -------------------------------------------------------------

  lemma {:induction false} HeldNowhere(callers: seq<Caller>, o: nat)
    requires forall c :: 0 <= c < |callers| ==> Owns(callers[c], o) == 0
    ensures Held(callers, o) == 0
    decreases |callers|
  {
    if callers == [] {
    } else {
      HeldNowhere(callers[..|callers| - 1], o);
    }
  }

  function InSlot(w: World, o: nat): nat
    requires o < |w.slots|
  {
    if w.slots[o].output == Some(o) then 1 else 0
  }

  /** A caller changes state and whatever it gains or loses, slot and dropped ones balance. */
  lemma MoveKeepsLinear(w: World, v: World, c: nat)
    requires Linear(w) && |v.slots| == |w.slots| && c < |w.callers| == |v.callers| && v.callers == w.callers[c := v.callers[c]]
    requires forall o :: 0 <= o < |w.slots| ==>
      InSlot(v, o) + Owns(v.callers[c], o) + multiset(v.dropped)[o]
      == InSlot(w, o) + Owns(w.callers[c], o) + multiset(w.dropped)[o]
    ensures Linear(v)
  {
    hide Held;
    forall o | 0 <= o < |v.slots| ensures Places(v, o) == 1 {
      assert Places(w, o) == 1;
      HeldUpdate(w.callers, c, v.callers[c], o);
    }
  }

  /** A caller not involved in closing changes state; slots keep their closed flags. */
  lemma MoveKeepsInv(w: World, v: World, c: nat)
    requires Inv(w) && c < |w.callers| == |v.callers| && v.callers == w.callers[c := v.callers[c]]
    requires v.registry == w.registry && v.next == w.next && |v.slots| == |w.slots|
    requires !w.callers[c].Closing? && !v.callers[c].Closing? && CallerInv(v, v.callers[c])
    requires forall k :: 0 <= k < |w.slots| ==>
      && v.slots[k].closed == w.slots[k].closed
      && (v.slots[k].output == None || (v.slots[k].output == Some(k) && !v.slots[k].closed))
    requires forall i :: 0 <= i < |v.dropped| ==> v.dropped[i] < |v.slots| && v.slots[v.dropped[i]].closed
    ensures Inv(v)
  {
    forall k | 0 <= k < |v.slots| && !v.slots[k].closed ensures Open(v, k) {
      assert Open(w, k);
      if Closing(k) in w.callers {
        var i :| 0 <= i < |w.callers| && w.callers[i] == Closing(k);
        assert v.callers[i] == Closing(k);
      }
    }
    forall i | 0 <= i < |v.callers| ensures CallerInv(v, v.callers[i]) {
      assert i != c ==> CallerInv(w, w.callers[i]);
    }
  }

  /** A new caller owns nothing; the rest of the world keeps its outputs. */
  lemma CallKeepsLinear(w: World, v: World, c: Caller)
    requires Linear(w) && v.slots == w.slots && v.dropped == w.dropped && v.callers == w.callers + [c]
    requires !c.Holding? && !c.Dropping?
    ensures Linear(v)
  {
    hide Held;
    forall o | 0 <= o < |v.slots| ensures Places(v, o) == 1 {
      assert Places(w, o) == 1;
      HeldSnoc(w.callers, c, o);
    }
  }

  lemma RegisterKeepsLinear(w: World)
    requires Inv(w) && Linear(w) && w.next <= I64_MAX
    ensures Linear(Next(w, Register))
  {
    hide Held;
    var (v, n) := (Next(w, Register), |w.slots|);
    forall c | 0 <= c < |w.callers| ensures Owns(w.callers[c], n) == 0 {
      assert CallerInv(w, w.callers[c]);
    }
    HeldNowhere(w.callers, n);
    assert n !in w.dropped;
    forall o | 0 <= o < |v.slots| ensures Places(v, o) == 1 {
      if o < n {
        assert Places(w, o) == 1;
      }
    }
  }

  /** Without a handle to give, the output is dropped at once. */
  lemma RefuseKeepsLinear(w: World)
    requires Inv(w) && Linear(w) && w.next > I64_MAX
    ensures Linear(Next(w, Register))
  {
    hide Held;
    var (v, n) := (Next(w, Register), |w.slots|);
    forall c | 0 <= c < |w.callers| ensures Owns(w.callers[c], n) == 0 {
      assert CallerInv(w, w.callers[c]);
    }
    HeldNowhere(w.callers, n);
    assert n !in w.dropped;
    forall o | 0 <= o < |v.slots| ensures Places(v, o) == 1 {
      if o < n {
        assert Places(w, o) == 1;
      }
    }
  }

  lemma RefuseKeepsInv(w: World)
    requires Inv(w) && w.next > I64_MAX
    ensures Inv(Next(w, Register))
  {
    var (v, n) := (Next(w, Register), |w.slots|);
    forall k | 0 <= k < |v.slots| && !v.slots[k].closed ensures Open(v, k) {
      assert k < n && Open(w, k);
    }
    forall i | 0 <= i < |v.callers| ensures CallerInv(v, v.callers[i]) {
      assert CallerInv(w, w.callers[i]);
    }
  }

  lemma NewHandle(w: World)
    requires RegistryInv(w) && w.next <= I64_MAX
    ensures RegistryInv(Next(w, Register)) && |w.slots| !in w.registry.Values
  {
  }

  lemma RegisterKeepsInv(w: World)
    requires Inv(w) && w.next <= I64_MAX
    ensures Inv(Next(w, Register))
  {
    var (v, n) := (Next(w, Register), |w.slots|);
    NewHandle(w);
    hide RegistryInv;
    assert v.registry[w.next] == n;
    forall k | k in w.registry.Values ensures k in v.registry.Values {
      var h :| h in w.registry && w.registry[h] == k;
      assert v.registry[h] == k;
    }
    forall k | 0 <= k < |v.slots| && !v.slots[k].closed ensures Open(v, k) {
      if k < n {
        assert Open(w, k);
      }
    }
    forall i | 0 <= i < |v.callers| ensures CallerInv(v, v.callers[i]) {
      assert CallerInv(w, w.callers[i]);
    }
  }

  lemma LookUpKeeps(w: World, h: nat)
    requires Inv(w) && Linear(w)
    ensures Inv(Next(w, LookUp(h))) && Linear(Next(w, LookUp(h)))
  {
    hide Linear;
    var v := Next(w, LookUp(h));
    var c := v.callers[|w.callers|];
    assert v.callers == w.callers + [c];
    CallKeepsLinear(w, v, c);
    forall k | 0 <= k < |v.slots| && !v.slots[k].closed ensures Open(v, k) {
      assert Open(w, k);
    }
    forall i | 0 <= i < |w.callers| ensures CallerInv(v, v.callers[i]) {
      assert CallerInv(w, w.callers[i]);
    }
  }

  lemma RemovedHandle(w: World, h: nat)
    requires RegistryInv(w) && h in w.registry
    ensures var v := Next(w, Remove(h));
      RegistryInv(v) && forall k :: k in v.registry.Values <==> k in w.registry.Values && k != w.registry[h]
  {
    var v := Next(w, Remove(h));
    forall k | k in w.registry.Values && k != w.registry[h] ensures k in v.registry.Values {
      var g :| g in w.registry && w.registry[g] == k;
      assert v.registry[g] == k;
    }
  }

  lemma RemoveKeeps(w: World, h: nat)
    requires Inv(w) && Linear(w) && h in w.registry
    ensures Inv(Next(w, Remove(h))) && Linear(Next(w, Remove(h)))
  {
    hide Linear;
    var (v, k) := (Next(w, Remove(h)), w.registry[h]);
    assert v.callers == w.callers + [Closing(k)];
    CallKeepsLinear(w, v, Closing(k));
    RemovedHandle(w, h);
    assert k in w.registry.Values && k < |w.slots| && !w.slots[k].closed;
    hide RegistryInv;
    forall j | 0 <= j < |v.slots| && !v.slots[j].closed ensures Open(v, j) {
      assert Open(w, j);
      if j == k {
        assert v.callers[|w.callers|] == Closing(k);
      } else if j !in w.registry.Values {
        assert Closing(j) in v.callers;
      }
    }
    forall i | 0 <= i < |w.callers| ensures CallerInv(v, v.callers[i]) && v.callers[i] != Closing(k) {
      assert CallerInv(w, w.callers[i]);
    }
  }

  lemma TakeKeeps(w: World, c: nat)
    requires Inv(w) && Linear(w) && c < |w.callers| && w.callers[c].LookedUp?
    ensures Inv(Next(w, Take(c))) && Linear(Next(w, Take(c)))
  {
    hide Linear;
    assert CallerInv(w, w.callers[c]);
    var v := Next(w, Take(c));
    MoveKeepsLinear(w, v, c);
    MoveKeepsInv(w, v, c);
  }

  /** The slot a call returns to is empty, so nothing is overwritten. */
  lemma HolderHasEmptySlot(w: World, c: nat)
    requires Inv(w) && Linear(w) && c < |w.callers| && w.callers[c].Holding?
    ensures w.callers[c].slot == w.callers[c].output < |w.slots| && w.slots[w.callers[c].slot].output == None
  {
    assert CallerInv(w, w.callers[c]);
    var o := w.callers[c].output;
    HeldUpdate(w.callers, c, Finished, o);
    assert Places(w, o) == 1;
  }

  lemma PutBackKeeps(w: World, c: nat)
    requires Inv(w) && Linear(w) && c < |w.callers| && w.callers[c].Holding?
    ensures Inv(Next(w, PutBack(c))) && Linear(Next(w, PutBack(c)))
  {
    hide Linear;
    HolderHasEmptySlot(w, c);
    var v := Next(w, PutBack(c));
    MoveKeepsLinear(w, v, c);
    MoveKeepsInv(w, v, c);
  }

  lemma FinishDropKeeps(w: World, c: nat)
    requires Inv(w) && Linear(w) && c < |w.callers| && w.callers[c].Dropping?
    ensures Inv(Next(w, FinishDrop(c))) && Linear(Next(w, FinishDrop(c)))
  {
    hide Linear;
    assert CallerInv(w, w.callers[c]);
    var v := Next(w, FinishDrop(c));
    MoveKeepsLinear(w, v, c);
    MoveKeepsInv(w, v, c);
  }

  lemma CloseSlotKeeps(w: World, c: nat)
    requires Inv(w) && Linear(w) && c < |w.callers| && w.callers[c].Closing?
    ensures Inv(Next(w, CloseSlot(c))) && Linear(Next(w, CloseSlot(c)))
  {
    hide Linear;
    assert CallerInv(w, w.callers[c]);
    var v := Next(w, CloseSlot(c));
    var k := w.callers[c].slot;
    MoveKeepsLinear(w, v, c);
    forall j | 0 <= j < |v.slots| && !v.slots[j].closed ensures Open(v, j) {
      assert Open(w, j) && j != k;
      if Closing(j) in w.callers {
        var i :| 0 <= i < |w.callers| && w.callers[i] == Closing(j);
        assert v.callers[i] == Closing(j);
      }
    }
    forall i | 0 <= i < |v.callers| ensures CallerInv(v, v.callers[i]) {
      assert CallerInv(w, w.callers[i]);
    }
    forall h | h in v.registry ensures !v.slots[v.registry[h]].closed {
      assert v.registry[h] in w.registry.Values;
    }
  }

  lemma NextKeeps(w: World, s: Step)
    requires Inv(w) && Linear(w)
    ensures Inv(Next(w, s)) && Linear(Next(w, s))
  {
    hide Inv, Linear;
    match s
    case Register =>
      if w.next <= I64_MAX {
        RegisterKeepsLinear(w);
        RegisterKeepsInv(w);
      } else {
        RefuseKeepsLinear(w);
        RefuseKeepsInv(w);
      }
    case LookUp(h) => LookUpKeeps(w, h);
    case Remove(h) =>
      if h in w.registry { RemoveKeeps(w, h); } else { LookUpKeeps(w, h); }
    case Take(c) =>
      if c < |w.callers| && w.callers[c].LookedUp? { TakeKeeps(w, c); }
    case PutBack(c) =>
      if c < |w.callers| && w.callers[c].Holding? { PutBackKeeps(w, c); }
    case CloseSlot(c) =>
      if c < |w.callers| && w.callers[c].Closing? { CloseSlotKeeps(w, c); }
    case FinishDrop(c) =>
      if c < |w.callers| && w.callers[c].Dropping? { FinishDropKeeps(w, c); }
  }

  lemma {:induction false} RunKeeps(steps: seq<Step>)
    ensures Inv(Run(START, steps)) && Linear(Run(START, steps))
    decreases |steps|
  {
    hide Inv, Linear, Next;
    if steps == [] {
      assert Inv(START) && Linear(START) by { StartHolds(); }
    } else {
      RunKeeps(steps[..|steps| - 1]);
      NextKeeps(Run(START, steps[..|steps| - 1]), steps[|steps| - 1]);
    }
  }

  lemma StartHolds()
    ensures Inv(START) && Linear(START)
  {
  }

  // ---- what holds under every interleaving -----------------------------------------------

  /** Every output is in exactly one of its slot, one call, or the dropped ones; so it is
      dropped at most once, and never while a call works on it. */
  lemma OutputsAreOwnedLinearly(steps: seq<Step>, o: nat)
    requires o < |Run(START, steps).slots|
    ensures var w := Run(START, steps);
      && Places(w, o) == 1
      && multiset(w.dropped)[o] <= 1
      && (forall c :: 0 <= c < |w.callers| && Owns(w.callers[c], o) == 1 ==> o !in w.dropped && w.slots[o].output == None)
  {
    hide Run;
    RunKeeps(steps);
    var w := Run(START, steps);
    forall c | 0 <= c < |w.callers| && Owns(w.callers[c], o) == 1
      ensures o !in w.dropped && w.slots[o].output == None
    {
      HeldUpdate(w.callers, c, Finished, o);
      assert Places(w, o) == 1;
    }
  }

  /** Once closed, a slot stays closed and empty: nothing is ever put back into it. */
  lemma ClosedIsFinal(steps: seq<Step>, k: nat, s: Step)
    requires k < |Run(START, steps).slots| && Run(START, steps).slots[k].closed
    ensures var w := Next(Run(START, steps), s);
      k < |w.slots| && w.slots[k] == Slot(None, true)
  {
    hide Run;
    RunKeeps(steps);
  }

  /** A call that returns after the handle was closed drops the output it holds. */
  lemma ReturnAfterCloseDrops(steps: seq<Step>, c: nat)
    requires var w := Run(START, steps);
      c < |w.callers| && w.callers[c].Holding? && w.callers[c].slot < |w.slots| && w.slots[w.callers[c].slot].closed
    ensures var w := Run(START, steps);
      var o := w.callers[c].output;
      var done := Next(Next(w, PutBack(c)), FinishDrop(c));
      done.callers[c] == Finished && o in done.dropped && done.slots == w.slots
  {
    hide Run;
    RunKeeps(steps);
  }

  /** When no call is in progress and no handle is left, every output has been dropped once. */
  lemma QuiescentMeansDropped(steps: seq<Step>, o: nat)
    requires var w := Run(START, steps);
      && o < |w.slots| && w.registry == map[] && forall c :: 0 <= c < |w.callers| ==> w.callers[c] == Finished
    ensures multiset(Run(START, steps).dropped)[o] == 1
  {
    hide Run;
    RunKeeps(steps);
    var w := Run(START, steps);
    HeldNowhere(w.callers, o);
    assert Places(w, o) == 1;
    assert Open(w, o) ==> Closing(o) in w.callers;
  }

  // ---- the registry as it is updated in place --------------------------------------------

  class Registry {
    var next: nat
    var registry: map<nat, nat>
    var slots: seq<Slot>
    var callers: seq<Caller>
    var dropped: seq<nat>

    ghost function Abs(): World
      reads this
    {
      World(next, registry, slots, callers, dropped)
    }

    constructor ()
      ensures Abs() == START
    {
      next := 1;
      registry := map[];
      slots := [];
      callers := [];
      dropped := [];
    }

    /** `register`. */
    method Add() returns (handle: Option<nat>)
      modifies this
      ensures Abs() == Next(old(Abs()), Register)
      ensures handle == if old(next) > I64_MAX then None else Some(old(next))
    {
      if next > I64_MAX {
        dropped := dropped + [|slots|];
        slots := slots + [Slot(None, true)];
        return None;
      }
      handle := Some(next);
      registry := registry[next := |slots|];
      slots := slots + [Slot(Some(|slots|), false)];
      next := next + 1;
    }

    /** `with_output`: the three locked sections around the action. */
    method LookUpEntry(handle: nat) returns (caller: nat)
      modifies this
      ensures Abs() == Next(old(Abs()), LookUp(handle)) && caller == |old(callers)|
    {
      caller := |callers|;
      callers := callers + [if handle in registry then LookedUp(registry[handle]) else Finished];
    }

    method TakeOutput(c: nat) returns (output: Option<nat>)
      requires c < |callers| && callers[c].LookedUp? && callers[c].slot < |slots|
      modifies this
      ensures Abs() == Next(old(Abs()), Take(c)) && output == old(slots[callers[c].slot].output)
    {
      var k := callers[c].slot;
      output := slots[k].output;
      if output.None? {
        callers := callers[c := Finished];
      } else {
        slots := slots[k := slots[k].(output := None)];
        callers := callers[c := Holding(k, output.value)];
      }
    }

    method ReturnOutput(c: nat)
      requires c < |callers| && callers[c].Holding? && callers[c].slot < |slots|
      modifies this
      ensures Abs() == Next(old(Abs()), PutBack(c))
    {
      var Holding(k, o) := callers[c];
      if !slots[k].closed {
        slots := slots[k := slots[k].(output := Some(o))];
        callers := callers[c := Finished];
      } else {
        callers := callers[c := Dropping(o)];
      }
    }

    /** `close`: remove the entry, then mark the slot and take what it holds. */
    method RemoveEntry(handle: nat) returns (caller: nat)
      modifies this
      ensures Abs() == Next(old(Abs()), Remove(handle)) && caller == |old(callers)|
    {
      caller := |callers|;
      if handle in registry {
        callers := callers + [Closing(registry[handle])];
        registry := registry - {handle};
      } else {
        callers := callers + [Finished];
      }
    }

    method MarkClosed(c: nat)
      requires c < |callers| && callers[c].Closing? && callers[c].slot < |slots|
      modifies this
      ensures Abs() == Next(old(Abs()), CloseSlot(c))
    {
      var k := callers[c].slot;
      var output := slots[k].output;
      slots := slots[k := Slot(None, true)];
      callers := callers[c := if output.Some? then Dropping(output.value) else Finished];
    }

    method DropOutput(c: nat)
      requires c < |callers| && callers[c].Dropping?
      modifies this
      ensures Abs() == Next(old(Abs()), FinishDrop(c))
    {
      dropped := dropped + [callers[c].output];
      callers := callers[c := Finished];
    }
  }
}
