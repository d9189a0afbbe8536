/** What the calls on region outputs get: exclusive use of an output from the take to the return,
    the output of a live handle whenever it is idle, and nothing once the handle is closed. */
module RegionCalls {
  import opened Bytes
  import opened RegionOutput

  /** The output a take gives to its call. */
  function Taken(w: World, c: nat): Option<nat> {
    if c < |w.callers| && w.callers[c].LookedUp? && w.callers[c].slot < |w.slots|
    then w.slots[w.callers[c].slot].output else None
  }

  ghost predicate Sound(w: World) {
    Inv(w) && Linear(w)
  }

  lemma {:induction false} RunStaysSound(w: World, later: seq<Step>)
    requires Sound(w)
    ensures Sound(Run(w, later))
    decreases |later|
  {
    hide Inv, Linear, Next;
    if later == [] {
    } else {
      var n := |later| - 1;
      RunStaysSound(w, later[..n]);
      NextKeeps(Run(w, later[..n]), later[n]);
    }
  }

  lemma Reached(steps: seq<Step>)
    ensures Sound(Run(START, steps))
  {
    RunKeeps(steps);
  }

  // ---- taking ----------------------------------------------------------------------------

  /** A take that gives an output moves it from the slot to the call and to nothing else; one
      that gives none ends the call and changes nothing. */
  lemma TakeMovesTheOutput(steps: seq<Step>, c: nat)
    requires var w := Run(START, steps); c < |w.callers| && w.callers[c].LookedUp?
    ensures var w := Run(START, steps);
      var (k, v) := (w.callers[c].slot, Next(w, Take(c)));
      && k < |w.slots|
      && (Taken(w, c).Some? ==>
            && Taken(w, c) == Some(k) && v.callers[c] == Holding(k, k)
            && v.slots == w.slots[k := Slot(None, w.slots[k].closed)])
      && (Taken(w, c).None? ==> v.callers[c] == Finished && v.slots == w.slots)
      && |v.callers| == |w.callers| && (forall d :: 0 <= d < |w.callers| && d != c ==> v.callers[d] == w.callers[d])
      && v.registry == w.registry && v.dropped == w.dropped
  {
    hide Run;
    Reached(steps);
    assert CallerInv(Run(START, steps), Run(START, steps).callers[c]);
  }

  lemma HoldingStays(w: World, c: nat, s: Step)
    requires Sound(w) && c < |w.callers| && w.callers[c].Holding? && s != PutBack(c)
    ensures var v := Next(w, s); c < |v.callers| && v.callers[c] == w.callers[c]
  {
  }

  /** While a call holds an output its slot is empty, and no other call gets it. */
  lemma HolderIsAlone(w: World, c: nat)
    requires Sound(w) && c < |w.callers| && w.callers[c].Holding?
    ensures var Holding(k, o) := w.callers[c];
      && k == o < |w.slots| && w.slots[k].output == None && o !in w.dropped
      && (forall d :: 0 <= d < |w.callers| && d != c ==> Owns(w.callers[d], o) == 0)
      && (forall d :: 0 <= d < |w.callers| && w.callers[d] == LookedUp(k) ==> Taken(w, d) == None)
  {
    hide Held;
    assert CallerInv(w, w.callers[c]);
    var o := w.callers[c].output;
    assert Places(w, o) == 1;
    HeldUpdate(w.callers, c, Finished, o);
    forall d | 0 <= d < |w.callers| && d != c ensures Owns(w.callers[d], o) == 0 {
      var others := w.callers[c := Finished];
      HeldUpdate(others, d, Finished, o);
      assert others[d] == w.callers[d];
    }
  }

  /** From the take to its own return a call has the output to itself, whatever else happens. */
  lemma CallsAreExclusive(steps: seq<Step>, c: nat, later: seq<Step>)
    requires var w := Run(START, steps); c < |w.callers| && w.callers[c].Holding?
    requires PutBack(c) !in later
    ensures var (w, v) := (Run(START, steps), Run(Run(START, steps), later));
      var Holding(k, o) := w.callers[c];
      && c < |v.callers| && v.callers[c] == w.callers[c]
      && k == o < |v.slots| && v.slots[k].output == None && o !in v.dropped
      && (forall d :: 0 <= d < |v.callers| && d != c ==> Owns(v.callers[d], o) == 0)
      && (forall d :: 0 <= d < |v.callers| && v.callers[d] == LookedUp(k) ==> Taken(v, d) == None)
  {
    Reached(steps);
    var w := Run(START, steps);
    HoldingLasts(w, c, later);
    RunStaysSound(w, later);
    hide Run, Inv, Linear;
    HolderIsAlone(Run(w, later), c);
  }

  lemma {:induction false} HoldingLasts(w: World, c: nat, later: seq<Step>)
    requires Sound(w) && c < |w.callers| && w.callers[c].Holding? && PutBack(c) !in later
    ensures c < |Run(w, later).callers| && Run(w, later).callers[c] == w.callers[c]
    decreases |later|
  {
    hide Sound, Next;
    if later == [] {
    } else {
      var n := |later| - 1;
      HoldingLasts(w, c, later[..n]);
      RunStaysSound(w, later[..n]);
      HoldingStays(Run(w, later[..n]), c, later[n]);
    }
  }

  // ---- handles ---------------------------------------------------------------------------

  /** A registered output sits in the slot of its new handle. */
  lemma RegisterGivesAHandle(steps: seq<Step>)
    ensures var w := Run(START, steps);
      var (v, n) := (Next(w, Register), |w.slots|);
      && |v.slots| == n + 1 && w.next !in w.registry
      && (w.next <= 0x7fff_ffff_ffff_ffff ==> v.registry == w.registry[w.next := n] && v.slots[n] == Slot(Some(n), false))
      && (w.next > 0x7fff_ffff_ffff_ffff ==> v.registry == w.registry && n in v.dropped)
  {
    hide Run;
    Reached(steps);
  }

  /** A handle keeps its slot until it is removed, and never comes back afterwards. */
  lemma {:induction false} HandlesAreStable(w: World, h: nat, later: seq<Step>)
    requires Sound(w) && h < w.next
    ensures h < Run(w, later).next
    ensures h in w.registry && Remove(h) !in later ==>
              h in Run(w, later).registry && Run(w, later).registry[h] == w.registry[h]
    ensures h !in w.registry ==> h !in Run(w, later).registry
    decreases |later|
  {
    if later == [] {
    } else {
      HandlesAreStable(w, h, later[..|later| - 1]);
    }
  }

  /** An open slot is empty exactly while some call works on its output. */
  lemma EmptyMeansBusy(w: World, k: nat)
    requires Sound(w) && k < |w.slots| && !w.slots[k].closed
    ensures w.slots[k].output == None <==> exists c :: 0 <= c < |w.callers| && w.callers[c] == Holding(k, k)
  {
    hide Held;
    assert Places(w, k) == 1;
    assert k !in w.dropped;
    if w.slots[k].output == None {
      if forall c :: 0 <= c < |w.callers| ==> Owns(w.callers[c], k) == 0 {
        HeldNowhere(w.callers, k);
      } else {
        var c :| 0 <= c < |w.callers| && Owns(w.callers[c], k) != 0;
        assert CallerInv(w, w.callers[c]);
        assert w.callers[c] == Holding(k, k);
      }
    } else if c :| 0 <= c < |w.callers| && w.callers[c] == Holding(k, k) {
      HolderIsAlone(w, c);
    }
  }

  /** A lookup of a live handle, then a take: the call gets the output exactly when no other call
      works on it. A lookup of any other handle is refused. */
  lemma LiveHandlesGiveTheirOutput(steps: seq<Step>, h: nat)
    ensures var w := Run(START, steps);
      var (v, c) := (Next(w, LookUp(h)), |w.callers|);
      && |v.callers| == c + 1 && v.slots == w.slots && v.registry == w.registry
      && (h !in w.registry ==> v.callers[c] == Finished)
      && (h in w.registry ==>
            && v.callers[c] == LookedUp(w.registry[h])
            && (Taken(v, c) == Some(w.registry[h]) || Taken(v, c) == None)
            && (Taken(v, c) == None <==>
                  exists d :: 0 <= d < |w.callers| && w.callers[d] == Holding(w.registry[h], w.registry[h])))
  {
    hide Run;
    Reached(steps);
    var w := Run(START, steps);
    if h in w.registry {
      EmptyMeansBusy(w, w.registry[h]);
    }
  }

  // ---- returning and closing -------------------------------------------------------------

  /** A return puts the output back unless the slot was closed, and then it is dropped. */
  lemma ReturnIsExact(steps: seq<Step>, c: nat)
    requires var w := Run(START, steps); c < |w.callers| && w.callers[c].Holding?
    ensures var w := Run(START, steps);
      var (Holding(k, o), v) := (w.callers[c], Next(w, PutBack(c)));
      && k < |w.slots|
      && (!w.slots[k].closed ==> v.callers[c] == Finished && v.slots == w.slots[k := Slot(Some(o), false)])
      && (w.slots[k].closed ==> v.callers[c] == Dropping(o) && v.slots == w.slots)
  {
    hide Run;
    Reached(steps);
    assert CallerInv(Run(START, steps), Run(START, steps).callers[c]);
  }

  /** Closing a live handle: it is gone at once; when the closing call has marked the slot, the
      slot is closed and its idle output is dropped by that call, a busy one by the call that
      works on it. */
  lemma CloseIsExact(steps: seq<Step>, h: nat)
    requires h in Run(START, steps).registry
    ensures var w := Run(START, steps);
      var (k, c, v) := (w.registry[h], |w.callers|, Next(w, Remove(h)));
      var closed := Next(v, CloseSlot(c));
      var done := Next(closed, FinishDrop(c));
      && k < |w.slots| && h !in v.registry && |v.callers| == c + 1 && v.callers[c] == Closing(k)
      && closed.slots == w.slots[k := Slot(None, true)]
      && closed.callers[c] == (if w.slots[k].output == Some(k) then Dropping(k) else Finished)
      && done.callers[c] == Finished
      && (w.slots[k].output == Some(k) ==> done.dropped == w.dropped + [k])
      && (w.slots[k].output == None ==> done.dropped == w.dropped)
  {
    hide Run;
    Reached(steps);
  }

  /** A closed slot gives nothing to anyone, ever. */
  lemma {:induction false} ClosedGivesNothing(w: World, k: nat, later: seq<Step>, d: nat)
    requires Sound(w) && k < |w.slots| && w.slots[k].closed
    ensures var v := Run(w, later);
      && k < |v.slots| && v.slots[k] == Slot(None, true)
      && (d < |v.callers| && v.callers[d] == LookedUp(k) ==> Taken(v, d) == None)
    decreases |later|
  {
    if later == [] {
    } else {
      var n := |later| - 1;
      ClosedGivesNothing(w, k, later[..n], d);
      RunStaysSound(w, later[..n]);
      ClosedStaysEmpty(Run(w, later[..n]), k, later[n]);
    }
  }

  lemma ClosedStaysEmpty(w: World, k: nat, s: Step)
    requires Sound(w) && k < |w.slots| && w.slots[k] == Slot(None, true)
    ensures k < |Next(w, s).slots| && Next(w, s).slots[k] == Slot(None, true)
  {
    hide Linear;
  }
}
