/** Plan-node identities. Decoding a plan walks the operator tree twice: the first pass reserves
    every identity Java assigned, the second gives each remaining node the lowest free one. */
module PlanIds {
  import opened Bytes

  /** What an operator demands of the protocol, and whether the visitor enters its inputs. */
  datatype Shape = LookupJoin | WindowJoin(native: bool) | Calc(preservesEnvelope: bool) | Plain | Unvisited

  /** `inputs` are the inputs present, in visiting order. */
  datatype Operator = Operator(id: nat, clearsTimestamps: bool, shape: Shape, inputs: seq<Operator>)

  datatype PlanError = UnsupportedProtocol | PolicyNeedsProtocol | OutOfRange | Duplicate | IdOverflow

  const I64_MAX: nat := 0x7fff_ffff_ffff_ffff
  const U64_MAX: nat := 0xffff_ffff_ffff_ffff

  /** The check made before a node's identity is looked at. */
  predicate PolicyAllowed(op: Operator, version: nat) {
    op.clearsTimestamps ==> version >= 3
  }

  /** The check made after it. */
  predicate ShapeAllowed(op: Operator, version: nat) {
    match op.shape
    case LookupJoin => version >= 3
    case WindowJoin(native) => native ==> version >= 3 && op.clearsTimestamps
    case Calc(preserves) => preserves ==> version >= 2
    case _ => true
  }

  function Visited(op: Operator): seq<Operator> {
    if op.shape.Unvisited? then [] else op.inputs
  }

  /** The lowest identity from `next` on that is not taken. */
  function Search(next: nat, taken: set<nat>): (r: Option<nat>)
    requires next <= U64_MAX
    ensures r.Some? ==> next <= r.value <= U64_MAX && r.value !in taken
    ensures r.Some? ==> forall m :: next <= m < r.value ==> m in taken
    ensures r.None? ==> forall m :: next <= m <= U64_MAX ==> m in taken
    decreases U64_MAX - next
  {
    if next !in taken then Some(next)
    else if next == U64_MAX then None
    else Search(next + 1, taken)
  }

  datatype Ids = Ids(next: nat, taken: set<nat>)

  /** One node's identity: with `next` zero the node is only reserved. */
  function Identify(id: nat, ids: Ids): (r: Result<(nat, Ids), PlanError>)
    requires ids.next <= U64_MAX
    ensures r.Ok? ==> r.value.1.next <= U64_MAX && (r.value.1.next == 0 <==> ids.next == 0)
  {
    if ids.next == 0 then
      if id > I64_MAX then Err(OutOfRange)
      else if id == 0 then Ok((id, ids))
      else if id in ids.taken then Err(Duplicate)
      else Ok((id, ids.(taken := ids.taken + {id})))
    else if id != 0 then Ok((id, ids))
    else match Search(ids.next, ids.taken)
      case None => Err(IdOverflow)
      case Some(n) => Ok((n, Ids(n, ids.taken + {n})))
  }

  function AssignTree(op: Operator, ids: Ids, version: nat): (r: Result<(Operator, Ids), PlanError>)
    requires ids.next <= U64_MAX
    ensures r.Ok? ==> r.value.1.next <= U64_MAX && (r.value.1.next == 0 <==> ids.next == 0)
    decreases op, 1
  {
    if !PolicyAllowed(op, version) then Err(PolicyNeedsProtocol)
    else match Identify(op.id, ids)
      case Err(e) => Err(e)
      case Ok((id, after)) =>
        if !ShapeAllowed(op, version) then Err(PolicyNeedsProtocol)
        else if op.shape.Unvisited? then Ok((op.(id := id), after))
        else match AssignEach(op.inputs, after, version)
          case Err(e) => Err(e)
          case Ok((inputs, last)) => Ok((op.(id := id, inputs := inputs), last))
  }

  function AssignEach(ops: seq<Operator>, ids: Ids, version: nat): (r: Result<(seq<Operator>, Ids), PlanError>)
    requires ids.next <= U64_MAX
    ensures r.Ok? ==> r.value.1.next <= U64_MAX && (r.value.1.next == 0 <==> ids.next == 0)
    decreases ops, 0
  {
    if ops == [] then Ok(([], ids))
    else match AssignTree(ops[0], ids, version)
      case Err(e) => Err(e)
      case Ok((op, after)) =>
        match AssignEach(ops[1..], after, version)
        case Err(e) => Err(e)
        case Ok((rest, last)) => Ok(([op] + rest, last))
  }

  /** `decode_plan` on a decoded root. */
  function DecodePlan(root: Operator, version: nat): Result<Operator, PlanError> {
    if !(1 <= version <= 3) then Err(UnsupportedProtocol)
    else match AssignTree(root, Ids(0, {}), version)
      case Err(e) => Err(e)
      case Ok((reserved, ids)) =>
        match AssignTree(reserved, Ids(1, ids.taken), version)
        case Err(e) => Err(e)
        case Ok((taken, _)) => Ok(taken)
  }

  // ---- the recursive visitor as written --------------------------------------------------

  method FindFree(next: nat, taken: set<nat>) returns (r: Option<nat>)
    requires next <= U64_MAX
    ensures r == Search(next, taken)
  {
    var n := next;
    while n in taken
      invariant next <= n <= U64_MAX && Search(next, taken) == Search(n, taken)
      decreases U64_MAX - n
    {
      if n == U64_MAX {
        return None;
      }
      n := n + 1;
    }
    return Some(n);
  }

  /** `assign_plan_node_ids`; the owned tree is rebuilt instead of being updated in place. */
  method AssignPlanNodeIds(op: Operator, ids: Ids, version: nat) returns (r: Result<(Operator, Ids), PlanError>)
    requires ids.next <= U64_MAX
    ensures r == AssignTree(op, ids, version)
    decreases op
  {
    if op.clearsTimestamps && version < 3 {
      return Err(PolicyNeedsProtocol);
    }
    var (next, taken, id) := (ids.next, ids.taken, op.id);
    if next == 0 {
      if id > I64_MAX {
        return Err(OutOfRange);
      }
      if id != 0 {
        if id in taken {
          return Err(Duplicate);
        }
        taken := taken + {id};
      }
    } else if id == 0 {
      var free := FindFree(next, taken);
      if free.None? {
        return Err(IdOverflow);
      }
      next := free.value;
      id := next;
      taken := taken + {id};
    }
    if !ShapeAllowed(op, version) {
      return Err(PolicyNeedsProtocol);
    }
    var after := Ids(next, taken);
    if op.shape.Unvisited? {
      return Ok((op.(id := id), after));
    }
    var inputs: seq<Operator> := [];
    PrependNone(AssignEach(op.inputs, after, version));
    for i := 0 to |op.inputs|
      invariant after.next <= U64_MAX
      invariant AssignEach(op.inputs, Ids(next, taken), version)
                == Prepend(inputs, AssignEach(op.inputs[i..], after, version))
    {
      var child := AssignPlanNodeIds(op.inputs[i], after, version);
      if child.Err? {
        return Err(child.error);
      }
      assert op.inputs[i..][1..] == op.inputs[i + 1..];
      PrependMore(inputs, child.value.0, AssignEach(op.inputs[i + 1..], child.value.1, version));
      inputs := inputs + [child.value.0];
      after := child.value.1;
    }
    assert inputs + [] == inputs;
    return Ok((op.(id := id, inputs := inputs), after));
  }

  method DecodeRoot(root: Operator, version: nat) returns (r: Result<Operator, PlanError>)
    ensures r == DecodePlan(root, version)
  {
    if !(1 <= version <= 3) {
      return Err(UnsupportedProtocol);
    }
    var reserved := AssignPlanNodeIds(root, Ids(0, {}), version);
    if reserved.Err? {
      return Err(reserved.error);
    }
    var (tree, ids) := reserved.value;
    var assigns := AssignPlanNodeIds(tree, Ids(1, ids.taken), version);
    if assigns.Err? {
      return Err(assigns.error);
    }
    return Ok(assigns.value.0);
  }

  ghost function Prepend(done: seq<Operator>, rest: Result<(seq<Operator>, Ids), PlanError>)
    : Result<(seq<Operator>, Ids), PlanError>
  {
    match rest
    case Err(e) => Err(e)
    case Ok((ops, ids)) => Ok((done + ops, ids))
  }

  lemma PrependNone(rest: Result<(seq<Operator>, Ids), PlanError>)
    ensures Prepend([], rest) == rest
  {
    if rest.Ok? {
      assert [] + rest.value.0 == rest.value.0;
    }
  }

  lemma PrependMore(done: seq<Operator>, op: Operator, rest: Result<(seq<Operator>, Ids), PlanError>)
    ensures Prepend(done, Prepend([op], rest)) == Prepend(done + [op], rest)
  {
    if rest.Ok? {
      ConcatAssoc(done, [op], rest.value.0);
    }
  }

  // ---- the same on the preorder list of identities ---------------------------------------

  /** Identities of the visited nodes in preorder. */
  function Preorder(op: Operator): seq<nat>
    decreases op, 1
  {
    [op.id] + (if op.shape.Unvisited? then [] else PreorderEach(op.inputs))
  }

  function PreorderEach(ops: seq<Operator>): seq<nat>
    decreases ops, 0
  {
    if ops == [] then [] else Preorder(ops[0]) + PreorderEach(ops[1..])
  }

  /** Every visited node passes the protocol checks. */
  predicate Allowed(op: Operator, version: nat)
    decreases op, 1
  {
    && PolicyAllowed(op, version) && ShapeAllowed(op, version)
    && (op.shape.Unvisited? || AllAllowed(op.inputs, version))
  }

  predicate AllAllowed(ops: seq<Operator>, version: nat)
    decreases ops, 0
  {
    ops == [] || (Allowed(ops[0], version) && AllAllowed(ops[1..], version))
  }

  /** The nodes the visitor enters, in preorder. */
  function Nodes(op: Operator): seq<Operator>
    decreases op, 1
  {
    [op] + (if op.shape.Unvisited? then [] else NodesEach(op.inputs))
  }

  function NodesEach(ops: seq<Operator>): seq<Operator>
    decreases ops, 0
  {
    if ops == [] then [] else Nodes(ops[0]) + NodesEach(ops[1..])
  }

  /** What the protocol version must be for one operator: 3 for one that clears record timestamps
      or joins a lookup, 3 and clearing for a native window join, 2 for a calc that preserves the
      envelope. */
  predicate Permitted(op: Operator, version: nat) {
    && (op.clearsTimestamps ==> version >= 3)
    && (op.shape.LookupJoin? ==> version >= 3)
    && (op.shape == WindowJoin(true) ==> version >= 3 && op.clearsTimestamps)
    && (op.shape == Calc(true) ==> version >= 2)
  }

  /** The protocol checks pass exactly when every node the visitor enters is permitted. */
  lemma {:induction false} AllowedExactly(op: Operator, version: nat)
    ensures Allowed(op, version) <==> forall n :: n in Nodes(op) ==> Permitted(n, version)
    ensures |Nodes(op)| == |Preorder(op)| && forall i :: 0 <= i < |Nodes(op)| ==> Preorder(op)[i] == Nodes(op)[i].id
    decreases op, 1
  {
    if op.shape.Unvisited? {
    } else {
      AllAllowedExactly(op.inputs, version);
    }
    var (rest, ids) := (if op.shape.Unvisited? then [] else NodesEach(op.inputs),
                        if op.shape.Unvisited? then [] else PreorderEach(op.inputs));
    assert Nodes(op) == [op] + rest && Preorder(op) == [op.id] + ids;
    assert forall n :: n in Nodes(op) <==> n == op || n in rest;
    assert PolicyAllowed(op, version) && ShapeAllowed(op, version) <==> Permitted(op, version);
  }

  lemma {:induction false} AllAllowedExactly(ops: seq<Operator>, version: nat)
    ensures AllAllowed(ops, version) <==> forall n :: n in NodesEach(ops) ==> Permitted(n, version)
    ensures |NodesEach(ops)| == |PreorderEach(ops)|
    ensures forall i :: 0 <= i < |NodesEach(ops)| ==> PreorderEach(ops)[i] == NodesEach(ops)[i].id
    decreases ops, 0
  {
    if ops == [] {
    } else {
      AllowedExactly(ops[0], version);
      AllAllowedExactly(ops[1..], version);
      var (a, b) := (Nodes(ops[0]), NodesEach(ops[1..]));
      assert NodesEach(ops) == a + b && PreorderEach(ops) == Preorder(ops[0]) + PreorderEach(ops[1..]);
      assert forall n :: n in a + b <==> n in a || n in b;
    }
  }

  function IdentifyAll(list: seq<nat>, ids: Ids): (r: Result<(seq<nat>, Ids), PlanError>)
    requires ids.next <= U64_MAX
    ensures r.Ok? ==> r.value.1.next <= U64_MAX
    decreases |list|
  {
    if list == [] then Ok(([], ids))
    else match Identify(list[0], ids)
      case Err(e) => Err(e)
      case Ok((id, after)) =>
        match IdentifyAll(list[1..], after)
        case Err(e) => Err(e)
        case Ok((rest, last)) => Ok(([id] + rest, last))
  }

  lemma {:induction false} IdentifyConcat(a: seq<nat>, b: seq<nat>, ids: Ids)
    requires ids.next <= U64_MAX
    ensures IdentifyAll(a + b, ids) ==
      match IdentifyAll(a, ids)
      case Err(e) => Err(e)
      case Ok((left, mid)) =>
        match IdentifyAll(b, mid)
        case Err(e) => Err(e)
        case Ok((right, last)) => Ok((left + right, last))
    decreases |a|
  {
    hide Identify;
    if a == [] {
      assert a + b == b;
      if IdentifyAll(b, ids).Ok? {
        assert [] + IdentifyAll(b, ids).value.0 == IdentifyAll(b, ids).value.0;
      }
    } else {
      TailOfConcat(a, b);
      var first := Identify(a[0], ids);
      if first.Ok? {
        var (id, after) := first.value;
        IdentifyConcat(a[1..], b, after);
        var left := IdentifyAll(a[1..], after);
        if left.Ok? {
          var right := IdentifyAll(b, left.value.1);
          if right.Ok? {
            ConcatAssoc([id], left.value.0, right.value.0);
          }
        }
      }
    }
  }

  /** A tree with every identity erased. */
  function Skeleton(op: Operator): Operator
    decreases op, 1
  {
    op.(id := 0, inputs := if op.shape.Unvisited? then op.inputs else SkeletonEach(op.inputs))
  }

  function SkeletonEach(ops: seq<Operator>): seq<Operator>
    decreases ops, 0
  {
    if ops == [] then [] else [Skeleton(ops[0])] + SkeletonEach(ops[1..])
  }

  /** On a tree that passes the protocol checks the visitor does what the list pass does, and
      only identities change; on any other tree it fails, for the protocol or as the list pass does. */
  lemma {:induction false} TreeIsList(op: Operator, ids: Ids, version: nat)
    requires ids.next <= U64_MAX
    ensures AssignTree(op, ids, version).Ok? <==> Allowed(op, version) && IdentifyAll(Preorder(op), ids).Ok?
    ensures AssignTree(op, ids, version).Ok? ==>
      var (out, last) := AssignTree(op, ids, version).value;
      && IdentifyAll(Preorder(op), ids) == Ok((Preorder(out), last))
      && Allowed(out, version) && Skeleton(out) == Skeleton(op)
    ensures AssignTree(op, ids, version).Err? ==>
      var e := AssignTree(op, ids, version).error;
      (e == PolicyNeedsProtocol && !Allowed(op, version)) || IdentifyAll(Preorder(op), ids) == Err(e)
    decreases op, 1
  {
    hide Identify;
    var (head, tail) := ([op.id], if op.shape.Unvisited? then [] else PreorderEach(op.inputs));
    IdentifyConcat(head, tail, ids);
    if Identify(op.id, ids).Ok? {
      var (id, after) := Identify(op.id, ids).value;
      assert IdentifyAll(head, ids) == Ok(([id] + [], after)) by { assert head[1..] == []; }
      assert [id] + [] == [id];
      if !op.shape.Unvisited? {
        EachIsList(op.inputs, after, version);
      }
    }
  }

  lemma {:induction false} EachIsList(ops: seq<Operator>, ids: Ids, version: nat)
    requires ids.next <= U64_MAX
    ensures AssignEach(ops, ids, version).Ok? <==>
              AllAllowed(ops, version) && IdentifyAll(PreorderEach(ops), ids).Ok?
    ensures AssignEach(ops, ids, version).Ok? ==>
      var (out, last) := AssignEach(ops, ids, version).value;
      && IdentifyAll(PreorderEach(ops), ids) == Ok((PreorderEach(out), last))
      && AllAllowed(out, version) && SkeletonEach(out) == SkeletonEach(ops)
    ensures AssignEach(ops, ids, version).Err? ==>
      var e := AssignEach(ops, ids, version).error;
      (e == PolicyNeedsProtocol && !AllAllowed(ops, version)) || IdentifyAll(PreorderEach(ops), ids) == Err(e)
    decreases ops, 0
  {
    hide Identify;
    if ops == [] {
    } else {
      TreeIsList(ops[0], ids, version);
      IdentifyConcat(Preorder(ops[0]), PreorderEach(ops[1..]), ids);
      if AssignTree(ops[0], ids, version).Ok? {
        var (op, after) := AssignTree(ops[0], ids, version).value;
        EachIsList(ops[1..], after, version);
        if AssignEach(ops[1..], after, version).Ok? {
          var rest := AssignEach(ops[1..], after, version).value.0;
          assert ([op] + rest)[1..] == rest;
        }
      }
    }
  }

  // ---- the reservation pass --------------------------------------------------------------

  function Explicit(list: seq<nat>): set<nat> {
    set id | id in list && id != 0
  }

  /** Every identity is in range and the explicit ones are new and distinct. */
  ghost predicate Reservable(list: seq<nat>, taken: set<nat>) {
    && (forall i :: 0 <= i < |list| ==> list[i] <= I64_MAX && (list[i] != 0 ==> list[i] !in taken))
    && (forall i, j :: 0 <= i < j < |list| && list[i] != 0 ==> list[i] != list[j])
  }

  lemma {:induction false} Reserve(list: seq<nat>, taken: set<nat>)
    ensures IdentifyAll(list, Ids(0, taken)).Ok? <==> Reservable(list, taken)
    ensures Reservable(list, taken) ==>
              IdentifyAll(list, Ids(0, taken)) == Ok((list, Ids(0, taken + Explicit(list))))
    decreases |list|
  {
    hide Reservable, Explicit, Search;
    if list == [] {
      NothingToReserve(taken);
    } else {
      var (id, rest) := (list[0], list[1..]);
      var more := if id == 0 then taken else taken + {id};
      Reserve(rest, more);
      assert list == [id] + rest;
      ReservableSplits(id, rest, taken);
      ExplicitCons(id, rest);
      assert taken + Explicit(list) == more + Explicit(rest);
    }
  }

  lemma NothingToReserve(taken: set<nat>)
    ensures Reservable([], taken) && taken + Explicit([]) == taken
  {
  }

  lemma ReservableSplits(id: nat, rest: seq<nat>, taken: set<nat>)
    ensures Reservable([id] + rest, taken) <==>
              && id <= I64_MAX && (id != 0 ==> id !in taken)
              && Reservable(rest, if id == 0 then taken else taken + {id})
  {
    var (list, more) := ([id] + rest, if id == 0 then taken else taken + {id});
    assert forall i :: 0 <= i < |rest| ==> rest[i] == list[i + 1];
    if Reservable(list, taken) {
      assert list[0] == id;
      forall i | 0 <= i < |rest| ensures rest[i] <= I64_MAX && (rest[i] != 0 ==> rest[i] !in more) {
        assert rest[i] == list[i + 1];
      }
    } else if id <= I64_MAX && (id != 0 ==> id !in taken) && Reservable(rest, more) {
      forall i, j | 0 <= i < j < |list| && list[i] != 0 ensures list[i] != list[j] {
        assert list[j] == rest[j - 1];
      }
    }
  }

  // ---- the assignment pass ---------------------------------------------------------------

  /** `out` keeps the explicit identities of `list` and gives the others, in increasing order,
      the smallest positive identities not taken. */
  ghost predicate Filled(list: seq<nat>, out: seq<nat>, taken: set<nat>) {
    && |out| == |list|
    && (forall i :: 0 <= i < |list| && list[i] != 0 ==> out[i] == list[i])
    && (forall i :: 0 <= i < |list| && list[i] == 0 ==> out[i] > 0 && out[i] !in taken)
    && (forall i, j :: 0 <= i < j < |list| && list[i] == 0 && list[j] == 0 ==> out[i] < out[j])
    && (forall i, m :: 0 <= i < |list| && list[i] == 0 && 0 < m < out[i] && m !in taken ==> GivenBefore(list, out, i, m))
  }

  /** `m` was given to an anonymous node before position `i`. */
  ghost predicate GivenBefore(list: seq<nat>, out: seq<nat>, i: nat, m: nat)
    requires i <= |list| == |out|
  {
    exists j :: 0 <= j < i && list[j] == 0 && out[j] == m
  }

  /** Everything positive below `next` is taken, and nothing outside the range is. */
  ghost predicate Settled(ids: Ids) {
    && 0 < ids.next <= U64_MAX && (forall m :: 0 < m < ids.next ==> m in ids.taken)
    && (forall m :: m in ids.taken ==> 0 < m <= U64_MAX)
  }

  function Anonymous(list: seq<nat>): nat {
    if list == [] then 0 else (if list[0] == 0 then 1 else 0) + Anonymous(list[1..])
  }

  /** The second pass succeeds exactly when there are identities left for all anonymous nodes. */
  lemma {:induction false} Fill(list: seq<nat>, ids: Ids)
    requires Settled(ids)
    ensures IdentifyAll(list, ids).Ok? <==> Anonymous(list) == 0 || |ids.taken| + Anonymous(list) <= U64_MAX
    ensures IdentifyAll(list, ids).Ok? ==> Filled(list, IdentifyAll(list, ids).value.0, ids.taken)
    decreases |list|
  {
    if list == [] {
    } else {
      var rest := list[1..];
      if list[0] != 0 {
        Fill(rest, ids);
        if IdentifyAll(rest, ids).Ok? {
          FilledExplicit(list[0], rest, IdentifyAll(rest, ids).value.0, ids.taken);
          assert list == [list[0]] + rest;
        }
      } else {
        SearchFails(ids);
        if Search(ids.next, ids.taken).Some? {
          var n := Search(ids.next, ids.taken).value;
          var after := Ids(n, ids.taken + {n});
          Fill(rest, after);
          if IdentifyAll(rest, after).Ok? {
            FilledAnonymous(n, rest, IdentifyAll(rest, after).value.0, ids.taken);
            assert list == [0] + rest;
          }
          TakenFits(after.taken, U64_MAX);
        }
      }
    }
  }

  /** The search runs out exactly when every identity is taken. */
  lemma SearchFails(ids: Ids)
    requires Settled(ids)
    ensures Search(ids.next, ids.taken).None? <==> |ids.taken| >= U64_MAX
  {
    if Search(ids.next, ids.taken).None? {
      forall m | 0 < m <= U64_MAX ensures m in ids.taken {
        assert m < ids.next || ids.next <= m;
      }
      FullSet(ids.taken, U64_MAX);
    } else {
      TakenFits(ids.taken + {Search(ids.next, ids.taken).value}, U64_MAX);
    }
  }

  /** The search for a free identity never overflows while one is left. */
  lemma NeverOverflows(ids: Ids)
    requires Settled(ids) && |ids.taken| < U64_MAX
    ensures Search(ids.next, ids.taken).Some?
  {
    SearchFails(ids);
  }

  lemma {:induction false} FullSet(taken: set<nat>, n: nat)
    requires forall m :: 0 < m <= n ==> m in taken
    ensures |taken| >= n
    decreases n
  {
    if n == 0 {
    } else {
      FullSet(taken - {n}, n - 1);
    }
  }

  lemma {:induction false} TakenFits(taken: set<nat>, n: nat)
    requires forall m :: m in taken ==> 0 < m <= n
    ensures |taken| <= n
    decreases n
  {
    if n == 0 {
      assert taken == {};
    } else {
      TakenFits(taken - {n}, n - 1);
      if n !in taken {
        assert taken - {n} == taken;
      }
    }
  }

  lemma FilledExplicit(id: nat, rest: seq<nat>, out: seq<nat>, taken: set<nat>)
    requires id != 0 && Filled(rest, out, taken)
    ensures Filled([id] + rest, [id] + out, taken)
  {
    var (l, o) := ([id] + rest, [id] + out);
    forall i, m | 0 <= i < |l| && l[i] == 0 && 0 < m < o[i] && m !in taken ensures GivenBefore(l, o, i, m) {
      assert GivenBefore(rest, out, i - 1, m);
      var j :| 0 <= j < i - 1 && rest[j] == 0 && out[j] == m;
      assert l[j + 1] == 0 && o[j + 1] == m;
    }
    forall i, j | 0 <= i < j < |l| && l[i] == 0 && l[j] == 0 ensures o[i] < o[j] {
      assert out[i - 1] < out[j - 1];
    }
  }

  lemma FilledAnonymous(n: nat, rest: seq<nat>, out: seq<nat>, taken: set<nat>)
    requires n > 0 && n !in taken && (forall m :: 0 < m < n ==> m in taken)
    requires Filled(rest, out, taken + {n})
    ensures Filled([0] + rest, [n] + out, taken)
  {
    var (l, o) := ([0] + rest, [n] + out);
    forall i | 0 < i < |l| && l[i] == 0 ensures o[i] > n && o[i] !in taken {
      LaterIsHigher(n, rest, out, taken, i - 1);
    }
    AnonymousRise(n, rest, out, taken);
    forall i, m | 0 <= i < |l| && l[i] == 0 && 0 < m < o[i] && m !in taken ensures GivenBefore(l, o, i, m) {
      LowerIsGiven(n, rest, out, taken, i, m);
    }
  }

  lemma AnonymousRise(n: nat, rest: seq<nat>, out: seq<nat>, taken: set<nat>)
    requires forall m :: 0 < m < n ==> m in taken
    requires Filled(rest, out, taken + {n})
    ensures var (l, o) := ([0] + rest, [n] + out);
      forall i, j :: 0 <= i < j < |l| && l[i] == 0 && l[j] == 0 ==> o[i] < o[j]
  {
    var (l, o) := ([0] + rest, [n] + out);
    forall i, j | 0 <= i < j < |l| && l[i] == 0 && l[j] == 0 ensures o[i] < o[j] {
      if i == 0 {
        LaterIsHigher(n, rest, out, taken, j - 1);
      } else {
        assert out[i - 1] < out[j - 1];
      }
    }
  }

  lemma LaterIsHigher(n: nat, rest: seq<nat>, out: seq<nat>, taken: set<nat>, i: nat)
    requires forall m :: 0 < m < n ==> m in taken
    requires Filled(rest, out, taken + {n}) && i < |rest| && rest[i] == 0
    ensures out[i] > n && out[i] !in taken
  {
    assert out[i] !in taken + {n} && out[i] > 0;
  }

  lemma LowerIsGiven(n: nat, rest: seq<nat>, out: seq<nat>, taken: set<nat>, i: nat, m: nat)
    requires (forall m :: 0 < m < n ==> m in taken) && Filled(rest, out, taken + {n})
    requires i <= |rest| && 0 < m && m !in taken
    requires if i == 0 then m < n else rest[i - 1] == 0 && m < out[i - 1]
    ensures GivenBefore([0] + rest, [n] + out, i, m)
  {
    var (l, o) := ([0] + rest, [n] + out);
    if m == n {
      assert l[0] == 0 && o[0] == m;
    } else {
      assert GivenBefore(rest, out, i - 1, m);
      var j :| 0 <= j < i - 1 && rest[j] == 0 && out[j] == m;
      assert l[j + 1] == 0 && o[j + 1] == m;
    }
  }

  // ---- decoding a plan -------------------------------------------------------------------

  /** Decoding succeeds exactly when the protocol allows every visited node, the explicit
      identities are in range and distinct, and there are no more nodes than identities; the
      overflow error is reported only for more nodes than that. On success explicit identities
      are kept and the anonymous nodes, in preorder, receive the smallest positive identities no
      explicit node uses. */
  lemma IdentitiesAreAssigned(root: Operator, version: nat)
    ensures DecodePlan(root, version).Ok? <==>
              && 1 <= version <= 3 && Allowed(root, version) && Reservable(Preorder(root), {})
              && |Preorder(root)| <= U64_MAX
    ensures DecodePlan(root, version) == Err(IdOverflow) ==> |Preorder(root)| > U64_MAX
    ensures DecodePlan(root, version).Ok? ==>
              Filled(Preorder(root), Preorder(DecodePlan(root, version).value), Explicit(Preorder(root)))
    ensures DecodePlan(root, version).Ok? ==> Skeleton(DecodePlan(root, version).value) == Skeleton(root)
  {
    hide Skeleton, IdentifyAll, Preorder, Allowed, AssignTree, Filled, Reservable, Explicit, Anonymous;
    var list := Preorder(root);
    TreeIsList(root, Ids(0, {}), version);
    Reserve(list, {});
    if AssignTree(root, Ids(0, {}), version).Ok? {
      var (reserved, ids) := AssignTree(root, Ids(0, {}), version).value;
      assert Preorder(reserved) == list && ids.taken == Explicit(list) by {
        assert {} + Explicit(list) == Explicit(list);
      }
      ReservedIsSettled(list);
      CountSplits(list);
      Fill(list, Ids(1, ids.taken));
      TreeIsList(reserved, Ids(1, ids.taken), version);
      FewExplicit(list);
    } else {
      ReserveRefuses(list, {});
    }
  }

  lemma ReservedIsSettled(list: seq<nat>)
    requires Reservable(list, {})
    ensures Settled(Ids(1, Explicit(list)))
  {
  }

  /** Explicit identities are positive Java longs, so they alone never fill the range. */
  lemma FewExplicit(list: seq<nat>)
    requires Reservable(list, {})
    ensures |Explicit(list)| <= I64_MAX
  {
    TakenFits(Explicit(list), I64_MAX);
  }

  /** Distinct explicit nodes and anonymous nodes are all nodes. */
  lemma {:induction false} CountSplits(list: seq<nat>)
    requires Reservable(list, {})
    ensures |Explicit(list)| + Anonymous(list) == |list|
    decreases |list|
  {
    hide Reservable;
    if list == [] {
      assert Explicit(list) == {};
    } else {
      ReservableTail(list);
      CountSplits(list[1..]);
    }
  }

  lemma ReservableTail(list: seq<nat>)
    requires list != [] && Reservable(list, {})
    ensures Reservable(list[1..], {})
    ensures |Explicit(list)| == |Explicit(list[1..])| + (if list[0] == 0 then 0 else 1)
  {
    hide Explicit;
    var (id, rest) := (list[0], list[1..]);
    assert forall j :: 0 <= j < |rest| ==> rest[j] == list[j + 1];
    assert list == [id] + rest;
    ExplicitCons(id, rest);
  }

  lemma ExplicitCons(id: nat, rest: seq<nat>)
    ensures Explicit([id] + rest) == if id == 0 then Explicit(rest) else Explicit(rest) + {id}
    ensures id !in rest ==> id !in Explicit(rest)
  {
    assert forall x :: x in [id] + rest <==> x == id || x in rest;
  }

  /** Two nodes of a list carry the same explicit identity. */
  ghost predicate Repeats(list: seq<nat>) {
    exists i, j :: 0 <= i < j < |list| && list[i] != 0 && list[i] == list[j]
  }

  /** The reservation pass refuses an identity that is out of range or not new. */
  lemma {:induction false} ReserveRefuses(list: seq<nat>, taken: set<nat>)
    ensures IdentifyAll(list, Ids(0, taken)).Err? ==>
      var e := IdentifyAll(list, Ids(0, taken)).error;
      || (e == OutOfRange && exists id :: id in list && id > I64_MAX)
      || (e == Duplicate && (Repeats(list) || exists id :: id in list && id != 0 && id in taken))
    decreases |list|
  {
    hide Search, Repeats;
    if list == [] {
    } else {
      var (id, rest) := (list[0], list[1..]);
      var more := if id == 0 then taken else taken + {id};
      ReserveRefuses(rest, more);
      RepeatsLater(list);
      assert id in list && forall x :: x in rest ==> x in list;
      if x :| x in rest && x != 0 && x in more {
        assert x == id || x in taken;
      }
    }
  }

  lemma RepeatsLater(list: seq<nat>)
    requires list != []
    ensures Repeats(list[1..]) ==> Repeats(list)
    ensures list[0] != 0 && list[0] in list[1..] ==> Repeats(list)
  {
    var rest := list[1..];
    if Repeats(rest) {
      var i, j :| 0 <= i < j < |rest| && rest[i] != 0 && rest[i] == rest[j];
      assert list[i + 1] == list[j + 1];
    }
    if list[0] != 0 && list[0] in rest {
      var j :| 0 <= j < |rest| && rest[j] == list[0];
      assert list[0] == list[j + 1];
    }
  }

  /** The assignment pass can only run out of identities. */
  lemma {:induction false} FillRefuses(list: seq<nat>, ids: Ids)
    requires 0 < ids.next <= U64_MAX
    ensures IdentifyAll(list, ids).Err? ==> IdentifyAll(list, ids).error == IdOverflow
    decreases |list|
  {
    if list == [] {
    } else if Identify(list[0], ids).Ok? {
      FillRefuses(list[1..], Identify(list[0], ids).value.1);
    }
  }

  /** Every refusal names its cause: the protocol version, an operator the version does not
      permit, an identity no Java long holds, a repeated one, or more nodes than identities. */
  lemma RefusalsAreNamed(root: Operator, version: nat)
    ensures DecodePlan(root, version).Err? ==>
      match DecodePlan(root, version).error
      case UnsupportedProtocol => !(1 <= version <= 3)
      case PolicyNeedsProtocol => exists n :: n in Nodes(root) && !Permitted(n, version)
      case OutOfRange => exists id :: id in Preorder(root) && id > 0x7fff_ffff_ffff_ffff
      case Duplicate => Repeats(Preorder(root))
      case IdOverflow => |Preorder(root)| > U64_MAX
  {
    hide IdentifyAll, Preorder, Allowed, AssignTree, Permitted, Nodes, Repeats;
    var list := Preorder(root);
    IdentitiesAreAssigned(root, version);
    AllowedExactly(root, version);
    TreeIsList(root, Ids(0, {}), version);
    ReserveRefuses(list, {});
    if AssignTree(root, Ids(0, {}), version).Ok? {
      var (reserved, ids) := AssignTree(root, Ids(0, {}), version).value;
      TreeIsList(reserved, Ids(1, ids.taken), version);
      FillRefuses(Preorder(reserved), Ids(1, ids.taken));
    }
  }

  /** After decoding, visited nodes have positive, pairwise distinct identities. */
  lemma IdentitiesAreDistinct(root: Operator, version: nat, i: nat, j: nat)
    requires DecodePlan(root, version).Ok?
    requires i < j < |Preorder(root)|
    ensures var out := Preorder(DecodePlan(root, version).value);
      |out| == |Preorder(root)| && out[i] > 0 && out[j] > 0 && out[i] != out[j]
  {
    hide DecodePlan, Preorder;
    IdentitiesAreAssigned(root, version);
    var (list, out) := (Preorder(root), Preorder(DecodePlan(root, version).value));
    if list[i] != 0 {
      assert list[i] in Explicit(list);
    }
    if list[j] != 0 {
      assert list[j] in Explicit(list);
    }
  }
}
