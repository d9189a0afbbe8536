/** Credit accounting between native allocations and Flink's memory: host reservations and
    DataFusion pools that all draw on one broker. Several brokers may exist side by side; credit
    never moves between them. */
module MemoryPool {
  import opened Bytes

  const I64_MAX: nat := 0x7fff_ffff_ffff_ffff

  datatype MemoryError = ResourcesExhausted | InternalError | External

  /** The ledger of one broker. `others` is what the rest of the slot holds of the same limit.
      A broker that forwards transfers keeps them charged, first as `pending` credit and then as
      memory of Arrow buffers; one that does not forward releases them. */
  datatype Broker = Broker(limit: nat, forwards: bool, reserved: nat, others: nat, pending: nat, arrow: nat)

  // ---- the broker ------------------------------------------------------------------------

  function TryReserve(b: Broker, n: nat): (Broker, Result<bool, MemoryError>) {
    if n > I64_MAX then (b, Err(ResourcesExhausted))
    else if n > b.limit - b.reserved - b.others then (b, Ok(false))
    else (b.(reserved := b.reserved + n), Ok(true))
  }

  function Release(b: Broker, n: nat): (Broker, Result<(), MemoryError>) {
    if n == 0 then (b, Ok(()))
    else if n > I64_MAX then (b, Err(InternalError))
    else if n > b.reserved then (b, Err(External))
    else (b.(reserved := b.reserved - n), Ok(()))
  }

  function TransferToArrow(b: Broker, n: nat): (Broker, Result<(), MemoryError>) {
    if !b.forwards then Release(b, n)
    else if n == 0 then (b, Ok(()))
    else if n > I64_MAX then (b, Err(InternalError))
    else if b.pending != 0 || n > b.reserved then (b, Err(External))
    else (b.(pending := n), Ok(()))
  }

  /** Arrow's allocation callback: pending credit first, the rest from the slot. */
  function ArrowAllocate(b: Broker, n: nat): Broker {
    var transferred := if n < b.pending then n else b.pending;
    match TryReserve(b, n - transferred)
    case (after, Ok(true)) => after.(pending := b.pending - transferred, arrow := b.arrow + n)
    case _ => b
  }

  function ArrowRelease(b: Broker, n: nat): Broker {
    if n <= b.arrow && Release(b, n).1.Ok? then Release(b, n).0.(arrow := b.arrow - n) else b
  }

  /** Unused pending credit goes back when the transfer is finished. */
  function FinishArrowTransfer(b: Broker): Broker {
    if Release(b, b.pending).1.Ok? then Release(b, b.pending).0.(pending := 0) else b
  }

  // ---- operations on one owner -----------------------------------------------------------

  datatype Credit = Credit(broker: Broker, size: nat)

  /** `HostMemoryReservation::try_grow`. */
  function Grow(c: Credit, n: nat): (Credit, Result<(), MemoryError>) {
    if n == 0 then (c, Ok(()))
    else if c.size + n > USIZE_MAX then (c, Err(ResourcesExhausted))
    else match TryReserve(c.broker, n)
      case (_, Err(e)) => (c, Err(e))
      case (_, Ok(false)) => (c, Err(ResourcesExhausted))
      case (b, Ok(true)) => (Credit(b, c.size + n), Ok(()))
  }

  function Resize(c: Credit, size: nat): (Credit, Result<(), MemoryError>) {
    if size > c.size then Grow(c, size - c.size)
    else match Release(c.broker, c.size - size)
      case (_, Err(e)) => (c, Err(e))
      case (b, Ok(_)) => (Credit(b, size), Ok(()))
  }

  function Transfer(c: Credit, n: nat): (Credit, Result<(), MemoryError>) {
    if n > c.size then (c, Err(InternalError))
    else match TransferToArrow(c.broker, n)
      case (_, Err(e)) => (c, Err(e))
      case (b, Ok(_)) => (Credit(b, c.size - n), Ok(()))
  }

  /** `Drop` for a reservation and for a pool. */
  function Dropped(c: Credit): (Broker, Result<(), MemoryError>) {
    if c.size == 0 then (c.broker, Ok(())) else Release(c.broker, c.size)
  }

  /** `FlinkMemoryPool::try_grow`: the pool's own limit is checked before the broker. */
  function PoolGrow(c: Credit, limit: Option<nat>, n: nat): (Credit, Result<(), MemoryError>) {
    if n == 0 then (c, Ok(()))
    else if c.size + n > USIZE_MAX then (c, Err(ResourcesExhausted))
    else if limit.Some? && c.size + n > limit.value then (c, Err(ResourcesExhausted))
    else match TryReserve(c.broker, n)
      case (_, Err(e)) => (c, Err(e))
      case (_, Ok(false)) => (c, Err(ResourcesExhausted))
      case (b, Ok(true)) => (Credit(b, c.size + n), Ok(()))
  }

  /** `FlinkMemoryPool::shrink`. */
  function PoolShrink(c: Credit, n: nat): (Credit, Result<(), MemoryError>)
    requires n <= c.size
  {
    if n == 0 then (c, Ok(()))
    else match Release(c.broker, n)
      case (_, Err(e)) => (c, Err(e))
      case (b, Ok(_)) => (Credit(b, c.size - n), Ok(()))
  }

  predicate InLimit(b: Broker) {
    b.reserved + b.others <= b.limit
  }

  function Held(b: Broker): nat {
    b.pending + b.arrow
  }

  /** The ledger moves by exactly what the owner gained or gave back, or the difference is handed
      to Arrow; an operation that fails changes nothing. */
  ghost predicate Balanced(before: Credit, after: Credit, ok: bool) {
    && after.broker.limit == before.broker.limit && after.broker.forwards == before.broker.forwards
    && after.broker.reserved - after.size - Held(after.broker)
       == before.broker.reserved - before.size - Held(before.broker)
    && after.broker.arrow == before.broker.arrow && after.broker.others == before.broker.others
    && (!after.broker.forwards ==> after.broker.pending == before.broker.pending)
    && (InLimit(before.broker) ==> InLimit(after.broker))
    && (!ok ==> after == before)
  }

  lemma GrowBalances(c: Credit, n: nat)
    ensures Balanced(c, Grow(c, n).0, Grow(c, n).1.Ok?)
  {
  }

  lemma ResizeBalances(c: Credit, size: nat)
    ensures Balanced(c, Resize(c, size).0, Resize(c, size).1.Ok?)
  {
    hide Grow;
    if size > c.size {
      GrowBalances(c, size - c.size);
    }
  }

  lemma TransferBalances(c: Credit, n: nat)
    ensures Balanced(c, Transfer(c, n).0, Transfer(c, n).1.Ok?)
  {
  }

  lemma PoolOperationsBalance(c: Credit, limit: Option<nat>, n: nat)
    ensures Balanced(c, PoolGrow(c, limit, n).0, PoolGrow(c, limit, n).1.Ok?)
    ensures n <= c.size ==> Balanced(c, PoolShrink(c, n).0, PoolShrink(c, n).1.Ok?)
  {
    assert Balanced(c, PoolGrow(c, limit, n).0, PoolGrow(c, limit, n).1.Ok?);
  }

  // ---- the objects -----------------------------------------------------------------------

  class MemoryBroker {
    const limit: nat
    const forwards: bool
    var reserved: nat
    var others: nat
    var pending: nat
    var arrow: nat
    /** How often the broker was called. */
    ghost var requests: nat

    ghost function Abs(): Broker
      reads this
    {
      Broker(limit, forwards, reserved, others, pending, arrow)
    }

    constructor (limit: nat, forwards: bool, others: nat)
      ensures Abs() == Broker(limit, forwards, 0, others, 0, 0) && requests == 0
    {
      this.limit := limit;
      this.forwards := forwards;
      this.others := others;
      reserved, pending, arrow := 0, 0, 0;
      requests := 0;
    }

    method Reserve(n: nat) returns (r: Result<bool, MemoryError>)
      modifies this
      ensures (Abs(), r) == TryReserve(old(Abs()), n) && requests == old(requests) + 1
    {
      requests := requests + 1;
      if n > I64_MAX {
        return Err(ResourcesExhausted);
      }
      if n > limit - reserved - others {
        return Ok(false);
      }
      reserved := reserved + n;
      return Ok(true);
    }

    method GiveBack(n: nat) returns (r: Result<(), MemoryError>)
      modifies this
      ensures (Abs(), r) == Release(old(Abs()), n) && requests == old(requests) + 1
    {
      requests := requests + 1;
      if n == 0 {
        return Ok(());
      }
      if n > I64_MAX {
        return Err(InternalError);
      }
      if n > reserved {
        return Err(External);
      }
      reserved := reserved - n;
      return Ok(());
    }

    method HandOver(n: nat) returns (r: Result<(), MemoryError>)
      modifies this
      ensures (Abs(), r) == TransferToArrow(old(Abs()), n) && requests == old(requests) + 1
    {
      if !forwards {
        r := GiveBack(n);
        return;
      }
      requests := requests + 1;
      if n == 0 {
        return Ok(());
      }
      if n > I64_MAX {
        return Err(InternalError);
      }
      if pending != 0 || n > reserved {
        return Err(External);
      }
      pending := n;
      return Ok(());
    }
  }

  class HostMemoryReservation {
    const broker: MemoryBroker
    var size: nat

    ghost function Abs(): Credit
      reads this, broker
    {
      Credit(broker.Abs(), size)
    }

    constructor (broker: MemoryBroker)
      ensures this.broker == broker && size == 0
    {
      this.broker := broker;
      size := 0;
    }

    method TryGrow(additional: nat) returns (r: Result<(), MemoryError>)
      modifies this, broker
      ensures (Abs(), r) == Grow(old(Abs()), additional)
      ensures broker.requests <= old(broker.requests) + (if additional == 0 then 0 else 1)
    {
      if additional == 0 {
        return Ok(());
      }
      var requested := size + additional;
      if requested > USIZE_MAX {
        return Err(ResourcesExhausted);
      }
      var granted := broker.Reserve(additional);
      if granted.Err? {
        return Err(granted.error);
      }
      if !granted.value {
        return Err(ResourcesExhausted);
      }
      size := requested;
      return Ok(());
    }

    /** Move admitted bytes to a new owner on the same broker. */
    method Split(n: nat) returns (r: Result<HostMemoryReservation, MemoryError>)
      modifies this
      ensures broker.Abs() == old(broker.Abs())
      ensures n > old(size) ==> r == Err(InternalError) && size == old(size)
      ensures n <= old(size) ==>
        && r.Ok? && fresh(r.value) && r.value.broker == broker
        && r.value.size == n && size + r.value.size == old(size)
    {
      if n > size {
        return Err(InternalError);
      }
      var part := new HostMemoryReservation(broker);
      part.size := n;
      size := size - n;
      return Ok(part);
    }

    /** Move admitted bytes from another owner on the same broker. */
    method GrowFrom(source: HostMemoryReservation, n: nat) returns (r: Result<(), MemoryError>)
      requires source != this
      modifies this`size, source`size
      ensures size + source.size == old(size + source.size)
      ensures r.Ok? <==> source.broker == broker && n <= old(source.size) && old(size) + n <= USIZE_MAX
      ensures size == if r.Ok? then old(size) + n else old(size)
      ensures broker.Abs() == old(broker.Abs()) && source.broker.Abs() == old(source.broker.Abs())
    {
      if broker != source.broker || source.size < n {
        return Err(InternalError);
      }
      if size + n > USIZE_MAX {
        return Err(ResourcesExhausted);
      }
      size := size + n;
      source.size := source.size - n;
      return Ok(());
    }

    method ResizeTo(target: nat) returns (r: Result<(), MemoryError>)
      modifies this, broker
      ensures (Abs(), r) == Resize(old(Abs()), target)
      ensures broker.requests <= old(broker.requests) + 1
    {
      if target > size {
        r := TryGrow(target - size);
        return;
      }
      r := broker.GiveBack(size - target);
      if r.Ok? {
        size := target;
      }
    }

    method TransferOut(n: nat) returns (r: Result<(), MemoryError>)
      modifies this, broker
      ensures (Abs(), r) == Transfer(old(Abs()), n)
    {
      if n > size {
        return Err(InternalError);
      }
      r := broker.HandOver(n);
      if r.Ok? {
        size := size - n;
      }
    }

    /** The destructor; its release cannot fail while the ledger covers the reservation. */
    method DropIt()
      requires size <= broker.reserved && size <= I64_MAX
      modifies this, broker
      ensures size == 0 && broker.Abs() == old(broker.Abs()).(reserved := old(broker.reserved) - old(size))
      ensures broker.requests <= old(broker.requests) + 1
    {
      if size != 0 {
        var released := broker.GiveBack(size);
        assert released.Ok?;
      }
      size := 0;
    }
  }

  class FlinkMemoryPool {
    const broker: MemoryBroker
    const limit: Option<nat>
    var reserved: nat

    ghost function Abs(): Credit
      reads this, broker
    {
      Credit(broker.Abs(), reserved)
    }

    constructor (broker: MemoryBroker, limit: Option<nat>)
      ensures this.broker == broker && this.limit == limit && reserved == 0
    {
      this.broker := broker;
      this.limit := limit;
      reserved := 0;
    }

    method TryGrow(additional: nat) returns (r: Result<(), MemoryError>)
      modifies this, broker
      ensures (Abs(), r) == PoolGrow(old(Abs()), limit, additional)
    {
      if additional == 0 {
        return Ok(());
      }
      var requested := reserved + additional;
      if requested > USIZE_MAX {
        return Err(ResourcesExhausted);
      }
      if limit.Some? && requested > limit.value {
        return Err(ResourcesExhausted);
      }
      var granted := broker.Reserve(additional);
      if granted.Err? {
        return Err(granted.error);
      }
      if !granted.value {
        return Err(ResourcesExhausted);
      }
      reserved := requested;
      return Ok(());
    }

    method Shrink(n: nat) returns (r: Result<(), MemoryError>)
      requires n <= reserved
      modifies this, broker
      ensures (Abs(), r) == PoolShrink(old(Abs()), n)
    {
      if n == 0 {
        return Ok(());
      }
      r := broker.GiveBack(n);
      if r.Ok? {
        reserved := reserved - n;
      }
    }
  }

  // ---- all owners together ---------------------------------------------------------------

  datatype Kind = Host | Pool(limit: Option<nat>)

  datatype Owner = Owner(broker: nat, kind: Kind, size: nat, live: bool)

  datatype System = System(brokers: seq<Broker>, owners: seq<Owner>)

  datatype Operation =
    | NewOwner(broker: nat, kind: Kind)
    | DoGrow(owner: nat, n: nat)
    | DoResize(owner: nat, n: nat)
    | DoTransfer(owner: nat, n: nat)
    | DoShrink(owner: nat, n: nat)
    | DoSplit(owner: nat, n: nat)
    | DoGrowFrom(owner: nat, source: nat, n: nat)
    | DoDrop(owner: nat)
    | ArrowAllocates(broker: nat, n: nat)
    | ArrowReleases(broker: nat, n: nat)
    | ArrowFinishes(broker: nat)
    | OthersHold(broker: nat, n: nat)

  /** Brokers with nothing reserved: (limit, forwards). */
  function Start(limits: seq<(nat, bool)>): System {
    System(seq(|limits|, i requires 0 <= i < |limits| => Broker(limits[i].0, limits[i].1, 0, 0, 0, 0)), [])
  }

  /** A live owner of the given kind. */
  predicate Known(s: System, k: nat, host: bool) {
    && k < |s.owners| && s.owners[k].broker < |s.brokers|
    && s.owners[k].live && s.owners[k].kind.Host? == host
  }

  function CreditOf(s: System, k: nat): Credit
    requires k < |s.owners| && s.owners[k].broker < |s.brokers|
  {
    Credit(s.brokers[s.owners[k].broker], s.owners[k].size)
  }

  function PutCredit(s: System, k: nat, c: Credit): System
    requires k < |s.owners| && s.owners[k].broker < |s.brokers|
  {
    System(s.brokers[s.owners[k].broker := c.broker], s.owners[k := s.owners[k].(size := c.size)])
  }

  function Sized(s: System, k: nat, size: nat): System
    requires k < |s.owners|
  {
    s.(owners := s.owners[k := s.owners[k].(size := size)])
  }

  /** One operation; naming an owner that is gone, or a broker that does not exist, does nothing. */
  function Do(s: System, op: Operation): System {
    match op
    case NewOwner(b, kind) => if b < |s.brokers| then s.(owners := s.owners + [Owner(b, kind, 0, true)]) else s
    case DoGrow(k, n) =>
      if Known(s, k, true) then PutCredit(s, k, Grow(CreditOf(s, k), n).0)
      else if Known(s, k, false) then PutCredit(s, k, PoolGrow(CreditOf(s, k), s.owners[k].kind.limit, n).0)
      else s
    case DoResize(k, n) => if Known(s, k, true) then PutCredit(s, k, Resize(CreditOf(s, k), n).0) else s
    case DoTransfer(k, n) => if Known(s, k, true) then PutCredit(s, k, Transfer(CreditOf(s, k), n).0) else s
    case DoShrink(k, n) =>
      if Known(s, k, false) && n <= s.owners[k].size then PutCredit(s, k, PoolShrink(CreditOf(s, k), n).0) else s
    case DoSplit(k, n) =>
      if Known(s, k, true) && n <= s.owners[k].size
      then
        var t := Sized(s, k, s.owners[k].size - n);
        t.(owners := t.owners + [Owner(s.owners[k].broker, Host, n, true)])
      else s
    case DoGrowFrom(k, j, n) =>
      if Known(s, k, true) && Known(s, j, true) && k != j && s.owners[k].broker == s.owners[j].broker
         && n <= s.owners[j].size && s.owners[k].size + n <= USIZE_MAX
      then Sized(Sized(s, k, s.owners[k].size + n), j, s.owners[j].size - n)
      else s
    case DoDrop(k) =>
      if k < |s.owners| && s.owners[k].broker < |s.brokers|
      then
        var t := PutCredit(s, k, Credit(Dropped(CreditOf(s, k)).0, 0));
        t.(owners := t.owners[k := t.owners[k].(live := false)])
      else s
    case _ =>
      if op.broker < |s.brokers|
      then s.(brokers := s.brokers[op.broker := BrokerStep(s.brokers[op.broker], op)])
      else s
  }

  predicate OnBroker(op: Operation) {
    op.ArrowAllocates? || op.ArrowReleases? || op.ArrowFinishes? || op.OthersHold?
  }

  /** What happens to a broker behind the back of its native owners. */
  function BrokerStep(x: Broker, op: Operation): Broker
    requires OnBroker(op)
  {
    match op
    case ArrowAllocates(_, n) => ArrowAllocate(x, n)
    case ArrowReleases(_, n) => ArrowRelease(x, n)
    case ArrowFinishes(_) => FinishArrowTransfer(x)
    case OthersHold(_, n) => if x.reserved + n <= x.limit then x.(others := n) else x
  }

  function Run(s: System, ops: seq<Operation>): System {
    if ops == [] then s else Do(Run(s, ops[..|ops| - 1]), ops[|ops| - 1])
  }

  // ---- conservation ----------------------------------------------------------------------

  function Share(o: Owner, b: nat): nat {
    if o.broker == b then o.size else 0
  }

  /** What all owners hold on broker `b`. */
  function Total(owners: seq<Owner>, b: nat): nat {
    if owners == [] then 0 else Total(owners[..|owners| - 1], b) + Share(owners[|owners| - 1], b)
  }

  lemma {:induction false} TotalUpdate(owners: seq<Owner>, k: nat, o: Owner, b: nat)
    requires k < |owners|
    ensures Total(owners[k := o], b) + Share(owners[k], b) == Total(owners, b) + Share(o, b)
    decreases |owners|
  {
    var n := |owners| - 1;
    if k == n {
      assert owners[k := o][..n] == owners[..n];
    } else {
      TotalUpdate(owners[..n], k, o, b);
      assert owners[k := o][..n] == owners[..n][k := o];
    }
  }

  lemma TotalSnoc(owners: seq<Owner>, o: Owner, b: nat)
    ensures Total(owners + [o], b) == Total(owners, b) + Share(o, b)
  {
    assert (owners + [o])[..|owners|] == owners;
  }

  ghost predicate Ledger(x: Broker, owned: nat) {
    && x.reserved == owned + Held(x)
    && InLimit(x) && x.limit <= I64_MAX
    && (!x.forwards ==> x.pending == 0)
  }

  /** Every ledger is what the owners and Arrow hold, within the limit; a dropped owner holds
      nothing. */
  ghost predicate Conserved(s: System) {
    && (forall b :: 0 <= b < |s.brokers| ==> Ledger(s.brokers[b], Total(s.owners, b)))
    && (forall k :: 0 <= k < |s.owners| ==> s.owners[k].broker < |s.brokers|)
    && (forall k :: 0 <= k < |s.owners| && !s.owners[k].live ==> s.owners[k].size == 0)
  }

  lemma PutConserves(s: System, k: nat, c: Credit)
    requires Conserved(s) && k < |s.owners| && Balanced(CreditOf(s, k), c, true)
    requires s.owners[k].live
    ensures Conserved(PutCredit(s, k, c))
  {
    hide Total;
    var t := PutCredit(s, k, c);
    forall b | 0 <= b < |t.brokers| ensures Ledger(t.brokers[b], Total(t.owners, b)) {
      assert Ledger(s.brokers[b], Total(s.owners, b));
      TotalUpdate(s.owners, k, t.owners[k], b);
    }
  }

  /** Releasing what an owner holds, or part of it, never fails: no destructor and no pool
      shrink can panic on its broker. */
  lemma ReleasesSucceed(s: System, k: nat, n: nat)
    requires Conserved(s) && k < |s.owners| && n <= s.owners[k].size
    ensures Dropped(CreditOf(s, k)).1.Ok? && PoolShrink(CreditOf(s, k), n).1.Ok?
    ensures Dropped(CreditOf(s, k)).0.reserved == CreditOf(s, k).broker.reserved - s.owners[k].size
  {
    var o := s.owners[k];
    assert Ledger(s.brokers[o.broker], Total(s.owners, o.broker));
    TotalUpdate(s.owners, k, o.(size := 0), o.broker);
  }

  /** What a drop changes: the owner, and the ledger of its broker. */
  lemma DropEffect(s: System, k: nat)
    requires Conserved(s) && k < |s.owners|
    ensures var t := Do(s, DoDrop(k)); var o := s.owners[k];
      && t.owners == s.owners[k := o.(size := 0, live := false)]
      && t.brokers == s.brokers[o.broker := CreditOf(s, k).broker.(reserved := t.brokers[o.broker].reserved)]
      && t.brokers[o.broker].reserved == s.brokers[o.broker].reserved - o.size
  {
    ReleasesSucceed(s, k, 0);
  }

  /** Whether a broker can give `n` more bytes. */
  predicate Room(x: Broker, n: nat) {
    n == 0 || x.reserved + x.others + n <= x.limit
  }

  /** A request is granted precisely when the slot has room for it and, for a pool, its own limit
      allows it. The overflow and range errors cannot occur, so a pool without a limit, or with
      the broker's, is as strict as the broker. */
  lemma AdmissionIsExact(s: System, k: nat, limit: Option<nat>, n: nat)
    requires Conserved(s) && k < |s.owners|
    ensures var c := CreditOf(s, k);
      var allowed := n == 0 || limit.None? || c.size + n <= limit.value;
      && Grow(c, n).1 == (if Room(c.broker, n) then Ok(()) else Err(ResourcesExhausted))
      && PoolGrow(c, limit, n).1 == (if Room(c.broker, n) && allowed then Ok(()) else Err(ResourcesExhausted))
      && Grow(c, n) == PoolGrow(c, None, n) == PoolGrow(c, Some(c.broker.limit), n)
  {
    var o := s.owners[k];
    assert Ledger(s.brokers[o.broker], Total(s.owners, o.broker));
    TotalUpdate(s.owners, k, o.(size := 0), o.broker);
  }

  /** What a successful operation moves: exactly the bytes asked for, between the owner and the
      ledger, or to Arrow where the broker forwards. */
  lemma SuccessMovesTheBytes(c: Credit, limit: Option<nat>, n: nat)
    ensures Grow(c, n).1.Ok? ==>
              Grow(c, n).0 == Credit(c.broker.(reserved := c.broker.reserved + n), c.size + n)
    ensures PoolGrow(c, limit, n).1.Ok? ==>
              PoolGrow(c, limit, n).0 == Credit(c.broker.(reserved := c.broker.reserved + n), c.size + n)
    ensures Transfer(c, n).1.Ok? && c.broker.forwards ==>
              && n <= c.size && (n == 0 || c.broker.pending == 0)
              && Transfer(c, n).0 == Credit(c.broker.(pending := c.broker.pending + n), c.size - n)
    ensures Transfer(c, n).1.Ok? && !c.broker.forwards ==>
              && n <= c.size && n <= c.broker.reserved
              && Transfer(c, n).0 == Credit(c.broker.(reserved := c.broker.reserved - n), c.size - n)
    ensures n <= c.size && PoolShrink(c, n).1.Ok? ==>
              && n <= c.broker.reserved
              && PoolShrink(c, n).0 == Credit(c.broker.(reserved := c.broker.reserved - n), c.size - n)
  {
  }

  lemma ResizeMovesTheDifference(c: Credit, size: nat)
    ensures Resize(c, size).1.Ok? ==>
              && Resize(c, size).0.size == size
              && Resize(c, size).0.broker == c.broker.(reserved := Resize(c, size).0.broker.reserved)
              && Resize(c, size).0.broker.reserved + c.size == c.broker.reserved + size
  {
  }

  /** What every operation of a live owner does in a system, and exactly when it does it. */
  lemma HostOperationsTakeEffect(s: System, k: nat, n: nat)
    requires Conserved(s) && Known(s, k, true)
    ensures var (o, x) := (s.owners[k], CreditOf(s, k).broker);
      && Do(s, DoGrow(k, n)).owners == s.owners[k := o.(size := if Room(x, n) then o.size + n else o.size)]
      && Do(s, DoResize(k, n)).owners
         == s.owners[k := o.(size := if n <= o.size || Room(x, n - o.size) then n else o.size)]
      && Do(s, DoTransfer(k, n)).owners
         == s.owners[k := o.(size := if n <= o.size && (!x.forwards || n == 0 || x.pending == 0) then o.size - n else o.size)]
      && Do(s, DoDrop(k)).owners == s.owners[k := o.(size := 0, live := false)]
      && (n <= o.size ==> Do(s, DoSplit(k, n)).owners == s.owners[k := o.(size := o.size - n)] + [Owner(o.broker, Host, n, true)])
  {
    hide Total, Conserved, Grow, Resize, Transfer;
    var c := CreditOf(s, k);
    AdmissionIsExact(s, k, None, n);
    if n > c.size {
      AdmissionIsExact(s, k, None, n - c.size);
    }
    OwnerIsCovered(s, k);
    ResizeWhen(c, n);
    TransferWhen(c, n);
    SuccessMovesTheBytes(c, None, n);
    GrowBalances(c, n);
  }

  lemma OwnerIsCovered(s: System, k: nat)
    requires Conserved(s) && k < |s.owners|
    ensures var c := CreditOf(s, k); c.size <= c.broker.reserved <= c.broker.limit <= I64_MAX
  {
    var o := s.owners[k];
    assert Ledger(s.brokers[o.broker], Total(s.owners, o.broker));
    TotalUpdate(s.owners, k, o.(size := 0), o.broker);
  }

  lemma ResizeWhen(c: Credit, size: nat)
    requires c.size <= c.broker.reserved <= I64_MAX
    ensures size <= c.size ==> Resize(c, size).1.Ok?
    ensures size > c.size ==> Resize(c, size).1 == Grow(c, size - c.size).1
    ensures Resize(c, size).0.size == if Resize(c, size).1.Ok? then size else c.size
  {
  }

  lemma TransferWhen(c: Credit, n: nat)
    requires c.size <= c.broker.reserved <= I64_MAX
    ensures Transfer(c, n).1.Ok? <==> n <= c.size && (!c.broker.forwards || n == 0 || c.broker.pending == 0)
    ensures Transfer(c, n).0.size == if Transfer(c, n).1.Ok? then c.size - n else c.size
  {
  }

  lemma PoolOperationsTakeEffect(s: System, k: nat, n: nat)
    requires Conserved(s) && Known(s, k, false)
    ensures var (o, x) := (s.owners[k], CreditOf(s, k).broker);
      var allowed := n == 0 || o.kind.limit.None? || o.size + n <= o.kind.limit.value;
      && Do(s, DoGrow(k, n)).owners == s.owners[k := o.(size := if Room(x, n) && allowed then o.size + n else o.size)]
      && (n <= o.size ==> Do(s, DoShrink(k, n)).owners == s.owners[k := o.(size := o.size - n)])
      && Do(s, DoDrop(k)).owners == s.owners[k := o.(size := 0, live := false)]
  {
    hide Total, Conserved, PoolGrow, PoolShrink;
    var (c, limit) := (CreditOf(s, k), s.owners[k].kind.limit);
    AdmissionIsExact(s, k, limit, n);
    OwnerIsCovered(s, k);
    SuccessMovesTheBytes(c, limit, n);
    PoolOperationsBalance(c, limit, n);
    if n <= c.size {
      ReleasesSucceed(s, k, n);
    }
  }

  /** Credit moved between two live reservations on one broker. */
  lemma GrowFromTakesEffect(s: System, k: nat, j: nat, n: nat)
    requires Conserved(s) && Known(s, k, true) && Known(s, j, true) && k != j
    ensures var (o, p) := (s.owners[k], s.owners[j]);
      Do(s, DoGrowFrom(k, j, n)) ==
        if o.broker == p.broker && n <= p.size
        then s.(owners := s.owners[k := o.(size := o.size + n)][j := p.(size := p.size - n)]) else s
  {
    var (o, p) := (s.owners[k], s.owners[j]);
    if o.broker == p.broker && n <= p.size {
      TwoOwners(s, k, j);
    }
  }

  lemma TwoOwners(s: System, k: nat, j: nat)
    requires Conserved(s) && k < |s.owners| && j < |s.owners| && k != j && s.owners[k].broker == s.owners[j].broker
    ensures s.owners[k].size + s.owners[j].size <= I64_MAX
  {
    var (o, p) := (s.owners[k], s.owners[j]);
    assert Ledger(s.brokers[o.broker], Total(s.owners, o.broker));
    TotalUpdate(s.owners, k, o.(size := 0), o.broker);
    TotalUpdate(s.owners[k := o.(size := 0)], j, p.(size := 0), o.broker);
  }

  /** Arrow spends pending credit first and the slot's room for the rest, gives back what it
      releases, and finishing returns the credit it did not use. */
  lemma ArrowIsExact(x: Broker, owned: nat, n: nat)
    requires Ledger(x, owned)
    ensures n <= x.pending ==> ArrowAllocate(x, n) == x.(pending := x.pending - n, arrow := x.arrow + n)
    ensures n > x.pending ==>
              ArrowAllocate(x, n) ==
                if Room(x, n - x.pending)
                then x.(reserved := x.reserved + n - x.pending, pending := 0, arrow := x.arrow + n) else x
    ensures n <= x.arrow ==> ArrowRelease(x, n) == x.(reserved := x.reserved - n, arrow := x.arrow - n)
    ensures FinishArrowTransfer(x) == x.(reserved := x.reserved - x.pending, pending := 0)
  {
  }

  lemma DropConserves(s: System, k: nat)
    requires Conserved(s) && k < |s.owners|
    ensures Conserved(Do(s, DoDrop(k)))
  {
    hide Total, Do;
    var t := Do(s, DoDrop(k));
    DropEffect(s, k);
    var o := s.owners[k];
    forall b | 0 <= b < |t.brokers| ensures Ledger(t.brokers[b], Total(t.owners, b)) {
      assert Ledger(s.brokers[b], Total(s.owners, b));
      TotalUpdate(s.owners, k, o.(size := 0, live := false), b);
    }
  }

  lemma MoveConserves(s: System, op: Operation)
    requires Conserved(s) && (op.DoSplit? || op.DoGrowFrom?)
    ensures Conserved(Do(s, op)) && Do(s, op).brokers == s.brokers
  {
    hide Total;
    var t := Do(s, op);
    forall b | 0 <= b < |t.brokers| ensures Total(t.owners, b) == Total(s.owners, b) {
      if t != s {
        if op.DoSplit? {
          var o := s.owners[op.owner].(size := s.owners[op.owner].size - op.n);
          TotalUpdate(s.owners, op.owner, o, b);
          TotalSnoc(s.owners[op.owner := o], Owner(o.broker, Host, op.n, true), b);
        } else {
          var (k, j, n) := (op.owner, op.source, op.n);
          var grown := s.owners[k].(size := s.owners[k].size + n);
          TotalUpdate(s.owners, k, grown, b);
          TotalUpdate(s.owners[k := grown], j, s.owners[j].(size := s.owners[j].size - n), b);
        }
      }
    }
  }

  lemma CreditConserves(s: System, op: Operation)
    requires Conserved(s)
    requires op.DoGrow? || op.DoResize? || op.DoTransfer? || op.DoShrink?
    ensures Conserved(Do(s, op))
  {
    hide Total, Grow, PoolGrow, Resize, Transfer, PoolShrink, Conserved, Balanced;
    var k := op.owner;
    if Known(s, k, true) {
      GrowBalances(CreditOf(s, k), op.n);
      ResizeBalances(CreditOf(s, k), op.n);
      TransferBalances(CreditOf(s, k), op.n);
    } else if Known(s, k, false) {
      PoolOperationsBalance(CreditOf(s, k), s.owners[k].kind.limit, op.n);
    }
    var t := Do(s, op);
    if t != s {
      BalancedOk(CreditOf(s, k), CreditOf(t, k));
      PutConserves(s, k, CreditOf(t, k));
    }
  }

  lemma BalancedOk(before: Credit, after: Credit)
    ensures Balanced(before, after, false) ==> Balanced(before, after, true)
  {
  }

  lemma NewOwnerConserves(s: System, o: Owner)
    requires Conserved(s) && o.size == 0 && o.broker < |s.brokers|
    ensures Conserved(s.(owners := s.owners + [o]))
  {
    hide Total;
    var t := s.(owners := s.owners + [o]);
    forall b | 0 <= b < |t.brokers| ensures Ledger(t.brokers[b], Total(t.owners, b)) {
      TotalSnoc(s.owners, o, b);
    }
  }

  lemma BrokerStepKeepsLedger(x: Broker, owned: nat, op: Operation)
    requires Ledger(x, owned) && OnBroker(op)
    ensures Ledger(BrokerStep(x, op), owned)
  {
  }

  lemma BrokerStepConserves(s: System, op: Operation)
    requires Conserved(s) && OnBroker(op)
    ensures Conserved(Do(s, op))
  {
    hide Total, BrokerStep, Ledger;
    var b := op.broker;
    if b < |s.brokers| {
      BrokerStepKeepsLedger(s.brokers[b], Total(s.owners, b), op);
    }
  }

  lemma DoConserves(s: System, op: Operation)
    requires Conserved(s)
    ensures Conserved(Do(s, op))
  {
    hide Conserved, Known, BrokerStep, Grow, PoolGrow, Resize, Transfer, PoolShrink, Dropped;
    match op
    case NewOwner(b, kind) =>
      if b < |s.brokers| { NewOwnerConserves(s, Owner(b, kind, 0, true)); }
    case DoSplit(_, _) => MoveConserves(s, op);
    case DoGrowFrom(_, _, _) => MoveConserves(s, op);
    case DoDrop(k) =>
      if k < |s.owners| { DropConserves(s, k); }
    case DoGrow(_, _) => CreditConserves(s, op);
    case DoResize(_, _) => CreditConserves(s, op);
    case DoTransfer(_, _) => CreditConserves(s, op);
    case DoShrink(_, _) => CreditConserves(s, op);
    case _ => BrokerStepConserves(s, op);
  }

  lemma BrokersStay(s: System, op: Operation)
    ensures |Do(s, op).brokers| == |s.brokers|
  {
    hide Grow, PoolGrow, Resize, Transfer, PoolShrink, Dropped, BrokerStep;
  }

  lemma {:induction false} RunConserves(s: System, ops: seq<Operation>)
    requires Conserved(s)
    ensures Conserved(Run(s, ops)) && |Run(s, ops).brokers| == |s.brokers|
    decreases |ops|
  {
    hide Do, Conserved;
    if ops == [] {
    } else {
      var n := |ops| - 1;
      RunConserves(s, ops[..n]);
      DoConserves(Run(s, ops[..n]), ops[n]);
      BrokersStay(Run(s, ops[..n]), ops[n]);
    }
  }

  /** After any sequence of operations each broker's ledger is the sum of what its owners hold
      plus what Arrow holds, and within its limit however many pools there are. */
  lemma CreditIsConserved(limits: seq<(nat, bool)>, ops: seq<Operation>, b: nat)
    requires b < |limits| && forall i :: 0 <= i < |limits| ==> limits[i].0 <= I64_MAX
    ensures var s := Run(Start(limits), ops);
      && Conserved(s)
      && |s.brokers| == |limits|
      && s.brokers[b].reserved == Total(s.owners, b) + s.brokers[b].pending + s.brokers[b].arrow
      && s.brokers[b].reserved <= s.brokers[b].limit
  {
    hide Run, Total;
    RunConserves(Start(limits), ops) by { NothingReserved(limits); }
    var s := Run(Start(limits), ops);
    assert Ledger(s.brokers[b], Total(s.owners, b));
  }

  lemma NothingReserved(limits: seq<(nat, bool)>)
    requires forall i :: 0 <= i < |limits| ==> limits[i].0 <= I64_MAX
    ensures Conserved(Start(limits))
  {
  }

  // ---- shutting down ---------------------------------------------------------------------

  function DropAll(n: nat): seq<Operation> {
    if n == 0 then [] else DropAll(n - 1) + [DoDrop(n - 1)]
  }

  lemma {:induction false} DropAllEmpties(s: System, n: nat)
    requires Conserved(s) && n <= |s.owners|
    ensures var t := Run(s, DropAll(n));
      && Conserved(t) && |t.owners| == |s.owners| && |t.brokers| == |s.brokers|
      && (forall k :: 0 <= k < n ==> t.owners[k].size == 0)
      && (forall b :: 0 <= b < |s.brokers| ==> Held(t.brokers[b]) == Held(s.brokers[b]))
  {
    hide Conserved, Do, Run, DropAll;
    if n == 0 {
      NoDrops(s);
    } else {
      DropAllEmpties(s, n - 1);
      var t := Run(s, DropAll(n - 1));
      DropAllStep(s, n - 1);
      DropConserves(t, n - 1);
      OwnerOnBroker(t, n - 1);
      DropEffect(t, n - 1);
    }
  }

  lemma NoDrops(s: System)
    ensures Run(s, DropAll(0)) == s
  {
  }

  lemma DropAllStep(s: System, n: nat)
    ensures Run(s, DropAll(n + 1)) == Do(Run(s, DropAll(n)), DoDrop(n))
  {
    hide Do;
    DropAllLength(n);
    assert DropAll(n + 1)[..n] == DropAll(n);
  }

  lemma OwnerOnBroker(s: System, k: nat)
    requires Conserved(s) && k < |s.owners|
    ensures s.owners[k].broker < |s.brokers|
  {
  }

  lemma {:induction false} DropAllLength(n: nat)
    ensures |DropAll(n)| == n
  {
    if n == 0 {
    } else {
      DropAllLength(n - 1);
    }
  }

  lemma {:induction false} NothingHeld(owners: seq<Owner>, b: nat)
    requires forall k :: 0 <= k < |owners| ==> owners[k].size == 0
    ensures Total(owners, b) == 0
    decreases |owners|
  {
    if owners == [] {
    } else {
      NothingHeld(owners[..|owners| - 1], b);
    }
  }

  /** Dropping every owner after any run leaves only what Arrow still holds: nothing at all for a
      broker that never handed memory to Arrow. */
  lemma DroppingEveryOwnerReturnsTheCredit(limits: seq<(nat, bool)>, ops: seq<Operation>, b: nat)
    requires b < |limits| && forall i :: 0 <= i < |limits| ==> limits[i].0 <= I64_MAX
    ensures var s := Run(Start(limits), ops);
      var t := Run(s, DropAll(|s.owners|));
      && |t.brokers| == |limits| == |s.brokers|
      && t.brokers[b].reserved == s.brokers[b].pending + s.brokers[b].arrow
  {
    hide Run, Total, DropAll;
    CreditIsConserved(limits, ops, b);
    var s := Run(Start(limits), ops);
    DropAllEmpties(s, |s.owners|);
    var t := Run(s, DropAll(|s.owners|));
    NothingHeld(t.owners, b);
    assert Ledger(t.brokers[b], Total(t.owners, b));
  }
}
