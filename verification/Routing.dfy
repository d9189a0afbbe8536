/** Hash exchange: a batch is cut into frames, either one per maximal run of a key group or one
    per destination, and both deliver the same rows to every destination in input order. */
module Routing {
  import opened Bytes
  import opened KeyGroups
  import opened RowLayout
  import opened BinaryRow

  // ---- keys ------------------------------------------------------------------------------

  /** The key of a row: a preencoded sidecar value, or the encoded key columns. */
  function KeyOf(batch: Batch, row: nat, fields: KeyFields): (r: Result<bytes, RowError>)
    requires ValidBatch(batch) && InSchema(batch, fields) && row < batch.rows
    ensures r.Ok? ==> |r.value| % 4 == 0
  {
    if !HasPreencoded(fields) then
      EncodedIsAligned(batch, row, fields);
      EncodeRow(batch, row, fields)
    else match EncodeRow(batch, row, fields)
      case Err(e) => Err(e)
      case Ok(key) => if |key| % 4 == 0 then Ok(key) else Err(InvalidArgument)
  }

  lemma EncodedIsAligned(batch: Batch, row: nat, fields: KeyFields)
    requires ValidBatch(batch) && InSchema(batch, fields) && row < batch.rows && !HasPreencoded(fields)
    ensures EncodeRow(batch, row, fields).Ok? ==> |EncodeRow(batch, row, fields).value| % 4 == 0
  {
    hide EncodeCells;
    CellsAreAligned(RowCells(batch, row, fields), Kinds(fields));
  }

  lemma CellsAreAligned(cells: seq<Cell>, kinds: seq<KeyField>)
    requires |cells| == |kinds|
    ensures EncodeCells(cells, kinds).Ok? ==> |EncodeCells(cells, kinds).value| % 4 == 0
  {
    hide Store, Built;
    var stored := StoreAll(cells, kinds, |cells|);
    if stored.Ok? {
      BuiltAligned(stored.value, |stored.value|, |stored.value|);
    }
  }

  /** Checks made once per batch. */
  function CheckFields(batch: Batch, fields: KeyFields): Result<(), RowError> {
    if batch.rows > U32 then Err(InvalidArgument)
    else if exists i :: 0 <= i < |fields| && fields[i].0 >= |batch.columns| then Err(InvalidArgument)
    else if !HasPreencoded(fields) then Ok(())
    else if |fields| != 1 then Err(InvalidArgument)
    else if !batch.columns[fields[0].0].binary then Err(CastError)
    else Ok(())
  }

  /** Key groups of the first `k` rows, or the first error among them. */
  function GroupsUpTo(batch: Batch, fields: KeyFields, max: nat, k: nat): (r: Result<seq<nat>, RowError>)
    requires ValidBatch(batch) && InSchema(batch, fields) && k <= batch.rows && 0 < max <= MAX_GROUPS
    ensures r.Ok? ==> |r.value| == k && forall i :: 0 <= i < k ==> r.value[i] < max
  {
    if k == 0 then Ok([])
    else match GroupsUpTo(batch, fields, max, k - 1)
      case Err(e) => Err(e)
      case Ok(front) =>
        match KeyOf(batch, k - 1, fields)
        case Err(e) => Err(e)
        case Ok(key) => Ok(front + [KeyGroup(key, max)])
  }

  function Groups(batch: Batch, fields: KeyFields, max: nat): (r: Result<seq<nat>, RowError>)
    requires ValidBatch(batch) && 0 < max <= MAX_GROUPS
    ensures r.Ok? ==> |r.value| == batch.rows && forall i :: 0 <= i < batch.rows ==> r.value[i] < max
  {
    match CheckFields(batch, fields)
    case Err(e) => Err(e)
    case Ok(_) => GroupsUpTo(batch, fields, max, batch.rows)
  }

  lemma {:induction false} GroupErrorStands(batch: Batch, fields: KeyFields, max: nat, k: nat, m: nat)
    requires ValidBatch(batch) && InSchema(batch, fields) && k <= m <= batch.rows && 0 < max <= MAX_GROUPS
    requires GroupsUpTo(batch, fields, max, k).Err?
    ensures GroupsUpTo(batch, fields, max, m) == GroupsUpTo(batch, fields, max, k)
    decreases m
  {
    hide KeyOf, KeyGroup;
    if k >= m {
    } else {
      GroupErrorStands(batch, fields, max, k, m - 1);
    }
  }

  method KeyInto(batch: Batch, row: nat, fields: KeyFields, scratch: ByteVec) returns (r: Result<(), RowError>)
    requires ValidBatch(batch) && InSchema(batch, fields) && row < batch.rows
    modifies scratch
    ensures match KeyOf(batch, row, fields)
            case Err(e) => r == Err(e)
            case Ok(key) => r == Ok(()) && scratch.data == key
  {
    hide EncodeRow;
    r := EncodeBinaryRowInto(batch, row, fields, scratch);
    if r.Ok? && HasPreencoded(fields) && |scratch.data| % 4 != 0 {
      return Err(InvalidArgument);
    }
  }

  /** Every row's key in input order, through one reused scratch vector. */
  method VisitKeyGroups(batch: Batch, fields: KeyFields, max: nat) returns (r: Result<seq<nat>, RowError>)
    requires ValidBatch(batch) && 0 < max <= MAX_GROUPS
    ensures r == Groups(batch, fields, max)
  {
    var checked := CheckFields(batch, fields);
    if checked.Err? {
      return Err(checked.error);
    }
    r := VisitRows(batch, fields, max);
  }

  method VisitRows(batch: Batch, fields: KeyFields, max: nat) returns (r: Result<seq<nat>, RowError>)
    requires ValidBatch(batch) && InSchema(batch, fields) && 0 < max <= MAX_GROUPS
    ensures r == GroupsUpTo(batch, fields, max, batch.rows)
  {
    hide KeyOf, KeyGroup, ValidBatch, InSchema;
    var scratch := new ByteVec();
    var visited: seq<nat> := [];
    var row := 0;
    while row < batch.rows
      invariant 0 <= row <= batch.rows
      invariant GroupsUpTo(batch, fields, max, row) == Ok(visited)
    {
      var encoded := KeyInto(batch, row, fields, scratch);
      if encoded.Err? {
        GroupErrorStands(batch, fields, max, row + 1, batch.rows);
        return Err(encoded.error);
      }
      var group := AssignKeyGroup(scratch.data, max);
      visited := visited + [group];
      row := row + 1;
    }
    return Ok(visited);
  }

  /** The key of a row is usable: it encodes, and a preencoded key is whole words. */
  ghost predicate RowRoutes(batch: Batch, fields: KeyFields, row: nat)
    requires ValidBatch(batch) && InSchema(batch, fields) && row < batch.rows
  {
    && RowEncodes(batch, row, fields)
    && (HasPreencoded(fields) ==> |RowCells(batch, row, fields)[0].data| % 4 == 0)
  }

  /** What a batch needs to be routed by its key fields: rows that 32 bits can index, key columns
      that exist, a preencoded key that stands alone in a binary column, and keys in every row. */
  ghost predicate Routable(batch: Batch, fields: KeyFields)
    requires ValidBatch(batch)
  {
    && batch.rows <= 0x1_0000_0000 && InSchema(batch, fields)
    && (HasPreencoded(fields) ==> |fields| == 1 && batch.columns[fields[0].0].binary)
    && forall row :: 0 <= row < batch.rows ==> RowRoutes(batch, fields, row)
  }

  lemma KeyExactly(batch: Batch, fields: KeyFields, row: nat)
    requires ValidBatch(batch) && InSchema(batch, fields) && row < batch.rows
    ensures KeyOf(batch, row, fields).Ok? <==> RowRoutes(batch, fields, row)
  {
    hide EncodeCells, AllEncode, ValidBatch, InSchema;
    EncodeRowExactly(batch, row, fields);
  }

  lemma {:induction false} GroupsUpToExactly(batch: Batch, fields: KeyFields, max: nat, k: nat)
    requires ValidBatch(batch) && InSchema(batch, fields) && k <= batch.rows && 0 < max <= MAX_GROUPS
    ensures GroupsUpTo(batch, fields, max, k).Ok? <==> forall row :: 0 <= row < k ==> RowRoutes(batch, fields, row)
    decreases k
  {
    hide KeyOf, KeyGroup, RowRoutes, ValidBatch, InSchema;
    if k == 0 {
    } else {
      GroupsUpToExactly(batch, fields, max, k - 1);
      KeyExactly(batch, fields, k - 1);
    }
  }

  /** Key groups can be had exactly for routable batches. */
  lemma RoutesExactly(batch: Batch, fields: KeyFields, max: nat)
    requires ValidBatch(batch) && 0 < max <= MAX_GROUPS
    ensures Groups(batch, fields, max).Ok? <==> Routable(batch, fields)
  {
    hide RowRoutes, GroupsUpTo, ValidBatch;
    if InSchema(batch, fields) {
      GroupsUpToExactly(batch, fields, max, batch.rows);
    }
  }

  lemma {:induction false} GroupAt(batch: Batch, fields: KeyFields, max: nat, k: nat, i: nat)
    requires ValidBatch(batch) && InSchema(batch, fields) && i < k <= batch.rows && 0 < max <= MAX_GROUPS
    requires GroupsUpTo(batch, fields, max, k).Ok?
    ensures KeyOf(batch, i, fields).Ok?
    ensures GroupsUpTo(batch, fields, max, k).value[i] == KeyGroup(KeyOf(batch, i, fields).value, max)
    decreases k
  {
    hide KeyOf, KeyGroup, ValidBatch, InSchema;
    if i >= k - 1 {
    } else {
      GroupAt(batch, fields, max, k - 1, i);
    }
  }

  /** Rows whose key columns keep the same, preencoded or not, are never separated. */
  lemma EqualKeysTravelTogether(batch: Batch, fields: KeyFields, max: nat, i: nat, j: nat)
    requires ValidBatch(batch) && InSchema(batch, fields) && 0 < max <= MAX_GROUPS
    requires Groups(batch, fields, max).Ok? && i < batch.rows && j < batch.rows
    requires SameKept(RowCells(batch, i, fields), RowCells(batch, j, fields), Kinds(fields))
    ensures Groups(batch, fields, max).value[i] == Groups(batch, fields, max).value[j]
  {
    hide KeyGroup, KeyOf, ValidBatch, InSchema, SameKept;
    GroupAt(batch, fields, max, batch.rows, i);
    GroupAt(batch, fields, max, batch.rows, j);
    EqualKeys(batch, fields, i, j);
  }

  lemma EqualKeys(batch: Batch, fields: KeyFields, i: nat, j: nat)
    requires ValidBatch(batch) && InSchema(batch, fields) && i < batch.rows && j < batch.rows
    requires KeyOf(batch, i, fields).Ok? && KeyOf(batch, j, fields).Ok?
    requires SameKept(RowCells(batch, i, fields), RowCells(batch, j, fields), Kinds(fields))
    ensures KeyOf(batch, i, fields) == KeyOf(batch, j, fields)
  {
    hide EncodeCells, ValidBatch, InSchema;
    var (a, b) := (RowCells(batch, i, fields), RowCells(batch, j, fields));
    if HasPreencoded(fields) {
      assert Kept(a[0], Kinds(fields)[0]) == Kept(b[0], Kinds(fields)[0]);
    } else {
      SameKeptSameRow(a, b, Kinds(fields));
    }
  }

  // ---- selections ------------------------------------------------------------------------

  /** A contiguous run of one key group, or the scattered rows of one destination. */
  datatype Selection = Run(group: nat, start: nat, len: nat) | Gather(destination: nat, rows: seq<nat>)

  function Indices(start: nat, len: nat): (r: seq<nat>)
    ensures |r| == len
  {
    if len == 0 then [] else Indices(start, len - 1) + [start + len - 1]
  }

  function Selected(s: Selection): seq<nat> {
    match s
    case Run(_, start, len) => Indices(start, len)
    case Gather(_, rows) => rows
  }

  function Destination(group: nat, p: nat, max: nat): nat
    requires max > 0
  {
    group * p / max
  }

  function Extend(runs: seq<Selection>, row: nat, group: nat): seq<Selection> {
    if |runs| > 0 && runs[|runs| - 1].Run? && runs[|runs| - 1].group == group
    then runs[|runs| - 1 := runs[|runs| - 1].(len := runs[|runs| - 1].len + 1)]
    else runs + [Run(group, row, 1)]
  }

  function RunsUpTo(groups: seq<nat>, k: nat): seq<Selection>
    requires k <= |groups|
  {
    if k == 0 then [] else Extend(RunsUpTo(groups, k - 1), k - 1, groups[k - 1])
  }

  /** A run of a single key group inside the first `k` rows. */
  ghost predicate UniformRun(s: Selection, groups: seq<nat>, k: nat)
    requires k <= |groups|
  {
    && s.Run? && s.len > 0 && s.start + s.len <= k
    && forall j :: s.start <= j < s.start + s.len ==> groups[j] == s.group
  }

  ghost predicate Adjacent(a: Selection, b: Selection) {
    a.Run? && b.Run? && b.start == a.start + a.len && b.group != a.group
  }

  /** Runs tile the first `k` rows, are uniform, and are as long as they can be. */
  ghost predicate MaximalRuns(runs: seq<Selection>, groups: seq<nat>, k: nat)
    requires k <= |groups|
  {
    && (forall i :: 0 <= i < |runs| ==> UniformRun(runs[i], groups, k))
    && (forall i, j :: 0 <= i && j == i + 1 && j < |runs| ==> Adjacent(runs[i], runs[j]))
    && (if k == 0 then runs == []
        else |runs| > 0 && runs[0].start == 0 && runs[|runs| - 1].start + runs[|runs| - 1].len == k)
  }

  lemma {:induction false} RunsAreMaximal(groups: seq<nat>, k: nat)
    requires k <= |groups|
    ensures MaximalRuns(RunsUpTo(groups, k), groups, k)
  {
    hide Extend;
    if k == 0 {
    } else {
      RunsAreMaximal(groups, k - 1);
      ExtendKeepsMaximal(RunsUpTo(groups, k - 1), groups, k - 1);
    }
  }

  lemma ExtendKeepsMaximal(runs: seq<Selection>, groups: seq<nat>, k: nat)
    requires k < |groups| && MaximalRuns(runs, groups, k)
    ensures MaximalRuns(Extend(runs, k, groups[k]), groups, k + 1)
  {
    hide UniformRun, Adjacent;
    var longer := Extend(runs, k, groups[k]);
    forall i | 0 <= i < |runs| ensures runs[i].Run? && UniformRun(runs[i], groups, k + 1) {
      assert UniformRun(runs[i], groups, k);
      RunOutlives(runs[i], groups, k);
    }
    if |runs| > 0 {
      LastRun(runs[|runs| - 1], groups, k);
      forall i | 0 < i < |runs| ensures Adjacent(runs[i - 1], runs[i]) {
      }
      if |runs| > 1 {
        assert Adjacent(runs[|runs| - 2], runs[|runs| - 1]);
        StillAdjacent(runs[|runs| - 2], runs[|runs| - 1], k, groups[k]);
      } else {
        StillAdjacent(runs[0], runs[0], k, groups[k]);
      }
    } else {
      FirstRun(groups, k);
    }
  }

  lemma RunOutlives(s: Selection, groups: seq<nat>, k: nat)
    requires k < |groups| && UniformRun(s, groups, k)
    ensures s.Run? && UniformRun(s, groups, k + 1)
  {
  }

  lemma FirstRun(groups: seq<nat>, k: nat)
    requires k < |groups|
    ensures UniformRun(Run(groups[k], k, 1), groups, k + 1)
  {
  }

  /** The last run grows with an equal group, and is followed by a new run otherwise. */
  lemma LastRun(s: Selection, groups: seq<nat>, k: nat)
    requires k < |groups| && UniformRun(s, groups, k) && s.start + s.len == k
    ensures s.group == groups[k] ==> UniformRun(s.(len := s.len + 1), groups, k + 1)
    ensures UniformRun(Run(groups[k], k, 1), groups, k + 1)
    ensures s.group != groups[k] ==> Adjacent(s, Run(groups[k], k, 1))
  {
  }

  lemma StillAdjacent(a: Selection, b: Selection, k: nat, group: nat)
    requires b.Run?
    ensures Adjacent(a, b) ==> Adjacent(a, b.(len := b.len + 1))
  {
  }

  method RouteByKeyGroup(groups: seq<nat>) returns (runs: seq<Selection>)
    ensures runs == RunsUpTo(groups, |groups|) && MaximalRuns(runs, groups, |groups|)
  {
    runs := [];
    var row := 0;
    while row < |groups|
      invariant 0 <= row <= |groups| && runs == RunsUpTo(groups, row)
    {
      var last := |runs| - 1;
      if last >= 0 && runs[last].Run? && runs[last].group == groups[row] {
        runs := runs[last := runs[last].(len := runs[last].len + 1)];
      } else {
        runs := runs + [Run(groups[row], row, 1)];
      }
      row := row + 1;
    }
    RunsAreMaximal(groups, |groups|);
  }

  /** Rows among the first `k` that belong to destination `d`, in input order. */
  function RowsFor(groups: seq<nat>, p: nat, max: nat, d: nat, k: nat): seq<nat>
    requires k <= |groups| && max > 0
  {
    if k == 0 then []
    else RowsFor(groups, p, max, d, k - 1) + (if Destination(groups[k - 1], p, max) == d then [k - 1] else [])
  }

  ghost predicate InRows(rows: seq<nat>, n: nat) {
    forall i :: 0 <= i < |rows| ==> rows[i] < n
  }

  ghost predicate Increasing(rows: seq<nat>) {
    forall i, j :: 0 <= i < j < |rows| ==> rows[i] < rows[j]
  }

  lemma {:induction false} RowsForIncreases(groups: seq<nat>, p: nat, max: nat, d: nat, k: nat)
    requires k <= |groups| && max > 0
    ensures InRows(RowsFor(groups, p, max, d, k), k) && Increasing(RowsFor(groups, p, max, d, k))
    ensures forall i :: i in RowsFor(groups, p, max, d, k) ==> i < |groups| && Destination(groups[i], p, max) == d
  {
    hide Destination;
    if k == 0 {
    } else {
      RowsForIncreases(groups, p, max, d, k - 1);
      var front := RowsFor(groups, p, max, d, k - 1);
      var rows := RowsFor(groups, p, max, d, k);
      assert rows == front || rows == front + [k - 1];
      assert forall i :: 0 <= i < |front| ==> rows[i] == front[i];
    }
  }

  lemma {:induction false} RowsForHasAll(groups: seq<nat>, p: nat, max: nat, d: nat, k: nat, i: nat)
    requires i < k <= |groups| && max > 0 && Destination(groups[i], p, max) == d
    ensures i in RowsFor(groups, p, max, d, k)
  {
    hide Destination;
    if i >= k - 1 {
    } else {
      RowsForHasAll(groups, p, max, d, k - 1, i);
    }
  }

  /** Each row belongs to exactly one destination, and keeps its place there. */
  lemma RowsForIsExact(groups: seq<nat>, p: nat, max: nat, d: nat)
    requires max > 0
    ensures var rows := RowsFor(groups, p, max, d, |groups|);
      && (forall i: nat :: i in rows <==> i < |groups| && Destination(groups[i], p, max) == d)
      && (forall i: nat :: i in rows <==> i < |groups| && d * max <= groups[i] * p < (d + 1) * max)
      && Increasing(rows)
  {
    hide RowsFor, Destination;
    forall i | 0 <= i < |groups|
      ensures Destination(groups[i], p, max) == d <==> d * max <= groups[i] * p < (d + 1) * max
    {
      DestinationIsTheShare(groups[i], p, max, d);
    }
    RowsForIncreases(groups, p, max, d, |groups|);
    forall i: nat | i < |groups| && Destination(groups[i], p, max) == d
      ensures i in RowsFor(groups, p, max, d, |groups|)
    {
      RowsForHasAll(groups, p, max, d, |groups|, i);
    }
  }

  /** Destination `d` has the `d`-th of `p` equal shares of the key groups. */
  lemma DestinationIsTheShare(group: nat, p: nat, max: nat, d: nat)
    requires max > 0
    ensures Destination(group, p, max) == d <==> d * max <= group * p < (d + 1) * max
  {
    var n := group * p;
    assert (d + 1) * max == d * max + max;
    if d * max <= n < d * max + max {
      QuotientUnique(n, max, d, n - d * max);
    } else {
      assert n == n / max * max + n % max;
    }
  }

  lemma DestinationInRange(group: nat, p: nat, max: nat)
    requires group < max && p > 0
    ensures Destination(group, p, max) < p
  {
    MulLe(group + 1, max, p);
    assert (group + 1) * p == group * p + p;
    var d := group * p / max;
    if d >= p {
      MulLe(p, d, max);
    }
  }

  method RoutingRows(groups: seq<nat>, p: nat, max: nat) returns (rows: seq<seq<nat>>)
    requires p > 0 && max > 0 && forall i :: 0 <= i < |groups| ==> groups[i] < max
    ensures |rows| == p && forall d :: 0 <= d < p ==> rows[d] == RowsFor(groups, p, max, d, |groups|)
  {
    rows := seq(p, _ => []);
    var row := 0;
    hide Destination;
    while row < |groups|
      invariant 0 <= row <= |groups| && |rows| == p
      invariant forall d :: 0 <= d < p ==> rows[d] == RowsFor(groups, p, max, d, row)
    {
      var destination := Destination(groups[row], p, max);
      DestinationInRange(groups[row], p, max);
      rows := rows[destination := rows[destination] + [row]];
      row := row + 1;
    }
  }

  /** Destinations below `d` that have rows. */
  function Gathers(groups: seq<nat>, p: nat, max: nat, d: nat): seq<Selection>
    requires max > 0
  {
    if d == 0 then []
    else
      var rows := RowsFor(groups, p, max, d - 1, |groups|);
      Gathers(groups, p, max, d - 1) + (if rows == [] then [] else [Gather(d - 1, rows)])
  }

  method RouteByDestination(groups: seq<nat>, p: nat, max: nat) returns (sels: seq<Selection>)
    requires p > 0 && max > 0 && forall i :: 0 <= i < |groups| ==> groups[i] < max
    ensures sels == Gathers(groups, p, max, p)
  {
    var rows := RoutingRows(groups, p, max);
    sels := [];
    var d := 0;
    hide RowsFor;
    while d < p
      invariant 0 <= d <= p && sels == Gathers(groups, p, max, d)
    {
      if |rows[d]| > 0 {
        sels := sels + [Gather(d, rows[d])];
      }
      d := d + 1;
    }
  }

  // ---- tags ------------------------------------------------------------------------------

  function Saturate(n: nat): nat {
    if n < U32 then n else U32 - 1
  }

  /** The key group that stands for a whole destination: saturating 32-bit arithmetic. */
  function AlignedTag(d: nat, p: nat, max: nat): nat
    requires p > 0
  {
    Saturate(Saturate(d * max) + (p - 1)) / p
  }

  function Tag(s: Selection, p: nat, max: nat): nat
    requires p > 0
  {
    match s
    case Run(group, _, _) => group
    case Gather(d, _) => AlignedTag(d, p, max)
  }

  /** The aligned tag is a key group of its destination, and its arithmetic never saturates. */
  lemma AlignedTagMapsBack(d: nat, p: nat, max: nat)
    requires d < p <= max <= MAX_GROUPS
    ensures AlignedTag(d, p, max) == (d * max + p - 1) / p
    ensures d * max + p - 1 < U32
    ensures AlignedTag(d, p, max) < max
    ensures Destination(AlignedTag(d, p, max), p, max) == d
  {
    MulLe(d, MAX_GROUPS, max);
    var n := d * max + p - 1;
    var tag := n / p;
    assert n == tag * p + n % p;
    assert d * max <= tag * p < d * max + max;
    QuotientUnique(tag * p, max, d, tag * p - d * max);
    MulLe(d + 1, p, max);
    assert (d + 1) * max == d * max + max;
    if tag >= max {
      MulLe(max, tag, p);
    }
  }

  // ---- delivery --------------------------------------------------------------------------

  /** The rows destination `d` receives: its selections, in the order they are sent. */
  function Received(sels: seq<Selection>, p: nat, max: nat, d: nat): seq<nat>
    requires p > 0 && max > 0
  {
    if sels == [] then []
    else
      var last := sels[|sels| - 1];
      Received(sels[..|sels| - 1], p, max, d)
      + (if Destination(Tag(last, p, max), p, max) == d then Selected(last) else [])
  }

  lemma ReceivedSnoc(sels: seq<Selection>, s: Selection, p: nat, max: nat, d: nat)
    requires p > 0 && max > 0
    ensures Received(sels + [s], p, max, d)
         == Received(sels, p, max, d) + (if Destination(Tag(s, p, max), p, max) == d then Selected(s) else [])
  {
    hide Destination, Tag, Selected;
    assert (sels + [s])[..|sels|] == sels;
  }

  /** Adding a row to the last run adds it to what the run's destination receives. */
  lemma ExtendReceives(runs: seq<Selection>, row: nat, group: nat, p: nat, max: nat, d: nat)
    requires p > 0 && max > 0
    requires |runs| > 0 && runs[|runs| - 1].Run? ==> runs[|runs| - 1].start + runs[|runs| - 1].len == row
    ensures Received(Extend(runs, row, group), p, max, d)
         == Received(runs, p, max, d) + (if Destination(group, p, max) == d then [row] else [])
  {
    hide Destination, Received;
    if |runs| > 0 && runs[|runs| - 1].Run? && runs[|runs| - 1].group == group {
      var last := runs[|runs| - 1];
      var front := runs[..|runs| - 1];
      var longer := last.(len := last.len + 1);
      assert runs == front + [last];
      assert Extend(runs, row, group) == front + [longer];
      ReceivedSnoc(front, last, p, max, d);
      ReceivedSnoc(front, longer, p, max, d);
      assert Selected(longer) == Selected(last) + [row];
    } else {
      ReceivedSnoc(runs, Run(group, row, 1), p, max, d);
      assert Selected(Run(group, row, 1)) == [row] by { assert Indices(row, 0) == []; }
    }
  }

  /** Run mode delivers every destination its rows in input order. */
  lemma {:induction false} RunsDeliver(groups: seq<nat>, p: nat, max: nat, d: nat, k: nat)
    requires k <= |groups| && p > 0 && max > 0
    ensures Received(RunsUpTo(groups, k), p, max, d) == RowsFor(groups, p, max, d, k)
    decreases k
  {
    hide Destination, Extend, Received;
    if k > 0 {
      RunsDeliver(groups, p, max, d, k - 1);
      RunsAreMaximal(groups, k - 1);
      ExtendReceives(RunsUpTo(groups, k - 1), k - 1, groups[k - 1], p, max, d);
    } else {
      assert Received([], p, max, d) == [] by { NothingReceived(p, max, d); }
    }
  }

  lemma NothingReceived(p: nat, max: nat, d: nat)
    requires p > 0 && max > 0
    ensures Received([], p, max, d) == []
  {
  }

  /** Aligned mode does as well: each destination's tag maps back to it alone. */
  lemma {:induction false} GathersDeliver(groups: seq<nat>, p: nat, max: nat, d: nat, k: nat)
    requires k <= p && 0 < p <= max <= MAX_GROUPS
    ensures Received(Gathers(groups, p, max, k), p, max, d)
         == if d < k then RowsFor(groups, p, max, d, |groups|) else []
    decreases k
  {
    hide Destination, RowsFor, AlignedTag, Received;
    NothingReceived(p, max, d);
    if k == 0 {
    } else {
      GathersDeliver(groups, p, max, d, k - 1);
      AlignedTagMapsBack(k - 1, p, max);
      var rows := RowsFor(groups, p, max, k - 1, |groups|);
      if rows != [] {
        ReceivedSnoc(Gathers(groups, p, max, k - 1), Gather(k - 1, rows), p, max, d);
      } else {
        assert Gathers(groups, p, max, k) == Gathers(groups, p, max, k - 1);
      }
    }
  }

  function Selections(groups: seq<nat>, p: nat, max: nat, preserve: bool): seq<Selection>
    requires max > 0
  {
    if preserve then RunsUpTo(groups, |groups|) else Gathers(groups, p, max, p)
  }

  /** Both framing modes lose nothing, keep the order, and agree. */
  lemma BothModesDeliver(groups: seq<nat>, p: nat, max: nat, preserve: bool, d: nat)
    requires d < p <= max <= MAX_GROUPS
    ensures Received(Selections(groups, p, max, preserve), p, max, d) == RowsFor(groups, p, max, d, |groups|)
  {
    RunsDeliver(groups, p, max, d, |groups|);
    GathersDeliver(groups, p, max, d, p);
  }

  // ---- materializing ---------------------------------------------------------------------

  /** Row `i` restricted to the first `columns` columns. */
  function RowAt(batch: Batch, columns: nat, i: nat): seq<Cell>
    requires ValidBatch(batch) && columns <= |batch.columns| && i < batch.rows
  {
    seq(columns, c requires 0 <= c < columns =>
      assert ValidColumn(batch.columns[c], batch.rows);
      batch.columns[c].cells[i])
  }

  function Tuples(batch: Batch): (r: seq<seq<Cell>>)
    requires ValidBatch(batch)
    ensures |r| == batch.rows
  {
    seq(batch.rows, i requires 0 <= i < batch.rows => RowAt(batch, |batch.columns|, i))
  }

  function Picked(batch: Batch, columns: nat, rows: seq<nat>): (r: seq<seq<Cell>>)
    requires ValidBatch(batch) && columns <= |batch.columns| && InRows(rows, batch.rows)
    ensures |r| == |rows|
  {
    seq(|rows|, i requires 0 <= i < |rows| => RowAt(batch, columns, rows[i]))
  }

  function Sliced(c: Column, start: nat, len: nat): Column
    requires start + len <= |c.cells|
  {
    Column(c.binary, c.cells[start..start + len])
  }

  function Taken(c: Column, rows: seq<nat>): Column
    requires InRows(rows, |c.cells|)
  {
    Column(c.binary, seq(|rows|, i requires 0 <= i < |rows| => c.cells[rows[i]]))
  }

  /** The selected rows of the first `columns` columns. */
  function Gathered(batch: Batch, columns: nat, rows: seq<nat>): Batch
    requires ValidBatch(batch) && columns <= |batch.columns| && InRows(rows, batch.rows)
  {
    Batch(seq(columns, c requires 0 <= c < columns =>
                assert ValidColumn(batch.columns[c], batch.rows); Taken(batch.columns[c], rows)), |rows|)
  }

  lemma GatheredIsPicked(batch: Batch, columns: nat, rows: seq<nat>)
    requires ValidBatch(batch) && columns <= |batch.columns| && InRows(rows, batch.rows)
    ensures ValidBatch(Gathered(batch, columns, rows))
    ensures Tuples(Gathered(batch, columns, rows)) == Picked(batch, columns, rows)
  {
    var r := Gathered(batch, columns, rows);
    forall c | 0 <= c < columns ensures ValidColumn(r.columns[c], |rows|) {
      assert ValidColumn(batch.columns[c], batch.rows);
    }
    forall i | 0 <= i < |rows| ensures Tuples(r)[i] == Picked(batch, columns, rows)[i] {
      assert RowAt(r, columns, i) == RowAt(batch, columns, rows[i]);
    }
  }

  /** Project, then slice every column: the rows of a run. */
  method SliceBatch(batch: Batch, columns: nat, start: nat, len: nat) returns (r: Batch)
    requires ValidBatch(batch) && columns <= |batch.columns| && start + len <= batch.rows
    ensures InRows(Indices(start, len), batch.rows)
    ensures r == Gathered(batch, columns, Indices(start, len))
  {
    var projected := batch.columns[..columns];
    forall c | 0 <= c < columns ensures ValidColumn(projected[c], batch.rows) {
      assert ValidColumn(batch.columns[c], batch.rows);
    }
    r := Batch(seq(columns, c requires 0 <= c < columns => Sliced(projected[c], start, len)), len);
    IndicesAt(start, len);
    forall c | 0 <= c < columns ensures r.columns[c] == Taken(batch.columns[c], Indices(start, len)) {
      assert ValidColumn(projected[c], batch.rows);
      assert r.columns[c].cells == Taken(batch.columns[c], Indices(start, len)).cells;
    }
  }

  lemma {:induction false} IndicesAt(start: nat, len: nat)
    ensures forall i :: 0 <= i < len ==> Indices(start, len)[i] == start + i
  {
    if len == 0 {
    } else {
      IndicesAt(start, len - 1);
    }
  }

  /** Project, then gather every column. */
  method TakeBatch(batch: Batch, columns: nat, rows: seq<nat>) returns (r: Batch)
    requires ValidBatch(batch) && columns <= |batch.columns| && InRows(rows, batch.rows)
    ensures r == Gathered(batch, columns, rows)
  {
    var projected := batch.columns[..columns];
    forall c | 0 <= c < columns ensures ValidColumn(projected[c], batch.rows) {
      assert ValidColumn(batch.columns[c], batch.rows);
    }
    r := Batch(seq(columns, c requires 0 <= c < columns => assert ValidColumn(projected[c], batch.rows); Taken(projected[c], rows)), |rows|);
    assert r.columns == Gathered(batch, columns, rows).columns;
  }

  predicate Contiguous(rows: seq<nat>) {
    forall i :: 0 <= i < |rows| ==> rows[i] == rows[0] + i
  }

  /** The transport columns exist; an Arrow batch without columns can be sliced, not gathered. */
  predicate Materializable(batch: Batch, columns: nat, rows: seq<nat>) {
    columns <= |batch.columns| && (columns > 0 || Contiguous(rows))
  }

  /** A contiguous selection is sliced, a scattered one gathered; both give exactly its rows. */
  method Materialize(batch: Batch, rows: seq<nat>, columns: nat) returns (r: Result<Batch, RowError>)
    requires ValidBatch(batch) && InRows(rows, batch.rows)
    ensures r.Ok? <==> Materializable(batch, columns, rows)
    ensures r.Ok? ==> r.value == Gathered(batch, columns, rows)
    ensures r.Ok? ==> ValidBatch(r.value) && Tuples(r.value) == Picked(batch, columns, rows)
  {
    hide Gathered, Tuples, Picked;
    if columns > |batch.columns| {
      return Err(InvalidArgument);
    }
    GatheredIsPicked(batch, columns, rows);
    if |rows| == 0 {
      var empty := SliceBatch(batch, columns, 0, 0);
      assert Indices(0, 0) == rows;
      return Ok(empty);
    }
    var start := rows[0];
    if |rows| <= batch.rows - start && Contiguous(rows) {
      var cut := SliceBatch(batch, columns, start, |rows|);
      IndicesAt(start, |rows|);
      assert Indices(start, |rows|) == rows;
      return Ok(cut);
    }
    assert !Contiguous(rows) by { assert rows[|rows| - 1] < batch.rows; }
    if columns == 0 {
      return Err(InvalidArgument);
    }
    var gathered := TakeBatch(batch, columns, rows);
    return Ok(gathered);
  }

  // ---- frames ----------------------------------------------------------------------------

  datatype Frame = Frame(tag: nat, table: Batch)

  function SelectionError(batch: Batch, fields: KeyFields, max: nat, p: nat, preserve: bool): Option<RowError>
    requires ValidBatch(batch)
  {
    if max == 0 || max > MAX_GROUPS then Some(InvalidArgument)
    else if !preserve && (p == 0 || p > max) then Some(InvalidArgument)
    else match Groups(batch, fields, max)
      case Err(e) => Some(e)
      case Ok(_) => None
  }

  /** A batch is refused exactly when its geometry is invalid or it cannot be routed. */
  lemma SelectsExactly(batch: Batch, fields: KeyFields, max: nat, p: nat, preserve: bool)
    requires ValidBatch(batch)
    ensures SelectionError(batch, fields, max, p, preserve).None? <==>
              && 0 < max <= 32_768 && (preserve || 0 < p <= max) && Routable(batch, fields)
  {
    hide Groups, Routable, ValidBatch;
    if 0 < max <= MAX_GROUPS {
      RoutesExactly(batch, fields, max);
    }
  }

  /** `route_batch_by_key_group` or `route_batch`, as the mode asks. */
  method Select(batch: Batch, fields: KeyFields, max: nat, p: nat, preserve: bool)
    returns (r: Result<seq<Selection>, RowError>)
    requires ValidBatch(batch)
    ensures match SelectionError(batch, fields, max, p, preserve)
            case Some(e) => r == Err(e)
            case None => r == Ok(Selections(Groups(batch, fields, max).value, p, max, preserve))
  {
    hide Gathers, RunsUpTo;
    if max == 0 || max > MAX_GROUPS {
      return Err(InvalidArgument);
    }
    if !preserve && (p == 0 || p > max) {
      return Err(InvalidArgument);
    }
    var groups := VisitKeyGroups(batch, fields, max);
    if groups.Err? {
      return Err(groups.error);
    }
    if preserve {
      var runs := RouteByKeyGroup(groups.value);
      return Ok(runs);
    }
    var gathers := RouteByDestination(groups.value, p, max);
    return Ok(gathers);
  }

  ghost predicate SelectionsInRows(sels: seq<Selection>, n: nat) {
    forall i :: 0 <= i < |sels| ==> InRows(Selected(sels[i]), n)
  }

  lemma SelectionsAreInRows(groups: seq<nat>, p: nat, max: nat, preserve: bool)
    requires max > 0
    ensures SelectionsInRows(Selections(groups, p, max, preserve), |groups|)
  {
    if preserve {
      RunsAreMaximal(groups, |groups|);
      forall i | 0 <= i < |RunsUpTo(groups, |groups|)|
        ensures InRows(Selected(RunsUpTo(groups, |groups|)[i]), |groups|)
      {
        var run := RunsUpTo(groups, |groups|)[i];
        IndicesAt(run.start, run.len);
      }
    } else {
      GathersInRows(groups, p, max, p);
    }
  }

  lemma {:induction false} GathersInRows(groups: seq<nat>, p: nat, max: nat, d: nat)
    requires max > 0
    ensures SelectionsInRows(Gathers(groups, p, max, d), |groups|)
  {
    hide RowsFor;
    if d == 0 {
    } else {
      GathersInRows(groups, p, max, d - 1);
      RowsForIncreases(groups, p, max, d - 1, |groups|);
      var front := Gathers(groups, p, max, d - 1);
      var rows := RowsFor(groups, p, max, d - 1, |groups|);
      assert InRows(rows, |groups|);
      assert Gathers(groups, p, max, d) == front || Gathers(groups, p, max, d) == front + [Gather(d - 1, rows)];
    }
  }

  /** Frame by frame, the tag and the rows of its selection. */
  ghost predicate FramesOf(frames: seq<Frame>, sels: seq<Selection>, batch: Batch, columns: nat, p: nat, max: nat)
    requires ValidBatch(batch) && columns <= |batch.columns| && p > 0
    requires SelectionsInRows(sels, batch.rows) && |frames| <= |sels|
  {
    forall i :: 0 <= i < |frames| ==>
      && ValidBatch(frames[i].table) && frames[i].tag == Tag(sels[i], p, max)
      && Tuples(frames[i].table) == Picked(batch, columns, Selected(sels[i]))
  }

  ghost predicate ValidFrames(frames: seq<Frame>) {
    forall i :: 0 <= i < |frames| ==> ValidBatch(frames[i].table)
  }

  /** The rows destination `d` decodes from the frames sent to it, in order. */
  function Delivered(frames: seq<Frame>, p: nat, max: nat, d: nat): seq<seq<Cell>>
    requires max > 0 && ValidFrames(frames)
  {
    if frames == [] then []
    else
      var last := frames[|frames| - 1];
      Delivered(frames[..|frames| - 1], p, max, d)
      + (if Destination(last.tag, p, max) == d then Tuples(last.table) else [])
  }

  lemma {:induction false} DeliveredIsReceived(
    frames: seq<Frame>, sels: seq<Selection>, batch: Batch, columns: nat, p: nat, max: nat, d: nat, k: nat)
    requires ValidBatch(batch) && columns <= |batch.columns| && p > 0 && max > 0
    requires SelectionsInRows(sels, batch.rows) && k <= |frames| == |sels|
    requires FramesOf(frames, sels, batch, columns, p, max) && ValidFrames(frames)
    ensures InRows(Received(sels[..k], p, max, d), batch.rows)
    ensures Delivered(frames[..k], p, max, d) == Picked(batch, columns, Received(sels[..k], p, max, d))
    decreases k
  {
    hide Destination, Tag, Selected, Tuples, RowAt;
    if k == 0 {
    } else {
      DeliveredIsReceived(frames, sels, batch, columns, p, max, d, k - 1);
      assert sels[..k][..k - 1] == sels[..k - 1] && frames[..k][..k - 1] == frames[..k - 1];
      assert InRows(Selected(sels[k - 1]), batch.rows);
      PickedConcat(batch, columns, Received(sels[..k - 1], p, max, d), Selected(sels[k - 1]));
    }
  }

  lemma PickedConcat(batch: Batch, columns: nat, a: seq<nat>, b: seq<nat>)
    requires ValidBatch(batch) && columns <= |batch.columns| && InRows(a, batch.rows) && InRows(b, batch.rows)
    ensures InRows(a + b, batch.rows)
    ensures Picked(batch, columns, a + b) == Picked(batch, columns, a) + Picked(batch, columns, b)
  {
  }

  lemma FramesOfSnoc(
    frames: seq<Frame>, frame: Frame, sels: seq<Selection>, batch: Batch, columns: nat, p: nat, max: nat)
    requires ValidBatch(batch) && columns <= |batch.columns| && p > 0 && SelectionsInRows(sels, batch.rows)
    requires |frames| < |sels| && FramesOf(frames, sels, batch, columns, p, max) && ValidBatch(frame.table)
    requires frame.tag == Tag(sels[|frames|], p, max)
    requires Tuples(frame.table) == Picked(batch, columns, Selected(sels[|frames|]))
    ensures FramesOf(frames + [frame], sels, batch, columns, p, max)
  {
    hide Tuples, Picked, Selected, Tag, ValidBatch;
  }

  lemma ValidFramesSnoc(frames: seq<Frame>, frame: Frame)
    requires ValidFrames(frames) && ValidBatch(frame.table)
    ensures ValidFrames(frames + [frame])
  {
    hide ValidBatch;
  }

  lemma NoFrames(sels: seq<Selection>, batch: Batch, columns: nat, p: nat, max: nat)
    requires ValidBatch(batch) && SelectionsInRows(sels, batch.rows)
    ensures ValidFrames([]) && (p > 0 && columns <= |batch.columns| ==> FramesOf([], sels, batch, columns, p, max))
  {
  }

  lemma EnoughColumns(batch: Batch, columns: nat, rows: seq<nat>)
    requires Materializable(batch, columns, rows)
    ensures columns <= |batch.columns|
  {
  }

  ghost predicate AllMaterialize(sels: seq<Selection>, batch: Batch, columns: nat) {
    forall i :: 0 <= i < |sels| ==> Materializable(batch, columns, Selected(sels[i]))
  }

  /** One frame per selection, or the error of the first that cannot be materialized. */
  method EncodeFrames(sels: seq<Selection>, batch: Batch, columns: nat, p: nat, max: nat)
    returns (r: Result<seq<Frame>, RowError>)
    requires ValidBatch(batch) && SelectionsInRows(sels, batch.rows)
    requires p > 0 || forall i :: 0 <= i < |sels| ==> sels[i].Run?
    ensures r.Ok? ==> |r.value| == |sels| && (sels != [] ==> columns <= |batch.columns|)
    ensures r.Ok? ==> ValidFrames(r.value)
    ensures r.Ok? && p > 0 && columns <= |batch.columns| ==> FramesOf(r.value, sels, batch, columns, p, max)
    ensures r.Ok? <==> AllMaterialize(sels, batch, columns)
  {
    hide Tuples, Picked, Selected, FramesOf, ValidFrames, ValidBatch, Materializable, Gathered;
    var frames: seq<Frame> := [];
    NoFrames(sels, batch, columns, p, max);
    var i := 0;
    while i < |sels|
      invariant 0 <= i <= |sels| && |frames| == i && ValidFrames(frames)
      invariant i > 0 ==> columns <= |batch.columns|
      invariant forall j :: 0 <= j < i ==> Materializable(batch, columns, Selected(sels[j]))
      invariant p > 0 && columns <= |batch.columns| ==> FramesOf(frames, sels, batch, columns, p, max)
    {
      var table := Materialize(batch, Selected(sels[i]), columns);
      if table.Err? {
        return Err(table.error);
      }
      EnoughColumns(batch, columns, Selected(sels[i]));
      var tag := if sels[i].Run? then sels[i].group else AlignedTag(sels[i].destination, p, max);
      ValidFramesSnoc(frames, Frame(tag, table.value));
      if p > 0 {
        FramesOfSnoc(frames, Frame(tag, table.value), sels, batch, columns, p, max);
      }
      frames := frames + [Frame(tag, table.value)];
      i := i + 1;
    }
    return Ok(frames);
  }

  /** What destination `d` must decode: its rows of the batch, in input order. */
  ghost predicate DeliversTo(frames: seq<Frame>, batch: Batch, columns: nat, groups: seq<nat>, p: nat, max: nat, d: nat)
    requires ValidBatch(batch) && max > 0 && ValidFrames(frames) && |groups| == batch.rows
  {
    var rows := RowsFor(groups, p, max, d, batch.rows);
    InRows(rows, batch.rows) && (columns <= |batch.columns| ==> Delivered(frames, p, max, d) == Picked(batch, columns, rows))
  }

  lemma FramesDeliver(
    frames: seq<Frame>, batch: Batch, columns: nat, groups: seq<nat>, p: nat, max: nat, preserve: bool, d: nat)
    requires ValidBatch(batch) && columns <= |batch.columns| && d < p <= max <= MAX_GROUPS
    requires |groups| == batch.rows && ValidFrames(frames)
    requires var sels := Selections(groups, p, max, preserve);
      && SelectionsInRows(sels, batch.rows) && |frames| == |sels|
      && FramesOf(frames, sels, batch, columns, p, max)
    ensures DeliversTo(frames, batch, columns, groups, p, max, d)
  {
    hide Selections, RowsFor, Picked, Received, Delivered, FramesOf;
    var sels := Selections(groups, p, max, preserve);
    BothModesDeliver(groups, p, max, preserve, d);
    DeliveredIsReceived(frames, sels, batch, columns, p, max, d, |sels|);
    assert sels[..|sels|] == sels && frames[..|frames|] == frames;
  }

  /** The whole exchange of one batch: on success every destination gets exactly its rows of the
      batch, projected to the transport columns and in input order, whichever mode framed them. */
  method FrameHashExchangeBatch(
    batch: Batch, fields: KeyFields, max: nat, p: nat, preserve: bool, columns: nat)
    returns (r: Result<seq<Frame>, RowError>)
    requires ValidBatch(batch)
    ensures match SelectionError(batch, fields, max, p, preserve)
            case Some(e) => r == Err(e)
            case None =>
              && (r.Ok? <==> AllMaterialize(Selections(Groups(batch, fields, max).value, p, max, preserve), batch, columns))
              && (r.Ok? ==> ValidFrames(r.value))
              && (r.Ok? && p <= max ==>
                    forall d :: 0 <= d < p ==>
                                  DeliversTo(r.value, batch, columns, Groups(batch, fields, max).value, p, max, d))
  {
    hide Groups, DeliversTo, FramesOf, Selections, AllMaterialize;
    var sels := Select(batch, fields, max, p, preserve);
    if sels.Err? {
      return Err(sels.error);
    }
    SelectionFacts(batch, fields, max, p, preserve);
    r := EncodeFrames(sels.value, batch, columns, p, max);
    if r.Ok? && p <= max {
      FramesDeliverAll(r.value, batch, columns, fields, p, max, preserve);
    }
  }

  lemma SelectionFacts(batch: Batch, fields: KeyFields, max: nat, p: nat, preserve: bool)
    requires ValidBatch(batch) && SelectionError(batch, fields, max, p, preserve).None?
    ensures var groups := Groups(batch, fields, max).value;
      && |groups| == batch.rows
      && SelectionsInRows(Selections(groups, p, max, preserve), batch.rows)
      && (p > 0 || forall i :: 0 <= i < |Selections(groups, p, max, preserve)| ==>
                                Selections(groups, p, max, preserve)[i].Run?)
  {
    hide Groups;
    GroupsCoverRows(batch, fields, max);
    var groups := Groups(batch, fields, max).value;
    SelectionsAreInRows(groups, p, max, preserve);
    if preserve {
      RunsOnly(groups, p, max, preserve);
    }
  }

  lemma FramesDeliverAll(
    frames: seq<Frame>, batch: Batch, columns: nat, fields: KeyFields, p: nat, max: nat, preserve: bool)
    requires ValidBatch(batch) && ValidFrames(frames) && p <= max
    requires SelectionError(batch, fields, max, p, preserve).None?
    requires var sels := Selections(Groups(batch, fields, max).value, p, max, preserve);
      && SelectionsInRows(sels, batch.rows) && |frames| == |sels|
      && (p > 0 && columns <= |batch.columns| ==> FramesOf(frames, sels, batch, columns, p, max))
    ensures |Groups(batch, fields, max).value| == batch.rows
    ensures forall d :: 0 <= d < p ==>
                          DeliversTo(frames, batch, columns, Groups(batch, fields, max).value, p, max, d)
  {
    hide Groups, DeliversTo, FramesOf, Selections;
    GroupsCoverRows(batch, fields, max);
    var groups := Groups(batch, fields, max).value;
    forall d | 0 <= d < p ensures DeliversTo(frames, batch, columns, groups, p, max, d) {
      if columns <= |batch.columns| {
        FramesDeliver(frames, batch, columns, groups, p, max, preserve, d);
      } else {
        NothingToDeliver(frames, batch, columns, groups, p, max, d);
      }
    }
  }

  lemma GroupsCoverRows(batch: Batch, fields: KeyFields, max: nat)
    requires ValidBatch(batch) && 0 < max <= MAX_GROUPS && Groups(batch, fields, max).Ok?
    ensures |Groups(batch, fields, max).value| == batch.rows
  {
  }

  lemma RunsOnly(groups: seq<nat>, p: nat, max: nat, preserve: bool)
    requires max > 0 && preserve
    ensures forall i :: 0 <= i < |Selections(groups, p, max, preserve)| ==> Selections(groups, p, max, preserve)[i].Run?
  {
    RunsAreMaximal(groups, |groups|);
    hide RunsUpTo;
  }

  lemma NothingToDeliver(frames: seq<Frame>, batch: Batch, columns: nat, groups: seq<nat>, p: nat, max: nat, d: nat)
    requires ValidBatch(batch) && max > 0 && ValidFrames(frames) && |groups| == batch.rows
    requires columns > |batch.columns|
    ensures DeliversTo(frames, batch, columns, groups, p, max, d)
  {
    RowsForIncreases(groups, p, max, d, batch.rows);
  }
}
