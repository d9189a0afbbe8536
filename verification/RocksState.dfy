/** Keyed state in an ordered store. RocksDB is a map from byte strings to byte strings whose
    cursor visits keys in lexicographic order; every key carries its key group as a big-endian
    prefix. */
module RocksState {
  import opened Bytes
  import opened SnapshotCodec

  type Database = map<bytes, bytes>

  // ---- the iteration order ---------------------------------------------------------------

  predicate LexLe(a: bytes, b: bytes) {
    if a == [] then true
    else if b == [] then false
    else if a[0] != b[0] then a[0] < b[0]
    else LexLe(a[1..], b[1..])
  }

  predicate LexLt(a: bytes, b: bytes) {
    a != b && LexLe(a, b)
  }

  lemma {:induction false} LexTotal(a: bytes, b: bytes)
    ensures LexLe(a, b) || LexLe(b, a)
    ensures LexLe(a, a)
    decreases |a| + |b|
  {
    if a == [] {
    } else {
      LexTotal(a[1..], if b == [] then [] else b[1..]);
    }
  }

  lemma {:induction false} LexAntisymmetric(a: bytes, b: bytes)
    requires LexLe(a, b) && LexLe(b, a)
    ensures a == b
    decreases |a|
  {
    if a == [] {
    } else {
      LexAntisymmetric(a[1..], b[1..]);
      assert a == [a[0]] + a[1..] && b == [b[0]] + b[1..];
    }
  }

  lemma {:induction false} LexTransitive(a: bytes, b: bytes, c: bytes)
    requires LexLe(a, b) && LexLe(b, c)
    ensures LexLe(a, c)
    decreases |a|
  {
    if a == [] || a[0] != b[0] || b[0] != c[0] {
    } else {
      LexTransitive(a[1..], b[1..], c[1..]);
    }
  }

  /** A prefix sorts no later than anything that starts with it, and nothing that lacks the
      prefix sorts between the two: keys sharing a prefix are contiguous. */
  lemma {:induction false} PrefixContiguous(prefix: bytes, a: bytes, b: bytes)
    requires StartsWith(b, prefix)
    ensures LexLe(prefix, b)
    ensures LexLe(prefix, a) && LexLe(a, b) ==> StartsWith(a, prefix)
    decreases |prefix|
  {
    if prefix == [] {
    } else {
      assert b[0] == prefix[0];
      assert b[1..][..|prefix| - 1] == prefix[1..];
      if a != [] && a[0] == prefix[0] {
        PrefixContiguous(prefix[1..], a[1..], b[1..]);
        if LexLe(prefix, a) && LexLe(a, b) {
          assert a[..|prefix|] == [a[0]] + a[1..][..|prefix| - 1] == prefix;
        }
      } else {
        PrefixContiguous(prefix[1..], [], b[1..]);
      }
    }
  }

  /** Stripping a common prefix keeps the order. */
  lemma {:induction false} StripPrefix(prefix: bytes, a: bytes, b: bytes)
    ensures LexLe(prefix + a, prefix + b) == LexLe(a, b)
    decreases |prefix|
  {
    if prefix == [] {
      assert prefix + a == a && prefix + b == b;
    } else {
      StripPrefix(prefix[1..], a, b);
      TailOfConcat(prefix, a);
      TailOfConcat(prefix, b);
    }
  }

  // ---- raw iteration ---------------------------------------------------------------------

  predicate IsLeast(keys: set<bytes>, k: bytes) {
    k in keys && forall other :: other in keys ==> LexLe(k, other)
  }

  lemma {:induction false} LeastExists(keys: set<bytes>)
    requires keys != {}
    ensures exists k :: IsLeast(keys, k)
    decreases |keys|
  {
    var some :| some in keys;
    var rest := keys - {some};
    LexTotal(some, some);
    if rest == {} {
      assert keys == {some};
      assert IsLeast(keys, some);
    } else {
      LeastExists(rest);
      var k :| IsLeast(rest, k);
      LexTotal(some, k);
      if LexLe(k, some) {
        assert IsLeast(keys, k);
      } else {
        forall other | other in keys ensures LexLe(some, other) {
          if other != some {
            LexTransitive(some, k, other);
          }
        }
        assert IsLeast(keys, some);
      }
    }
  }

  /** The first key in iteration order. */
  function Least(keys: set<bytes>): (r: Option<bytes>)
    ensures r.None? <==> keys == {}
    ensures r.Some? ==> IsLeast(keys, r.value)
  {
    if keys == {} then None
    else
      assert exists k :: k in keys && IsLeast(keys, k) by {
        LeastExists(keys);
      }
      assert forall a, b | IsLeast(keys, a) && IsLeast(keys, b) :: a == b by {
        forall a, b | IsLeast(keys, a) && IsLeast(keys, b) ensures a == b {
          LexAntisymmetric(a, b);
        }
      }
      var k :| k in keys && IsLeast(keys, k);
      Some(k)
  }

  /** Keys a seek to `target` leaves ahead of the cursor. */
  function From(db: Database, target: bytes): set<bytes> {
    set k | k in db && LexLe(target, k)
  }

  /** Keys strictly after `k`. */
  function After(db: Database, k: bytes): set<bytes> {
    set other | other in db && LexLt(k, other)
  }

  class RawIterator {
    const db: Database
    var position: Option<bytes>

    constructor (db: Database)
      ensures this.db == db && position == None
    {
      this.db := db;
      position := None;
    }

    method Seek(target: bytes)
      modifies this
      ensures position == Least(From(db, target))
    {
      position := Least(From(db, target));
    }

    method Next()
      requires position.Some?
      modifies this
      ensures position == Least(After(db, old(position).value))
    {
      position := Least(After(db, position.value));
    }
  }

  // ---- what a prefix scan visits ---------------------------------------------------------

  /** The entries a scan yields while keys carry `prefix`, with the prefix stripped. */
  function Visited(db: Database, prefix: bytes, rest: set<bytes>): seq<Entry>
    requires rest <= db.Keys
    decreases |rest|
  {
    match Least(rest)
    case None => []
    case Some(k) =>
      if !StartsWith(k, prefix) then []
      else [Entry(k[|prefix|..], db[k])] + Visited(db, prefix, rest - {k})
  }

  /** `entries` is the contents of `keys` under `prefix`, in strictly ascending key order. */
  ghost predicate Lists(db: Database, prefix: bytes, keys: set<bytes>, entries: seq<Entry>)
    requires keys <= db.Keys
  {
    && (forall i, j :: 0 <= i < j < |entries| ==> LexLt(entries[i].key, entries[j].key))
    && (forall i :: 0 <= i < |entries| ==>
          prefix + entries[i].key in keys && db[prefix + entries[i].key] == entries[i].value)
    && (forall k :: k in keys && StartsWith(k, prefix) ==> HasKey(entries, k[|prefix|..]))
  }

  ghost predicate HasKey(entries: seq<Entry>, key: bytes) {
    exists i :: 0 <= i < |entries| && entries[i].key == key
  }

  lemma {:induction false} VisitedLists(db: Database, prefix: bytes, rest: set<bytes>)
    requires rest <= db.Keys && forall k :: k in rest ==> LexLe(prefix, k)
    ensures Lists(db, prefix, rest, Visited(db, prefix, rest))
    decreases |rest|
  {
    hide LexLe;
    match Least(rest)
    case None =>
    case Some(first) =>
      if !StartsWith(first, prefix) {
        forall k | k in rest && StartsWith(k, prefix) ensures false {
          PrefixContiguous(prefix, first, k);
        }
      } else {
        VisitedLists(db, prefix, rest - {first});
        var (head, tail) := (Entry(first[|prefix|..], db[first]), Visited(db, prefix, rest - {first}));
        assert prefix + head.key == first;
        forall i | 0 <= i < |tail| ensures LexLt(head.key, tail[i].key) {
          StripPrefix(prefix, head.key, tail[i].key);
        }
        ConsLists(db, prefix, rest, head, tail);
      }
  }

  lemma ConsLists(db: Database, prefix: bytes, rest: set<bytes>, head: Entry, tail: seq<Entry>)
    requires rest <= db.Keys && prefix + head.key in rest && db[prefix + head.key] == head.value
    requires Lists(db, prefix, rest - {prefix + head.key}, tail)
    requires forall i :: 0 <= i < |tail| ==> LexLt(head.key, tail[i].key)
    ensures Lists(db, prefix, rest, [head] + tail)
  {
    hide LexLe;
    var entries := [head] + tail;
    forall k | k in rest && StartsWith(k, prefix) ensures HasKey(entries, k[|prefix|..]) {
      if k == prefix + head.key {
        assert entries[0].key == k[|prefix|..];
      } else {
        var i :| 0 <= i < |tail| && tail[i].key == k[|prefix|..];
        assert entries[i + 1].key == k[|prefix|..];
      }
    }
  }

  /** The group's contents determine the listing. */
  lemma {:induction false} ListingUnique(a: seq<Entry>, b: seq<Entry>)
    requires forall i, j :: 0 <= i < j < |a| ==> LexLt(a[i].key, a[j].key)
    requires forall i, j :: 0 <= i < j < |b| ==> LexLt(b[i].key, b[j].key)
    requires forall e :: e in a <==> e in b
    ensures a == b
    decreases |a|
  {
    hide LexLe;
    if a == [] {
      if b != [] {
        HasMember(b);
      }
    } else {
      assert a[0] in b && b != [] && b[0] in a;
      var i :| 0 <= i < |b| && b[i] == a[0];
      var j :| 0 <= j < |a| && a[j] == b[0];
      if i > 0 && j > 0 {
        LexAntisymmetric(a[0].key, b[0].key);
      }
      assert a[0] == b[0];
      forall e ensures e in a[1..] <==> e in b[1..] {
        TailMembers(a, e);
        TailMembers(b, e);
      }
      ListingUnique(a[1..], b[1..]);
      assert a == [a[0]] + a[1..] && b == [b[0]] + b[1..];
    }
  }

  lemma HasMember(a: seq<Entry>)
    requires a != []
    ensures exists e :: e in a
  {
    assert a[0] in a;
  }

  lemma TailMembers(a: seq<Entry>, e: Entry)
    requires a != [] && forall i, j :: 0 <= i < j < |a| ==> LexLt(a[i].key, a[j].key)
    ensures e in a[1..] <==> e in a && e != a[0]
  {
    hide LexLe;
    if e in a && e != a[0] {
      var i :| 0 <= i < |a| && a[i] == e;
      assert a[1..][i - 1] == e;
    }
  }

  // ---- key groups ------------------------------------------------------------------------

  /** `database_key_parts`. */
  function DatabaseKey(group: u32, key: bytes): bytes {
    Be(group, 4) + key
  }

  lemma GroupPrefixInjective(group: u32, other: u32)
    requires Be(group, 4) == Be(other, 4)
    ensures group == other
  {
    Pow256Values();
    FromBeOfBe(group, 4);
    FromBeOfBe(other, 4);
  }

  /** The entries of one key group in key order. */
  function GroupEntries(db: Database, group: u32): seq<Entry> {
    Visited(db, Be(group, 4), From(db, Be(group, 4)))
  }

  ghost predicate ListsGroup(db: Database, group: u32, entries: seq<Entry>) {
    Lists(db, Be(group, 4), db.Keys, entries)
  }

  lemma GroupEntriesListGroup(db: Database, group: u32)
    ensures ListsGroup(db, group, GroupEntries(db, group))
  {
    hide LexLe, Be;
    var prefix := Be(group, 4);
    VisitedLists(db, prefix, From(db, prefix));
    forall k | k in db && StartsWith(k, prefix) ensures k in From(db, prefix) {
      PrefixContiguous(prefix, k, k);
    }
  }

  lemma ListMember(db: Database, prefix: bytes, entries: seq<Entry>, e: Entry)
    requires Lists(db, prefix, db.Keys, entries)
    ensures e in entries <==> prefix + e.key in db && db[prefix + e.key] == e.value
  {
    hide LexLe;
    var k := prefix + e.key;
    if k in db && db[k] == e.value {
      assert StartsWith(k, prefix) && k[|prefix|..] == e.key;
      var i :| 0 <= i < |entries| && entries[i].key == e.key;
      assert entries[i] == e;
    }
  }

  /** Two databases that agree on a group list it identically. */
  lemma SameGroupSameEntries(db: Database, other: Database, group: u32)
    requires forall key :: (DatabaseKey(group, key) in db <==> DatabaseKey(group, key) in other)
    requires forall key :: DatabaseKey(group, key) in db ==>
               db[DatabaseKey(group, key)] == other[DatabaseKey(group, key)]
    ensures GroupEntries(db, group) == GroupEntries(other, group)
  {
    hide LexLe, Be;
    GroupEntriesListGroup(db, group);
    GroupEntriesListGroup(other, group);
    var (a, b) := (GroupEntries(db, group), GroupEntries(other, group));
    forall e ensures e in a <==> e in b {
      ListMember(db, Be(group, 4), a, e);
      ListMember(other, Be(group, 4), b, e);
      assert Be(group, 4) + e.key == DatabaseKey(group, e.key);
    }
    ListingUnique(a, b);
  }

  // ---- writes ----------------------------------------------------------------------------

  datatype StateMutation = StateMutation(group: u32, key: bytes, value: Option<bytes>)

  function Apply(db: Database, m: StateMutation): Database {
    match m.value
    case Some(v) => db[DatabaseKey(m.group, m.key) := v]
    case None => db - {DatabaseKey(m.group, m.key)}
  }

  function ApplyAll(db: Database, mutations: seq<StateMutation>): Database {
    if mutations == [] then db
    else Apply(ApplyAll(db, mutations[..|mutations| - 1]), mutations[|mutations| - 1])
  }

  lemma {:induction false} ApplyAllConcat(db: Database, a: seq<StateMutation>, b: seq<StateMutation>)
    ensures ApplyAll(db, a + b) == ApplyAll(ApplyAll(db, a), b)
    decreases |b|
  {
    hide Apply;
    if b == [] {
      assert a + b == a;
    } else {
      var n := |b| - 1;
      assert (a + b)[..|a + b| - 1] == a + b[..n];
      ApplyAllConcat(db, a, b[..n]);
    }
  }

  datatype StateError = NotOwned | MeasureOverflow | AdmissionDenied | WriteFailed | Snapshot(error: SnapshotError)

  /** Flink's bulk capacity for one write. */
  const CAPACITY: nat := 500

  predicate Names(m: StateMutation, k: bytes) {
    DatabaseKey(m.group, m.key) == k
  }

  /** Mutation `j` is the last one for database key `k`. */
  ghost predicate LastFor(mutations: seq<StateMutation>, k: bytes, j: nat) {
    j < |mutations| && Names(mutations[j], k) && forall i :: j < i < |mutations| ==> !Names(mutations[i], k)
  }

  /** The last mutation of a key decides: a value is stored, a deletion removes; a key that no
      mutation names keeps what it had. */
  lemma {:induction false} LastMutationDecides(db: Database, mutations: seq<StateMutation>, k: bytes)
    ensures var after := ApplyAll(db, mutations);
      && (forall j: nat :: LastFor(mutations, k, j) ==>
            match mutations[j].value
            case Some(v) => k in after && after[k] == v
            case None => k !in after)
      && ((forall j :: 0 <= j < |mutations| ==> !Names(mutations[j], k)) ==>
            (k in after <==> k in db) && (k in db ==> after[k] == db[k]))
    decreases |mutations|
  {
    hide Apply, Names;
    if mutations == [] {
    } else {
      var n := |mutations| - 1;
      var front := mutations[..n];
      LastMutationDecides(db, front, k);
      ApplyEffect(ApplyAll(db, front), mutations[n], k);
      assert ApplyAll(db, mutations) == Apply(ApplyAll(db, front), mutations[n]);
      if Names(mutations[n], k) {
        assert forall j: nat :: LastFor(mutations, k, j) ==> j == n;
      } else {
        forall j: nat | LastFor(mutations, k, j) ensures LastFor(front, k, j) {
          SameLast(mutations, k, j);
        }
        assert forall i :: 0 <= i < n ==> front[i] == mutations[i];
      }
    }
  }

  lemma SameLast(mutations: seq<StateMutation>, k: bytes, j: nat)
    requires mutations != [] && !Names(mutations[|mutations| - 1], k) && LastFor(mutations, k, j)
    ensures LastFor(mutations[..|mutations| - 1], k, j)
  {
  }

  /** One mutation touches its own key and no other. */
  lemma ApplyEffect(db: Database, m: StateMutation, k: bytes)
    ensures var after := Apply(db, m);
      && (Names(m, k) && m.value.Some? ==> k in after && after[k] == m.value.value)
      && (Names(m, k) && m.value.None? ==> k !in after)
      && (!Names(m, k) ==> (k in after <==> k in db) && (k in db ==> after[k] == db[k]))
  {
    hide DatabaseKey;
  }

  /** A proper prefix of the mutations was applied and nothing else. */
  ghost predicate PartlyWritten(before: Database, after: Database, mutations: seq<StateMutation>) {
    exists n :: 0 <= n < |mutations| && after == ApplyAll(before, mutations[..n])
  }

  /** The mutations from one position up to another. */
  ghost function Span(mutations: seq<StateMutation>, from: nat, to: nat): seq<StateMutation>
    requires from <= to <= |mutations|
  {
    mutations[from..to]
  }

  /** Whether a pending write has neither the 500 mutations nor the bytes that send it out. */
  ghost predicate Room(pending: seq<StateMutation>, limit: nat, size: seq<StateMutation> -> nat) {
    |pending| < 500 && (limit > 0 ==> size(pending) < limit)
  }

  /** One write: it went out as soon as it had no more room, or with the last mutation. */
  ghost predicate OneWrite(mutations: seq<StateMutation>, from: nat, to: nat, limit: nat, size: seq<StateMutation> -> nat) {
    && from < to <= |mutations|
    && (forall n :: from < n < to ==> Room(Span(mutations, from, n), limit, size))
    && (to == |mutations| || !Room(Span(mutations, from, to), limit, size))
  }

  /** The writes follow one another from the first mutation on; `cuts` says where each ends. */
  ghost predicate Chunked(mutations: seq<StateMutation>, cuts: seq<nat>, limit: nat, size: seq<StateMutation> -> nat) {
    && cuts != [] && cuts[0] == 0 && cuts[|cuts| - 1] <= |mutations|
    && (forall k :: 1 <= k < |cuts| ==> OneWrite(mutations, cuts[k - 1], cuts[k], limit, size))
  }

  lemma NoCut(mutations: seq<StateMutation>, limit: nat, size: seq<StateMutation> -> nat)
    ensures Chunked(mutations, [0], limit, size)
  {
  }

  lemma NextCut(mutations: seq<StateMutation>, cuts: seq<nat>, to: nat, limit: nat, size: seq<StateMutation> -> nat)
    requires Chunked(mutations, cuts, limit, size) && OneWrite(mutations, cuts[|cuts| - 1], to, limit, size)
    ensures Chunked(mutations, cuts + [to], limit, size)
  {
  }

  class RocksStateBackend {
    var db: Database
    const first: u32
    const last: u32
    const writeBatchSize: nat

    constructor (first: u32, last: u32, writeBatchSize: nat)
      ensures this.first == first && this.last == last && this.writeBatchSize == writeBatchSize
      ensures db == map[]
    {
      this.first := first;
      this.last := last;
      this.writeBatchSize := writeBatchSize;
      db := map[];
    }

    predicate Owned(group: u32) {
      first <= group <= last
    }

    /** `flush_batches`: `size` is RocksDB's encoded size of a pending batch and `accepts`
        says which writes the database completes. The writes go out in order until the first
        the database does not complete, which leaves exactly those before it applied. */
    method FlushBatches(mutations: seq<StateMutation>, size: seq<StateMutation> -> nat, accepts: nat -> bool)
      returns (r: Result<(), StateError>, ghost cuts: seq<nat>)
      modifies this
      ensures Chunked(mutations, cuts, writeBatchSize, size)
      ensures db == ApplyAll(old(db), mutations[..cuts[|cuts| - 1]])
      ensures forall chunk :: 0 <= chunk < |cuts| - 1 ==> accepts(chunk)
      ensures r.Ok? <==> cuts[|cuts| - 1] == |mutations|
      ensures r.Err? ==> !accepts(|cuts| - 1)
      ensures r.Ok? ==> db == ApplyAll(old(db), mutations)
      ensures r.Err? ==> PartlyWritten(old(db), db, mutations)
      ensures (forall chunk :: accepts(chunk)) ==> r.Ok?
    {
      hide ApplyAll, Chunked;
      var pending: seq<StateMutation> := [];
      var chunk := 0;
      ghost var flushed := 0;
      cuts := [0];
      NoCut(mutations, writeBatchSize, size);
      assert db == ApplyAll(db, []) by { EmptyWrite(db); }
      for i := 0 to |mutations|
        invariant 0 <= flushed <= i && pending == mutations[flushed..i]
        invariant |cuts| == chunk + 1 && cuts[chunk] == flushed && |pending| < 500
        invariant Chunked(mutations, cuts, writeBatchSize, size)
        invariant forall k :: 0 <= k < chunk ==> accepts(k)
        invariant forall n :: flushed < n <= i ==> Room(Span(mutations, flushed, n), writeBatchSize, size)
        invariant db == ApplyAll(old(db), mutations[..flushed])
      {
        pending := pending + [mutations[i]];
        assert pending == Span(mutations, flushed, i + 1);
        if |pending| == CAPACITY || (writeBatchSize > 0 && size(pending) >= writeBatchSize) {
          if !accepts(chunk) {
            return Err(WriteFailed), cuts;
          }
          ApplyAllConcat(old(db), mutations[..flushed], pending);
          assert mutations[..flushed] + pending == mutations[..i + 1];
          NextCut(mutations, cuts, i + 1, writeBatchSize, size);
          db := ApplyAll(db, pending);
          pending := [];
          flushed := i + 1;
          chunk := chunk + 1;
          cuts := cuts + [flushed];
        }
      }
      if pending != [] {
        if !accepts(chunk) {
          return Err(WriteFailed), cuts;
        }
        ApplyAllConcat(old(db), mutations[..flushed], pending);
        assert mutations[..flushed] + pending == mutations == mutations[..|mutations|];
        NextCut(mutations, cuts, |mutations|, writeBatchSize, size);
        db := ApplyAll(db, pending);
        return Ok(()), cuts + [|mutations|];
      }
      assert mutations[..flushed] == mutations;
      return Ok(()), cuts;
    }

    /** Ownership of every mutation is checked before the first write. */
    method WriteBatchRefs(mutations: seq<StateMutation>, size: seq<StateMutation> -> nat, accepts: nat -> bool)
      returns (r: Result<(), StateError>)
      modifies this
      ensures r == Err(NotOwned) <==> exists i :: 0 <= i < |mutations| && !(first <= mutations[i].group <= last)
      ensures r == Err(NotOwned) ==> db == old(db)
      ensures r.Ok? ==> db == ApplyAll(old(db), mutations)
      ensures r.Err? ==> PartlyWritten(old(db), db, mutations)
      ensures (forall chunk :: accepts(chunk)) ==> r.Ok? || r == Err(NotOwned)
    {
      for i := 0 to |mutations|
        invariant db == old(db)
        invariant forall j :: 0 <= j < i ==> Owned(mutations[j].group)
      {
        if !Owned(mutations[i].group) {
          EmptyWrite(db);
          assert mutations[..0] == [];
          return Err(NotOwned);
        }
      }
      ghost var cuts;
      r, cuts := FlushBatches(mutations, size, accepts);
      if r.Err? {
        r := Err(WriteFailed);
      }
    }

    /** `snapshot_key_group_admitted`: the first pass measures, the host admits exactly that
        many bytes, and the second pass fills them. Every failure is one of the four named. */
    method SnapshotKeyGroupAdmitted(group: u32, admit: nat -> bool) returns (r: Result<bytes, StateError>)
      ensures r == SnapshotOf(db, first <= group <= last, group, admit)
    {
      hide LexLe, Be, Visited;
      if !Owned(group) {
        return Err(NotOwned);
      }
      var prefix := Be(group, 4);
      ghost var all := GroupEntries(db, group);
      ghost var seen: seq<Entry> := [];
      ghost var rest := From(db, prefix);
      var cursor := new RawIterator(db);
      cursor.Seek(prefix);
      FromAhead(db, prefix);
      var count := 0;
      var size: usize := 16;
      while cursor.position.Some? && StartsWith(cursor.position.value, prefix)
        invariant rest <= db.Keys && cursor.db == db && cursor.position == Least(rest)
        invariant Ahead(db, rest)
        invariant all == seen + Visited(db, prefix, rest)
        invariant count == |seen| && size == 16 + |Body(seen)|
        decreases |rest|
      {
        var key := cursor.position.value;
        var value := db[key];
        ghost var e := Entry(key[4..], value);
        Step(db, prefix, rest);
        BodyPrefix(seen, e, Visited(db, prefix, rest - {key}));
        if size + 4 + |key| + |value| > USIZE_MAX {
          return Err(MeasureOverflow);
        }
        size := size + 4 + |key| + |value|;
        count := count + 1;
        cursor.Next();
        seen, rest := seen + [e], rest - {key};
      }
      Stop(db, prefix, rest);
      assert seen == all;
      if !admit(size) {
        return Err(AdmissionDenied);
      }
      if count >= U32 {
        return Err(Snapshot(TooLong));
      }
      BodyLength(all);
      r := WritePass(group, count, size);
    }

    /** The second pass, over the same contents as the first. */
    method WritePass(group: u32, count: nat, size: usize) returns (r: Result<bytes, StateError>)
      requires count == |GroupEntries(db, group)| < U32 && size == |Frame(group, GroupEntries(db, group))|
      ensures var all := GroupEntries(db, group);
        r == if Encodable(all) then Ok(Frame(group, all)) else Err(Snapshot(TooLong))
    {
      hide LexLe, Be, Visited, Header, Body, WriterAppend;
      var prefix := Be(group, 4);
      ghost var all := GroupEntries(db, group);
      ghost var seen: seq<Entry> := [];
      ghost var rest := From(db, prefix);
      BodyLength(all);
      var cursor := new RawIterator(db);
      var writer := new SnapshotWriter(group, count, size);
      assert writer.State() == Filled(group, all, seen) by { FreshWriter(group, all); }
      cursor.Seek(prefix);
      FromAhead(db, prefix);
      while cursor.position.Some? && StartsWith(cursor.position.value, prefix)
        invariant rest <= db.Keys && cursor.db == db && cursor.position == Least(rest)
        invariant Ahead(db, rest)
        invariant all == seen + Visited(db, prefix, rest)
        invariant |seen| <= count && writer.State() == Filled(group, all, seen)
        invariant forall i :: 0 <= i < |seen| ==> EntryFits(seen[i])
        decreases |rest|
      {
        var key := cursor.position.value;
        ghost var e := Entry(key[4..], db[key]);
        Step(db, prefix, rest);
        AdmittedAppend(group, all, seen, e, Visited(db, prefix, rest - {key}));
        var appended := writer.Append(key[4..], db[key]);
        if appended.Err? {
          return Err(Snapshot(appended.error));
        }
        cursor.Next();
        seen, rest := seen + [e], rest - {key};
      }
      Stop(db, prefix, rest);
      assert seen == all;
      assert WriterFinish(Filled(group, all, all)) == Ok(Frame(group, all));
      var finished := writer.Finish();
      assert finished.Ok?; // the measured size was exact
      return Ok(finished.value);
    }

    /** `restore_key_group`. */
    method RestoreKeyGroup(group: u32, data: slice, size: seq<StateMutation> -> nat, accepts: nat -> bool)
      returns (r: Result<(), StateError>)
      modifies this
      ensures !(first <= group <= last) ==> r == Err(NotOwned) && db == old(db)
      ensures first <= group <= last && Decode(group, data).Err? ==>
                r == Err(Snapshot(Decode(group, data).error)) && db == old(db)
      ensures r.Ok? ==> first <= group <= last && Decode(group, data).Ok?
      ensures r.Ok? ==> db == ApplyAll(old(db), Puts(group, Decode(group, data).value))
      ensures r.Err? && first <= group <= last && Decode(group, data).Ok? ==>
                PartlyWritten(old(db), db, Puts(group, Decode(group, data).value))
      ensures first <= group <= last && Decode(group, data).Ok? && (forall chunk :: accepts(chunk)) ==> r.Ok?
    {
      if !Owned(group) {
        return Err(NotOwned);
      }
      var decoded := DecodeKeyGroupSnapshot(group, data);
      if decoded.Err? {
        return Err(Snapshot(decoded.error));
      }
      hide Decode, ApplyAll, Encodable;
      r := WriteBatchRefs(Puts(group, decoded.value), size, accepts);
    }
  }

  lemma EmptyWrite(db: Database)
    ensures ApplyAll(db, []) == db
  {
  }

  /** The keys in `rest` are exactly those from the iterator's position on. */
  ghost predicate Ahead(db: Database, rest: set<bytes>) {
    forall k, other :: k in rest && other in db && LexLe(k, other) ==> other in rest
  }

  lemma FromAhead(db: Database, target: bytes)
    ensures Ahead(db, From(db, target))
  {
    forall k, other | k in From(db, target) && other in db && LexLe(k, other)
      ensures other in From(db, target)
    {
      LexTransitive(target, k, other);
    }
  }

  /** Advancing past the first of `rest` leaves the others ahead. */
  lemma Step(db: Database, prefix: bytes, rest: set<bytes>)
    requires rest <= db.Keys && Ahead(db, rest)
    requires Least(rest).Some? && StartsWith(Least(rest).value, prefix)
    ensures var k := Least(rest).value;
      && After(db, k) == rest - {k} && Ahead(db, rest - {k})
      && Visited(db, prefix, rest) == [Entry(k[|prefix|..], db[k])] + Visited(db, prefix, rest - {k})
  {
    hide LexLe;
    var k := Least(rest).value;
    forall a, b | a in rest - {k} && b in db && LexLe(a, b) ensures b in rest - {k} {
      if b == k {
        LexAntisymmetric(a, k);
      }
    }
  }

  lemma Stop(db: Database, prefix: bytes, rest: set<bytes>)
    requires rest <= db.Keys
    requires Least(rest).None? || !StartsWith(Least(rest).value, prefix)
    ensures Visited(db, prefix, rest) == []
  {
  }

  lemma BodyPrefix(seen: seq<Entry>, e: Entry, later: seq<Entry>)
    ensures seen + ([e] + later) == (seen + [e]) + later
    ensures Body(seen + [e]) == Body(seen) + EntryBytes(e)
    ensures |EntryBytes(e)| == EntrySize(e)
    ensures |Body(seen)| + EntrySize(e) <= |Body(seen + ([e] + later))|
  {
    BodySnoc(seen, e);
    ConcatAssoc(seen, [e], later);
    BodyConcat(seen + [e], later);
    EntryLength(e);
  }

  /** A writer admitted for `all` that has taken `seen` so far. */
  ghost function Filled(group: u32, all: seq<Entry>, seen: seq<Entry>): WriterState
    requires |seen| <= |all| < U32 && |Frame(group, all)| <= USIZE_MAX
  {
    WriterState(Header(group, |all|) + Body(seen), |Frame(group, all)|, |all| - |seen|)
  }

  lemma FreshWriter(group: u32, all: seq<Entry>)
    requires |all| < U32 && |Frame(group, all)| <= USIZE_MAX
    ensures WriterNew(group, |all|, |Frame(group, all)|) == Ok(Filled(group, all, []))
  {
    BodyLength(all);
    assert Header(group, |all|) + Body([]) == Header(group, |all|);
  }

  lemma AdmittedAppend(group: u32, all: seq<Entry>, seen: seq<Entry>, e: Entry, later: seq<Entry>)
    requires |all| < U32 && |Frame(group, all)| <= USIZE_MAX && all == seen + ([e] + later)
    ensures all == (seen + [e]) + later && all[|seen|] == e
    ensures WriterAppend(Filled(group, all, seen), e)
            == if EntryFits(e) then Ok(Filled(group, all, seen + [e])) else Err(TooLong)
  {
    hide Header, Body, EntryBytes;
    BodyPrefix(seen, e, later);
    ConcatAssoc(Header(group, |all|), Body(seen), EntryBytes(e));
  }

  // ---- snapshot and restore --------------------------------------------------------------

  function SnapshotOf(db: Database, owned: bool, group: u32, admit: nat -> bool): Result<bytes, StateError> {
    var entries := GroupEntries(db, group);
    if !owned then Err(NotOwned)
    else if |Frame(group, entries)| > USIZE_MAX then Err(MeasureOverflow)
    else if !admit(|Frame(group, entries)|) then Err(AdmissionDenied)
    else if !Encodable(entries) then Err(Snapshot(TooLong))
    else Ok(Frame(group, entries))
  }

  function Puts(group: u32, entries: seq<Entry>): (r: seq<StateMutation>)
    ensures |r| == |entries|
  {
    seq(|entries|, i requires 0 <= i < |entries| => StateMutation(group, entries[i].key, Some(entries[i].value)))
  }

  /** Writing a listing's entries: what every database key maps to afterwards. */
  lemma {:induction false} PutsEffect(db: Database, group: u32, entries: seq<Entry>, k: bytes)
    requires forall i, j :: 0 <= i < j < |entries| ==> entries[i].key != entries[j].key
    ensures var after := ApplyAll(db, Puts(group, entries));
      && (!(exists i :: 0 <= i < |entries| && DatabaseKey(group, entries[i].key) == k) ==>
            (k in after <==> k in db) && (k in db ==> after[k] == db[k]))
      && (forall i :: 0 <= i < |entries| && DatabaseKey(group, entries[i].key) == k ==>
            k in after && after[k] == entries[i].value)
    decreases |entries|
  {
    hide ApplyAll, Puts, DatabaseKey;
    if entries == [] {
      NoPuts(db, group);
    } else {
      var n := |entries| - 1;
      PutsEffect(db, group, entries[..n], k);
      PutsStep(db, group, entries);
      forall i | 0 <= i < n && DatabaseKey(group, entries[i].key) == k
        ensures DatabaseKey(group, entries[n].key) != k
      {
        if DatabaseKey(group, entries[n].key) == k {
          SameDatabaseKey(group, entries[i].key, entries[n].key);
        }
      }
      assert forall i :: 0 <= i < n ==> entries[..n][i] == entries[i];
    }
  }

  lemma NoPuts(db: Database, group: u32)
    ensures ApplyAll(db, Puts(group, [])) == db
  {
  }

  lemma PutsStep(db: Database, group: u32, entries: seq<Entry>)
    requires entries != []
    ensures var n := |entries| - 1;
      ApplyAll(db, Puts(group, entries))
      == ApplyAll(db, Puts(group, entries[..n]))[DatabaseKey(group, entries[n].key) := entries[n].value]
  {
    hide DatabaseKey;
    assert Puts(group, entries)[..|entries| - 1] == Puts(group, entries[..|entries| - 1]);
  }

  lemma SameDatabaseKey(group: u32, a: bytes, b: bytes)
    requires DatabaseKey(group, a) == DatabaseKey(group, b)
    ensures a == b
  {
    hide Be;
    ConcatSlices(Be(group, 4), a);
    ConcatSlices(Be(group, 4), b);
  }

  /** Restoring a snapshot of `group` into a store that holds none of it reproduces the
      group and leaves every other group as it was. */
  lemma SnapshotThenRestore(source: Database, target: Database, group: u32, other: u32)
    requires Encodable(GroupEntries(source, group)) && |Frame(group, GroupEntries(source, group))| <= ISIZE_MAX
    requires forall key :: DatabaseKey(group, key) !in target
    ensures var snapshot: slice := Frame(group, GroupEntries(source, group));
      && Decode(group, snapshot).Ok?
      && var after := ApplyAll(target, Puts(group, Decode(group, snapshot).value));
         && GroupEntries(after, group) == GroupEntries(source, group)
         && (other != group ==> GroupEntries(after, other) == GroupEntries(target, other))
  {
    hide Be, LexLe, Visited, ApplyAll, Frame;
    var entries := GroupEntries(source, group);
    DecodeInvertsEncode(group, entries);
    GroupEntriesListGroup(source, group);
    var after := ApplyAll(target, Puts(group, entries));
    forall key
      ensures DatabaseKey(group, key) in after <==> DatabaseKey(group, key) in source
      ensures DatabaseKey(group, key) in source ==>
                after[DatabaseKey(group, key)] == source[DatabaseKey(group, key)]
    {
      RestoredKey(source, target, group, key);
    }
    SameGroupSameEntries(after, source, group);
    if other != group {
      forall key
        ensures DatabaseKey(other, key) in after <==> DatabaseKey(other, key) in target
        ensures DatabaseKey(other, key) in target ==>
                  after[DatabaseKey(other, key)] == target[DatabaseKey(other, key)]
      {
        UntouchedKey(source, target, group, other, key);
      }
      SameGroupSameEntries(after, target, other);
    }
  }

  lemma RestoredKey(source: Database, target: Database, group: u32, key: bytes)
    requires forall key :: DatabaseKey(group, key) !in target
    ensures var after := ApplyAll(target, Puts(group, GroupEntries(source, group)));
      && (DatabaseKey(group, key) in after <==> DatabaseKey(group, key) in source)
      && (DatabaseKey(group, key) in source ==>
            after[DatabaseKey(group, key)] == source[DatabaseKey(group, key)])
  {
    hide Be, LexLe, ApplyAll, Visited;
    var entries := GroupEntries(source, group);
    GroupEntriesListGroup(source, group);
    var k := DatabaseKey(group, key);
    PutsEffect(target, group, entries, k);
    if k in source {
      ConcatSlices(Be(group, 4), key);
      var i :| 0 <= i < |entries| && entries[i].key == key;
    }
  }

  lemma UntouchedKey(source: Database, target: Database, group: u32, other: u32, key: bytes)
    requires other != group
    ensures var after := ApplyAll(target, Puts(group, GroupEntries(source, group)));
      && (DatabaseKey(other, key) in after <==> DatabaseKey(other, key) in target)
      && (DatabaseKey(other, key) in target ==>
            after[DatabaseKey(other, key)] == target[DatabaseKey(other, key)])
  {
    hide Be, LexLe, ApplyAll, Visited;
    var entries := GroupEntries(source, group);
    GroupEntriesListGroup(source, group);
    forall i | 0 <= i < |entries| ensures DatabaseKey(group, entries[i].key) != DatabaseKey(other, key) {
      ConcatSlices(Be(group, 4), entries[i].key);
      ConcatSlices(Be(other, 4), key);
      if DatabaseKey(group, entries[i].key) == DatabaseKey(other, key) {
        GroupPrefixInjective(group, other);
      }
    }
    PutsEffect(target, group, entries, DatabaseKey(other, key));
  }
}
