/** Admission scan of a serialized plan: a recursive walk over Protocol Buffers wire data that
    estimates decoded memory without decoding. The table of message layouts is generated from
    the protocol descriptors and is a parameter here. */
module WireMemory {
  import opened Bytes

  datatype Kind = Message(layout: nat) | Binary | Scalar

  datatype Layout = Layout(inline: nat, fields: seq<(nat, Kind)>)

  type Table = seq<Layout>

  /** Every nested message kind refers to a layout of the table. */
  predicate Closed(table: Table) {
    forall l, f :: 0 <= l < |table| && 0 <= f < |table[l].fields| && table[l].fields[f].1.Message? ==>
      table[l].fields[f].1.layout < |table|
  }

  datatype WireError =
    | RecursionLimit | TagOverflow | FieldZero | UnsupportedWireType | Truncated
    | VarintOverflow | InvalidVarint | SizeOverflow

  datatype Cost = Cost(structural: nat, payload: nat)

  const LIMIT: nat := 100
  const U64: nat := USIZE_MAX + 1

  function Find(fields: seq<(nat, Kind)>, number: nat): (r: Option<Kind>)
    ensures r.Some? ==> (number, r.value) in fields
  {
    if fields == [] then None
    else if fields[0].0 == number then Some(fields[0].1)
    else Find(fields[1..], number)
  }

  /** The layout declares field `number` to be of `kind`: its first entry with that number. */
  ghost predicate Declares(fields: seq<(nat, Kind)>, number: nat, kind: Kind) {
    exists f :: 0 <= f < |fields| && fields[f] == (number, kind) && forall g :: 0 <= g < f ==> fields[g].0 != number
  }

  ghost predicate Unknown(fields: seq<(nat, Kind)>, number: nat) {
    forall f :: 0 <= f < |fields| ==> fields[f].0 != number
  }

  /** What a layout says about a field, by membership. */
  ghost function KindIn(fields: seq<(nat, Kind)>, number: nat): (r: Option<Kind>)
    ensures r.None? <==> Unknown(fields, number)
    ensures r.Some? ==> Declares(fields, number, r.value)
  {
    if Unknown(fields, number) then None
    else
      SomeDeclared(fields, number);
      var kind :| Declares(fields, number, kind);
      Some(kind)
  }

  lemma {:induction false} SomeDeclared(fields: seq<(nat, Kind)>, number: nat)
    requires !Unknown(fields, number)
    ensures exists kind :: Declares(fields, number, kind)
    decreases |fields|
  {
    var n := |fields| - 1;
    if Unknown(fields[..n], number) {
      assert fields[n].0 == number;
      assert forall g :: 0 <= g < n ==> fields[g] == fields[..n][g];
      assert fields[n] == (number, fields[n].1);
      assert Declares(fields, number, fields[n].1);
    } else {
      SomeDeclared(fields[..n], number);
      var kind :| Declares(fields[..n], number, kind);
      var f :| 0 <= f < n && fields[..n][f] == (number, kind) && forall g :: 0 <= g < f ==> fields[..n][g].0 != number;
      assert fields[f] == fields[..n][f];
      assert forall g :: 0 <= g < f ==> fields[g] == fields[..n][g];
      assert Declares(fields, number, kind);
    }
  }

  lemma DeclaresOne(fields: seq<(nat, Kind)>, number: nat, a: Kind, b: Kind)
    requires Declares(fields, number, a) && Declares(fields, number, b)
    ensures a == b
  {
  }

  /** The lookup finds a field exactly when the layout has one, and finds what it declares. */
  lemma {:induction false} FindIsExact(fields: seq<(nat, Kind)>, number: nat)
    ensures Find(fields, number) == KindIn(fields, number)
    decreases |fields|
  {
    if fields == [] {
    } else if fields[0].0 == number {
      assert fields[0] == (number, fields[0].1);
      assert Declares(fields, number, fields[0].1);
      DeclaresOne(fields, number, fields[0].1, KindIn(fields, number).value);
    } else {
      var rest := fields[1..];
      FindIsExact(rest, number);
      UnknownTail(fields, number);
      if KindIn(rest, number).Some? {
        DeclaredInTail(fields, number, KindIn(rest, number).value);
        DeclaresOne(fields, number, KindIn(rest, number).value, KindIn(fields, number).value);
      }
    }
  }

  lemma UnknownTail(fields: seq<(nat, Kind)>, number: nat)
    requires fields != [] && fields[0].0 != number
    ensures Unknown(fields, number) <==> Unknown(fields[1..], number)
  {
    assert forall f :: 0 < f < |fields| ==> fields[f] == fields[1..][f - 1];
    if Unknown(fields, number) {
      forall f | 0 <= f < |fields[1..]| ensures fields[1..][f].0 != number {
        assert fields[1..][f] == fields[f + 1];
      }
    }
  }

  lemma DeclaredInTail(fields: seq<(nat, Kind)>, number: nat, kind: Kind)
    requires fields != [] && fields[0].0 != number && Declares(fields[1..], number, kind)
    ensures Declares(fields, number, kind)
  {
    var f :| 0 <= f < |fields[1..]| && fields[1..][f] == (number, kind) && forall g :: 0 <= g < f ==> fields[1..][g].0 != number;
    assert fields[f + 1] == (number, kind);
    forall g | 0 <= g < f + 1 ensures fields[g].0 != number {
      if g > 0 {
        assert fields[g] == fields[1..][g - 1];
      }
    }
  }

  lemma FindClosed(table: Table, l: nat, number: nat)
    requires Closed(table) && l < |table|
    ensures var kind := Find(table[l].fields, number);
      kind.Some? && kind.value.Message? ==> kind.value.layout < |table|
  {
    var kind := Find(table[l].fields, number);
    if kind.Some? {
      var f :| 0 <= f < |table[l].fields| && table[l].fields[f] == (number, kind.value);
    }
  }

  lemma Scaled(k: nat, a: nat, b: nat)
    ensures k * a + k * b == k * (a + b)
    ensures a <= b ==> k * a <= k * b
  {
    if a <= b {
      assert k * b == k * a + k * (b - a);
    }
  }

  // ---- base 128 varints ------------------------------------------------------------------

  datatype Read = Read(value: nat, used: nat)

  /** The low seven bits of byte `i`, shifted into place. */
  function Shifted(b: byte, i: nat): nat {
    (b % 128) * Pow2(7 * i)
  }

  function VarintFrom(s: bytes, i: nat, value: nat): (r: Result<Read, WireError>)
    requires i <= 10
    ensures r.Ok? ==> i < r.value.used <= |s|
    decreases 10 - i
  {
    if i == 10 then Err(InvalidVarint)
    else if i >= |s| then Err(Truncated)
    else if i == 9 && s[i] > 1 then Err(VarintOverflow)
    else
      var next := BitOr(value, Shifted(s[i], i));
      if s[i] < 128 then Ok(Read(next, i + 1)) else VarintFrom(s, i + 1, next)
  }

  function Varint(s: bytes): (r: Result<Read, WireError>)
    ensures r.Ok? ==> 0 < r.value.used <= |s|
  {
    VarintFrom(s, 0, 0)
  }

  /** `varint`: the loop over shifts 0, 7, .. 63. */
  method ReadVarint(s: bytes) returns (r: Result<Read, WireError>)
    ensures r == Varint(s)
  {
    hide BitOr, Shifted;
    var value := 0;
    for i := 0 to 10
      invariant VarintFrom(s, i, value) == Varint(s)
    {
      if i >= |s| {
        return Err(Truncated);
      }
      var b := s[i];
      if i == 9 && b > 1 {
        return Err(VarintOverflow);
      }
      value := BitOr(value, Shifted(b, i));
      if b < 128 {
        return Ok(Read(value, i + 1));
      }
    }
    return Err(InvalidVarint);
  }

  /** An encoding: continuation bytes, then one byte below 128. */
  predicate IsVarint(e: bytes) {
    e != [] && e[|e| - 1] < 128 && forall i :: 0 <= i < |e| - 1 ==> e[i] >= 128
  }

  /** The number an encoding denotes, by Horner's rule. */
  function VarintValue(e: bytes): nat {
    if e == [] then 0 else e[0] % 128 + 128 * VarintValue(e[1..])
  }

  lemma SevenMoreBits(k: nat)
    ensures Pow2(7 * (k + 1)) == 128 * Pow2(7 * k)
  {
    Pow2Add(7, 7 * k);
    assert Pow2(7) == 128 by { assert Pow2(3) == 8; assert Pow2(5) == 32; }
  }

  lemma {:induction false} VarintValueSnoc(e: bytes, b: byte)
    ensures VarintValue(e + [b]) == VarintValue(e) + (b % 128) * Pow2(7 * |e|)
    ensures VarintValue(e) < Pow2(7 * |e|)
    decreases |e|
  {
    if e == [] {
      assert e + [b] == [b];
      assert VarintValue([b]) == b % 128 + 128 * VarintValue([]);
    } else {
      hide Pow2;
      var (tail, low, p) := (e[1..], b % 128, Pow2(7 * (|e| - 1)));
      VarintValueSnoc(tail, b);
      TailOfConcat(e, [b]);
      SevenMoreBits(|e| - 1);
      assert Pow2(7 * |e|) == 128 * p;
      assert low * (128 * p) == 128 * (low * p);
      assert VarintValue(e + [b]) == e[0] % 128 + 128 * VarintValue(tail + [b]);
    }
  }

  /** One more byte: the OR in the loop is the next Horner term. */
  lemma NextByte(s: bytes, i: nat)
    requires i < |s|
    ensures VarintValue(s[..i + 1]) == BitOr(VarintValue(s[..i]), Shifted(s[i], i))
    ensures VarintValue(s[..i + 1]) == VarintValue(s[..i]) + (s[i] % 128) * Pow2(7 * i)
    ensures VarintValue(s[..i]) < Pow2(7 * i)
  {
    assert s[..i + 1] == s[..i] + [s[i]];
    VarintValueSnoc(s[..i], s[i]);
    BitOrDisjoint(s[i] % 128, VarintValue(s[..i]), 7 * i);
    BitOrCommutes(VarintValue(s[..i]), (s[i] % 128) * Pow2(7 * i));
  }

  lemma {:induction false} BitOrCommutes(a: nat, b: nat)
    ensures BitOr(a, b) == BitOr(b, a)
    decreases a + b
  {
    if a == 0 || b == 0 {
    } else {
      BitOrCommutes(a / 2, b / 2);
    }
  }

  lemma Pow2Of63()
    ensures Pow2(63) == 0x8000_0000_0000_0000 && 2 * Pow2(63) == U64
  {
    hide Pow2;
    SevenMoreBits(0);
    assert Pow2(0) == 1 by { Pow2Zero(); }
    Pow2Add(7, 7);
    Pow2Add(14, 14);
    Pow2Add(28, 28);
    Pow2Add(56, 7);
  }

  lemma Pow2Zero()
    ensures Pow2(0) == 1
  {
  }

  lemma {:induction false} VarintFromExact(s: bytes, i: nat, n: nat)
    requires i <= 10 && i <= |s| && forall j :: 0 <= j < i ==> s[j] >= 128
    ensures var r := VarintFrom(s, i, VarintValue(s[..i]));
      (r.Ok? && r.value.used == n) <==>
        (i < n <= 10 && n <= |s| && IsVarint(s[..n]) && VarintValue(s[..n]) < U64)
    ensures var r := VarintFrom(s, i, VarintValue(s[..i]));
      r.Ok? ==> r.value.value == VarintValue(s[..r.value.used])
    decreases 10 - i
  {
    hide BitOr, Pow2, VarintValue, IsVarint;
    if i < 10 && i < |s| {
      NextByte(s, i);
      if s[i] < 128 {
        TerminatedAt(s, i, n);
        LastByte(s, i);
      } else if i == 9 {
        NoVarint(s, 10, n);
      } else {
        VarintFromExact(s, i + 1, n);
        NoVarint(s, i + 1, n);
      }
    } else {
      NoVarint(s, i, n);
    }
  }

  /** A terminated encoding fits exactly when it is shorter than ten bytes or its tenth byte
      adds at most one bit. */
  lemma LastByte(s: bytes, i: nat)
    requires i < 10 && i < |s| && s[i] < 128
    ensures VarintValue(s[..i + 1]) < U64 <==> i < 9 || s[i] <= 1
  {
    hide BitOr, Pow2, VarintValue;
    Pow2Of63();
    if i < 9 {
      SmallVarint(s, i);
    } else {
      NextByte(s, 9);
      Scaled(Pow2(63), s[9], 1);
      Scaled(Pow2(63), 2, s[9]);
    }
  }

  /** With the first byte below 128 at `i`, the encoding ends there. */
  lemma TerminatedAt(s: bytes, i: nat, n: nat)
    requires i < |s| && s[i] < 128 && forall j :: 0 <= j < i ==> s[j] >= 128
    ensures n <= |s| && i < n && IsVarint(s[..n]) ==> n == i + 1
    ensures IsVarint(s[..i + 1])
  {
    if n <= |s| && i + 1 < n {
      assert s[..n][i] == s[i];
    }
  }

  lemma NoVarint(s: bytes, i: nat, n: nat)
    requires i <= |s| && forall j :: 0 <= j < i ==> s[j] >= 128
    ensures n <= i ==> !(n <= |s| && IsVarint(s[..n]))
  {
    if 0 < n <= i {
      assert s[..n][n - 1] == s[n - 1];
    }
  }

  /** Nine seven-bit groups stay below 2^64. */
  lemma SmallVarint(s: bytes, i: nat)
    requires i < 9 && i < |s|
    ensures VarintValue(s[..i + 1]) < U64
  {
    hide Pow2;
    VarintValueSnoc(s[..i + 1], 0);
    var k := 7 * (i + 1);
    Pow2Add(k, 63 - k);
    Pow2Of63();
    Scaled(Pow2(k), 1, Pow2(63 - k));
  }

  /** `varint` accepts exactly the encodings of at most ten bytes that denote a number below
      2^64, and returns that number. */
  lemma VarintExact(s: bytes, n: nat)
    ensures (Varint(s).Ok? && Varint(s).value.used == n) <==>
              (0 < n <= 10 && n <= |s| && IsVarint(s[..n]) && VarintValue(s[..n]) < U64)
    ensures Varint(s).Ok? ==> Varint(s).value.value == VarintValue(s[..Varint(s).value.used])
  {
    VarintFromExact(s, 0, n);
  }

  function EncodeVarint(n: nat): (r: bytes)
    ensures r != []
  {
    if n < 128 then [n] else [128 + n % 128] + EncodeVarint(n / 128)
  }

  lemma {:induction false} EncodeVarintDenotes(n: nat, k: nat)
    requires k > 0 && n < Pow2(7 * k)
    ensures IsVarint(EncodeVarint(n)) && VarintValue(EncodeVarint(n)) == n && |EncodeVarint(n)| <= k
    decreases k
  {
    hide Pow2;
    if n >= 128 {
      SevenMoreBits(k - 1);
      Pow2Zero();
      assert n / 128 < Pow2(7 * (k - 1));
      EncodeVarintDenotes(n / 128, k - 1);
      var e := EncodeVarint(n / 128);
      assert ([128 + n % 128] + e)[1..] == e;
      assert (128 + n % 128) % 128 == n % 128;
    } else {
      assert VarintValue([n]) == n % 128 + 128 * VarintValue([]);
    }
  }

  lemma VarintOfEncoded(n: nat, rest: bytes)
    requires n < U64
    ensures Varint(EncodeVarint(n) + rest) == Ok(Read(n, |EncodeVarint(n)|))
  {
    hide Pow2, VarintFrom, VarintValue, IsVarint;
    Pow2Of63();
    SevenMoreBits(9);
    EncodeVarintDenotes(n, 10);
    var e := EncodeVarint(n);
    ConcatSlices(e, rest);
    VarintExact(e + rest, |e|);
  }

  // ---- one field off the front -----------------------------------------------------------

  /** A field: its number, its bytes when length-delimited, and how much input it takes. */
  datatype Token = Token(number: nat, content: Option<bytes>, used: nat)

  function TakeToken(s: bytes, number: nat, content: Option<bytes>, used: nat): Result<Token, WireError> {
    if used > |s| then Err(Truncated) else Ok(Token(number, content, used))
  }

  function NextField(s: bytes): (r: Result<Token, WireError>)
    requires s != []
    ensures r.Ok? ==> 2 <= r.value.used <= |s|
    ensures r.Ok? && r.value.content.Some? ==> |r.value.content.value| + 2 <= r.value.used
    ensures r.Ok? ==> 0 < r.value.number < U32
  {
    match Varint(s)
    case Err(e) => Err(e)
    case Ok(Read(tag, n)) =>
      if tag / 8 >= U32 then Err(TagOverflow)
      else if tag / 8 == 0 then Err(FieldZero)
      else if tag % 8 == 0 then
        match Varint(s[n..])
        case Err(e) => Err(e)
        case Ok(Read(_, m)) => Ok(Token(tag / 8, None, n + m))
      else if tag % 8 == 1 then TakeToken(s, tag / 8, None, n + 8)
      else if tag % 8 == 5 then TakeToken(s, tag / 8, None, n + 4)
      else if tag % 8 == 2 then
        match Varint(s[n..])
        case Err(e) => Err(e)
        case Ok(Read(len, m)) =>
          if n + m + len > |s| then Err(Truncated)
          else Ok(Token(tag / 8, Some(s[n + m..n + m + len]), n + m + len))
      else Err(UnsupportedWireType)
  }

  // ---- the scan --------------------------------------------------------------------------

  function Plus(c: Cost, structural: nat, payload: nat): Result<Cost, WireError> {
    if c.structural + structural > USIZE_MAX || c.payload + payload > USIZE_MAX then Err(SizeOverflow)
    else Ok(Cost(c.structural + structural, c.payload + payload))
  }

  function ScanMessage(table: Table, s: bytes, l: nat, depth: nat, c: Cost): Result<Cost, WireError>
    requires Closed(table) && l < |table|
    decreases |s|, 2
  {
    if depth >= LIMIT then Err(RecursionLimit)
    else match Plus(c, 4 * table[l].inline + 64, 0)
      case Err(e) => Err(e)
      case Ok(d) => ScanFields(table, s, l, depth, d)
  }

  function ScanFields(table: Table, s: bytes, l: nat, depth: nat, c: Cost): Result<Cost, WireError>
    requires Closed(table) && l < |table|
    decreases |s|, 1
  {
    if s == [] then Ok(c)
    else match NextField(s)
      case Err(e) => Err(e)
      case Ok(token) =>
        match Charge(table, token, l, depth, c, |s|)
        case Err(e) => Err(e)
        case Ok(d) => ScanFields(table, s[token.used..], l, depth, d)
  }

  /** What one field adds; unknown fields are free. */
  function Charge(table: Table, token: Token, l: nat, depth: nat, c: Cost, bound: nat): Result<Cost, WireError>
    requires Closed(table) && l < |table|
    requires token.content.Some? ==> |token.content.value| < bound
    decreases bound, 0
  {
    FindClosed(table, l, token.number);
    match Find(table[l].fields, token.number)
    case None => Ok(c)
    case Some(kind) =>
      if token.content.None? then Plus(c, 32, 0)
      else
        var value := token.content.value;
        match kind
        case Message(child) => ScanMessage(table, value, child, depth + 1, c)
        case Binary => Plus(c, 128, |value|)
        case Scalar => Plus(c, 32 * |value|, 0)
  }

  /** `PlanMemory`, whose scan adds to its two counters in place. */
  class PlanMemory {
    var structural: nat
    var payload: nat

    ghost function Abs(): Cost
      reads this
    {
      Cost(structural, payload)
    }

    constructor ()
      ensures Abs() == Cost(0, 0)
    {
      structural := 0;
      payload := 0;
    }

    method Add(more: nat, bytes: nat) returns (r: Result<(), WireError>)
      modifies this
      ensures match Plus(old(Abs()), more, bytes)
              case Ok(c) => r == Ok(()) && Abs() == c
              case Err(e) => r == Err(e)
    {
      if payload + bytes > USIZE_MAX {
        return Err(SizeOverflow);
      }
      payload := payload + bytes;
      if structural + more > USIZE_MAX {
        return Err(SizeOverflow);
      }
      structural := structural + more;
      return Ok(());
    }

    /** `message`: one loop over the fields, recursing into nested messages. */
    method Scan(table: Table, s: bytes, l: nat, depth: nat) returns (r: Result<(), WireError>)
      requires Closed(table) && l < |table|
      modifies this
      ensures match ScanMessage(table, s, l, depth, old(Abs()))
              case Ok(c) => r == Ok(()) && Abs() == c
              case Err(e) => r == Err(e)
      decreases |s|
    {
      if depth >= LIMIT {
        return Err(RecursionLimit);
      }
      r := Add(4 * table[l].inline + 64, 0);
      if r.Err? {
        return;
      }
      ghost var whole := ScanFields(table, s, l, depth, Abs());
      var rest := s;
      while rest != []
        invariant |rest| <= |s|
        invariant ScanFields(table, rest, l, depth, Abs()) == whole
        invariant r == Ok(())
        decreases |rest|
      {
        var next := NextField(rest);
        if next.Err? {
          return Err(next.error);
        }
        var token := next.value;
        FindClosed(table, l, token.number);
        var kind := Find(table[l].fields, token.number);
        if kind.Some? {
          if token.content.None? {
            r := Add(32, 0);
          } else if kind.value.Message? {
            r := Scan(table, token.content.value, kind.value.layout, depth + 1);
          } else if kind.value.Binary? {
            r := Add(128, |token.content.value|);
          } else {
            r := Add(32 * |token.content.value|, 0);
          }
          if r.Err? {
            return;
          }
        }
        rest := rest[token.used..];
      }
    }

    /** `total`: one or two copies of the structure and two of the payload. */
    method Total(copies: nat) returns (r: Result<nat, WireError>)
      ensures r == var n := structural * copies + 2 * payload;
        if n > USIZE_MAX then Err(SizeOverflow) else Ok(n)
    {
      if structural * copies > USIZE_MAX || 2 * payload > USIZE_MAX {
        return Err(SizeOverflow);
      }
      var n := 2 * payload + structural * copies;
      if n > USIZE_MAX {
        return Err(SizeOverflow);
      }
      return Ok(n);
    }
  }

  // ---- the bound on every accepted input -------------------------------------------------

  ghost predicate MessageAtMost(table: Table, k: nat) {
    64 <= k && forall l :: 0 <= l < |table| ==> 4 * table[l].inline + 64 <= k
  }

  /** Memory estimates are linear in the input, whatever the input claims. */
  lemma {:induction false} ScanBounded(table: Table, s: bytes, l: nat, depth: nat, c: Cost, k: nat)
    requires Closed(table) && l < |table| && MessageAtMost(table, k)
    ensures var r := ScanMessage(table, s, l, depth, c);
      r.Ok? ==> r.value.structural <= c.structural + k * (1 + |s|) && r.value.payload <= c.payload + |s|
    decreases |s|, 2
  {
    hide ScanFields;
    var base := Plus(c, 4 * table[l].inline + 64, 0);
    if depth < LIMIT && base.Ok? {
      FieldsBounded(table, s, l, depth, base.value, k);
      Scaled(k, 1, |s|);
    }
  }

  lemma {:induction false} FieldsBounded(table: Table, s: bytes, l: nat, depth: nat, c: Cost, k: nat)
    requires Closed(table) && l < |table| && MessageAtMost(table, k)
    ensures var r := ScanFields(table, s, l, depth, c);
      r.Ok? ==> r.value.structural <= c.structural + k * |s| && r.value.payload <= c.payload + |s|
    decreases |s|, 1
  {
    hide NextField, Charge;
    if s == [] || NextField(s).Err? {
    } else {
      var token := NextField(s).value;
      var charged := Charge(table, token, l, depth, c, |s|);
      if charged.Ok? {
        ChargeBounded(table, token, l, depth, c, k, |s|);
        FieldsBounded(table, s[token.used..], l, depth, charged.value, k);
        Scaled(k, token.used, |s| - token.used);
      }
    }
  }

  lemma {:induction false} ChargeBounded(table: Table, token: Token, l: nat, depth: nat, c: Cost, k: nat, bound: nat)
    requires Closed(table) && l < |table| && MessageAtMost(table, k) && 2 <= token.used <= bound
    requires token.content.Some? ==> |token.content.value| + 2 <= token.used
    ensures var r := Charge(table, token, l, depth, c, bound);
      r.Ok? ==> r.value.structural <= c.structural + k * token.used && r.value.payload <= c.payload + token.used
    decreases bound, 0
  {
    hide ScanMessage, Find;
    FindClosed(table, l, token.number);
    var kind := Find(table[l].fields, token.number);
    Scaled(k, 2, token.used);
    if kind.Some? && token.content.Some? {
      var n := |token.content.value|;
      Scaled(k, 1 + n, token.used);
      Scaled(k, n, token.used);
      Scaled(n, 32, k);
      if kind.value.Message? {
        ScanBounded(table, token.content.value, kind.value.layout, depth + 1, c, k);
      }
    }
  }

  // ---- message trees ---------------------------------------------------------------------

  datatype Node = Node(fields: seq<Field>)

  datatype Field =
    | VarintField(number: nat, value: nat)
    | Fixed64(number: nat, data: bytes)
    | Fixed32(number: nat, data: bytes)
    | Chunk(number: nat, data: bytes)
    | Child(number: nat, node: Node)

  function WireType(f: Field): nat {
    match f
    case VarintField(_, _) => 0
    case Fixed64(_, _) => 1
    case Fixed32(_, _) => 5
    case Chunk(_, _) => 2
    case Child(_, _) => 2
  }

  function Delimited(data: bytes): bytes {
    EncodeVarint(|data|) + data
  }

  function Serialize(node: Node): bytes
    decreases node, 1
  {
    SerializeFields(node.fields)
  }

  function SerializeFields(fields: seq<Field>): bytes
    decreases fields, 0
  {
    if fields == [] then [] else SerializeField(fields[0]) + SerializeFields(fields[1..])
  }

  function SerializeField(f: Field): bytes
    decreases f, 2
  {
    EncodeVarint(8 * f.number + WireType(f)) +
    match f
    case VarintField(_, value) => EncodeVarint(value)
    case Fixed64(_, data) => data
    case Fixed32(_, data) => data
    case Chunk(_, data) => Delimited(data)
    case Child(_, node) => Delimited(Serialize(node))
  }

  lemma KindClosed(table: Table, l: nat, number: nat)
    requires Closed(table) && l < |table|
    ensures var kind := KindIn(table[l].fields, number);
      kind.Some? && kind.value.Message? ==> kind.value.layout < |table|
  {
    FindIsExact(table[l].fields, number);
    FindClosed(table, l, number);
  }

  /** The field is legal on the wire and agrees with the layout about what is a message. */
  ghost predicate FieldTyped(table: Table, l: nat, f: Field)
    requires Closed(table) && l < |table|
    decreases f, 0
  {
    KindClosed(table, l, f.number);
    var kind := KindIn(table[l].fields, f.number);
    && 0 < f.number < U32
    && match f
       case VarintField(_, value) => value < U64
       case Fixed64(_, data) => |data| == 8
       case Fixed32(_, data) => |data| == 4
       case Chunk(_, _) => !(kind.Some? && kind.value.Message?)
       case Child(_, node) => kind.Some? && kind.value.Message? && Typed(table, kind.value.layout, node)
  }

  ghost predicate Typed(table: Table, l: nat, node: Node)
    requires Closed(table) && l < |table|
    decreases node, 1
  {
    forall i :: 0 <= i < |node.fields| ==> FieldTyped(table, l, node.fields[i])
  }

  /** How deep messages are nested below this one. */
  function Height(node: Node): nat
    decreases node, 1
  {
    FieldsHeight(node.fields)
  }

  function FieldsHeight(fields: seq<Field>): nat
    decreases fields, 0
  {
    if fields == [] then 0
    else
      var (a, b) := (FieldHeight(fields[0]), FieldsHeight(fields[1..]));
      if a > b then a else b
  }

  function FieldHeight(f: Field): nat
    decreases f, 2
  {
    if f.Child? then 1 + Height(f.node) else 0
  }

  /** The cost of a tree, folded over its fields. */
  ghost function TreeCost(table: Table, l: nat, node: Node): Cost
    requires Closed(table) && l < |table| && Typed(table, l, node)
    decreases node, 1
  {
    var c := FieldsCost(table, l, node.fields);
    Cost(c.structural + 4 * table[l].inline + 64, c.payload)
  }

  ghost function FieldsCost(table: Table, l: nat, fields: seq<Field>): Cost
    requires Closed(table) && l < |table|
    requires forall i :: 0 <= i < |fields| ==> FieldTyped(table, l, fields[i])
    decreases fields, 0
  {
    if fields == [] then Cost(0, 0)
    else
      var (a, b) := (FieldCost(table, l, fields[0]), FieldsCost(table, l, fields[1..]));
      Cost(a.structural + b.structural, a.payload + b.payload)
  }

  /** Unknown fields are free, a message costs what it holds, bytes cost 128 and their length as
      payload, packed values 32 a byte, and single values 32. */
  ghost function FieldCost(table: Table, l: nat, f: Field): Cost
    requires Closed(table) && l < |table| && FieldTyped(table, l, f)
    decreases f, 2
  {
    KindClosed(table, l, f.number);
    match KindIn(table[l].fields, f.number)
    case None => Cost(0, 0)
    case Some(kind) =>
      match f
      case Chunk(_, data) => if kind.Binary? then Cost(128, |data|) else Cost(32 * |data|, 0)
      case Child(_, node) => TreeCost(table, kind.layout, node)
      case _ => Cost(32, 0)
  }

  /** The wire content of a field, as the scanner's token sees it. */
  function Content(f: Field): Option<bytes> {
    match f
    case Chunk(_, data) => Some(data)
    case Child(_, node) => Some(Serialize(node))
    case _ => None
  }

  /** The tag of a serialized field is read back, and what follows is its body. */
  lemma TagOfSerialized(number: nat, wire: nat, body: bytes)
    requires 0 < number < U32 && wire < 8
    ensures var (s, n) := (EncodeVarint(8 * number + wire) + body, |EncodeVarint(8 * number + wire)|);
      Varint(s) == Ok(Read(8 * number + wire, n)) && s[n..] == body && n > 0
  {
    hide Varint, EncodeVarint;
    VarintOfEncoded(8 * number + wire, body);
    ConcatSlices(EncodeVarint(8 * number + wire), body);
  }

  lemma NextDelimited(number: nat, data: bytes, rest: bytes)
    requires 0 < number < U32 && |data| < U64
    ensures var f := EncodeVarint(8 * number + 2) + Delimited(data);
      NextField(f + rest) == Ok(Token(number, Some(data), |f|))
  {
    hide Varint, EncodeVarint;
    var (tag, len) := (EncodeVarint(8 * number + 2), EncodeVarint(|data|));
    var s := tag + (len + (data + rest));
    assert (tag + (len + data)) + rest == s by {
      ConcatAssoc(tag, len + data, rest);
      ConcatAssoc(len, data, rest);
    }
    TagOfSerialized(number, 2, len + (data + rest));
    VarintOfEncoded(|data|, data + rest);
    assert s[|tag| + |len|..|tag| + |len| + |data|] == data by {
      ConcatAssoc(tag, len, data + rest);
      ConcatSlices(tag + len, data + rest);
      SubSlice(s, |tag| + |len|, |s|, 0, |data|);
      ConcatSlices(data, rest);
    }
  }

  lemma NextPlain(f: Field, body: bytes, rest: bytes)
    requires 0 < f.number < U32
    requires match f
      case VarintField(_, value) => value < U64 && body == EncodeVarint(value)
      case Fixed64(_, data) => body == data && |data| == 8
      case Fixed32(_, data) => body == data && |data| == 4
      case _ => false
    ensures var g := EncodeVarint(8 * f.number + WireType(f)) + body;
      NextField(g + rest) == Ok(Token(f.number, None, |g|))
  {
    hide Varint, EncodeVarint;
    var tag := EncodeVarint(8 * f.number + WireType(f));
    ConcatAssoc(tag, body, rest);
    TagOfSerialized(f.number, WireType(f), body + rest);
    if f.VarintField? {
      VarintOfEncoded(f.value, rest);
    }
  }

  lemma NextFieldOfSerialized(table: Table, l: nat, f: Field, rest: bytes)
    requires Closed(table) && l < |table| && FieldTyped(table, l, f)
    requires Content(f).Some? ==> |Content(f).value| < U64
    ensures SerializeField(f) != []
    ensures NextField(SerializeField(f) + rest) == Ok(Token(f.number, Content(f), |SerializeField(f)|))
  {
    hide EncodeVarint, NextField, Serialize, Typed, KindIn, Delimited;
    match f
    case VarintField(_, value) => NextPlain(f, EncodeVarint(value), rest);
    case Fixed64(_, data) => NextPlain(f, data, rest);
    case Fixed32(_, data) => NextPlain(f, data, rest);
    case Chunk(_, data) => NextDelimited(f.number, data, rest);
    case Child(_, node) => NextDelimited(f.number, Serialize(node), rest);
  }

  /** The scan's outcome when a tree of cost `more` is added to `c`. */
  function Added(c: Cost, more: Cost): Result<Cost, WireError> {
    Plus(c, more.structural, more.payload)
  }

  /** Scanning the serialization of a tree nested within the limit adds exactly the tree's cost,
      and fails only when that cost does not fit the counters. */
  lemma {:induction false} ScanIsTreeCost(table: Table, l: nat, depth: nat, node: Node, c: Cost)
    requires Closed(table) && l < |table| && Typed(table, l, node) && depth + Height(node) < 100
    requires |Serialize(node)| < U64 && c.structural <= USIZE_MAX && c.payload <= USIZE_MAX
    ensures ScanMessage(table, Serialize(node), l, depth, c) == Added(c, TreeCost(table, l, node))
    decreases node, 1
  {
    hide ScanFields, SerializeFields, FieldsCost, FieldsHeight;
    var base := Plus(c, 4 * table[l].inline + 64, 0);
    if base.Ok? {
      ScanFieldsIsCost(table, l, depth, node.fields, base.value);
    }
  }

  lemma {:induction false} ScanFieldsIsCost(table: Table, l: nat, depth: nat, fields: seq<Field>, c: Cost)
    requires Closed(table) && l < |table| && depth + FieldsHeight(fields) < LIMIT
    requires forall i :: 0 <= i < |fields| ==> FieldTyped(table, l, fields[i])
    requires |SerializeFields(fields)| < U64 && c.structural <= USIZE_MAX && c.payload <= USIZE_MAX
    ensures ScanFields(table, SerializeFields(fields), l, depth, c) == Added(c, FieldsCost(table, l, fields))
    decreases fields, 0
  {
    hide Charge, NextField, FieldCost, SerializeField, FieldTyped, FieldHeight;
    if fields == [] {
    } else {
      var (f, rest) := (fields[0], fields[1..]);
      FirstField(table, l, fields);
      ChargeIsCost(table, l, depth, f, c, |SerializeFields(fields)|);
      var token := Token(f.number, Content(f), |SerializeField(f)|);
      var charged := Charge(table, token, l, depth, c, |SerializeFields(fields)|);
      if charged.Ok? {
        ScanFieldsIsCost(table, l, depth, rest, charged.value);
      }
    }
  }

  /** The scanner's first token is the first field, and the rest is the rest. */
  lemma FirstField(table: Table, l: nat, fields: seq<Field>)
    requires Closed(table) && l < |table| && fields != [] && FieldTyped(table, l, fields[0])
    requires |SerializeFields(fields)| < U64
    ensures var (s, f) := (SerializeFields(fields), fields[0]);
      && s != [] && |SerializeField(f)| <= |s|
      && (Content(f).Some? ==> |Content(f).value| < |SerializeField(f)|)
      && NextField(s) == Ok(Token(f.number, Content(f), |SerializeField(f)|))
      && s[|SerializeField(f)|..] == SerializeFields(fields[1..])
  {
    hide NextField, SerializeField, FieldTyped;
    var (head, tail) := (SerializeField(fields[0]), SerializeFields(fields[1..]));
    assert SerializeFields(fields) == head + tail;
    ContentSmaller(fields[0]);
    NextFieldOfSerialized(table, l, fields[0], tail);
    ConcatSlices(head, tail);
  }

  lemma ContentSmaller(f: Field)
    ensures Content(f).Some? ==> |Content(f).value| < |SerializeField(f)|
  {
  }

  lemma {:induction false} ChargeIsCost(table: Table, l: nat, depth: nat, f: Field, c: Cost, bound: nat)
    requires Closed(table) && l < |table| && depth + FieldHeight(f) < LIMIT && FieldTyped(table, l, f)
    requires |SerializeField(f)| <= bound && bound < U64
    requires c.structural <= USIZE_MAX && c.payload <= USIZE_MAX
    requires Content(f).Some? ==> |Content(f).value| < bound
    ensures Charge(table, Token(f.number, Content(f), |SerializeField(f)|), l, depth, c, bound)
            == Added(c, FieldCost(table, l, f))
    decreases f, 2
  {
    hide ScanMessage, Serialize, TreeCost, Find, KindIn, Height;
    FindIsExact(table[l].fields, f.number);
    KindClosed(table, l, f.number);
    var kind := KindIn(table[l].fields, f.number);
    if f.Child? {
      ScanIsTreeCost(table, kind.value.layout, depth + 1, f.node, c);
    }
  }

  // ---- the recursion limit ---------------------------------------------------------------

  /** A tree nested to the limit or beyond is refused: for its depth, unless the counters
      overflow first. */
  lemma {:induction false} DeepTreesAreRefused(table: Table, l: nat, depth: nat, node: Node, c: Cost)
    requires Closed(table) && l < |table| && Typed(table, l, node) && depth + Height(node) >= 100
    requires |Serialize(node)| < U64 && c.structural <= USIZE_MAX && c.payload <= USIZE_MAX
    ensures var r := ScanMessage(table, Serialize(node), l, depth, c);
      && (r == Err(RecursionLimit) || r == Err(SizeOverflow))
      && (Added(c, TreeCost(table, l, node)).Ok? ==> r == Err(RecursionLimit))
    decreases node, 1
  {
    hide ScanFields, SerializeFields, FieldsCost, FieldsHeight;
    var base := Plus(c, 4 * table[l].inline + 64, 0);
    if depth < LIMIT && base.Ok? {
      DeepFieldsAreRefused(table, l, depth, node.fields, base.value);
    }
  }

  lemma {:induction false} DeepFieldsAreRefused(table: Table, l: nat, depth: nat, fields: seq<Field>, c: Cost)
    requires Closed(table) && l < |table| && depth < LIMIT <= depth + FieldsHeight(fields)
    requires forall i :: 0 <= i < |fields| ==> FieldTyped(table, l, fields[i])
    requires |SerializeFields(fields)| < U64 && c.structural <= USIZE_MAX && c.payload <= USIZE_MAX
    ensures var r := ScanFields(table, SerializeFields(fields), l, depth, c);
      && (r == Err(RecursionLimit) || r == Err(SizeOverflow))
      && (Added(c, FieldsCost(table, l, fields)).Ok? ==> r == Err(RecursionLimit))
    decreases fields, 0
  {
    hide Charge, NextField, FieldCost, SerializeField, FieldTyped, FieldHeight;
    if fields == [] {
    } else {
      var (f, rest) := (fields[0], fields[1..]);
      FirstField(table, l, fields);
      var token := Token(f.number, Content(f), |SerializeField(f)|);
      var charged := Charge(table, token, l, depth, c, |SerializeFields(fields)|);
      if depth + FieldHeight(f) < LIMIT {
        ChargeIsCost(table, l, depth, f, c, |SerializeFields(fields)|);
        if charged.Ok? {
          DeepFieldsAreRefused(table, l, depth, rest, charged.value);
        }
      } else {
        DeepFieldIsRefused(table, l, depth, f, c, |SerializeFields(fields)|);
      }
    }
  }

  lemma {:induction false} DeepFieldIsRefused(table: Table, l: nat, depth: nat, f: Field, c: Cost, bound: nat)
    requires Closed(table) && l < |table| && depth < LIMIT <= depth + FieldHeight(f) && FieldTyped(table, l, f)
    requires |SerializeField(f)| <= bound && bound < U64
    requires c.structural <= USIZE_MAX && c.payload <= USIZE_MAX
    requires Content(f).Some? ==> |Content(f).value| < bound
    ensures var r := Charge(table, Token(f.number, Content(f), |SerializeField(f)|), l, depth, c, bound);
      && (r == Err(RecursionLimit) || r == Err(SizeOverflow))
      && (Added(c, FieldCost(table, l, f)).Ok? ==> r == Err(RecursionLimit))
    decreases f, 2
  {
    hide ScanMessage, Serialize, TreeCost, Find, KindIn, Height;
    FindIsExact(table[l].fields, f.number);
    KindClosed(table, l, f.number);
    DeepTreesAreRefused(table, KindIn(table[l].fields, f.number).value.layout, depth + 1, f.node, c);
  }

  // ---- what is a field on the wire --------------------------------------------------------

  /** `s` starts with a number below 2^64 in `n` bytes, at most ten. */
  ghost predicate SomeNumber(s: bytes, n: nat) {
    0 < n <= 10 && n <= |s| && IsVarint(s[..n]) && VarintValue(s[..n]) < U64
  }

  ghost predicate Number(s: bytes, n: nat, value: nat) {
    SomeNumber(s, n) && VarintValue(s[..n]) == value
  }

  /** `s` starts with the field `t`, whose tag takes `n` bytes and says wire type `wire`. */
  ghost predicate IsField(s: bytes, t: Token, n: nat, wire: nat) {
    && Number(s, n, 8 * t.number + wire) && 0 < t.number < U32 && wire < 8 && t.used <= |s|
    && match wire
       case 0 => t.content == None && n < t.used && SomeNumber(s[n..], t.used - n)
       case 1 => t.content == None && t.used == n + 8
       case 5 => t.content == None && t.used == n + 4
       case 2 =>
         && t.content.Some? && n + |t.content.value| < t.used
         && Number(s[n..], t.used - n - |t.content.value|, |t.content.value|)
         && s[t.used - |t.content.value|..t.used] == t.content.value
       case _ => false
  }

  lemma NumberIsVarint(s: bytes, n: nat, value: nat)
    ensures Number(s, n, value) <==> Varint(s) == Ok(Read(value, n))
    ensures SomeNumber(s, n) <==> Varint(s).Ok? && Varint(s).value.used == n
  {
    hide IsVarint, VarintValue, Varint;
    VarintExact(s, n);
  }

  /** The scanner takes a field off the front exactly when there is one. */
  lemma FieldsAreExact(s: bytes, t: Token)
    requires s != []
    ensures NextField(s) == Ok(t) <==> exists n: nat, wire: nat :: IsField(s, t, n, wire)
  {
    hide IsVarint, VarintValue, Varint, Number, SomeNumber;
    if NextField(s) == Ok(t) {
      FieldIsThere(s, t);
    }
    if n: nat, wire: nat :| IsField(s, t, n, wire) {
      FieldIsTaken(s, t, n, wire);
    }
  }

  lemma FieldIsThere(s: bytes, t: Token)
    requires s != [] && NextField(s) == Ok(t)
    ensures exists n: nat, wire: nat :: IsField(s, t, n, wire)
  {
    hide IsVarint, VarintValue, Varint, Number, SomeNumber;
    var Read(tag, n) := Varint(s).value;
    NumberIsVarint(s, n, tag);
    assert tag == 8 * (tag / 8) + tag % 8;
    var wire := tag % 8;
    assert t.number == tag / 8;
    if wire == 0 || wire == 2 {
      var Read(v, m) := Varint(s[n..]).value;
      NumberIsVarint(s[n..], m, v);
      if wire == 2 {
        assert t.used == n + m + v && t.content == Some(s[n + m..n + m + v]);
        assert t.used - n - |t.content.value| == m && t.used - |t.content.value| == n + m;
      }
    }
    assert IsField(s, t, n, wire);
  }

  lemma FieldIsTaken(s: bytes, t: Token, n: nat, wire: nat)
    requires s != [] && IsField(s, t, n, wire)
    ensures NextField(s) == Ok(t)
  {
    hide IsVarint, VarintValue, Varint, Number, SomeNumber;
    NumberIsVarint(s, n, 8 * t.number + wire);
    if wire == 0 {
      NumberIsVarint(s[n..], t.used - n, 0);
    } else if wire == 2 {
      var len := |t.content.value|;
      NumberIsVarint(s[n..], t.used - n - len, len);
    }
  }
}
