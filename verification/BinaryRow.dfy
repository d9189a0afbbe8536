/** Key columns of an Arrow batch encoded as the Flink BinaryRow that is hashed for routing. */
module BinaryRow {
  import opened Bytes
  import opened TwosComplement
  import opened RowLayout

  datatype TimeUnit = Second | Millisecond | Microsecond | Nanosecond

  /** One value of an Arrow column. Floats are given by their bits. */
  datatype Cell =
    | Null
    | BooleanCell(b: bool)
    | Int8Cell(v8: i8)
    | Int16Cell(v16: i16)
    | Int32Cell(v32: i32)
    | Int64Cell(v64: i64)
    | Float32Cell(bits32: u32)
    | Float64Cell(bits64: usize)
    | Utf8Cell(text: slice)
    | BinaryCell(data: slice)
    | FixedSizeBinaryCell(data: slice)
    | Date32Cell(days: i32)
    | Time32SecondCell(seconds: i32)
    | Time32MillisecondCell(millis: i32)
    | TimestampCell(unit: TimeUnit, ticks: i64)
    | Decimal128Cell(unscaled: i128)
    | UnsupportedCell

  datatype KeyField =
    | PreencodedBinaryRow
    | Boolean | TinyInt | SmallInt | Integer | BigInt | Float | Double | String | Binary | Date | Time
    | Timestamp(precision: byte)
    | Decimal(precision: byte)

  datatype RowError = InvalidArgument | CastError

  // ---- what a key means ------------------------------------------------------------------

  datatype Value =
    | NullValue
    | Truth(b: bool)
    | Number(n: int)
    | FloatBits(bits: nat)
    | Octets(data: bytes)
    | Instant(nanos: int)
    | Unreadable

  function NanosPerTick(unit: TimeUnit): nat {
    match unit
    case Second => 1_000_000_000
    case Millisecond => 1_000_000
    case Microsecond => 1_000
    case Nanosecond => 1
  }

  /** The value a cell denotes, whatever its Arrow representation. */
  function Meaning(cell: Cell): Value {
    match cell
    case BooleanCell(b) => Truth(b)
    case Int8Cell(v) => Number(v)
    case Int16Cell(v) => Number(v)
    case Int32Cell(v) => Number(v)
    case Int64Cell(v) => Number(v)
    case Float32Cell(bits) => FloatBits(bits)
    case Float64Cell(bits) => FloatBits(bits)
    case Utf8Cell(text) => Octets(text)
    case BinaryCell(data) => Octets(data)
    case FixedSizeBinaryCell(data) => Octets(data)
    case Date32Cell(days) => Number(days)
    case Time32SecondCell(seconds) => Number(seconds * 1_000)
    case Time32MillisecondCell(millis) => Number(millis)
    case TimestampCell(unit, ticks) => Instant(ticks * NanosPerTick(unit))
    case Decimal128Cell(unscaled) => Number(unscaled)
    case UnsupportedCell => Unreadable
    case Null => NullValue
  }

  // ---- from cells to stored fields -------------------------------------------------------

  predicate InI32(v: int) { -0x8000_0000 <= v < 0x8000_0000 }
  predicate InI64(v: int) { -0x8000_0000_0000_0000 <= v < 0x8000_0000_0000_0000 }

  function TimeMillis(cell: Cell): Result<i32, RowError> {
    match cell
    case Time32SecondCell(seconds) =>
      if InI32(seconds * 1_000) then Ok(seconds * 1_000) else Err(InvalidArgument)
    case Time32MillisecondCell(millis) => Ok(millis)
    case _ => Err(CastError)
  }

  function TimestampParts(cell: Cell): Result<(i64, u32), RowError> {
    match cell
    case TimestampCell(unit, ticks) => (
      match unit
      case Second => if InI64(ticks * 1_000) then Ok((ticks * 1_000, 0)) else Err(InvalidArgument)
      case Millisecond => Ok((ticks, 0))
      case Microsecond => Ok((ticks / 1_000, ticks % 1_000 * 1_000))
      case Nanosecond => Ok((ticks / 1_000_000, ticks % 1_000_000)))
    case _ => Err(CastError)
  }

  function FixedInt(v: int, width: nat): (r: Stored)
    requires 0 < width <= 8 && Fits(v, width)
    ensures Writable(r)
  {
    SFixed(ToLe(v, width))
  }

  /** Fixed-width fields that hold the Arrow value itself. */
  function FixedBytes(cell: Cell, kind: KeyField): (r: Result<bytes, RowError>)
    ensures r.Ok? ==> ShapeOf(kind) == FixedShape(|r.value|) && 0 < |r.value| <= 8
  {
    MachineIntegersFit();
    match (kind, cell)
    case (Boolean, BooleanCell(b)) => Ok([if b then 1 else 0])
    case (TinyInt, Int8Cell(v)) => Ok(ToLe(v, 1))
    case (SmallInt, Int16Cell(v)) => Ok(ToLe(v, 2))
    case (Integer, Int32Cell(v)) => Ok(ToLe(v, 4))
    case (BigInt, Int64Cell(v)) => Ok(ToLe(v, 8))
    case (Float, Float32Cell(bits)) => Ok(Le(bits, 4))
    case (Double, Float64Cell(bits)) => Ok(Le(bits, 8))
    case (Date, Date32Cell(days)) => Ok(ToLe(days, 4))
    case _ => Err(CastError)
  }

  /** The branches of `write_value`. */
  function Store(cell: Cell, kind: KeyField): Result<Stored, RowError> {
    MachineIntegersFit();
    if cell.Null? then Ok(SNull)
    else
      match kind
      case PreencodedBinaryRow => Err(InvalidArgument)
      case String => if cell.Utf8Cell? then Ok(SBytes(cell.text)) else Err(CastError)
      case Binary =>
        if cell.BinaryCell? || cell.FixedSizeBinaryCell? then Ok(SBytes(cell.data)) else Err(CastError)
      case Time => (
        match TimeMillis(cell)
        case Err(e) => Err(e)
        case Ok(millis) => Ok(FixedInt(millis, 4)))
      case Timestamp(precision) => (
        match TimestampParts(cell)
        case Err(e) => Err(e)
        case Ok((millis, nanos)) => if precision <= 3 then Ok(FixedInt(millis, 8)) else Ok(STimestamp(millis, nanos)))
      case Decimal(precision) =>
        if !cell.Decimal128Cell? then Err(CastError)
        else if precision > 18 then Ok(SDecimal(MinimalForm(cell.unscaled)))
        else if InI64(cell.unscaled) then Ok(FixedInt(cell.unscaled, 8))
        else Err(InvalidArgument)
      case _ => (
        match FixedBytes(cell, kind)
        case Err(e) => Err(e)
        case Ok(value) => Ok(SFixed(value)))
  }

  function ShapeOf(kind: KeyField): Shape {
    match kind
    case Boolean => FixedShape(1)
    case TinyInt => FixedShape(1)
    case SmallInt => FixedShape(2)
    case Integer => FixedShape(4)
    case Float => FixedShape(4)
    case Date => FixedShape(4)
    case Time => FixedShape(4)
    case BigInt => FixedShape(8)
    case Double => FixedShape(8)
    case Timestamp(precision) => if precision <= 3 then FixedShape(8) else TimestampShape
    case Decimal(precision) => if precision <= 18 then FixedShape(8) else DecimalShape
    case _ => BytesShape
  }

  lemma StoreFitsShape(cell: Cell, kind: KeyField)
    requires Store(cell, kind).Ok?
    ensures Writable(Store(cell, kind).value) && HasShape(Store(cell, kind).value, ShapeOf(kind))
  {
    hide Le, ToLe, Fits, MinimalForm;
  }

  /** The value a reader of the stored field sees. */
  function Decode(st: Stored, kind: KeyField): Value {
    match st
    case SNull => NullValue
    case SFixed(v) =>
      if v == [] then NullValue
      else (
        match kind
        case Boolean => if v == [1] then Truth(true) else if v == [0] then Truth(false) else Unreadable
        case Float => FloatBits(FromLe(v))
        case Double => FloatBits(FromLe(v))
        case Timestamp(_) => Instant(SignedLe(v) * 1_000_000)
        case _ => Number(SignedLe(v)))
    case SBytes(v) => Octets(v)
    case STimestamp(millis, nanos) => Instant(millis * 1_000_000 + nanos)
    case SDecimal(v) => if v == [] then NullValue else Number(SignedBe(v))
  }

  predicate Compact(cell: Cell, kind: KeyField) {
    cell.TimestampCell? && kind.Timestamp? && kind.precision <= 3
  }

  /** What of a cell its key field can hold: compact timestamps have no room below a
      millisecond, everything else is kept whole. */
  function Kept(cell: Cell, kind: KeyField): Value {
    if Compact(cell, kind) then
      var n := cell.ticks * NanosPerTick(cell.unit);
      Instant(n - n % 1_000_000)
    else Meaning(cell)
  }

  predicate Lossless(cell: Cell, kind: KeyField) {
    Compact(cell, kind) ==> (cell.ticks * NanosPerTick(cell.unit)) % 1_000_000 == 0
  }

  /** The milliseconds and nanoseconds of a timestamp add up to its instant. */
  lemma PartsAreTheInstant(cell: Cell)
    requires TimestampParts(cell).Ok?
    ensures var (millis, nanos) := TimestampParts(cell).value;
      && Meaning(cell) == Instant(millis * 1_000_000 + nanos) && nanos < 1_000_000
      && nanos == (cell.ticks * NanosPerTick(cell.unit)) % 1_000_000
  {
    var t: int := cell.ticks;
    match cell.unit
    case Second => Remainder(t * 1_000, 0);
    case Millisecond => Remainder(t, 0);
    case Microsecond => Remainder(t / 1_000, t % 1_000 * 1_000);
    case Nanosecond => Remainder(t / 1_000_000, t % 1_000_000);
  }

  lemma Remainder(q: int, r: int)
    requires 0 <= r < 1_000_000
    ensures (q * 1_000_000 + r) % 1_000_000 == r
  {
  }

  /** A stored value decodes to what its field keeps of the cell. */
  lemma DecodeIsKept(cell: Cell, kind: KeyField)
    requires Store(cell, kind).Ok?
    ensures Decode(Store(cell, kind).value, kind) == Kept(cell, kind)
  {
    hide Le, FromLe, ToLe, MinimalForm, SignedLe, SignedBe, Fits;
    if cell.Null? {
    } else if kind.Timestamp? {
      TimestampRoundTrip(cell, kind.precision);
    } else if kind.Decimal? && kind.precision > 18 {
      MinimalFormIsExact(cell.unscaled, [0]);
    } else if kind.Float? || kind.Double? {
      FloatRoundTrip(cell, kind);
    } else {
      IntegerRoundTrip(cell, kind);
    }
  }

  /** Nothing is lost exactly when the field is not a compact timestamp with a sub-millisecond
      part. */
  lemma ValueRoundTrip(cell: Cell, kind: KeyField)
    requires Store(cell, kind).Ok?
    ensures Decode(Store(cell, kind).value, kind) == Meaning(cell) <==> Lossless(cell, kind)
  {
    hide Decode, Store;
    DecodeIsKept(cell, kind);
  }

  lemma FloatRoundTrip(cell: Cell, kind: KeyField)
    requires Store(cell, kind).Ok? && (kind.Float? || kind.Double?)
    ensures Decode(Store(cell, kind).value, kind) == Meaning(cell)
  {
    hide Le, FromLe, ToLe, MinimalForm, SignedLe, Fits, Pow256;
    Pow256Values();
    match cell
    case Float32Cell(bits) => FromLeOfLe(bits, 4);
    case Float64Cell(bits) => FromLeOfLe(bits, 8);
    case _ =>
  }

  lemma TimestampRoundTrip(cell: Cell, precision: byte)
    requires Store(cell, Timestamp(precision)).Ok? && !cell.Null?
    ensures var kind := Timestamp(precision); Decode(Store(cell, kind).value, kind) == Kept(cell, kind)
  {
    hide ToLe, SignedLe, Fits, TimestampParts;
    PartsAreTheInstant(cell);
    var (millis, nanos) := TimestampParts(cell).value;
    MachineIntegersFit();
    ToLeRoundTrip(millis, 8);
  }

  lemma IntegerRoundTrip(cell: Cell, kind: KeyField)
    requires Store(cell, kind).Ok? && !kind.Timestamp? && !kind.Float? && !kind.Double?
    requires kind.Decimal? ==> kind.precision <= 18
    ensures Decode(Store(cell, kind).value, kind) == Meaning(cell)
  {
    hide Le, FromLe, ToLe, MinimalForm, SignedLe, Fits;
    MachineIntegersFit();
    match cell
    case Int8Cell(v) => ToLeRoundTrip(v, 1);
    case Int16Cell(v) => ToLeRoundTrip(v, 2);
    case Int32Cell(v) => ToLeRoundTrip(v, 4);
    case Int64Cell(v) => ToLeRoundTrip(v, 8);
    case Date32Cell(v) => ToLeRoundTrip(v, 4);
    case Time32SecondCell(v) => if InI32(v * 1_000) { ToLeRoundTrip(v * 1_000, 4); }
    case Time32MillisecondCell(v) => ToLeRoundTrip(v, 4);
    case Decimal128Cell(v) => if InI64(v) { ToLeRoundTrip(v, 8); }
    case _ =>
  }

  lemma SameFixedBytes(a: Cell, b: Cell, kind: KeyField)
    requires FixedBytes(a, kind).Ok? && FixedBytes(b, kind).Ok? && Meaning(a) == Meaning(b)
    ensures FixedBytes(a, kind) == FixedBytes(b, kind)
  {
    hide Le, ToLe, Fits;
  }

  /** Cells of which the field keeps the same are stored the same, whatever Arrow type carried
      them. */
  lemma SameKeptSameBytes(a: Cell, b: Cell, kind: KeyField)
    requires Store(a, kind).Ok? && Store(b, kind).Ok? && Kept(a, kind) == Kept(b, kind)
    ensures Store(a, kind) == Store(b, kind)
  {
    hide Le, ToLe, MinimalForm, Fits, FixedBytes, TimestampParts;
    if a.Null? || b.Null? {
      assert Meaning(Null) == NullValue;
    } else if kind.Timestamp? {
      SameInstantSameParts(a, b, kind);
    } else if FixedBytes(a, kind).Ok? && FixedBytes(b, kind).Ok? {
      SameFixedBytes(a, b, kind);
    }
  }

  lemma SameInstantSameParts(a: Cell, b: Cell, kind: KeyField)
    requires TimestampParts(a).Ok? && TimestampParts(b).Ok? && kind.Timestamp? && Kept(a, kind) == Kept(b, kind)
    ensures TimestampParts(a).value.0 == TimestampParts(b).value.0
    ensures kind.precision > 3 ==> TimestampParts(a) == TimestampParts(b)
  {
    hide TimestampParts;
    PartsAreTheInstant(a);
    PartsAreTheInstant(b);
  }

  // ---- which cells encode ----------------------------------------------------------------

  datatype ArrowType =
    | BooleanType | Int8Type | Int16Type | Int32Type | Int64Type | Float32Type | Float64Type | Utf8Type
    | BinaryType | FixedSizeBinaryType | Date32Type | Time32Type | TimestampType | Decimal128Type | OtherType

  function TypeOf(cell: Cell): ArrowType
    requires !cell.Null?
  {
    match cell
    case BooleanCell(_) => BooleanType
    case Int8Cell(_) => Int8Type
    case Int16Cell(_) => Int16Type
    case Int32Cell(_) => Int32Type
    case Int64Cell(_) => Int64Type
    case Float32Cell(_) => Float32Type
    case Float64Cell(_) => Float64Type
    case Utf8Cell(_) => Utf8Type
    case BinaryCell(_) => BinaryType
    case FixedSizeBinaryCell(_) => FixedSizeBinaryType
    case Date32Cell(_) => Date32Type
    case Time32SecondCell(_) => Time32Type
    case Time32MillisecondCell(_) => Time32Type
    case TimestampCell(_, _) => TimestampType
    case Decimal128Cell(_) => Decimal128Type
    case UnsupportedCell => OtherType
  }

  /** The Arrow types a key type is read from. */
  function AcceptedTypes(kind: KeyField): set<ArrowType> {
    match kind
    case PreencodedBinaryRow => {}
    case Boolean => {BooleanType}
    case TinyInt => {Int8Type}
    case SmallInt => {Int16Type}
    case Integer => {Int32Type}
    case BigInt => {Int64Type}
    case Float => {Float32Type}
    case Double => {Float64Type}
    case String => {Utf8Type}
    case Binary => {BinaryType, FixedSizeBinaryType}
    case Date => {Date32Type}
    case Time => {Time32Type}
    case Timestamp(_) => {TimestampType}
    case Decimal(_) => {Decimal128Type}
  }

  /** The value fits what its key field stores. */
  predicate InRange(cell: Cell, kind: KeyField) {
    && (cell.Time32SecondCell? ==> -0x8000_0000 <= 1_000 * cell.seconds < 0x8000_0000)
    && (cell.TimestampCell? && cell.unit == Second ==>
          -0x8000_0000_0000_0000 <= 1_000 * cell.ticks < 0x8000_0000_0000_0000)
    && (cell.Decimal128Cell? && kind.Decimal? && kind.precision <= 18 ==>
          -0x8000_0000_0000_0000 <= cell.unscaled < 0x8000_0000_0000_0000)
  }

  predicate Encodes(cell: Cell, kind: KeyField) {
    cell.Null? || (TypeOf(cell) in AcceptedTypes(kind) && InRange(cell, kind))
  }

  /** A cell encodes exactly when it is null, or of an accepted type and in range; a wrong type
      and a value out of range are told apart. */
  lemma EncodesExactly(cell: Cell, kind: KeyField)
    ensures Store(cell, kind).Ok? <==> Encodes(cell, kind)
    ensures Store(cell, kind) == Err(CastError) <==>
              !cell.Null? && !kind.PreencodedBinaryRow? && TypeOf(cell) !in AcceptedTypes(kind)
    ensures Store(cell, kind) == Err(InvalidArgument) <==>
              !cell.Null? && (kind.PreencodedBinaryRow? || (TypeOf(cell) in AcceptedTypes(kind) && !InRange(cell, kind)))
  {
    hide Le, ToLe, Fits, MinimalForm, FixedBytes;
    FixedExactly(cell, kind);
  }

  /** The fields that hold the Arrow value itself take every cell of their one type. */
  lemma FixedExactly(cell: Cell, kind: KeyField)
    ensures FixedBytes(cell, kind).Err? ==> FixedBytes(cell, kind).error == CastError
    ensures (kind.Boolean? || kind.TinyInt? || kind.SmallInt? || kind.Integer? || kind.BigInt?
             || kind.Float? || kind.Double? || kind.Date?) && !cell.Null? ==>
              (FixedBytes(cell, kind).Ok? <==> TypeOf(cell) in AcceptedTypes(kind))
  {
    hide Le, ToLe, Fits;
  }

  // ---- rows ------------------------------------------------------------------------------

  /** Fields `0..k` of a row, or the first error among them. */
  function StoreAll(cells: seq<Cell>, kinds: seq<KeyField>, k: nat): (r: Result<seq<Stored>, RowError>)
    requires k <= |cells| == |kinds|
    ensures r.Ok? ==> |r.value| == k
    ensures r.Ok? ==> forall i :: 0 <= i < k ==> Store(cells[i], kinds[i]) == Ok(r.value[i])
    ensures r.Ok? ==> AllWritable(r.value)
    ensures r.Err? ==> exists i :: 0 <= i < k && Store(cells[i], kinds[i]) == Err(r.error)
  {
    if k == 0 then Ok([])
    else match StoreAll(cells, kinds, k - 1)
      case Err(e) => Err(e)
      case Ok(front) =>
        match Store(cells[k - 1], kinds[k - 1])
        case Err(e) => Err(e)
        case Ok(st) => StoreFitsShape(cells[k - 1], kinds[k - 1]); Ok(front + [st])
  }

  function EncodeCells(cells: seq<Cell>, kinds: seq<KeyField>): Result<bytes, RowError>
    requires |cells| == |kinds|
  {
    match StoreAll(cells, kinds, |cells|)
    case Err(e) => Err(e)
    case Ok(sts) => Ok(Layout(sts))
  }

  ghost predicate AllEncode(cells: seq<Cell>, kinds: seq<KeyField>)
    requires |cells| == |kinds|
  {
    forall i :: 0 <= i < |cells| ==> Encodes(cells[i], kinds[i])
  }

  /** A row encodes exactly when every field does. */
  lemma RowEncodesExactly(cells: seq<Cell>, kinds: seq<KeyField>)
    requires |cells| == |kinds|
    ensures EncodeCells(cells, kinds).Ok? <==> AllEncode(cells, kinds)
  {
    hide Store, Encodes, Layout, StoreAll;
    forall i | 0 <= i < |cells| ensures Store(cells[i], kinds[i]).Ok? <==> Encodes(cells[i], kinds[i]) {
      EncodesExactly(cells[i], kinds[i]);
    }
  }

  /** Field `j` of an encoded row as a reader who knows the key types sees it. */
  function ReadValue(row: bytes, kinds: seq<KeyField>, j: nat): Option<Value>
    requires j < |kinds| && FixedPart(|kinds|) <= |row|
  {
    match Read(row, |kinds|, j, ShapeOf(kinds[j]))
    case None => None
    case Some(st) => Some(Decode(st, kinds[j]))
  }

  ghost predicate AllLossless(cells: seq<Cell>, kinds: seq<KeyField>)
    requires |cells| == |kinds|
  {
    forall i :: 0 <= i < |cells| ==> Lossless(cells[i], kinds[i])
  }

  function Shapes(kinds: seq<KeyField>): seq<Shape> {
    seq(|kinds|, i requires 0 <= i < |kinds| => ShapeOf(kinds[i]))
  }

  lemma StoredAreShaped(cells: seq<Cell>, kinds: seq<KeyField>)
    requires |cells| == |kinds| && StoreAll(cells, kinds, |cells|).Ok?
    ensures Shaped(StoreAll(cells, kinds, |cells|).value, Shapes(kinds))
  {
    hide Store, ShapeOf, HasShape;
    var sts := StoreAll(cells, kinds, |cells|).value;
    forall i | 0 <= i < |sts| ensures HasShape(sts[i], ShapeOf(kinds[i])) && Writable(sts[i]) {
      StoreFitsShape(cells[i], kinds[i]);
    }
  }

  /** Every field of an encoded row reads back as what it keeps of its cell. */
  lemma RowReadsKept(cells: seq<Cell>, kinds: seq<KeyField>, j: nat)
    requires |cells| == |kinds| && j < |kinds| && EncodeCells(cells, kinds).Ok?
    requires |EncodeCells(cells, kinds).value| < ROW_LIMIT
    ensures var row := EncodeCells(cells, kinds).value;
      && FixedPart(|kinds|) <= |row| && |row| % 8 == 0
      && ReadValue(row, kinds, j) == Some(Kept(cells[j], kinds[j]))
  {
    hide Store, ShapeOf, HasShape, Decode, Read, Built, FixedPart, Kept, Addressable;
    var sts := StoreAll(cells, kinds, |cells|).value;
    StoredAreShaped(cells, kinds);
    SmallRowsAreAddressable(sts, j);
    LayoutRoundTrip(sts, Shapes(kinds), j);
    BuiltAligned(sts, |sts|, |sts|);
    DecodeIsKept(cells[j], kinds[j]);
  }

  /** What is read is what the cell means exactly when the field is not a compact timestamp with
      a sub-millisecond part. */
  lemma RowRoundTrip(cells: seq<Cell>, kinds: seq<KeyField>, j: nat)
    requires |cells| == |kinds| && j < |kinds| && EncodeCells(cells, kinds).Ok?
    requires |EncodeCells(cells, kinds).value| < ROW_LIMIT
    ensures var row := EncodeCells(cells, kinds).value;
      && FixedPart(|kinds|) <= |row|
      && (ReadValue(row, kinds, j) == Some(Meaning(cells[j])) <==> Lossless(cells[j], kinds[j]))
  {
    hide EncodeCells, ReadValue, FixedPart;
    RowReadsKept(cells, kinds, j);
  }

  ghost predicate SameKept(a: seq<Cell>, b: seq<Cell>, kinds: seq<KeyField>)
    requires |a| == |b| == |kinds|
  {
    forall i :: 0 <= i < |a| ==> Kept(a[i], kinds[i]) == Kept(b[i], kinds[i])
  }

  /** Rows that keep the same get the same bytes, however long they are. */
  lemma SameKeptSameRow(a: seq<Cell>, b: seq<Cell>, kinds: seq<KeyField>)
    requires |a| == |b| == |kinds| && SameKept(a, b, kinds)
    requires EncodeCells(a, kinds).Ok? && EncodeCells(b, kinds).Ok?
    ensures EncodeCells(a, kinds) == EncodeCells(b, kinds)
  {
    hide Store, Layout, Kept;
    var (x, y) := (StoreAll(a, kinds, |a|).value, StoreAll(b, kinds, |b|).value);
    forall i | 0 <= i < |x| ensures x[i] == y[i] {
      SameKeptSameBytes(a[i], b[i], kinds[i]);
    }
    assert x == y;
  }

  /** Exactly when two rows of one key schema share their bytes: when every field keeps the same
      of both cells. No condition on the cells. */
  lemma EqualBytesIffEqualKept(a: seq<Cell>, b: seq<Cell>, kinds: seq<KeyField>)
    requires |a| == |b| == |kinds| && EncodeCells(a, kinds).Ok? && EncodeCells(b, kinds).Ok?
    requires |EncodeCells(a, kinds).value| < ROW_LIMIT
    ensures EncodeCells(a, kinds) == EncodeCells(b, kinds) <==> SameKept(a, b, kinds)
  {
    hide EncodeCells, Kept, ReadValue, FixedPart;
    if SameKept(a, b, kinds) {
      SameKeptSameRow(a, b, kinds);
    } else if EncodeCells(a, kinds) == EncodeCells(b, kinds) {
      forall i | 0 <= i < |a| ensures Kept(a[i], kinds[i]) == Kept(b[i], kinds[i]) {
        RowReadsKept(a, kinds, i);
        RowReadsKept(b, kinds, i);
      }
    }
  }

  ghost predicate SameMeaning(a: seq<Cell>, b: seq<Cell>)
    requires |a| == |b|
  {
    forall i :: 0 <= i < |a| ==> Meaning(a[i]) == Meaning(b[i])
  }

  lemma SameMeaningIsSameKept(a: seq<Cell>, b: seq<Cell>, kinds: seq<KeyField>)
    requires |a| == |b| == |kinds| && SameMeaning(a, b)
    ensures SameKept(a, b, kinds)
  {
  }

  /** Rows that mean the same get the same bytes, however long they are. */
  lemma SameMeaningSameRow(a: seq<Cell>, b: seq<Cell>, kinds: seq<KeyField>)
    requires |a| == |b| == |kinds| && SameMeaning(a, b)
    requires EncodeCells(a, kinds).Ok? && EncodeCells(b, kinds).Ok?
    ensures EncodeCells(a, kinds) == EncodeCells(b, kinds)
  {
    hide EncodeCells, SameKept, SameMeaning;
    SameMeaningIsSameKept(a, b, kinds);
    SameKeptSameRow(a, b, kinds);
  }

  /** Rows without sub-millisecond parts in compact timestamps are faithful keys: same bytes
      exactly when all fields mean the same. */
  lemma EqualBytesIffEqualKeys(a: seq<Cell>, b: seq<Cell>, kinds: seq<KeyField>)
    requires |a| == |b| == |kinds| && AllLossless(a, kinds) && AllLossless(b, kinds)
    requires EncodeCells(a, kinds).Ok? && |EncodeCells(a, kinds).value| < ROW_LIMIT
    requires EncodeCells(b, kinds).Ok?
    ensures EncodeCells(a, kinds) == EncodeCells(b, kinds) <==> SameMeaning(a, b)
  {
    hide EncodeCells, Meaning;
    EqualBytesIffEqualKept(a, b, kinds);
    forall i | 0 <= i < |a|
      ensures Kept(a[i], kinds[i]) == Meaning(a[i]) && Kept(b[i], kinds[i]) == Meaning(b[i])
    {
      LosslessIsKept(a[i], kinds[i]);
      LosslessIsKept(b[i], kinds[i]);
    }
  }

  lemma LosslessIsKept(cell: Cell, kind: KeyField)
    ensures Lossless(cell, kind) <==> Kept(cell, kind) == Meaning(cell)
  {
  }

  /** Without the condition it fails: two instants a nanosecond apart share one compact key. */
  lemma CompactTimestampsCollide()
    ensures var (a, b) := (TimestampCell(Nanosecond, 0), TimestampCell(Nanosecond, 1));
      && Meaning(a) != Meaning(b)
      && EncodeCells([a], [Timestamp(3)]) == EncodeCells([b], [Timestamp(3)])
      && EncodeCells([a], [Timestamp(3)]).Ok?
  {
    hide ToLe, Layout, Fits;
    var (a, b) := (TimestampCell(Nanosecond, 0), TimestampCell(Nanosecond, 1));
    assert StoreAll([a], [Timestamp(3)], 0) == StoreAll([b], [Timestamp(3)], 0) == Ok([]);
    assert Store(a, Timestamp(3)) == Store(b, Timestamp(3));
  }

  // ---- batches ---------------------------------------------------------------------------

  /** A column knows whether its Arrow type is Binary; all its cells are of its type. */
  datatype Column = Column(binary: bool, cells: seq<Cell>)

  datatype Batch = Batch(columns: seq<Column>, rows: nat)

  ghost predicate ValidColumn(c: Column, rows: nat) {
    |c.cells| == rows && forall i :: 0 <= i < rows ==> c.cells[i].Null? || c.cells[i].BinaryCell? == c.binary
  }

  ghost predicate ValidBatch(batch: Batch) {
    forall c :: 0 <= c < |batch.columns| ==> ValidColumn(batch.columns[c], batch.rows)
  }

  type KeyFields = seq<(nat, KeyField)>

  ghost predicate InSchema(batch: Batch, fields: KeyFields) {
    forall i :: 0 <= i < |fields| ==> fields[i].0 < |batch.columns|
  }

  predicate HasPreencoded(fields: KeyFields) {
    exists i :: 0 <= i < |fields| && fields[i].1.PreencodedBinaryRow?
  }

  function RowCells(batch: Batch, row: nat, fields: KeyFields): (r: seq<Cell>)
    requires ValidBatch(batch) && InSchema(batch, fields) && row < batch.rows
    ensures |r| == |fields|
  {
    seq(|fields|, i requires 0 <= i < |fields| =>
      assert ValidColumn(batch.columns[fields[i].0], batch.rows);
      batch.columns[fields[i].0].cells[row])
  }

  function Kinds(fields: KeyFields): (r: seq<KeyField>)
    ensures |r| == |fields|
  {
    seq(|fields|, i requires 0 <= i < |fields| => fields[i].1)
  }

  /** The key bytes of one row. */
  function EncodeRow(batch: Batch, row: nat, fields: KeyFields): Result<bytes, RowError>
    requires ValidBatch(batch) && InSchema(batch, fields)
  {
    if row >= batch.rows then Err(InvalidArgument)
    else if HasPreencoded(fields) then
      if |fields| != 1 then Err(InvalidArgument)
      else match RowCells(batch, row, fields)[0]
        case Null => Err(InvalidArgument)
        case BinaryCell(data) => Ok(data)
        case _ => Err(CastError)
    else EncodeCells(RowCells(batch, row, fields), Kinds(fields))
  }

  /** The key of a row can be encoded: a preencoded key is the only field and a present binary
      value, any other row has encodable fields. */
  ghost predicate RowEncodes(batch: Batch, row: nat, fields: KeyFields)
    requires ValidBatch(batch) && InSchema(batch, fields) && row < batch.rows
  {
    if HasPreencoded(fields) then |fields| == 1 && RowCells(batch, row, fields)[0].BinaryCell?
    else AllEncode(RowCells(batch, row, fields), Kinds(fields))
  }

  lemma EncodeRowExactly(batch: Batch, row: nat, fields: KeyFields)
    requires ValidBatch(batch) && InSchema(batch, fields)
    ensures EncodeRow(batch, row, fields).Ok? <==> row < batch.rows && RowEncodes(batch, row, fields)
  {
    hide EncodeCells, AllEncode;
    if row < batch.rows {
      RowEncodesExactly(RowCells(batch, row, fields), Kinds(fields));
    }
  }

  /** The cell a key field reads in a row. */
  function CellAt(batch: Batch, row: nat, field: (nat, KeyField)): Cell
    requires ValidBatch(batch) && field.0 < |batch.columns| && row < batch.rows
  {
    assert ValidColumn(batch.columns[field.0], batch.rows);
    batch.columns[field.0].cells[row]
  }

  /** A preencoded key is passed through byte for byte. */
  lemma PreencodedIsVerbatim(batch: Batch, row: nat, column: nat)
    requires ValidBatch(batch) && column < |batch.columns| && row < batch.rows
    ensures var cell := CellAt(batch, row, (column, PreencodedBinaryRow));
      cell.BinaryCell? ==> EncodeRow(batch, row, [(column, PreencodedBinaryRow)]) == Ok(cell.data)
  {
    var fields := [(column, PreencodedBinaryRow)];
    assert fields[0].1.PreencodedBinaryRow?;
    assert RowCells(batch, row, fields)[0] == CellAt(batch, row, fields[0]);
  }

  /** Two rows of a batch have the same key exactly when each key column keeps the same of both. */
  lemma BatchKeysAreExact(batch: Batch, fields: KeyFields, i: nat, j: nat)
    requires ValidBatch(batch) && InSchema(batch, fields) && !HasPreencoded(fields)
    requires EncodeRow(batch, i, fields).Ok? && EncodeRow(batch, j, fields).Ok?
    requires |EncodeRow(batch, i, fields).value| < ROW_LIMIT
    ensures i < batch.rows && j < batch.rows
    ensures EncodeRow(batch, i, fields) == EncodeRow(batch, j, fields) <==>
              forall f :: 0 <= f < |fields| ==>
                Kept(CellAt(batch, i, fields[f]), fields[f].1) == Kept(CellAt(batch, j, fields[f]), fields[f].1)
  {
    hide EncodeCells, Kept;
    var (a, b, kinds) := (RowCells(batch, i, fields), RowCells(batch, j, fields), Kinds(fields));
    EqualBytesIffEqualKept(a, b, kinds);
    assert forall f :: 0 <= f < |fields| ==>
      a[f] == CellAt(batch, i, fields[f]) && b[f] == CellAt(batch, j, fields[f]) && kinds[f] == fields[f].1;
    if SameKept(a, b, kinds) {
      forall f | 0 <= f < |fields|
        ensures Kept(CellAt(batch, i, fields[f]), fields[f].1) == Kept(CellAt(batch, j, fields[f]), fields[f].1)
      {
        assert Kept(a[f], kinds[f]) == Kept(b[f], kinds[f]);
      }
    }
  }

  /** A growable byte vector owned by the caller. */
  class ByteVec {
    var data: bytes

    constructor ()
      ensures data == []
    {
      data := [];
    }
  }

  class BinaryRowWriter {
    const arity: nat
    const nullBytes: nat
    const out: ByteVec

    ghost predicate Valid()
      reads this, out
    {
      nullBytes == NullBytes(arity) && FixedPart(arity) <= |out.data| && |out.data| % 8 == 0
    }

    /** Whatever the vector held before is gone. */
    constructor (arity: nat, out: ByteVec)
      modifies out
      ensures Valid() && this.arity == arity && this.out == out && out.data == Zeros(FixedPart(arity))
    {
      var n := (arity + 63 + 8) / 64 * 8;
      this.arity := arity;
      this.out := out;
      this.nullBytes := n;
      new;
      out.data := Zeros(n + arity * 8);
    }

    method SetNull(position: nat)
      requires Valid() && position < arity
      modifies out
      ensures Valid() && out.data == Write(old(out.data), arity, position, SNull)
    {
      Geometry(arity, position);
      var bit := position + 8;
      out.data := out.data[bit / 8 := Mark(out.data[bit / 8], bit % 8)];
    }

    method WriteFixed(position: nat, value: bytes)
      requires Valid() && position < arity && 0 < |value| <= 8
      modifies out
      ensures Valid() && out.data == Write(old(out.data), arity, position, SFixed(value))
    {
      hide NullByte, NullBit, Mark;
      Geometry(arity, position);
      var offset := nullBytes + position * 8;
      assert out.data + Region(SFixed(value)) == out.data;
      out.data := Put(out.data, offset, value);
    }

    method WriteBytes(position: nat, value: slice)
      requires Valid() && position < arity
      modifies out
      ensures Valid() && out.data == Write(old(out.data), arity, position, SBytes(value))
    {
      hide NullByte, NullBit, Mark, Word, Le, InlineTag, NullBytes, Align8;
      Geometry(arity, position);
      RegionAligned(SBytes(value));
      var offset := nullBytes + position * 8;
      if |value| <= 7 {
        assert out.data + Region(SBytes(value)) == out.data;
        out.data := Put(out.data, offset, value);
        out.data := out.data[offset + 7 := InlineTag(|value|)];
        return;
      }
      var variableOffset := |out.data|;
      out.data := out.data + value;
      AlignAfter(variableOffset, |value|);
      out.data := out.data + Zeros(Align8(|out.data|) - |out.data|);
      assert out.data == old(out.data) + Region(SBytes(value));
      out.data := Put(out.data, offset, Le(Word(variableOffset, |value|), 8));
    }

    method WriteNoncompactTimestamp(position: nat, millis: i64, nanos: u32)
      requires Valid() && position < arity
      modifies out
      ensures Valid() && out.data == Write(old(out.data), arity, position, STimestamp(millis, nanos))
    {
      hide NullByte, NullBit, Mark, Word, Le, ToLe;
      Geometry(arity, position);
      MachineIntegersFit();
      var variableOffset := |out.data|;
      out.data := out.data + ToLe(millis, 8);
      out.data := Put(out.data, nullBytes + position * 8, Le(Word(variableOffset, nanos), 8));
    }

    method WriteNoncompactDecimal(position: nat, unscaled: i128)
      requires Valid() && position < arity
      modifies out
      ensures Valid() && out.data == Write(old(out.data), arity, position, SDecimal(MinimalForm(unscaled)))
    {
      hide NullByte, NullBit, Mark, Word, Le, MinimalForm;
      Geometry(arity, position);
      var encoded := MinimalTwosComplement(unscaled);
      var variableOffset := |out.data|;
      out.data := out.data + Zeros(16);
      out.data := Put(out.data, variableOffset, encoded);
      assert out.data == old(out.data) + Region(SDecimal(encoded));
      out.data := Put(out.data, nullBytes + position * 8, Le(Word(variableOffset, |encoded|), 8));
    }

    /** One field, or an error that leaves the row as it was. */
    method WriteValue(position: nat, cell: Cell, kind: KeyField) returns (r: Result<(), RowError>)
      requires Valid() && position < arity
      modifies out
      ensures Valid()
      ensures match Store(cell, kind)
              case Err(e) => r == Err(e) && out.data == old(out.data)
              case Ok(st) => r == Ok(()) && Writable(st) && out.data == Write(old(out.data), arity, position, st)
    {
      if cell.Null? {
        hide Write;
        SetNull(position);
        return Ok(());
      }
      hide Write, Store;
      if kind.Time? || kind.Timestamp? || kind.Decimal? {
        r := WriteScaled(position, cell, kind);
      } else {
        r := WritePlain(position, cell, kind);
      }
    }

    method WritePlain(position: nat, cell: Cell, kind: KeyField) returns (r: Result<(), RowError>)
      requires Valid() && position < arity
      requires !cell.Null? && !kind.Time? && !kind.Timestamp? && !kind.Decimal?
      modifies out
      ensures Valid()
      ensures match Store(cell, kind)
              case Err(e) => r == Err(e) && out.data == old(out.data)
              case Ok(st) => r == Ok(()) && Writable(st) && out.data == Write(old(out.data), arity, position, st)
    {
      hide Write, ToLe, Le, Fits, MinimalForm, NullBytes, FixedPart, TimeMillis, TimestampParts;
      MachineIntegersFit();
      if kind.PreencodedBinaryRow? {
        return Err(InvalidArgument);
      } else if kind.String? && cell.Utf8Cell? {
        WriteBytes(position, cell.text);
      } else if kind.Binary? && (cell.BinaryCell? || cell.FixedSizeBinaryCell?) {
        WriteBytes(position, cell.data);
      } else {
        var value := FixedBytes(cell, kind);
        if value.Err? {
          return Err(value.error);
        }
        WriteFixed(position, value.value);
      }
      return Ok(());
    }

    method WriteScaled(position: nat, cell: Cell, kind: KeyField) returns (r: Result<(), RowError>)
      requires Valid() && position < arity
      requires !cell.Null? && (kind.Time? || kind.Timestamp? || kind.Decimal?)
      modifies out
      ensures Valid()
      ensures match Store(cell, kind)
              case Err(e) => r == Err(e) && out.data == old(out.data)
              case Ok(st) => r == Ok(()) && Writable(st) && out.data == Write(old(out.data), arity, position, st)
    {
      hide Write, ToLe, Le, Fits, MinimalForm, NullBytes, FixedPart, TimeMillis, TimestampParts;
      MachineIntegersFit();
      match kind {
        case Time =>
          var millis := TimeMillis(cell);
          if millis.Err? {
            return Err(millis.error);
          }
          WriteFixed(position, ToLe(millis.value, 4));
        case Timestamp(precision) =>
          var parts := TimestampParts(cell);
          if parts.Err? {
            return Err(parts.error);
          }
          var (millis, nanos) := parts.value;
          if precision <= 3 {
            WriteFixed(position, ToLe(millis, 8));
          } else {
            WriteNoncompactTimestamp(position, millis, nanos);
          }
        case Decimal(precision) =>
          if !cell.Decimal128Cell? {
            return Err(CastError);
          }
          if precision > 18 {
            WriteNoncompactDecimal(position, cell.unscaled);
          } else if InI64(cell.unscaled) {
            WriteFixed(position, ToLe(cell.unscaled, 8));
          } else {
            return Err(InvalidArgument);
          }
      }
      return Ok(());
    }
  }

  /** The key of one row into the caller's scratch vector; its earlier contents do not matter. */
  method EncodeBinaryRowInto(batch: Batch, row: nat, fields: KeyFields, output: ByteVec)
    returns (r: Result<(), RowError>)
    requires ValidBatch(batch) && InSchema(batch, fields)
    modifies output
    ensures match EncodeRow(batch, row, fields)
            case Err(e) => r == Err(e)
            case Ok(key) => r == Ok(()) && output.data == key
  {
    if row >= batch.rows {
      return Err(InvalidArgument);
    }
    ghost var cells := RowCells(batch, row, fields);
    var preencoded := HasPreencoded(fields);
    if preencoded {
      if |fields| != 1 {
        return Err(InvalidArgument);
      }
      assert ValidColumn(batch.columns[fields[0].0], batch.rows);
      var cell := batch.columns[fields[0].0].cells[row];
      assert cell == cells[0];
      match cell
      case Null => return Err(InvalidArgument);
      case BinaryCell(data) =>
        output.data := data;
        return Ok(());
      case _ => return Err(CastError);
    }
    r := EncodeFields(batch, row, fields, output);
  }

  method EncodeFields(batch: Batch, row: nat, fields: KeyFields, output: ByteVec)
    returns (r: Result<(), RowError>)
    requires ValidBatch(batch) && InSchema(batch, fields) && row < batch.rows
    modifies output
    ensures match EncodeCells(RowCells(batch, row, fields), Kinds(fields))
            case Err(e) => r == Err(e)
            case Ok(key) => r == Ok(()) && output.data == key
  {
    hide Write, Store, NullBytes, FixedPart, Writable, Built, StoreAll;
    ghost var (cells, kinds) := (RowCells(batch, row, fields), Kinds(fields));
    var writer := new BinaryRowWriter(|fields|, output);
    NothingStored(cells, kinds, |fields|);
    var position := 0;
    while position < |fields|
      invariant 0 <= position <= |fields|
      invariant writer.Valid() && writer.out == output && writer.arity == |fields|
      invariant StoreAll(cells, kinds, position).Ok?
      invariant output.data == Built(StoreAll(cells, kinds, position).value, |fields|, position)
    {
      var (column, kind) := fields[position];
      assert ValidColumn(batch.columns[column], batch.rows);
      var cell := batch.columns[column].cells[row];
      assert cell == cells[position] && kind == kinds[position];
      ghost var front := StoreAll(cells, kinds, position).value;
      var written := writer.WriteValue(position, cell, kind);
      if written.Err? {
        FirstErrorStands(cells, kinds, position);
        return Err(written.error);
      }
      ghost var st := Store(cell, kind).value;
      StoreAllStep(cells, kinds, position);
      BuiltOfPrefix(front, st, |fields|);
      position := position + 1;
    }
    return Ok(());
  }

  lemma NothingStored(cells: seq<Cell>, kinds: seq<KeyField>, arity: nat)
    requires |cells| == |kinds|
    ensures StoreAll(cells, kinds, 0) == Ok([]) && Built([], arity, 0) == Zeros(FixedPart(arity))
  {
  }

  lemma StoreAllStep(cells: seq<Cell>, kinds: seq<KeyField>, k: nat)
    requires k < |cells| == |kinds| && StoreAll(cells, kinds, k).Ok? && Store(cells[k], kinds[k]).Ok?
    ensures StoreAll(cells, kinds, k + 1) == Ok(StoreAll(cells, kinds, k).value + [Store(cells[k], kinds[k]).value])
  {
    hide Store;
  }

  lemma {:induction false} FirstErrorStands(cells: seq<Cell>, kinds: seq<KeyField>, k: nat)
    requires k < |cells| == |kinds| && StoreAll(cells, kinds, k).Ok? && Store(cells[k], kinds[k]).Err?
    ensures StoreAll(cells, kinds, |cells|) == Err(Store(cells[k], kinds[k]).error)
  {
    ErrorPersists(cells, kinds, k + 1, |cells|);
  }

  lemma {:induction false} ErrorPersists(cells: seq<Cell>, kinds: seq<KeyField>, k: nat, m: nat)
    requires k <= m <= |cells| == |kinds| && StoreAll(cells, kinds, k).Err?
    ensures StoreAll(cells, kinds, m) == StoreAll(cells, kinds, k)
    decreases m
  {
    if k >= m {
    } else {
      ErrorPersists(cells, kinds, k, m - 1);
    }
  }

  lemma BuiltOfPrefix(front: seq<Stored>, st: Stored, arity: nat)
    requires AllWritable(front) && Writable(st) && |front| < arity
    ensures AllWritable(front + [st])
    ensures Built(front + [st], arity, |front| + 1) == Write(Built(front, arity, |front|), arity, |front|, st)
  {
    hide Write, Writable, FixedPart;
    BuiltDependsOnPrefix(front, front + [st], arity, |front|);
    BuiltStep(front + [st], arity, |front|);
  }

  lemma {:induction false} BuiltDependsOnPrefix(a: seq<Stored>, b: seq<Stored>, arity: nat, k: nat)
    requires AllWritable(a) && AllWritable(b) && k <= |a| && k <= |b| && k <= arity && a[..k] == b[..k]
    ensures Built(a, arity, k) == Built(b, arity, k)
    decreases k
  {
    hide Write, Writable, FixedPart;
    if k == 0 {
    } else {
      assert a[..k][..k - 1] == a[..k - 1] && b[..k][..k - 1] == b[..k - 1];
      assert a[k - 1] == a[..k][k - 1] == b[k - 1];
      BuiltDependsOnPrefix(a, b, arity, k - 1);
    }
  }
}
