/** The byte layout of a Flink BinaryRow: a null bitmap, one eight-byte slot per field, and
    word-aligned out-of-line regions behind them. */
module RowLayout {
  import opened Bytes
  import opened TwosComplement

  const U64: nat := USIZE_MAX + 1
  /** From this offset on, a region is no longer told apart from inline bytes. */
  const ROW_LIMIT: nat := 0x8000_0000

  /** What the writer puts into one field. */
  datatype Stored =
    | SNull
    | SFixed(value: bytes)
    | SBytes(value: bytes)
    | STimestamp(millis: i64, nanos: u32)
    | SDecimal(value: bytes)

  /** What a reader has to know about a field to find it. */
  datatype Shape = FixedShape(width: nat) | BytesShape | TimestampShape | DecimalShape

  ghost predicate HasShape(st: Stored, shape: Shape) {
    match st
    case SNull => true
    case SFixed(v) => shape == FixedShape(|v|) && 0 < |v| <= 8
    case SBytes(_) => shape == BytesShape
    case STimestamp(_, _) => shape == TimestampShape
    case SDecimal(v) => shape == DecimalShape && |v| <= 16
  }

  ghost predicate Writable(st: Stored) {
    && (st.SFixed? ==> 0 < |st.value| <= 8)
    && (st.SDecimal? ==> |st.value| <= 16)
    && (st.SBytes? ==> |st.value| <= ISIZE_MAX)
  }

  // ---- geometry --------------------------------------------------------------------------

  function NullBytes(arity: nat): nat {
    (arity + 63 + 8) / 64 * 8
  }

  function FieldOffset(arity: nat, pos: nat): nat {
    NullBytes(arity) + pos * 8
  }

  function FixedPart(arity: nat): nat {
    NullBytes(arity) + arity * 8
  }

  function NullByte(pos: nat): nat {
    (pos + 8) / 8
  }

  function NullBit(pos: nat): nat {
    (pos + 8) % 8
  }

  lemma Geometry(arity: nat, pos: nat)
    requires pos < arity
    ensures NullByte(pos) < NullBytes(arity) <= FieldOffset(arity, pos)
    ensures FieldOffset(arity, pos) + 8 <= FixedPart(arity)
    ensures FixedPart(arity) % 8 == 0
  {
  }

  /** Rust's `next_multiple_of(8)`. */
  function Align8(n: nat): (r: nat)
    ensures n <= r < n + 8 && r % 8 == 0
  {
    (n + 7) / 8 * 8
  }

  /** Behind whole words, padding the row pads the value. */
  lemma AlignAfter(base: nat, n: nat)
    requires base % 8 == 0
    ensures Align8(base + n) == base + Align8(n)
  {
  }

  // ---- writing ---------------------------------------------------------------------------

  /** `v` copied over `s` from `at`. */
  function Put(s: bytes, at: nat, v: bytes): (r: bytes)
    requires at + |v| <= |s|
    ensures |r| == |s|
  {
    s[..at] + v + s[at + |v|..]
  }

  /** `((offset as u64) << 32) | low`. */
  function Word(offset: nat, low: nat): nat {
    BitOr((offset * U32) % U64, low)
  }

  function Mark(b: byte, bit: nat): byte
    requires bit < 8
  {
    ByteBits(bit);
    BitOrBound(b, Pow2(bit), 8);
    BitOr(b, Pow2(bit))
  }

  lemma ByteBits(bit: nat)
    requires bit < 8
    ensures Pow2(bit) < Pow2(8) == 256
  {
    assert Pow2(3) == 8;
    assert Pow2(5) == 32;
    assert Pow2(7) == 128;
  }

  function InlineTag(len: nat): (r: byte)
    requires len <= 7
    ensures r == 0x80 + len
  {
    assert Pow2(3) == 8;
    assert 16 * Pow2(3) == 0x80;
    BitOrDisjoint(16, len, 3);
    BitOr(0x80, len)
  }

  function Region(st: Stored): bytes
    requires Writable(st)
  {
    match st
    case SBytes(v) => if |v| <= 7 then [] else v + Zeros(Align8(|v|) - |v|)
    case STimestamp(millis, _) => MachineIntegersFit(); ToLe(millis, 8)
    case SDecimal(v) => v + Zeros(16 - |v|)
    case _ => []
  }

  /** Bytes the writer stores from the start of the slot. */
  function SlotBytes(st: Stored, offset: nat): (r: bytes)
    requires Writable(st)
    ensures |r| <= 8
  {
    match st
    case SNull => []
    case SFixed(v) => v
    case SBytes(v) => if |v| <= 7 then v else Le(Word(offset, |v|), 8)
    case STimestamp(_, nanos) => Le(Word(offset, nanos), 8)
    case SDecimal(v) => Le(Word(offset, |v|), 8)
  }

  /** One field written into a row under construction. */
  function Write(out: bytes, arity: nat, pos: nat, st: Stored): (r: bytes)
    requires pos < arity && FixedPart(arity) <= |out| && Writable(st)
    ensures |r| == |out| + |Region(st)|
  {
    Geometry(arity, pos);
    var at := FieldOffset(arity, pos);
    if st.SNull? then out[NullByte(pos) := Mark(out[NullByte(pos)], NullBit(pos))]
    else
      var placed := Put(out + Region(st), at, SlotBytes(st, |out|));
      if st.SBytes? && |st.value| <= 7 then placed[at + 7 := InlineTag(|st.value|)] else placed
  }

  ghost predicate AllWritable(sts: seq<Stored>) {
    forall i :: 0 <= i < |sts| ==> Writable(sts[i])
  }

  /** The row after its first `k` fields. */
  function Built(sts: seq<Stored>, arity: nat, k: nat): (r: bytes)
    requires k <= |sts| && k <= arity && AllWritable(sts)
    ensures FixedPart(arity) <= |r|
    decreases k
  {
    if k == 0 then Zeros(FixedPart(arity)) else Write(Built(sts, arity, k - 1), arity, k - 1, sts[k - 1])
  }

  lemma BuiltStep(sts: seq<Stored>, arity: nat, k: nat)
    requires k < |sts| && k < arity && AllWritable(sts)
    ensures Built(sts, arity, k + 1) == Write(Built(sts, arity, k), arity, k, sts[k])
    ensures |Built(sts, arity, k + 1)| == |Built(sts, arity, k)| + |Region(sts[k])|
  {
    hide Write;
  }

  lemma RegionAligned(st: Stored)
    requires Writable(st)
    ensures |Region(st)| % 8 == 0
  {
  }

  lemma NothingBuilt(sts: seq<Stored>, arity: nat)
    requires AllWritable(sts)
    ensures Built(sts, arity, 0) == Zeros(FixedPart(arity)) && FixedPart(arity) % 8 == 0
  {
  }

  /** Rows are whole words. */
  lemma {:induction false} BuiltAligned(sts: seq<Stored>, arity: nat, k: nat)
    requires k <= |sts| && k <= arity && AllWritable(sts)
    ensures |Built(sts, arity, k)| % 8 == 0
    decreases k
  {
    hide Region, Write, Writable, FixedPart, Built;
    if k == 0 {
      NothingBuilt(sts, arity);
    } else {
      BuiltAligned(sts, arity, k - 1);
      BuiltStep(sts, arity, k - 1);
      RegionAligned(sts[k - 1]);
    }
  }

  function Layout(sts: seq<Stored>): bytes
    requires AllWritable(sts)
  {
    Built(sts, |sts|, |sts|)
  }

  // ---- reading ---------------------------------------------------------------------------

  predicate IsNull(out: bytes, pos: nat)
    requires NullByte(pos) < |out|
  {
    Bit(out[NullByte(pos)], NullBit(pos))
  }

  function Slot(out: bytes, arity: nat, pos: nat): (r: bytes)
    requires pos < arity && FixedPart(arity) <= |out|
    ensures |r| == 8
  {
    Geometry(arity, pos);
    out[FieldOffset(arity, pos)..FieldOffset(arity, pos) + 8]
  }

  /** The out-of-line region a slot refers to, if it has one. */
  function ReadRegion(slot: bytes, shape: Shape): Option<(nat, nat)>
    requires |slot| == 8
  {
    var word := FromLe(slot);
    match shape
    case FixedShape(_) => None
    case BytesShape => if slot[7] >= 0x80 then None else Some((word / U32, word % U32))
    case TimestampShape => Some((word / U32, 8))
    case DecimalShape => Some((word / U32, word % U32))
  }

  /** A type-directed reader: the field at `pos`, or nothing if the bytes make no sense. */
  function Read(out: bytes, arity: nat, pos: nat, shape: Shape): Option<Stored>
    requires pos < arity && FixedPart(arity) <= |out|
  {
    Geometry(arity, pos);
    if IsNull(out, pos) then Some(SNull) else ReadSlot(out, arity, Slot(out, arity, pos), shape)
  }

  function ReadSlot(out: bytes, arity: nat, slot: bytes, shape: Shape): Option<Stored>
    requires |slot| == 8
  {
    match ReadRegion(slot, shape)
    case None =>
      (match shape
       case FixedShape(width) => if 0 < width <= 8 then Some(SFixed(slot[..width])) else None
       case _ => if 0x80 <= slot[7] < 0x88 then Some(SBytes(slot[..slot[7] - 0x80])) else None)
    case Some((offset, len)) =>
      if offset < FixedPart(arity) || offset + len > |out| then None
      else FromRegion(out[offset..offset + len], FromLe(slot) % U32, shape)
  }

  function FromRegion(region: bytes, low: u32, shape: Shape): Option<Stored> {
    match shape
    case FixedShape(_) => None
    case BytesShape => Some(SBytes(region))
    case TimestampShape =>
      if region == [] then None
      else
        var millis := SignedLe(region);
        if -0x8000_0000_0000_0000 <= millis < 0x8000_0000_0000_0000 then Some(STimestamp(millis, low)) else None
    case DecimalShape => Some(SDecimal(region))
  }

  // ---- one write and the reads around it --------------------------------------------------

  /** Two rows that agree on everything a reader of field `pos` looks at. */
  ghost predicate Agree(out: bytes, other: bytes, arity: nat, pos: nat)
    requires pos < arity && FixedPart(arity) <= |out| <= |other|
  {
    Geometry(arity, pos);
    && IsNull(out, pos) == IsNull(other, pos)
    && Slot(out, arity, pos) == Slot(other, arity, pos)
    && out[FixedPart(arity)..] == other[FixedPart(arity)..|out|]
  }

  lemma ReadAgrees(out: bytes, other: bytes, arity: nat, pos: nat, shape: Shape)
    requires pos < arity && FixedPart(arity) <= |out| <= |other| && Agree(out, other, arity, pos)
    requires Read(out, arity, pos, shape).Some?
    ensures Read(other, arity, pos, shape) == Read(out, arity, pos, shape)
  {
    hide NullBytes, FieldOffset, NullByte, NullBit, FromLe, Bit, FixedPart;
    Geometry(arity, pos);
    if !IsNull(out, pos) {
      var slot := Slot(out, arity, pos);
      match ReadRegion(slot, shape)
      case None =>
      case Some((offset, len)) =>
        var base := FixedPart(arity);
        assert base <= offset && offset + len <= |out|;
        SubSlice(out, base, |out|, offset - base, offset + len - base);
        SubSlice(other, base, |out|, offset - base, offset + len - base);
        assert out[base..] == out[base..|out|];
    }
  }

  /** Writing a field disturbs no other field. */
  lemma WriteKeepsOthers(out: bytes, arity: nat, pos: nat, st: Stored, j: nat)
    requires pos < arity && j < arity && j != pos && FixedPart(arity) <= |out| && Writable(st)
    ensures Agree(out, Write(out, arity, pos, st), arity, j)
  {
    hide Write, Mark, IsNull, NullBytes, FixedPart, Writable, Region, Slot;
    Geometry(arity, pos);
    Geometry(arity, j);
    if st.SNull? {
      MarkChanges(out, arity, pos);
      MarkOther(out, pos, j);
      SlotWithin(out, Write(out, arity, pos, st), arity, j);
    } else {
      WriteChanges(out, arity, pos, st);
      SlotsApart(arity, pos, j);
      SlotWithin(out, Write(out, arity, pos, st), arity, j);
      SameNullByte(out, Write(out, arity, pos, st), j);
    }
  }

  lemma SameNullByte(out: bytes, r: bytes, j: nat)
    requires NullByte(j) < |out| <= |r| && out[NullByte(j)] == r[NullByte(j)]
    ensures IsNull(out, j) == IsNull(r, j)
  {
  }

  lemma SlotWithin(out: bytes, r: bytes, arity: nat, j: nat)
    requires j < arity && FixedPart(arity) <= |out| <= |r|
    requires forall i :: FieldOffset(arity, j) <= i < FieldOffset(arity, j) + 8 ==> i < |out| && out[i] == r[i]
    ensures Slot(out, arity, j) == Slot(r, arity, j)
  {
    Geometry(arity, j);
  }

  lemma MarkChanges(out: bytes, arity: nat, pos: nat)
    requires pos < arity && FixedPart(arity) <= |out|
    ensures var r := Write(out, arity, pos, SNull);
      && |r| == |out| && NullByte(pos) < |out|
      && r == out[NullByte(pos) := Mark(out[NullByte(pos)], NullBit(pos))]
      && (forall i :: 0 <= i < |out| && i != NullByte(pos) ==> r[i] == out[i])
      && out[FixedPart(arity)..] == r[FixedPart(arity)..|out|]
  {
    hide Mark, NullBytes;
    Geometry(arity, pos);
  }

  /** A value only touches its slot and the end of the row. */
  lemma WriteChanges(out: bytes, arity: nat, pos: nat, st: Stored)
    requires pos < arity && FixedPart(arity) <= |out| && Writable(st) && !st.SNull?
    ensures var (r, at) := (Write(out, arity, pos, st), FieldOffset(arity, pos));
      && (forall i :: 0 <= i < |out| && !(at <= i < at + 8) ==> r[i] == out[i])
      && out[FixedPart(arity)..] == r[FixedPart(arity)..|out|]
  {
    hide Le, Word, Region, SlotBytes, InlineTag, NullBytes;
    Geometry(arity, pos);
  }

  lemma SlotsApart(arity: nat, pos: nat, j: nat)
    requires pos < arity && j < arity && j != pos
    ensures FieldOffset(arity, j) + 8 <= FieldOffset(arity, pos) || FieldOffset(arity, pos) + 8 <= FieldOffset(arity, j)
  {
  }

  lemma MarkOther(out: bytes, pos: nat, j: nat)
    requires NullByte(pos) < |out| && NullByte(j) < |out| && j != pos
    ensures IsNull(out[NullByte(pos) := Mark(out[NullByte(pos)], NullBit(pos))], j) == IsNull(out, j)
  {
    hide Bit, BitOr, Pow2;
    if NullByte(pos) == NullByte(j) {
      assert NullBit(pos) != NullBit(j);
      BitOrSets(out[NullByte(pos)], NullBit(pos), NullBit(j));
    }
  }

  lemma WordValue(offset: nat, low: nat)
    requires offset < U32 && low < U32
    ensures Word(offset, low) == offset * U32 + low < Pow256(8)
    ensures var word := FromLe(Le(Word(offset, low), 8)); word / U32 == offset && word % U32 == low
    ensures Le(Word(offset, low), 8)[7] == offset / 0x100_0000
  {
    hide BitOr, Le, FromLe, Pow2, Pow256;
    assert Pow2(32) == U32 by { Pow2Of32(); }
    BitOrDisjoint(offset, low, 32);
    var n := Word(offset, low);
    Pow256Values();
    FromLeOfLe(n, 8);
    LeTop(n, 8);
    assert Pow256(7) == 0x100_0000_0000_0000 by { assert Pow256(8) == 256 * Pow256(7) by { PowStep(7); } }
    assert n / 0x100_0000_0000_0000 == offset / 0x100_0000;
  }

  lemma PowStep(k: nat)
    ensures Pow256(k + 1) == 256 * Pow256(k)
  {
  }

  lemma Pow2Of32()
    ensures Pow2(32) == U32
  {
    assert Pow2(8) == 256 by { ByteBits(0); }
    Pow2Add(8, 8);
    Pow2Add(16, 16);
  }

  /** The most significant byte of a word. */
  lemma {:induction false} LeTop(n: nat, width: nat)
    requires 0 < width && n < Pow256(width)
    ensures Le(n, width)[width - 1] == n / Pow256(width - 1)
    decreases width
  {
    if width <= 1 {
    } else {
      LeTop(n / 256, width - 1);
      var p := Pow256(width - 2);
      assert Pow256(width - 1) == 256 * p;
      DivDiv(n, p);
    }
  }

  lemma DivDiv(n: nat, p: nat)
    requires p > 0
    ensures n / 256 / p == n / (256 * p)
  {
    var q := n / 256;
    var d := q / p;
    var (a, b) := (n % 256, q % p);
    assert q == d * p + b;
    assert n == 256 * (d * p + b) + a;
    assert n == d * (256 * p) + (256 * b + a);
    assert 256 * b + a < 256 * p;
    QuotientUnique(n, 256 * p, d, 256 * b + a);
  }

  /** The region a stored field gets when it is written at the end of `out`. */
  function Claimed(st: Stored, at: nat): Option<(nat, nat)> {
    match st
    case SBytes(v) => if |v| <= 7 then None else Some((at, |v|))
    case STimestamp(_, _) => Some((at, 8))
    case SDecimal(v) => Some((at, |v|))
    case _ => None
  }

  /** A field whose region starts at `at` can be found again: its offset and its length fit the
      slot, and long bytes start below the inline mark. Fields without a region always can. */
  predicate Addressable(st: Stored, at: nat) {
    match st
    case SBytes(v) => |v| <= 7 || (at < ROW_LIMIT && |v| < U32)
    case STimestamp(_, _) => at < U32
    case SDecimal(_) => at < U32
    case _ => true
  }

  /** The slot just written. */
  lemma WrittenSlot(out: bytes, arity: nat, pos: nat, st: Stored)
    requires pos < arity && FixedPart(arity) <= |out| && Writable(st) && !st.SNull?
    ensures SlotHolds(Slot(Write(out, arity, pos, st), arity, pos), st, |out|)
  {
    hide Le, Word, Region, SlotBytes, InlineTag, NullBytes;
    Geometry(arity, pos);
    var at := FieldOffset(arity, pos);
    var v := SlotBytes(st, |out|);
    var r := Write(out, arity, pos, st);
    SlotWidth(st, |out|);
    assert r[at..at + |v|] == v;
    SubSlice(r, at, at + 8, 0, |v|);
  }

  lemma SlotWidth(st: Stored, offset: nat)
    requires Writable(st)
    ensures st.SBytes? && |st.value| <= 7 ==> |SlotBytes(st, offset)| <= 7
  {
  }

  /** The region just written. */
  lemma WrittenRegion(out: bytes, arity: nat, pos: nat, st: Stored)
    requires pos < arity && FixedPart(arity) <= |out| && Writable(st) && !st.SNull?
    ensures Write(out, arity, pos, st)[|out|..] == Region(st)
  {
    hide Le, Word, Region, SlotBytes, InlineTag, NullBytes;
    Geometry(arity, pos);
  }

  /** A field that was not null is read back as it was written, from a region of its own. */
  lemma WriteThenRead(out: bytes, arity: nat, pos: nat, st: Stored, shape: Shape)
    requires pos < arity && FixedPart(arity) <= |out| && Writable(st) && HasShape(st, shape)
    requires NullByte(pos) < |out| && !IsNull(out, pos) && Addressable(st, |out|)
    ensures var r := Write(out, arity, pos, st);
      && Read(r, arity, pos, shape) == Some(st)
      && (st.SNull? || ReadRegion(Slot(r, arity, pos), shape) == Claimed(st, |out|))
  {
    hide Le, FromLe, Word, Bit, BitOr, Pow2, NullBytes, InlineTag;
    Geometry(arity, pos);
    var r := Write(out, arity, pos, st);
    if st.SNull? {
      BitOrSets(out[NullByte(pos)], NullBit(pos), NullBit(pos));
    } else {
      NullByteKept(out, arity, pos, st);
      WrittenSlot(out, arity, pos, st);
      WrittenRegion(out, arity, pos, st);
      SlotReadsBack(r, arity, Slot(r, arity, pos), st, |out|, shape);
    }
  }

  lemma NullByteKept(out: bytes, arity: nat, pos: nat, st: Stored)
    requires pos < arity && FixedPart(arity) <= |out| && Writable(st) && !st.SNull?
    requires NullByte(pos) < |out|
    ensures NullByte(pos) < |Write(out, arity, pos, st)|
    ensures Write(out, arity, pos, st)[NullByte(pos)] == out[NullByte(pos)]
  {
    hide Le, Word, Region, SlotBytes, InlineTag;
    Geometry(arity, pos);
  }

  ghost predicate SlotHolds(slot: bytes, st: Stored, at: nat)
    requires |slot| == 8 && Writable(st)
  {
    && slot[..|SlotBytes(st, at)|] == SlotBytes(st, at)
    && (st.SBytes? && |st.value| <= 7 ==> slot[7] == 0x80 + |st.value|)
  }

  lemma SlotReadsBack(r: bytes, arity: nat, slot: bytes, st: Stored, at: nat, shape: Shape)
    requires |slot| == 8 && Writable(st) && HasShape(st, shape) && !st.SNull?
    requires FixedPart(arity) <= at <= |r| && r[at..] == Region(st) && Addressable(st, at)
    requires SlotHolds(slot, st, at)
    ensures ReadSlot(r, arity, slot, shape) == Some(st)
    ensures ReadRegion(slot, shape) == Claimed(st, at)
  {
    if st.STimestamp? {
      TimestampReadsBack(r, arity, slot, st, at);
    } else {
      ValueReadsBack(r, arity, slot, st, at, shape);
    }
  }

  lemma ValueReadsBack(r: bytes, arity: nat, slot: bytes, st: Stored, at: nat, shape: Shape)
    requires |slot| == 8 && Writable(st) && HasShape(st, shape) && !st.SNull? && !st.STimestamp?
    requires FixedPart(arity) <= at <= |r| && r[at..] == Region(st) && Addressable(st, at)
    requires SlotHolds(slot, st, at)
    ensures ReadSlot(r, arity, slot, shape) == Some(st)
    ensures ReadRegion(slot, shape) == Claimed(st, at)
  {
    hide Le, FromLe, Word, ToLe, FixedPart, SignedLe;
    if !st.SFixed? && Region(st) != [] {
      var v := st.value;
      assert |v| <= |Region(st)|;
      assert slot == Le(Word(at, |v|), 8);
      WordValue(at, |v|);
      RegionSlice(r, at, |v|, st);
    }
  }

  lemma TimestampReadsBack(r: bytes, arity: nat, slot: bytes, st: Stored, at: nat)
    requires |slot| == 8 && st.STimestamp?
    requires FixedPart(arity) <= at <= |r| && r[at..] == Region(st) && Addressable(st, at)
    requires SlotHolds(slot, st, at)
    ensures ReadSlot(r, arity, slot, TimestampShape) == Some(st)
    ensures ReadRegion(slot, TimestampShape) == Claimed(st, at)
  {
    hide Le, FromLe, Word, ToLe, FixedPart, SignedLe;
    assert slot == Le(Word(at, st.nanos), 8);
    WordValue(at, st.nanos);
    MachineIntegersFit();
    ToLeRoundTrip(st.millis, 8);
    RegionSlice(r, at, 8, st);
    assert Region(st)[..8] == ToLe(st.millis, 8);
  }

  /** The limit is exact: long bytes written at an offset from 2^31 up to 2^32 are never read
      back, whatever they are. */
  lemma LongBytesAreLost(out: bytes, arity: nat, pos: nat, v: bytes)
    requires pos < arity && FixedPart(arity) <= |out| && NullByte(pos) < |out| && !IsNull(out, pos)
    requires ROW_LIMIT <= |out| < U32 && 7 < |v| < U32 && |v| <= ISIZE_MAX
    ensures Read(Write(out, arity, pos, SBytes(v)), arity, pos, BytesShape) != Some(SBytes(v))
  {
    hide Le, FromLe, Word, Bit, BitOr, Pow2, NullBytes, InlineTag, Write;
    var st := SBytes(v);
    Geometry(arity, pos);
    NullByteKept(out, arity, pos, st);
    WrittenSlot(out, arity, pos, st);
    var slot := Slot(Write(out, arity, pos, st), arity, pos);
    assert slot == Le(Word(|out|, |v|), 8);
    WordValue(|out|, |v|);
    assert slot[7] >= 0x80;
  }

  lemma RegionSlice(r: bytes, at: nat, len: nat, st: Stored)
    requires Writable(st) && at <= |r| && r[at..] == Region(st) && len <= |Region(st)|
    ensures at + len <= |r| && r[at..at + len] == Region(st)[..len]
  {
    SubSlice(r, at, |r|, 0, len);
  }

  // ---- whole rows ------------------------------------------------------------------------

  ghost predicate Shaped(sts: seq<Stored>, shapes: seq<Shape>) {
    |sts| == |shapes| && forall i :: 0 <= i < |sts| ==> HasShape(sts[i], shapes[i]) && Writable(sts[i])
  }

  lemma {:induction false} BuiltGrows(sts: seq<Stored>, arity: nat, k: nat, m: nat)
    requires AllWritable(sts) && k <= m <= |sts| && m <= arity
    ensures |Built(sts, arity, k)| <= |Built(sts, arity, m)|
    decreases m
  {
    hide Region, Write, Writable;
    if k >= m {
    } else {
      BuiltGrows(sts, arity, k, m - 1);
      BuiltStep(sts, arity, m - 1);
    }
  }

  /** Fields not written yet are not null. */
  lemma {:induction false} UnwrittenIsNotNull(sts: seq<Stored>, arity: nat, k: nat, j: nat)
    requires AllWritable(sts) && k <= |sts| && k <= j < arity
    ensures NullByte(j) < |Built(sts, arity, k)| && !IsNull(Built(sts, arity, k), j)
    decreases k
  {
    hide Bit, Write, Built, FixedPart, NullBytes, Region, Writable, Slot, NullByte;
    Geometry(arity, j);
    if k == 0 {
      NothingBuilt(sts, arity);
      ZeroHasNoBits(NullBit(j));
    } else {
      UnwrittenIsNotNull(sts, arity, k - 1, j);
      BuiltStep(sts, arity, k - 1);
      WriteKeepsOthers(Built(sts, arity, k - 1), arity, k - 1, sts[k - 1], j);
    }
  }

  /** Field `j` of the row after `k` fields reads back, and sits where the row ended before. */
  lemma {:induction false} FieldReadsBack(sts: seq<Stored>, shapes: seq<Shape>, k: nat, j: nat)
    requires Shaped(sts, shapes) && AllWritable(sts) && j < k <= |sts|
    requires Addressable(sts[j], |Built(sts, |sts|, j)|)
    ensures var row := Built(sts, |sts|, k);
      && Read(row, |sts|, j, shapes[j]) == Some(sts[j])
      && (sts[j].SNull? || ReadRegion(Slot(row, |sts|, j), shapes[j]) == Claimed(sts[j], |Built(sts, |sts|, j)|))
    decreases k
  {
    hide Write, Read, ReadRegion, HasShape, Writable, IsNull, FixedPart, Built, Addressable, Claimed, Region;
    var n := |sts|;
    var before := Built(sts, n, k - 1);
    BuiltStep(sts, n, k - 1);
    if j == k - 1 {
      UnwrittenIsNotNull(sts, n, k - 1, j);
      WriteThenRead(before, n, j, sts[j], shapes[j]);
    } else {
      FieldReadsBack(sts, shapes, k - 1, j);
      WriteKeepsOthers(before, n, k - 1, sts[k - 1], j);
      ReadAgrees(before, Built(sts, n, k), n, j, shapes[j]);
    }
  }

  /** Where the region of field `j` starts, if it has one. */
  function StartOf(sts: seq<Stored>, j: nat): nat
    requires AllWritable(sts) && j < |sts|
  {
    |Built(sts, |sts|, j)|
  }

  /** Every addressable field of a finished row reads back exactly, however long the row is. */
  lemma LayoutRoundTrip(sts: seq<Stored>, shapes: seq<Shape>, j: nat)
    requires Shaped(sts, shapes) && AllWritable(sts) && j < |sts| && Addressable(sts[j], StartOf(sts, j))
    ensures Read(Layout(sts), |sts|, j, shapes[j]) == Some(sts[j])
  {
    FieldReadsBack(sts, shapes, |sts|, j);
  }

  /** In a row below the limit every field is addressable. */
  lemma SmallRowsAreAddressable(sts: seq<Stored>, j: nat)
    requires AllWritable(sts) && j < |sts| && |Layout(sts)| < ROW_LIMIT
    ensures Addressable(sts[j], StartOf(sts, j))
  {
    hide Write, Region, Writable;
    BuiltGrows(sts, |sts|, j + 1, |sts|);
    BuiltStep(sts, |sts|, j);
    RegionHoldsBytes(sts[j]);
  }

  lemma RegionHoldsBytes(st: Stored)
    requires Writable(st)
    ensures st.SBytes? && |st.value| > 7 ==> |st.value| <= |Region(st)|
  {
  }

  /** The region of field `j` in a row, as a reader finds it. */
  function RegionOf(row: bytes, arity: nat, j: nat, shape: Shape): Option<(nat, nat)>
    requires j < arity && FixedPart(arity) <= |row|
  {
    Geometry(arity, j);
    if IsNull(row, j) then None else ReadRegion(Slot(row, arity, j), shape)
  }

  /** Out-of-line regions lie behind the fixed part, inside the row, and apart from each other. */
  lemma RegionsAreDisjoint(sts: seq<Stored>, shapes: seq<Shape>, i: nat, j: nat)
    requires Shaped(sts, shapes) && AllWritable(sts) && i < j < |sts|
    requires Addressable(sts[i], StartOf(sts, i)) && Addressable(sts[j], StartOf(sts, j))
    ensures var (row, n) := (Layout(sts), |sts|);
      match (RegionOf(row, n, i, shapes[i]), RegionOf(row, n, j, shapes[j]))
      case (Some((a, x)), Some((b, y))) => FixedPart(n) <= a && a + x <= b && b + y <= |row| && b % 8 == 0
      case _ => true
  {
    hide Write, ReadRegion, Read, HasShape, Writable, Region, IsNull, FixedPart, Built;
    var n := |sts|;
    RegionIsClaimed(sts, shapes, i);
    RegionIsClaimed(sts, shapes, j);
    BuiltGrows(sts, n, i + 1, j);
    BuiltGrows(sts, n, j + 1, n);
    BuiltAligned(sts, n, j);
    BuiltStep(sts, n, i);
    BuiltStep(sts, n, j);
    ClaimFits(sts[i], |Built(sts, n, i)|);
    ClaimFits(sts[j], |Built(sts, n, j)|);
  }

  lemma ClaimFits(st: Stored, at: nat)
    requires Writable(st)
    ensures Claimed(st, at).Some? ==> Claimed(st, at).value.0 == at && Claimed(st, at).value.1 <= |Region(st)|
  {
  }

  lemma RegionIsClaimed(sts: seq<Stored>, shapes: seq<Shape>, j: nat)
    requires Shaped(sts, shapes) && AllWritable(sts) && j < |sts| && Addressable(sts[j], StartOf(sts, j))
    ensures RegionOf(Layout(sts), |sts|, j, shapes[j]) == Claimed(sts[j], |Built(sts, |sts|, j)|)
  {
    hide Write, ReadRegion, HasShape, Writable, IsNull, FixedPart, ReadSlot;
    FieldReadsBack(sts, shapes, |sts|, j);
    Geometry(|sts|, j);
    ReadSlotIsNotNull(Layout(sts), |sts|, j, shapes[j]);
  }

  lemma ReadSlotIsNotNull(out: bytes, arity: nat, pos: nat, shape: Shape)
    requires pos < arity && FixedPart(arity) <= |out| && NullByte(pos) < |out|
    ensures (Read(out, arity, pos, shape) == Some(SNull)) == IsNull(out, pos)
  {
  }
}
