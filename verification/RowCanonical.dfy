/** The bytes of a BinaryRow written down at once: a little-endian bitmap in whole words, eight
    bytes per field, and the regions one after the other. The in-place writer produces exactly
    these bytes, paddings included. */
module RowCanonical {
  import opened Bytes
  import opened TwosComplement
  import opened RowLayout

  // ---- the form --------------------------------------------------------------------------

  /** Bits 8, 9, ... of the bitmap tell which of the first `k` fields are null. */
  function NullWord(sts: seq<Stored>, k: nat): nat
    requires k <= |sts|
  {
    if k == 0 then 0 else NullWord(sts, k - 1) + (if sts[k - 1].SNull? then Pow2(8 + (k - 1)) else 0)
  }

  /** The bitmap of `arity` fields and eight spare bits, in whole 64-bit words. */
  function BitmapBytes(arity: nat): nat {
    8 * ((arity + 8 + 63) / 64)
  }

  function SlotImage(st: Stored, at: nat): (r: bytes)
    requires Writable(st)
    ensures |r| == 8
  {
    match st
    case SNull => Zeros(8)
    case SFixed(v) => v + Zeros(8 - |v|)
    case SBytes(v) => if |v| <= 7 then v + Zeros(7 - |v|) + [128 + |v|] else Le(Word(at, |v|), 8)
    case STimestamp(_, nanos) => Le(Word(at, nanos), 8)
    case SDecimal(v) => Le(Word(at, |v|), 8)
  }

  /** What a field puts behind the slots, padded with zeros to whole words. */
  function RegionImage(st: Stored): bytes
    requires Writable(st)
  {
    match st
    case SBytes(v) => if |v| <= 7 then [] else v + Zeros((8 - |v| % 8) % 8)
    case STimestamp(millis, _) => MachineIntegersFit(); ToLe(millis, 8)
    case SDecimal(v) => v + Zeros(16 - |v|)
    case _ => []
  }

  function Regions(sts: seq<Stored>, k: nat): bytes
    requires k <= |sts| && AllWritable(sts)
  {
    if k == 0 then [] else Regions(sts, k - 1) + RegionImage(sts[k - 1])
  }

  function Slots(sts: seq<Stored>, arity: nat, k: nat): (r: bytes)
    requires k <= |sts| && AllWritable(sts)
    ensures |r| == 8 * k
  {
    if k == 0 then []
    else
      var at := BitmapBytes(arity) + 8 * arity + |Regions(sts, k - 1)|;
      Slots(sts, arity, k - 1) + SlotImage(sts[k - 1], at)
  }

  function Canonical(sts: seq<Stored>): bytes
    requires AllWritable(sts)
  {
    var n := |sts|;
    Le(NullWord(sts, n), BitmapBytes(n)) + Slots(sts, n, n) + Regions(sts, n)
  }

  // ---- setting one bit -------------------------------------------------------------------

  /** OR with a clear bit is addition. */
  lemma {:induction false} OrAddsClearBit(n: nat, k: nat)
    requires !Bit(n, k)
    ensures BitOr(n, Pow2(k)) == n + Pow2(k)
    decreases k
  {
    if n == 0 || k == 0 {
      if n != 0 {
        assert BitOr(n, 1) == 2 * BitOr(n / 2, 0) + 1;
      }
    } else {
      assert Pow2(k) / 2 == Pow2(k - 1) && Pow2(k) % 2 == 0;
      OrAddsClearBit(n / 2, k - 1);
    }
  }

  lemma ClearBitFits(b: byte, bit: nat)
    requires bit < 8 && !Bit(b, bit)
    ensures Mark(b, bit) == b + Pow2(bit) < 256
  {
    hide Bit, BitOr, Pow2;
    OrAddsClearBit(b, bit);
  }

  /** Setting a clear bit of a little-endian word changes one byte. */
  lemma {:induction false} LeSetsBit(n: nat, width: nat, a: nat, bit: nat)
    requires a < width && bit < 8 && !Bit(Le(n, width)[a], bit)
    ensures Le(n + Pow2(8 * a + bit), width) == Le(n, width)[a := Mark(Le(n, width)[a], bit)]
    decreases a
  {
    hide Bit, Mark, BitOr, Pow2;
    var m := Pow2(8 * a + bit);
    if a == 0 {
      ClearBitFits(n % 256, bit);
      assert (n + m) / 256 == n / 256 && (n + m) % 256 == n % 256 + m;
    } else {
      var q := Pow2(8 * (a - 1) + bit);
      EightMoreBits(8 * (a - 1) + bit);
      assert m == 256 * q;
      assert (n + m) / 256 == n / 256 + q && (n + m) % 256 == n % 256;
      assert Le(n, width)[a] == Le(n / 256, width - 1)[a - 1];
      LeSetsBit(n / 256, width - 1, a - 1, bit);
    }
  }

  lemma EightMoreBits(k: nat)
    ensures Pow2(k + 8) == 256 * Pow2(k)
  {
    ByteBits(0);
    Pow2Add(k, 8);
  }

  // ---- the writer, field by field --------------------------------------------------------

  /** The row after `k` fields: what is written, and zeros for the slots still to come. */
  function Partial(sts: seq<Stored>, arity: nat, k: nat): bytes
    requires k <= |sts| && k <= arity && AllWritable(sts)
  {
    Le(NullWord(sts, k), BitmapBytes(arity)) + Slots(sts, arity, k) + Zeros(8 * (arity - k)) + Regions(sts, k)
  }

  lemma {:induction false} BuiltIsPartial(sts: seq<Stored>, arity: nat, k: nat)
    requires k <= |sts| && k <= arity && AllWritable(sts)
    ensures Built(sts, arity, k) == Partial(sts, arity, k)
    decreases k
  {
    hide Write, Region, SlotImage, RegionImage, Writable, Le, Pow2, Built;
    if k == 0 {
      NothingBuilt(sts, arity);
      LeOfZero(BitmapBytes(arity));
      assert Zeros(BitmapBytes(arity)) + [] + Zeros(8 * arity) + [] == Zeros(FixedPart(arity));
    } else {
      BuiltIsPartial(sts, arity, k - 1);
      BuiltStep(sts, arity, k - 1);
      if sts[k - 1].SNull? {
        UnwrittenIsNotNull(sts, arity, k - 1, k - 1);
        NullStep(sts, arity, k - 1);
      } else {
        ValueStep(sts, arity, k - 1);
      }
    }
  }

  lemma {:induction false} LeOfZero(width: nat)
    ensures Le(0, width) == Zeros(width)
  {
    if width == 0 {
    } else {
      LeOfZero(width - 1);
      assert [0] + Zeros(width - 1) == Zeros(width);
    }
  }

  /** A null field sets its bit and leaves its slot zero. */
  lemma NullStep(sts: seq<Stored>, arity: nat, k: nat)
    requires k < |sts| && k < arity && AllWritable(sts) && sts[k].SNull?
    requires FixedPart(arity) <= |Partial(sts, arity, k)|
    requires NullByte(k) < |Partial(sts, arity, k)| && !IsNull(Partial(sts, arity, k), k)
    ensures Write(Partial(sts, arity, k), arity, k, sts[k]) == Partial(sts, arity, k + 1)
  {
    hide Le, IsNull, Bit, BitOr, Pow2, Mark, Writable, Write, Slots, Regions, NullWord, NullByte, NullBit, FixedPart;
    Geometry(arity, k);
    var out := Partial(sts, arity, k);
    var (word, width) := (NullWord(sts, k), BitmapBytes(arity));
    var (head, rest) := (Le(word, width), Slots(sts, arity, k) + Zeros(8 * (arity - k)) + Regions(sts, k));
    var (a, bit) := (NullByte(k), NullBit(k));
    assert out == head + rest;
    NullPosition(arity, k);
    assert out[a] == head[a];
    NullBitIsClear(out, k);
    LeSetsBit(word, width, a, bit);
    MarkChanges(out, arity, k);
    assert out[a := Mark(out[a], bit)] == head[a := Mark(head[a], bit)] + rest;
    SomeNull(sts, k);
    NullKeepsRest(sts, arity, k);
  }

  lemma NullPosition(arity: nat, k: nat)
    requires k < arity
    ensures 8 * NullByte(k) + NullBit(k) == 8 + k && NullByte(k) < BitmapBytes(arity) && NullBit(k) < 8
  {
  }

  lemma NullBitIsClear(out: bytes, k: nat)
    requires NullByte(k) < |out| && !IsNull(out, k)
    ensures !Bit(out[NullByte(k)], NullBit(k))
  {
  }

  lemma SomeNull(sts: seq<Stored>, k: nat)
    requires k < |sts| && sts[k].SNull?
    ensures NullWord(sts, k + 1) == NullWord(sts, k) + Pow2(8 + k)
  {
  }

  lemma NullKeepsRest(sts: seq<Stored>, arity: nat, k: nat)
    requires k < |sts| && k < arity && AllWritable(sts) && sts[k].SNull?
    ensures Slots(sts, arity, k + 1) + Zeros(8 * (arity - k - 1)) == Slots(sts, arity, k) + Zeros(8 * (arity - k))
    ensures Regions(sts, k + 1) == Regions(sts, k)
  {
    assert Slots(sts, arity, k + 1) == Slots(sts, arity, k) + Zeros(8);
    assert Zeros(8) + Zeros(8 * (arity - k - 1)) == Zeros(8 * (arity - k));
    ConcatAssoc(Slots(sts, arity, k), Zeros(8), Zeros(8 * (arity - k - 1)));
    assert Regions(sts, k + 1) == Regions(sts, k) + [];
  }

  /** A value fills its zero slot and appends its region. */
  lemma ValueStep(sts: seq<Stored>, arity: nat, k: nat)
    requires k < |sts| && k < arity && AllWritable(sts) && !sts[k].SNull?
    requires FixedPart(arity) <= |Partial(sts, arity, k)|
    ensures Write(Partial(sts, arity, k), arity, k, sts[k]) == Partial(sts, arity, k + 1)
  {
    hide Le, Word, Region, SlotImage, RegionImage, InlineTag, SlotBytes, Writable, NullWord, Write;
    Geometry(arity, k);
    var out := Partial(sts, arity, k);
    var front := Le(NullWord(sts, k), BitmapBytes(arity)) + Slots(sts, arity, k);
    var (later, tail) := (Zeros(8 * (arity - k - 1)), Regions(sts, k));
    var at := FixedPart(arity) + |tail|;
    assert |front| == FieldOffset(arity, k) && |out| == at;
    assert Zeros(8 * (arity - k)) == Zeros(8) + later;
    assert out == front + (Zeros(8) + later) + tail;
    assert out == front + Zeros(8) + (later + tail) by {
      ConcatAssoc(front, Zeros(8), later);
      ConcatAssoc(front + Zeros(8), later, tail);
    }
    RegionIsImage(sts[k]);
    WriteInPlace(out, front, later + tail, arity, k, sts[k]);
    var image := SlotImage(sts[k], at);
    assert Slots(sts, arity, k + 1) == Slots(sts, arity, k) + image;
    assert Regions(sts, k + 1) == tail + RegionImage(sts[k]);
    NullWordStep(sts, k);
    Regroup(Le(NullWord(sts, k), BitmapBytes(arity)), Slots(sts, arity, k), image, later, tail, RegionImage(sts[k]));
  }

  lemma NullWordStep(sts: seq<Stored>, k: nat)
    requires k < |sts| && !sts[k].SNull?
    ensures NullWord(sts, k + 1) == NullWord(sts, k)
  {
  }

  lemma Regroup(a: bytes, b: bytes, c: bytes, d: bytes, e: bytes, f: bytes)
    ensures (a + b) + c + ((d + e) + f) == a + (b + c) + d + (e + f)
  {
  }

  lemma RegionIsImage(st: Stored)
    requires Writable(st)
    ensures Region(st) == RegionImage(st)
  {
    hide ToLe;
    if st.SBytes? && |st.value| > 7 {
      var n := |st.value|;
      assert Align8(n) - n == (8 - n % 8) % 8;
    }
  }

  /** Writing over a zero slot leaves its image there. */
  lemma WriteInPlace(out: bytes, front: bytes, rest: bytes, arity: nat, k: nat, st: Stored)
    requires k < arity && FixedPart(arity) <= |out| && Writable(st) && !st.SNull?
    requires out == front + Zeros(8) + rest && |front| == FieldOffset(arity, k)
    ensures Write(out, arity, k, st) == front + SlotImage(st, |out|) + (rest + Region(st))
  {
    hide Le, Word, Region, NullBytes;
    Geometry(arity, k);
    var v := SlotBytes(st, |out|);
    var whole := out + Region(st);
    assert whole == front + Zeros(8) + (rest + Region(st));
    PutOverZeros(front, rest + Region(st), v);
    if st.SBytes? && |st.value| <= 7 {
      var slot := v + Zeros(8 - |v|);
      assert (front + slot + (rest + Region(st)))[|front| + 7 := InlineTag(|v|)]
          == front + slot[7 := InlineTag(|v|)] + (rest + Region(st));
      assert slot[7 := InlineTag(|v|)] == v + Zeros(7 - |v|) + [128 + |v|];
    } else {
      assert |v| == 8 ==> v + Zeros(0) == v;
    }
  }

  lemma PutOverZeros(front: bytes, rest: bytes, v: bytes)
    requires |v| <= 8
    ensures Put(front + Zeros(8) + rest, |front|, v) == front + (v + Zeros(8 - |v|)) + rest
  {
  }

  /** The in-place writer and the form agree on every byte of every row. */
  lemma WriterIsCanonical(sts: seq<Stored>)
    requires AllWritable(sts)
    ensures Layout(sts) == Canonical(sts)
  {
    hide Built, Writable, Le, Slots, Regions, NullWord;
    var n := |sts|;
    BuiltIsPartial(sts, n, n);
    assert Le(NullWord(sts, n), BitmapBytes(n)) + Slots(sts, n, n) + Zeros(0)
        == Le(NullWord(sts, n), BitmapBytes(n)) + Slots(sts, n, n);
  }
}
