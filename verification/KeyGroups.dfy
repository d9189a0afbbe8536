/** The hash that assigns a BinaryRow key to a Flink key group. */
module KeyGroups {
  import opened Bytes

  const MAX_GROUPS: nat := 32_768

  // The mixing steps: multiplications by odd constants, rotations and shifted XORs.

  function TimesC1(x: bv32): bv32 { x * 0xcc9e2d51 }
  function TimesC2(x: bv32): bv32 { x * 0x1b873593 }
  function Rotate15(x: bv32): bv32 { x.RotateLeft(15) }
  function Rotate13(x: bv32): bv32 { x.RotateLeft(13) }
  function Spread(x: bv32): bv32 { x * 5 + 0xe6546b64 }
  function Xor(x: bv32, y: bv32): bv32 { x ^ y }
  function Fold16(x: bv32): bv32 { x ^ (x >> 16) }
  function Fold13(x: bv32): bv32 { x ^ (x >> 13) }
  function TimesF1(x: bv32): bv32 { x * 0x85ebca6b }
  function TimesF2(x: bv32): bv32 { x * 0xc2b2ae35 }

  function MixWord(value: bv32): bv32 {
    TimesC2(Rotate15(TimesC1(value)))
  }

  function MixHash(hash: bv32, word: bv32): bv32 {
    Spread(Rotate13(Xor(hash, word)))
  }

  function Finalize(value: bv32): bv32 {
    Fold16(TimesF2(Fold13(TimesF1(Fold16(value)))))
  }

  function WordAt(row: bytes, k: nat): bv32
    requires 4 * k + 4 <= |row|
  {
    FromLe4(row[4 * k..4 * k + 4]);
    FromLe(row[4 * k..4 * k + 4]) as bv32
  }

  /** The state after `k` words. */
  function HashWords(row: bytes, k: nat): bv32
    requires 4 * k <= |row|
  {
    if k == 0 then 42 else MixHash(HashWords(row, k - 1), MixWord(WordAt(row, k - 1)))
  }

  function RowHash(row: bytes): bv32 {
    Finalize(Xor(HashWords(row, |row| / 4), (|row| % U32) as bv32))
  }

  /** The absolute value as Flink takes it: the most negative word becomes zero, so the result
      is never negative. */
  function Magnitude(h: bv32): (r: bv32)
    ensures r < 0x8000_0000 && (r == h || r == 0 - h || (h == 0x8000_0000 && r == 0))
  {
    if h < 0x8000_0000 then h else if h != 0x8000_0000 then 0 - h else 0
  }

  function FlinkMurmurHash(value: bv32): bv32 {
    Magnitude(Finalize(Xor(MixHash(0, MixWord(value)), 4)))
  }

  function KeyGroup(row: bytes, groups: nat): (r: nat)
    requires 0 < groups <= MAX_GROUPS
    ensures r < groups
  {
    (FlinkMurmurHash(RowHash(row)) as nat) % groups
  }

  method BinaryRowHash(row: bytes) returns (hash: bv32)
    requires |row| % 4 == 0
    ensures hash == RowHash(row)
  {
    hide MixHash, MixWord, Finalize, WordAt, Xor;
    var state: bv32 := 42;
    var k := 0;
    while 4 * k < |row|
      invariant 4 * k <= |row| && state == HashWords(row, k)
    {
      state := MixHash(state, MixWord(WordAt(row, k)));
      k := k + 1;
    }
    return Finalize(Xor(state, (|row| % U32) as bv32));
  }

  method AssignKeyGroup(row: bytes, groups: nat) returns (r: nat)
    requires |row| % 4 == 0 && 0 < groups <= MAX_GROUPS
    ensures r == KeyGroup(row, groups)
  {
    hide FlinkMurmurHash, RowHash;
    var hash := BinaryRowHash(row);
    return (FlinkMurmurHash(hash) as nat) % groups;
  }

  /** A key group is the hash modulo the number of groups. */
  lemma GroupIsTheHash(row: bytes, groups: nat)
    requires 0 < groups <= MAX_GROUPS
    ensures KeyGroup(row, groups) < groups
    ensures ((FlinkMurmurHash(RowHash(row)) as nat) - KeyGroup(row, groups)) % groups == 0
  {
    hide FlinkMurmurHash, RowHash;
    Congruent(FlinkMurmurHash(RowHash(row)) as nat, groups);
  }

  lemma Congruent(h: nat, m: nat)
    requires m > 0
    ensures (h - h % m) % m == 0
  {
    var q := h / m;
    assert h == q * m + h % m;
    QuotientUnique(q * m, m, q, 0);
  }

  // ---- no word is ignored ----------------------------------------------------------------

  function UnTimesC1(x: bv32): bv32 { x * 0xdee13bb1 }

  lemma UndoTimesC1(x: bv32)
    ensures UnTimesC1(TimesC1(x)) == x
  {
    hide UnTimesC1;
    InverseTimesC1(x);
  }

  lemma InverseTimesC1(x: bv32)
    ensures UnTimesC1(x * 0xcc9e2d51) == x
  {
  }

  function UnTimesC2(x: bv32): bv32 { x * 0x56ed309b }

  lemma UndoTimesC2(x: bv32)
    ensures UnTimesC2(TimesC2(x)) == x
  {
    hide UnTimesC2;
    InverseTimesC2(x);
  }

  lemma InverseTimesC2(x: bv32)
    ensures UnTimesC2(x * 0x1b873593) == x
  {
  }

  function UnRotate15(x: bv32): bv32 { x.RotateRight(15) }

  lemma UndoRotate15(x: bv32)
    ensures UnRotate15(Rotate15(x)) == x
  {
  }

  function UnRotate13(x: bv32): bv32 { x.RotateRight(13) }

  lemma UndoRotate13(x: bv32)
    ensures UnRotate13(Rotate13(x)) == x
  {
  }

  function UnSpread(x: bv32): bv32 { (x - 0xe6546b64) * 0xcccccccd }

  lemma UndoSpread(x: bv32)
    ensures UnSpread(Spread(x)) == x
  {
  }

  function UnFold16(x: bv32): bv32 { x ^ (x >> 16) }

  lemma UndoFold16(x: bv32)
    ensures UnFold16(Fold16(x)) == x
  {
    hide UnFold16;
    InverseFold16(x);
  }

  lemma InverseFold16(x: bv32)
    ensures UnFold16(x ^ (x >> 16)) == x
  {
  }

  function UnFold13(x: bv32): bv32 { x ^ (x >> 13) ^ (x >> 26) }

  lemma UndoFold13(x: bv32)
    ensures UnFold13(Fold13(x)) == x
  {
    hide UnFold13;
    InverseFold13(x);
  }

  lemma InverseFold13(x: bv32)
    ensures UnFold13(x ^ (x >> 13)) == x
  {
  }

  function UnTimesF1(x: bv32): bv32 { x * 0xa5cb9243 }

  lemma UndoTimesF1(x: bv32)
    ensures UnTimesF1(TimesF1(x)) == x
  {
    hide UnTimesF1;
    InverseTimesF1(x);
  }

  lemma InverseTimesF1(x: bv32)
    ensures UnTimesF1(x * 0x85ebca6b) == x
  {
  }

  function UnTimesF2(x: bv32): bv32 { x * 0x7ed1b41d }

  lemma UndoTimesF2(x: bv32)
    ensures UnTimesF2(TimesF2(x)) == x
  {
    hide UnTimesF2;
    InverseTimesF2(x);
  }

  lemma InverseTimesF2(x: bv32)
    ensures UnTimesF2(x * 0xc2b2ae35) == x
  {
  }

  lemma UndoXor(x: bv32, y: bv32)
    ensures Xor(Xor(x, y), y) == x
  {
  }

  lemma XorCommutes(x: bv32, y: bv32)
    ensures Xor(x, y) == Xor(y, x)
  {
  }

  lemma MixWordInjective(a: bv32, b: bv32)
    ensures MixWord(a) == MixWord(b) ==> a == b
  {
    hide TimesC1, TimesC2, Rotate15, UnTimesC1, UnTimesC2, UnRotate15;
    UndoTimesC2(Rotate15(TimesC1(a)));
    UndoTimesC2(Rotate15(TimesC1(b)));
    UndoRotate15(TimesC1(a));
    UndoRotate15(TimesC1(b));
    UndoTimesC1(a);
    UndoTimesC1(b);
  }

  /** Equal results of a mixing step mean equal states exactly for equal words. */
  lemma MixHashInjective(h: bv32, v: bv32, g: bv32, w: bv32)
    requires MixHash(h, v) == MixHash(g, w)
    ensures h == g <==> v == w
  {
    hide Spread, Rotate13, Xor, UnSpread, UnRotate13;
    UndoSpread(Rotate13(Xor(h, v)));
    UndoSpread(Rotate13(Xor(g, w)));
    UndoRotate13(Xor(h, v));
    UndoRotate13(Xor(g, w));
    UndoXor(h, v);
    UndoXor(g, w);
    XorCommutes(h, v);
    XorCommutes(g, w);
    UndoXor(v, h);
    UndoXor(w, g);
  }

  lemma FinalizeInjective(a: bv32, b: bv32)
    ensures Finalize(a) == Finalize(b) ==> a == b
  {
    hide Fold16, Fold13, TimesF1, TimesF2, UnFold16, UnFold13, UnTimesF1, UnTimesF2;
    UndoFinalize(a);
    UndoFinalize(b);
  }

  function Unfinalize(x: bv32): bv32 {
    UnFold16(UnTimesF1(UnFold13(UnTimesF2(UnFold16(x)))))
  }

  lemma UndoFinalize(a: bv32)
    ensures Unfinalize(Finalize(a)) == a
  {
    hide Fold16, Fold13, TimesF1, TimesF2, UnFold16, UnFold13, UnTimesF1, UnTimesF2;
    var a1 := Fold16(a);
    var a2 := TimesF1(a1);
    var a3 := Fold13(a2);
    var a4 := TimesF2(a3);
    UndoFold16(a4);
    UndoTimesF2(a3);
    UndoFold13(a2);
    UndoTimesF1(a1);
    UndoFold16(a);
  }

  /** Rows of whole words that agree except in word `k`. */
  ghost predicate DifferAt(a: bytes, b: bytes, k: nat) {
    && |a| == |b| && |a| % 4 == 0 && 4 * k + 4 <= |a|
    && WordAt(a, k) != WordAt(b, k)
    && forall j :: 0 <= j < |a| / 4 && j != k ==> WordAt(a, j) == WordAt(b, j)
  }

  lemma {:induction false} StatesDiffer(a: bytes, b: bytes, k: nat, n: nat)
    requires DifferAt(a, b, k) && 4 * n <= |a|
    ensures HashWords(a, n) == HashWords(b, n) <==> n <= k
    decreases n
  {
    hide MixHash, MixWord, WordAt;
    if n == 0 {
    } else {
      StatesDiffer(a, b, k, n - 1);
      var (h, g) := (HashWords(a, n - 1), HashWords(b, n - 1));
      var (v, w) := (WordAt(a, n - 1), WordAt(b, n - 1));
      MixWordInjective(v, w);
      if MixHash(h, MixWord(v)) == MixHash(g, MixWord(w)) {
        MixHashInjective(h, MixWord(v), g, MixWord(w));
      }
    }
  }

  /** Every word counts: keys of one length that differ in one word have different row hashes. */
  lemma EveryWordCounts(a: bytes, b: bytes, k: nat)
    requires DifferAt(a, b, k)
    ensures RowHash(a) != RowHash(b)
  {
    hide HashWords, Finalize, Xor;
    var n := |a| / 4;
    StatesDiffer(a, b, k, n);
    var (h, g, len) := (HashWords(a, n), HashWords(b, n), (|a| % U32) as bv32);
    FinalizeInjective(Xor(h, len), Xor(g, len));
    UndoXor(h, len);
    UndoXor(g, len);
  }

  /** The values Flink computes. */
  lemma MurmurVectors()
    ensures FlinkMurmurHash(0) == 0x2362_f9de
    ensures FlinkMurmurHash(42) == 0x43a4_6e1d
    ensures FlinkMurmurHash(0xffff_ffb3) == 0x2eeb_27de
  {
  }

  lemma FinalVectors()
    ensures Finalize(Xor(42, 0)) == 142_593_372
    ensures Finalize(Xor(MixHash(42, MixWord(1)), 4)) == 0 - 559_580_957
  {
  }

  lemma RowHashVectors()
    ensures RowHash([]) == 142_593_372
    ensures RowHash([1, 0, 0, 0]) == 0 - 559_580_957
  {
    hide MixHash, MixWord, Finalize, Xor, WordAt;
    FinalVectors();
    var row: bytes := [1, 0, 0, 0];
    OneWord();
    assert HashWords(row, 1) == MixHash(HashWords(row, 0), MixWord(WordAt(row, 0)));
  }

  lemma OneWord()
    ensures WordAt([1, 0, 0, 0], 0) == 1
  {
    var row: bytes := [1, 0, 0, 0];
    assert Le(1, 4) == row by { assert Le(0, 3) == [0, 0, 0] by { assert Le(0, 1) == [0]; } }
    Le4(1);
    assert row[0..4] == row;
  }
}
