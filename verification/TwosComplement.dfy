/** Two's complement integers as byte strings: fixed-width little endian, and the shortest
    big-endian form used for wide decimals. */
module TwosComplement {
  import opened Bytes

  type i8 = v: int | -0x80 <= v < 0x80
  type i16 = v: int | -0x8000 <= v < 0x8000
  type i32 = v: int | -0x8000_0000 <= v < 0x8000_0000
  type i64 = v: int | -0x8000_0000_0000_0000 <= v < 0x8000_0000_0000_0000
  type i128 = v: int |
    -0x8000_0000_0000_0000_0000_0000_0000_0000 <= v < 0x8000_0000_0000_0000_0000_0000_0000_0000

  function Half(width: nat): nat
    requires width > 0
  {
    128 * Pow256(width - 1)
  }

  predicate Fits(v: int, width: nat)
    requires width > 0
  {
    0 - Half(width) <= v < Half(width)
  }

  /** The unsigned word with the same bits as `v`. */
  function Unsigned(v: int, width: nat): (r: nat)
    requires width > 0 && Fits(v, width)
    ensures r < Pow256(width)
  {
    if v < 0 then v + Pow256(width) else v
  }

  function Signed(n: nat, width: nat): int
    requires width > 0
  {
    if n < Half(width) then n else n - Pow256(width)
  }

  function SignedLe(s: bytes): int
    requires s != []
  {
    Signed(FromLe(s), |s|)
  }

  function SignedBe(s: bytes): int
    requires s != []
  {
    Signed(FromBe(s), |s|)
  }

  function ToLe(v: int, width: nat): (r: bytes)
    requires width > 0 && Fits(v, width)
    ensures |r| == width
  {
    Le(Unsigned(v, width), width)
  }

  lemma ToLeRoundTrip(v: int, width: nat)
    requires width > 0 && Fits(v, width)
    ensures SignedLe(ToLe(v, width)) == v
  {
    FromLeOfLe(Unsigned(v, width), width);
  }

  lemma MachineIntegersFit()
    ensures forall v: i8 :: Fits(v, 1)
    ensures forall v: i16 :: Fits(v, 2)
    ensures forall v: i32 :: Fits(v, 4)
    ensures forall v: i64 :: Fits(v, 8)
    ensures forall v: i128 :: Fits(v, 16)
  {
    Pow256Values();
    assert Half(1) == 0x80 && Half(2) == 0x8000;
    assert 256 * Pow256(3) == Pow256(4) && 256 * Pow256(7) == Pow256(8) && 256 * Pow256(15) == Pow256(16);
    assert Half(4) == 0x8000_0000 && Half(8) == 0x8000_0000_0000_0000;
    assert Half(16) == 0x8000_0000_0000_0000_0000_0000_0000_0000;
  }

  // ---- the shortest big-endian form ------------------------------------------------------

  /** A leading byte that only repeats the sign of the byte after it. */
  predicate Redundant(s: bytes) {
    |s| > 1 && ((s[0] == 0 && s[1] < 0x80) || (s[0] == 0xff && s[1] >= 0x80))
  }

  function Trim(s: bytes): (r: bytes)
    requires s != []
    ensures 0 < |r| <= |s| && !Redundant(r)
  {
    if Redundant(s) then Trim(s[1..]) else s
  }

  lemma {:induction false} FromBeSplit(first: byte, rest: bytes)
    ensures FromBe([first] + rest) == first * Pow256(|rest|) + FromBe(rest)
    decreases |rest|
  {
    var s := [first] + rest;
    if rest != [] {
      var n := |rest| - 1;
      FromBeSplit(first, rest[..n]);
      assert s[..|s| - 1] == [first] + rest[..n];
      assert 256 * (first * Pow256(n)) == first * Pow256(n + 1);
    } else {
      assert s[..0] == [];
    }
  }

  /** The value of a big-endian word lies between its top byte and the next one. */
  lemma TopByte(s: bytes, x: nat) returns (p: nat)
    requires s != []
    ensures p == Pow256(|s| - 1) && Pow256(|s|) == 256 * p && Half(|s|) == 128 * p
    ensures FromBe(s) == s[0] * p + FromBe(s[1..]) && FromBe(s[1..]) < p
    ensures s[0] >= x ==> s[0] * p >= x * p
    ensures s[0] <= x ==> s[0] * p <= x * p
  {
    p := Pow256(|s| - 1);
    assert s == [s[0]] + s[1..];
    hide FromBe, Pow256;
    FromBeSplit(s[0], s[1..]);
    FromBeBound(s[1..]);
    HalfOfPow(|s|);
    if s[0] >= x {
      MulLe(x, s[0], p);
    }
    if s[0] <= x {
      MulLe(s[0], x, p);
    }
  }

  lemma HalfOfPow(width: nat)
    requires width > 0
    ensures Pow256(width) == 2 * Half(width)
  {
  }

  /** The top byte decides the sign. */
  lemma SignOfTopByte(s: bytes)
    requires s != []
    ensures Fits(SignedBe(s), |s|)
    ensures SignedBe(s) == FromBe(s) - (if s[0] >= 0x80 then Pow256(|s|) else 0)
  {
    hide FromBe, Pow256, Half;
    var p := TopByte(s, 128);
    var q := TopByte(s, 127);
    FromBeBound(s);
  }

  lemma {:induction false} TrimKeepsValue(s: bytes)
    requires s != []
    ensures SignedBe(Trim(s)) == SignedBe(s)
    decreases |s|
  {
    hide FromBe, Pow256, Half, Signed;
    if !Redundant(s) {
    } else {
      var rest := s[1..];
      var p := TopByte(s, s[0]);
      SignOfTopByte(s);
      SignOfTopByte(rest);
      TrimKeepsValue(rest);
    }
  }

  lemma {:induction false} PowGrows(a: nat, b: nat)
    requires a <= b
    ensures Pow256(a) <= Pow256(b)
    decreases b
  {
    if a >= b {
    } else {
      PowGrows(a, b - 1);
    }
  }

  /** No byte string shorter than one without a redundant lead has the same value. */
  lemma NoShorter(s: bytes, other: bytes)
    requires s != [] && other != [] && !Redundant(s)
    requires SignedBe(other) == SignedBe(s)
    ensures |s| <= |other|
  {
    hide FromBe, Pow256, Signed;
    SignOfTopByte(other);
    if |s| > 1 {
      NotOneShorter(s);
      if |other| < |s| {
        PowGrows(|other| - 1, |s| - 2);
      }
    }
  }

  lemma NotOneShorter(s: bytes)
    requires |s| > 1 && !Redundant(s)
    ensures !Fits(SignedBe(s), |s| - 1)
  {
    hide FromBe, Pow256, Half, Signed;
    var rest := s[1..];
    SignOfTopByte(s);
    var p := TopByte(s, 1);
    var q := TopByte(s, 0xfe);
    if s[0] == 0 || s[0] == 0xff {
      var r := TopByte(rest, 128);
      var t := TopByte(rest, 127);
    } else {
      HalfOfPow(|rest|);
    }
  }

  function MinimalForm(v: i128): (r: bytes)
    ensures 0 < |r| <= 16
  {
    MachineIntegersFit();
    Trim(Be(Unsigned(v, 16), 16))
  }

  /** The stored form has the value, and no shorter form does. */
  lemma MinimalFormIsExact(v: i128, other: bytes)
    requires other != []
    ensures SignedBe(MinimalForm(v)) == v
    ensures SignedBe(other) == v ==> |MinimalForm(v)| <= |other|
  {
    hide Trim, FromBe, Be, Pow256;
    MachineIntegersFit();
    var word := Be(Unsigned(v, 16), 16);
    FromBeOfBe(Unsigned(v, 16), 16);
    TrimKeepsValue(word);
    HalfOfPow(16);
    assert SignedBe(word) == v;
    if SignedBe(other) == v {
      NoShorter(MinimalForm(v), other);
    }
  }

  method MinimalTwosComplement(value: i128) returns (r: bytes)
    ensures r == MinimalForm(value)
  {
    MachineIntegersFit();
    var word := Be(Unsigned(value, 16), 16);
    var start := 0;
    while start < |word| - 1
      invariant 0 <= start < |word| == 16
      invariant Trim(word[start..]) == MinimalForm(value)
    {
      var (current, next) := (word[start], word[start + 1]);
      assert word[start..][1..] == word[start + 1..];
      if (current == 0 && next < 0x80) || (current == 0xff && next >= 0x80) {
        start := start + 1;
      } else {
        break;
      }
    }
    return word[start..];
  }
}
