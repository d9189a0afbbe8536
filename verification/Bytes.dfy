/** Byte strings, fixed-width integers in both byte orders, bitwise OR on naturals, and the
    result type shared by every component. */
module Bytes {

  type byte = b: int | 0 <= b < 256
  type bytes = seq<byte>

  datatype Option<+T> = None | Some(value: T)
  datatype Result<+T, +E> = Ok(value: T) | Err(error: E)

  const U32: nat := 0x1_0000_0000
  const USIZE_MAX: nat := 0xffff_ffff_ffff_ffff
  /** No Rust slice or vector is longer than `isize::MAX` bytes. */
  const ISIZE_MAX: nat := 0x7fff_ffff_ffff_ffff

  type u32 = n: nat | n < U32
  type usize = n: nat | n <= USIZE_MAX
  type slice = s: bytes | |s| <= ISIZE_MAX

  // ---- powers ----------------------------------------------------------------------------

  function Pow2(k: nat): (r: nat)
    ensures r >= 1
  {
    if k == 0 then 1 else 2 * Pow2(k - 1)
  }

  function Pow256(k: nat): (r: nat)
    ensures r >= 1
  {
    if k == 0 then 1 else 256 * Pow256(k - 1)
  }

  lemma {:induction false} Pow2Add(a: nat, b: nat)
    ensures Pow2(a + b) == Pow2(a) * Pow2(b)
  {
    if a == 0 {
    } else {
      Pow2Add(a - 1, b);
      var (x, y) := (Pow2(a - 1), Pow2(b));
      assert Pow2(a + b) == 2 * Pow2(a - 1 + b) && Pow2(a) == 2 * x;
      assert 2 * (x * y) == (2 * x) * y;
    }
  }

  lemma Pow256Values()
    ensures Pow256(1) == 0x100 && Pow256(2) == 0x1_0000 && Pow256(4) == U32
    ensures Pow256(8) == USIZE_MAX + 1
    ensures Pow256(16) == (USIZE_MAX + 1) * (USIZE_MAX + 1)
  {
    assert Pow256(3) == 0x100_0000 by { assert Pow256(2) == 0x1_0000; }
    assert Pow256(4) == U32;
    assert Pow256(6) == 0x1_0000_0000_0000 by { assert Pow256(5) == 256 * Pow256(4); }
    assert Pow256(8) == USIZE_MAX + 1 by { assert Pow256(7) == 256 * Pow256(6); }
    assert Pow256(10) == 0x1_0000 * Pow256(8) by { assert Pow256(9) == 256 * Pow256(8); }
    assert Pow256(12) == 0x1_0000 * Pow256(10) by { assert Pow256(11) == 256 * Pow256(10); }
    assert Pow256(14) == 0x1_0000 * Pow256(12) by { assert Pow256(13) == 256 * Pow256(12); }
    assert Pow256(16) == 0x1_0000 * Pow256(14) by { assert Pow256(15) == 256 * Pow256(14); }
  }

  // ---- products and quotients ------------------------------------------------------------

  lemma MulLe(x: nat, y: nat, p: nat)
    requires x <= y
    ensures x * p <= y * p
  {
  }

  lemma QuotientUnique(n: nat, m: nat, d: nat, r: nat)
    requires m > 0 && n == d * m + r && r < m
    ensures n / m == d
  {
    var e := n / m;
    assert n == e * m + n % m;
    assert (e + 1) * m == e * m + m && (d + 1) * m == d * m + m;
    if e < d {
      MulLe(e + 1, d, m);
    } else if d < e {
      MulLe(d + 1, e, m);
    }
  }

  // ---- little endian ---------------------------------------------------------------------

  /** The low `width` bytes of `n`, least significant first (Rust's `to_le_bytes`). */
  function Le(n: nat, width: nat): (r: bytes)
    ensures |r| == width
  {
    if width == 0 then [] else [n % 256] + Le(n / 256, width - 1)
  }

  function FromLe(s: bytes): nat {
    if s == [] then 0 else s[0] + 256 * FromLe(s[1..])
  }

  lemma {:induction false} FromLeOfLe(n: nat, width: nat)
    requires n < Pow256(width)
    ensures FromLe(Le(n, width)) == n
  {
    if width == 0 {
    } else {
      FromLeOfLe(n / 256, width - 1);
      assert Le(n, width)[1..] == Le(n / 256, width - 1);
    }
  }

  lemma {:induction false} LeOfFromLe(s: bytes)
    ensures FromLe(s) < Pow256(|s|)
    ensures Le(FromLe(s), |s|) == s
  {
    if s == [] {
    } else {
      LeOfFromLe(s[1..]);
      assert FromLe(s) / 256 == FromLe(s[1..]);
      assert s == [s[0]] + s[1..];
    }
  }

  lemma Le4(n: nat)
    requires n < U32
    ensures FromLe(Le(n, 4)) == n
  {
    Pow256Values();
    FromLeOfLe(n, 4);
  }

  lemma FromLe4(s: bytes)
    requires |s| == 4
    ensures FromLe(s) < U32 && Le(FromLe(s), 4) == s
  {
    Pow256Values();
    LeOfFromLe(s);
  }

  // ---- big endian ------------------------------------------------------------------------

  function Be(n: nat, width: nat): (r: bytes)
    ensures |r| == width
  {
    if width == 0 then [] else Be(n / 256, width - 1) + [n % 256]
  }

  function FromBe(s: bytes): nat {
    if s == [] then 0 else 256 * FromBe(s[..|s| - 1]) + s[|s| - 1]
  }

  lemma {:induction false} FromBeOfBe(n: nat, width: nat)
    requires n < Pow256(width)
    ensures FromBe(Be(n, width)) == n
  {
    if width == 0 {
    } else {
      FromBeOfBe(n / 256, width - 1);
      assert Be(n, width)[..width - 1] == Be(n / 256, width - 1);
    }
  }

  lemma {:induction false} FromBeBound(s: bytes)
    ensures FromBe(s) < Pow256(|s|)
  {
    if s == [] {
    } else {
      FromBeBound(s[..|s| - 1]);
    }
  }

  // ---- bitwise OR ------------------------------------------------------------------------

  /** Bitwise OR of two naturals. */
  function BitOr(a: nat, b: nat): nat
    decreases a + b
  {
    if a == 0 then b
    else if b == 0 then a
    else 2 * BitOr(a / 2, b / 2) + (if a % 2 == 1 || b % 2 == 1 then 1 else 0)
  }

  /** Bit `k` of `n`. */
  function Bit(n: nat, k: nat): bool {
    if k == 0 then n % 2 == 1 else Bit(n / 2, k - 1)
  }

  /** OR of two words with no bit in common is their sum. */
  lemma {:induction false} BitOrDisjoint(high: nat, low: nat, k: nat)
    requires low < Pow2(k)
    ensures BitOr(high * Pow2(k), low) == high * Pow2(k) + low
    decreases k
  {
    if k == 0 || high == 0 || low == 0 {
    } else {
      assert high * Pow2(k) == 2 * (high * Pow2(k - 1));
      BitOrDisjoint(high, low / 2, k - 1);
    }
  }

  lemma {:induction false} BitOrSets(n: nat, k: nat, j: nat)
    ensures Bit(BitOr(n, Pow2(k)), j) == (j == k || Bit(n, j))
    decreases k + j
  {
    if n == 0 {
      BitOfPow2(k, j);
      ZeroHasNoBits(j);
    } else if k == 0 {
      if j > 0 {
        assert BitOr(n, 1) / 2 == BitOr(n / 2, 0) == n / 2;
      }
    } else if j > 0 {
      assert Pow2(k) / 2 == Pow2(k - 1) && Pow2(k) % 2 == 0;
      BitOrSets(n / 2, k - 1, j - 1);
      assert BitOr(n, Pow2(k)) / 2 == BitOr(n / 2, Pow2(k - 1));
    }
  }

  lemma {:induction false} ZeroHasNoBits(j: nat)
    ensures !Bit(0, j)
  {
    if j == 0 {
    } else {
      ZeroHasNoBits(j - 1);
    }
  }

  lemma {:induction false} BitOfPow2(k: nat, j: nat)
    ensures Bit(Pow2(k), j) == (j == k)
  {
    if k == 0 {
      if j > 0 {
        ZeroHasNoBits(j - 1);
      }
    } else if j > 0 {
      BitOfPow2(k - 1, j - 1);
    }
  }

  /** OR never leaves the width both operands fit in. */
  lemma {:induction false} BitOrBound(a: nat, b: nat, k: nat)
    requires a < Pow2(k) && b < Pow2(k)
    ensures BitOr(a, b) < Pow2(k)
    decreases k
  {
    if a == 0 || b == 0 {
    } else {
      BitOrBound(a / 2, b / 2, k - 1);
    }
  }

  // ---- sequences -------------------------------------------------------------------------

  function Zeros(n: nat): (r: bytes)
    ensures |r| == n && forall i :: 0 <= i < n ==> r[i] == 0
  {
    seq(n, _ => 0)
  }

  lemma SubSlice<T>(s: seq<T>, lo: nat, hi: nat, i: nat, j: nat)
    requires lo <= hi <= |s| && i <= j <= hi - lo
    ensures s[lo..hi][i..j] == s[lo + i..lo + j]
  {
    var (a, b) := (s[lo..hi][i..j], s[lo + i..lo + j]);
    forall k | 0 <= k < j - i ensures a[k] == b[k] {
      assert s[lo..hi][i + k] == s[lo + i + k];
    }
  }

  lemma ConcatSlices<T>(a: seq<T>, b: seq<T>)
    ensures (a + b)[..|a|] == a && (a + b)[|a|..] == b
  {
  }

  lemma ConcatAssoc<T>(a: seq<T>, b: seq<T>, c: seq<T>)
    ensures a + (b + c) == (a + b) + c
  {
  }

  lemma TailOfConcat<T>(a: seq<T>, b: seq<T>)
    requires a != []
    ensures a + b != [] && (a + b)[0] == a[0] && (a + b)[1..] == a[1..] + b
  {
  }

  lemma JoinSlices<T>(s: seq<T>, lo: nat, mid: nat, hi: nat)
    requires lo <= mid <= hi <= |s|
    ensures s[lo..hi] == s[lo..mid] + s[mid..hi]
  {
  }

  predicate StartsWith(s: bytes, prefix: bytes) {
    |prefix| <= |s| && s[..|prefix|] == prefix
  }
}
