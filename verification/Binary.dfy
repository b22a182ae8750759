/**
 Byte strings and the integer encodings both languages use: fixed-width little endian
 (`writeBigUInt64LE`, `from_le_bytes`, `DataView.getUint32(_, true)`) and minimal big endian (RLP).
 */
module Binary {

  type Byte = n: int | 0 <= n < 256

  type Bytes = seq<Byte>

  const UINT32_LIMIT: nat := 0x1_0000_0000
  const UINT64_LIMIT: nat := 0x1_0000_0000_0000_0000
  const UINT128_LIMIT: nat := 0x1_0000_0000_0000_0000_0000_0000_0000_0000
  const UINT192_LIMIT: nat := 0x1_0000_0000_0000_0000_0000_0000_0000_0000_0000_0000_0000_0000
  const UINT256_LIMIT: nat := 0x1_0000_0000_0000_0000_0000_0000_0000_0000_0000_0000_0000_0000_0000_0000_0000_0000

  // Widths in bytes.
  const U32: nat := 4
  const U64: nat := 8
  const U128: nat := 16
  const U256: nat := 32

  function Pow256(k: nat): (p: nat)
    ensures p > 0
  {
    if k == 0 then 1 else 256 * Pow256(k - 1)
  }

  lemma {:induction false} MulAssociative(x: nat, y: nat, z: nat)
    ensures x * (y * z) == (x * y) * z
  {
  }

  lemma {:induction false} Pow256Add(j: nat, k: nat)
    ensures Pow256(j + k) == Pow256(j) * Pow256(k)
  {
    if j != 0 {
      Pow256Add(j - 1, k);
    }
  }

  lemma {:induction false} Pow256Monotone(j: nat, k: nat)
    requires j <= k
    ensures Pow256(j) <= Pow256(k)
  {
    if j != k {
      Pow256Monotone(j, k - 1);
    }
  }

  lemma {:induction false} WordLimits()
    ensures Pow256(1) == 256
    ensures Pow256(U32) == UINT32_LIMIT
    ensures Pow256(U64) == UINT64_LIMIT
    ensures Pow256(U128) == UINT128_LIMIT
    ensures Pow256(24) == UINT192_LIMIT
    ensures Pow256(U256) == UINT256_LIMIT
  {
    assert Pow256(1) == 256 * Pow256(0);
    assert Pow256(2) == 256 * Pow256(1);
    Pow256Add(2, 2);
    Pow256Add(4, 4);
    Pow256Add(8, 8);
    Pow256Add(16, 8);
    Pow256Add(16, 16);
  }

  // ----- little endian -----

  /** The low `width` bytes of `n`, least significant first. */
  function LE(n: nat, width: nat): (b: Bytes)
    ensures |b| == width
  {
    if width == 0 then [] else [n % 256] + LE(n / 256, width - 1)
  }

  function FromLE(b: Bytes): nat {
    if b == [] then 0 else b[0] + 256 * FromLE(b[1..])
  }

  lemma {:induction false} FromLEBound(b: Bytes)
    ensures FromLE(b) < Pow256(|b|)
  {
    if b != [] {
      FromLEBound(b[1..]);
    }
  }

  lemma {:induction false} FromLEConcat(a: Bytes, b: Bytes)
    ensures FromLE(a + b) == FromLE(a) + Pow256(|a|) * FromLE(b)
  {
    if a == [] {
      assert a + b == b;
    } else {
      FromLEConcat(a[1..], b);
      assert (a + b)[1..] == a[1..] + b;
      MulAssociative(256, Pow256(|a| - 1), FromLE(b));
    }
  }

  lemma {:induction false} FromLEOfLE(n: nat, width: nat)
    requires n < Pow256(width)
    ensures FromLE(LE(n, width)) == n
  {
    if width != 0 {
      FromLEOfLE(n / 256, width - 1);
      assert LE(n, width)[1..] == LE(n / 256, width - 1);
    }
  }

  lemma {:induction false} LEOfFromLE(b: Bytes)
    ensures LE(FromLE(b), |b|) == b
  {
    if b != [] {
      LEOfFromLE(b[1..]);
      var n := FromLE(b);
      assert n % 256 == b[0] && n / 256 == FromLE(b[1..]);
      assert [b[0]] + b[1..] == b;
    }
  }

  lemma {:induction false} NextMultiple(a: nat, b: nat, d: nat)
    requires a < b
    ensures a * d + d <= b * d
  {
    if d != 0 {
      NextMultiple(a, b, d - 1);
    }
  }

  lemma {:induction false} DivModUnique(n: nat, d: nat, q: nat, r: nat)
    requires r < d
    requires n == q * d + r
    ensures n / d == q && n % d == r
  {
    var q', r' := n / d, n % d;
    assert n == q' * d + r';
    if q < q' {
      NextMultiple(q, q', d);
    } else if q' < q {
      NextMultiple(q', q, d);
    }
  }

  /** A word written in two halves, as `value & mask` and `value >> 8 * j` are. */
  lemma {:induction false} LEJoin(low: nat, high: nat, j: nat, k: nat)
    requires low < Pow256(j)
    ensures LE(high * Pow256(j) + low, j + k) == LE(low, j) + LE(high, k)
  {
    if j != 0 {
      var n, p := high * Pow256(j) + low, Pow256(j - 1);
      assert n == 256 * (high * p + low / 256) + low % 256 by {
        assert high * (256 * p) == 256 * (high * p);
      }
      assert n / 256 == high * p + low / 256 && n % 256 == low % 256;
      LEJoin(low / 256, high, j - 1, k);
      assert LE(low, j) == [low % 256] + LE(low / 256, j - 1);
      assert LE(n, j + k) == [n % 256] + LE(n / 256, j - 1 + k);
    }
  }

  // ----- big endian -----

  function FromBE(b: Bytes): nat {
    if b == [] then 0 else FromBE(b[..|b| - 1]) * 256 + b[|b| - 1]
  }

  /** The shortest big-endian form; zero is the empty string. */
  function ToBE(n: nat): Bytes {
    if n == 0 then [] else ToBE(n / 256) + [n % 256]
  }

  /** No leading zero byte. */
  predicate Minimal(b: Bytes) {
    b == [] || b[0] != 0
  }

  lemma {:induction false} FromBEOfToBE(n: nat)
    ensures FromBE(ToBE(n)) == n
    ensures Minimal(ToBE(n))
    ensures n > 0 ==> |ToBE(n)| > 0
  {
    if n != 0 {
      FromBEOfToBE(n / 256);
      var b := ToBE(n);
      assert b[..|b| - 1] == ToBE(n / 256);
    }
  }

  /** Re-encoding an integer gives its bytes back exactly when they had no leading zero. */
  lemma {:induction false} ToBEOfFromBE(b: Bytes)
    ensures ToBE(FromBE(b)) == b <==> Minimal(b)
  {
    FromBEOfToBE(FromBE(b));
    if Minimal(b) && b != [] {
      var init := b[..|b| - 1];
      ToBEOfFromBE(init);
      var n := FromBE(b);
      assert n / 256 == FromBE(init) && n % 256 == b[|b| - 1];
      assert init != [] ==> FromBE(init) != 0;
      assert init + [b[|b| - 1]] == b;
    }
  }

  lemma {:induction false} ToBEAtLeast(n: nat, k: nat)
    requires n >= Pow256(k)
    ensures |ToBE(n)| > k
  {
    if k != 0 {
      ToBEAtLeast(n / 256, k - 1);
    }
  }

  lemma {:induction false} ToBELength(n: nat, k: nat)
    requires n < Pow256(k)
    ensures |ToBE(n)| <= k
  {
    if n != 0 {
      ToBELength(n / 256, k - 1);
    }
  }

  /** Left padding with zero bytes, the effect of `padStart` on the hex text. */
  function PadLeft(b: Bytes, width: nat): (p: Bytes)
    ensures |p| == if |b| < width then width else |b|
  {
    if |b| < width then [0] + PadLeft(b, width - 1) else b
  }

  lemma {:induction false} PadLeftZeros(b: Bytes, width: nat)
    requires |b| <= width
    ensures forall i :: 0 <= i < width - |b| ==> PadLeft(b, width)[i] == 0
    ensures PadLeft(b, width)[width - |b|..] == b
    decreases width
  {
    if |b| < width {
      PadLeftZeros(b, width - 1);
      assert PadLeft(b, width) == [0] + PadLeft(b, width - 1);
    }
  }

  lemma {:induction false} FromBEOfZeroPrefix(b: Bytes)
    ensures FromBE([0] + b) == FromBE(b)
  {
    if b != [] {
      FromBEOfZeroPrefix(b[..|b| - 1]);
      var z := [0] + b;
      assert z[..|z| - 1] == [0] + b[..|b| - 1];
    } else {
      assert ([0] + b)[..0] == [];
    }
  }

  lemma {:induction false} FromBEOfPadLeft(b: Bytes, width: nat)
    ensures FromBE(PadLeft(b, width)) == FromBE(b)
    decreases width
  {
    if |b| < width {
      FromBEOfPadLeft(b, width - 1);
      FromBEOfZeroPrefix(PadLeft(b, width - 1));
    }
  }

  // ----- JavaScript's clamping slice -----

  function Min(a: nat, b: nat): nat {
    if a < b then a else b
  }

  /** `b.slice(i, j)` for non-negative bounds: both are clamped to the length, and `j < i` gives nothing. */
  function Slice(b: Bytes, i: nat, j: nat): Bytes {
    var lo := Min(i, |b|);
    var hi := Min(j, |b|);
    if lo <= hi then b[lo..hi] else []
  }

  /** Position `k` of the slice is position `i + k` of the bytes, as long as that is before `j` and the end. */
  lemma {:induction false} SliceAt(b: Bytes, i: nat, j: nat, k: nat)
    ensures k < |Slice(b, i, j)| <==> i + k < j && i + k < |b|
    ensures k < |Slice(b, i, j)| ==> Slice(b, i, j)[k] == b[i + k]
  {
  }
}
