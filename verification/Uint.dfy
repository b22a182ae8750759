/** The fixed-width integer classes of `base/types/uint.ts` and their little-endian text. */
module Uint {
  import opened Wrappers
  import opened Binary
  import opened Hex
  import Seqs

  /** `toLittleEndian` of a value that passed the constructor's range check. */
  function Uint32ToLittleEndian(n: nat): Result<string> {
    if n >= UINT32_LIMIT then Err("Uint32: value too big") else Ok(ToHex(LE(n, U32)))
  }

  function Uint64ToLittleEndian(n: nat): Result<string> {
    if n >= UINT64_LIMIT then Err("Uint64: value too big") else Ok(ToHex(LE(n, U64)))
  }

  /** Two 64-bit words, low word first. */
  function Uint128ToLittleEndian(n: nat): Result<string> {
    if n >= UINT128_LIMIT then Err("Uint128: value too big")
    else Ok(ToHex(LE(n % UINT64_LIMIT, U64) + LE(n / UINT64_LIMIT, U64)))
  }

  /** Four 64-bit words, each cut out by a shift and a mask. */
  function Uint256ToLittleEndian(n: nat): Result<string> {
    if n >= UINT256_LIMIT then Err("Uint256: value too big")
    else
      Ok(ToHex(LE(n % UINT64_LIMIT, U64)
             + LE((n / UINT64_LIMIT) % UINT64_LIMIT, U64)
             + LE((n / UINT128_LIMIT) % UINT64_LIMIT, U64)
             + LE((n / UINT192_LIMIT) % UINT64_LIMIT, U64)))
  }

  function Uint32FromLittleEndian(hex: string): Result<nat> {
    if !IsHexNumberText(hex) || |hex| != 10 then Err("Uint32: little endian hex format error")
    else ReadWord(BufferFrom(hex[2..]), 0, 4)
  }

  function Uint64FromLittleEndian(hex: string): Result<nat> {
    if !IsHexNumberText(hex) || |hex| != 18 then Err("Uint64: little endian hex format error")
    else ReadWord(BufferFrom(hex[2..]), 0, 8)
  }

  function Uint128FromLittleEndian(hex: string): Result<nat> {
    if |hex| != 34 || hex[..2] != "0x" then Err("Uint128: little endian hex format error")
    else TwoWordsOf(BufferFrom(hex[2..34]))
  }

  function TwoWordsOf(buf: Bytes): Result<nat> {
    var high :- ReadWord(buf, 8, 8);
    var low :- ReadWord(buf, 0, 8);
    Ok(high * UINT64_LIMIT + low)
  }

  function Uint256FromLittleEndian(hex: string): Result<nat> {
    if |hex| != 66 || hex[..2] != "0x" then Err("Uint256: little endian hex format error")
    else FourWordsOf(BufferFrom(hex[2..66]))
  }

  function FourWordsOf(buf: Bytes): Result<nat> {
    var w0 :- ReadWord(buf, 0, 8);
    var w1 :- ReadWord(buf, 8, 8);
    var w2 :- ReadWord(buf, 16, 8);
    var w3 :- ReadWord(buf, 24, 8);
    Ok(w0 + w1 * UINT64_LIMIT + w2 * UINT128_LIMIT + w3 * UINT192_LIMIT)
  }

  predicate IsHexNumberText(s: string) {
    |s| > 2 && s[..2] == "0x" && AllHex(s[2..])
  }

  /** A Buffer read of `width` bytes at `at`; out of range is a RangeError. */
  function ReadWord(buf: Bytes, at: nat, width: nat): Result<nat> {
    if |buf| < at + width then Err("Buffer: out of range") else Ok(FromLE(buf[at..at + width]))
  }

  // ----- reading the text of `width` bytes gives their little-endian value -----

  lemma {:induction false} ReadsBytes4(b: Bytes)
    requires |b| == 4
    ensures Uint32FromLittleEndian(ToHex(b)) == Ok(FromLE(b))
  {
    BufferFromOfToHex(b);
    EncodeIsLower(b);
    assert ToHex(b)[2..] == Encode(b);
    assert b[0..4] == b;
  }

  lemma {:induction false} ReadsBytes8(b: Bytes)
    requires |b| == 8
    ensures Uint64FromLittleEndian(ToHex(b)) == Ok(FromLE(b))
  {
    BufferFromOfToHex(b);
    EncodeIsLower(b);
    assert ToHex(b)[2..] == Encode(b);
    assert b[0..8] == b;
  }

  /** Text of a fixed length, read as a buffer. */
  lemma {:induction false} BufferOfText(b: Bytes, n: nat)
    requires n == 2 + 2 * |b|
    ensures |ToHex(b)| == n && ToHex(b)[..2] == "0x" && BufferFrom(ToHex(b)[2..n]) == b
  {
    BufferFromOfToHex(b);
    assert ToHex(b)[2..n] == ToHex(b)[2..];
  }

  lemma {:induction false} ReadsBytes16(b: Bytes)
    requires |b| == 16
    ensures Uint128FromLittleEndian(ToHex(b)) == Ok(FromLE(b))
  {
    BufferOfText(b, 34);
    TwoWordsOfBytes(b);
  }

  lemma {:induction false} TwoWordsOfBytes(b: Bytes)
    requires |b| == 16
    ensures TwoWordsOf(b) == Ok(FromLE(b))
  {
    Seqs.Join(b, 0, 8, 16);
    TwoWords(b[0..8], b[8..16]);
    assert b[0..16] == b;
  }

  lemma {:induction false} TwoWords(w0: Bytes, w1: Bytes)
    requires |w0| == |w1| == 8
    ensures FromLE(w0 + w1) == FromLE(w1) * UINT64_LIMIT + FromLE(w0)
  {
    WordLimits();
    FromLEConcat(w0, w1);
  }

  lemma {:induction false} ReadsBytes32(b: Bytes)
    requires |b| == 32
    ensures Uint256FromLittleEndian(ToHex(b)) == Ok(FromLE(b))
  {
    BufferOfText(b, 66);
    FourWordsOfBytes(b);
  }

  lemma {:induction false} FourWordsOfBytes(b: Bytes)
    requires |b| == 32
    ensures FourWordsOf(b) == Ok(FromLE(b))
  {
    CutInFour(b);
    FourWords(b[0..8], b[8..16], b[16..24], b[24..32]);
  }

  lemma {:induction false} CutInFour(b: Bytes)
    requires |b| == 32
    ensures b == b[0..8] + (b[8..16] + (b[16..24] + b[24..32]))
  {
    Seqs.Join(b, 0, 8, 32);
    Seqs.Join(b, 8, 16, 32);
    Seqs.Join(b, 16, 24, 32);
    assert b[0..32] == b;
  }

  lemma {:induction false} FourWords(w0: Bytes, w1: Bytes, w2: Bytes, w3: Bytes)
    requires |w0| == |w1| == |w2| == |w3| == 8
    ensures FromLE(w0 + (w1 + (w2 + w3)))
         == FromLE(w0) + FromLE(w1) * UINT64_LIMIT + FromLE(w2) * UINT128_LIMIT
            + FromLE(w3) * UINT192_LIMIT
  {
    WordLimits();
    FromLEConcat(w2, w3);
    FromLEConcat(w1, w2 + w3);
    FromLEConcat(w0, w1 + (w2 + w3));
  }

  // ----- the word-by-word writers produce the one little-endian form -----

  lemma {:induction false} Writes128(n: nat)
    requires n < UINT128_LIMIT
    ensures Uint128ToLittleEndian(n) == Ok(ToHex(LE(n, U128)))
  {
    WordLimits();
    LEJoin(n % UINT64_LIMIT, n / UINT64_LIMIT, 8, 8);
  }

  lemma {:induction false} JoinWord(n: nat, k: nat)
    ensures LE(n, U64 + k) == LE(n % UINT64_LIMIT, U64) + LE(n / UINT64_LIMIT, k)
  {
    WordLimits();
    assert n == (n / UINT64_LIMIT) * UINT64_LIMIT + n % UINT64_LIMIT;
    LEJoin(n % UINT64_LIMIT, n / UINT64_LIMIT, U64, k);
  }

  lemma {:induction false} Writes256(n: nat)
    requires n < UINT256_LIMIT
    ensures Uint256ToLittleEndian(n) == Ok(ToHex(LE(n, U256)))
  {
    var n1 := n / UINT64_LIMIT;
    var n2 := n1 / UINT64_LIMIT;
    var n3 := n2 / UINT64_LIMIT;
    assert n2 == n / UINT128_LIMIT && n3 == n / UINT192_LIMIT;
    JoinWord(n, 24);
    JoinWord(n1, 16);
    JoinWord(n2, 8);
    assert n3 % UINT64_LIMIT == n3;
    var w0, w1 := LE(n % UINT64_LIMIT, U64), LE(n1 % UINT64_LIMIT, U64);
    var w2, w3 := LE(n2 % UINT64_LIMIT, U64), LE(n3, U64);
    assert w0 + (w1 + (w2 + w3)) == w0 + w1 + w2 + w3;
  }

  /** Each class reads back what it wrote. */
  lemma {:induction false} RoundTrip(n: nat)
    ensures Uint32ToLittleEndian(n).Ok? <==> n < UINT32_LIMIT
    ensures Uint64ToLittleEndian(n).Ok? <==> n < UINT64_LIMIT
    ensures Uint128ToLittleEndian(n).Ok? <==> n < UINT128_LIMIT
    ensures Uint256ToLittleEndian(n).Ok? <==> n < UINT256_LIMIT
    ensures n < UINT32_LIMIT ==> Uint32FromLittleEndian(Uint32ToLittleEndian(n).value) == Ok(n)
    ensures n < UINT64_LIMIT ==> Uint64FromLittleEndian(Uint64ToLittleEndian(n).value) == Ok(n)
    ensures n < UINT128_LIMIT ==> Uint128FromLittleEndian(Uint128ToLittleEndian(n).value) == Ok(n)
    ensures n < UINT256_LIMIT ==> Uint256FromLittleEndian(Uint256ToLittleEndian(n).value) == Ok(n)
  {
    WordLimits();
    if n < UINT32_LIMIT {
      FromLEOfLE(n, U32);
      ReadsBytes4(LE(n, U32));
    }
    if n < UINT64_LIMIT {
      FromLEOfLE(n, U64);
      ReadsBytes8(LE(n, U64));
    }
    if n < UINT128_LIMIT {
      FromLEOfLE(n, U128);
      ReadsBytes16(LE(n, U128));
      Writes128(n);
    }
    if n < UINT256_LIMIT {
      FromLEOfLE(n, U256);
      ReadsBytes32(LE(n, U256));
      Writes256(n);
    }
  }
}
