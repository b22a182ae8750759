/**
 The Polyjuice argument string: its layout, the TypeScript buffer writer, and the Rust and
 TypeScript decoders (`convert-tx.ts`, `helper.rs`, `parse-tx.ts`).
 */
module PolyjuiceArgs {
  import opened Wrappers
  import opened Binary
  import opened Hex
  import opened Uint
  import Seqs

  /** 0xffffff and "POLY". */
  const HEADER: Bytes := [0xff, 0xff, 0xff, 0x50, 0x4f, 0x4c, 0x59]

  const ARGS_MAX_SIZE: nat := 128 * 1024

  /** The 52 bytes before the call data. */
  function Prefix(isCreate: bool, gas: nat, gasPrice: nat, value: nat, dataSize: nat): (p: Bytes)
    ensures |p| == 52
  {
    HEADER + [if isCreate then 3 else 0] + LE(gas, U64) + LE(gasPrice, U128) + LE(value, U128) + LE(dataSize, U32)
  }

  function Layout(isCreate: bool, gas: nat, gasPrice: nat, value: nat, data: Bytes, to: Option<Bytes>): Bytes {
    Prefix(isCreate, gas, gasPrice, value, |data|) + data + if to.Some? then to.value else []
  }

  /** The values the buffer writers take; anything larger is a RangeError. */
  predicate Writable(gas: nat, gasPrice: nat, value: nat, data: Bytes) {
    gas < UINT64_LIMIT && gasPrice < UINT128_LIMIT && value < UINT128_LIMIT && |data| < UINT32_LIMIT
  }

  // ----- the TypeScript writer -----

  /** `src.copy(dst, at)`: copies what fits. */
  method Copy(src: Bytes, dst: array<Byte>, at: nat)
    requires at <= dst.Length
    modifies dst
    ensures var n := Min(|src|, dst.Length - at);
            && dst[..at + n] == old(dst[..at]) + src[..n]
            && forall k :: at + n <= k < dst.Length ==> dst[k] == old(dst[k])
  {
    var n := Min(|src|, dst.Length - at);
    var i := 0;
    while i < n
      invariant 0 <= i <= n
      invariant dst[..at + i] == old(dst[..at]) + src[..i]
      invariant forall k :: at + i <= k < dst.Length ==> dst[k] == old(dst[k])
    {
      dst[at + i] := src[i];
      i := i + 1;
      assert dst[..at + i] == dst[..at + i - 1] + [src[i - 1]];
    }
  }

  /** `buf.writeBigUInt64LE(value, at)`; `ok` is false where Node throws. */
  method WriteBigUInt64LE(buf: array<Byte>, value: nat, at: nat) returns (ok: bool)
    requires at + 8 <= buf.Length
    modifies buf
    ensures ok <==> value < UINT64_LIMIT
    ensures ok ==> buf[..at + 8] == old(buf[..at]) + LE(value, U64) && buf[at + 8..] == old(buf[at + 8..])
  {
    if value >= UINT64_LIMIT {
      return false;
    }
    var rest := value;
    var i := 0;
    while i < 8
      invariant 0 <= i <= 8
      invariant buf[..at + i] + LE(rest, 8 - i) == old(buf[..at]) + LE(value, U64)
      invariant buf[at + i..] == old(buf[at + i..])
    {
      buf[at + i] := rest % 256;
      assert buf[..at + i + 1] == buf[..at + i] + [rest % 256];
      assert LE(rest, 8 - i) == [rest % 256] + LE(rest / 256, 7 - i);
      rest := rest / 256;
      i := i + 1;
    }
    return true;
  }

  /** The two words of a 16-byte buffer. */
  method WriteUInt128(value: nat) returns (r: Result<Bytes>)
    ensures r == if value < UINT128_LIMIT then Ok(LE(value, U128)) else Err("RangeError")
  {
    var buf := new Byte[16](_ => 0);
    var low := WriteBigUInt64LE(buf, value % UINT64_LIMIT, 0);
    assert buf[..8] == LE(value % UINT64_LIMIT, U64);
    var high := WriteBigUInt64LE(buf, value / UINT64_LIMIT, U64);
    if !low || !high {
      return Err("RangeError");
    }
    WordLimits();
    LEJoin(value % UINT64_LIMIT, value / UINT64_LIMIT, 8, 8);
    assert buf[..] == buf[..16];
    return Ok(buf[..]);
  }

  /** A recipient that is not 20 bytes long is cut or zero filled by `copy` into the last 20 bytes. */
  function Recipient(to: Bytes): (r: Bytes)
    ensures |r| == 20
  {
    if |to| >= 20 then to[..20] else to + seq(20 - |to|, _ => 0)
  }

  function RecipientOpt(to: Option<Bytes>): Option<Bytes> {
    if to.Some? then Some(Recipient(to.value)) else None
  }

  /** The six copies that fill the first 52 bytes. */
  method CopyPrefix(args: array<Byte>, callKind: Byte, gas: Bytes, gasPrice: Bytes, value: Bytes, dataSize: Bytes)
    requires args.Length >= 52
    requires |gas| == 8 && |gasPrice| == |value| == 16 && |dataSize| == 4
    modifies args
    ensures args[..52] == HEADER + [callKind] + gas + gasPrice + value + dataSize
    ensures forall k :: 52 <= k < args.Length ==> args[k] == old(args[k])
  {
    Copy(HEADER, args, 0);
    args[7] := callKind;
    assert args[..8] == HEADER + [callKind];
    Copy(gas, args, 8);
    Copy(gasPrice, args, 16);
    Copy(value, args, 32);
    Copy(dataSize, args, 48);
  }

  /** The last 20 bytes, still zero from `Buffer.alloc`, receive the recipient. */
  method CopyRecipient(to: Bytes, args: array<Byte>, end: nat)
    requires args.Length == end + 20
    requires forall k :: end <= k < args.Length ==> args[k] == 0
    modifies args
    ensures args[..] == old(args[..end]) + Recipient(to)
  {
    Copy(to, args, end);
    ghost var n := Min(|to|, 20);
    assert args[end + n..] == seq(20 - n, _ => 0);
    assert args[..] == args[..end + n] + args[end + n..];
    assert to[..n] + seq(20 - n, _ => 0) == Recipient(to);
  }

  method BuildPolyjuiceArgs(isCreate: bool, gas: nat, gasPrice: nat, value: nat, data: Bytes, to: Option<Bytes>)
    returns (r: Result<Bytes>)
    ensures r.Ok? <==> Writable(gas, gasPrice, value, data)
    ensures r.Ok? ==> r.value == Layout(isCreate, gas, gasPrice, value, data, RecipientOpt(to))
  {
    hide LE, Recipient;
    var callKind: Byte := if isCreate then 3 else 0;
    var gasLimitBuf := new Byte[8](_ => 0);
    var gasOk := WriteBigUInt64LE(gasLimitBuf, gas, 0);
    var gasPriceBuf := WriteUInt128(gasPrice);
    var valueBuf := WriteUInt128(value);
    if !gasOk || gasPriceBuf.Err? || valueBuf.Err? || |data| >= UINT32_LIMIT {
      return Err("RangeError");
    }
    assert gasLimitBuf[..] == gasLimitBuf[..8] == LE(gas, U64);
    var end := 52 + |data|;
    var argsBuf := new Byte[end + if to.Some? then 20 else 0](_ => 0);
    CopyPrefix(argsBuf, callKind, gasLimitBuf[..], gasPriceBuf.value, valueBuf.value, LE(|data|, U32));
    assert argsBuf[..52] == Prefix(isCreate, gas, gasPrice, value, |data|);
    hide Prefix;
    Copy(data, argsBuf, 52);
    ghost var full := Prefix(isCreate, gas, gasPrice, value, |data|) + data;
    assert argsBuf[..end] == full;
    if to.Some? {
      CopyRecipient(to.value, argsBuf, end);
    } else {
      assert argsBuf[..] == full;
    }
    return Ok(argsBuf[..]);
  }

  // ----- the Rust decoder -----

  datatype Args = Args(isCreate: bool, gasLimit: nat, gasPrice: nat, value: nat, input: Bytes, to: Option<Bytes>)

  function DecodeRust(args: Bytes): Result<Args> {
    if |args| < 52 then Err("polyjuice args too short") else
    var size := FromLE(args[48..52]);
    if size > ARGS_MAX_SIZE then Err("input size too long")
    else if |args| != 52 + size && |args| != 52 + size + 20 then Err("unrecognizable polyjuice args")
    else
      Ok(Args(args[7] == 3, FromLE(args[8..16]), FromLE(args[16..32]), FromLE(args[32..48]),
              args[52..52 + size],
              if |args| == 52 + size then None else Some(args[52 + size..52 + size + 20])))
  }

  // ----- the TypeScript decoder, on and to hex text -----

  datatype HexArgs = HexArgs(
    isCreate: bool, gasLimit: string, gasPrice: string, value: string,
    inputSize: string, input: string, to: Option<string>)

  /** As written: a 14-character slice is compared with the 16 characters of the header's text. */
  predicate IsPolyjuiceTransactionArgs(args: string) {
    args[..Min(14, |args|)] != ToHex(HEADER)
  }

  function DecodeTs(args: string): Result<HexArgs> {
    var _ :- Need(IsPolyjuiceTransactionArgs(args), "header not matched");
    DecodeBuffer(BufferFrom(args[Min(2, |args|)..]))
  }

  function DecodeBuffer(buf: Bytes): Result<HexArgs> {
    var _ :- Need(|buf| >= 52, "smaller than 52 bytes");
    var gasLimit :- Uint64FromLittleEndian(ToHex(buf[8..16]));
    var gasPrice :- Uint128FromLittleEndian(ToHex(buf[16..32]));
    var value :- Uint128FromLittleEndian(ToHex(buf[32..48]));
    var size :- Uint32FromLittleEndian(ToHex(buf[48..52]));
    Ok(HexArgs(Digits(buf[7]) == "3", ToHexNumber(gasLimit), ToHexNumber(gasPrice), ToHexNumber(value),
               ToHexNumber(size), ToHex(Slice(buf, 52, 52 + size)),
               if |buf| == 52 + size + 20 then Some(ToHex(Slice(buf, 52 + size, 52 + size + 20))) else None))
  }

  /** The Rust record written the way the TypeScript one is. */
  function AsHex(a: Args): HexArgs {
    HexArgs(a.isCreate, ToHexNumber(a.gasLimit), ToHexNumber(a.gasPrice), ToHexNumber(a.value),
            ToHexNumber(|a.input|), ToHex(a.input), if a.to.Some? then Some(ToHex(a.to.value)) else None)
  }

  // ----- properties -----

  /** The header test never rejects anything: it accepts a string with or without the header. */
  lemma {:induction false} HeaderTestIsVacuous(args: string)
    ensures IsPolyjuiceTransactionArgs(args)
  {
    assert |ToHex(HEADER)| == 16;
  }

  lemma {:induction false} PrefixFields(isCreate: bool, gas: nat, gasPrice: nat, value: nat, dataSize: nat)
    ensures var p := Prefix(isCreate, gas, gasPrice, value, dataSize);
            && p[0..7] == HEADER && p[7] == (if isCreate then 3 else 0)
            && p[8..16] == LE(gas, U64) && p[16..32] == LE(gasPrice, U128)
            && p[32..48] == LE(value, U128) && p[48..52] == LE(dataSize, U32)
  {
    var p := Prefix(isCreate, gas, gasPrice, value, dataSize);
    hide LE;
    var h1 := HEADER + [if isCreate then 3 else 0];
    var h2 := h1 + LE(gas, U64);
    var h3 := h2 + LE(gasPrice, U128);
    var h4 := h3 + LE(value, U128);
    assert p == h4 + LE(dataSize, U32);
    assert p[..48] == h4 && p[48..52] == LE(dataSize, U32);
    assert p[32..48] == h4[32..48] == LE(value, U128);
    assert p[16..32] == h3[16..32] == LE(gasPrice, U128);
    assert p[8..16] == h2[8..16] == LE(gas, U64);
    assert p[7] == h1[7];
  }

  lemma {:induction false} LayoutFields(isCreate: bool, gas: nat, gasPrice: nat, value: nat, data: Bytes,
        to: Option<Bytes>)
    requires to.Some? ==> |to.value| == 20
    ensures var args := Layout(isCreate, gas, gasPrice, value, data, to);
            && |args| == 52 + |data| + (if to.Some? then 20 else 0)
            && args[..52] == Prefix(isCreate, gas, gasPrice, value, |data|)
            && args[52..52 + |data|] == data
            && (to.Some? ==> args[52 + |data|..52 + |data| + 20] == to.value)
  {
  }

  /**
   The layout, byte by byte: the magic header, the kind of call, gas limit, gas price and value in little
   endian, the size of the data, the data, and the recipient of a native transfer.
   */
  lemma {:induction false} LayoutBytes(isCreate: bool, gas: nat, gasPrice: nat, value: nat, data: Bytes,
        to: Option<Bytes>)
    requires gas < Pow256(8) && gasPrice < Pow256(16) && value < Pow256(16) && |data| < Pow256(4)
    ensures var args := Layout(isCreate, gas, gasPrice, value, data, to);
            && |args| == 52 + |data| + (if to.Some? then |to.value| else 0)
            && args[..7] == [0xff, 0xff, 0xff, 0x50, 0x4f, 0x4c, 0x59]
            && args[7] == (if isCreate then 3 else 0)
            && FromLE(args[8..16]) == gas
            && FromLE(args[16..32]) == gasPrice
            && FromLE(args[32..48]) == value
            && FromLE(args[48..52]) == |data|
            && args[52..52 + |data|] == data
            && (to.Some? ==> args[52 + |data|..] == to.value)
  {
    hide LE, FromLE, Pow256;
    var args, p := Layout(isCreate, gas, gasPrice, value, data, to), Prefix(isCreate, gas, gasPrice, value, |data|);
    assert args == p + (data + if to.Some? then to.value else []);
    assert args[..52] == p;
    PrefixFields(isCreate, gas, gasPrice, value, |data|);
    Seqs.SliceOfTake(args, 52, 0, 7);
    Seqs.SliceOfTake(args, 52, 8, 16);
    Seqs.SliceOfTake(args, 52, 16, 32);
    Seqs.SliceOfTake(args, 52, 32, 48);
    Seqs.SliceOfTake(args, 52, 48, 52);
    assert args[7] == p[7];
    FromLEOfLE(gas, U64);
    FromLEOfLE(gasPrice, U128);
    FromLEOfLE(value, U128);
    FromLEOfLE(|data|, U32);
  }

  /** Every call the writer can encode with at most 128 KB of data is recovered field by field. */
  lemma {:induction false} DecodeOfLayout(isCreate: bool, gas: nat, gasPrice: nat, value: nat, data: Bytes,
        to: Option<Bytes>)
    requires Writable(gas, gasPrice, value, data)
    requires to.Some? ==> |to.value| == 20
    ensures DecodeRust(Layout(isCreate, gas, gasPrice, value, data, to))
         == if |data| <= 131072 then Ok(Args(isCreate, gas, gasPrice, value, data, to))
            else Err("input size too long")
  {
    hide LE, FromLE, Prefix;
    var args := Layout(isCreate, gas, gasPrice, value, data, to);
    var p := Prefix(isCreate, gas, gasPrice, value, |data|);
    LayoutFields(isCreate, gas, gasPrice, value, data, to);
    PrefixFields(isCreate, gas, gasPrice, value, |data|);
    assert args[7] == args[..52][7];
    Seqs.SliceOfTake(args, 52, 8, 16);
    Seqs.SliceOfTake(args, 52, 16, 32);
    Seqs.SliceOfTake(args, 52, 32, 48);
    Seqs.SliceOfTake(args, 52, 48, 52);
    WordLimits();
    FromLEOfLE(gas, U64);
    FromLEOfLE(gasPrice, U128);
    FromLEOfLE(value, U128);
    FromLEOfLE(|data|, U32);
  }

  /**
   On every byte string the Rust decoder accepts, the TypeScript decoder reads the same fields: the same
   numbers in minimal hex text, the same bytes in lower-case hex text.
   */
  lemma {:induction false} DecodersAgree(args: Bytes)
    requires DecodeRust(args).Ok?
    ensures DecodeTs(ToHex(args)) == Ok(AsHex(DecodeRust(args).value))
    ensures var ts, rust := DecodeTs(ToHex(args)).value, DecodeRust(args).value;
            && (ts.isCreate <==> rust.isCreate)
            && ts.gasLimit == ToHexNumber(rust.gasLimit)
            && ts.gasPrice == ToHexNumber(rust.gasPrice)
            && ts.value == ToHexNumber(rust.value)
            && ts.inputSize == ToHexNumber(|rust.input|)
            && ts.input == ToHex(rust.input)
            && (ts.to.Some? <==> rust.to.Some?)
            && (ts.to.Some? ==> ts.to.value == ToHex(rust.to.value))
  {
    hide DecodeTs, DecodeBuffer, Digits, ToHex, ToHexNumber, FromLE;
    DecodeOfText(args);
    DecodeBufferFields(args);
    DigitsOfThree(args[7]);
  }

  lemma {:induction false} DecodeOfText(args: Bytes)
    ensures DecodeTs(ToHex(args)) == DecodeBuffer(args)
  {
    HeaderTestIsVacuous(ToHex(args));
    BufferFromOfToHex(args);
  }

  /** The fields, once the little-endian readers are known to read every word. */
  lemma {:induction false} DecodeBufferFields(buf: Bytes)
    requires |buf| >= 52
    ensures var size := FromLE(buf[48..52]);
            DecodeBuffer(buf)
            == Ok(HexArgs(Digits(buf[7]) == "3", ToHexNumber(FromLE(buf[8..16])), ToHexNumber(FromLE(buf[16..32])),
                          ToHexNumber(FromLE(buf[32..48])), ToHexNumber(size), ToHex(Slice(buf, 52, 52 + size)),
                          if |buf| == 52 + size + 20 then Some(ToHex(Slice(buf, 52 + size, 52 + size + 20))) else None))
  {
    hide ToHex, ToHexNumber, Digits, FromLE, Slice;
    hide Uint64FromLittleEndian, Uint128FromLittleEndian, Uint32FromLittleEndian;
    ReadsBytes8(buf[8..16]);
    ReadsBytes16(buf[16..32]);
    ReadsBytes16(buf[32..48]);
    ReadsBytes4(buf[48..52]);
  }

  lemma {:induction false} DigitsOfThree(b: Byte)
    ensures Digits(b) == "3" <==> b == 3
  {
    ParseOfDigits(b);
    ParseOfDigits(3);
    assert Digits(3) == "3";
  }

  /** The TypeScript decoder is the laxer one: it accepts exactly the strings of 52 bytes or more. */
  lemma {:induction false} TsAcceptance(args: Bytes)
    ensures DecodeTs(ToHex(args)).Ok? <==> |args| >= 52
    ensures DecodeRust(args).Ok? <==>
            |args| >= 52 && FromLE(args[48..52]) <= 131072 && |args| - 52 - FromLE(args[48..52]) in {0, 20}
  {
    DecodeOfText(args);
    if |args| >= 52 {
      DecodeBufferFields(args);
    }
  }
}
