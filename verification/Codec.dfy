/**
 The Godwoken objects that cross the wire: normalisers (`normalizers.ts`), Molecule serialisers and
 readers (`schemas/index.esm.js`), and the parsers of `parse-tx.ts`.
 */
module Codec {
  import opened Wrappers
  import opened Binary
  import opened Hex
  import Seqs
  import opened Molecule
  import opened Uint

  // ----- the objects, as hex text -----

  datatype RawL2Transaction = RawL2Transaction(chainId: string, fromId: string, toId: string, nonce: string,
        args: string)

  datatype L2Transaction = L2Transaction(raw: RawL2Transaction, signature: string)

  datatype Fee = Fee(registryId: string, amount: string)

  datatype SudtArgs = SudtQuery(address: string) | SudtTransfer(toAddress: string, amount: string, fee: Fee)

  datatype BatchSetMapping = BatchSetMapping(gwScriptHashes: seq<string>, fee: Fee)

  // ----- normalisers -----

  /** `normalizeHexNumber(length)`; `normalizeObject` has already thrown on an empty text. */
  function NormalizeHexNumber(length: nat, value: string): (r: Result<Bytes>)
    ensures r.Ok? ==> |r.value| == length
  {
    var _ :- Need(value != "", "missing");
    var n :- ParseHexNumber(value);
    if n >= Pow256(length) then Err("too many bytes") else Ok(LE(n, length))
  }

  /** `normalizeRawData(length)`; -1 stands for any length. */
  function NormalizeRawData(length: int, value: string): (r: Result<Bytes>)
    ensures r.Ok? && length > 0 ==> |r.value| == length
  {
    var _ :- Need(value != "", "missing");
    var b :- FromHex(value);
    if length > 0 && |b| != length then Err("invalid length") else Ok(b)
  }

  /** `normalizeHexNumber` as it runs: the digits are cut into pairs from the right. */
  method NormalizeHexNumberLoop(length: nat, value: string) returns (r: Result<Bytes>)
    requires length > 0
    ensures r == NormalizeHexNumber(length, value)
  {
    if value == "" {
      return Err("missing");
    }
    var parsed := ParseHexNumber(value);
    if parsed.Err? {
      return Err(parsed.reason);
    }
    var n := parsed.value;
    var intValue := Digits(n);
    ParseOfDigits(n);
    if |intValue| % 2 != 0 {
      ParseOfZeroPrefix(intValue);
      intValue := "0" + intValue;
    }
    PaddedDigitsFit(n, length);
    if |intValue| / 2 > length {
      return Err("too many bytes");
    }
    r := FillPairs(length, intValue);
  }

  /** The digit pairs of an even-length text, as bytes, last pair first. */
  method FillPairs(length: nat, intValue: string) returns (r: Result<Bytes>)
    requires AllHex(intValue) && |intValue| % 2 == 0 && |intValue| / 2 <= length
    ensures r == Ok(LE(ParseDigits(intValue), length))
  {
    var view := new Byte[length](_ => 0);
    ghost var target := LE(ParseDigits(intValue), length);
    var i := 0;
    while i < |intValue| / 2
      invariant 0 <= i <= |intValue| / 2
      invariant forall k :: 0 <= k < i ==> view[k] == target[k]
      invariant forall k :: i <= k < length ==> view[k] == 0
    {
      var start := |intValue| - (i + 1) * 2;
      view[i] := 16 * ValueOf(intValue[start]) + ValueOf(intValue[start + 1]);
      PairAt(intValue, length, i);
      i := i + 1;
    }
    forall k | i <= k < length ensures target[k] == 0 {
      PairAt(intValue, length, k);
    }
    assert view[..] == target;
    return Ok(view[..]);
  }

  /** Byte `i` of the number is the digit pair `i` from the right, and zero past the last pair. */
  lemma {:induction false} PairAt(s: string, width: nat, i: nat)
    requires AllHex(s) && |s| % 2 == 0 && i < width
    ensures LE(ParseDigits(s), width)[i]
         == if i < |s| / 2 then 16 * ValueOf(s[|s| - 2 * i - 2]) + ValueOf(s[|s| - 2 * i - 1]) else 0
    decreases i
  {
    if s == "" {
      LEOfZero(width);
    } else {
      PeelLast(s, width);
      if i != 0 {
        PairAt(s[..|s| - 2], width - 1, i - 1);
      }
    }
  }

  lemma {:induction false} PeelLast(s: string, width: nat)
    requires AllHex(s) && |s| >= 2 && width > 0
    ensures LE(ParseDigits(s), width)
         == [16 * ValueOf(s[|s| - 2]) + ValueOf(s[|s| - 1])] + LE(ParseDigits(s[..|s| - 2]), width - 1)
  {
    var init := s[..|s| - 2];
    ParseConcat(init, s[|s| - 2..]);
    Seqs.Split(s, |s| - 2);
    DivModUnique(ParseDigits(s), 256, ParseDigits(init), 16 * ValueOf(s[|s| - 2]) + ValueOf(s[|s| - 1]));
  }

  lemma {:induction false} LEOfZero(width: nat)
    ensures LE(0, width) == seq(width, _ => 0)
  {
    if width != 0 {
      LEOfZero(width - 1);
    }
  }

  lemma {:induction false} ParseOfZeroPrefix(s: string)
    requires AllHex(s)
    ensures AllHex("0" + s) && ParseDigits("0" + s) == ParseDigits(s)
  {
    var z := "0" + s;
    if s == "" {
      assert z[..0] == "";
    } else {
      ParseOfZeroPrefix(s[..|s| - 1]);
      assert z[..|z| - 1] == "0" + s[..|s| - 1];
    }
  }

  /** The length test of `normalizeHexNumber` compares digit pairs; it refuses exactly the too large numbers. */
  lemma {:induction false} PaddedDigitsFit(n: nat, length: nat)
    requires length > 0
    ensures |Digits(n)| <= 2 * length <==> n < Pow256(length)
  {
    if n < Pow256(length) {
      DigitsLength(n, length);
    }
    if |Digits(n)| <= 2 * length {
      ParseOfDigits(n);
      ParseBound(Digits(n), length);
    }
  }

  lemma {:induction false} DigitsLength(n: nat, k: nat)
    requires k > 0 && n < Pow256(k)
    ensures |Digits(n)| <= 2 * k
  {
    if n >= 256 {
      assert k > 1 by {
        WordLimits();
      }
      assert n / 16 / 16 == n / 256;
      DigitsLength(n / 256, k - 1);
    }
  }

  lemma {:induction false} ParseBound(s: string, k: nat)
    requires AllHex(s) && |s| <= 2 * k
    ensures ParseDigits(s) < Pow256(k)
  {
    if |s| >= 2 {
      var m := |s| - 2;
      ParseBound(s[..m], k - 1);
      ParseConcat(s[..m], s[m..]);
      assert s == s[..m] + s[m..];
    } else if |s| == 1 {
      assert s[..0] == "";
      Pow256Monotone(1, k);
      WordLimits();
    }
  }

  datatype RawL2Buffers = RawL2Buffers(chainId: Bytes, fromId: Bytes, toId: Bytes, nonce: Bytes, args: Bytes)

  datatype L2Buffers = L2Buffers(raw: RawL2Buffers, signature: Bytes)

  datatype FeeBuffers = FeeBuffers(registryId: Bytes, amount: Bytes)

  datatype SudtBuffers = QueryBuffers(address: Bytes) | TransferBuffers(toAddress: Bytes, amount: Bytes,
        fee: FeeBuffers)

  datatype BatchBuffers = BatchBuffers(gwScriptHashes: seq<Bytes>, fee: FeeBuffers)

  function NormalizeRawL2Transaction(t: RawL2Transaction): Result<RawL2Buffers> {
    var chainId :- NormalizeHexNumber(U64, t.chainId);
    var fromId :- NormalizeHexNumber(U32, t.fromId);
    var toId :- NormalizeHexNumber(U32, t.toId);
    var nonce :- NormalizeHexNumber(U32, t.nonce);
    var args :- NormalizeRawData(-1, t.args);
    Ok(RawL2Buffers(chainId, fromId, toId, nonce, args))
  }

  function NormalizeL2Transaction(t: L2Transaction): Result<L2Buffers> {
    var raw :- NormalizeRawL2Transaction(t.raw);
    var signature :- NormalizeRawData(65, t.signature);
    Ok(L2Buffers(raw, signature))
  }

  function NormalizeFee(f: Fee): (r: Result<FeeBuffers>)
    ensures r.Ok? ==> |r.value.registryId| == 4 && |r.value.amount| == 16
  {
    var registryId :- NormalizeHexNumber(U32, f.registryId);
    var amount :- NormalizeHexNumber(U128, f.amount);
    Ok(FeeBuffers(registryId, amount))
  }

  function NormalizeSudtArgs(a: SudtArgs): Result<SudtBuffers> {
    match a
    case SudtQuery(address) =>
      var b :- NormalizeRawData(-1, address);
      Ok(QueryBuffers(b))
    case SudtTransfer(toAddress, amount, fee) =>
      var to :- NormalizeRawData(-1, toAddress);
      var n :- NormalizeHexNumber(U256, amount);
      var f :- NormalizeFee(fee);
      Ok(TransferBuffers(to, n, f))
  }

  /** `toNormalizeArray(normalizeRawData(32))`. */
  function NormalizeHashes(hashes: seq<string>): (r: Result<seq<Bytes>>)
    ensures r.Ok? ==> AllOfLength(r.value, 32) && |r.value| == |hashes|
  {
    if hashes == [] then Ok([]) else
    var first :- NormalizeRawData(32, hashes[0]);
    var rest :- NormalizeHashes(hashes[1..]);
    Ok([first] + rest)
  }

  function NormalizeBatchSetMapping(m: BatchSetMapping): (r: Result<BatchBuffers>)
    ensures r.Ok? ==> AllOfLength(r.value.gwScriptHashes, 32)
  {
    var hashes :- NormalizeHashes(m.gwScriptHashes);
    var fee :- NormalizeFee(m.fee);
    Ok(BatchBuffers(hashes, fee))
  }

  // ----- serialisers: the buffers each table is made of -----

  function RawL2Fields(b: RawL2Buffers): seq<Bytes> {
    [b.chainId, b.fromId, b.toId, b.nonce, BytesVec(b.args)]
  }

  function L2Fields(b: L2Buffers): seq<Bytes> {
    [Table(RawL2Fields(b.raw)), BytesVec(b.signature)]
  }

  function FeeStruct(f: FeeBuffers): Bytes {
    f.registryId + f.amount
  }

  function TransferFields(toAddress: Bytes, amount: Bytes, fee: FeeBuffers): seq<Bytes> {
    [BytesVec(toAddress), amount, FeeStruct(fee)]
  }

  /** A union: the item's number, then the item. */
  function SerializeSudtArgs(b: SudtBuffers): Bytes {
    match b
    case QueryBuffers(address) => LE(0, U32) + Table([BytesVec(address)])
    case TransferBuffers(to, amount, fee) => LE(1, U32) + Table(TransferFields(to, amount, fee))
  }

  function BatchFields(b: BatchBuffers): seq<Bytes> {
    [Byte32Vec(b.gwScriptHashes), FeeStruct(b.fee)]
  }

  /** `serializeL2Transaction` of `parse-tx.ts`, and what `submitL2Transaction` sends. */
  function SerializeL2Text(t: L2Transaction): Result<string> {
    var b :- NormalizeL2Transaction(t);
    Ok(ToHex(Table(L2Fields(b))))
  }

  function SerializeSudtText(a: SudtArgs): Result<string> {
    var b :- NormalizeSudtArgs(a);
    Ok(ToHex(SerializeSudtArgs(b)))
  }

  function SerializeBatchText(m: BatchSetMapping): Result<string> {
    var b :- NormalizeBatchSetMapping(m);
    Ok(ToHex(Table(BatchFields(b))))
  }

  // ----- validation -----

  // ----- the bytes on the wire -----

  /** L2Transaction, field by field in the order of the schema. */
  lemma {:induction false} L2WireFormat(t: L2Transaction)
    requires SerializeL2Text(t).Ok?
    ensures ParseHexNumber(t.raw.chainId).Ok? && ParseHexNumber(t.raw.fromId).Ok?
    ensures ParseHexNumber(t.raw.toId).Ok? && ParseHexNumber(t.raw.nonce).Ok?
    ensures FromHex(t.raw.args).Ok? && FromHex(t.signature).Ok? && |FromHex(t.signature).value| == 65
    ensures var args, signature := FromHex(t.raw.args).value, FromHex(t.signature).value;
            SerializeL2Text(t).value
            == ToHex(Table([Table([LE(ParseHexNumber(t.raw.chainId).value, 8),
                                   LE(ParseHexNumber(t.raw.fromId).value, 4),
                                   LE(ParseHexNumber(t.raw.toId).value, 4),
                                   LE(ParseHexNumber(t.raw.nonce).value, 4),
                                   LE(|args|, 4) + args]),
                            LE(65, 4) + signature]))
  {
    hide ToHex, LE, Table, FromHex, ParseHexNumber;
  }

  /** SUDTArgs: the number of the variant, then its table; a fee is 20 bytes without offsets. */
  lemma {:induction false} SudtWireFormat(a: SudtArgs)
    requires SerializeSudtText(a).Ok?
    ensures a.SudtQuery? ==> FromHex(a.address).Ok?
    ensures a.SudtTransfer? ==>
              FromHex(a.toAddress).Ok? && ParseHexNumber(a.amount).Ok?
              && ParseHexNumber(a.fee.registryId).Ok? && ParseHexNumber(a.fee.amount).Ok?
    ensures SerializeSudtText(a).value
         == ToHex(match a
                  case SudtQuery(address) =>
                    LE(0, 4) + Table([LE(|FromHex(address).value|, 4) + FromHex(address).value])
                  case SudtTransfer(to, amount, fee) =>
                    LE(1, 4) + Table([LE(|FromHex(to).value|, 4) + FromHex(to).value,
                                      LE(ParseHexNumber(amount).value, 32),
                                      LE(ParseHexNumber(fee.registryId).value, 4)
                                      + LE(ParseHexNumber(fee.amount).value, 16)]))
  {
    hide ToHex, LE, Table, FromHex, ParseHexNumber;
  }

  /** BatchSetMapping: the counted hashes one after the other, then the fee. */
  lemma {:induction false} BatchWireFormat(m: BatchSetMapping)
    requires SerializeBatchText(m).Ok?
    ensures ParseHexNumber(m.fee.registryId).Ok? && ParseHexNumber(m.fee.amount).Ok?
    ensures forall i :: 0 <= i < |m.gwScriptHashes| ==>
              FromHex(m.gwScriptHashes[i]).Ok? && |FromHex(m.gwScriptHashes[i]).value| == 32
    ensures SerializeBatchText(m).value
         == ToHex(Table([LE(|m.gwScriptHashes|, 4)
                         + Flatten(seq(|m.gwScriptHashes|, i requires 0 <= i < |m.gwScriptHashes|
                                                             && FromHex(m.gwScriptHashes[i]).Ok? =>
                                         FromHex(m.gwScriptHashes[i]).value)),
                         LE(ParseHexNumber(m.fee.registryId).value, 4) + LE(ParseHexNumber(m.fee.amount).value, 16)]))
  {
    var hashes := NormalizeHashes(m.gwScriptHashes).value;
    HashBytes(m.gwScriptHashes);
    assert hashes == seq(|m.gwScriptHashes|, i requires 0 <= i < |m.gwScriptHashes|
                                               && FromHex(m.gwScriptHashes[i]).Ok? =>
                           FromHex(m.gwScriptHashes[i]).value);
  }

  lemma {:induction false} HashBytes(hashes: seq<string>)
    requires NormalizeHashes(hashes).Ok?
    ensures forall i :: 0 <= i < |hashes| ==>
              FromHex(hashes[i]).Ok? && NormalizeHashes(hashes).value[i] == FromHex(hashes[i]).value
  {
    if hashes != [] {
      HashBytes(hashes[1..]);
    }
  }

  /** `buffer.slice(offsets[i], offsets[i + 1])`, where an index past the end of `offsets` is undefined. */
  function Piece(view: Bytes, offsets: seq<nat>, i: nat): Bytes {
    Slice(view, if i < |offsets| then offsets[i] else 0, if i + 1 < |offsets| then offsets[i + 1] else |view|)
  }

  predicate ValidRawL2(view: Bytes) {
    var r := Verify(view, 0, true);
    && r.Ok?
    && |Piece(view, r.value, 0)| == 8
    && |Piece(view, r.value, 1)| == 4
    && |Piece(view, r.value, 2)| == 4
    && |Piece(view, r.value, 3)| == 4
    && ValidBytes(Piece(view, r.value, 4))
  }

  predicate ValidL2(view: Bytes) {
    var r := Verify(view, 0, true);
    && r.Ok?
    && ValidRawL2(Piece(view, r.value, 0))
    && ValidBytes(Piece(view, r.value, 1))
  }

  predicate ValidQuery(view: Bytes) {
    var r := Verify(view, 0, true);
    r.Ok? && ValidBytes(Piece(view, r.value, 0))
  }

  predicate ValidTransfer(view: Bytes) {
    var r := Verify(view, 0, true);
    && r.Ok?
    && ValidBytes(Piece(view, r.value, 0))
    && |Piece(view, r.value, 1)| == 32
    && |Piece(view, r.value, 2)| == 20
  }

  predicate ValidSudtArgs(view: Bytes) {
    && |view| >= 4
    && match Uint32At(view, 0)
       case 0 => ValidQuery(view[4..])
       case 1 => ValidTransfer(view[4..])
       case _ => false
  }

  predicate ValidBatch(view: Bytes) {
    var r := Verify(view, 0, true);
    && r.Ok?
    && ValidByte32Vec(Piece(view, r.value, 0))
    && |Piece(view, r.value, 1)| == 20
  }

  // ----- getters and the Denormalize functions -----

  /** `new Uint32(x.toLittleEndianUint32())` and its wider variants, as numbers. */
  function ReadNumber(field: Result<Bytes>, width: nat): Result<nat> {
    var b :- field;
    ReadWord(b, 0, width)
  }

  /** `x.raw()` of a `Bytes` field. */
  function ReadRaw(field: Result<Bytes>): Result<Bytes> {
    var b :- field;
    Ok(Slice(b, 4, |b|))
  }

  datatype RawL2Values = RawL2Values(chainId: nat, fromId: nat, toId: nat, nonce: nat, args: Bytes)

  datatype L2Values = L2Values(raw: RawL2Values, signature: Bytes)

  function ReadRawL2(view: Bytes): Result<RawL2Values> {
    var chainId :- ReadNumber(Field(view, 0), U64);
    var fromId :- ReadNumber(Field(view, 1), U32);
    var toId :- ReadNumber(Field(view, 2), U32);
    var nonce :- ReadNumber(Field(view, 3), U32);
    var args :- ReadRaw(LastField(view, 4));
    Ok(RawL2Values(chainId, fromId, toId, nonce, args))
  }

  function ReadL2(view: Bytes): Result<L2Values> {
    var raw :- Field(view, 0);
    var values :- ReadRawL2(raw);
    var signature :- ReadRaw(LastField(view, 1));
    Ok(L2Values(values, signature))
  }

  function DenormalizeL2(v: L2Values): L2Transaction {
    L2Transaction(
      RawL2Transaction(ToHexNumber(v.raw.chainId), ToHexNumber(v.raw.fromId), ToHexNumber(v.raw.toId),
                       ToHexNumber(v.raw.nonce), ToHex(v.raw.args)),
      ToHex(v.signature))
  }

  function ParseL2Text(text: string): Result<L2Transaction> {
    var view :- FromHex(text);
    var _ :- Need(ValidL2(view), "invalid L2Transaction");
    var values :- ReadL2(view);
    Ok(DenormalizeL2(values))
  }

  /** `Fee` is a struct: fixed positions, no offsets. */
  function DenormalizeFee(view: Bytes): Result<Fee> {
    var amount :- Uint128FromLittleEndian(ToHex(Slice(view, 4, 20)));
    var registryId :- ReadWord(Slice(view, 0, 4), 0, U32);
    Ok(Fee(ToHexNumber(registryId), ToHexNumber(amount)))
  }

  function DenormalizeSudtArgs(view: Bytes): Result<SudtArgs> {
    if |view| < 4 then Err("getUint32: out of range") else
    var item := view[4..];
    if Uint32At(view, 0) == 0 then
      var address :- ReadRaw(LastField(item, 0));
      Ok(SudtQuery(ToHex(address)))
    else if Uint32At(view, 0) == 1 then
      var toAddress :- ReadRaw(Field(item, 0));
      var amountBytes :- Field(item, 1);
      var amount :- Uint256FromLittleEndian(ToHex(amountBytes));
      var feeView :- LastField(item, 2);
      var fee :- DenormalizeFee(feeView);
      Ok(SudtTransfer(ToHex(toAddress), ToHexNumber(amount), fee))
    else Err("unsupported type")
  }

  function ParseSudtText(text: string): Result<SudtArgs> {
    var view :- FromHex(text);
    var _ :- Need(ValidSudtArgs(view), "invalid SUDTArgs");
    DenormalizeSudtArgs(view)
  }

  /** What the loop of `DenormalizeBatchSetMapping` collects. */
  function HashTexts(vec: Bytes, count: nat): (texts: seq<string>) {
    seq(count, i requires 0 <= i < count => ToHex(Byte32VecIndexAt(vec, i)))
  }

  function DenormalizeBatch(view: Bytes): Result<BatchSetMapping> {
    var vec :- Field(view, 0);
    if |vec| < 4 then Err("getUint32: out of range") else
    var feeView :- LastField(view, 1);
    var fee :- DenormalizeFee(feeView);
    Ok(BatchSetMapping(HashTexts(vec, Uint32At(vec, 0)), fee))
  }

  /** `DenormalizeBatchSetMapping` as it runs, re-reading the vector in every round. */
  method DenormalizeBatchLoop(view: Bytes) returns (r: Result<BatchSetMapping>)
    ensures r == DenormalizeBatch(view)
  {
    var gwScriptHashes: seq<string> := [];
    var vec := Field(view, 0);
    if vec.Err? {
      return Err(vec.reason);
    }
    if |vec.value| < 4 {
      return Err("getUint32: out of range");
    }
    var i := 0;
    while i < Uint32At(vec.value, 0)
      invariant 0 <= i <= Uint32At(vec.value, 0)
      invariant gwScriptHashes == HashTexts(vec.value, i)
    {
      gwScriptHashes := gwScriptHashes + [ToHex(Byte32VecIndexAt(vec.value, i))];
      i := i + 1;
    }
    var fee := DenormalizeFee(LastField(view, 1).value);
    if fee.Err? {
      return Err(fee.reason);
    }
    return Ok(BatchSetMapping(gwScriptHashes, fee.value));
  }

  function ParseBatchText(text: string): Result<BatchSetMapping> {
    var view :- FromHex(text);
    var _ :- Need(ValidBatch(view), "invalid BatchSetMapping");
    DenormalizeBatch(view)
  }

  // ----- what the round trips turn an object into -----

  /** The value a number text stands for, written minimally. */
  function Renumber(text: string): string {
    if ParseHexNumber(text).Ok? then ToHexNumber(ParseHexNumber(text).value) else text
  }

  /** The bytes a hex text stands for, written in lower case. */
  function Lowercase(text: string): string {
    if FromHex(text).Ok? then ToHex(FromHex(text).value) else text
  }

  function CanonicalL2(t: L2Transaction): L2Transaction {
    L2Transaction(
      RawL2Transaction(Renumber(t.raw.chainId), Renumber(t.raw.fromId), Renumber(t.raw.toId),
                       Renumber(t.raw.nonce), Lowercase(t.raw.args)),
      Lowercase(t.signature))
  }

  function CanonicalFee(f: Fee): Fee {
    Fee(Renumber(f.registryId), Renumber(f.amount))
  }

  function CanonicalSudt(a: SudtArgs): SudtArgs {
    match a
    case SudtQuery(address) => SudtQuery(Lowercase(address))
    case SudtTransfer(to, amount, fee) => SudtTransfer(Lowercase(to), Renumber(amount), CanonicalFee(fee))
  }

  function CanonicalBatch(m: BatchSetMapping): BatchSetMapping {
    BatchSetMapping(
      seq(|m.gwScriptHashes|, i requires 0 <= i < |m.gwScriptHashes| => Lowercase(m.gwScriptHashes[i])),
      CanonicalFee(m.fee))
  }

  lemma {:induction false} NumberRoundTrip(width: nat, text: string)
    requires NormalizeHexNumber(width, text).Ok?
    ensures ToHexNumber(FromLE(NormalizeHexNumber(width, text).value)) == Renumber(text)
    ensures FromLE(NormalizeHexNumber(width, text).value) == ParseHexNumber(text).value
    ensures Renumber(text) == text <==> CanonicalHexNumber(text)
  {
    var n := ParseHexNumber(text).value;
    FromLEOfLE(n, width);
    ToHexNumberOfParse(text);
  }

  lemma {:induction false} DataRoundTrip(length: int, text: string)
    requires NormalizeRawData(length, text).Ok?
    ensures ToHex(NormalizeRawData(length, text).value) == Lowercase(text)
    ensures Lowercase(text) == text <==> CanonicalHex(text)
  {
    ToHexOfFromHex(text);
  }

  // ----- L2Transaction -----

  lemma {:induction false} ReadBytesVec(item: Bytes)
    requires |item| < UINT32_LIMIT
    ensures ReadRaw(Ok(BytesVec(item))) == Ok(item)
  {
    BytesRoundTrip(item);
    var b := BytesVec(item);
    assert Slice(b, 4, |b|) == b[4..];
  }

  function RawValues(b: RawL2Buffers): RawL2Values {
    RawL2Values(FromLE(b.chainId), FromLE(b.fromId), FromLE(b.toId), FromLE(b.nonce), b.args)
  }

  predicate RawWidths(b: RawL2Buffers) {
    |b.chainId| == 8 && |b.fromId| == 4 && |b.toId| == 4 && |b.nonce| == 4
  }

  lemma {:induction false} TablePieces(fields: seq<Bytes>)
    requires TotalSize(fields) < UINT32_LIMIT
    ensures Verify(Table(fields), 0, true) == Ok(AllOffsets(fields))
    ensures forall i :: 0 <= i < |fields| ==> Piece(Table(fields), AllOffsets(fields), i) == fields[i]
  {
    VerifyOfTable(fields, 0, true);
    var t, o := Table(fields), AllOffsets(fields);
    forall i | 0 <= i < |fields| ensures Piece(t, o, i) == fields[i] {
      assert Pieces(t, o)[i] == fields[i];
    }
  }

  lemma {:induction false} BytesVecFits(fields: seq<Bytes>, i: nat, item: Bytes)
    requires TotalSize(fields) < UINT32_LIMIT
    requires i < |fields| && fields[i] == BytesVec(item)
    ensures |item| < UINT32_LIMIT && ValidBytes(fields[i])
    ensures ReadRaw(Ok(fields[i])) == Ok(item)
  {
    FlattenSnoc(fields, i);
    BytesRoundTrip(item);
    ReadBytesVec(item);
  }

  // ----- what `validate` accepts -----

  /** Five fields make a valid transaction exactly with these widths and a length in front of the arguments. */
  lemma {:induction false} ValidRawL2Exactly(fields: seq<Bytes>)
    requires |fields| == 5 && TotalSize(fields) < UINT32_LIMIT
    ensures ValidRawL2(Table(fields)) <==>
            && |fields[0]| == 8 && |fields[1]| == 4 && |fields[2]| == 4 && |fields[3]| == 4
            && exists args :: BytesForm(fields[4], args)
  {
    TablePieces(fields);
    ValidBytesExactly(fields[4]);
    assert forall i :: 0 <= i < 5 ==> Piece(Table(fields), AllOffsets(fields), i) == fields[i];
  }

  lemma {:induction false} ValidL2Exactly(fields: seq<Bytes>)
    requires |fields| == 2 && TotalSize(fields) < UINT32_LIMIT
    ensures ValidL2(Table(fields)) <==>
            ValidRawL2(fields[0]) && exists signature :: BytesForm(fields[1], signature)
  {
    TablePieces(fields);
    ValidBytesExactly(fields[1]);
    assert forall i :: 0 <= i < 2 ==> Piece(Table(fields), AllOffsets(fields), i) == fields[i];
  }

  lemma {:induction false} ValidSudtExactly(tag: nat, fields: seq<Bytes>)
    requires tag < UINT32_LIMIT && TotalSize(fields) < UINT32_LIMIT
    ensures tag == 0 && |fields| == 1 ==>
              (ValidSudtArgs(LE(tag, 4) + Table(fields)) <==> exists address :: BytesForm(fields[0], address))
    ensures tag == 1 && |fields| == 3 ==>
              (ValidSudtArgs(LE(tag, 4) + Table(fields)) <==>
                 (exists to :: BytesForm(fields[0], to)) && |fields[1]| == 32 && |fields[2]| == 20)
    ensures tag > 1 ==> !ValidSudtArgs(LE(tag, 4) + Table(fields))
  {
    UnionTag(tag, Table(fields));
    TablePieces(fields);
    if |fields| == 1 || |fields| == 3 {
      ValidBytesExactly(fields[0]);
      assert forall i :: 0 <= i < |fields| ==> Piece(Table(fields), AllOffsets(fields), i) == fields[i];
    }
  }

  lemma {:induction false} ValidBatchExactly(fields: seq<Bytes>)
    requires |fields| == 2 && TotalSize(fields) < UINT32_LIMIT
    ensures ValidBatch(Table(fields)) <==>
            |fields[1]| == 20 && |fields[0]| >= 4 && |fields[0]| == 4 + 32 * FromLE(fields[0][..4])
  {
    TablePieces(fields);
    if |fields[0]| >= 4 {
      assert fields[0][..4] == fields[0][0..4];
    }
    assert forall i :: 0 <= i < 2 ==> Piece(Table(fields), AllOffsets(fields), i) == fields[i];
  }

  /** The items of a `BytesVec`, each with its length in front. */
  function BytesItems(items: seq<Bytes>): (buffers: seq<Bytes>)
    ensures |buffers| == |items|
  {
    seq(|items|, i requires 0 <= i < |items| => BytesVec(items[i]))
  }

  /** A serialised `BytesVec` validates, has the right length and gives every item back. */
  lemma {:induction false} BytesVectorRoundTrip(items: seq<Bytes>)
    requires TotalSize(BytesItems(items)) < UINT32_LIMIT
    ensures Verify(Table(BytesItems(items)), 0, true).Ok?
    ensures VecLength(Table(BytesItems(items))) == |items|
    ensures forall i :: 0 <= i < |items| ==> ReadRaw(VecIndexAt(Table(BytesItems(items)), i)) == Ok(items[i])
  {
    var buffers := BytesItems(items);
    VerifyOfTable(buffers, 0, true);
    VectorOfTable(buffers);
    forall i | 0 <= i < |items| ensures ReadRaw(VecIndexAt(Table(buffers), i)) == Ok(items[i]) {
      BytesVecFits(buffers, i, items[i]);
    }
  }

  lemma {:induction false} RawL2RoundTrip(b: RawL2Buffers)
    requires RawWidths(b) && TotalSize(RawL2Fields(b)) < UINT32_LIMIT
    ensures ValidRawL2(Table(RawL2Fields(b)))
    ensures ReadRawL2(Table(RawL2Fields(b))) == Ok(RawValues(b))
  {
    var fields := RawL2Fields(b);
    TablePieces(fields);
    BytesVecFits(fields, 4, b.args);
    assert Piece(Table(fields), AllOffsets(fields), 0) == fields[0];
    assert Piece(Table(fields), AllOffsets(fields), 1) == fields[1];
    assert Piece(Table(fields), AllOffsets(fields), 2) == fields[2];
    assert Piece(Table(fields), AllOffsets(fields), 3) == fields[3];
    assert Piece(Table(fields), AllOffsets(fields), 4) == fields[4];
    FieldOfTable(fields, 0);
    FieldOfTable(fields, 1);
    FieldOfTable(fields, 2);
    FieldOfTable(fields, 3);
    LastFieldOfTable(fields, 4);
    WholeWord(b.chainId);
    WholeWord(b.fromId);
    WholeWord(b.toId);
    WholeWord(b.nonce);
  }

  lemma {:induction false} WholeWord(b: Bytes)
    ensures ReadWord(b, 0, |b|) == Ok(FromLE(b))
  {
    assert b[0..|b|] == b;
  }

  lemma {:induction false} L2RoundTripBytes(b: L2Buffers)
    requires RawWidths(b.raw) && TotalSize(L2Fields(b)) < UINT32_LIMIT
    ensures ValidL2(Table(L2Fields(b)))
    ensures ReadL2(Table(L2Fields(b))) == Ok(L2Values(RawValues(b.raw), b.signature))
  {
    var fields := L2Fields(b);
    FlattenSnoc(fields, 0);
    RawL2RoundTrip(b.raw);
    TablePieces(fields);
    BytesVecFits(fields, 1, b.signature);
    assert Piece(Table(fields), AllOffsets(fields), 0) == fields[0];
    assert Piece(Table(fields), AllOffsets(fields), 1) == fields[1];
    FieldOfTable(fields, 0);
    LastFieldOfTable(fields, 1);
  }

  predicate L2IsCanonical(t: L2Transaction) {
    && CanonicalHexNumber(t.raw.chainId) && CanonicalHexNumber(t.raw.fromId)
    && CanonicalHexNumber(t.raw.toId) && CanonicalHexNumber(t.raw.nonce)
    && CanonicalHex(t.raw.args) && CanonicalHex(t.signature)
  }

  /**
   Parsing what was serialised gives the transaction in canonical text, hence the very same object
   exactly when its numbers were minimal and everything was in lower case.
   */
  lemma {:induction false} L2TransactionRoundTrip(t: L2Transaction)
    requires NormalizeL2Transaction(t).Ok?
    requires TotalSize(L2Fields(NormalizeL2Transaction(t).value)) < UINT32_LIMIT
    ensures ParseL2Text(SerializeL2Text(t).value) == Ok(CanonicalL2(t))
    ensures ParseL2Text(SerializeL2Text(t).value) == Ok(t) <==> L2IsCanonical(t)
  {
    var b := NormalizeL2Transaction(t).value;
    FromHexOfToHex(Table(L2Fields(b)));
    L2RoundTripBytes(b);
    NumberRoundTrip(U64, t.raw.chainId);
    NumberRoundTrip(U32, t.raw.fromId);
    NumberRoundTrip(U32, t.raw.toId);
    NumberRoundTrip(U32, t.raw.nonce);
    DataRoundTrip(-1, t.raw.args);
    DataRoundTrip(65, t.signature);
  }

  // ----- SUDTArgs -----

  predicate FeeIsCanonical(f: Fee) {
    CanonicalHexNumber(f.registryId) && CanonicalHexNumber(f.amount)
  }

  lemma {:induction false} FeeParts(b: FeeBuffers)
    requires |b.registryId| == 4 && |b.amount| == 16
    ensures |FeeStruct(b)| == 20
    ensures Slice(FeeStruct(b), 0, 4) == b.registryId && Slice(FeeStruct(b), 4, 20) == b.amount
  {
    Seqs.Parts(b.registryId, b.amount);
  }

  lemma {:induction false} FeeRoundTrip(f: Fee)
    requires NormalizeFee(f).Ok?
    ensures |FeeStruct(NormalizeFee(f).value)| == 20
    ensures DenormalizeFee(FeeStruct(NormalizeFee(f).value)) == Ok(CanonicalFee(f))
    ensures CanonicalFee(f) == f <==> FeeIsCanonical(f)
  {
    var b := NormalizeFee(f).value;
    FeeParts(b);
    WholeWord(b.registryId);
    ReadsBytes16(b.amount);
    NumberRoundTrip(U32, f.registryId);
    NumberRoundTrip(U128, f.amount);
  }

  lemma {:induction false} UnionTag(tag: nat, item: Bytes)
    requires tag < UINT32_LIMIT
    ensures var view := LE(tag, U32) + item; Uint32At(view, 0) == tag && view[4..] == item
  {
    WordLimits();
    FromLEOfLE(tag, U32);
    assert (LE(tag, U32) + item)[0..4] == LE(tag, U32);
  }

  lemma {:induction false} QueryRoundTrip(address: Bytes)
    requires TotalSize([BytesVec(address)]) < UINT32_LIMIT
    ensures ValidSudtArgs(SerializeSudtArgs(QueryBuffers(address)))
    ensures DenormalizeSudtArgs(SerializeSudtArgs(QueryBuffers(address))) == Ok(SudtQuery(ToHex(address)))
  {
    var fields := [BytesVec(address)];
    UnionTag(0, Table(fields));
    TablePieces(fields);
    BytesVecFits(fields, 0, address);
    assert Piece(Table(fields), AllOffsets(fields), 0) == fields[0];
    LastFieldOfTable(fields, 0);
  }

  lemma {:induction false} TransferIsValid(to: Bytes, amount: Bytes, fee: FeeBuffers)
    requires |amount| == 32 && |FeeStruct(fee)| == 20
    requires TotalSize(TransferFields(to, amount, fee)) < UINT32_LIMIT
    ensures ValidTransfer(Table(TransferFields(to, amount, fee)))
  {
    var fields := TransferFields(to, amount, fee);
    TablePieces(fields);
    BytesVecFits(fields, 0, to);
    assert Piece(Table(fields), AllOffsets(fields), 0) == fields[0];
    assert Piece(Table(fields), AllOffsets(fields), 1) == fields[1];
    assert Piece(Table(fields), AllOffsets(fields), 2) == fields[2];
  }

  lemma {:induction false} TransferRoundTrip(to: Bytes, amount: Bytes, fee: FeeBuffers, feeText: Fee)
    requires |amount| == 32 && |FeeStruct(fee)| == 20
    requires DenormalizeFee(FeeStruct(fee)) == Ok(feeText)
    requires TotalSize(TransferFields(to, amount, fee)) < UINT32_LIMIT
    ensures ValidSudtArgs(SerializeSudtArgs(TransferBuffers(to, amount, fee)))
    ensures DenormalizeSudtArgs(SerializeSudtArgs(TransferBuffers(to, amount, fee)))
         == Ok(SudtTransfer(ToHex(to), ToHexNumber(FromLE(amount)), feeText))
  {
    var fields := TransferFields(to, amount, fee);
    UnionTag(1, Table(fields));
    TransferIsValid(to, amount, fee);
    BytesVecFits(fields, 0, to);
    FieldOfTable(fields, 0);
    FieldOfTable(fields, 1);
    LastFieldOfTable(fields, 2);
    ReadsBytes32(amount);
  }

  predicate SudtIsCanonical(a: SudtArgs) {
    match a
    case SudtQuery(address) => CanonicalHex(address)
    case SudtTransfer(to, amount, fee) => CanonicalHex(to) && CanonicalHexNumber(amount) && FeeIsCanonical(fee)
  }

  /** The same for both variants of the SUDT arguments. */
  lemma {:induction false} SudtArgsRoundTrip(a: SudtArgs)
    requires NormalizeSudtArgs(a).Ok?
    requires |SerializeSudtArgs(NormalizeSudtArgs(a).value)| < UINT32_LIMIT
    ensures ParseSudtText(SerializeSudtText(a).value) == Ok(CanonicalSudt(a))
    ensures ParseSudtText(SerializeSudtText(a).value) == Ok(a) <==> SudtIsCanonical(a)
  {
    var b := NormalizeSudtArgs(a).value;
    FromHexOfToHex(SerializeSudtArgs(b));
    match a
    case SudtQuery(address) =>
      QueryRoundTrip(b.address);
      DataRoundTrip(-1, address);
    case SudtTransfer(to, amount, fee) =>
      FeeRoundTrip(fee);
      TransferRoundTrip(b.toAddress, b.amount, b.fee, CanonicalFee(fee));
      DataRoundTrip(-1, to);
      NumberRoundTrip(U256, amount);
  }

  // ----- BatchSetMapping -----

  lemma {:induction false} HashesRoundTrip(hashes: seq<string>, i: nat)
    requires NormalizeHashes(hashes).Ok? && i < |hashes|
    ensures NormalizeRawData(32, hashes[i]) == Ok(NormalizeHashes(hashes).value[i])
  {
    if i != 0 {
      HashesRoundTrip(hashes[1..], i - 1);
    }
  }

  predicate BatchIsCanonical(m: BatchSetMapping) {
    (forall i :: 0 <= i < |m.gwScriptHashes| ==> CanonicalHex(m.gwScriptHashes[i])) && FeeIsCanonical(m.fee)
  }

  lemma {:induction false} BatchRoundTripBytes(b: BatchBuffers, fee: Fee)
    requires AllOfLength(b.gwScriptHashes, 32) && |FeeStruct(b.fee)| == 20
    requires DenormalizeFee(FeeStruct(b.fee)) == Ok(fee)
    requires TotalSize(BatchFields(b)) < UINT32_LIMIT
    ensures ValidBatch(Table(BatchFields(b)))
    ensures DenormalizeBatch(Table(BatchFields(b)))
         == Ok(BatchSetMapping(HashTexts(Byte32Vec(b.gwScriptHashes), |b.gwScriptHashes|), fee))
  {
    var fields := BatchFields(b);
    FlattenSnoc(fields, 0);
    FlattenFixedLength(b.gwScriptHashes, 32);
    Byte32VecRoundTrip(b.gwScriptHashes);
    TablePieces(fields);
    assert Piece(Table(fields), AllOffsets(fields), 0) == fields[0];
    assert Piece(Table(fields), AllOffsets(fields), 1) == fields[1];
    FieldOfTable(fields, 0);
    LastFieldOfTable(fields, 1);
  }

  /** The hashes come back one by one, in lower case. */
  lemma {:induction false} HashTextsRoundTrip(m: BatchSetMapping)
    requires NormalizeBatchSetMapping(m).Ok?
    requires |m.gwScriptHashes| < UINT32_LIMIT
    ensures HashTexts(Byte32Vec(NormalizeBatchSetMapping(m).value.gwScriptHashes), |m.gwScriptHashes|)
         == CanonicalBatch(m).gwScriptHashes
  {
    var hashes := NormalizeBatchSetMapping(m).value.gwScriptHashes;
    forall i | 0 <= i < |m.gwScriptHashes|
      ensures ToHex(Byte32VecIndexAt(Byte32Vec(hashes), i)) == Lowercase(m.gwScriptHashes[i])
    {
      HashesRoundTrip(m.gwScriptHashes, i);
      DataRoundTrip(32, m.gwScriptHashes[i]);
      Byte32At(hashes, i);
    }
  }

  lemma {:induction false} CanonicalBatchIff(m: BatchSetMapping)
    requires NormalizeBatchSetMapping(m).Ok?
    ensures CanonicalBatch(m) == m <==> BatchIsCanonical(m)
  {
    FeeRoundTrip(m.fee);
    forall i | 0 <= i < |m.gwScriptHashes|
      ensures Lowercase(m.gwScriptHashes[i]) == m.gwScriptHashes[i] <==> CanonicalHex(m.gwScriptHashes[i])
    {
      HashesRoundTrip(m.gwScriptHashes, i);
      DataRoundTrip(32, m.gwScriptHashes[i]);
    }
    if CanonicalBatch(m) == m {
      forall i | 0 <= i < |m.gwScriptHashes| ensures CanonicalHex(m.gwScriptHashes[i]) {
        assert CanonicalBatch(m).gwScriptHashes[i] == m.gwScriptHashes[i];
      }
    }
    if BatchIsCanonical(m) {
      assert CanonicalBatch(m).gwScriptHashes == m.gwScriptHashes;
    }
  }

  /** The same for a batch mapping of any number of hashes, the empty list included. */
  lemma {:induction false} BatchSetMappingRoundTrip(m: BatchSetMapping)
    requires NormalizeBatchSetMapping(m).Ok?
    requires TotalSize(BatchFields(NormalizeBatchSetMapping(m).value)) < UINT32_LIMIT
    ensures ParseBatchText(SerializeBatchText(m).value) == Ok(CanonicalBatch(m))
    ensures ParseBatchText(SerializeBatchText(m).value) == Ok(m) <==> BatchIsCanonical(m)
  {
    var b := NormalizeBatchSetMapping(m).value;
    FromHexOfToHex(Table(BatchFields(b)));
    FeeRoundTrip(m.fee);
    HashVectorFits(b);
    BatchRoundTripBytes(b, CanonicalFee(m.fee));
    HashTextsRoundTrip(m);
    CanonicalBatchIff(m);
  }

  lemma {:induction false} HashVectorFits(b: BatchBuffers)
    requires AllOfLength(b.gwScriptHashes, 32)
    requires TotalSize(BatchFields(b)) < UINT32_LIMIT
    ensures |b.gwScriptHashes| < UINT32_LIMIT
  {
    FlattenSnoc(BatchFields(b), 0);
    FlattenFixedLength(b.gwScriptHashes, 32);
  }
}
