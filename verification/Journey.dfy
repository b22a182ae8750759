/**
 A raw Ethereum transaction from the submission to the stored hash: which requests are accepted, what the
 indexer reads from the submitted Molecule bytes, and when the rebuilt bytes are the raw ones.
 */
module Journey {
  import opened Wrappers
  import opened Binary
  import opened Hex
  import opened Rlp
  import opened PolyjuiceArgs
  import opened Codec
  import opened Molecule
  import opened Gas
  import opened EthTx

  // ----- end to end -----

  /** Exactly the `v` values whose replay-protected form survives the rewriting on chain `chainId`. */
  predicate VSurvives(v: nat, chainId: nat) {
    || v in {27, 28}
    || (chainId != 0 && v in {35 + 2 * chainId, 36 + 2 * chainId} && v < 0x1_0000_0000_0000_0000
        && (v % 2 == 0 || v < 0x20_0000_0000_0000))
  }

  /** What the indexer reads when the account of `to_id` is as `PolyTxToGwTx` saw it. */
  predicate ScriptMatches(tx: PolyTx, native: bool, toScriptArgs: Bytes) {
    tx.to != [] && !native ==> |toScriptArgs| == 56 && toScriptArgs[36..] == tx.to
  }

  lemma {:induction false} FieldWithinEncoding(fields: seq<Bytes>, i: nat)
    requires EncodableStrings(fields) && i < |fields|
    ensures |fields[i]| <= |EncodeStrings(fields)|
  {
    if i != 0 {
      FieldWithinEncoding(fields[1..], i - 1);
    }
  }

  lemma {:induction false} DataIsSmall(tx: PolyTx)
    requires EncodePolyjuiceTransaction(tx).Ok? && |EncodePolyjuiceTransaction(tx).value| <= MAX_TRANSACTION_SIZE
    ensures |tx.data| <= ARGS_MAX_SIZE
  {
    FieldWithinEncoding(ReencodedFields(tx), 5);
  }

  lemma {:induction false} NativeHasAddress(accounts: map<Bytes, Account>, to: Bytes)
    requires IsEthNativeTransfer(accounts, to) == Ok(true)
    ensures |to| == 20
  {
  }

  lemma {:induction false} NonceText(nonce: Bytes)
    ensures ParseHexNumber(NumberText(nonce)) == Ok(FromBE(nonce))
  {
    if nonce == [] {
      assert "0x0" == ToHexNumber(0);
      ParseOfToHexNumber(0);
    } else {
      ParseOfToHex(nonce);
    }
  }

  lemma {:induction false} NormalizedText(width: nat, text: string)
    requires NormalizeHexNumber(width, text).Ok?
    ensures ParseHexNumber(text).Ok?
    ensures FromLE(NormalizeHexNumber(width, text).value) == ParseHexNumber(text).value
  {
    NumberRoundTrip(width, text);
  }

  lemma {:induction false} NormalizedData(length: int, b: Bytes)
    requires NormalizeRawData(length, ToHex(b)).Ok?
    ensures NormalizeRawData(length, ToHex(b)) == Ok(b)
  {
    FromHexOfToHex(b);
  }

  /** `sendRawTransaction`: from the raw bytes to the Molecule bytes that are submitted. */
  function Submit(raw: Bytes, config: Config, accounts: map<Bytes, Account>, fromId: string,
        accepted: bool): Result<Bytes> {
    var tx :- EthRawTxToPolyTx(raw);
    var l2 :- PolyTxToGwTx(tx, config, accounts, fromId, accepted);
    var text :- SerializeL2Text(l2);
    FromHex(text)
  }

  /** The indexer's reading of a submitted transaction. */
  function ReadSubmitted(view: Bytes, toScriptArgs: Bytes): Result<IndexedTx> {
    var _ :- Need(ValidL2(view), "molecule: verification error");
    var values :- ReadL2(view);
    FilterPolyjuice(values, toScriptArgs)
  }

  lemma {:induction false} NormalizedRaw(t: RawL2Transaction, layout: Bytes, nonce: nat)
    requires NormalizeRawL2Transaction(t).Ok?
    requires t.args == ToHex(layout) && ParseHexNumber(t.nonce) == Ok(nonce)
    ensures var b := NormalizeRawL2Transaction(t).value;
            && RawWidths(b)
            && ParseHexNumber(t.chainId).Ok? && ParseHexNumber(t.fromId).Ok? && ParseHexNumber(t.toId).Ok?
            && b.args == layout
            && RawValues(b) == RawL2Values(ParseHexNumber(t.chainId).value, ParseHexNumber(t.fromId).value,
                                           ParseHexNumber(t.toId).value, nonce, layout)
  {
    NormalizedData(-1, layout);
    NormalizedText(U64, t.chainId);
    NormalizedText(U32, t.fromId);
    NormalizedText(U32, t.toId);
    NormalizedText(U32, t.nonce);
  }

  /** Serialised and read back, a Godwoken transaction keeps its values. */
  lemma {:induction false} SerializedValues(l2: L2Transaction, layout: Bytes, nonce: nat, signature: Bytes)
    requires SerializeL2Text(l2).Ok?
    requires l2.raw.args == ToHex(layout) && ParseHexNumber(l2.raw.nonce) == Ok(nonce)
    requires l2.signature == ToHex(signature)
    requires |layout| + 200 < UINT32_LIMIT
    ensures ParseHexNumber(l2.raw.chainId).Ok? && ParseHexNumber(l2.raw.fromId).Ok? && ParseHexNumber(l2.raw.toId).Ok?
    ensures |signature| == 65
    ensures var view := FromHex(SerializeL2Text(l2).value);
            && view.Ok? && ValidL2(view.value)
            && ReadL2(view.value)
               == Ok(L2Values(RawL2Values(ParseHexNumber(l2.raw.chainId).value, ParseHexNumber(l2.raw.fromId).value,
                                          ParseHexNumber(l2.raw.toId).value, nonce, layout), signature))
  {
    var b := NormalizeL2Transaction(l2).value;
    NormalizedRaw(l2.raw, layout, nonce);
    NormalizedData(65, signature);
    SizeOfL2(b);
    L2RoundTripBytes(b);
    FromHexOfToHex(Table(L2Fields(b)));
  }

  lemma {:induction false} FlattenTwo(a: Bytes, b: Bytes)
    ensures Flatten([a, b]) == a + b
  {
    var two: seq<Bytes> := [a, b];
    FlattenOne(b);
    assert two[1..] == [b];
    assert Flatten(two) == two[0] + Flatten(two[1..]);
  }

  lemma {:induction false} FlattenFive(f: seq<Bytes>)
    requires |f| == 5
    ensures |Flatten(f)| == |f[0]| + |f[1]| + |f[2]| + |f[3]| + |f[4]|
  {
    FlattenSnoc(f, 0);
    FlattenSnoc(f, 1);
    FlattenSnoc(f, 2);
    FlattenSnoc(f, 3);
    FlattenSnoc(f, 4);
    assert f[..5] == f;
  }

  lemma {:induction false} SizeOfRaw(b: RawL2Buffers)
    requires RawWidths(b)
    ensures TotalSize(RawL2Fields(b)) == 48 + |b.args|
  {
    FlattenFive(RawL2Fields(b));
  }

  lemma {:induction false} SizeOfL2(b: L2Buffers)
    requires RawWidths(b.raw)
    ensures TotalSize(L2Fields(b)) == 64 + |b.raw.args| + |b.signature|
  {
    SizeOfRaw(b.raw);
    assert |Table(RawL2Fields(b.raw))| == 48 + |b.raw.args|;
    assert |BytesVec(b.signature)| == 4 + |b.signature|;
    assert L2Fields(b) == [Table(RawL2Fields(b.raw)), BytesVec(b.signature)];
    FlattenTwo(Table(RawL2Fields(b.raw)), BytesVec(b.signature));
    assert |Flatten(L2Fields(b))| == 52 + |b.raw.args| + |b.signature|;
    assert HeaderSize(L2Fields(b)) == 12;
  }

  /** The accepted transaction, with everything the rewriting puts into it. */
  lemma {:induction false} Rewritten(tx: PolyTx, config: Config, accounts: map<Bytes, Account>, fromId: string)
    requires PolyTxToGwTx(tx, config, accounts, fromId, true).Ok?
    ensures IsEthNativeTransfer(accounts, tx.to).Ok?
    ensures var l2 := PolyTxToGwTx(tx, config, accounts, fromId, true).value;
            var native := IsEthNativeTransfer(accounts, tx.to).value;
            && (native ==> |tx.to| == 20)
            && tx.v != []
            && |tx.data| <= ARGS_MAX_SIZE
            && Writable(FromBE(tx.gasLimit), FromBE(tx.gasPrice), FromBE(tx.value), tx.data)
            && l2.raw.args == ToHex(LayoutOf(tx, native))
            && ParseHexNumber(l2.raw.nonce) == Ok(FromBE(tx.nonce))
            && l2.raw.chainId == ChainIdText(tx.v, config)
            && l2.signature == ToHex(GetSignature(tx))
  {
    var native := IsEthNativeTransfer(accounts, tx.to).value;
    if native {
      NativeHasAddress(accounts, tx.to);
    }
    DataIsSmall(tx);
    ConcatArgsIsLayout(tx, native);
    NonceText(tx.nonce);
  }

  function LayoutOf(tx: PolyTx, native: bool): Bytes {
    Layout(tx.to == [], FromBE(tx.gasLimit), FromBE(tx.gasPrice), FromBE(tx.value), tx.data,
           NativeRecipient(tx, native))
  }

  /** What the indexer makes of the submitted values. */
  function Indexed(tx: PolyTx, chainId: nat): IndexedTx {
    IndexedTx(Some(chainId), if tx.to == [] then None else Some(tx.to), FromBE(tx.value), FromBE(tx.nonce),
              FromBE(tx.gasLimit), FromBE(tx.gasPrice), tx.data, RecoveryByte(tx.v), tx.r, tx.s)
  }

  lemma {:induction false} FilteredValues(tx: PolyTx, raw: RawL2Values, native: bool, toScriptArgs: Bytes)
    requires Writable(FromBE(tx.gasLimit), FromBE(tx.gasPrice), FromBE(tx.value), tx.data)
    requires |tx.data| <= ARGS_MAX_SIZE
    requires |tx.r| == |tx.s| == 32
    requires native ==> |tx.to| == 20
    requires raw.nonce == FromBE(tx.nonce) && raw.args == LayoutOf(tx, native)
    requires ScriptMatches(tx, native, toScriptArgs)
    ensures FilterPolyjuice(L2Values(raw, GetSignature(tx)), toScriptArgs) == Ok(Indexed(tx, raw.chainId))
  {
    DecodeOfLayout(tx.to == [], FromBE(tx.gasLimit), FromBE(tx.gasPrice), FromBE(tx.value), tx.data,
                   NativeRecipient(tx, native));
    var signature := GetSignature(tx);
    assert signature[..32] == tx.r && signature[32..64] == tx.s && signature[64] == RecoveryByte(tx.v);
  }

  lemma {:induction false} OneByte(b: Bytes, n: Byte)
    requires Minimal(b) && n > 0
    ensures FromBE(b) == n <==> b == [n]
  {
    ToBEOfFromBE(b);
    assert ToBE(0) == [];
    assert ToBE(n) == [n];
    var one: Bytes := [n];
    assert one[..0] == [];
    assert FromBE(one) == n;
  }

  /** `v` rebuilt from a recovery byte, as arithmetic. */
  lemma {:induction false} RebuiltNumber(v: nat, recovery: Byte, config: nat)
    requires recovery == 0 || recovery == 1
    requires v < UINT64_LIMIT ==>
               (recovery == (if v % 2 == 0 then 1 else 0) <==> v % 2 == 0 || v < DOUBLE_EXACT)
    ensures var base := if v == 27 || v == 28 || config == 0 then 27 else 35 + config * 2;
            recovery + base < UINT64_LIMIT && recovery + base == v <==> VSurvives(v, config)
  {
  }

  /** The rebuilt `v` is the original one exactly when `VSurvives`. */
  lemma {:induction false} RebuiltV(vBytes: Bytes, config: nat, tx: IndexedTx)
    requires vBytes != [] && Minimal(vBytes)
    requires tx.v == RecoveryByte(vBytes)
    requires tx.chainId == Some(ChainIdOf(vBytes, config))
    ensures AddChainReplayProtection(tx) == Ok(FromBE(vBytes)) <==> VSurvives(FromBE(vBytes), config)
  {
    var v := FromBE(vBytes);
    OneByte(vBytes, 0x1b);
    OneByte(vBytes, 0x1c);
    if v < UINT64_LIMIT {
      RecoveryByteIsParity(vBytes);
    }
    RebuiltNumber(v, RecoveryByte(vBytes), config);
  }

  function ChainIdOf(v: Bytes, config: nat): nat {
    if v == [0x1b] || v == [0x1c] then 0 else config
  }

  lemma {:induction false} RebuiltFields(f: seq<Bytes>, tx: PolyTx, chainId: nat, v: nat)
    requires |f| == 9
    requires tx == PolyTx(f[0], f[1], f[2], f[3], f[4], f[5], f[6], PadLeft(f[7], 32), PadLeft(f[8], 32))
    ensures RlpFields(Indexed(tx, chainId), v) == f <==> CanonicalIntegers(f) && v == FromBE(f[6])
  {
    var g := RlpFields(Indexed(tx, chainId), v);
    CanonOfPadLeft(f[7], 32);
    CanonOfPadLeft(f[8], 32);
    ReencodedIffCanonical(f);
    ToBEOfFromBE(f[6]);
    FromBEOfToBE(v);
    assert g == [Canon(f[0]), Canon(f[1]), Canon(f[2]), f[3], Canon(f[4]), f[5], ToBE(v), Canon(f[7]), Canon(f[8])];
  }

  lemma {:induction false} RebuiltIff(raw: Bytes, config: nat)
    requires EthRawTxToPolyTx(raw).Ok?
    requires EthRawTxToPolyTx(raw).value.v != []
    ensures var f, tx := DecodeList(raw).value, EthRawTxToPolyTx(raw).value;
            ToRlp(Indexed(tx, ChainIdOf(tx.v, config))) == Ok(raw)
            <==> CanonicalIntegers(f) && VSurvives(FromBE(f[6]), config)
  {
    var f, tx := DecodeList(raw).value, EthRawTxToPolyTx(raw).value;
    var itx := Indexed(tx, ChainIdOf(tx.v, config));
    var rebuilt := AddChainReplayProtection(itx);
    if rebuilt.Ok? {
      RebuiltFields(f, tx, ChainIdOf(tx.v, config), rebuilt.value);
      EncodeFieldsIff(raw, f, RlpFields(itx, rebuilt.value));
    }
    if CanonicalIntegers(f) {
      RebuiltV(f[6], config, itx);
    }
  }

  /**
   Every accepted transaction is read back without error, whether it creates a contract, is a native
   transfer or calls a contract, with the fields it had.
   */
  lemma {:induction false} SubmittedIsIndexed(raw: Bytes, config: Config, accounts: map<Bytes, Account>,
        fromId: string, toScriptArgs: Bytes)
    requires Submit(raw, config, accounts, fromId, true).Ok?
    requires ParseHexNumber(config.chainId).Ok?
    requires var tx := EthRawTxToPolyTx(raw).value;
             ScriptMatches(tx, IsEthNativeTransfer(accounts, tx.to) == Ok(true), toScriptArgs)
    ensures var tx := EthRawTxToPolyTx(raw).value;
            && tx.v != []
            && ReadSubmitted(Submit(raw, config, accounts, fromId, true).value, toScriptArgs)
               == Ok(Indexed(tx, ChainIdOf(tx.v, ParseHexNumber(config.chainId).value)))
  {
    hide ParseHexNumber, ToHex, NormalizeL2Transaction, GetSignature, FilterPolyjuice, DecodeRust, DecodeList;
    var tx := EthRawTxToPolyTx(raw).value;
    var l2 := PolyTxToGwTx(tx, config, accounts, fromId, true).value;
    Rewritten(tx, config, accounts, fromId);
    var native := IsEthNativeTransfer(accounts, tx.to).value;
    SerializedValues(l2, LayoutOf(tx, native), FromBE(tx.nonce), GetSignature(tx));
    SignatureFits(raw);
    ZeroText();
    FilteredValues(tx, ReadL2(FromHex(SerializeL2Text(l2).value).value).value.raw, native, toScriptArgs);
  }

  lemma {:induction false} ZeroText()
    ensures ParseHexNumber("0x0") == Ok(0)
  {
    NonceText([]);
  }

  /** `r` and `s` are padded to 32 bytes, so only longer ones could make the signature too long. */
  lemma {:induction false} SignatureFits(raw: Bytes)
    requires EthRawTxToPolyTx(raw).Ok?
    requires |GetSignature(EthRawTxToPolyTx(raw).value)| == 65
    ensures |EthRawTxToPolyTx(raw).value.r| == |EthRawTxToPolyTx(raw).value.s| == 32
  {
  }

  // ----- which transactions are accepted -----

  predicate FitsText(text: string, width: nat) {
    ParseHexNumber(text).Ok? && ParseHexNumber(text).value < Pow256(width)
  }

  /** The requests that get through, when the checks that need other services agree. */
  predicate Acceptable(tx: PolyTx, config: Config, accounts: map<Bytes, Account>, fromId: string) {
    && Encodable(ReencodedFields(tx)) && |EncodeList(ReencodedFields(tx))| <= 131072
    && IntrinsicGas(tx.to == [], tx.data) <= FromBE(tx.gasLimit) <= 50000000
    && (FromBE(tx.v) in {27, 28} || FromBE(tx.v) >= 35)
    && (tx.to == [] || IsAddress(tx.to))
    && FromBE(tx.gasPrice) < UINT128_LIMIT && FromBE(tx.value) < UINT128_LIMIT && FromBE(tx.nonce) < UINT32_LIMIT
    && |tx.r| == 32 && |tx.s| == 32
    && FitsText(ChainIdText(tx.v, config), U64) && FitsText(fromId, U32)
    && ToIdOf(accounts, config.creatorId, tx.to).Ok? && FitsText(ToIdOf(accounts, config.creatorId, tx.to).value, U32)
  }

  /** 20 bytes, not all of them zero. */
  predicate IsAddress(to: Bytes) {
    |to| == 20 && exists i :: 0 <= i < 20 && to[i] != 0
  }

  lemma {:induction false} ZeroAddress(to: Bytes)
    requires |to| == 20
    ensures to != ZERO_ADDRESS <==> IsAddress(to)
  {
    PadLeftZeros([], 20);
    if !IsAddress(to) {
      assert to == ZERO_ADDRESS;
    }
  }

  lemma {:induction false} RecipientAccepted(accounts: map<Bytes, Account>, creatorId: string, to: Bytes)
    ensures ToIdOf(accounts, creatorId, to).Ok? <==> to == [] || IsAddress(to)
    ensures ToIdOf(accounts, creatorId, to).Ok? ==> IsEthNativeTransfer(accounts, to).Ok?
  {
    if |to| == 20 {
      ZeroAddress(to);
    }
  }

  lemma {:induction false} SigningAccepted(tx: PolyTx)
    ensures SigningFields(tx).Ok? <==> FromBE(tx.v) in {27, 28} || FromBE(tx.v) >= 35
  {
  }

  lemma {:induction false} ArgsAccepted(tx: PolyTx, native: bool)
    requires |tx.data| < UINT32_LIMIT && IntrinsicGas(tx.to == [], tx.data) <= FromBE(tx.gasLimit) <= RPC_MAX_GAS_LIMIT
    ensures ConcatArgs(tx, native).Ok? <==> FromBE(tx.gasPrice) < UINT128_LIMIT && FromBE(tx.value) < UINT128_LIMIT
  {
    hide Encode, LE, DataGas;
  }

  /** The rewriting succeeds exactly for these. */
  lemma {:induction false} RewritingAccepted(tx: PolyTx, config: Config, accounts: map<Bytes, Account>, fromId: string)
    ensures PolyTxToGwTx(tx, config, accounts, fromId, true).Ok? <==>
            && Encodable(ReencodedFields(tx)) && |EncodeList(ReencodedFields(tx))| <= MAX_TRANSACTION_SIZE
            && IntrinsicGas(tx.to == [], tx.data) <= FromBE(tx.gasLimit) <= RPC_MAX_GAS_LIMIT
            && (FromBE(tx.v) in {27, 28} || FromBE(tx.v) >= 35)
            && (tx.to == [] || IsAddress(tx.to))
            && FromBE(tx.gasPrice) < UINT128_LIMIT && FromBE(tx.value) < UINT128_LIMIT
  {
    hide ConcatArgs, IsEthNativeTransfer, ToIdOf, SigningFields, ReencodedFields, Encodable, EncodeList,
         IntrinsicGas, FromBE, GetSignature, ToHex;
    RecipientAccepted(accounts, config.creatorId, tx.to);
    SigningAccepted(tx);
    if EncodePolyjuiceTransaction(tx).Ok? && |EncodePolyjuiceTransaction(tx).value| <= MAX_TRANSACTION_SIZE {
      DataIsSmall(tx);
      if IntrinsicGas(tx.to == [], tx.data) <= FromBE(tx.gasLimit) <= RPC_MAX_GAS_LIMIT {
        ArgsAccepted(tx, true);
        ArgsAccepted(tx, false);
      }
    }
  }

  lemma {:induction false} NumberAccepted(width: nat, text: string)
    ensures NormalizeHexNumber(width, text).Ok? <==> FitsText(text, width)
  {
  }

  lemma {:induction false} DataAccepted(length: int, b: Bytes)
    ensures NormalizeRawData(length, ToHex(b)).Ok? <==> length <= 0 || |b| == length
  {
    FromHexOfToHex(b);
  }

  /** The bytes of a Godwoken transaction are built exactly when its numbers fit their widths. */
  lemma {:induction false} SerializationAccepted(t: L2Transaction, args: Bytes, signature: Bytes)
    requires t.raw.args == ToHex(args) && t.signature == ToHex(signature)
    ensures SerializeL2Text(t).Ok? <==>
            && FitsText(t.raw.chainId, U64) && FitsText(t.raw.fromId, U32) && FitsText(t.raw.toId, U32)
            && FitsText(t.raw.nonce, U32) && |signature| == 65
  {
    hide NormalizeHexNumber, NormalizeRawData, FitsText, ToHex;
    NumberAccepted(U64, t.raw.chainId);
    NumberAccepted(U32, t.raw.fromId);
    NumberAccepted(U32, t.raw.toId);
    NumberAccepted(U32, t.raw.nonce);
    DataAccepted(-1, args);
    DataAccepted(65, signature);
  }

  lemma {:induction false} NonceAccepted(nonce: Bytes)
    ensures FitsText(NumberText(nonce), U32) <==> FromBE(nonce) < UINT32_LIMIT
  {
    NonceText(nonce);
    WordLimits();
  }

  /** A transaction is submitted exactly when it is acceptable. */
  lemma {:induction false} SubmittedIffAcceptable(raw: Bytes, config: Config, accounts: map<Bytes, Account>,
        fromId: string)
    requires EthRawTxToPolyTx(raw).Ok?
    ensures Submit(raw, config, accounts, fromId, true).Ok?
            <==> Acceptable(EthRawTxToPolyTx(raw).value, config, accounts, fromId)
  {
    hide FromBE, ToHex, FitsText, ReencodedFields, EncodeList, Encodable, IntrinsicGas, DecodeList, ToIdOf,
         NormalizeL2Transaction, L2Fields, Table, PolyTxToGwTx;
    var tx := EthRawTxToPolyTx(raw).value;
    RewritingAccepted(tx, config, accounts, fromId);
    RecipientAccepted(accounts, config.creatorId, tx.to);
    if PolyTxToGwTx(tx, config, accounts, fromId, true).Ok? {
      AcceptedOnceRewritten(tx, config, accounts, fromId);
      var l2 := PolyTxToGwTx(tx, config, accounts, fromId, true).value;
      if SerializeL2Text(l2).Ok? {
        FromHexOfToHex(Table(L2Fields(NormalizeL2Transaction(l2).value)));
      }
    }
  }

  lemma {:induction false} AcceptedOnceRewritten(tx: PolyTx, config: Config, accounts: map<Bytes, Account>,
        fromId: string)
    requires PolyTxToGwTx(tx, config, accounts, fromId, true).Ok?
    requires |tx.r| >= 32 && |tx.s| >= 32
    ensures ToIdOf(accounts, config.creatorId, tx.to).Ok?
    ensures SerializeL2Text(PolyTxToGwTx(tx, config, accounts, fromId, true).value).Ok? <==>
            && FromBE(tx.nonce) < UINT32_LIMIT
            && |tx.r| == 32 && |tx.s| == 32
            && FitsText(ChainIdText(tx.v, config), U64) && FitsText(fromId, U32)
            && FitsText(ToIdOf(accounts, config.creatorId, tx.to).value, U32)
  {
    hide SerializeL2Text, FitsText, ToHex, LayoutOf, FromBE, ReencodedFields, ConcatArgs, SigningFields, ToIdOf,
         Writable;
    Rewritten(tx, config, accounts, fromId);
    var l2 := PolyTxToGwTx(tx, config, accounts, fromId, true).value;
    SerializationAccepted(l2, LayoutOf(tx, IsEthNativeTransfer(accounts, tx.to).value), GetSignature(tx));
    NonceAccepted(tx.nonce);
    assert |GetSignature(tx)| == |tx.r| + |tx.s| + 1;
  }

  /**
   Where an accepted call goes: a contract's own account, without a recipient in the arguments; for an
   address without a contract the creator account, with the address appended; for a creation the creator
   account alone.
   */
  lemma {:induction false} CallsAreRouted(tx: PolyTx, config: Config, accounts: map<Bytes, Account>, fromId: string)
    requires PolyTxToGwTx(tx, config, accounts, fromId, true).Ok?
    ensures var l2 := PolyTxToGwTx(tx, config, accounts, fromId, true).value;
            var isContract := tx.to in accounts && tx.to != [] && !accounts[tx.to].isEoa;
            && l2.raw.fromId == fromId
            && l2.raw.toId == (if isContract then accounts[tx.to].id else config.creatorId)
            && l2.raw.args == ToHex(LayoutOf(tx, tx.to != [] && !isContract))
  {
    hide Acceptable, ConcatArgs, Layout, Encode, SigningFields, IntrinsicGas, ReencodedFields, EncodeList, Encodable,
         FromBE, GetSignature, ToHex, Writable, ParseHexNumber;
    Rewritten(tx, config, accounts, fromId);
    RecipientAccepted(accounts, config.creatorId, tx.to);
  }

  // ----- the results -----

  /** The contract at the recipient, if the call goes to one, has its address in its script arguments. */
  predicate RecipientScript(tx: PolyTx, accounts: map<Bytes, Account>, toScriptArgs: Bytes) {
    ScriptMatches(tx, IsEthNativeTransfer(accounts, tx.to) == Ok(true), toScriptArgs)
  }

  /**
   The main result. Every acceptable raw transaction is submitted and indexed without error, and the
   indexer rebuilds its raw bytes exactly when the integer fields had no leading zeros and `VSurvives`.
   */
  lemma {:induction false} RawBytesRebuilt(raw: Bytes, config: Config, accounts: map<Bytes, Account>, fromId: string,
                                           toScriptArgs: Bytes)
    requires EthRawTxToPolyTx(raw).Ok? && Acceptable(EthRawTxToPolyTx(raw).value, config, accounts, fromId)
    requires ParseHexNumber(config.chainId).Ok?
    requires RecipientScript(EthRawTxToPolyTx(raw).value, accounts, toScriptArgs)
    ensures var submitted := Submit(raw, config, accounts, fromId, true);
            && submitted.Ok?
            && var indexed := ReadSubmitted(submitted.value, toScriptArgs);
               && indexed.Ok?
               && (ToRlp(indexed.value) == Ok(raw)
                   <==> && CanonicalIntegers(DecodeList(raw).value)
                        && VSurvives(FromBE(DecodeList(raw).value[6]), ParseHexNumber(config.chainId).value))
  {
    hide Acceptable, VSurvives, Submit, ReadSubmitted, ToRlp, ScriptMatches, CanonicalIntegers, ParseHexNumber;
    SubmittedIffAcceptable(raw, config, accounts, fromId);
    SubmittedIsIndexed(raw, config, accounts, fromId, toScriptArgs);
    RebuiltIff(raw, ParseHexNumber(config.chainId).value);
  }

  /** The hash the indexer stores is then the hash that `sendRawTransaction` returned, and only then. */
  lemma {:induction false} EthTxHashPreserved(raw: Bytes, config: Config, accounts: map<Bytes, Account>, fromId: string,
                                              toScriptArgs: Bytes, keccak: Bytes -> Bytes)
    requires EthRawTxToPolyTx(raw).Ok? && Acceptable(EthRawTxToPolyTx(raw).value, config, accounts, fromId)
    requires ParseHexNumber(config.chainId).Ok?
    requires RecipientScript(EthRawTxToPolyTx(raw).value, accounts, toScriptArgs)
    requires forall a, b :: keccak(a) == keccak(b) ==> a == b
    ensures var submitted := Submit(raw, config, accounts, fromId, true);
            && submitted.Ok?
            && var indexed := ReadSubmitted(submitted.value, toScriptArgs);
               && indexed.Ok?
               && (ToRlp(indexed.value).Ok? && keccak(ToRlp(indexed.value).value) == keccak(raw)
                   <==> && CanonicalIntegers(DecodeList(raw).value)
                        && VSurvives(FromBE(DecodeList(raw).value[6]), ParseHexNumber(config.chainId).value))
  {
    hide Acceptable, VSurvives, Submit, ReadSubmitted, ToRlp, ScriptMatches, CanonicalIntegers, ParseHexNumber;
    RawBytesRebuilt(raw, config, accounts, fromId, toScriptArgs);
  }

  /**
   From the fields to the rebuilt bytes: every canonical legacy transaction within the limits, whose `v`
   survives on this chain, is accepted, submitted, indexed and rebuilt byte for byte.
   */
  lemma {:induction false} CanonicalTransactionSurvives(f: seq<Bytes>, config: Config, accounts: map<Bytes, Account>,
                                                        fromId: string, toScriptArgs: Bytes)
    requires |f| == 9 && Encodable(f) && CanonicalIntegers(f)
    requires ParseHexNumber(config.chainId).Ok? && VSurvives(FromBE(f[6]), ParseHexNumber(config.chainId).value)
    requires var tx := PolyTx(f[0], f[1], f[2], f[3], f[4], f[5], f[6], PadLeft(f[7], 32), PadLeft(f[8], 32));
             && Acceptable(tx, config, accounts, fromId)
             && RecipientScript(tx, accounts, toScriptArgs)
    ensures var submitted := Submit(EncodeList(f), config, accounts, fromId, true);
            && submitted.Ok?
            && ReadSubmitted(submitted.value, toScriptArgs).Ok?
            && ToRlp(ReadSubmitted(submitted.value, toScriptArgs).value) == Ok(EncodeList(f))
  {
    hide Acceptable, VSurvives, Submit, ReadSubmitted, ToRlp, ScriptMatches, CanonicalIntegers;
    var raw := EncodeList(f);
    DecodeInvertsEncode(raw, f);
    RawBytesRebuilt(raw, config, accounts, fromId, toScriptArgs);
  }

  // ----- the conditions can be met -----

  lemma {:induction false} EncodedLength(fields: seq<Bytes>, m: nat)
    requires EncodableStrings(fields) && forall i :: 0 <= i < |fields| ==> |fields[i]| <= m
    ensures |EncodeStrings(fields)| <= |fields| * (m + 9)
  {
    if fields != [] {
      EncodedLength(fields[1..], m);
      NextProduct(|fields| - 1, m + 9);
    }
  }

  lemma {:induction false} NextProduct(q: nat, u: nat)
    ensures (q + 1) * u == q * u + u
  {
  }

  lemma {:induction false} ShortListEncodable(f: seq<Bytes>)
    requires |f| == 9 && forall i :: 0 <= i < 9 ==> |f[i]| <= 3
    ensures Encodable(f) && |EncodeList(f)| <= 117
  {
    WordLimits();
    forall i | 0 <= i < 9 ensures EncodableLength(|f[i]|) {
      ToBELength(|f[i]|, 1);
    }
    EncodedLength(f, 3);
    ToBELength(|EncodeStrings(f)|, 1);
  }

  lemma {:induction false} SmallNumberText(n: nat, text: string, width: nat)
    requires n < 256 <= Pow256(width) && text == ToHexNumber(n)
    ensures FitsText(text, width)
  {
    ParseOfToHexNumber(n);
  }

  lemma {:induction false} Digit(b: Byte)
    ensures FromBE([b]) == b
  {
    var one: Bytes := [b];
    assert one[..0] == [];
  }

  lemma {:induction false} GasOfExample(gasLimit: Bytes)
    requires gasLimit == [1, 0, 0]
    ensures FromBE(gasLimit) == 65536 && IntrinsicGas(true, []) == 53000
  {
    var two: Bytes := [1, 0];
    Digit(1);
    assert gasLimit[..2] == two && two[..1] == [1];
    assert FromBE(two) == FromBE([1]) * 256 + 0;
  }

  /** A contract creation signed without replay protection, as an example. */
  lemma {:induction false} AcceptableExample() returns (f: seq<Bytes>, config: Config, fromId: string)
    ensures |f| == 9 && Encodable(f) && CanonicalIntegers(f)
    ensures ParseHexNumber(config.chainId).Ok? && VSurvives(FromBE(f[6]), ParseHexNumber(config.chainId).value)
    ensures Acceptable(PolyTx(f[0], f[1], f[2], f[3], f[4], f[5], f[6], PadLeft(f[7], 32), PadLeft(f[8], 32)),
          config, map[], fromId)
  {
    hide FromBE, ToBE, Canon, PadLeft, EncodeStrings, EncodeList, Encodable, ParseHexNumber, ToHexNumber, DataGas,
         IntrinsicGas, FitsText, Pow256, ReencodedFields;
    var one: Bytes := [1];
    var v: Bytes := [0x1b];
    var gasLimit: Bytes := [1, 0, 0];
    f := [[], [], gasLimit, [], [], [], v, one, one];
    config, fromId := Config(ToHexNumber(1), ToHexNumber(2)), ToHexNumber(3);
    var tx := PolyTx(f[0], f[1], f[2], f[3], f[4], f[5], f[6], PadLeft(f[7], 32), PadLeft(f[8], 32));
    ShortListEncodable(f);
    ReencodedExample(f, tx);
    Digit(0x1b);
    EmptyIsZero();
    GasOfExample(gasLimit);
    WordLimits();
    ParseOfToHexNumber(1);
    SmallNumberText(2, config.creatorId, U32);
    SmallNumberText(3, fromId, U32);
    ZeroTextFits();
  }

  lemma {:induction false} EmptyIsZero()
    ensures FromBE([]) == 0
  {
  }

  lemma {:induction false} ZeroTextFits()
    ensures FitsText("0x0", U64)
  {
    ZeroText();
  }

  lemma {:induction false} ReencodedExample(f: seq<Bytes>, tx: PolyTx)
    requires |f| == 9 && CanonicalIntegers(f)
    requires tx == PolyTx(f[0], f[1], f[2], f[3], f[4], f[5], f[6], PadLeft(f[7], 32), PadLeft(f[8], 32))
    ensures ReencodedFields(tx) == f
  {
    hide Canon, PadLeft;
    CanonOfPadLeft(f[7], 32);
    CanonOfPadLeft(f[8], 32);
    ReencodedIffCanonical(f);
  }
}
