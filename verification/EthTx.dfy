/**
 A raw Ethereum transaction on both sides of the system: decoded and rewritten as a Godwoken transaction
 (`convert-tx.ts`); read by the Rust indexer (`indexer.rs`) and rebuilt as RLP to recompute its hash
 (`types.rs`).

 Hex text made from a Buffer is represented by the bytes it spells, so "0x" is the empty string.
 */
module EthTx {
  import opened Wrappers
  import opened Binary
  import opened Hex
  import opened Rlp
  import opened PolyjuiceArgs
  import opened Codec
  import opened Molecule
  import opened Gas
  import Seqs

  const MAX_TRANSACTION_SIZE: nat := 131072

  datatype PolyTx = PolyTx(
    nonce: Bytes, gasPrice: Bytes, gasLimit: Bytes, to: Bytes, value: Bytes, data: Bytes,
    v: Bytes, r: Bytes, s: Bytes)

  // ----- convert-tx.ts: decoding and re-encoding -----

  function EthRawTxToPolyTx(raw: Bytes): Result<PolyTx> {
    var f :- DecodeList(raw);
    if |f| != 9 then Err("decode eth raw transaction data error")
    else Ok(PolyTx(f[0], f[1], f[2], f[3], f[4], f[5], f[6], PadLeft(f[7], 32), PadLeft(f[8], 32)))
  }

  /** What `rlp.encode(toRlpNumber(text))` writes for the bytes of `text`. */
  function Canon(b: Bytes): Bytes {
    ToBE(FromBE(b))
  }

  function ReencodedFields(tx: PolyTx): (f: seq<Bytes>)
    ensures |f| == 9
  {
    [Canon(tx.nonce), Canon(tx.gasPrice), Canon(tx.gasLimit), tx.to, Canon(tx.value), tx.data,
     Canon(tx.v), Canon(tx.r), Canon(tx.s)]
  }

  function EncodeFields(fields: seq<Bytes>): Result<Bytes> {
    if Encodable(fields) then Ok(EncodeList(fields)) else Err("rlp: too long")
  }

  function EncodePolyjuiceTransaction(tx: PolyTx): Result<Bytes> {
    EncodeFields(ReencodedFields(tx))
  }

  /** The fields RLP treats as integers. */
  predicate CanonicalIntegers(f: seq<Bytes>)
    requires |f| == 9
  {
    && Minimal(f[0]) && Minimal(f[1]) && Minimal(f[2]) && Minimal(f[4])
    && Minimal(f[6]) && Minimal(f[7]) && Minimal(f[8])
  }

  lemma {:induction false} CanonOfPadLeft(b: Bytes, width: nat)
    ensures Canon(PadLeft(b, width)) == Canon(b)
    ensures Canon(b) == b <==> Minimal(b)
  {
    FromBEOfPadLeft(b, width);
    ToBEOfFromBE(b);
  }

  lemma {:induction false} ReencodedIffCanonical(f: seq<Bytes>)
    requires |f| == 9
    ensures [Canon(f[0]), Canon(f[1]), Canon(f[2]), f[3], Canon(f[4]), f[5], Canon(f[6]), Canon(f[7]), Canon(f[8])] == f
            <==> CanonicalIntegers(f)
  {
    ToBEOfFromBE(f[0]);
    ToBEOfFromBE(f[1]);
    ToBEOfFromBE(f[2]);
    ToBEOfFromBE(f[4]);
    ToBEOfFromBE(f[6]);
    ToBEOfFromBE(f[7]);
    ToBEOfFromBE(f[8]);
  }

  lemma {:induction false} EncodeFieldsIff(raw: Bytes, f: seq<Bytes>, g: seq<Bytes>)
    requires DecodeList(raw) == Ok(f)
    ensures EncodeFields(g) == Ok(raw) <==> g == f
  {
    DecodeInvertsEncode(raw, f);
    if Encodable(g) {
      EncodeListInjective(f, g);
    }
  }

  /**
   Re-encoding a decoded transaction gives the raw bytes back exactly when no integer field had a
   leading zero, although `r` and `s` were padded in between.
   */
  lemma {:induction false} ReencodingIsIdentity(raw: Bytes)
    requires EthRawTxToPolyTx(raw).Ok?
    ensures EncodePolyjuiceTransaction(EthRawTxToPolyTx(raw).value) == Ok(raw)
            <==> CanonicalIntegers(DecodeList(raw).value)
  {
    var f := DecodeList(raw).value;
    CanonOfPadLeft(f[7], 32);
    CanonOfPadLeft(f[8], 32);
    ReencodedIffCanonical(f);
    EncodeFieldsIff(raw, f, ReencodedFields(EthRawTxToPolyTx(raw).value));
  }

  /**
   The auto-create cache: the key is written from the hash of the re-encoding and looked up by the hash
   of the raw bytes, so for a collision-free hash an entry is found exactly for canonical input.
   */
  lemma {:induction false} AutoCreateKeyIsFound(raw: Bytes, keccak: Bytes -> Bytes)
    requires EthRawTxToPolyTx(raw).Ok?
    requires EncodePolyjuiceTransaction(EthRawTxToPolyTx(raw).value).Ok?
    requires forall a, b :: keccak(a) == keccak(b) ==> a == b
    ensures keccak(EncodePolyjuiceTransaction(EthRawTxToPolyTx(raw).value).value) == keccak(raw)
            <==> CanonicalIntegers(DecodeList(raw).value)
  {
    ReencodingIsIdentity(raw);
  }

  // ----- convert-tx.ts: signature and signing message -----

  /** Below 2^53 a double holds every integer. */
  const DOUBLE_EXACT: nat := 0x20_0000_0000_0000

  /** The unit in the last place of a double holding `n`. */
  function Ulp(n: nat): (u: nat)
    ensures u > 0
    ensures n >= DOUBLE_EXACT ==> u % 2 == 0
  {
    if n < DOUBLE_EXACT then 1 else 2 * Ulp(n / 2)
  }

  /** `Number(n)`: round half to even. */
  function RoundToDouble(n: nat): nat {
    RoundTo(n, Ulp(n))
  }

  function RoundTo(n: nat, u: nat): (r: nat)
    requires u > 0
    ensures u == 1 ==> r == n
    ensures u % 2 == 0 ==> r % 2 == 0
    ensures r <= n + u
  {
    var q, rest := n / u, n % u;
    NearestMultiples(n, q, rest, u);
    if 2 * rest < u || (2 * rest == u && q % 2 == 0) then q * u else (q + 1) * u
  }

  lemma {:induction false} NearestMultiples(n: nat, q: nat, rest: nat, u: nat)
    requires n == q * u + rest && rest < u
    ensures (q + 1) * u == q * u + u
    ensures u == 1 ==> q * u == n
    ensures u % 2 == 0 ==> (q * u) % 2 == 0 && ((q + 1) * u) % 2 == 0
  {
    if u % 2 == 0 {
      EvenMultiple(q, u);
      EvenMultiple(q + 1, u);
    }
  }

  function Pow2(k: nat): (p: nat)
    ensures p > 0
  {
    if k == 0 then 1 else 2 * Pow2(k - 1)
  }

  /** From 2^1024 on a double is Infinity. */
  const DOUBLE_EXPONENT: nat := 1024

  /** `+tx.v % 2 === 0`; NaN and Infinity are not even. */
  predicate IsEvenNumber(v: Bytes) {
    v != [] && RoundToDouble(FromBE(v)) < Pow2(DOUBLE_EXPONENT) && RoundToDouble(FromBE(v)) % 2 == 0
  }

  function RecoveryByte(v: Bytes): Byte {
    if IsEvenNumber(v) then 1 else 0
  }

  function GetSignature(tx: PolyTx): Bytes {
    tx.r + tx.s + [RecoveryByte(tx.v)]
  }

  /** Doubles hold integers below 2^53 exactly, and above that only even ones. */
  lemma {:induction false} DoubleParity(n: nat)
    ensures n < DOUBLE_EXACT ==> RoundToDouble(n) == n
    ensures n >= DOUBLE_EXACT ==> RoundToDouble(n) % 2 == 0
    ensures n < UINT64_LIMIT ==> RoundToDouble(n) < Pow2(DOUBLE_EXPONENT)
  {
    if n < UINT64_LIMIT {
      RoundBound(n);
      Pow2Large();
    }
  }

  lemma {:induction false} EvenMultiple(q: nat, u: nat)
    requires u % 2 == 0
    ensures (q * u) % 2 == 0
  {
    assert q * u == 2 * (q * (u / 2));
  }

  lemma {:induction false} UlpBound(n: nat)
    ensures n > 0 ==> Ulp(n) <= n
    ensures n == 0 ==> Ulp(n) == 1
  {
    if n >= DOUBLE_EXACT {
      UlpBound(n / 2);
    }
  }

  lemma {:induction false} RoundBound(n: nat)
    ensures RoundToDouble(n) <= 2 * n + 1
  {
    UlpBound(n);
  }

  lemma {:induction false} Pow2Monotone(j: nat, k: nat)
    requires j <= k
    ensures Pow2(j) <= Pow2(k)
  {
    if j < k {
      Pow2Monotone(j, k - 1);
    }
  }

  lemma {:induction false} Pow2OfBytes(k: nat)
    ensures Pow2(8 * k) == Pow256(k)
  {
    if k != 0 {
      Pow2OfBytes(k - 1);
      EightDoublings(8 * k - 8);
    }
  }

  lemma {:induction false} FourDoublings(k: nat)
    ensures Pow2(k + 4) == 16 * Pow2(k)
  {
    assert Pow2(k + 2) == 2 * Pow2(k + 1);
    assert Pow2(k + 4) == 2 * Pow2(k + 3);
  }

  lemma {:induction false} EightDoublings(k: nat)
    ensures Pow2(k + 8) == 256 * Pow2(k)
  {
    FourDoublings(k);
    FourDoublings(k + 4);
  }

  lemma {:induction false} Pow2Large()
    ensures 2 * UINT64_LIMIT + 1 < Pow2(DOUBLE_EXPONENT)
  {
    Pow2OfBytes(U128);
    WordLimits();
    Pow2Monotone(8 * U128, DOUBLE_EXPONENT);
  }

  /** The parity the signature records is the true one exactly for even `v` and for `v` below 2^53. */
  lemma {:induction false} RecoveryByteIsParity(v: Bytes)
    requires v != [] && FromBE(v) < UINT64_LIMIT
    ensures RecoveryByte(v) == (if FromBE(v) % 2 == 0 then 1 else 0)
            <==> FromBE(v) % 2 == 0 || FromBE(v) < 0x20_0000_0000_0000
    ensures FromBE(v) % 2 == 0 ==> RecoveryByte(v) == 1
  {
    DoubleParity(FromBE(v));
  }

  function SixFields(tx: PolyTx): (six: seq<Bytes>)
    ensures |six| == 6
  {
    [Canon(tx.nonce), Canon(tx.gasPrice), Canon(tx.gasLimit), tx.to, Canon(tx.value), tx.data]
  }

  /** The list that `calcMessage` hashes. */
  function SigningFields(tx: PolyTx): Result<seq<Bytes>> {
    if tx.v == [] then Err("BigInt: SyntaxError") else
    var v := FromBE(tx.v);
    if v == 27 || v == 28 then Ok(SixFields(tx))
    else if v % 2 == 0 then
      if v < 36 then Err("negative chain id") else Ok(SixFields(tx) + [ToBE((v - 36) / 2), [], []])
    else
      if v < 35 then Err("negative chain id") else Ok(SixFields(tx) + [ToBE((v - 35) / 2), [], []])
  }

  lemma {:induction false} ChainIdShows(six: seq<Bytes>, c: nat, d: nat)
    requires six + [ToBE(c), [], []] == six + [ToBE(d), [], []]
    ensures c == d
  {
    FromBEOfToBE(c);
    FromBEOfToBE(d);
    assert (six + [ToBE(c), [], []])[|six|] == ToBE(c);
    assert (six + [ToBE(d), [], []])[|six|] == ToBE(d);
  }

  /** EIP-155: six fields without replay protection, else the chain id and two empty strings follow. */
  lemma {:induction false} SigningFieldsFollowEip155(tx: PolyTx, chainId: nat)
    requires tx.v != []
    ensures FromBE(tx.v) in {27, 28} ==> SigningFields(tx) == Ok(SixFields(tx))
    ensures FromBE(tx.v) !in {27, 28} ==>
              (SigningFields(tx) == Ok(SixFields(tx) + [ToBE(chainId), [], []])
               <==> FromBE(tx.v) in {35 + 2 * chainId, 36 + 2 * chainId})
  {
    var v := FromBE(tx.v);
    if v !in {27, 28} && SigningFields(tx) == Ok(SixFields(tx) + [ToBE(chainId), [], []]) {
      ChainIdShows(SixFields(tx), if v % 2 == 0 then (v - 36) / 2 else (v - 35) / 2, chainId);
    }
  }

  /** A field read as an integer from a canonical encoding. */
  predicate Spells(field: Bytes, n: nat) {
    FromBE(field) == n && Minimal(field)
  }

  /**
   What is signed: nonce, gas price, gas limit, recipient, value and data, in this order, and behind them
   nothing for a `v` of 27 or 28, and the chain id and two empty strings for any other.
   */
  lemma {:induction false} SigningItems(tx: PolyTx)
    ensures SigningFields(tx).Ok? <==> tx.v != [] && (FromBE(tx.v) in {27, 28} || FromBE(tx.v) >= 35)
    ensures SigningFields(tx).Ok? ==>
              var f := SigningFields(tx).value;
              && |f| == (if FromBE(tx.v) in {27, 28} then 6 else 9)
              && Spells(f[0], FromBE(tx.nonce))
              && Spells(f[1], FromBE(tx.gasPrice))
              && Spells(f[2], FromBE(tx.gasLimit))
              && f[3] == tx.to
              && Spells(f[4], FromBE(tx.value))
              && f[5] == tx.data
              && (|f| == 9 ==>
                    var chainId := FromBE(f[6]);
                    Spells(f[6], chainId) && FromBE(tx.v) in {35 + 2 * chainId, 36 + 2 * chainId}
                    && f[7] == [] && f[8] == [])
  {
    SixItems(tx);
    hide Canon, SixFields, Minimal, FromBE, ToBE;
    if SigningFields(tx).Ok? && FromBE(tx.v) !in {27, 28} {
      var v := FromBE(tx.v);
      FromBEOfToBE(if v % 2 == 0 then (v - 36) / 2 else (v - 35) / 2);
    }
  }

  lemma {:induction false} SixItems(tx: PolyTx)
    ensures var f := SixFields(tx);
            && Spells(f[0], FromBE(tx.nonce)) && Spells(f[1], FromBE(tx.gasPrice)) && Spells(f[2], FromBE(tx.gasLimit))
            && f[3] == tx.to && Spells(f[4], FromBE(tx.value)) && f[5] == tx.data
  {
    FromBEOfToBE(FromBE(tx.nonce));
    FromBEOfToBE(FromBE(tx.gasPrice));
    FromBEOfToBE(FromBE(tx.gasLimit));
    FromBEOfToBE(FromBE(tx.value));
  }

  /** Leading zeros are all that re-encoding changes: the numbers stay, and so do recipient and data. */
  lemma {:induction false} ReencodingKeepsValues(raw: Bytes)
    requires EthRawTxToPolyTx(raw).Ok?
    requires EncodePolyjuiceTransaction(EthRawTxToPolyTx(raw).value).Ok?
    ensures var f, encoded := DecodeList(raw).value, EncodePolyjuiceTransaction(EthRawTxToPolyTx(raw).value).value;
            var again := DecodeList(encoded);
            && again.Ok? && |again.value| == |f| == 9
            && again.value[3] == f[3] && again.value[5] == f[5]
            && forall i :: i in {0, 1, 2, 4, 6, 7, 8} ==> Spells(again.value[i], FromBE(f[i]))
  {
    var f, tx := DecodeList(raw).value, EthRawTxToPolyTx(raw).value;
    var again := ReencodedFields(tx);
    DecodeInvertsEncode(EncodeList(again), again);
    CanonOfPadLeft(f[7], 32);
    CanonOfPadLeft(f[8], 32);
    forall i | i in {0, 1, 2, 4, 6, 7, 8} ensures Spells(again[i], FromBE(f[i])) {
      FromBEOfToBE(FromBE(f[i]));
    }
  }

  // ----- convert-tx.ts: the Godwoken transaction -----

  datatype Account = Account(id: string, isEoa: bool)

  datatype Config = Config(chainId: string, creatorId: string)

  const ZERO_ADDRESS: Bytes := PadLeft([], 20)

  /** `ethAddressToAccountId` for a recipient. */
  function AccountOf(accounts: map<Bytes, Account>, to: Bytes): Result<Option<Account>> {
    if |to| != 20 then Err("Eth address format error")
    else if to == ZERO_ADDRESS then Err("zero address has no valid account_id")
    else Ok(if to in accounts then Some(accounts[to]) else None)
  }

  function IsEthNativeTransfer(accounts: map<Bytes, Account>, to: Bytes): Result<bool> {
    if |to| != 20 then Ok(false) else
    var account :- AccountOf(accounts, to);
    Ok(account.None? || account.value.isEoa)
  }

  function ToIdOf(accounts: map<Bytes, Account>, creatorId: string, to: Bytes): Result<string> {
    var native :- IsEthNativeTransfer(accounts, to);
    if to == [] || native then Ok(creatorId) else
    var account :- AccountOf(accounts, to);
    if account.None? then Err("to id not found by address") else Ok(account.value.id)
  }

  function UInt128Text(n: nat): Result<string> {
    if n >= UINT128_LIMIT then Err("u128 too large")
    else Ok(Encode(LE(n % UINT64_LIMIT, U64) + LE(n / UINT64_LIMIT, U64)))
  }

  /** The argument text that `polyTxToGwTx` glues together. */
  function ConcatArgs(tx: PolyTx, native: bool): Result<string> {
    var _ :- Need(tx.gasLimit != [], "BigInt: SyntaxError");
    var _ :- Need(FromBE(tx.gasLimit) < UINT64_LIMIT, "RangeError");
    var gasPrice :- UInt128Text(FromBE(tx.gasPrice));
    var value :- UInt128Text(FromBE(tx.value));
    var _ :- Need(|tx.data| < UINT32_LIMIT, "RangeError");
    Ok("0x" + (Encode(HEADER) + Encode([if tx.to == [] then 3 else 0])
               + Encode(LE(FromBE(tx.gasLimit), U64)) + gasPrice + value
               + Encode(LE(|tx.data|, U32)) + Encode(tx.data)
               + if native then Encode(tx.to) else ""))
  }

  /**
   `polyTxToGwTx`. `accepted` is the verdict of the checks that need other services: gas price or
   gasless rules, signature recovery and balances.
   */
  function PolyTxToGwTx(tx: PolyTx, config: Config, accounts: map<Bytes, Account>, fromId: string, accepted: bool)
    : Result<L2Transaction>
  {
    var encoded :- EncodePolyjuiceTransaction(tx);
    var _ :- Need(|encoded| <= MAX_TRANSACTION_SIZE, "oversized data");
    var _ :- Need(FromBE(tx.gasLimit) <= RPC_MAX_GAS_LIMIT, "gas limit exceeds rpc gas limit");
    var _ :- SigningFields(tx);
    var _ :- Need(accepted, "refused");
    var _ :- Need(IntrinsicGas(tx.to == [], tx.data) <= FromBE(tx.gasLimit), "intrinsic gas too low");
    var native :- IsEthNativeTransfer(accounts, tx.to);
    var toId :- ToIdOf(accounts, config.creatorId, tx.to);
    var args :- ConcatArgs(tx, native);
    Ok(L2Transaction(RawL2Transaction(ChainIdText(tx.v, config), fromId, toId, NumberText(tx.nonce), args),
                     ToHex(GetSignature(tx))))
  }

  function ChainIdText(v: Bytes, config: Config): string {
    if v == [0x1b] || v == [0x1c] then "0x0" else config.chainId
  }

  function NumberText(b: Bytes): string {
    if b == [] then "0x0" else ToHex(b)
  }

  /** The recipient in the arguments. */
  function NativeRecipient(tx: PolyTx, native: bool): Option<Bytes> {
    if native then Some(tx.to) else None
  }

  lemma {:induction false} UInt128TextIs(n: nat)
    requires n < UINT128_LIMIT
    ensures UInt128Text(n) == Ok(Encode(LE(n, U128)))
  {
    WordLimits();
    LEJoin(n % UINT64_LIMIT, n / UINT64_LIMIT, U64, U64);
  }

  lemma {:induction false} EncodeFour(a: Bytes, b: Bytes, c: Bytes, d: Bytes)
    ensures Encode(a + b + c + d) == Encode(a) + Encode(b) + Encode(c) + Encode(d)
  {
    EncodeConcat(a + b + c, d);
    EncodeConcat(a + b, c);
    EncodeConcat(a, b);
  }

  lemma {:induction false} EncodePieces(h: Bytes, kind: Bytes, gas: Bytes, price: Bytes, value: Bytes, size: Bytes,
        data: Bytes, to: Bytes)
    ensures Encode(h + kind + gas + price + value + size + data + to)
         == Encode(h) + Encode(kind) + Encode(gas) + Encode(price) + Encode(value) + Encode(size) + Encode(data)
            + Encode(to)
  {
    EncodeFour(h, kind, gas, price);
    EncodeFour(h + kind + gas + price, value, size, data);
    EncodeConcat(h + kind + gas + price + value + size + data, to);
  }

  lemma {:induction false} ConcatArgsPieces(tx: PolyTx, native: bool)
    requires ConcatArgs(tx, native).Ok?
    ensures Writable(FromBE(tx.gasLimit), FromBE(tx.gasPrice), FromBE(tx.value), tx.data)
    ensures ConcatArgs(tx, native).value
         == "0x" + (Encode(HEADER) + Encode([if tx.to == [] then 3 else 0]) + Encode(LE(FromBE(tx.gasLimit), U64))
                    + Encode(LE(FromBE(tx.gasPrice), U128)) + Encode(LE(FromBE(tx.value), U128))
                    + Encode(LE(|tx.data|, U32)) + Encode(tx.data) + Encode(if native then tx.to else []))
  {
    UInt128TextIs(FromBE(tx.gasPrice));
    UInt128TextIs(FromBE(tx.value));
  }

  /** The glued text spells the same bytes as the layout `buildPolyjuiceArgs` writes. */
  lemma {:induction false} ConcatArgsIsLayout(tx: PolyTx, native: bool)
    requires ConcatArgs(tx, native).Ok?
    ensures Writable(FromBE(tx.gasLimit), FromBE(tx.gasPrice), FromBE(tx.value), tx.data)
    ensures ConcatArgs(tx, native).value
         == ToHex(Layout(tx.to == [], FromBE(tx.gasLimit), FromBE(tx.gasPrice), FromBE(tx.value), tx.data,
                         NativeRecipient(tx, native)))
  {
    ConcatArgsPieces(tx, native);
    EncodePieces(HEADER, [if tx.to == [] then 3 else 0], LE(FromBE(tx.gasLimit), U64), LE(FromBE(tx.gasPrice), U128),
                 LE(FromBE(tx.value), U128), LE(|tx.data|, U32), tx.data, if native then tx.to else []);
  }

  // ----- the Rust side -----

  /** The columns of `types.rs::Transaction` that the hash depends on. */
  datatype IndexedTx = IndexedTx(
    chainId: Option<nat>, to: Option<Bytes>, value: nat, nonce: nat, gasLimit: nat, gasPrice: nat,
    data: Bytes, v: nat, r: Bytes, s: Bytes)

  /** The Polyjuice branch of `filter_single_transaction`; a panic of `copy_from_slice` is an `Err`. */
  function FilterPolyjuice(l2: L2Values, toScriptArgs: Bytes): Result<IndexedTx> {
    var signature := if |l2.signature| == 65 then l2.signature else PadLeft([], 65);
    var args :- DecodeRust(l2.raw.args);
    var _ :- Need(args.isCreate || args.to.Some? || |toScriptArgs| == 56, "panic: copy_from_slice");
    var to := if args.isCreate then None else if args.to.Some? then args.to else Some(toScriptArgs[36..]);
    Ok(IndexedTx(Some(l2.raw.chainId), to, args.value, l2.raw.nonce, args.gasLimit, args.gasPrice,
                 args.input, signature[64], signature[..32], signature[32..64]))
  }

  /** `add_chain_replay_protection`; release builds keep overflow checks, so an overflow panics. */
  function AddChainReplayProtection(tx: IndexedTx): Result<nat> {
    var base := if tx.chainId.Some? && tx.chainId.value != 0 then 35 + tx.chainId.value * 2 else 27;
    if tx.v + base < UINT64_LIMIT then Ok(tx.v + base) else Err("panic: attempt to add with overflow")
  }

  /** `getRealV`, which the API shows for an indexed transaction; other recovery bytes throw. */
  function GetRealV(v: nat, chainId: Option<nat>): Result<nat> {
    if v != 0 && v != 1 then Err("V value must be 0 / 1")
    else Ok(v + if chainId.None? || chainId.value == 0 then 27 else chainId.value * 2 + 35)
  }

  /** With chain id 0 or none `v` is 27 or 28, otherwise 35 or 36 plus twice the chain id, by the parity shown. */
  lemma {:induction false} ShownV(v: nat, chainId: Option<nat>)
    ensures GetRealV(v, chainId).Ok? <==> v <= 1
    ensures v <= 1 && (chainId == None || chainId == Some(0)) ==> GetRealV(v, chainId) == Ok([27, 28][v])
    ensures forall c: nat {:trigger Some(c)} :: v <= 1 && chainId == Some(c) && c > 0 ==>
              GetRealV(v, chainId) == Ok([35 + 2 * c, 36 + 2 * c][v])
  {
  }

  /** The hash uses the same `v`, as long as it fits 64 bits. */
  lemma {:induction false} HashedV(tx: IndexedTx)
    requires tx.v <= 1
    ensures AddChainReplayProtection(tx)
         == if GetRealV(tx.v, tx.chainId).value < 0x1_0000_0000_0000_0000 then GetRealV(tx.v, tx.chainId)
            else Err("panic: attempt to add with overflow")
  {
  }

  /** The API shows the `v` that went into the hash, whenever both sides accept the transaction. */
  lemma {:induction false} RealVIsHashed(tx: IndexedTx)
    requires GetRealV(tx.v, tx.chainId).Ok? && AddChainReplayProtection(tx).Ok?
    ensures GetRealV(tx.v, tx.chainId) == AddChainReplayProtection(tx)
  {
  }

  function RlpFields(tx: IndexedTx, v: nat): (f: seq<Bytes>)
    ensures |f| == 9
  {
    [ToBE(tx.nonce), ToBE(tx.gasPrice), ToBE(tx.gasLimit), if tx.to.Some? then tx.to.value else [],
     ToBE(tx.value), tx.data, ToBE(v), ToBE(FromBE(tx.r)), ToBE(FromBE(tx.s))]
  }

  function ToRlp(tx: IndexedTx): Result<Bytes> {
    var v :- AddChainReplayProtection(tx);
    EncodeFields(RlpFields(tx, v))
  }

  /** The unbounded list of the Rust `RlpStream`: items are appended, the header comes last. */
  class RlpStream {
    var items: seq<Bytes>
    var out: Bytes

    ghost predicate Valid()
      reads this
    {
      EncodableStrings(items) && out == EncodeStrings(items)
    }

    constructor BeginUnboundedList()
      ensures Valid() && items == []
    {
      items, out := [], [];
    }

    method Append(item: Bytes)
      requires Valid() && EncodableLength(|item|)
      modifies this
      ensures Valid() && items == old(items) + [item]
    {
      EncodeStringsSnoc(items, item);
      items, out := items + [item], out + EncodeString(item);
    }

    method FinalizeUnboundedList() returns (list: Bytes)
      requires Valid() && Encodable(items)
      ensures list == EncodeList(items)
    {
      list := Header(LIST_BASE, |out|) + out;
    }
  }

  lemma {:induction false} EncodeStringsSnoc(items: seq<Bytes>, item: Bytes)
    requires EncodableStrings(items) && EncodableLength(|item|)
    ensures EncodableStrings(items + [item])
    ensures EncodeStrings(items + [item]) == EncodeStrings(items) + EncodeString(item)
  {
    if items == [] {
      Seqs.Single(item);
      assert items + [item] == [item];
      assert EncodeStrings([item]) == EncodeString(item) + [];
    } else {
      EncodeStringsSnoc(items[1..], item);
      Seqs.TailOfConcat(items, [item]);
      Seqs.Assoc(EncodeString(items[0]), EncodeStrings(items[1..]), EncodeString(item));
    }
  }

  /** What `append` can take: `to_rlp` succeeds only when every item has an encodable length. */
  lemma {:induction false} ItemsEncodable(tx: IndexedTx)
    requires ToRlp(tx).Ok?
    ensures var v := AddChainReplayProtection(tx).value;
            && EncodableLength(|ToBE(tx.nonce)|) && EncodableLength(|ToBE(tx.gasPrice)|)
            && EncodableLength(|ToBE(tx.gasLimit)|) && (tx.to.Some? ==> EncodableLength(|tx.to.value|))
            && EncodableLength(|ToBE(tx.value)|) && EncodableLength(|tx.data|) && EncodableLength(|ToBE(v)|)
            && EncodableLength(|ToBE(FromBE(tx.r))|) && EncodableLength(|ToBE(FromBE(tx.s))|)
  {
    var f := RlpFields(tx, AddChainReplayProtection(tx).value);
    assert forall i :: 0 <= i < 9 ==> EncodableLength(|f[i]|);
    assert EncodableLength(|f[0]|) && EncodableLength(|f[1]|) && EncodableLength(|f[2]|) && EncodableLength(|f[3]|)
        && EncodableLength(|f[4]|) && EncodableLength(|f[5]|) && EncodableLength(|f[6]|) && EncodableLength(|f[7]|)
        && EncodableLength(|f[8]|);
  }

  /** The first four appends of `to_rlp`. */
  method AppendCall(tx: IndexedTx, s: RlpStream)
    requires ToRlp(tx).Ok? && s.Valid() && s.items == []
    modifies s
    ensures s.Valid()
    ensures s.items == [ToBE(tx.nonce), ToBE(tx.gasPrice), ToBE(tx.gasLimit), if tx.to.Some? then tx.to.value else []]
  {
    hide ToBE, FromBE, EncodeStrings, EncodeString;
    ItemsEncodable(tx);
    s.Append(ToBE(tx.nonce));
    s.Append(ToBE(tx.gasPrice));
    s.Append(ToBE(tx.gasLimit));
    match tx.to {
      case Some(addr) => s.Append(addr);
      case None =>
        EmptyEncodable();
        s.Append([]);
    }
  }

  /** The other five. */
  method AppendRest(tx: IndexedTx, v: nat, s: RlpStream)
    requires ToRlp(tx).Ok? && AddChainReplayProtection(tx) == Ok(v) && s.Valid()
    modifies s
    ensures s.Valid()
    ensures s.items == old(s.items) + [ToBE(tx.value), tx.data, ToBE(v), ToBE(FromBE(tx.r)), ToBE(FromBE(tx.s))]
  {
    hide ToBE, FromBE, EncodeStrings, EncodeString;
    ItemsEncodable(tx);
    var rNum, sNum := FromBE(tx.r), FromBE(tx.s);
    s.Append(ToBE(tx.value));
    s.Append(tx.data);
    s.Append(ToBE(v));
    s.Append(ToBE(rNum));
    s.Append(ToBE(sNum));
  }

  /** `to_rlp`, appending field by field; no overflow and no oversized field, as `Ok` says. */
  method ToRlpStream(tx: IndexedTx) returns (rlp: Bytes)
    requires ToRlp(tx).Ok?
    ensures Ok(rlp) == ToRlp(tx)
  {
    var v := AddChainReplayProtection(tx).value;
    var s := new RlpStream.BeginUnboundedList();
    AppendCall(tx, s);
    AppendRest(tx, v, s);
    assert s.items == RlpFields(tx, v);
    rlp := s.FinalizeUnboundedList();
  }

  lemma {:induction false} EmptyEncodable()
    ensures EncodableLength(0)
  {
    assert ToBE(0) == [];
  }
}
