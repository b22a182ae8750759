/**
 Gas normalisation (`normalizer.ts`), intrinsic gas (`util.ts`) and the balance checks (`validator.ts`).
 Quantities are the numbers their hex texts stand for; a missing field is `None`.
 */
module Gas {
  import opened Wrappers
  import opened Binary

  const TX_GAS: nat := 21000
  const TX_GAS_CONTRACT_CREATION: nat := 53000
  const TX_DATA_ZERO_GAS: nat := 4
  const TX_DATA_NONE_ZERO_GAS: nat := 16
  const POLY_MAX_BLOCK_GAS_LIMIT: nat := 12500000
  const RPC_MAX_GAS_LIMIT: nat := 50000000

  // ----- intrinsic gas -----

  function ByteGas(b: Byte): nat {
    if b == 0 then TX_DATA_ZERO_GAS else TX_DATA_NONE_ZERO_GAS
  }

  function DataGas(data: Bytes): nat {
    if data == [] then 0 else DataGas(data[..|data| - 1]) + ByteGas(data[|data| - 1])
  }

  /** Each byte of the call data has its own price; creating a contract costs more to begin with. */
  function IntrinsicGas(isCreate: bool, data: Bytes): nat {
    (if isCreate then TX_GAS_CONTRACT_CREATION else TX_GAS) + DataGas(data)
  }

  /** A recipient that is missing or "0x" means creation. */
  predicate IsCreate(to: Option<Bytes>) {
    to.None? || to.value == []
  }

  /** The positions of the zero bytes, or of all other bytes. */
  function Positions(data: Bytes, zero: bool): set<nat> {
    set i | 0 <= i < |data| && (data[i] == 0) == zero
  }

  lemma {:induction false} DataGasIs(data: Bytes)
    ensures DataGas(data) == 4 * |Positions(data, true)| + 16 * |Positions(data, false)|
  {
    if data == [] {
      assert Positions(data, true) == {} && Positions(data, false) == {};
    } else {
      var n := |data| - 1;
      var init := data[..n];
      DataGasIs(init);
      assert Positions(data, true) == Positions(init, true) + if data[n] == 0 then {n} else {};
      assert Positions(data, false) == Positions(init, false) + if data[n] == 0 then {} else {n};
    }
  }

  /**
   What a transaction costs before it runs: 53000 for a creation and 21000 otherwise, 4 for every zero
   byte of the data and 16 for every other byte.
   */
  lemma {:induction false} IntrinsicGasIs(to: Option<Bytes>, data: Bytes)
    ensures IntrinsicGas(IsCreate(to), data)
         == (if to == None || to == Some([]) then 53000 else 21000)
            + 4 * |set i | 0 <= i < |data| && data[i] == 0|
            + 16 * |set i | 0 <= i < |data| && data[i] != 0|
  {
    DataGasIs(data);
    assert Positions(data, true) == set i | 0 <= i < |data| && data[i] == 0;
    assert Positions(data, false) == set i | 0 <= i < |data| && data[i] != 0;
  }

  method CalcIntrinsicGas(to: Option<Bytes>, input: Option<Bytes>) returns (gas: nat)
    ensures gas == IntrinsicGas(IsCreate(to), if input.Some? then input.value else [])
  {
    if IsCreate(to) {
      gas := TX_GAS_CONTRACT_CREATION;
    } else {
      gas := TX_GAS;
    }
    if input.Some? {
      var buf := input.value;
      var nonZeroLen := 0;
      for i := 0 to |buf|
        invariant nonZeroLen <= i
        invariant DataGas(buf[..i]) == (i - nonZeroLen) * TX_DATA_ZERO_GAS + nonZeroLen * TX_DATA_NONE_ZERO_GAS
      {
        if buf[i] != 0 {
          nonZeroLen := nonZeroLen + 1;
        }
        assert buf[..i + 1][..i] == buf[..i];
      }
      var zeroLen := |buf| - nonZeroLen;
      gas := gas + zeroLen * TX_DATA_ZERO_GAS + nonZeroLen * TX_DATA_NONE_ZERO_GAS;
      assert buf[..|buf|] == buf;
    }
  }

  // ----- balance -----

  function RequiredBalance(value: nat, gas: nat, gasPrice: nat): nat {
    gas * gasPrice + value
  }

  predicate EnoughBalance(balance: nat, value: nat, gas: nat, gasPrice: nat) {
    RequiredBalance(value, gas, gasPrice) <= balance
  }

  function GetMaxGasByBalance(balance: nat, gasPrice: nat, value: nat): Result<nat> {
    if gasPrice == 0 then Err("gasPrice should > 0")
    else if balance < value then Err("insufficient funds for transfer")
    else Ok((balance - value) / gasPrice)
  }

  /** It is the largest affordable amount of gas: an amount is affordable exactly when it is no larger. */
  lemma {:induction false} MaxGasIsLargest(balance: nat, gasPrice: nat, value: nat, gas: nat)
    requires GetMaxGasByBalance(balance, gasPrice, value).Ok?
    ensures EnoughBalance(balance, value, gas, gasPrice) <==>
            gas <= GetMaxGasByBalance(balance, gasPrice, value).value
    ensures gas * gasPrice + value <= balance <==> gas <= GetMaxGasByBalance(balance, gasPrice, value).value
  {
    var available := balance - value;
    var max := available / gasPrice;
    assert available == max * gasPrice + available % gasPrice;
    if gas < max {
      NextMultiple(gas, max, gasPrice);
    } else if gas > max {
      NextMultiple(max, gas, gasPrice);
    }
  }

  /** When any gas can be paid for: never below the value, always for a zero price. */
  lemma {:induction false} BalanceBounds(balance: nat, value: nat, gasPrice: nat)
    ensures GetMaxGasByBalance(balance, gasPrice, value).Ok? <==> gasPrice > 0 && value <= balance
    ensures forall gas: nat :: EnoughBalance(balance, value, gas, gasPrice) ==> value <= balance
    ensures gasPrice == 0 ==>
              forall gas: nat :: EnoughBalance(balance, value, gas, gasPrice) <==> value <= balance
  {
  }

  function MinGas(a: nat, b: nat): nat {
    if b < a then b else a
  }

  // ----- eth_estimateGas -----

  /**
   `gasless` is None when the entrypoint is not configured or the call is not gasless, else whether
   `verifyGaslessTransaction` accepts the call.
   */
  method NormalizeEstimateGasTx(to: Option<Bytes>, data: Option<Bytes>, gasPrice: nat, value: nat,
                                requested: Option<nat>, gasless: Option<bool>, balance: nat)
    returns (r: Result<nat>)
    ensures var intrinsic := IntrinsicGas(IsCreate(to), if data.Some? then data.value else []);
            && (r.Ok? <==> gasless != Some(false)
                           && (gasPrice > 0 ==> EnoughBalance(balance, value, intrinsic, gasPrice)))
            && (r.Ok? ==> r.value >= intrinsic)
            && (r.Ok? && gasPrice > 0 ==> EnoughBalance(balance, value, r.value, gasPrice))
            && (r.Ok? ==>
                  var wanted := if requested.Some? then requested.value else 12500000;
                  r.value == wanted
                  || (wanted < intrinsic && r.value == intrinsic)
                  || (gasPrice > 0 && !EnoughBalance(balance, value, wanted, gasPrice)
                      && !EnoughBalance(balance, value, r.value + 1, gasPrice)))
  {
    var gas := if requested.Some? then requested.value else POLY_MAX_BLOCK_GAS_LIMIT;
    var gasLow := CalcIntrinsicGas(to, data);
    if gas < gasLow {
      gas := gasLow;
    }
    if gasless == Some(false) {
      return Err("gasless transaction refused");
    }
    if gasPrice > 0 {
      var gasCap := GetMaxGasByBalance(balance, gasPrice, value);
      if gasCap.Err? {
        assert !EnoughBalance(balance, value, gasLow, gasPrice);
        return Err(gasCap.reason);
      }
      MaxGasIsLargest(balance, gasPrice, value, gasLow);
      if gasCap.value < gasLow {
        return Err("balance available gas not enough");
      }
      MaxGasIsLargest(balance, gasPrice, value, gas);
      if gas > gasCap.value {
        MaxGasIsLargest(balance, gasPrice, value,
                        if requested.Some? then requested.value else POLY_MAX_BLOCK_GAS_LIMIT);
        MaxGasIsLargest(balance, gasPrice, value, gasCap.value + 1);
        gas := gasCap.value;
      }
      MaxGasIsLargest(balance, gasPrice, value, gas);
    }
    return Ok(gas);
  }

  // ----- eth_call -----

  /**
   A requested limit is kept. Without one the limit is the block limit for a zero price, and otherwise the
   largest affordable limit up to the block limit, so that the balance check that follows cannot refuse it.
   A call is refused exactly for a limit out of bounds, for the balance, or by the gasless check.
   */
  method NormalizeCallTx(to: Option<Bytes>, data: Option<Bytes>, price: Option<nat>, value: nat,
                         requested: Option<nat>, gasless: Option<bool>, balance: nat)
    returns (r: Result<nat>)
    ensures r.Ok? ==>
              && IntrinsicGas(IsCreate(to), if data.Some? then data.value else []) <= r.value <= 50000000
              && (price.Some? ==> EnoughBalance(balance, value, r.value, price.value))
    ensures requested.Some? ==>
              && (r.Ok? ==> r.value == requested.value)
              && (r.Ok? <==> && gasless != Some(false)
                             && IntrinsicGas(IsCreate(to), if data.Some? then data.value else [])
                                <= requested.value <= 50000000
                             && (price.Some? ==> EnoughBalance(balance, value, requested.value, price.value)))
    ensures requested.None? && (price.None? || price.value == 0) ==>
              && (r.Ok? ==> r.value == 12500000)
              && (r.Ok? <==> && gasless != Some(false)
                             && IntrinsicGas(IsCreate(to), if data.Some? then data.value else [])
                                <= 12500000
                             && (price.Some? ==> value <= balance))
    ensures requested.None? && price.Some? && price.value > 0 ==>
              && (r.Ok? ==>
                    var affordable := GetMaxGasByBalance(balance, price.value, value);
                    affordable.Ok? && r.value == MinGas(12500000, affordable.value))
              && (r.Ok? && r.value < 12500000 ==>
                    !EnoughBalance(balance, value, r.value + 1, price.value))
              && (r.Ok? <==> && gasless != Some(false)
                             && var intrinsic := IntrinsicGas(IsCreate(to), if data.Some? then data.value else []);
                                intrinsic <= 12500000
                                && EnoughBalance(balance, value, intrinsic, price.value))
  {
    hide EnoughBalance, IntrinsicGas, GetMaxGasByBalance;
    var gasPrice := if price.Some? then price.value else 0;
    BalanceBounds(balance, value, gasPrice);
    var gas: nat;
    if requested.Some? {
      gas := requested.value;
    } else if gasPrice == 0 {
      gas := POLY_MAX_BLOCK_GAS_LIMIT;
    } else {
      var cap := GetMaxGasByBalance(balance, gasPrice, value);
      if cap.Err? {
        return Err(cap.reason);
      }
      gas := MinGas(POLY_MAX_BLOCK_GAS_LIMIT, cap.value);
      MaxGasIsLargest(balance, gasPrice, value, gas);
      MaxGasIsLargest(balance, gasPrice, value, gas + 1);
    }
    if gas > RPC_MAX_GAS_LIMIT {
      return Err("gas limit exceeds rpc gas limit");
    }
    if gasless == Some(false) {
      return Err("gasless transaction refused");
    }
    var intrinsic := CalcIntrinsicGas(to, data);
    if gasPrice > 0 && balance >= value {
      MaxGasIsLargest(balance, gasPrice, value, intrinsic);
    }
    if gas < intrinsic {
      return Err("intrinsic gas too low");
    }
    if price.Some? && !EnoughBalance(balance, value, gas, gasPrice) {
      return Err("insufficient balance");
    }
    return Ok(gas);
  }
}
