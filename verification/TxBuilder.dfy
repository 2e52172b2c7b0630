/** `create_signed_tx` of node/tx.py, and its agreement with `validate_transaction`. */
module TxBuilder {
  import opened Model
  import opened CoinParams
  import opened Utxos

  /** One entry of the sender's list of spendable outputs. */
  datatype Coin = Coin(point: OutPoint, value: int, address: string)

  datatype BuildResult = Built(inputs: seq<TxInput>, outputs: seq<TxOutput>) | Insufficient(have: int, need: int)

  function CoinSum(coins: seq<Coin>): int
  {
    if coins == [] then 0 else CoinSum(coins[..|coins| - 1]) + coins[|coins| - 1].value
  }

  /** How many coins are taken, given that n are: one more until the sum covers the need or the list ends. */
  function Taken(coins: seq<Coin>, need: int, n: nat): (m: nat)
    requires n <= |coins|
    ensures n <= m <= |coins|
    decreases |coins| - n
  {
    if n == |coins| || (n > 0 && CoinSum(coins[..n]) >= need) then n else Taken(coins, need, n + 1)
  }

  function Payment(total: int, amount: int, fee: int, toAddress: string, changeAddress: string): seq<TxOutput>
  {
    var change := total - amount - fee;
    if change > 0 then [TxOutput(amount, toAddress), TxOutput(change, changeAddress)] else [TxOutput(amount, toAddress)]
  }

  function Unsigned(coins: seq<Coin>, pubkey: string): seq<TxInput>
  {
    seq(|coins|, i requires 0 <= i < |coins| => TxInput(coins[i].point.txid, coins[i].point.index, "", pubkey))
  }

  function Signed(ins: seq<TxInput>, signature: string): seq<TxInput>
  {
    seq(|ins|, i requires 0 <= i < |ins| => ins[i].(signature := signature))
  }

  function Build(c: Crypto, chainId: int, key: string, coins: seq<Coin>, toAddress: string, amount: int,
                 changeAddress: string, fee: int): BuildResult
  {
    var taken := coins[..Taken(coins, amount + fee, 0)];
    var total := CoinSum(taken);
    if total < amount + fee then Insufficient(total, amount + fee)
    else
      var outs := Payment(total, amount, fee, toAddress, changeAddress);
      var ins := Unsigned(taken, c.publicKey(key));
      Built(Signed(ins, c.sign(key, Body(chainId, ins, outs))), outs)
  }

  /** `create_signed_tx`: accumulate inputs until they cover amount and fee, add change, sign every input. */
  method CreateSignedTx(c: Crypto, chainId: int, key: string, coins: seq<Coin>, toAddress: string, amount: int,
                        changeAddress: string, fee: int) returns (result: BuildResult)
    ensures result == Build(c, chainId, key, coins, toAddress, amount, changeAddress, fee)
  {
    var pubkey := c.publicKey(key);
    var inputs: seq<TxInput> := [];
    var total := 0;
    var i := 0;
    while i < |coins|
      invariant i <= |coins| && inputs == Unsigned(coins[..i], pubkey) && total == CoinSum(coins[..i])
      invariant Taken(coins, amount + fee, i) == Taken(coins, amount + fee, 0)
      invariant i > 0 ==> total < amount + fee
    {
      assert coins[..i + 1][..i] == coins[..i];
      inputs := inputs + [TxInput(coins[i].point.txid, coins[i].point.index, "", pubkey)];
      total := total + coins[i].value;
      i := i + 1;
      assert inputs == Unsigned(coins[..i], pubkey) && total == CoinSum(coins[..i]);
      if total >= amount + fee { break; }
    }
    assert Taken(coins, amount + fee, 0) == i;
    hide CoinSum, Taken;
    if total < amount + fee { return Insufficient(total, amount + fee); }
    var outputs := [TxOutput(amount, toAddress)];
    var change := total - amount - fee;
    if change > 0 { outputs := outputs + [TxOutput(change, changeAddress)]; }
    var body := Body(chainId, inputs, outputs);
    var signedInputs: seq<TxInput> := [];
    for j := 0 to |inputs|
      invariant signedInputs == Signed(inputs, c.sign(key, body))[..j]
    {
      signedInputs := signedInputs + [inputs[j].(signature := c.sign(key, body))];
    }
    assert Signed(inputs, c.sign(key, body))[..|inputs|] == Signed(inputs, c.sign(key, body));
    assert outputs == Payment(total, amount, fee, toAddress, changeAddress);
    result := Built(signedInputs, outputs);
  }

  /** The prefix taken is the shortest non-empty one that covers the need. */
  lemma {:induction false} TakenShortest(coins: seq<Coin>, need: int, n: nat, m: nat)
    requires n <= |coins| && n <= m && 0 < m < Taken(coins, need, n)
    ensures CoinSum(coins[..m]) < need
    decreases |coins| - n
  {
    if n < m { TakenShortest(coins, need, n + 1, m); }
  }

  lemma {:induction false} TakenCovers(coins: seq<Coin>, need: int, n: nat)
    requires n <= |coins|
    ensures Taken(coins, need, n) < |coins| ==> Taken(coins, need, n) > 0
                                                && CoinSum(coins[..Taken(coins, need, n)]) >= need
    decreases |coins| - n
  {
    if !(n == |coins| || (n > 0 && CoinSum(coins[..n]) >= need)) { TakenCovers(coins, need, n + 1); }
  }

  lemma {:induction false} CoinSumMono(coins: seq<Coin>, m: nat)
    requires m <= |coins| && forall i :: 0 <= i < |coins| ==> coins[i].value >= 0
    ensures CoinSum(coins[..m]) <= CoinSum(coins)
    decreases |coins|
  {
    if m < |coins| {
      CoinSumMono(coins[..|coins| - 1], m);
      assert coins[..|coins| - 1][..m] == coins[..m];
    } else {
      assert coins[..m] == coins;
    }
  }

  /** The builder takes the shortest non-empty covering prefix, and fails exactly when there is none;
      on non-negative values, exactly when the whole list cannot cover amount and fee. */
  lemma BuildSelection(c: Crypto, chainId: int, key: string, coins: seq<Coin>, toAddress: string, amount: int,
                       changeAddress: string, fee: int)
    ensures var r := Build(c, chainId, key, coins, toAddress, amount, changeAddress, fee);
            var need := amount + fee;
            && (r.Built? && coins != [] ==>
                  && 0 < |r.inputs| <= |coins| && CoinSum(coins[..|r.inputs|]) >= need
                  && forall m :: 0 < m < |r.inputs| ==> CoinSum(coins[..m]) < need)
            && (coins != [] ==> (r.Insufficient? <==> forall m :: 0 < m <= |coins| ==> CoinSum(coins[..m]) < need))
            && ((forall i :: 0 <= i < |coins| ==> coins[i].value >= 0) ==> (r.Insufficient? <==> CoinSum(coins) < need))
  {
    var need := amount + fee;
    var t := Taken(coins, need, 0);
    TakenCovers(coins, need, 0);
    assert coins[..|coins|] == coins;
    forall m | 0 < m < t ensures CoinSum(coins[..m]) < need { TakenShortest(coins, need, 0, m); }
    if forall i :: 0 <= i < |coins| ==> coins[i].value >= 0 { CoinSumMono(coins, t); }
  }

  lemma OutSumTwo(a: TxOutput, b: TxOutput)
    ensures OutSum([a]) == a.value && OutSum([a, b]) == a.value + b.value
  {
    assert [a, b][..1] == [a] && [a][..0] == [];
  }

  lemma PaymentSum(total: int, amount: int, fee: int, toAddress: string, changeAddress: string)
    requires total >= amount + fee
    ensures OutSum(Payment(total, amount, fee, toAddress, changeAddress)) == total - fee
  {
    OutSumTwo(TxOutput(amount, toAddress), TxOutput(total - amount - fee, changeAddress));
  }

  /** A built transaction leaves exactly the fee. */
  lemma BuildFeeExact(c: Crypto, chainId: int, key: string, coins: seq<Coin>, toAddress: string, amount: int,
                      changeAddress: string, fee: int)
    ensures var r := Build(c, chainId, key, coins, toAddress, amount, changeAddress, fee);
            r.Built? ==> |r.inputs| <= |coins| && CoinSum(coins[..|r.inputs|]) - OutSum(r.outputs) == fee
  {
    var taken := coins[..Taken(coins, amount + fee, 0)];
    if CoinSum(taken) >= amount + fee { PaymentSum(CoinSum(taken), amount, fee, toAddress, changeAddress); }
  }

  /** What a list of outputs pays to an address. */
  function PaidTo(outs: seq<TxOutput>, address: string): int
  {
    if outs == [] then 0
    else
      PaidTo(outs[..|outs| - 1], address)
      + if outs[|outs| - 1].address == address then outs[|outs| - 1].value else 0
  }

  lemma PaidToTwo(a: TxOutput, b: TxOutput, address: string)
    ensures PaidTo([a], address) == if a.address == address then a.value else 0
    ensures PaidTo([a, b], address) == PaidTo([a], address) + if b.address == address then b.value else 0
  {
    assert [a, b][..1] == [a] && [a][..0] == [];
  }

  /** The recipient gets the amount first, the change address the rest if there is any, no one else anything. */
  ghost predicate Pays(outs: seq<TxOutput>, toAddress: string, amount: int, changeAddress: string, rest: int)
  {
    && rest >= 0 && |outs| == (if rest > 0 then 2 else 1)
    && outs[0] == TxOutput(amount, toAddress)
    && forall a :: PaidTo(outs, a) == (if a == toAddress then amount else 0) + if a == changeAddress then rest else 0
  }

  /** Who gets what: the recipient the amount, in the first output; the change address what the coins leave over, in
      a second output that is there exactly if that is positive; no one else anything. A failure reports the value
      of all the coins and the need. Inputs name the coins taken, in order, all under the sender's key. */
  lemma BuildPays(c: Crypto, chainId: int, key: string, coins: seq<Coin>, toAddress: string, amount: int,
                  changeAddress: string, fee: int)
    ensures var r := Build(c, chainId, key, coins, toAddress, amount, changeAddress, fee);
            && (r.Built? ==>
                  && |r.inputs| <= |coins|
                  && Pays(r.outputs, toAddress, amount, changeAddress, CoinSum(coins[..|r.inputs|]) - amount - fee)
                  && forall i :: 0 <= i < |r.inputs| ==>
                       Key(r.inputs[i]) == coins[i].point && r.inputs[i].pubkey == c.publicKey(key))
            && (r.Insufficient? ==> r.have == CoinSum(coins) && r.need == amount + fee && r.have < r.need)
  {
    var t := Taken(coins, amount + fee, 0);
    TakenCovers(coins, amount + fee, 0);
    assert coins[..|coins|] == coins;
    var rest := CoinSum(coins[..t]) - amount - fee;
    forall a ensures PaidTo([TxOutput(amount, toAddress)], a) == if a == toAddress then amount else 0 {
      PaidToTwo(TxOutput(amount, toAddress), TxOutput(rest, changeAddress), a);
    }
    forall a
      ensures PaidTo([TxOutput(amount, toAddress), TxOutput(rest, changeAddress)], a) ==
              (if a == toAddress then amount else 0) + (if a == changeAddress then rest else 0)
    {
      PaidToTwo(TxOutput(amount, toAddress), TxOutput(rest, changeAddress), a);
    }
    hide PaidTo, CoinSum, Taken;
  }

  // ----- validation accepts what the builder makes -----

  /** What a key signs, its public key verifies: the only law assumed of the signature scheme. */
  ghost predicate SignaturesVerify(c: Crypto)
  {
    forall key, body :: c.verify(c.publicKey(key), body, c.sign(key, body))
  }

  /** The set holds the coin as listed, locked to this key. */
  predicate Owned(c: Crypto, u: Utxo, key: string, coin: Coin)
  {
    coin.point in u.outs && u.outs[coin.point] == TxOutput(coin.value, c.address(c.publicKey(key)))
  }

  predicate Mature(u: Utxo, coin: Coin, height: int, maturity: int)
  {
    coin.point.txid in u.coinbaseAt ==>
      height >= u.coinbaseAt[coin.point.txid] + if maturity > 0 then maturity else if maturity == 0 then 100 else 0
  }

  predicate DistinctPoints(coins: seq<Coin>)
  {
    forall i, j :: 0 <= i < j < |coins| ==> coins[i].point != coins[j].point
  }

  lemma {:induction false} OwnedSum(c: Crypto, u: Utxo, key: string, coins: seq<Coin>, ins: seq<TxInput>)
    requires |ins| == |coins|
    requires forall i :: 0 <= i < |coins| ==> Owned(c, u, key, coins[i]) && Key(ins[i]) == coins[i].point
    ensures PresentSum(u.outs, ins) == CoinSum(coins)
  {
    if coins != [] {
      var n := |coins| - 1;
      assert Owned(c, u, key, coins[n]);
      OwnedSum(c, u, key, coins[..n], ins[..n]);
    }
  }

  lemma SignedInput(c: Crypto, chainId: int, key: string, coins: seq<Coin>, outs: seq<TxOutput>, u: Utxo,
                    height: int, maturity: int, i: nat)
    requires SignaturesVerify(c) && i < |coins| && Owned(c, u, key, coins[i])
    ensures var ins := Unsigned(coins, c.publicKey(key));
            var signed := Signed(ins, c.sign(key, Body(chainId, ins, outs)));
            && Key(signed[i]) == coins[i].point
            && (InputOk(c, u, Body(chainId, signed, outs), signed[i], height, maturity)
                <==> Mature(u, coins[i], height, maturity))
  {
    var ins := Unsigned(coins, c.publicKey(key));
    var signed := Signed(ins, c.sign(key, Body(chainId, ins, outs)));
    assert Body(chainId, signed, outs) == Body(chainId, ins, outs);
  }

  /** Given listed coins the set really holds for this key, `validate_transaction` accepts the built transaction for
      the same chain id exactly when it respects the input limit, repeats no coin, spends only mature coins,
      pays a non-negative amount and leaves a sufficient, non-negative fee. */
  lemma BuilderMeetsValidator(c: Crypto, chainId: int, key: string, coins: seq<Coin>, toAddress: string, amount: int,
                            changeAddress: string, fee: int, u: Utxo, minFee: int, height: int, maturity: int)
    requires SignaturesVerify(c) && forall i :: 0 <= i < |coins| ==> Owned(c, u, key, coins[i])
    requires Build(c, chainId, key, coins, toAddress, amount, changeAddress, fee).Built?
    ensures var r := Build(c, chainId, key, coins, toAddress, amount, changeAddress, fee);
            |r.inputs| <= |coins| &&
            (ValidTx(c, chainId, u, r.inputs, r.outputs, minFee, height, maturity) <==>
              && 0 < |r.inputs| <= 1000
              && DistinctPoints(coins[..|r.inputs|])
              && (forall i :: 0 <= i < |r.inputs| ==> Mature(u, coins[i], height, maturity))
              && amount >= 0 && fee >= 0 && fee >= minFee)
  {
    var r := Build(c, chainId, key, coins, toAddress, amount, changeAddress, fee);
    var taken := coins[..Taken(coins, amount + fee, 0)];
    assert |r.inputs| == |taken|;
    forall i | 0 <= i < |taken|
      ensures Key(r.inputs[i]) == taken[i].point
      ensures InputOk(c, u, Body(chainId, r.inputs, r.outputs), r.inputs[i], height, maturity)
              <==> Mature(u, taken[i], height, maturity)
    {
      SignedInput(c, chainId, key, taken, r.outputs, u, height, maturity, i);
    }
    OwnedSum(c, u, key, taken, r.inputs);
    BuildFeeExact(c, chainId, key, coins, toAddress, amount, changeAddress, fee);
    assert NonNegative(r.outputs) <==> amount >= 0 by { assert r.outputs[0].value == amount; }
    hide InputOk, Mature, Build, Owned, SignaturesVerify;
    assert DistinctInputs(r.inputs) <==> DistinctPoints(taken);
  }
}
