/** `UTXOSet` and `validate_transaction` of node/tx.py, proved against the functions of Utxos. */
module UtxoSet {
  import opened Merkle
  import opened Model
  import opened CoinParams
  import opened Utxos

  class UTXOSet {
    var utxos: Outs
    var coinbaseHeights: map<TxId, int>

    function Value(): Utxo
      reads this
    {
      Utxo(utxos, coinbaseHeights)
    }

    constructor ()
      ensures Value() == EMPTY
    {
      utxos, coinbaseHeights := map[], map[];
    }

    predicate Has(k: OutPoint)
      reads this
    {
      k in utxos
    }

    /** `spend`: remove the output if it is there. */
    method Spend(i: TxInput)
      modifies this
      ensures Value() == old(Value()).(outs := old(utxos) - {Key(i)})
    {
      utxos := utxos - {Key(i)};
    }

    method SpendAll(ins: seq<TxInput>)
      modifies this
      ensures Value() == old(Value()).(outs := old(utxos) - Spent(ins))
    {
      assert utxos - Spent([]) == utxos;
      for j := 0 to |ins|
        invariant Value() == old(Value()).(outs := old(utxos) - Spent(ins[..j]))
      {
        SpentSnoc(ins, j);
        assert old(utxos) - Spent(ins[..j]) - {Key(ins[j])} == old(utxos) - Spent(ins[..j + 1]);
        Spend(ins[j]);
      }
      assert ins[..|ins|] == ins;
    }

    /** The loop of `add_tx`: one entry per output, overwriting. */
    method AddOutputs(txid: TxId, outs: seq<TxOutput>)
      modifies this
      ensures Value() == old(Value()).(outs := old(utxos) + Created(txid, outs))
    {
      assert utxos + Created(txid, []) == utxos;
      for j := 0 to |outs|
        invariant Value() == old(Value()).(outs := old(utxos) + Created(txid, outs[..j]))
      {
        assert outs[..j + 1][..j] == outs[..j];
        CreateSnoc(old(utxos), txid, outs[..j + 1]);
        utxos := utxos[OutPoint(txid, j) := outs[j]];
      }
      assert outs[..|outs|] == outs;
    }

    /** `snapshot`: an independent copy. */
    method Snapshot() returns (c: UTXOSet)
      ensures fresh(c) && c.Value() == Value()
    {
      c := new UTXOSet();
      c.utxos, c.coinbaseHeights := utxos, coinbaseHeights;
    }
  }

  /** The body of both replay loops: one block's transactions at one height. */
  method ReplayBlock(u: UTXOSet, txs: seq<Tx>, height: int)
    modifies u
    ensures u.Value() == ApplyTxs(old(u.Value()), txs, height)
  {
    for i := 0 to |txs|
      invariant u.Value() == ApplyTxs(old(u.Value()), txs[..i], height)
    {
      var tx := txs[i];
      ApplyTxsSnoc(old(u.Value()), txs, i, height);
      if !tx.coinbase { u.SpendAll(tx.inputs); }
      u.AddOutputs(tx.txid, tx.outputs);
      if tx.coinbase { u.coinbaseHeights := u.coinbaseHeights[tx.txid := height]; }
    }
    assert txs[..|txs|] == txs;
  }

  method SumOutputs(outs: seq<TxOutput>) returns (total: int)
    ensures total == OutSum(outs)
  {
    total := 0;
    for i := 0 to |outs|
      invariant total == OutSum(outs[..i])
    {
      assert outs[..i + 1][..i] == outs[..i];
      total := total + outs[i].value;
    }
    assert outs[..|outs|] == outs;
  }

  /** The checks on the whole lists, before and after the pass over the inputs. */
  predicate ListsOk(u: Utxo, ins: seq<TxInput>, outs: seq<TxOutput>, minFee: int)
  {
    && 0 < |ins| <= MAX_TX_INPUTS && 0 < |outs| <= MAX_TX_OUTPUTS && NonNegative(outs)
    && OutSum(outs) <= PresentSum(u.outs, ins)
    && PresentSum(u.outs, ins) - OutSum(outs) >= minFee
  }

  predicate InputsOkTo(c: Crypto, u: Utxo, body: SigBody, ins: seq<TxInput>, n: nat, height: int, maturity: int)
    requires n <= |ins|
  {
    && DistinctInputs(ins[..n])
    && forall i :: 0 <= i < n ==> InputOk(c, u, body, ins[i], height, maturity)
  }

  lemma ValidTxIs(c: Crypto, chainId: int, u: Utxo, ins: seq<TxInput>, outs: seq<TxOutput>,
                  minFee: int, height: int, maturity: int)
    ensures ValidTx(c, chainId, u, ins, outs, minFee, height, maturity) <==>
            ListsOk(u, ins, outs, minFee) && InputsOkTo(c, u, Body(chainId, ins, outs), ins, |ins|, height, maturity)
  {
    assert ins[..|ins|] == ins;
  }

  /** One more input passes exactly when it is new and passes on its own; a failure is final. */
  lemma InputsOkSnoc(c: Crypto, u: Utxo, body: SigBody, ins: seq<TxInput>, i: nat, height: int, maturity: int)
    requires i < |ins| && InputsOkTo(c, u, body, ins, i, height, maturity)
    ensures InputsOkTo(c, u, body, ins, i + 1, height, maturity) <==>
            Key(ins[i]) !in Spent(ins[..i]) && InputOk(c, u, body, ins[i], height, maturity)
    ensures !InputsOkTo(c, u, body, ins, i + 1, height, maturity) ==>
            !InputsOkTo(c, u, body, ins, |ins|, height, maturity)
  {
    hide InputOk;
    var front, next := ins[..i], ins[..i + 1];
    assert next == front + [ins[i]];
    if Key(ins[i]) in Spent(front) {
      var x :| x in front && Key(x) == Key(ins[i]);
      var j :| 0 <= j < i && front[j] == x;
      assert next[j] == x && next[i] == ins[i];
      assert ins[..|ins|][j] == x && ins[..|ins|][i] == ins[i];
    } else {
      forall j | 0 <= j < i ensures Key(next[j]) != Key(next[i]) {
        assert next[j] == front[j] && front[j] in front;
      }
    }
  }

  /** `validate_transaction`: one pass over the inputs with a seen-set and a running sum. */
  method ValidateTransaction(c: Crypto, chainId: int, utxo: UTXOSet, ins: seq<TxInput>, outs: seq<TxOutput>,
                             minFee: int, height: int, maturity: int) returns (ok: bool)
    ensures ok == ValidTx(c, chainId, utxo.Value(), ins, outs, minFee, height, maturity)
  {
    var body := Body(chainId, ins, outs);
    ValidTxIs(c, chainId, utxo.Value(), ins, outs, minFee, height, maturity);
    hide ValidTx, InputsOkTo, Body, Spent;
    if ins == [] || outs == [] { return false; }
    if |ins| > MAX_TX_INPUTS || |outs| > MAX_TX_OUTPUTS { return false; }
    if !NonNegative(outs) { return false; }
    var inputSum := 0;
    var seen: set<OutPoint> := {};
    NoInputs(c, utxo.Value(), body, ins, height, maturity);
    for i := 0 to |ins|
      invariant seen == Spent(ins[..i])
      invariant inputSum == PresentSum(utxo.utxos, ins[..i])
      invariant InputsOkTo(c, utxo.Value(), body, ins, i, height, maturity)
    {
      var key := Key(ins[i]);
      InputsOkSnoc(c, utxo.Value(), body, ins, i, height, maturity);
      if key in seen { return false; }
      if !InputOk(c, utxo.Value(), body, ins[i], height, maturity) { return false; }
      SpentSnoc(ins, i);
      assert ins[..i + 1][..i] == ins[..i];
      seen := seen + {key};
      inputSum := inputSum + utxo.utxos[key].value;
    }
    assert ins[..|ins|] == ins;
    var outputSum := SumOutputs(outs);
    return outputSum <= inputSum && inputSum - outputSum >= minFee;
  }

  lemma NoInputs(c: Crypto, u: Utxo, body: SigBody, ins: seq<TxInput>, height: int, maturity: int)
    ensures InputsOkTo(c, u, body, ins, 0, height, maturity)
    ensures Spent(ins[..0]) == {}
  {
  }
}
