/** The unspent-output set and transaction validity (node/tx.py). */
module Utxos {
  import opened Arith
  import opened Merkle
  import opened Model
  import opened CoinParams

  type Outs = map<OutPoint, TxOutput>

  /** Unspent outputs, and the height of the latest coinbase under each coinbase txid. */
  datatype Utxo = Utxo(outs: Outs, coinbaseAt: map<TxId, int>)

  const EMPTY: Utxo := Utxo(map[], map[])

  // ----- effect of transactions -----

  function Spent(ins: seq<TxInput>): set<OutPoint> { set i | i in ins :: Key(i) }

  function Created(txid: TxId, outs: seq<TxOutput>): Outs
  {
    map i | 0 <= i < |outs| :: OutPoint(txid, i) := outs[i]
  }

  /** Inputs leave (a coinbase has none to spend), then outputs enter, overwriting. */
  function ApplyOuts(m: Outs, tx: Tx): Outs
  {
    (if tx.coinbase then m else m - Spent(tx.inputs)) + Created(tx.txid, tx.outputs)
  }

  function ApplyTx(u: Utxo, tx: Tx, height: int): Utxo
  {
    Utxo(ApplyOuts(u.outs, tx), if tx.coinbase then u.coinbaseAt[tx.txid := height] else u.coinbaseAt)
  }

  /** What `_commit` and the replays do with a block's transactions, in order, coinbase included. */
  function ApplyTxs(u: Utxo, txs: seq<Tx>, height: int): Utxo
  {
    if txs == [] then u else ApplyTx(ApplyTxs(u, txs[..|txs| - 1], height), txs[|txs| - 1], height)
  }

  /** What `validate_block` does to its snapshot: the coinbase is left out. */
  function Snapshot(u: Utxo, txs: seq<Tx>): Utxo
  {
    if txs == [] then u
    else
      var before := Snapshot(u, txs[..|txs| - 1]);
      var tx := txs[|txs| - 1];
      if tx.coinbase then before else before.(outs := ApplyOuts(before.outs, tx))
  }

  /** What `ApplyTxs` does to the outputs. */
  function FoldOuts(m: Outs, txs: seq<Tx>): Outs
  {
    if txs == [] then m else ApplyOuts(FoldOuts(m, txs[..|txs| - 1]), txs[|txs| - 1])
  }

  predicate Creates(tx: Tx, k: OutPoint)
  {
    k.txid == tx.txid && 0 <= k.index < |tx.outputs|
  }

  predicate Spends(tx: Tx, k: OutPoint)
  {
    !tx.coinbase && exists i :: 0 <= i < |tx.inputs| && Key(tx.inputs[i]) == k
  }

  // ----- sums -----

  function ValueAt(m: Outs, k: OutPoint): int { if k in m then m[k].value else 0 }

  /** Value of those inputs that the set holds. */
  function PresentSum(m: Outs, ins: seq<TxInput>): int
  {
    if ins == [] then 0 else PresentSum(m, ins[..|ins| - 1]) + ValueAt(m, Key(ins[|ins| - 1]))
  }

  function OutSum(outs: seq<TxOutput>): int
  {
    if outs == [] then 0 else OutSum(outs[..|outs| - 1]) + outs[|outs| - 1].value
  }

  function FeeOf(m: Outs, tx: Tx): int
  {
    if tx.coinbase then 0 else Max(0, PresentSum(m, tx.inputs) - OutSum(tx.outputs))
  }

  /** `_total_fees`: every fee is measured on the same, un-updated set. */
  function TotalFees(m: Outs, txs: seq<Tx>): int
  {
    if txs == [] then 0 else TotalFees(m, txs[..|txs| - 1]) + FeeOf(m, txs[|txs| - 1])
  }

  // ----- validity of one transaction -----

  function Body(chainId: int, ins: seq<TxInput>, outs: seq<TxOutput>): SigBody
  {
    SigBody(chainId, seq(|ins|, i requires 0 <= i < |ins| => (Key(ins[i]), ins[i].pubkey)), outs)
  }

  function EffectiveMaturity(maturity: int): int
  {
    if maturity < 0 then 0 else if maturity == 0 then COINBASE_MATURITY else maturity
  }

  predicate InputOk(c: Crypto, u: Utxo, body: SigBody, i: TxInput, height: int, maturity: int)
  {
    && Key(i) in u.outs
    && (i.txid in u.coinbaseAt ==> height - u.coinbaseAt[i.txid] >= EffectiveMaturity(maturity))
    && c.verify(i.pubkey, body, i.signature)
    && c.address(i.pubkey) == u.outs[Key(i)].address
  }

  predicate DistinctInputs(ins: seq<TxInput>)
  {
    forall i, j :: 0 <= i < j < |ins| ==> Key(ins[i]) != Key(ins[j])
  }

  predicate NonNegative(outs: seq<TxOutput>)
  {
    forall i :: 0 <= i < |outs| ==> outs[i].value >= 0
  }

  /** `validate_transaction`. */
  predicate ValidTx(c: Crypto, chainId: int, u: Utxo, ins: seq<TxInput>, outs: seq<TxOutput>,
                    minFee: int, height: int, maturity: int)
  {
    && 0 < |ins| <= MAX_TX_INPUTS
    && 0 < |outs| <= MAX_TX_OUTPUTS
    && NonNegative(outs)
    && DistinctInputs(ins)
    && (forall i :: 0 <= i < |ins| ==> InputOk(c, u, Body(chainId, ins, outs), ins[i], height, maturity))
    && OutSum(outs) <= PresentSum(u.outs, ins)
    && PresentSum(u.outs, ins) - OutSum(outs) >= minFee
  }

  // ----- what a signature is good for -----

  /** No public key verifies one signature for two messages. */
  ghost predicate OneMessage(c: Crypto)
  {
    forall pubkey, signature, a, b :: c.verify(pubkey, a, signature) && c.verify(pubkey, b, signature) ==> a == b
  }

  /** Two transactions agree on everything but signatures. */
  predicate SameSpends(ins: seq<TxInput>, outs: seq<TxOutput>, ins': seq<TxInput>, outs': seq<TxOutput>)
  {
    && outs == outs' && |ins| == |ins'|
    && forall i :: 0 <= i < |ins| ==>
         ins[i].txid == ins'[i].txid && ins[i].index == ins'[i].index && ins[i].pubkey == ins'[i].pubkey
  }

  lemma BodyDecides(chainId: int, ins: seq<TxInput>, outs: seq<TxOutput>,
                    chainId': int, ins': seq<TxInput>, outs': seq<TxOutput>)
    ensures Body(chainId, ins, outs) == Body(chainId', ins', outs') <==>
            chainId == chainId' && SameSpends(ins, outs, ins', outs')
  {
    var a, b := Body(chainId, ins, outs), Body(chainId', ins', outs');
    if a == b {
      forall i | 0 <= i < |ins|
        ensures ins[i].txid == ins'[i].txid && ins[i].index == ins'[i].index && ins[i].pubkey == ins'[i].pubkey
      {
        assert a.spends[i] == b.spends[i];
      }
    }
    if chainId == chainId' && SameSpends(ins, outs, ins', outs') { assert a.spends == b.spends; }
  }

  /** A signature that passes validation in two transactions, on whatever sets, passes for one chain id, one list of
      spent outputs with their keys, and one list of outputs. */
  lemma SignatureCommits(c: Crypto, chainId: int, u: Utxo, ins: seq<TxInput>, outs: seq<TxOutput>, minFee: int,
                         height: int, maturity: int, i: nat,
                         chainId': int, u': Utxo, ins': seq<TxInput>, outs': seq<TxOutput>, minFee': int,
                         height': int, maturity': int, j: nat)
    requires OneMessage(c) && i < |ins| && j < |ins'|
    requires ValidTx(c, chainId, u, ins, outs, minFee, height, maturity)
    requires ValidTx(c, chainId', u', ins', outs', minFee', height', maturity')
    requires ins[i].pubkey == ins'[j].pubkey && ins[i].signature == ins'[j].signature
    ensures chainId == chainId' && SameSpends(ins, outs, ins', outs')
  {
    var a, b := Body(chainId, ins, outs), Body(chainId', ins', outs');
    assert InputOk(c, u, a, ins[i], height, maturity) && InputOk(c, u', b, ins'[j], height', maturity');
    BodyDecides(chainId, ins, outs, chainId', ins', outs');
  }

  // ----- facts about the folds -----

  lemma ApplyTxsSnoc(u: Utxo, txs: seq<Tx>, i: nat, height: int)
    requires i < |txs|
    ensures ApplyTxs(u, txs[..i + 1], height) == ApplyTx(ApplyTxs(u, txs[..i], height), txs[i], height)
  {
    assert txs[..i + 1][..i] == txs[..i];
  }

  lemma SnapshotSnoc(u: Utxo, txs: seq<Tx>, i: nat)
    requires i < |txs|
    ensures Snapshot(u, txs[..i + 1]) ==
            if txs[i].coinbase then Snapshot(u, txs[..i])
            else Snapshot(u, txs[..i]).(outs := ApplyOuts(Snapshot(u, txs[..i]).outs, txs[i]))
  {
    assert txs[..i + 1][..i] == txs[..i];
  }

  lemma TotalFeesSnoc(m: Outs, txs: seq<Tx>, i: nat)
    requires i < |txs|
    ensures TotalFees(m, txs[..i + 1]) == TotalFees(m, txs[..i]) + FeeOf(m, txs[i])
  {
    assert txs[..i + 1][..i] == txs[..i];
  }

  lemma {:induction false} SnapshotCoinbases(u: Utxo, txs: seq<Tx>)
    ensures Snapshot(u, txs).coinbaseAt == u.coinbaseAt
  {
    if txs != [] { SnapshotCoinbases(u, txs[..|txs| - 1]); }
  }

  lemma SpentSnoc(ins: seq<TxInput>, i: nat)
    requires i < |ins|
    ensures Spent(ins[..i + 1]) == Spent(ins[..i]) + {Key(ins[i])}
  {
    assert ins[..i + 1] == ins[..i] + [ins[i]];
    forall k | k in Spent(ins[..i]) + {Key(ins[i])} ensures k in Spent(ins[..i + 1]) {
      if k in Spent(ins[..i]) {
        var x :| x in ins[..i] && Key(x) == k;
        assert x in ins[..i + 1];
      } else {
        assert ins[i] in ins[..i + 1];
      }
    }
  }

  /** Creating a list of outputs is creating its front, then its last element. */
  lemma CreateSnoc(m: Outs, txid: TxId, outs: seq<TxOutput>)
    requires outs != []
    ensures var n := |outs| - 1;
            m + Created(txid, outs) == (m + Created(txid, outs[..n]))[OutPoint(txid, n) := outs[n]]
  {
    var n := |outs| - 1;
    assert Created(txid, outs) == Created(txid, outs[..n])[OutPoint(txid, n) := outs[n]];
  }

  lemma {:induction false} ApplyIsFold(u: Utxo, txs: seq<Tx>, height: int)
    ensures ApplyTxs(u, txs, height).outs == FoldOuts(u.outs, txs)
  {
    if txs != [] { ApplyIsFold(u, txs[..|txs| - 1], height); }
  }

  lemma {:induction false} FoldConcat(m: Outs, a: seq<Tx>, b: seq<Tx>)
    ensures FoldOuts(m, a + b) == FoldOuts(FoldOuts(m, a), b)
  {
    if b == [] {
      assert a + b == a;
    } else {
      FoldConcat(m, a, b[..|b| - 1]);
      assert (a + b)[..|a + b| - 1] == a + b[..|b| - 1];
    }
  }

  lemma FoldSnoc(m: Outs, txs: seq<Tx>, i: nat)
    requires i < |txs|
    ensures FoldOuts(m, txs[..i + 1]) == ApplyOuts(FoldOuts(m, txs[..i]), txs[i])
  {
    assert txs[..i + 1][..i] == txs[..i];
  }

  lemma ApplyAt(m: Outs, tx: Tx, k: OutPoint)
    ensures var after := ApplyOuts(m, tx);
            && (k in after <==> Creates(tx, k) || (k in m && !Spends(tx, k)))
            && (k in after ==> after[k] == if Creates(tx, k) then tx.outputs[k.index] else m[k])
  {
    if Creates(tx, k) { assert k == OutPoint(tx.txid, k.index); }
    if k in Spent(tx.inputs) {
      var x :| x in tx.inputs && Key(x) == k;
      var i :| 0 <= i < |tx.inputs| && tx.inputs[i] == x;
    }
    if Spends(tx, k) {
      var i :| 0 <= i < |tx.inputs| && Key(tx.inputs[i]) == k;
      assert tx.inputs[i] in tx.inputs;
    }
  }
}
