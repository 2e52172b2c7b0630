/** The UTXO set against a declarative reading of the chain: what is unspent, and that nothing is spent twice. */
module Ledger {
  import opened Model
  import opened CoinParams
  import opened Utxos
  import opened ChainSpec
  import opened ValidChains
  import opened Supply

  /** All transactions of a chain in the order they take effect. */
  function Flat(chain: seq<Block>): seq<Tx>
  {
    if chain == [] then [] else Flat(chain[..|chain| - 1]) + chain[|chain| - 1].txs
  }

  /** Transaction p creates k, and no later one creates it again or spends it. */
  predicate Live(txs: seq<Tx>, p: int, k: OutPoint)
  {
    && 0 <= p < |txs| && Creates(txs[p], k)
    && forall q :: p < q < |txs| ==> !Creates(txs[q], k) && !Spends(txs[q], k)
  }

  lemma {:induction false} ReplayIsFold(chain: seq<Block>)
    ensures Replay(chain).outs == FoldOuts(map[], Flat(chain))
  {
    if chain != [] {
      var n := |chain| - 1;
      ReplayIsFold(chain[..n]);
      ApplyIsFold(Replay(chain[..n]), chain[n].txs, n);
      FoldConcat(map[], Flat(chain[..n]), chain[n].txs);
    }
  }

  lemma LiveSnoc(front: seq<Tx>, last: Tx, k: OutPoint)
    ensures Creates(last, k) ==> Live(front + [last], |front|, k)
    ensures forall p :: Live(front, p, k) && !Creates(last, k) && !Spends(last, k) ==> Live(front + [last], p, k)
    ensures forall p :: Live(front + [last], p, k) ==>
              (p == |front| && Creates(last, k)) || (Live(front, p, k) && !Creates(last, k) && !Spends(last, k))
  {
    var all := front + [last];
    forall p | Live(all, p, k) && p != |front| ensures Live(front, p, k) && !Creates(last, k) && !Spends(last, k) {
      assert all[|front|] == last;
      forall q | p < q < |front| ensures !Creates(front[q], k) && !Spends(front[q], k) { assert all[q] == front[q]; }
    }
  }

  lemma {:induction false} FoldAt(txs: seq<Tx>, k: OutPoint)
    ensures k in FoldOuts(map[], txs) <==> exists p :: Live(txs, p, k)
    ensures forall p :: Live(txs, p, k) ==>
              k in FoldOuts(map[], txs) && FoldOuts(map[], txs)[k] == txs[p].outputs[k.index]
  {
    if txs != [] {
      var front, last := txs[..|txs| - 1], txs[|txs| - 1];
      assert txs == front + [last];
      FoldAt(front, k);
      ApplyAt(FoldOuts(map[], front), last, k);
      LiveSnoc(front, last, k);
      if k in FoldOuts(map[], txs) && !Creates(last, k) {
        var p :| Live(front, p, k);
        assert Live(txs, p, k);
      }
    }
  }

  /** The replayed set holds an output exactly when some transaction of the chain created it and no later one
      spent or re-created it; its value is that transaction's. */
  lemma UnspentIff(chain: seq<Block>, k: OutPoint)
    ensures k in Replay(chain).outs <==> exists p :: Live(Flat(chain), p, k)
    ensures forall p :: Live(Flat(chain), p, k) ==>
              k in Replay(chain).outs && Replay(chain).outs[k] == Flat(chain)[p].outputs[k.index]
  {
    ReplayIsFold(chain);
    FoldAt(Flat(chain), k);
  }

  // ----- no double spend -----

  /** Which block, and where in it, the q-th transaction of a chain is. */
  lemma {:induction false} Locate(chain: seq<Block>, q: nat) returns (h: nat, i: nat)
    requires q < |Flat(chain)|
    ensures h < |chain| && i < |chain[h].txs| && Flat(chain)[q] == chain[h].txs[i]
    ensures q == |Flat(chain[..h])| + i
    ensures Flat(chain)[..q] == Flat(chain[..h]) + chain[h].txs[..i]
    decreases |chain|
  {
    var n := |chain| - 1;
    var below := Flat(chain[..n]);
    if q < |below| {
      h, i := Locate(chain[..n], q);
      assert chain[..n][..h] == chain[..h];
      assert Flat(chain)[..q] == below[..q];
    } else {
      h, i := n, q - |below|;
    }
  }

  lemma {:induction false} Place(chain: seq<Block>, h: nat, i: nat)
    requires h < |chain| && i < |chain[h].txs|
    ensures var q := |Flat(chain[..h])| + i;
            q < |Flat(chain)| && Flat(chain)[q] == chain[h].txs[i]
            && Flat(chain)[..q] == Flat(chain[..h]) + chain[h].txs[..i]
    decreases |chain|
  {
    var n := |chain| - 1;
    if h < n {
      Place(chain[..n], h, i);
      assert chain[..n][..h] == chain[..h];
      assert Flat(chain)[..|Flat(chain[..h])| + i] == Flat(chain[..n])[..|Flat(chain[..h])| + i];
    }
  }

  lemma LaterBlock(r: Rules, chain: seq<Block>, h: nat, i: nat)
    requires ValidChain(r, chain) && h < |chain| && i < |chain[h].txs| && |Flat(chain[..h])| + i >= 1
    ensures h >= 1
  {
    assert GenesisShape(chain[0]);
  }

  /** On a valid chain every spend after genesis takes an output that is unspent at that very moment. */
  lemma SpendIsLive(r: Rules, chain: seq<Block>, q: nat, k: OutPoint)
    requires ValidChain(r, chain) && 1 <= q < |Flat(chain)| && Spends(Flat(chain)[q], k)
    ensures k in FoldOuts(map[], Flat(chain)[..q])
  {
    var h, i := Locate(chain, q);
    LaterBlock(r, chain, h, i);
    var j :| 0 <= j < |chain[h].txs[i].inputs| && Key(chain[h].txs[i].inputs[j]) == k;
    SpendSeen(r, chain, h, i, j);
    FoldAtPlace(chain, h, i);
  }

  /** An output can be spent again only after having been created again in between. */
  lemma NoDoubleSpend(r: Rules, chain: seq<Block>, first: nat, second: nat, k: OutPoint)
    requires ValidChain(r, chain) && first < second < |Flat(chain)|
    requires Spends(Flat(chain)[first], k) && Spends(Flat(chain)[second], k)
    ensures exists p :: first <= p < second && Creates(Flat(chain)[p], k)
  {
    var before := Flat(chain)[..second];
    SpendIsLive(r, chain, second, k);
    FoldAt(before, k);
    var p :| Live(before, p, k);
    assert before[first] == Flat(chain)[first];
    assert first <= p < second && Creates(Flat(chain)[p], k);
  }

  // ----- authorisation -----

  /** The key that an input shows hashes to the address of the output it takes, and has signed exactly this
      chain id, these inputs and these outputs. */
  predicate Authorised(r: Rules, tx: Tx, i: TxInput, taken: TxOutput)
  {
    && r.crypto.address(i.pubkey) == taken.address
    && r.crypto.verify(i.pubkey, Body(r.chainId, tx.inputs, tx.outputs), i.signature)
  }

  lemma InputAuthorised(r: Rules, chain: seq<Block>, h: nat, i: nat, j: nat)
    requires ValidChain(r, chain) && 1 <= h < |chain|
    requires i < |chain[h].txs| && !chain[h].txs[i].coinbase && j < |chain[h].txs[i].inputs|
    ensures var tx := chain[h].txs[i];
            var snap := Snapshot(Replay(chain[..h]), chain[h].txs[..i]).outs;
            Key(tx.inputs[j]) in snap && Authorised(r, tx, tx.inputs[j], snap[Key(tx.inputs[j])])
  {
    var b, u, tx := chain[h], Replay(chain[..h]), chain[h].txs[i];
    ValidParts(r, chain, h);
    assert SpendOk(r, u, b, i);
    assert InputOk(r.crypto, Snapshot(u, b.txs[..i]), Body(r.chainId, tx.inputs, tx.outputs), tx.inputs[j], b.index,
                   COINBASE_MATURITY);
  }

  /** Every spend on a valid chain takes a live output and is authorised by the address its creator gave it; only
      where the block's own coinbase creates that output again does the address from before the block count. */
  lemma SpendAuthorised(r: Rules, chain: seq<Block>, h: nat, i: nat, j: nat) returns (p: nat)
    requires ValidChain(r, chain) && 1 <= h < |chain|
    requires i < |chain[h].txs| && !chain[h].txs[i].coinbase && j < |chain[h].txs[i].inputs|
    ensures var tx := chain[h].txs[i];
            var k := Key(tx.inputs[j]);
            && |Flat(chain[..h])| + i < |Flat(chain)| && Flat(chain)[|Flat(chain[..h])| + i] == tx
            && Live(Flat(chain)[..|Flat(chain[..h])| + i], p, k)
            && if Creates(chain[h].txs[0], k)
               then k in Replay(chain[..h]).outs && Authorised(r, tx, tx.inputs[j], Replay(chain[..h]).outs[k])
               else Authorised(r, tx, tx.inputs[j], Flat(chain)[p].outputs[k.index])
  {
    var k := Key(chain[h].txs[i].inputs[j]);
    SpendSeen(r, chain, h, i, j);
    hide Authorised, Replay, Snapshot, FoldOuts, ValidChain;
    Place(chain, h, i);
    p := LiveCreator(chain, h, i, k);
  }

  lemma SpendSeen(r: Rules, chain: seq<Block>, h: nat, i: nat, j: nat)
    requires ValidChain(r, chain) && 1 <= h < |chain|
    requires i < |chain[h].txs| && !chain[h].txs[i].coinbase && j < |chain[h].txs[i].inputs|
    ensures var tx := chain[h].txs[i];
            var k, u := Key(tx.inputs[j]), Replay(chain[..h]).outs;
            var v := FoldOuts(u, chain[h].txs[..i]);
            && chain[h].txs != [] && k in v
            && if Creates(chain[h].txs[0], k) then k in u && Authorised(r, tx, tx.inputs[j], u[k])
               else Authorised(r, tx, tx.inputs[j], v[k])
  {
    ValidParts(r, chain, h);
    InputAuthorised(r, chain, h, i, j);
    assert i >= 1;
    hide Authorised, Replay, Snapshot, FoldOuts, ValidChain, SpendsOk, RewardOk, Creates;
    SnapshotAt(Replay(chain[..h]), chain[h].txs, i, Key(chain[h].txs[i].inputs[j]));
  }

  lemma LiveCreator(chain: seq<Block>, h: nat, i: nat, k: OutPoint) returns (p: nat)
    requires h < |chain| && i < |chain[h].txs| && k in FoldOuts(Replay(chain[..h]).outs, chain[h].txs[..i])
    ensures var q := |Flat(chain[..h])| + i;
            && q <= |Flat(chain)| && Live(Flat(chain)[..q], p, k)
            && FoldOuts(Replay(chain[..h]).outs, chain[h].txs[..i])[k] == Flat(chain)[p].outputs[k.index]
  {
    hide FoldOuts, Replay;
    Place(chain, h, i);
    FoldAtPlace(chain, h, i);
    hide Flat;
    var before := Flat(chain)[..|Flat(chain[..h])| + i];
    FoldAt(before, k);
    p :| Live(before, p, k);
  }

  lemma FoldAtPlace(chain: seq<Block>, h: nat, i: nat)
    requires h < |chain| && i < |chain[h].txs| && |Flat(chain[..h])| + i <= |Flat(chain)|
    requires Flat(chain)[..|Flat(chain[..h])| + i] == Flat(chain[..h]) + chain[h].txs[..i]
    ensures FoldOuts(Replay(chain[..h]).outs, chain[h].txs[..i]) ==
            FoldOuts(map[], Flat(chain)[..|Flat(chain[..h])| + i])
  {
    hide *;
    ReplayIsFold(chain[..h]);
    FoldConcat(map[], Flat(chain[..h]), chain[h].txs[..i]);
  }

  /** Every transaction after the coinbases keeps the limits and spends at least what it pays out. */
  lemma SpendWithinLimits(r: Rules, chain: seq<Block>, h: nat, i: nat)
    requires ValidChain(r, chain) && 1 <= h < |chain| && 1 <= i < |chain[h].txs|
    ensures var tx := chain[h].txs[i];
            && 1 <= |tx.inputs| <= 1000 && 1 <= |tx.outputs| <= 1000
            && DistinctInputs(tx.inputs) && NonNegative(tx.outputs)
            && OutSum(tx.outputs) <= PresentSum(Snapshot(Replay(chain[..h]), chain[h].txs[..i]).outs, tx.inputs)
  {
    ValidParts(r, chain, h);
    assert SpendOk(r, Replay(chain[..h]), chain[h], i);
  }

  lemma SpendValid(r: Rules, chain: seq<Block>, h: nat, i: nat)
    requires ValidChain(r, chain) && 1 <= h < |chain| && i < |chain[h].txs| && !chain[h].txs[i].coinbase
    ensures ValidTx(r.crypto, r.chainId, Snapshot(Replay(chain[..h]), chain[h].txs[..i]), chain[h].txs[i].inputs,
                    chain[h].txs[i].outputs, 0, chain[h].index, COINBASE_MATURITY)
  {
    hide ValidTx;
    ValidParts(r, chain, h);
    assert SpendOk(r, Replay(chain[..h]), chain[h], i);
  }

  /** A signature occurring in two transactions, of one valid chain or of two under whatever chain ids, authorises
      the same spends and outputs under the same chain id. */
  lemma SignatureIsForOne(r: Rules, chain: seq<Block>, h: nat, i: nat, j: nat,
                          r': Rules, chain': seq<Block>, h': nat, i': nat, j': nat)
    requires r.crypto == r'.crypto && OneMessage(r.crypto) && ValidChain(r, chain) && ValidChain(r', chain')
    requires 1 <= h < |chain| && i < |chain[h].txs| && !chain[h].txs[i].coinbase && j < |chain[h].txs[i].inputs|
    requires 1 <= h' < |chain'| && i' < |chain'[h'].txs| && !chain'[h'].txs[i'].coinbase
    requires j' < |chain'[h'].txs[i'].inputs|
    requires chain[h].txs[i].inputs[j].pubkey == chain'[h'].txs[i'].inputs[j'].pubkey
    requires chain[h].txs[i].inputs[j].signature == chain'[h'].txs[i'].inputs[j'].signature
    ensures r.chainId == r'.chainId
    ensures SameSpends(chain[h].txs[i].inputs, chain[h].txs[i].outputs, chain'[h'].txs[i'].inputs,
                       chain'[h'].txs[i'].outputs)
  {
    hide *;
    SpendValid(r, chain, h, i);
    SpendValid(r', chain', h', i');
    SignatureCommits(r.crypto,
                     r.chainId, Snapshot(Replay(chain[..h]), chain[h].txs[..i]), chain[h].txs[i].inputs,
                     chain[h].txs[i].outputs, 0, chain[h].index, COINBASE_MATURITY, j,
                     r'.chainId, Snapshot(Replay(chain'[..h']), chain'[h'].txs[..i']), chain'[h'].txs[i'].inputs,
                     chain'[h'].txs[i'].outputs, 0, chain'[h'].index, COINBASE_MATURITY, j');
  }

  /** So if one chain uses a signature twice, every output spent was created again in between. */
  lemma ReusedSignature(r: Rules, chain: seq<Block>, first: nat, second: nat, j: nat, j': nat, l: nat)
    requires OneMessage(r.crypto) && ValidChain(r, chain) && 1 <= first < second < |Flat(chain)|
    requires !Flat(chain)[first].coinbase && !Flat(chain)[second].coinbase
    requires j < |Flat(chain)[first].inputs| && j' < |Flat(chain)[second].inputs| && l < |Flat(chain)[first].inputs|
    requires Flat(chain)[first].inputs[j].pubkey == Flat(chain)[second].inputs[j'].pubkey
    requires Flat(chain)[first].inputs[j].signature == Flat(chain)[second].inputs[j'].signature
    ensures exists p :: first <= p < second && Creates(Flat(chain)[p], Key(Flat(chain)[first].inputs[l]))
  {
    var h, i := Locate(chain, first);
    var h', i' := Locate(chain, second);
    LaterBlock(r, chain, h, i);
    LaterBlock(r, chain, h', i');
    SignatureIsForOne(r, chain, h, i, j, r, chain, h', i', j');
    var k := Key(Flat(chain)[first].inputs[l]);
    assert Key(Flat(chain)[second].inputs[l]) == k;
    assert Spends(Flat(chain)[first], k) && Spends(Flat(chain)[second], k);
    NoDoubleSpend(r, chain, first, second, k);
  }

  // ----- the account of a whole chain -----

  lemma DistinctSpends(r: Rules, chain: seq<Block>, q: nat)
    requires ValidChain(r, chain) && 1 <= q < |Flat(chain)|
    ensures Flat(chain)[q].coinbase || DistinctInputs(Flat(chain)[q].inputs)
  {
    var h, i := Locate(chain, q);
    LaterBlock(r, chain, h, i);
    ValidParts(r, chain, h);
    assert SpendOk(r, Replay(chain[..h]), chain[h], i);
  }

  /** On every valid chain, with no assumption on txids, the value in existence is exactly all rewards ever taken,
      less the fees really left over, less what was overwritten. */
  lemma ChainAccount(r: Rules, chain: seq<Block>)
    requires ValidChain(r, chain)
    ensures Total(Replay(chain).outs) == Rewards(Flat(chain)) - RealFees(map[], Flat(chain)) - Lost(map[], Flat(chain))
  {
    forall q | 1 <= q < |Flat(chain)| ensures Flat(chain)[q].coinbase || DistinctInputs(Flat(chain)[q].inputs) {
      DistinctSpends(r, chain, q);
    }
    ReplayIsFold(chain);
    Account(map[], Flat(chain));
  }
}
