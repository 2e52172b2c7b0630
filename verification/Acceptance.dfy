/** What `add_block` accepts, spelled out item by item and number by number. */
module Acceptance {
  import opened Compact
  import opened Merkle
  import opened Model
  import opened CoinParams
  import opened Utxos
  import opened ChainSpec
  import opened ChainModel
  import opened History

  /** The form of a block's transactions, spelled out. */
  predicate WellFormed(txs: seq<Tx>)
  {
    && |txs| >= 1 && txs[0].coinbase && txs[0].inputs == [] && |txs[0].outputs| >= 1
    && (forall tx :: tx in txs[1..] ==> !tx.coinbase)
    && (forall i, j :: 0 <= i < |txs| && 0 <= j < |txs| && txs[i].txid == txs[j].txid ==> i == j)
    && (forall tx, out :: tx in txs && out in tx.outputs ==> out.value >= 0)
  }

  /** What a transaction must satisfy to spend from a set at a height, spelled out. */
  predicate MaySpend(r: Rules, u: Utxo, tx: Tx, height: int)
  {
    && 1 <= |tx.inputs| <= 1000 && 1 <= |tx.outputs| <= 1000
    && (forall i, j :: 0 <= i < j < |tx.inputs| ==>
          tx.inputs[i].txid != tx.inputs[j].txid || tx.inputs[i].index != tx.inputs[j].index)
    && (forall out :: out in tx.outputs ==> out.value >= 0)
    && (forall i :: i in tx.inputs ==>
          && OutPoint(i.txid, i.index) in u.outs
          && u.outs[OutPoint(i.txid, i.index)].address == r.crypto.address(i.pubkey)
          && (i.txid !in u.coinbaseAt || height >= u.coinbaseAt[i.txid] + 100)
          && r.crypto.verify(i.pubkey, Body(r.chainId, tx.inputs, tx.outputs), i.signature))
    && OutSum(tx.outputs) <= PresentSum(u.outs, tx.inputs)
  }

  lemma WellFormedIff(txs: seq<Tx>)
    ensures ShapeOk(txs) <==> WellFormed(txs)
  {
    if ShapeOk(txs) {
      forall i, j | 0 <= i < |txs| && 0 <= j < |txs| && txs[i].txid == txs[j].txid ensures i == j {
        assert TxIds(txs)[i] == TxIds(txs)[j];
      }
    }
    if WellFormed(txs) {
      forall i | 0 <= i < |txs| ensures (txs[i].coinbase <==> i == 0) && NonNegative(txs[i].outputs) {
        assert i > 0 ==> txs[i] == txs[1..][i - 1];
        assert txs[i] in txs;
      }
    }
  }

  lemma MaySpendIff(r: Rules, u: Utxo, tx: Tx, height: int)
    ensures MaySpend(r, u, tx, height) <==>
            ValidTx(r.crypto, r.chainId, u, tx.inputs, tx.outputs, 0, height, COINBASE_MATURITY)
  {
    var body := Body(r.chainId, tx.inputs, tx.outputs);
    hide Body, OutSum, PresentSum;
    if MaySpend(r, u, tx, height) {
      forall i | 0 <= i < |tx.inputs| ensures InputOk(r.crypto, u, body, tx.inputs[i], height, COINBASE_MATURITY) {
        assert tx.inputs[i] in tx.inputs;
      }
    }
    if ValidTx(r.crypto, r.chainId, u, tx.inputs, tx.outputs, 0, height, COINBASE_MATURITY) {
      forall i | i in tx.inputs ensures InputOk(r.crypto, u, body, i, height, COINBASE_MATURITY) {
        var j :| 0 <= j < |tx.inputs| && tx.inputs[j] == i;
        assert InputOk(r.crypto, u, body, tx.inputs[j], height, COINBASE_MATURITY);
      }
    }
  }

  predicate MaySpendAll(r: Rules, u: Utxo, b: Block)
  {
    forall i :: 1 <= i < |b.txs| ==> MaySpend(r, Snapshot(u, b.txs[..i]), b.txs[i], b.index)
  }

  lemma MaySpendAllIff(r: Rules, u: Utxo, b: Block)
    requires ShapeOk(b.txs)
    ensures SpendsOk(r, u, b) <==> MaySpendAll(r, u, b)
  {
    hide ValidTx, MaySpend, Snapshot;
    forall i | 1 <= i < |b.txs|
      ensures SpendOk(r, u, b, i) <==> MaySpend(r, Snapshot(u, b.txs[..i]), b.txs[i], b.index)
    {
      MaySpendIff(r, Snapshot(u, b.txs[..i]), b.txs[i], b.index);
    }
    if MaySpendAll(r, u, b) {
      forall i | 0 <= i < |b.txs| ensures SpendOk(r, u, b, i) {}
    }
    if SpendsOk(r, u, b) {
      forall i | 1 <= i < |b.txs| ensures MaySpend(r, Snapshot(u, b.txs[..i]), b.txs[i], b.index) {
        assert SpendOk(r, u, b, i);
      }
    }
  }

  /** What b must satisfy to go on top of a chain, spelled out. */
  predicate MayFollow(r: Rules, cut: seq<Block>, b: Block, now: int)
    requires cut != [] && b.index == |cut|
  {
    var i := |cut|;
    && b.header.prev == HashOf(cut[i - 1])
    && r.crypto.sha(HeaderBytes(r.crypto, b.header)) <= BitsToTarget(b.header.bits)
    && b.header.bits == (if r.noRetarget || i % 2016 != 0 then cut[i - 1].header.bits
                         else CalculateNextBits(cut[i - 1].header.bits, cut[i - 2016].header.timestamp,
                                                cut[i - 1].header.timestamp))
    && b.header.root == BytesRoot(BytesOf(TxIds(b.txs))) && r.fits(b)
    && Median.Median(Times(cut, WindowStart(i), i)) <= b.header.timestamp <= now + 7200
    && WellFormed(b.txs) && MaySpendAll(r, Replay(cut), b)
    && OutSum(b.txs[0].outputs) <= BlockSubsidy(i) + TotalFees(Replay(cut).outs, b.txs)
  }

  lemma MayFollowIff(r: Rules, cut: seq<Block>, b: Block, now: int)
    requires cut != [] && b.index == |cut|
    ensures MayFollow(r, cut, b, now) <==>
            && b.header.prev == HashOf(cut[|cut| - 1])
            && ValidateBlock(r, View(cut), Replay(cut), b, ExpectedBits(r, View(cut), |cut|), now)
  {
    BitsOnTop(r, cut);
    TimeOkIff(cut, b);
    ContextIff(r, cut, b, now);
    WellFormedIff(b.txs);
    if ShapeOk(b.txs) { MaySpendAllIff(r, Replay(cut), b); }
    hide WellFormed, MaySpendAll;
    hide ParentOk, NotFromFuture, MeetsTarget, RewardOk, TimeOk, ExpectedBits, CalculateNextBits, ShapeOk, SpendsOk,
         Replay, View, HeaderBytes, BitsToTarget, BlockSubsidy, TotalFees, BytesRoot, Times, Median.Median, OutSum,
         HashOf, Root, BytesOf, TxIds;
  }

  lemma ContextIff(r: Rules, cut: seq<Block>, b: Block, now: int)
    requires cut != [] && b.index == |cut|
    ensures ParentOk(View(cut), b) <==> b.header.prev == HashOf(cut[|cut| - 1])
    ensures NotFromFuture(b, now) <==> b.header.timestamp <= now + 7200
    ensures MeetsTarget(r.crypto, b.header) <==>
            r.crypto.sha(HeaderBytes(r.crypto, b.header)) <= BitsToTarget(b.header.bits)
    ensures Root(TxIds(b.txs)) == BytesRoot(BytesOf(TxIds(b.txs)))
    ensures b.txs != [] ==> (RewardOk(Replay(cut), b) <==>
              OutSum(b.txs[0].outputs) <= BlockSubsidy(|cut|) + TotalFees(Replay(cut).outs, b.txs))
    ensures ShapeOk(b.txs) ==> b.txs != []
  {
    assert BlockAt(View(cut), b.index - 1) == Some(cut[|cut| - 1]);
    hide HeaderBytes, BitsToTarget, BlockSubsidy, TotalFees, BytesRoot, HashOf, OutSum, Replay, View;
  }

  lemma BitsOnTop(r: Rules, cut: seq<Block>)
    requires cut != []
    ensures ExpectedBits(r, View(cut), |cut|) ==
            if r.noRetarget || |cut| % 2016 != 0 then cut[|cut| - 1].header.bits
            else CalculateNextBits(cut[|cut| - 1].header.bits, cut[|cut| - 2016].header.timestamp,
                                   cut[|cut| - 1].header.timestamp)
  {
    hide CalculateNextBits;
    assert cut[..|cut|] == cut;
    ExpectedBitsOn(r, cut, |cut|);
  }

  /** What `add_block` accepts, item by item, on any node that reflects a chain: the block follows the one before its
      index, proves its work, carries the bits required there, commits to its transactions, fits, is no earlier than
      the median of the eleven blocks before it and no more than 7200 seconds ahead of the clock, has one rewarded
      coinbase in front of valid spends, and makes the chain end in more total work. */
  lemma AcceptedIff(r: Rules, s: State, chain: seq<Block>, b: Block, now: int)
    requires Reflects(s, chain)
    ensures AddBlock(r, s, b, now).1 <==>
            && 1 <= b.index <= |chain|
            && MayFollow(r, chain[..b.index], b, now)
            && (b.index == |chain| || TotalWork(chain[..b.index] + [b]) > TotalWork(chain))
  {
    hide *;
    AddBlockRefines(r, s, chain, b, now);
    AcceptsIff(r, chain, b, now);
  }

  lemma AcceptsIff(r: Rules, chain: seq<Block>, b: Block, now: int)
    ensures Accepts(r, chain, b, now) <==>
            && 1 <= b.index <= |chain|
            && MayFollow(r, chain[..b.index], b, now)
            && (b.index == |chain| || TotalWork(chain[..b.index] + [b]) > TotalWork(chain))
  {
    hide MayFollow, ValidateBlock, ExpectedBits, Replay, View, BlockWork, HashOf;
    if 1 <= b.index <= |chain| {
      var cut := chain[..b.index];
      assert cut[|cut| - 1] == chain[b.index - 1];
      MayFollowIff(r, cut, b, now);
      WorkOnTop(cut, b);
      hide TotalWork;
    }
  }

  lemma WorkOnTop(cut: seq<Block>, b: Block)
    ensures TotalWork(cut + [b]) == TotalWork(cut) + BlockWork(b)
  {
    assert (cut + [b])[..|cut|] == cut;
  }
}
