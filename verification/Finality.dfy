/** Consequences of the required bits: no block is ever replaced, and the indexes are exact. */
module Finality {
  import opened Compact
  import opened Merkle
  import opened Model
  import opened CoinParams
  import opened Utxos
  import opened Store
  import opened ChainSpec
  import opened ChainModel
  import opened ValidChains
  import opened History

  lemma {:induction false} WorkMonotone(chain: seq<Block>, n: nat)
    requires n <= |chain|
    ensures TotalWork(chain[..n]) <= TotalWork(chain)
    decreases |chain|
  {
    if n == |chain| {
      assert chain[..n] == chain;
    } else {
      WorkMonotone(chain[..|chain| - 1], n);
      assert chain[..|chain| - 1][..n] == chain[..n];
    }
  }

  lemma AcceptedParts(r: Rules, chain: seq<Block>, b: Block, now: int)
    requires Accepts(r, chain, b, now)
    ensures 1 <= b.index <= |chain|
    ensures b.header.bits == ExpectedBits(r, View(chain[..b.index]), b.index)
    ensures b.header.timestamp <= now + MAX_FUTURE_SECONDS
    ensures b.index < |chain| ==> TotalWork(chain[..b.index]) + BlockWork(b) > TotalWork(chain)
  {
    hide ExpectedBits, ValidOn;
  }

  /** A rival of a main-chain block must carry the same bits, hence the same work, hence never more in total. */
  lemma NoRivalAccepted(r: Rules, chain: seq<Block>, b: Block, now: int)
    requires ValidChain(r, chain) && b.index < |chain|
    ensures !Accepts(r, chain, b, now)
  {
    hide ValidChain, Accepts, ExpectedBits, ParentOk, TimeOk, RewardOk, SpendsOk, ShapeOk, BitsToTarget;
    var i := b.index;
    if i >= 1 {
      ValidParts(r, chain, i);
      WorkMonotone(chain, i + 1);
      assert chain[..i + 1][..i] == chain[..i];
    }
    if Accepts(r, chain, b, now) { AcceptedParts(r, chain, b, now); }
  }

  /** On a node whose chain is valid, a block at or below the height is refused and changes nothing. */
  lemma EarlierBlockRefused(r: Rules, s: State, chain: seq<Block>, b: Block, now: int)
    requires Reflects(s, chain) && ValidChain(r, chain) && b.index <= s.height
    ensures AddBlock(r, s, b, now) == (s, false)
  {
    NoRivalAccepted(r, chain, b, now);
    AddBlockRefines(r, s, chain, b, now);
  }

  /** On a node whose chain is valid, whatever `add_block` accepts extends the tip with the required bits, is at most
      two hours ahead of the clock, and strictly increases the node's work. */
  lemma AcceptedExtendsTip(r: Rules, s: State, chain: seq<Block>, b: Block, now: int)
    requires Reflects(s, chain) && ValidChain(r, chain) && AddBlock(r, s, b, now).1
    ensures 0 <= s.height && b.index == s.height + 1 && b.header.prev == s.tip
    ensures b.header.bits == ExpectedBits(r, s.disk.blocks, b.index)
    ensures b.header.timestamp <= now + MAX_FUTURE_SECONDS
    ensures AddBlock(r, s, b, now).0.work > s.work
  {
    AddBlockRefines(r, s, chain, b, now);
    AcceptedParts(r, chain, b, now);
    if b.index < |chain| { NoRivalAccepted(r, chain, b, now); }
    assert chain[..b.index] == chain;
    ValidExtension(r, chain, b, now);
    WorkPositive(r, chain + [b], |chain|);
    StoreAgrees(s.disk, chain, |chain|);
    BitsAreLocal(r, s.disk.blocks, View(chain), |chain|);
    hide ExpectedBits, ValidateBlock, ValidChain, BlockWork, StoresMain;
    SequentialStep(r, s, chain, b, now);
  }

  /** Without explicit rollbacks, runs only append. */
  lemma {:induction false} RunAppends(r: Rules, events: seq<Event>, n: nat)
    requires n <= |events| && forall i :: n <= i < |events| ==> !events[i].Rollback?
    ensures ListRun(r, [], events[..n]) <= ListRun(r, [], events)
    decreases |events|
  {
    if n == |events| {
      assert events[..n] == events;
    } else {
      var before, e := events[..|events| - 1], events[|events| - 1];
      RunAppends(r, before, n);
      assert before[..n] == events[..n];
      var chain := ListRun(r, [], before);
      RunValid(r, before);
      if e.Arrive? && Accepts(r, chain, e.block, e.now) {
        if e.block.index < |chain| { NoRivalAccepted(r, chain, e.block, e.now); }
        assert chain[..e.block.index] == chain;
      }
    }
  }

  // ----- exact indexes -----

  /** Linear scan for a hash, latest block first. */
  function ScanHash(chain: seq<Block>, hash: Hash): Option<Block>
  {
    if chain == [] then None
    else if HashOf(chain[|chain| - 1]) == hash then Some(chain[|chain| - 1])
    else ScanHash(chain[..|chain| - 1], hash)
  }

  /** Linear scan for a transaction, latest block first. */
  function ScanTx(chain: seq<Block>, txid: TxId): Option<Tx>
  {
    if chain == [] then None
    else if FirstTx(chain[|chain| - 1].txs, txid).Some? then FirstTx(chain[|chain| - 1].txs, txid)
    else ScanTx(chain[..|chain| - 1], txid)
  }

  ghost predicate ExactIndexes(d: Disk, chain: seq<Block>)
  {
    && d.blocks == View(chain)
    && (forall h :: h in d.hashes ==> 0 <= d.hashes[h] < |chain|)
    && (forall t :: t in d.txIndex ==> 0 <= d.txIndex[t] < |chain|)
    && (forall h :: BlockByHash(d, h) == ScanHash(chain, h))
    && (forall t :: TxById(d, t) == ScanTx(chain, t))
  }

  lemma {:induction false} FirstTxFound(txs: seq<Tx>, txid: TxId)
    ensures FirstTx(txs, txid).Some? <==> exists i :: 0 <= i < |txs| && txs[i].txid == txid
    ensures FirstTx(txs, txid).Some? ==> FirstTx(txs, txid).value in txs && FirstTx(txs, txid).value.txid == txid
  {
    if txs != [] {
      FirstTxFound(txs[1..], txid);
      if i :| 0 <= i < |txs| && txs[i].txid == txid && i > 0 { assert txs[1..][i - 1] == txs[i]; }
    }
  }

  lemma {:induction false} IndexTxsAt(index: map<TxId, int>, txs: seq<Tx>, height: int, txid: TxId)
    ensures var after := IndexTxs(index, txs, height);
            if exists i :: 0 <= i < |txs| && txs[i].txid == txid then txid in after && after[txid] == height
            else (txid in after <==> txid in index) && (txid in after ==> after[txid] == index[txid])
  {
    if txs != [] {
      var n := |txs| - 1;
      IndexTxsAt(index, txs[..n], height, txid);
      if i :| 0 <= i < |txs| && txs[i].txid == txid { assert i < n ==> txs[..n][i] == txs[i]; }
    }
  }

  lemma TxIndexAfterCommit(d: Disk, after: Disk, chain: seq<Block>, b: Block, t: TxId)
    requires ExactIndexes(d, chain) && b.index == |chain|
    requires after.blocks == d.blocks[b.index := b] && after.txIndex == IndexTxs(d.txIndex, b.txs, b.index)
    ensures TxById(after, t) == ScanTx(chain + [b], t)
    ensures t in after.txIndex ==> 0 <= after.txIndex[t] <= |chain|
  {
    assert (chain + [b])[..|chain|] == chain;
    FirstTxFound(b.txs, t);
    IndexTxsAt(d.txIndex, b.txs, b.index, t);
    assert TxById(d, t) == ScanTx(chain, t);
  }

  lemma HashIndexAfterCommit(d: Disk, after: Disk, chain: seq<Block>, b: Block, h: Hash)
    requires ExactIndexes(d, chain) && b.index == |chain|
    requires after.blocks == d.blocks[b.index := b] && after.hashes == d.hashes[HashOf(b) := b.index]
    ensures BlockByHash(after, h) == ScanHash(chain + [b], h)
  {
    assert (chain + [b])[..|chain|] == chain;
    assert BlockByHash(d, h) == ScanHash(chain, h);
  }

  lemma BlocksAfterCommit(d: Disk, after: Disk, chain: seq<Block>, b: Block)
    requires ExactIndexes(d, chain) && b.index == |chain|
    requires after.blocks == d.blocks[b.index := b] && after.hashes == d.hashes[HashOf(b) := b.index]
    ensures after.blocks == View(chain + [b])
    ensures forall h :: h in after.hashes ==> 0 <= after.hashes[h] < |chain + [b]|
  {
    hide BlockByHash, TxById, ScanHash, ScanTx;
  }

  lemma IndexAfterCommit(d: Disk, chain: seq<Block>, b: Block, work: nat)
    requires ExactIndexes(d, chain) && b.index == |chain|
    ensures ExactIndexes(ApplyOps(d, CommitOps(b, work)), chain + [b])
  {
    var after, next := ApplyOps(d, CommitOps(b, work)), chain + [b];
    CommitEffect(d, b, work);
    BlocksAfterCommit(d, after, chain, b);
    hide ApplyOps, CommitOps, BlockByHash, TxById, ScanHash, ScanTx, IndexTxs, View, HashOf;
    forall t ensures TxById(after, t) == ScanTx(next, t) && (t in after.txIndex ==> 0 <= after.txIndex[t] <= |chain|) {
      TxIndexAfterCommit(d, after, chain, b, t);
    }
    forall h ensures BlockByHash(after, h) == ScanHash(next, h) {
      HashIndexAfterCommit(d, after, chain, b, h);
    }
  }

  lemma ArrivalIndex(r: Rules, s: State, chain: seq<Block>, b: Block, now: int)
    requires Reflects(s, chain) && ValidChain(r, chain) && ExactIndexes(s.disk, chain)
    ensures ExactIndexes(AddBlock(r, s, b, now).0.disk, Deliver(r, chain, b, now))
  {
    hide ExactIndexes, Accepts, ValidChain, AddBlock, Reflects, CommitOps, ApplyTxs;
    AddBlockRefines(r, s, chain, b, now);
    if Accepts(r, chain, b, now) {
      AcceptedParts(r, chain, b, now);
      if b.index < |chain| { NoRivalAccepted(r, chain, b, now); }
      SequentialStep(r, s, chain, b, now);
      assert chain[..b.index] == chain;
      IndexAfterCommit(s.disk, chain, b, s.work + BlockWork(b));
    }
  }

  lemma IndexStep(r: Rules, s: State, chain: seq<Block>, e: Event)
    requires Reflects(s, chain) && ValidChain(r, chain) && ExactIndexes(s.disk, chain) && !e.Rollback?
    ensures ExactIndexes(Step(r, s, e).disk, ListStep(r, chain, e))
  {
    hide ExactIndexes, ValidChain, AddBlock, Deliver;
    match e
    case Arrive(b, now) => ArrivalIndex(r, s, chain, b, now);
    case Genesis(cb, ts) =>
      if chain == [] {
        var g := GenesisBlock(cb, ts);
        IndexAfterCommit(s.disk, chain, g, s.work + BlockWork(g));
        assert chain + [g] == [g];
      }
    case _ =>
  }

  /** In runs without explicit rollback, `get_block_by_hash` and `get_tx` agree with scanning the chain. */
  lemma {:induction false} RunIndexesExact(r: Rules, events: seq<Event>)
    requires forall i :: 0 <= i < |events| ==> !events[i].Rollback?
    ensures ExactIndexes(Run(r, Load(EMPTY_DISK), events).disk, ListRun(r, [], events))
  {
    if events != [] {
      var before, e := events[..|events| - 1], events[|events| - 1];
      RunIndexesExact(r, before);
      RunRefines(r, before);
      RunValid(r, before);
      IndexStep(r, Run(r, Load(EMPTY_DISK), before), ListRun(r, [], before), e);
    }
  }

  // ----- what a block hash commits to -----

  lemma RootCommitted(r: Rules, chain: seq<Block>, i: nat)
    requires ValidChain(r, chain) && i < |chain|
    ensures BytesRoot(BytesOf(TxIds(chain[i].txs))) == chain[i].header.root && chain[i].txs != []
  {
    if i > 0 {
      ValidParts(r, chain, i);
    } else {
      assert TxIds(chain[0].txs) == [chain[0].txs[0].txid];
    }
  }

  lemma RootSize(leaves: seq<Bytes>)
    requires leaves != [] && (|leaves| > 1 || Full(leaves))
    ensures |BytesRoot(leaves)| == DIGEST_SIZE
  {
    if |leaves| > 1 {
      ClimbRoot(leaves, 1);
      NextLayerFull(leaves);
      FullRoot(NextLayer(leaves));
    }
  }

  lemma {:induction false} FullRoot(layer: seq<Bytes>)
    requires layer != [] && Full(layer)
    ensures |LayerRoot(layer)| == DIGEST_SIZE
    decreases |layer|
  {
    if |layer| > 1 {
      NextLayerFull(layer);
      FullRoot(NextLayer(layer));
    }
  }

  /** All txids in the spelling that the program writes: lower case, no white space. */
  predicate Canonical(txids: seq<TxId>)
  {
    forall i :: 0 <= i < |txids| ==> txids[i].spelling == ""
  }

  /** What one header fixes of two blocks, by the bytes of their txids: joined neighbours if the blocks list equally
      many; the txids themselves if these have 32 bytes; one list up to Merkle layers if their bytes are distinct. */
  lemma HashCommitsToTxIds(r: Rules, chain: seq<Block>, other: seq<Block>, i: nat, j: nat)
    requires ValidChain(r, chain) && ValidChain(r, other)
    requires i < |chain| && j < |other| && HashOf(chain[i]) == HashOf(other[j])
    ensures var a, b := BytesOf(TxIds(chain[i].txs)), BytesOf(TxIds(other[j].txs));
            && a != [] && b != []
            && (|a| == |b| > 1 ==> SameJoins(a, b) && (SameLengths(a, b) ==> a == b))
            && (|a| == |b| == 1 ==> Packed(a[0]) == Packed(b[0]))
            && (Full(a) && Full(b) ==>
                  && (a == b <==> |a| == |b|)
                  && (|a| == |b| && Canonical(TxIds(chain[i].txs)) && Canonical(TxIds(other[j].txs)) ==>
                        TxIds(chain[i].txs) == TxIds(other[j].txs))
                  && (Distinct(a) && Distinct(b) ==>
                        && (LayerOf(a, b) || LayerOf(b, a))
                        && (!IsPair(a[0]) && !IsPair(b[0]) ==> a == b)))
  {
    var ids, ids' := TxIds(chain[i].txs), TxIds(other[j].txs);
    var a, b := BytesOf(ids), BytesOf(ids');
    RootCommitted(r, chain, i);
    RootCommitted(r, other, j);
    assert Packed(BytesRoot(a)) == Packed(BytesRoot(b));
    hide *;
    PackedRoots(a, b);
    if Full(a) && Full(b) && |a| == |b| && Canonical(ids) && Canonical(ids') { SameIds(ids, ids'); }
  }

  lemma SameIds(a: seq<TxId>, b: seq<TxId>)
    requires BytesOf(a) == BytesOf(b) && Canonical(a) && Canonical(b)
    ensures a == b
  {
    forall i | 0 <= i < |a| ensures a[i] == b[i] { assert BytesOf(a)[i] == BytesOf(b)[i]; }
  }

  lemma PackedRoots(a: seq<Bytes>, b: seq<Bytes>)
    requires a != [] && b != [] && Packed(BytesRoot(a)) == Packed(BytesRoot(b))
    ensures |a| == |b| > 1 ==> SameJoins(a, b) && (SameLengths(a, b) ==> a == b)
    ensures |a| == |b| == 1 ==> Packed(a[0]) == Packed(b[0])
    ensures Full(a) && Full(b) ==> (a == b <==> |a| == |b|)
    ensures Full(a) && Full(b) && Distinct(a) && Distinct(b) ==>
              (LayerOf(a, b) || LayerOf(b, a)) && (!IsPair(a[0]) && !IsPair(b[0]) ==> a == b)
  {
    hide Packed, SameJoins, Sha256d, LayerOf, IsPair;
    if |a| == |b| { RootDecides(a, b); }
    if |a| > 1 || Full(a) { RootSize(a); }
    if |b| > 1 || Full(b) { RootSize(b); }
    if Full(a) && Full(b) {
      assert |a| == |b| ==> SameLengths(a, b);
      if Distinct(a) && Distinct(b) {
        MerkleCommitment(a, b);
        if LayerOf(a, b) { LayerDecides(a, b); } else { LayerDecides(b, a); }
      }
    }
  }

  /** Counting the transactions is needed: next to every valid block of more than one transaction stands the lone
      coinbase whose txid is that block's root, under the same header and just as valid. */
  lemma OneHeaderTwoBodies(r: Rules, blocks: Blocks, u: Utxo, b: Block, coinbase: Tx)
    requires ValidOn(r, blocks, u, b) && |b.txs| > 1
    requires coinbase.coinbase && coinbase.inputs == [] && coinbase.outputs != [] && NonNegative(coinbase.outputs)
    requires coinbase.txid.bytes == b.header.root && OutSum(coinbase.outputs) <= BlockSubsidy(b.index)
    requires r.fits(b.(txs := [coinbase]))
    ensures var lone := b.(txs := [coinbase]);
            ValidOn(r, blocks, u, lone) && HashOf(lone) == HashOf(b) && TxIds(lone.txs) != TxIds(b.txs)
  {
    var lone := b.(txs := [coinbase]);
    assert TxIds(lone.txs) == [coinbase.txid] && BytesOf([coinbase.txid]) == [b.header.root];
    assert Root(TxIds(lone.txs)) == b.header.root && |TxIds(lone.txs)| == 1;
    hide MeetsTarget, MedianTimePast, BlockSubsidy, SpendOk, ParentOk, TimeOk, TotalFees;
    SameContext(blocks, b, lone);
    LoneCoinbase(r, u, lone);
    forall i | 0 <= i < |lone.txs| ensures SpendOk(r, u, lone, i) {}
  }

  lemma SameContext(blocks: Blocks, b: Block, c: Block)
    requires b.index == c.index && b.header == c.header
    ensures ParentOk(blocks, b) == ParentOk(blocks, c) && TimeOk(blocks, b) == TimeOk(blocks, c)
  {
  }

  lemma LoneCoinbase(r: Rules, u: Utxo, b: Block)
    requires |b.txs| == 1 && b.txs[0].coinbase
    ensures SpendOk(r, u, b, 0) && TotalFees(u.outs, b.txs) == 0
  {
  }

  /** Distinct bytes are needed: the duplicate check compares txids as strings. Next to a valid block of an odd number
      of transactions stands the one that goes on with any valid transaction under a respelling of the last txid. */
  lemma OneHeaderRespelled(r: Rules, blocks: Blocks, u: Utxo, b: Block, t: Tx)
    requires ValidOn(r, blocks, u, b) && |b.txs| > 1 && |b.txs| % 2 == 1
    requires t.txid.bytes == b.txs[|b.txs| - 1].txid.bytes && t.txid !in TxIds(b.txs) && !t.coinbase
    requires ValidTx(r.crypto, r.chainId, Snapshot(u, b.txs), t.inputs, t.outputs, 0, b.index, COINBASE_MATURITY)
    requires r.fits(b.(txs := b.txs + [t]))
    ensures var longer := b.(txs := b.txs + [t]);
            ValidOn(r, blocks, u, longer) && HashOf(longer) == HashOf(b) && TxIds(longer.txs) != TxIds(b.txs)
  {
    var longer := b.(txs := b.txs + [t]);
    var ids := TxIds(b.txs);
    assert TxIds(longer.txs) == ids + [t.txid];
    assert BytesOf(ids + [t.txid]) == BytesOf(ids) + [BytesOf(ids)[|ids| - 1]];
    DuplicateLastCollides(BytesOf(ids));
    LongerShape(b.txs, t);
    LongerSpends(r, u, b, t);
    LongerFees(u.outs, b.txs, t);
    hide MeetsTarget, ParentOk, TimeOk, BlockSubsidy, SpendsOk, ShapeOk, TotalFees, ValidTx, LayerRoot, Snapshot;
    SameContext(blocks, b, longer);
    assert RewardOk(u, longer);
  }

  lemma LongerShape(txs: seq<Tx>, t: Tx)
    requires ShapeOk(txs) && t.txid !in TxIds(txs) && !t.coinbase && NonNegative(t.outputs)
    ensures ShapeOk(txs + [t])
  {
    assert TxIds(txs + [t]) == TxIds(txs) + [t.txid];
  }

  lemma LongerSpends(r: Rules, u: Utxo, b: Block, t: Tx)
    requires SpendsOk(r, u, b)
    requires ValidTx(r.crypto, r.chainId, Snapshot(u, b.txs), t.inputs, t.outputs, 0, b.index, COINBASE_MATURITY)
    ensures SpendsOk(r, u, b.(txs := b.txs + [t]))
  {
    var longer := b.(txs := b.txs + [t]);
    hide ValidTx, Snapshot;
    forall i | 0 <= i < |longer.txs| ensures SpendOk(r, u, longer, i) {
      if i < |b.txs| {
        assert SpendOk(r, u, b, i);
        assert longer.txs[..i] == b.txs[..i];
      } else {
        assert longer.txs[..i] == b.txs;
      }
    }
  }

  lemma LongerFees(m: Outs, txs: seq<Tx>, t: Tx)
    ensures TotalFees(m, txs + [t]) >= TotalFees(m, txs)
  {
    assert (txs + [t])[..|txs|] == txs;
  }
}
