/** The `Blockchain` class of node/chain.py: fields updated in place, proved against ChainSpec. */
module Blockchain {
  import opened Arith
  import opened Compact
  import opened Merkle
  import opened Median
  import opened Model
  import opened CoinParams
  import opened Utxos
  import opened UtxoSet
  import opened Store
  import opened ChainSpec
  import opened ChainModel

  lemma {:induction false} StoredChainGap(blocks: Blocks, k: nat, n: nat)
    requires k <= n && k !in blocks && |StoredChain(blocks, k)| == k
    ensures StoredChain(blocks, n) == StoredChain(blocks, k)
    decreases n
  {
    if k < n { StoredChainGap(blocks, k, n - 1); }
  }

  lemma TxsOpsSnoc(txs: seq<Tx>, i: nat, height: int)
    requires i < |txs|
    ensures TxsOps(txs[..i + 1], height) == TxsOps(txs[..i], height) + TxOps(txs[i], height)
  {
    assert txs[..i + 1][..i] == txs[..i];
  }

  lemma NothingCommitted(u: Utxo, txs: seq<Tx>, at: int)
    requires txs == []
    ensures ApplyTxs(u, txs, at) == u && TxsOps(txs, at) == []
  {
  }

  lemma ConcatAssoc(a: seq<Op>, b: seq<Op>, c: seq<Op>)
    ensures (a + b) + c == a + (b + c)
  {
  }

  lemma DistinctSnoc(ids: seq<TxId>, id: TxId)
    requires Distinct(ids) && id !in ids
    ensures Distinct(ids + [id])
  {
  }

  class Chain {
    const rules: Rules
    const store: JSONStore
    var utxo: UTXOSet
    var height: int
    var tip: Hash
    var cumulativeWork: nat

    ghost function Now(): State
      reads this, utxo, store
    {
      State(utxo.Value(), height, tip, cumulativeWork, store.disk)
    }

    /** `__init__` and `_load_state`: metadata, stored outputs, and a replay if the tip does not match. */
    constructor (rules: Rules, store: JSONStore)
      ensures this.rules == rules && this.store == store
      ensures fresh(utxo)
      ensures Now() == Load(store.disk)
    {
      this.rules, this.store := rules, store;
      utxo := new UTXOSet();
      height, tip, cumulativeWork := -1, NoHash, 0;
      new;
      match store.disk.meta {
        case None =>
        case Some(m) => height, tip, cumulativeWork := m.height, m.tip, m.work;
      }
      utxo.utxos, utxo.coinbaseHeights := store.disk.utxos, store.disk.coinbaseAt;
      if height >= 0 && tip != NoHash {
        var b := GetBlock(height);
        if b.Some? && HashOf(b.value) != tip {
          utxo := BuildUtxoAtHeight(height);
        }
      }
    }

    function GetBlock(h: int): Option<Block>
      reads store
    {
      BlockAt(store.disk.blocks, h)
    }

    /** `_median_time_past`. */
    method GetMedianTimePast(index: int) returns (mtp: int)
      ensures mtp == MedianTimePast(store.disk.blocks, index)
    {
      hide Median.Median, Sort;
      var lo := Max(0, index - MTP_WINDOW);
      var times: seq<int> := [];
      var h := lo;
      while h < index
        invariant h == lo || h <= index
        invariant lo <= h
        invariant times == WindowTimes(store.disk.blocks, lo, h)
      {
        var b := GetBlock(h);
        if b.Some? { times := times + [b.value.header.timestamp]; }
        h := h + 1;
      }
      return if times == [] then 0 else Median.Median(times);
    }

    /** `_total_fees`. */
    method GetTotalFees(txs: seq<Tx>, snap: UTXOSet) returns (total: int)
      ensures total == TotalFees(snap.utxos, txs)
    {
      total := 0;
      for i := 0 to |txs|
        invariant total == TotalFees(snap.utxos, txs[..i])
      {
        TotalFeesSnoc(snap.utxos, txs, i);
        if !txs[i].coinbase {
          var ins := txs[i].inputs;
          var inSum := 0;
          for j := 0 to |ins|
            invariant inSum == PresentSum(snap.utxos, ins[..j])
          {
            assert ins[..j + 1][..j] == ins[..j];
            if snap.Has(Key(ins[j])) { inSum := inSum + snap.utxos[Key(ins[j])].value; }
          }
          assert ins[..|ins|] == ins;
          var outSum := SumOutputs(txs[i].outputs);
          total := total + Max(0, inSum - outSum);
        }
      }
      assert txs[..|txs|] == txs;
    }

    /** Steps 7 to 9 and 11 of `validate_block`, and the form of the coinbase. */
    method CheckShape(txs: seq<Tx>) returns (ok: bool)
      ensures ok == ShapeOk(txs)
      ensures ok ==> txs != []
    {
      if txs == [] { return false; }
      if exists i | 1 <= i < |txs| :: txs[i].coinbase { return false; }
      if !txs[0].coinbase { return false; }
      var seen: set<TxId> := {};
      for i := 0 to |txs|
        invariant seen == set j | 0 <= j < i :: txs[j].txid
        invariant Distinct(TxIds(txs[..i]))
      {
        if txs[i].txid in seen {
          var j :| 0 <= j < i && txs[j].txid == txs[i].txid;
          assert TxIds(txs)[j] == TxIds(txs)[i];
          return false;
        }
        DistinctSnoc(TxIds(txs[..i]), txs[i].txid);
        assert TxIds(txs[..i + 1]) == TxIds(txs[..i]) + [txs[i].txid];
        seen := seen + {txs[i].txid};
      }
      assert txs[..|txs|] == txs;
      if txs[0].inputs != [] || txs[0].outputs == [] { return false; }
      return forall i | 0 <= i < |txs| :: NonNegative(txs[i].outputs);
    }

    /** Steps 12 and 13 of `validate_block`: transactions in order on a private snapshot. */
    method CheckSpends(b: Block, base: UTXOSet) returns (ok: bool)
      ensures ok == SpendsOk(rules, base.Value(), b)
    {
      hide ValidTx;
      ghost var u := base.Value();
      var snap := base.Snapshot();
      for i := 0 to |b.txs|
        invariant fresh(snap) && base.Value() == u && snap.Value() == Utxos.Snapshot(u, b.txs[..i])
        invariant forall k :: 0 <= k < i ==> SpendOk(rules, u, b, k)
      {
        SnapshotSnoc(u, b.txs, i);
        var tx := b.txs[i];
        if !tx.coinbase {
          var valid := ValidateTransaction(rules.crypto, rules.chainId, snap, tx.inputs, tx.outputs, 0, b.index,
                                           COINBASE_MATURITY);
          if !valid {
            assert !SpendOk(rules, u, b, i);
            return false;
          }
          snap.SpendAll(tx.inputs);
          snap.AddOutputs(tx.txid, tx.outputs);
        }
      }
      ok := true;
    }

    /** `validate_block`. */
    method Validate(b: Block, bits: u32, base: UTXOSet, now: int) returns (ok: bool)
      ensures ok == ValidateBlock(rules, store.disk.blocks, base.Value(), b, bits, now)
    {
      hide ShapeOk, SpendsOk, MedianTimePast, MeetsTarget, Merkle.Root;
      if !MeetsTarget(rules.crypto, b.header) { return false; }
      if b.header.bits != bits { return false; }
      if b.index == 0 {
        if b.header.prev != ZeroHash { return false; }
      } else {
        var prev := GetBlock(b.index - 1);
        if prev.None? || HashOf(prev.value) != b.header.prev { return false; }
      }
      assert ParentOk(store.disk.blocks, b);
      var root := MerkleRoot(TxIds(b.txs));
      if root != b.header.root { return false; }
      if b.index > 0 {
        var mtp := GetMedianTimePast(b.index);
        if mtp > 0 && b.header.timestamp < mtp { return false; }
        if b.header.timestamp > now + MAX_FUTURE_SECONDS { return false; }
      }
      if !rules.fits(b) { return false; }
      var shape := CheckShape(b.txs);
      if !shape { return false; }
      var reward := SumOutputs(b.txs[0].outputs);
      var snap := base.Snapshot();
      var fees := GetTotalFees(b.txs, snap);
      if reward > BlockSubsidy(b.index) + fees { return false; }
      ok := CheckSpends(b, base);
    }

    /** `_build_utxo_at_height`. */
    method BuildUtxoAtHeight(target: int) returns (u: UTXOSet)
      ensures fresh(u)
      ensures u.Value() == BuildUtxo(store.disk.blocks, target)
    {
      u := new UTXOSet();
      var n := if target >= 0 then target + 1 else 0;
      for h := 0 to n
        invariant fresh(u)
        invariant |StoredChain(store.disk.blocks, h)| == h
        invariant u.Value() == Replay(StoredChain(store.disk.blocks, h))
      {
        var b := GetBlock(h);
        if b.None? {
          StoredChainGap(store.disk.blocks, h, n);
          return;
        }
        ReplayBlock(u, b.value.txs, h);
        ghost var next := StoredChain(store.disk.blocks, h + 1);
        assert next[..h] == StoredChain(store.disk.blocks, h) && next[h] == b.value;
      }
    }

    /** `_flush_utxo`: delete every stored output and coinbase height, then write the current ones. */
    method FlushUtxo(batch: WriteBatch)
      requires batch.ops == []
      modifies batch
      ensures ApplyOps(store.disk, batch.ops) ==
              store.disk.(utxos := utxo.utxos, coinbaseAt := utxo.coinbaseHeights)
    {
      ApplyOne(store.disk, PutUtxo(OutPoint(TxId([], ""), 0), TxOutput(0, "")));
      DeleteOutputs(batch);
      WriteOutputs(batch);
      DeleteCoinbases(batch);
      WriteCoinbases(batch);
    }

    method DeleteOutputs(batch: WriteBatch)
      requires ApplyOps(store.disk, batch.ops).utxos == store.disk.utxos
      modifies batch
      ensures ApplyOps(store.disk, batch.ops) == ApplyOps(store.disk, old(batch.ops)).(utxos := map[])
    {
      hide ApplyOps;
      ghost var before := ApplyOps(store.disk, batch.ops);
      var rest := store.disk.utxos.Keys;
      while rest != {}
        invariant ApplyOps(store.disk, batch.ops) == before.(utxos := ApplyOps(store.disk, batch.ops).utxos)
        invariant ApplyOps(store.disk, batch.ops).utxos.Keys == rest
      {
        var k :| k in rest;
        ApplyOpsSnoc(store.disk, batch.ops, DelUtxo(k));
        batch.Add(DelUtxo(k));
        rest := rest - {k};
      }
    }

    method WriteOutputs(batch: WriteBatch)
      requires ApplyOps(store.disk, batch.ops).utxos == map[]
      modifies batch
      ensures ApplyOps(store.disk, batch.ops) == ApplyOps(store.disk, old(batch.ops)).(utxos := utxo.utxos)
    {
      hide ApplyOps;
      ghost var before := ApplyOps(store.disk, batch.ops);
      var rest := utxo.utxos.Keys;
      while rest != {}
        invariant rest <= utxo.utxos.Keys
        invariant ApplyOps(store.disk, batch.ops) == before.(utxos := utxo.utxos - rest)
      {
        var k :| k in rest;
        ApplyOpsSnoc(store.disk, batch.ops, PutUtxo(k, utxo.utxos[k]));
        assert (utxo.utxos - rest)[k := utxo.utxos[k]] == utxo.utxos - (rest - {k});
        batch.Add(PutUtxo(k, utxo.utxos[k]));
        rest := rest - {k};
      }
      assert utxo.utxos - {} == utxo.utxos;
    }

    method DeleteCoinbases(batch: WriteBatch)
      requires ApplyOps(store.disk, batch.ops).coinbaseAt == store.disk.coinbaseAt
      modifies batch
      ensures ApplyOps(store.disk, batch.ops) == ApplyOps(store.disk, old(batch.ops)).(coinbaseAt := map[])
    {
      hide ApplyOps;
      ghost var before := ApplyOps(store.disk, batch.ops);
      var rest := store.disk.coinbaseAt.Keys;
      while rest != {}
        invariant ApplyOps(store.disk, batch.ops) == before.(coinbaseAt := ApplyOps(store.disk, batch.ops).coinbaseAt)
        invariant ApplyOps(store.disk, batch.ops).coinbaseAt.Keys == rest
      {
        var k :| k in rest;
        ApplyOpsSnoc(store.disk, batch.ops, DelCoinbase(k));
        batch.Add(DelCoinbase(k));
        rest := rest - {k};
      }
    }

    method WriteCoinbases(batch: WriteBatch)
      requires ApplyOps(store.disk, batch.ops).coinbaseAt == map[]
      modifies batch
      ensures ApplyOps(store.disk, batch.ops) ==
              ApplyOps(store.disk, old(batch.ops)).(coinbaseAt := utxo.coinbaseHeights)
    {
      hide ApplyOps;
      ghost var before := ApplyOps(store.disk, batch.ops);
      var rest := utxo.coinbaseHeights.Keys;
      while rest != {}
        invariant rest <= utxo.coinbaseHeights.Keys
        invariant ApplyOps(store.disk, batch.ops) == before.(coinbaseAt := utxo.coinbaseHeights - rest)
      {
        var k :| k in rest;
        ApplyOpsSnoc(store.disk, batch.ops, PutCoinbase(k, utxo.coinbaseHeights[k]));
        assert (utxo.coinbaseHeights - rest)[k := utxo.coinbaseHeights[k]] == utxo.coinbaseHeights - (rest - {k});
        batch.Add(PutCoinbase(k, utxo.coinbaseHeights[k]));
        rest := rest - {k};
      }
      assert utxo.coinbaseHeights - {} == utxo.coinbaseHeights;
    }

    /** `_save_meta`. */
    method SaveMeta(batch: WriteBatch)
      modifies batch
      ensures batch.ops == old(batch.ops) + [PutMeta(Meta(height, tip, cumulativeWork))]
    {
      batch.Add(PutMeta(Meta(height, tip, cumulativeWork)));
    }

    /** `_rollback_to`: memory from a replay, then one batch. */
    method Rollback(target: int)
      modifies this, store
      ensures Now() == RollbackTo(old(Now()), target)
      ensures fresh(utxo)
      ensures store.written == old(store.written) + [store.disk]
      ensures -1 <= target <= old(height) ==>
                store.written == old(store.written) + Disks(AtBatches(rules, old(Now()), Event.Rollback(target)))
    {
      utxo := BuildUtxoAtHeight(target);
      height := target;
      var b := GetBlock(target);
      tip := match b case None => NoHash case Some(block) => HashOf(block);
      cumulativeWork := WorkAt(store.disk, target);
      var batch := new WriteBatch();
      FlushUtxo(batch);
      ApplyOpsSnoc(store.disk, batch.ops, PutMeta(Meta(height, tip, cumulativeWork)));
      SaveMeta(batch);
      store.Write(batch);
    }

    /** Spend a transaction's inputs in memory and queue the deletions. */
    method CommitSpends(batch: WriteBatch, ins: seq<TxInput>)
      modifies batch, utxo
      ensures batch.ops == old(batch.ops) + SpendOps(ins)
      ensures utxo.Value() == old(utxo.Value()).(outs := old(utxo.utxos) - Spent(ins))
    {
      assert utxo.utxos - Spent([]) == utxo.utxos;
      for j := 0 to |ins|
        invariant batch.ops == old(batch.ops) + SpendOps(ins[..j])
        invariant utxo.Value() == old(utxo.Value()).(outs := old(utxo.utxos) - Spent(ins[..j]))
      {
        SpentSnoc(ins, j);
        assert SpendOps(ins[..j + 1]) == SpendOps(ins[..j]) + [DelUtxo(Key(ins[j]))];
        assert old(utxo.utxos) - Spent(ins[..j]) - {Key(ins[j])} == old(utxo.utxos) - Spent(ins[..j + 1]);
        batch.Add(DelUtxo(Key(ins[j])));
        utxo.Spend(ins[j]);
      }
      assert ins[..|ins|] == ins;
    }

    /** Create a transaction's outputs in memory and queue the writes. */
    method CommitOutputs(batch: WriteBatch, txid: TxId, outs: seq<TxOutput>)
      modifies batch, utxo
      ensures batch.ops == old(batch.ops) + CreateOps(txid, outs)
      ensures utxo.Value() == old(utxo.Value()).(outs := old(utxo.utxos) + Created(txid, outs))
    {
      assert utxo.utxos + Created(txid, []) == utxo.utxos;
      for j := 0 to |outs|
        invariant batch.ops == old(batch.ops) + CreateOps(txid, outs[..j])
        invariant utxo.Value() == old(utxo.Value()).(outs := old(utxo.utxos) + Created(txid, outs[..j]))
      {
        assert outs[..j + 1][..j] == outs[..j];
        CreateSnoc(old(utxo.utxos), txid, outs[..j + 1]);
        assert CreateOps(txid, outs[..j + 1]) == CreateOps(txid, outs[..j]) + [PutUtxo(OutPoint(txid, j), outs[j])];
        batch.Add(PutUtxo(OutPoint(txid, j), outs[j]));
        utxo.utxos := utxo.utxos[OutPoint(txid, j) := outs[j]];
      }
      assert outs[..|outs|] == outs;
    }

    method CommitTx(batch: WriteBatch, tx: Tx, at: int)
      modifies batch, utxo
      ensures batch.ops == old(batch.ops) + TxOps(tx, at)
      ensures utxo.Value() == ApplyTx(old(utxo.Value()), tx, at)
    {
      if !tx.coinbase { CommitSpends(batch, tx.inputs); }
      CommitOutputs(batch, tx.txid, tx.outputs);
      if tx.coinbase {
        batch.Add(PutCoinbase(tx.txid, at));
        utxo.coinbaseHeights := utxo.coinbaseHeights[tx.txid := at];
      }
      batch.Add(PutTxIndex(tx.txid, at));
    }

    /** The transaction loop of `_commit`. */
    method CommitTxs(batch: WriteBatch, txs: seq<Tx>, at: int)
      modifies batch, utxo
      ensures batch.ops == old(batch.ops) + TxsOps(txs, at)
      ensures utxo.Value() == ApplyTxs(old(utxo.Value()), txs, at)
    {
      NothingCommitted(utxo.Value(), txs[..0], at);
      hide *;
      for i := 0 to |txs|
        invariant batch.ops == old(batch.ops) + TxsOps(txs[..i], at)
        invariant utxo.Value() == ApplyTxs(old(utxo.Value()), txs[..i], at)
      {
        ApplyTxsSnoc(old(utxo.Value()), txs, i, at);
        TxsOpsSnoc(txs, i, at);
        ConcatAssoc(old(batch.ops), TxsOps(txs[..i], at), TxOps(txs[i], at));
        CommitTx(batch, txs[i], at);
      }
      assert txs[..|txs|] == txs;
    }

    /** `_commit`: memory is updated while the batch is built, and the batch is written at the end. */
    method CommitBlock(b: Block)
      requires b.index >= 0
      modifies this, utxo, store
      ensures Now() == Commit(old(Now()), b)
      ensures utxo == old(utxo)
      ensures store.written == old(store.written) + [store.disk]
    {
      hide ApplyTxs, TxsOps, ApplyOps, BlockWork;
      var newWork := cumulativeWork + BlockWork(b);
      var batch := new WriteBatch();
      batch.Add(PutBlock(b.index, b));
      batch.Add(PutHash(HashOf(b), b.index));
      batch.Add(PutWork(b.index, newWork));
      CommitTxs(batch, b.txs, b.index);
      height, tip, cumulativeWork := b.index, HashOf(b), newWork;
      SaveMeta(batch);
      assert batch.ops == CommitOps(b, newWork);
      store.Write(batch);
    }

    /** `add_genesis`. */
    method AddGenesisBlock(coinbase: Tx, timestamp: u32)
      modifies this, utxo, store
      ensures Now() == AddGenesis(old(Now()), coinbase, timestamp)
      ensures utxo == old(utxo)
      ensures store.written ==
              old(store.written) + Disks(AtBatches(rules, old(Now()), Event.Genesis(coinbase, timestamp)))
    {
      if height >= 0 { return; }
      CommitBlock(GenesisBlock(coinbase, timestamp));
    }

    /** `_try_reorg`. */
    method Reorg(b: Block, now: int) returns (ok: bool)
      modifies this, store
      ensures (Now(), ok) == TryReorg(rules, old(Now()), b, now)
      ensures utxo == old(utxo) || fresh(utxo)
      ensures store.written == old(store.written) + Disks(ReorgBatches(rules, old(Now()), b, now))
    {
      hide ValidateBlock, BuildUtxo, ExpectedBits, Commit, RollbackTo;
      var fork := BlockByHash(store.disk, b.header.prev);
      if fork.None? { return false; }
      var work := WorkAt(store.disk, fork.value.index) + BlockWork(b);
      if work <= cumulativeWork { return false; }
      var bits := ExpectedBits(rules, store.disk.blocks, b.index);
      var base := BuildUtxoAtHeight(fork.value.index);
      var valid := Validate(b, bits, base, now);
      if !valid { return false; }
      assert b.index >= 0 by { ValidIndex(b, bits, base.Value(), now); }
      Rollback(fork.value.index);
      CommitBlock(b);
      ok := true;
    }

    lemma ValidIndex(b: Block, bits: u32, u: Utxo, now: int)
      requires ValidateBlock(rules, store.disk.blocks, u, b, bits, now)
      ensures b.index >= 0
    {
    }

    /** `add_block`. */
    method Add(b: Block, now: int) returns (ok: bool)
      modifies this, utxo, store
      ensures (Now(), ok) == AddBlock(rules, old(Now()), b, now)
      ensures utxo == old(utxo) || fresh(utxo)
      ensures store.written == old(store.written) + Disks(AtBatches(rules, old(Now()), Arrive(b, now)))
    {
      hide ValidateBlock, ExpectedBits, Commit, TryReorg;
      var bits := ExpectedBits(rules, store.disk.blocks, b.index);
      if b.index == height + 1 && b.header.prev == tip {
        var valid := Validate(b, bits, utxo, now);
        if !valid { return false; }
        assert b.index >= 0 by { ValidIndex(b, bits, utxo.Value(), now); }
        CommitBlock(b);
        return true;
      }
      if b.index <= height {
        ok := Reorg(b, now);
        return;
      }
      ok := false;
    }
  }
}
