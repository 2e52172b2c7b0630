/** The one fact behind all of a node's records: the list of accepted blocks. */
module ChainModel {
  import opened Arith
  import opened Compact
  import opened Merkle
  import opened Median
  import opened Model
  import opened CoinParams
  import opened Utxos
  import opened Store
  import opened ChainSpec

  function TipOf(chain: seq<Block>): Hash
  {
    if chain == [] then NoHash else HashOf(chain[|chain| - 1])
  }

  function TotalWork(chain: seq<Block>): nat
  {
    if chain == [] then 0 else TotalWork(chain[..|chain| - 1]) + BlockWork(chain[|chain| - 1])
  }

  /** A chain as the program would see it through `get_block`. */
  function View(chain: seq<Block>): Blocks
  {
    map i: nat | i < |chain| :: chain[i]
  }

  predicate LinkedAt(chain: seq<Block>, i: nat)
    requires i < |chain|
  {
    && chain[i].index == i
    && chain[i].header.prev == if i == 0 then ZeroHash else HashOf(chain[i - 1])
  }

  predicate Linked(chain: seq<Block>)
  {
    forall i :: 0 <= i < |chain| ==> LinkedAt(chain, i)
  }

  /** The records of main-chain block i; records of other blocks may hold anything. */
  predicate StoredAt(d: Disk, chain: seq<Block>, i: nat)
    requires i < |chain|
  {
    && i in d.blocks && d.blocks[i] == chain[i]
    && i in d.work && d.work[i] == TotalWork(chain[..i + 1])
    && HashOf(chain[i]) in d.hashes && d.hashes[HashOf(chain[i])] == i
  }

  predicate StoresMain(d: Disk, chain: seq<Block>)
  {
    forall i :: 0 <= i < |chain| ==> StoredAt(d, chain, i)
  }

  /** The store holds what memory holds. */
  predicate Persisted(s: State)
  {
    && s.disk.utxos == s.utxo.outs
    && s.disk.coinbaseAt == s.utxo.coinbaseAt
    && match s.disk.meta
       case None => s.height == -1 && s.tip == NoHash && s.work == 0
       case Some(m) => m == Meta(s.height, s.tip, s.work)
  }

  /** Every redundant form of the node's state agrees with the chain. */
  predicate Reflects(s: State, chain: seq<Block>)
  {
    && s.height == |chain| - 1
    && s.tip == TipOf(chain)
    && s.work == TotalWork(chain)
    && s.utxo == Replay(chain)
    && Linked(chain)
    && StoresMain(s.disk, chain)
    && (forall h :: h in s.disk.hashes ==> h.Of?)
    && Persisted(s)
  }

  // ----- the list machine -----

  /** b is a valid next block after the first b.index blocks of the chain. */
  predicate ValidAfter(r: Rules, chain: seq<Block>, b: Block, now: int)
  {
    && 1 <= b.index <= |chain|
    && b.header.prev == HashOf(chain[b.index - 1])
    && ValidateBlock(r, View(chain[..b.index]), Replay(chain[..b.index]), b,
                     ExpectedBits(r, View(chain[..b.index]), b.index), now)
  }

  /** Extending the tip needs validity; replacing blocks needs strictly more total work as well. */
  predicate Accepts(r: Rules, chain: seq<Block>, b: Block, now: int)
  {
    && ValidAfter(r, chain, b, now)
    && (b.index < |chain| ==> TotalWork(chain[..b.index]) + BlockWork(b) > TotalWork(chain))
  }

  function Deliver(r: Rules, chain: seq<Block>, b: Block, now: int): seq<Block>
  {
    if Accepts(r, chain, b, now) then chain[..b.index] + [b] else chain
  }

  // ----- reading the store through the chain -----

  predicate Agree(a: Blocks, b: Blocks, n: int)
  {
    forall h :: 0 <= h < n ==> BlockAt(a, h) == BlockAt(b, h)
  }

  lemma {:induction false} WindowAgrees(a: Blocks, b: Blocks, n: int, lo: int, hi: int)
    requires Agree(a, b, n) && 0 <= lo && hi <= n
    ensures WindowTimes(a, lo, hi) == WindowTimes(b, lo, hi)
    decreases hi - lo
  {
    if lo < hi {
      assert BlockAt(a, hi - 1) == BlockAt(b, hi - 1);
      WindowAgrees(a, b, n, lo, hi - 1);
    }
  }

  lemma BitsAreLocal(r: Rules, a: Blocks, b: Blocks, height: int)
    requires Agree(a, b, height)
    ensures ExpectedBits(r, a, height) == ExpectedBits(r, b, height)
  {
    assert BlockAt(a, height - 1) == BlockAt(b, height - 1);
    assert BlockAt(a, height - RETARGET_INTERVAL) == BlockAt(b, height - RETARGET_INTERVAL);
  }

  lemma ContextIsLocal(a: Blocks, b: Blocks, x: Block)
    requires Agree(a, b, x.index)
    ensures ParentOk(a, x) == ParentOk(b, x)
    ensures TimeOk(a, x) == TimeOk(b, x)
  {
    hide HashOf, Median.Median, WindowTimes;
    if x.index > 0 {
      assert BlockAt(a, x.index - 1) == BlockAt(b, x.index - 1);
      WindowAgrees(a, b, x.index, Max(0, x.index - MTP_WINDOW), x.index);
    }
  }

  /** Validation of a block reads only what lies below its index. */
  lemma ValidationIsLocal(r: Rules, a: Blocks, b: Blocks, u: Utxo, x: Block)
    requires Agree(a, b, x.index)
    ensures ExpectedBits(r, a, x.index) == ExpectedBits(r, b, x.index)
    ensures ValidOn(r, a, u, x) == ValidOn(r, b, u, x)
  {
    BitsAreLocal(r, a, b, x.index);
    ContextIsLocal(a, b, x);
    var shared := MeetsTarget(r.crypto, x.header) && Root(TxIds(x.txs)) == x.header.root && r.fits(x)
                  && ShapeOk(x.txs) && x.index >= 0 && RewardOk(u, x) && SpendsOk(r, u, x);
    assert ValidOn(r, a, u, x) == (shared && ParentOk(a, x) && TimeOk(a, x));
    assert ValidOn(r, b, u, x) == (shared && ParentOk(b, x) && TimeOk(b, x));
  }

  lemma StoreAgrees(d: Disk, chain: seq<Block>, n: nat)
    requires StoresMain(d, chain) && n <= |chain|
    ensures Agree(d.blocks, View(chain[..n]), n)
  {
    forall h | 0 <= h < n ensures BlockAt(d.blocks, h) == BlockAt(View(chain[..n]), h) {
      assert StoredAt(d, chain, h);
    }
  }

  lemma {:induction false} StoredChainIs(d: Disk, chain: seq<Block>, n: nat)
    requires StoresMain(d, chain) && n <= |chain|
    ensures StoredChain(d.blocks, n) == chain[..n]
  {
    if n > 0 {
      StoredChainIs(d, chain, n - 1);
      assert StoredAt(d, chain, n - 1);
      assert chain[..n] == chain[..n - 1] + [chain[n - 1]];
    }
  }

  /** Replaying the stored blocks gives the outputs of the prefix. */
  lemma BuildIs(s: State, chain: seq<Block>, target: int)
    requires Reflects(s, chain) && -1 <= target < |chain|
    ensures BuildUtxo(s.disk.blocks, target) == Replay(chain[..target + 1])
  {
    StoredChainIs(s.disk, chain, target + 1);
  }

  lemma {:induction false} ChainDepth(chain: seq<Block>, i: nat)
    requires Linked(chain) && i < |chain|
    ensures Depth(HashOf(chain[i])) == i + 1
  {
    assert LinkedAt(chain, i);
    if i > 0 { ChainDepth(chain, i - 1); }
  }

  // ----- what a commit does to the store -----

  function IndexTxs(index: map<TxId, int>, txs: seq<Tx>, height: int): map<TxId, int>
  {
    if txs == [] then index else IndexTxs(index, txs[..|txs| - 1], height)[txs[|txs| - 1].txid := height]
  }

  lemma {:induction false} SpendOpsEffect(d: Disk, ins: seq<TxInput>)
    ensures ApplyOps(d, SpendOps(ins)) == d.(utxos := d.utxos - Spent(ins))
  {
    if ins == [] {
      assert d.utxos - Spent(ins) == d.utxos;
    } else {
      var n := |ins| - 1;
      SpendOpsEffect(d, ins[..n]);
      assert SpendOps(ins)[..n] == SpendOps(ins[..n]);
      SpentSnoc(ins, n);
      assert ins[..n + 1] == ins;
      assert d.utxos - Spent(ins) == d.utxos - Spent(ins[..n]) - {Key(ins[n])};
    }
  }

  lemma {:induction false} CreateOpsEffect(d: Disk, txid: TxId, outs: seq<TxOutput>)
    ensures ApplyOps(d, CreateOps(txid, outs)) == d.(utxos := d.utxos + Created(txid, outs))
  {
    if outs == [] {
      assert d.utxos + Created(txid, outs) == d.utxos;
    } else {
      var n := |outs| - 1;
      CreateOpsEffect(d, txid, outs[..n]);
      assert CreateOps(txid, outs) == CreateOps(txid, outs[..n]) + [PutUtxo(OutPoint(txid, n), outs[n])];
      ApplyOpsSnoc(d, CreateOps(txid, outs[..n]), PutUtxo(OutPoint(txid, n), outs[n]));
      CreateSnoc(d.utxos, txid, outs);
      hide CreateOps, Created, ApplyOps;
    }
  }

  lemma MoveOpsEffect(d: Disk, tx: Tx)
    ensures ApplyOps(d, (if tx.coinbase then [] else SpendOps(tx.inputs)) + CreateOps(tx.txid, tx.outputs))
            == d.(utxos := ApplyOuts(d.utxos, tx))
  {
    var spends := if tx.coinbase then [] else SpendOps(tx.inputs);
    SpendOpsEffect(d, tx.inputs);
    CreateOpsEffect(ApplyOps(d, spends), tx.txid, tx.outputs);
    ApplyOpsConcat(d, spends, CreateOps(tx.txid, tx.outputs));
  }

  lemma TxOpsEffect(d: Disk, tx: Tx, height: int)
    ensures var u := ApplyTx(Utxo(d.utxos, d.coinbaseAt), tx, height);
            ApplyOps(d, TxOps(tx, height)) ==
            d.(utxos := u.outs, coinbaseAt := u.coinbaseAt, txIndex := d.txIndex[tx.txid := height])
  {
    var moves := (if tx.coinbase then [] else SpendOps(tx.inputs)) + CreateOps(tx.txid, tx.outputs);
    var marks := if tx.coinbase then [PutCoinbase(tx.txid, height)] else [];
    MoveOpsEffect(d, tx);
    hide SpendOps, CreateOps, ApplyOps, ApplyOuts;
    var d1 := ApplyOps(d, moves);
    ApplyOpsConcat(d, moves, marks);
    ApplyOne(d1, PutCoinbase(tx.txid, height));
    ApplyOpsSnoc(d, moves + marks, PutTxIndex(tx.txid, height));
  }

  lemma {:induction false} TxsOpsEffect(d: Disk, txs: seq<Tx>, height: int)
    ensures var u := ApplyTxs(Utxo(d.utxos, d.coinbaseAt), txs, height);
            ApplyOps(d, TxsOps(txs, height)) ==
            d.(utxos := u.outs, coinbaseAt := u.coinbaseAt, txIndex := IndexTxs(d.txIndex, txs, height))
  {
    if txs != [] {
      var init, last := txs[..|txs| - 1], txs[|txs| - 1];
      TxsOpsEffect(d, init, height);
      TxOpsEffect(ApplyOps(d, TxsOps(init, height)), last, height);
      ApplyOpsConcat(d, TxsOps(init, height), TxOps(last, height));
    }
  }

  lemma HeadOpsEffect(d: Disk, b: Block, work: nat)
    requires b.index >= 0
    ensures ApplyOps(d, [PutBlock(b.index, b), PutHash(HashOf(b), b.index), PutWork(b.index, work)]) ==
            d.(blocks := d.blocks[b.index := b], hashes := d.hashes[HashOf(b) := b.index],
               work := d.work[b.index := work])
  {
    var o1, o2, o3 := PutBlock(b.index, b), PutHash(HashOf(b), b.index), PutWork(b.index, work);
    ApplyOne(d, o1);
    hide ApplyOps, HashOf;
    ApplyOpsSnoc(d, [o1], o2);
    ApplyOpsSnoc(d, [o1, o2], o3);
    assert [o1] + [o2] == [o1, o2] && [o1, o2] + [o3] == [o1, o2, o3];
  }

  /** The store after the commit batch, record family by record family. */
  lemma CommitEffect(d: Disk, b: Block, work: nat)
    requires b.index >= 0
    ensures var u := ApplyTxs(Utxo(d.utxos, d.coinbaseAt), b.txs, b.index);
            ApplyOps(d, CommitOps(b, work)) ==
            Disk(d.blocks[b.index := b], d.hashes[HashOf(b) := b.index], d.work[b.index := work],
                 u.outs, u.coinbaseAt, IndexTxs(d.txIndex, b.txs, b.index), Some(Meta(b.index, HashOf(b), work)))
  {
    var head := [PutBlock(b.index, b), PutHash(HashOf(b), b.index), PutWork(b.index, work)];
    var ops := TxsOps(b.txs, b.index);
    hide ApplyOps, TxsOps, ApplyTxs, IndexTxs, HashOf;
    HeadOpsEffect(d, b, work);
    ApplyOpsConcat(d, head, ops);
    TxsOpsEffect(ApplyOps(d, head), b.txs, b.index);
    ApplyOpsSnoc(d, head + ops, PutMeta(Meta(b.index, HashOf(b), work)));
  }

  // ----- every step keeps the agreement -----

  lemma StoresAfterCommit(d: Disk, after: Disk, chain: seq<Block>, b: Block)
    requires StoresMain(d, chain) && Linked(chain + [b])
    requires after.blocks == d.blocks[|chain| := b] && after.hashes == d.hashes[HashOf(b) := |chain|]
    requires after.work == d.work[|chain| := TotalWork(chain) + BlockWork(b)]
    ensures StoresMain(after, chain + [b])
  {
    var next, n := chain + [b], |chain|;
    assert next[..n] == chain;
    hide HashOf, BlockWork;
    forall i | 0 <= i <= n ensures StoredAt(after, next, i) {
      if i < n {
        assert StoredAt(d, chain, i);
        ChainDepth(next, i);
        ChainDepth(next, n);
        assert next[..i + 1] == chain[..i + 1];
      } else {
        assert next[..n + 1] == next;
      }
    }
  }

  lemma LinkedAfter(chain: seq<Block>, b: Block)
    requires Linked(chain) && b.index == |chain|
    requires b.header.prev == if chain == [] then ZeroHash else TipOf(chain)
    ensures Linked(chain + [b])
  {
    forall i | 0 <= i <= |chain| ensures LinkedAt(chain + [b], i) {
      if i < |chain| { assert LinkedAt(chain, i); }
    }
  }

  lemma CommitStep(s: State, chain: seq<Block>, b: Block)
    requires Reflects(s, chain)
    requires b.index == |chain|
    requires b.header.prev == if chain == [] then ZeroHash else TipOf(chain)
    ensures Reflects(Commit(s, b), chain + [b])
  {
    var next := chain + [b];
    assert next[..|chain|] == chain;
    CommitEffect(s.disk, b, s.work + BlockWork(b));
    hide ApplyOps, CommitOps, ApplyTxs, IndexTxs, StoresMain, Linked, BlockWork, HashOf;
    LinkedAfter(chain, b);
    StoresAfterCommit(s.disk, Commit(s, b).disk, chain, b);
  }

  /** Rolling back to any height restores exactly the state of that prefix, whatever was built above it. */
  lemma RollbackStep(s: State, chain: seq<Block>, target: int)
    requires Reflects(s, chain) && -1 <= target < |chain|
    ensures Reflects(RollbackTo(s, target), chain[..target + 1])
  {
    var cut := chain[..target + 1];
    BuildIs(s, chain, target);
    forall i | 0 <= i < |cut| ensures LinkedAt(cut, i) && StoredAt(RollbackTo(s, target).disk, cut, i) {
      assert LinkedAt(chain, i) && StoredAt(s.disk, chain, i);
      assert cut[..i + 1] == chain[..i + 1];
    }
    if target >= 0 {
      assert StoredAt(s.disk, chain, target);
      assert cut[|cut| - 1] == chain[target];
    }
  }

  /** A restart reads back the very state that memory held. */
  lemma LoadStep(s: State, chain: seq<Block>)
    requires Reflects(s, chain)
    ensures Load(s.disk) == s
  {
    if chain != [] { assert StoredAt(s.disk, chain, |chain| - 1); }
  }

  lemma ParentIn(r: Rules, blocks: Blocks, u: Utxo, b: Block, parent: Block)
    requires b.index >= 1 && BlockAt(blocks, b.index - 1) == Some(parent)
    ensures ValidOn(r, blocks, u, b) ==> b.header.prev == HashOf(parent)
  {
    hide TimeOk, ShapeOk, SpendsOk, RewardOk;
  }

  lemma ValidationThroughStore(r: Rules, s: State, chain: seq<Block>, b: Block, now: int)
    requires Reflects(s, chain) && 1 <= b.index <= |chain|
    ensures var u := Replay(chain[..b.index]);
            ValidAfter(r, chain, b, now) <==>
            ValidateBlock(r, s.disk.blocks, u, b, ExpectedBits(r, s.disk.blocks, b.index), now)
  {
    hide ValidOn, ExpectedBits, Replay, NotFromFuture, View, Agree;
    var u, parent := Replay(chain[..b.index]), chain[b.index - 1];
    StoreAgrees(s.disk, chain, b.index);
    ValidationIsLocal(r, s.disk.blocks, View(chain[..b.index]), u, b);
    assert StoredAt(s.disk, chain, b.index - 1);
    ParentIn(r, s.disk.blocks, u, b, parent);
  }

  lemma UnknownParent(r: Rules, s: State, chain: seq<Block>, b: Block, now: int)
    requires Reflects(s, chain) && b.index < |chain|
    requires b.index >= 1 ==> b.header.prev != HashOf(chain[b.index - 1])
    ensures TryReorg(r, s, b, now) == (s, false)
  {
    if b.index >= 1 {
      assert StoredAt(s.disk, chain, b.index - 1);
    }
    assert b.index < 1 ==> !ParentOk(s.disk.blocks, b) || b.header.prev !in s.disk.hashes;
  }

  lemma KnownParent(r: Rules, s: State, chain: seq<Block>, b: Block, now: int)
    requires Reflects(s, chain) && 1 <= b.index < |chain|
    requires b.header.prev == HashOf(chain[b.index - 1])
    ensures TryReorg(r, s, b, now) ==
            if Accepts(r, chain, b, now) then (Commit(RollbackTo(s, b.index - 1), b), true) else (s, false)
  {
    hide ValidateBlock, Commit, RollbackTo, BuildUtxo;
    var p := b.index - 1;
    assert StoredAt(s.disk, chain, p) && LinkedAt(chain, p);
    ValidationThroughStore(r, s, chain, b, now);
    BuildIs(s, chain, p);
    assert BlockByHash(s.disk, b.header.prev) == Some(chain[p]);
  }

  /** A reorganisation is exactly: known parent on the main chain, valid after it, strictly more work. */
  lemma ReorgStep(r: Rules, s: State, chain: seq<Block>, b: Block, now: int)
    requires Reflects(s, chain) && b.index < |chain|
    ensures TryReorg(r, s, b, now).1 <==> Accepts(r, chain, b, now)
    ensures TryReorg(r, s, b, now).1 ==>
              && TryReorg(r, s, b, now).0 == Commit(RollbackTo(s, b.index - 1), b)
              && Reflects(RollbackTo(s, b.index - 1), chain[..b.index])
              && Reflects(TryReorg(r, s, b, now).0, chain[..b.index] + [b])
              && TryReorg(r, s, b, now).0.work > s.work
    ensures !TryReorg(r, s, b, now).1 ==> TryReorg(r, s, b, now).0 == s
  {
    if b.index >= 1 && b.header.prev == HashOf(chain[b.index - 1]) {
      KnownParent(r, s, chain, b, now);
      if Accepts(r, chain, b, now) {
        var p, cut := b.index - 1, chain[..b.index];
        assert TotalWork(cut) + BlockWork(b) > TotalWork(chain);
        hide Accepts, TryReorg, RollbackTo, BlockWork;
        RollbackStep(s, chain, p);
        assert TipOf(cut) == HashOf(chain[p]);
        CommitStep(RollbackTo(s, p), cut, b);
      }
    } else {
      UnknownParent(r, s, chain, b, now);
    }
  }

  lemma SequentialStep(r: Rules, s: State, chain: seq<Block>, b: Block, now: int)
    requires Reflects(s, chain) && b.index >= |chain|
    ensures AddBlock(r, s, b, now) == if Accepts(r, chain, b, now) then (Commit(s, b), true) else (s, false)
    ensures Accepts(r, chain, b, now) ==> Reflects(Commit(s, b), chain + [b])
  {
    if chain != [] && b.index == |chain| {
      assert chain[..b.index] == chain;
      ValidationThroughStore(r, s, chain, b, now);
      if Accepts(r, chain, b, now) { CommitStep(s, chain, b); }
    }
  }

  /** `add_block` on all its records is `Deliver` on the list of blocks, and a refusal changes nothing. */
  lemma AddBlockRefines(r: Rules, s: State, chain: seq<Block>, b: Block, now: int)
    requires Reflects(s, chain)
    ensures AddBlock(r, s, b, now).1 <==> Accepts(r, chain, b, now)
    ensures Reflects(AddBlock(r, s, b, now).0, Deliver(r, chain, b, now))
    ensures !Accepts(r, chain, b, now) ==> AddBlock(r, s, b, now).0 == s
  {
    if b.index >= |chain| {
      SequentialStep(r, s, chain, b, now);
      if b.index == |chain| { assert chain[..b.index] == chain; }
    } else {
      ReorgStep(r, s, chain, b, now);
    }
  }

  lemma GenesisStep(s: State, chain: seq<Block>, coinbase: Tx, timestamp: u32)
    requires Reflects(s, chain)
    ensures Reflects(AddGenesis(s, coinbase, timestamp),
                     if chain == [] then [GenesisBlock(coinbase, timestamp)] else chain)
  {
    if chain == [] {
      var g := GenesisBlock(coinbase, timestamp);
      CommitStep(s, chain, g);
      assert chain + [g] == [g];
    }
  }

  /** The genesis block as stored, field by field; its root is its coinbase's txid. */
  lemma GenesisStored(s: State, coinbase: Tx, timestamp: u32)
    requires s.height < 0
    ensures var after := AddGenesis(s, coinbase, timestamp);
            && 0 in after.disk.blocks
            && after.disk.blocks[0] ==
               Block(0, Header(1, ZeroHash, coinbase.txid.bytes, timestamp, 0x200F_FFFF, 0), [coinbase])
            && after.height == 0 && after.tip == HashOf(after.disk.blocks[0])
  {
    var g := GenesisBlock(coinbase, timestamp);
    CommitEffect(s.disk, g, s.work + BlockWork(g));
    assert BytesOf([coinbase.txid]) == [coinbase.txid.bytes];
    hide ApplyOps, CommitOps, BlockWork, ApplyTxs;
  }

  /** Whatever was built since, rolling back to a height brings back the state held when that was the tip. */
  lemma RollbackRestores(before: State, after: State, chain: seq<Block>, target: int)
    requires -1 <= target < |chain| && Reflects(before, chain[..target + 1]) && Reflects(after, chain)
    ensures var back := RollbackTo(after, target);
            && back.(disk := before.disk) == before
            && back.disk.utxos == before.disk.utxos && back.disk.coinbaseAt == before.disk.coinbaseAt
            && back.disk.blocks == after.disk.blocks && back.disk.hashes == after.disk.hashes
            && back.disk.work == after.disk.work && back.disk.txIndex == after.disk.txIndex
  {
    RollbackStep(after, chain, target);
  }

  /** If the stored tip is not the hash of the stored top block, a restart ignores the output records
      and replays the chain instead. */
  lemma MismatchedTipReplays(s: State, chain: seq<Block>, tip: Hash, utxos: Outs, coinbaseAt: map<TxId, int>, work: nat)
    requires Reflects(s, chain) && chain != [] && tip != NoHash && tip != s.tip
    ensures var d := s.disk.(meta := Some(Meta(s.height, tip, work)), utxos := utxos, coinbaseAt := coinbaseAt);
            Load(d).utxo == s.utxo && Load(d).height == s.height
  {
    assert StoredAt(s.disk, chain, |chain| - 1);
    BuildIs(s, chain, s.height);
    assert chain[..|chain|] == chain;
  }

  // ----- whole runs -----

  /** What can happen to a node: its first block, a block arriving, an explicit rollback, a restart. */
  datatype Event =
    | Genesis(coinbase: Tx, timestamp: u32)
    | Arrive(block: Block, now: int)
    | Rollback(target: int)
    | Restart

  function Step(r: Rules, s: State, e: Event): State
  {
    match e
    case Genesis(cb, ts) => AddGenesis(s, cb, ts)
    case Arrive(b, now) => AddBlock(r, s, b, now).0
    case Rollback(t) => if -1 <= t <= s.height then RollbackTo(s, t) else s
    case Restart => Load(s.disk)
  }

  function Run(r: Rules, s: State, events: seq<Event>): State
  {
    if events == [] then s else Step(r, Run(r, s, events[..|events| - 1]), events[|events| - 1])
  }

  function ListStep(r: Rules, chain: seq<Block>, e: Event): seq<Block>
  {
    match e
    case Genesis(cb, ts) => if chain == [] then [GenesisBlock(cb, ts)] else chain
    case Arrive(b, now) => Deliver(r, chain, b, now)
    case Rollback(t) => if -1 <= t < |chain| then chain[..t + 1] else chain
    case Restart => chain
  }

  function ListRun(r: Rules, chain: seq<Block>, events: seq<Event>): seq<Block>
  {
    if events == [] then chain else ListStep(r, ListRun(r, chain, events[..|events| - 1]), events[|events| - 1])
  }

  lemma StepRefines(r: Rules, s: State, chain: seq<Block>, e: Event)
    requires Reflects(s, chain)
    ensures Reflects(Step(r, s, e), ListStep(r, chain, e))
  {
    match e
    case Genesis(cb, ts) => GenesisStep(s, chain, cb, ts);
    case Arrive(b, now) => AddBlockRefines(r, s, chain, b, now);
    case Rollback(t) => if -1 <= t <= s.height { RollbackStep(s, chain, t); }
    case Restart => LoadStep(s, chain);
  }

  /** From an empty store, whatever happens, every record agrees with one list of blocks. */
  lemma {:induction false} RunRefines(r: Rules, events: seq<Event>)
    ensures Reflects(Run(r, Load(EMPTY_DISK), events), ListRun(r, [], events))
  {
    if events != [] {
      var before := events[..|events| - 1];
      RunRefines(r, before);
      StepRefines(r, Run(r, Load(EMPTY_DISK), before), ListRun(r, [], before), events[|events| - 1]);
    }
  }

  // ----- batch boundaries -----

  /** What memory holds each time a reorganisation has written a batch: after the rollback and after the commit. */
  function ReorgBatches(r: Rules, s: State, b: Block, now: int): seq<State>
  {
    var (next, ok) := TryReorg(r, s, b, now);
    match BlockByHash(s.disk, b.header.prev)
    case None => []
    case Some(fork) => if ok then [RollbackTo(s, fork.index), next] else []
  }

  /** What memory holds each time an event has written a batch. */
  function AtBatches(r: Rules, s: State, e: Event): seq<State>
  {
    match e
    case Genesis(cb, ts) => if s.height >= 0 then [] else [AddGenesis(s, cb, ts)]
    case Arrive(b, now) =>
      if b.index == s.height + 1 && b.header.prev == s.tip then
        var (next, ok) := AddBlock(r, s, b, now);
        if ok then [next] else []
      else if b.index <= s.height then ReorgBatches(r, s, b, now)
      else []
    case Rollback(t) => if -1 <= t <= s.height then [RollbackTo(s, t)] else []
    case Restart => []
  }

  function Disks(states: seq<State>): seq<Disk>
  {
    seq(|states|, i requires 0 <= i < |states| => states[i].disk)
  }

  lemma ReorgReload(r: Rules, s: State, chain: seq<Block>, b: Block, now: int, fork: Block)
    requires Reflects(s, chain) && b.index < |chain| && TryReorg(r, s, b, now).1
    requires BlockByHash(s.disk, b.header.prev) == Some(fork)
    ensures Load(RollbackTo(s, fork.index).disk) == RollbackTo(s, fork.index)
  {
    hide Load, RollbackTo;
    ReorgStep(r, s, chain, b, now);
    assert 1 <= b.index && b.header.prev == HashOf(chain[b.index - 1]) by { assert Accepts(r, chain, b, now); }
    assert StoredAt(s.disk, chain, b.index - 1) && LinkedAt(chain, b.index - 1);
    LoadStep(RollbackTo(s, b.index - 1), chain[..b.index]);
  }

  /** A crash after any batch of any event loses nothing, whatever chain the node reflects: reloading the store gives
      back exactly what memory held, also between the two batches of a reorganisation. */
  lemma BatchesReload(r: Rules, s: State, chain: seq<Block>, e: Event)
    requires Reflects(s, chain)
    ensures forall x :: x in AtBatches(r, s, e) ==> Load(x.disk) == x
  {
    StepRefines(r, s, chain, e);
    hide Load, RollbackTo, AddBlock, TryReorg, AddGenesis, ListStep, Reflects;
    forall x | x in AtBatches(r, s, e) ensures Load(x.disk) == x {
      if x == Step(r, s, e) {
        LoadStep(x, ListStep(r, chain, e));
      } else {
        MiddleBatch(r, s, chain, e, x);
      }
    }
  }

  /** So after every batch of every run. */
  lemma RunBatchesReload(r: Rules, events: seq<Event>, e: Event)
    ensures forall x :: x in AtBatches(r, Run(r, Load(EMPTY_DISK), events), e) ==> Load(x.disk) == x
  {
    RunRefines(r, events);
    BatchesReload(r, Run(r, Load(EMPTY_DISK), events), ListRun(r, [], events), e);
  }

  lemma MiddleBatch(r: Rules, s: State, chain: seq<Block>, e: Event, x: State)
    requires Reflects(s, chain) && x in AtBatches(r, s, e) && x != Step(r, s, e)
    ensures Load(x.disk) == x
  {
    hide Load, RollbackTo, TryReorg, AddGenesis, Commit, ValidateBlock, ExpectedBits;
    match e
    case Arrive(b, now) =>
      var fork := BlockByHash(s.disk, b.header.prev);
      assert fork.Some? && x == RollbackTo(s, fork.value.index);
      assert s.height == |chain| - 1 && TryReorg(r, s, b, now).1;
      ReorgReload(r, s, chain, b, now, fork.value);
    case _ =>
  }
}
