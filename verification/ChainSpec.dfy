/** `Blockchain` of node/chain.py as functions of its state; Blockchain.dfy proves the methods against them. */
module ChainSpec {
  import opened Arith
  import opened Compact
  import opened Merkle
  import opened Median
  import opened Model
  import opened CoinParams
  import opened Utxos
  import opened Store

  type Blocks = map<nat, Block>

  datatype State = State(utxo: Utxo, height: int, tip: Hash, work: nat, disk: Disk)

  // ----- retrieval -----

  /** `get_block`. */
  function BlockAt(blocks: Blocks, height: int): Option<Block>
  {
    if height >= 0 && height in blocks then Some(blocks[height]) else None
  }

  /** `get_block_by_hash`. */
  function BlockByHash(d: Disk, hash: Hash): Option<Block>
  {
    if hash in d.hashes then BlockAt(d.blocks, d.hashes[hash]) else None
  }

  function FirstTx(txs: seq<Tx>, txid: TxId): Option<Tx>
  {
    if txs == [] then None else if txs[0].txid == txid then Some(txs[0]) else FirstTx(txs[1..], txid)
  }

  /** `get_tx`. */
  function TxById(d: Disk, txid: TxId): Option<Tx>
  {
    if txid !in d.txIndex then None
    else
      match BlockAt(d.blocks, d.txIndex[txid])
      case None => None
      case Some(b) => FirstTx(b.txs, txid)
  }

  /** `get_cumulative_work`. */
  function WorkAt(d: Disk, height: int): nat
  {
    if height >= 0 && height in d.work then d.work[height] else 0
  }

  // ----- consensus context -----

  /** Timestamps of the stored blocks with lo <= height < hi. */
  function WindowTimes(blocks: Blocks, lo: int, hi: int): seq<int>
    decreases hi - lo
  {
    if lo >= hi then []
    else
      WindowTimes(blocks, lo, hi - 1) +
      match BlockAt(blocks, hi - 1)
      case None => []
      case Some(b) => [b.header.timestamp as int]
  }

  /** `_median_time_past`. */
  function MedianTimePast(blocks: Blocks, index: int): int
  {
    var times := WindowTimes(blocks, Max(0, index - MTP_WINDOW), index);
    if times == [] then 0 else Median.Median(times)
  }

  function InheritedBits(blocks: Blocks, height: int): u32
  {
    match BlockAt(blocks, height - 1)
    case None => DifficultyToBits(1)
    case Some(prev) => prev.header.bits
  }

  /** `expected_bits`. */
  function ExpectedBits(r: Rules, blocks: Blocks, height: int): u32
  {
    if height == 0 then DifficultyToBits(0)
    else if r.noRetarget || height % RETARGET_INTERVAL != 0 then InheritedBits(blocks, height)
    else
      match (BlockAt(blocks, height - RETARGET_INTERVAL), BlockAt(blocks, height - 1))
      case (Some(first), Some(last)) =>
        CalculateNextBits(last.header.bits, first.header.timestamp, last.header.timestamp)
      case _ => InheritedBits(blocks, height)
  }

  // ----- block validity -----

  predicate ParentOk(blocks: Blocks, b: Block)
  {
    if b.index == 0 then b.header.prev == ZeroHash
    else
      match BlockAt(blocks, b.index - 1)
      case None => false
      case Some(p) => HashOf(p) == b.header.prev
  }

  /** Not before the median time past, if there is one; genesis is exempt. */
  predicate TimeOk(blocks: Blocks, b: Block)
  {
    b.index > 0 ==>
      var mtp := MedianTimePast(blocks, b.index);
      !(mtp > 0 && b.header.timestamp < mtp)
  }

  predicate NotFromFuture(b: Block, now: int)
  {
    b.index > 0 ==> b.header.timestamp <= now + MAX_FUTURE_SECONDS
  }

  /** Exactly one coinbase, in front, spending nothing; no txid twice; no negative output anywhere. */
  predicate ShapeOk(txs: seq<Tx>)
  {
    && txs != []
    && (forall i :: 0 <= i < |txs| ==> (txs[i].coinbase <==> i == 0))
    && Distinct(TxIds(txs))
    && txs[0].inputs == [] && txs[0].outputs != []
    && (forall i :: 0 <= i < |txs| ==> NonNegative(txs[i].outputs))
  }

  predicate RewardOk(u: Utxo, b: Block)
    requires b.index >= 0 && b.txs != []
  {
    OutSum(b.txs[0].outputs) <= BlockSubsidy(b.index) + TotalFees(u.outs, b.txs)
  }

  /** Each other transaction is valid on the snapshot left by those before it. */
  predicate SpendsOk(r: Rules, u: Utxo, b: Block)
  {
    forall i :: 0 <= i < |b.txs| ==> SpendOk(r, u, b, i)
  }

  predicate SpendOk(r: Rules, u: Utxo, b: Block, i: nat)
    requires i < |b.txs|
  {
    !b.txs[i].coinbase ==>
      ValidTx(r.crypto, r.chainId, Snapshot(u, b.txs[..i]), b.txs[i].inputs, b.txs[i].outputs,
              0, b.index, COINBASE_MATURITY)
  }

  /** `validate_block` but for the required bits and the wall clock: what a block means on its own branch. */
  predicate ValidOn(r: Rules, blocks: Blocks, u: Utxo, b: Block)
  {
    && MeetsTarget(r.crypto, b.header)
    && ParentOk(blocks, b)
    && Root(TxIds(b.txs)) == b.header.root
    && TimeOk(blocks, b)
    && r.fits(b)
    && ShapeOk(b.txs)
    && RewardOk(u, b)
    && SpendsOk(r, u, b)
  }

  /** `validate_block`. */
  predicate ValidateBlock(r: Rules, blocks: Blocks, u: Utxo, b: Block, bits: u32, now: int)
  {
    b.header.bits == bits && NotFromFuture(b, now) && ValidOn(r, blocks, u, b)
  }

  // ----- commit -----

  function SpendOps(ins: seq<TxInput>): seq<Op>
  {
    seq(|ins|, i requires 0 <= i < |ins| => DelUtxo(Key(ins[i])))
  }

  function CreateOps(txid: TxId, outs: seq<TxOutput>): seq<Op>
  {
    seq(|outs|, i requires 0 <= i < |outs| => PutUtxo(OutPoint(txid, i), outs[i]))
  }

  function TxOps(tx: Tx, height: int): seq<Op>
  {
    (if tx.coinbase then [] else SpendOps(tx.inputs))
    + CreateOps(tx.txid, tx.outputs)
    + (if tx.coinbase then [PutCoinbase(tx.txid, height)] else [])
    + [PutTxIndex(tx.txid, height)]
  }

  function TxsOps(txs: seq<Tx>, height: int): seq<Op>
  {
    if txs == [] then [] else TxsOps(txs[..|txs| - 1], height) + TxOps(txs[|txs| - 1], height)
  }

  /** The one batch a commit writes. */
  function CommitOps(b: Block, work: nat): seq<Op>
    requires b.index >= 0
  {
    [PutBlock(b.index, b), PutHash(HashOf(b), b.index), PutWork(b.index, work)]
    + TxsOps(b.txs, b.index)
    + [PutMeta(Meta(b.index, HashOf(b), work))]
  }

  /** `_commit`: memory changes step by step, the store in one batch. */
  function Commit(s: State, b: Block): State
    requires b.index >= 0
  {
    var work := s.work + BlockWork(b);
    State(ApplyTxs(s.utxo, b.txs, b.index), b.index, HashOf(b), work, ApplyOps(s.disk, CommitOps(b, work)))
  }

  // ----- replay, rollback, reload -----

  /** Apply a whole chain from nothing. */
  function Replay(chain: seq<Block>): Utxo
  {
    if chain == [] then EMPTY
    else ApplyTxs(Replay(chain[..|chain| - 1]), chain[|chain| - 1].txs, |chain| - 1)
  }

  /** The stored blocks from height 0 up to the first gap, at most n of them. */
  function StoredChain(blocks: Blocks, n: nat): (chain: seq<Block>)
    ensures |chain| <= n
  {
    if n == 0 then []
    else
      var below := StoredChain(blocks, n - 1);
      if |below| == n - 1 && (n - 1) in blocks then below + [blocks[n - 1]] else below
  }

  /** `_build_utxo_at_height`, and `_rebuild_utxo_from_chain` at the current height. */
  function BuildUtxo(blocks: Blocks, target: int): Utxo
  {
    Replay(StoredChain(blocks, if target >= 0 then target + 1 else 0))
  }

  /** `_rollback_to`: one batch, deleting every stored output and writing the replayed ones. */
  function RollbackTo(s: State, target: int): State
  {
    var u := BuildUtxo(s.disk.blocks, target);
    var tip := match BlockAt(s.disk.blocks, target) case None => NoHash case Some(b) => HashOf(b);
    var work := WorkAt(s.disk, target);
    State(u, target, tip, work,
          s.disk.(utxos := u.outs, coinbaseAt := u.coinbaseAt, meta := Some(Meta(target, tip, work))))
  }

  /** `_load_state`: metadata and records as stored, replayed if the tip does not match its block. */
  function Load(d: Disk): State
  {
    var m := match d.meta case None => Meta(-1, NoHash, 0) case Some(m) => m;
    var stored := Utxo(d.utxos, d.coinbaseAt);
    var b := BlockAt(d.blocks, m.height);
    var stale := m.height >= 0 && m.tip != NoHash && b.Some? && HashOf(b.value) != m.tip;
    State(if stale then BuildUtxo(d.blocks, m.height) else stored, m.height, m.tip, m.work, d)
  }

  // ----- accepting blocks -----

  function GenesisBlock(coinbase: Tx, timestamp: u32): Block
  {
    Block(0, Header(1, ZeroHash, Root([coinbase.txid]), timestamp, DifficultyToBits(0), 0), [coinbase])
  }

  /** `add_genesis`: committed without validation, once. */
  function AddGenesis(s: State, coinbase: Tx, timestamp: u32): State
  {
    if s.height >= 0 then s else Commit(s, GenesisBlock(coinbase, timestamp))
  }

  /** `_try_reorg`: one block on top of an earlier block of known hash, if that is more work. */
  function TryReorg(r: Rules, s: State, b: Block, now: int): (State, bool)
  {
    match BlockByHash(s.disk, b.header.prev)
    case None => (s, false)
    case Some(fork) =>
      if WorkAt(s.disk, fork.index) + BlockWork(b) <= s.work then (s, false)
      else if !ValidateBlock(r, s.disk.blocks, BuildUtxo(s.disk.blocks, fork.index), b,
                             ExpectedBits(r, s.disk.blocks, b.index), now) then (s, false)
      else (Commit(RollbackTo(s, fork.index), b), true)
  }

  /** `add_block`. */
  function AddBlock(r: Rules, s: State, b: Block, now: int): (State, bool)
  {
    if b.index == s.height + 1 && b.header.prev == s.tip then
      if ValidateBlock(r, s.disk.blocks, s.utxo, b, ExpectedBits(r, s.disk.blocks, b.index), now) then
        (Commit(s, b), true)
      else (s, false)
    else if b.index <= s.height then TryReorg(r, s, b, now)
    else (s, false)
  }
}
