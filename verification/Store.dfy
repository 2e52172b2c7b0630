/** The key-value store: one map per key family, and write batches applied in order (node/storage.py). */
module Store {
  import opened Merkle
  import opened Model
  import opened Utxos

  /** The JSON record under the key "meta". */
  datatype Meta = Meta(height: int, tip: Hash, work: nat)

  /** "block:h:", "block:hash:", "chainwork:", "utxo:", "cbheight:", "txindex:" and "meta". */
  datatype Disk = Disk(
    blocks: map<nat, Block>,
    hashes: map<Hash, int>,
    work: map<nat, nat>,
    utxos: Outs,
    coinbaseAt: map<TxId, int>,
    txIndex: map<TxId, int>,
    meta: Option<Meta>)

  const EMPTY_DISK: Disk := Disk(map[], map[], map[], map[], map[], map[], None)

  datatype Op =
    | PutBlock(height: nat, block: Block)
    | PutHash(hash: Hash, at: int)
    | PutWork(height: nat, work: nat)
    | PutUtxo(point: OutPoint, out: TxOutput)
    | DelUtxo(point: OutPoint)
    | PutCoinbase(txid: TxId, at: int)
    | DelCoinbase(txid: TxId)
    | PutTxIndex(txid: TxId, at: int)
    | PutMeta(meta: Meta)

  function ApplyOp(d: Disk, op: Op): Disk
  {
    match op
    case PutBlock(h, b) => d.(blocks := d.blocks[h := b])
    case PutHash(h, at) => d.(hashes := d.hashes[h := at])
    case PutWork(h, w) => d.(work := d.work[h := w])
    case PutUtxo(k, out) => d.(utxos := d.utxos[k := out])
    case DelUtxo(k) => d.(utxos := d.utxos - {k})
    case PutCoinbase(t, at) => d.(coinbaseAt := d.coinbaseAt[t := at])
    case DelCoinbase(t) => d.(coinbaseAt := d.coinbaseAt - {t})
    case PutTxIndex(t, at) => d.(txIndex := d.txIndex[t := at])
    case PutMeta(m) => d.(meta := Some(m))
  }

  /** Batches apply front to back, so the last operation on a key wins. */
  function ApplyOps(d: Disk, ops: seq<Op>): Disk
  {
    if ops == [] then d else ApplyOp(ApplyOps(d, ops[..|ops| - 1]), ops[|ops| - 1])
  }

  lemma ApplyOpsSnoc(d: Disk, ops: seq<Op>, op: Op)
    ensures ApplyOps(d, ops + [op]) == ApplyOp(ApplyOps(d, ops), op)
  {
    assert (ops + [op])[..|ops|] == ops;
  }

  lemma ApplyOne(d: Disk, op: Op)
    ensures ApplyOps(d, []) == d
    ensures ApplyOps(d, [op]) == ApplyOp(d, op)
  {
    ApplyOpsSnoc(d, [], op);
    assert [] + [op] == [op];
  }

  lemma {:induction false} ApplyOpsConcat(d: Disk, a: seq<Op>, b: seq<Op>)
    ensures ApplyOps(d, a + b) == ApplyOps(ApplyOps(d, a), b)
  {
    if b == [] {
      assert a + b == a;
    } else {
      var c := b[..|b| - 1];
      ApplyOpsConcat(d, a, c);
      assert (a + b)[..|a + b| - 1] == a + c;
    }
  }

  class WriteBatch {
    var ops: seq<Op>

    constructor ()
      ensures ops == []
    {
      ops := [];
    }

    /** `put` and `delete`: queue one operation. */
    method Add(op: Op)
      modifies this
      ensures ops == old(ops) + [op]
    {
      ops := ops + [op];
    }
  }

  class JSONStore {
    var disk: Disk
    /** What the store held after each batch written so far. */
    ghost var written: seq<Disk>

    constructor (initial: Disk)
      ensures disk == initial && written == []
    {
      disk, written := initial, [];
    }

    /** `write_batch`: the cache is updated operation by operation, then written out. */
    method Write(batch: WriteBatch)
      modifies this
      ensures disk == ApplyOps(old(disk), batch.ops)
      ensures written == old(written) + [disk]
    {
      for i := 0 to |batch.ops|
        invariant batch.ops == old(batch.ops)
        invariant disk == ApplyOps(old(disk), batch.ops[..i]) && written == old(written)
      {
        disk := ApplyOp(disk, batch.ops[i]);
        ApplyOpsSnoc(old(disk), batch.ops[..i], batch.ops[i]);
        assert batch.ops[..i + 1] == batch.ops[..i] + [batch.ops[i]];
      }
      assert batch.ops[..|batch.ops|] == batch.ops;
      written := written + [disk];
    }
  }
}
