/** No block creates value beyond its subsidy, although validation, fee totals and commit use three different orders. */
module Supply {
  import opened Merkle
  import opened Model
  import opened CoinParams
  import opened Utxos
  import opened Store
  import opened ChainSpec
  import opened ChainModel
  import opened ValidChains

  // ----- total value of an output set -----

  ghost function Total(m: Outs): int
    decreases |m|
  {
    if m == map[] then 0 else var k :| k in m; m[k].value + Total(m - {k})
  }

  lemma {:induction false} TotalRemove(m: Outs, k: OutPoint)
    requires k in m
    ensures Total(m) == m[k].value + Total(m - {k})
    decreases |m|
  {
    var c :| c in m && Total(m) == m[c].value + Total(m - {c});
    if c != k {
      TotalRemove(m - {c}, k);
      TotalRemove(m - {k}, c);
      assert m - {c} - {k} == m - {k} - {c};
    }
  }

  lemma TotalPut(m: Outs, k: OutPoint, out: TxOutput)
    ensures Total(m[k := out]) == Total(m) - ValueAt(m, k) + out.value
  {
    TotalRemove(m[k := out], k);
    assert m[k := out] - {k} == m - {k};
    if k in m { TotalRemove(m, k); } else { assert m - {k} == m; }
  }

  predicate AllNonNegative(m: Outs)
  {
    forall k :: k in m ==> m[k].value >= 0
  }

  lemma {:induction false} NothingPresent(ins: seq<TxInput>)
    ensures PresentSum(map[], ins) == 0
  {
    if ins != [] { NothingPresent(ins[..|ins| - 1]); }
  }

  /** Spending distinct inputs removes exactly the value that was there. */
  lemma {:induction false} TotalSpend(m: Outs, ins: seq<TxInput>)
    requires DistinctInputs(ins)
    ensures Total(m - Spent(ins)) == Total(m) - PresentSum(m, ins)
  {
    if ins == [] {
      assert m - Spent(ins) == m;
    } else {
      var n := |ins| - 1;
      TotalSpend(m, ins[..n]);
      SpentSnoc(ins, n);
      assert ins[..n + 1] == ins;
      var left := m - Spent(ins[..n]);
      assert Key(ins[n]) !in Spent(ins[..n]);
      assert m - Spent(ins) == left - {Key(ins[n])};
      if Key(ins[n]) in m { TotalRemove(left, Key(ins[n])); } else { assert m - Spent(ins) == left; }
    }
  }

  /** Value of the entries that creating outputs replaces. */
  function Replaced(m: Outs, txid: TxId, outs: seq<TxOutput>): int
  {
    if outs == [] then 0
    else Replaced(m, txid, outs[..|outs| - 1]) + ValueAt(m, OutPoint(txid, |outs| - 1))
  }

  /** Creating outputs adds exactly their value less that of the entries they replace. */
  lemma {:induction false} TotalCreate(m: Outs, txid: TxId, outs: seq<TxOutput>)
    ensures Total(m + Created(txid, outs)) == Total(m) + OutSum(outs) - Replaced(m, txid, outs)
  {
    if outs == [] {
      assert m + Created(txid, outs) == m;
    } else {
      var n := |outs| - 1;
      TotalCreate(m, txid, outs[..n]);
      CreateSnoc(m, txid, outs);
      var before := m + Created(txid, outs[..n]);
      assert ValueAt(before, OutPoint(txid, n)) == ValueAt(m, OutPoint(txid, n));
      hide Created, Total;
      TotalPut(before, OutPoint(txid, n), outs[n]);
    }
  }

  lemma {:induction false} ReplacedNonNegative(m: Outs, txid: TxId, outs: seq<TxOutput>)
    requires AllNonNegative(m)
    ensures Replaced(m, txid, outs) >= 0
  {
    if outs != [] { ReplacedNonNegative(m, txid, outs[..|outs| - 1]); }
  }

  // ----- the exact account -----

  function Reward(tx: Tx): int { if tx.coinbase then OutSum(tx.outputs) else 0 }

  /** What a transaction leaves over of the value it takes from a set. */
  function LeftOver(m: Outs, tx: Tx): int
  {
    if tx.coinbase then 0 else PresentSum(m, tx.inputs) - OutSum(tx.outputs)
  }

  function Overwrites(m: Outs, tx: Tx): int
  {
    Replaced(if tx.coinbase then m else m - Spent(tx.inputs), tx.txid, tx.outputs)
  }

  function Rewards(txs: seq<Tx>): int
  {
    if txs == [] then 0 else Rewards(txs[..|txs| - 1]) + Reward(txs[|txs| - 1])
  }

  /** The real fees: each measured at its transaction's turn. */
  function RealFees(m: Outs, txs: seq<Tx>): int
  {
    if txs == [] then 0
    else
      var front := txs[..|txs| - 1];
      RealFees(m, front) + LeftOver(FoldOuts(m, front), txs[|txs| - 1])
  }

  /** The value lost to overwriting along the way. */
  function Lost(m: Outs, txs: seq<Tx>): int
  {
    if txs == [] then 0
    else
      var front := txs[..|txs| - 1];
      Lost(m, front) + Overwrites(FoldOuts(m, front), txs[|txs| - 1])
  }

  lemma TxAccount(m: Outs, tx: Tx)
    requires tx.coinbase || DistinctInputs(tx.inputs) || m == map[]
    ensures Total(ApplyOuts(m, tx)) == Total(m) + Reward(tx) - LeftOver(m, tx) - Overwrites(m, tx)
  {
    var left := if tx.coinbase then m else m - Spent(tx.inputs);
    if m == map[] {
      NothingPresent(tx.inputs);
      assert left == m;
    } else if !tx.coinbase {
      TotalSpend(m, tx.inputs);
    }
    TotalCreate(left, tx.txid, tx.outputs);
  }

  /** Whatever txids a list of transactions uses: value out is value in, plus rewards, less the fees really left
      over, less what was overwritten. */
  lemma {:induction false} Account(m: Outs, txs: seq<Tx>)
    requires forall i :: 0 <= i < |txs| ==>
               txs[i].coinbase || DistinctInputs(txs[i].inputs) || (i == 0 && m == map[])
    ensures Total(FoldOuts(m, txs)) == Total(m) + Rewards(txs) - RealFees(m, txs) - Lost(m, txs)
  {
    hide Total, LeftOver, Overwrites, ApplyOuts, DistinctInputs, Reward;
    if txs != [] {
      var front := txs[..|txs| - 1];
      Account(m, front);
      TxAccount(FoldOuts(m, front), txs[|txs| - 1]);
    }
  }

  lemma {:induction false} LostNonNegative(m: Outs, txs: seq<Tx>)
    requires AllNonNegative(m) && forall i :: 0 <= i < |txs| ==> NonNegative(txs[i].outputs)
    ensures AllNonNegative(FoldOuts(m, txs)) && Lost(m, txs) >= 0
  {
    if txs != [] {
      var front, last := txs[..|txs| - 1], txs[|txs| - 1];
      LostNonNegative(m, front);
      var before := FoldOuts(m, front);
      ReplacedNonNegative(if last.coinbase then before else before - Spent(last.inputs), last.txid, last.outputs);
    }
  }

  lemma {:induction false} OneReward(txs: seq<Tx>, n: nat)
    requires ShapeOk(txs) && 1 <= n <= |txs|
    ensures Rewards(txs[..n]) == OutSum(txs[0].outputs)
  {
    assert txs[..n][..n - 1] == txs[..n - 1];
    if n > 1 { OneReward(txs, n - 1); } else { assert txs[..0] == []; }
  }

  /** The account of a validated block. */
  lemma BlockAccount(r: Rules, u: Utxo, b: Block)
    requires ShapeOk(b.txs) && SpendsOk(r, u, b)
    ensures Total(ApplyTxs(u, b.txs, b.index).outs) ==
            Total(u.outs) + OutSum(b.txs[0].outputs) - RealFees(u.outs, b.txs) - Lost(u.outs, b.txs)
  {
    forall i | 0 <= i < |b.txs| ensures b.txs[i].coinbase || DistinctInputs(b.txs[i].inputs) {
      assert SpendOk(r, u, b, i);
    }
    hide SpendsOk, Total, RealFees, Lost, Rewards;
    Account(u.outs, b.txs);
    OneReward(b.txs, |b.txs|);
    assert b.txs[..|b.txs|] == b.txs;
    ApplyIsFold(u, b.txs, b.index);
  }

  // ----- the validator's snapshot against the committed map -----

  predicate Within(s: Outs, v: Outs)
  {
    forall k :: k in s ==> k in v && v[k] == s[k]
  }

  /** Wherever a transaction of the block names an output that already exists, it creates that same output. */
  predicate Faithful(m: Outs, tx: Tx)
  {
    forall i :: 0 <= i < |tx.outputs| && OutPoint(tx.txid, i) in m ==> m[OutPoint(tx.txid, i)] == tx.outputs[i]
  }

  lemma CreatedAt(txid: TxId, outs: seq<TxOutput>, k: OutPoint)
    ensures k in Created(txid, outs) <==> k.txid == txid && 0 <= k.index < |outs|
    ensures k in Created(txid, outs) ==> Created(txid, outs)[k] == outs[k.index]
  {
    if k.txid == txid && 0 <= k.index < |outs| { assert k == OutPoint(txid, k.index); }
  }

  lemma WithinAfterTx(s: Outs, v: Outs, tx: Tx)
    requires Within(s, v)
    ensures Within(ApplyOuts(s, tx), ApplyOuts(v, tx))
  {
  }

  /** The coinbase, which only the commit applies, disturbs nothing of a set it is faithful to. */
  lemma CoinbaseWithin(m: Outs, coinbase: Tx)
    requires coinbase.coinbase && Faithful(m, coinbase)
    ensures Within(m, ApplyOuts(m, coinbase))
  {
    forall k | k in m ensures ApplyOuts(m, coinbase)[k] == m[k] {
      CreatedAt(coinbase.txid, coinbase.outputs, k);
    }
  }

  lemma {:induction false} SnapshotWithin(u: Utxo, txs: seq<Tx>, height: int, i: nat)
    requires ShapeOk(txs) && i <= |txs| && Faithful(u.outs, txs[0])
    ensures Within(Snapshot(u, txs[..i]).outs, ApplyTxs(u, txs[..i], height).outs)
  {
    if i > 0 {
      SnapshotWithin(u, txs, height, i - 1);
      SnapshotSnoc(u, txs, i - 1);
      ApplyTxsSnoc(u, txs, i - 1, height);
      if i == 1 {
        assert txs[..0] == [];
        CoinbaseWithin(u.outs, txs[0]);
      } else {
        hide Faithful, Within, ApplyOuts, Snapshot, ApplyTxs;
        WithinAfterTx(Snapshot(u, txs[..i - 1]).outs, ApplyTxs(u, txs[..i - 1], height).outs, txs[i - 1]);
      }
    }
  }

  /** The snapshot stays inside the committed map at every transaction exactly when the coinbase,
      which only the commit applies, overwrites nothing with something else. */
  lemma SnapshotWithinIff(u: Utxo, txs: seq<Tx>, height: int)
    requires ShapeOk(txs)
    ensures (forall i :: 0 <= i <= |txs| ==> Within(Snapshot(u, txs[..i]).outs, ApplyTxs(u, txs[..i], height).outs))
            <==> Faithful(u.outs, txs[0])
  {
    if Faithful(u.outs, txs[0]) {
      forall i | 0 <= i <= |txs|
        ensures Within(Snapshot(u, txs[..i]).outs, ApplyTxs(u, txs[..i], height).outs)
      {
        SnapshotWithin(u, txs, height, i);
      }
    } else if Within(Snapshot(u, txs[..1]).outs, ApplyTxs(u, txs[..1], height).outs) {
      SnapshotSnoc(u, txs, 0);
      ApplyTxsSnoc(u, txs, 0, height);
      assert txs[..0] == [];
      var j :| 0 <= j < |txs[0].outputs| && OutPoint(txs[0].txid, j) in u.outs
               && u.outs[OutPoint(txs[0].txid, j)] != txs[0].outputs[j];
      CreatedAt(txs[0].txid, txs[0].outputs, OutPoint(txs[0].txid, j));
    }
  }

  // ----- fees on the stale set -----

  /** An output that was there before is created again, with less value, by one of the first n transactions. */
  predicate Debased(m: Outs, txs: seq<Tx>, n: nat, k: OutPoint)
    requires n <= |txs|
  {
    k in m && exists p :: 0 <= p < n && Creates(txs[p], k) && txs[p].outputs[k.index].value < m[k].value
  }

  /** Transaction i takes no output that an earlier one of the block has debased. */
  predicate SoundAt(m: Outs, txs: seq<Tx>, i: nat)
    requires i < |txs|
  {
    forall j :: 0 <= j < |txs[i].inputs| ==> !Debased(m, txs, i, Key(txs[i].inputs[j]))
  }

  /** Read off a block and the set before it, without applying anything. */
  predicate Sound(m: Outs, txs: seq<Tx>)
  {
    forall i :: 0 <= i < |txs| ==> SoundAt(m, txs, i)
  }

  /** With distinct txids, at most one transaction of a block creates a given output. */
  lemma OneCreator(txs: seq<Tx>, p: nat, q: nat, k: OutPoint)
    requires ShapeOk(txs) && p < |txs| && q < |txs| && Creates(txs[p], k) && Creates(txs[q], k)
    ensures p == q
  {
    assert TxIds(txs)[p] == TxIds(txs)[q];
  }

  /** Where an entry of the committed map comes from. */
  lemma {:induction false} Origin(m: Outs, txs: seq<Tx>, i: nat, k: OutPoint)
    requires i <= |txs| && k in FoldOuts(m, txs[..i])
    ensures var out := FoldOuts(m, txs[..i])[k];
            || (exists p :: 0 <= p < i && Creates(txs[p], k) && out == txs[p].outputs[k.index])
            || (k in m && out == m[k] && forall p :: 0 <= p < i ==> !Creates(txs[p], k))
  {
    if i > 0 {
      FoldSnoc(m, txs, i - 1);
      ApplyAt(FoldOuts(m, txs[..i - 1]), txs[i - 1], k);
      if Creates(txs[i - 1], k) { assert FoldOuts(m, txs[..i])[k] == txs[i - 1].outputs[k.index]; }
      else { Origin(m, txs, i - 1, k); }
    }
  }

  lemma AfterCoinbase(u: Utxo, txs: seq<Tx>, k: OutPoint)
    requires ShapeOk(txs) && k in Snapshot(u, txs[..1]).outs
    ensures Snapshot(u, txs[..1]) == u
    ensures var v := FoldOuts(u.outs, txs[..1]);
            k in v && v[k] == if Creates(txs[0], k) then txs[0].outputs[k.index] else u.outs[k]
  {
    assert txs[..0] == [];
    SnapshotSnoc(u, txs, 0);
    FoldSnoc(u.outs, txs, 0);
    ApplyAt(u.outs, txs[0], k);
  }

  lemma SameStep(s: Outs, v: Outs, tx: Tx, k: OutPoint)
    requires k in ApplyOuts(s, tx) && (k in s ==> k in v)
    ensures k in ApplyOuts(v, tx)
    ensures Creates(tx, k) ==> ApplyOuts(s, tx)[k] == ApplyOuts(v, tx)[k]
    ensures !Creates(tx, k) ==> k in s && ApplyOuts(s, tx)[k] == s[k] && ApplyOuts(v, tx)[k] == v[k]
  {
    ApplyAt(s, tx, k);
    ApplyAt(v, tx, k);
  }

  /** What the validator sees of an output, and what the commit, applying the coinbase first, makes of it. */
  lemma {:induction false} SnapshotAt(u: Utxo, txs: seq<Tx>, i: nat, k: OutPoint)
    requires ShapeOk(txs) && 1 <= i <= |txs| && k in Snapshot(u, txs[..i]).outs
    ensures var s, v := Snapshot(u, txs[..i]).outs, FoldOuts(u.outs, txs[..i]);
            && k in v
            && (!Creates(txs[0], k) ==> v[k] == s[k])
            && (Creates(txs[0], k) ==> k in u.outs && s[k] == u.outs[k] && v[k] == txs[0].outputs[k.index])
  {
    if i == 1 {
      AfterCoinbase(u, txs, k);
    } else {
      assert !txs[i - 1].coinbase;
      if Creates(txs[0], k) && Creates(txs[i - 1], k) { OneCreator(txs, 0, i - 1, k); }
      hide Snapshot, FoldOuts, ApplyOuts, Creates;
      SnapshotSnoc(u, txs, i - 1);
      FoldSnoc(u.outs, txs, i - 1);
      var s, v := Snapshot(u, txs[..i - 1]).outs, FoldOuts(u.outs, txs[..i - 1]);
      if k in s { SnapshotAt(u, txs, i - 1, k); }
      hide ShapeOk;
      SameStep(s, v, txs[i - 1], k);
    }
  }

  lemma SpendFacts(r: Rules, u: Utxo, b: Block, i: nat)
    requires ShapeOk(b.txs) && SpendsOk(r, u, b) && 1 <= i < |b.txs|
    ensures var tx, snap := b.txs[i], Snapshot(u, b.txs[..i]).outs;
            && !tx.coinbase && OutSum(tx.outputs) <= PresentSum(snap, tx.inputs)
            && forall j :: 0 <= j < |tx.inputs| ==> Key(tx.inputs[j]) in snap
  {
    assert SpendOk(r, u, b, i);
  }

  /** Every input popped by the commit (and by every replay) is there, even after the transaction's earlier inputs are
      gone, with the content that was validated, or the coinbase's where the coinbase created that output again. */
  lemma CommitPopsValidatedInputs(r: Rules, u: Utxo, b: Block, i: nat, j: nat)
    requires ShapeOk(b.txs) && SpendsOk(r, u, b)
    requires 1 <= i < |b.txs| && j < |b.txs[i].inputs|
    ensures var ins, k := b.txs[i].inputs, Key(b.txs[i].inputs[j]);
            var snap, v := Snapshot(u, b.txs[..i]).outs, ApplyTxs(u, b.txs[..i], b.index).outs;
            && k in v - Spent(ins[..j]) && k in snap
            && v[k] == if Creates(b.txs[0], k) then b.txs[0].outputs[k.index] else snap[k]
  {
    assert SpendOk(r, u, b, i);
    SpendFacts(r, u, b, i);
    SnapshotAt(u, b.txs, i, Key(b.txs[i].inputs[j]));
    ApplyIsFold(u, b.txs[..i], b.index);
    hide Snapshot, ApplyTxs, FoldOuts;
  }

  lemma {:induction false} PresentSumMono(a: Outs, b: Outs, ins: seq<TxInput>)
    requires forall i :: 0 <= i < |ins| ==> ValueAt(a, Key(ins[i])) <= ValueAt(b, Key(ins[i]))
    ensures PresentSum(a, ins) <= PresentSum(b, ins)
    ensures (exists i :: 0 <= i < |ins| && ValueAt(a, Key(ins[i])) < ValueAt(b, Key(ins[i]))) ==>
              PresentSum(a, ins) < PresentSum(b, ins)
  {
    if ins != [] { PresentSumMono(a, b, ins[..|ins| - 1]); }
  }

  /** An input that is not debased has, at its turn, at least the value it is validated and charged with. */
  lemma InputKeepsValue(u: Utxo, txs: seq<Tx>, i: nat, k: OutPoint)
    requires ShapeOk(txs) && 1 <= i < |txs| && AllNonNegative(u.outs)
    requires k in Snapshot(u, txs[..i]).outs && !Debased(u.outs, txs, i, k)
    ensures ValueAt(Snapshot(u, txs[..i]).outs, k) <= ValueAt(FoldOuts(u.outs, txs[..i]), k)
    ensures ValueAt(u.outs, k) <= ValueAt(FoldOuts(u.outs, txs[..i]), k)
  {
    SnapshotAt(u, txs, i, k);
    Origin(u.outs, txs, i, k);
    hide Snapshot, FoldOuts;
    forall p | 0 <= p < i && Creates(txs[p], k) ensures txs[p].outputs[k.index].value >= ValueAt(u.outs, k) {
      assert NonNegative(txs[p].outputs);
    }
  }

  /** A fee measured on the un-updated set never exceeds what the transaction really leaves over, if it takes
      nothing that the block has debased. */
  lemma StaleFee(r: Rules, u: Utxo, b: Block, i: nat)
    requires ShapeOk(b.txs) && SpendsOk(r, u, b) && AllNonNegative(u.outs)
    requires 1 <= i < |b.txs| && SoundAt(u.outs, b.txs, i)
    ensures FeeOf(u.outs, b.txs[i]) <= LeftOver(FoldOuts(u.outs, b.txs[..i]), b.txs[i])
  {
    var tx := b.txs[i];
    var snap, v := Snapshot(u, b.txs[..i]).outs, FoldOuts(u.outs, b.txs[..i]);
    SpendFacts(r, u, b, i);
    hide SpendsOk, Snapshot, FoldOuts, ValueAt, ShapeOk;
    forall j | 0 <= j < |tx.inputs|
      ensures ValueAt(snap, Key(tx.inputs[j])) <= ValueAt(v, Key(tx.inputs[j]))
      ensures ValueAt(u.outs, Key(tx.inputs[j])) <= ValueAt(v, Key(tx.inputs[j]))
    {
      InputKeepsValue(u, b.txs, i, Key(tx.inputs[j]));
    }
    PresentSumMono(snap, v, tx.inputs);
    PresentSumMono(u.outs, v, tx.inputs);
  }

  /** Transaction i takes only outputs from before the block, none of them created again with more value. */
  predicate PlainAt(m: Outs, txs: seq<Tx>, i: nat)
    requires i < |txs|
  {
    forall j :: 0 <= j < |txs[i].inputs| ==>
      var k := Key(txs[i].inputs[j]);
      k in m && forall p :: 0 <= p < i && Creates(txs[p], k) ==> txs[p].outputs[k.index].value <= m[k].value
  }

  lemma PlainInput(u: Utxo, txs: seq<Tx>, i: nat, j: nat)
    requires ShapeOk(txs) && 1 <= i < |txs| && PlainAt(u.outs, txs, i) && j < |txs[i].inputs|
    requires Key(txs[i].inputs[j]) in Snapshot(u, txs[..i]).outs
    ensures var k := Key(txs[i].inputs[j]);
            && ValueAt(FoldOuts(u.outs, txs[..i]), k) <= ValueAt(u.outs, k)
            && (Debased(u.outs, txs, i, k) ==> ValueAt(FoldOuts(u.outs, txs[..i]), k) < ValueAt(u.outs, k))
  {
    var k := Key(txs[i].inputs[j]);
    SnapshotAt(u, txs, i, k);
    Origin(u.outs, txs, i, k);
    hide Snapshot, FoldOuts;
    if Debased(u.outs, txs, i, k) {
      var p :| 0 <= p < i && Creates(txs[p], k) && txs[p].outputs[k.index].value < u.outs[k].value;
      forall q | 0 <= q < i && Creates(txs[q], k) ensures q == p { OneCreator(txs, p, q, k); }
    }
  }

  /** For such transactions the stale fee is at least what is left over, and above it if an input is debased. */
  lemma PlainFee(r: Rules, u: Utxo, b: Block, i: nat)
    requires ShapeOk(b.txs) && SpendsOk(r, u, b) && 1 <= i < |b.txs| && PlainAt(u.outs, b.txs, i)
    ensures FeeOf(u.outs, b.txs[i]) >= LeftOver(FoldOuts(u.outs, b.txs[..i]), b.txs[i])
    ensures !SoundAt(u.outs, b.txs, i) ==>
              FeeOf(u.outs, b.txs[i]) > LeftOver(FoldOuts(u.outs, b.txs[..i]), b.txs[i])
  {
    var tx, v := b.txs[i], FoldOuts(u.outs, b.txs[..i]);
    SpendFacts(r, u, b, i);
    hide SpendsOk, Snapshot, FoldOuts, ValueAt, ShapeOk, PlainAt, Debased;
    forall j | 0 <= j < |tx.inputs|
      ensures ValueAt(v, Key(tx.inputs[j])) <= ValueAt(u.outs, Key(tx.inputs[j]))
      ensures Debased(u.outs, b.txs, i, Key(tx.inputs[j])) ==>
                ValueAt(v, Key(tx.inputs[j])) < ValueAt(u.outs, Key(tx.inputs[j]))
    {
      PlainInput(u, b.txs, i, j);
    }
    PresentSumMono(v, u.outs, tx.inputs);
  }

  /** The stale fee of a transaction taking only outputs from before the block, none of them raised since, is
      covered by what it leaves over exactly when none of them has been debased. */
  lemma StaleFeeIff(r: Rules, u: Utxo, b: Block, i: nat)
    requires ShapeOk(b.txs) && SpendsOk(r, u, b) && AllNonNegative(u.outs)
    requires 1 <= i < |b.txs| && PlainAt(u.outs, b.txs, i)
    ensures FeeOf(u.outs, b.txs[i]) <= LeftOver(FoldOuts(u.outs, b.txs[..i]), b.txs[i]) <==> SoundAt(u.outs, b.txs, i)
  {
    hide *;
    PlainFee(r, u, b, i);
    if SoundAt(u.outs, b.txs, i) { StaleFee(r, u, b, i); }
  }

  // ----- one block -----

  lemma {:induction false} FeesCovered(r: Rules, u: Utxo, b: Block, n: nat)
    requires ShapeOk(b.txs) && SpendsOk(r, u, b) && AllNonNegative(u.outs) && n <= |b.txs|
    requires forall i :: 0 <= i < n ==> SoundAt(u.outs, b.txs, i)
    ensures TotalFees(u.outs, b.txs[..n]) <= RealFees(u.outs, b.txs[..n])
  {
    if n > 0 {
      FeesCovered(r, u, b, n - 1);
      assert b.txs[..n][..n - 1] == b.txs[..n - 1];
      if n > 1 {
        hide SpendsOk, ShapeOk, FeeOf, LeftOver, SoundAt, FoldOuts;
        StaleFee(r, u, b, n - 1);
      }
    }
  }

  /** A validated block in which nothing debased is spent adds at most its subsidy to the value in existence. */
  lemma BlockConserves(r: Rules, u: Utxo, b: Block)
    requires b.index >= 0 && ShapeOk(b.txs) && SpendsOk(r, u, b) && RewardOk(u, b)
    requires AllNonNegative(u.outs) && Sound(u.outs, b.txs)
    ensures AllNonNegative(ApplyTxs(u, b.txs, b.index).outs)
    ensures Total(ApplyTxs(u, b.txs, b.index).outs) <= Total(u.outs) + BlockSubsidy(b.index)
  {
    BlockAccount(r, u, b);
    LostNonNegative(u.outs, b.txs);
    ApplyIsFold(u, b.txs, b.index);
    hide ShapeOk, SpendsOk, TotalFees, RealFees, Total, ApplyTxs, FoldOuts;
    FeesCovered(r, u, b, |b.txs|);
    assert b.txs[..|b.txs|] == b.txs;
  }

  // ----- the condition is exact -----

  /** The coinbase takes all that validation allows. */
  predicate TakesAll(u: Utxo, b: Block)
    requires b.index >= 0 && b.txs != []
  {
    OutSum(b.txs[0].outputs) == BlockSubsidy(b.index) + TotalFees(u.outs, b.txs)
  }

  /** A block that takes the largest permitted reward adds at most its subsidy exactly when the credited fees are
      covered by the real ones and by overwritten value. */
  lemma ConservesIff(r: Rules, u: Utxo, b: Block)
    requires b.index >= 0 && ShapeOk(b.txs) && SpendsOk(r, u, b) && TakesAll(u, b)
    ensures RewardOk(u, b)
    ensures Total(ApplyTxs(u, b.txs, b.index).outs) <= Total(u.outs) + BlockSubsidy(b.index) <==>
            TotalFees(u.outs, b.txs) <= RealFees(u.outs, b.txs) + Lost(u.outs, b.txs)
  {
    hide SpendsOk;
    BlockAccount(r, u, b);
  }

  /** Every transaction is plain and nothing of value is overwritten. */
  predicate Plain(m: Outs, txs: seq<Tx>)
  {
    (forall i :: 0 <= i < |txs| ==> PlainAt(m, txs, i)) && Lost(m, txs) == 0
  }

  lemma {:induction false} PlainFees(r: Rules, u: Utxo, b: Block, n: nat)
    requires ShapeOk(b.txs) && SpendsOk(r, u, b) && n <= |b.txs|
    requires forall i :: 0 <= i < n ==> PlainAt(u.outs, b.txs, i)
    ensures TotalFees(u.outs, b.txs[..n]) >= RealFees(u.outs, b.txs[..n])
    ensures (exists i :: 0 <= i < n && !SoundAt(u.outs, b.txs, i)) ==>
              TotalFees(u.outs, b.txs[..n]) > RealFees(u.outs, b.txs[..n])
  {
    if n > 0 {
      PlainFees(r, u, b, n - 1);
      assert b.txs[..n][..n - 1] == b.txs[..n - 1];
      if n > 1 {
        hide SpendsOk, ShapeOk, FeeOf, LeftOver, SoundAt, FoldOuts, PlainAt;
        PlainFee(r, u, b, n - 1);
      }
    }
  }

  /** Among plain blocks taking the largest permitted reward, exactly those that spend nothing debased keep to
      their subsidy; every other one creates value. */
  lemma ConservesIffSound(r: Rules, u: Utxo, b: Block)
    requires b.index >= 0 && ShapeOk(b.txs) && SpendsOk(r, u, b) && TakesAll(u, b)
    requires AllNonNegative(u.outs) && Plain(u.outs, b.txs)
    ensures Total(ApplyTxs(u, b.txs, b.index).outs) <= Total(u.outs) + BlockSubsidy(b.index) <==> Sound(u.outs, b.txs)
  {
    ConservesIff(r, u, b);
    hide ShapeOk, SpendsOk, TotalFees, RealFees, Total, ApplyTxs, FoldOuts, SoundAt, PlainAt;
    if Sound(u.outs, b.txs) {
      BlockConserves(r, u, b);
    } else {
      PlainFees(r, u, b, |b.txs|);
      assert b.txs[..|b.txs|] == b.txs;
    }
  }

  // ----- whole chains -----

  /** No block spends what it has debased itself. */
  predicate SoundChain(chain: seq<Block>)
  {
    forall h :: 1 <= h < |chain| ==> Sound(Replay(chain[..h]).outs, chain[h].txs)
  }

  predicate GenesisReward(coinbase: Tx)
  {
    NonNegative(coinbase.outputs) && OutSum(coinbase.outputs) <= BlockSubsidy(0)
  }

  lemma SoundPrefix(chain: seq<Block>, n: nat)
    requires SoundChain(chain) && n <= |chain|
    ensures SoundChain(chain[..n])
  {
    forall h | 1 <= h < n ensures Sound(Replay(chain[..n][..h]).outs, chain[..n][h].txs) {
      assert chain[..n][..h] == chain[..h];
    }
  }

  /** On every valid chain the value in existence is within the subsidy schedule, hence below the maximum, if no
      block spends what it has debased itself. */
  lemma {:induction false} SupplyBounded(r: Rules, chain: seq<Block>)
    requires ValidChain(r, chain) && SoundChain(chain)
    requires chain != [] ==> GenesisReward(chain[0].txs[0])
    ensures AllNonNegative(Replay(chain).outs)
    ensures Total(Replay(chain).outs) <= SubsidyTo(|chain|) < 5_000_000_000_000_000
  {
    SupplyBelowMax(|chain|);
    if chain != [] {
      var n := |chain| - 1;
      ValidPrefix(r, chain, n);
      SoundPrefix(chain, n);
      SupplyBounded(r, chain[..n]);
      if n == 0 {
        GenesisTotal(chain[0].txs[0]);
      } else {
        assert ValidAt(r, chain, n);
        BlockConserves(r, Replay(chain[..n]), chain[n]);
      }
    }
  }

  lemma GenesisTotal(coinbase: Tx)
    requires GenesisReward(coinbase)
    ensures var m := ApplyTxs(EMPTY, [coinbase], 0).outs;
            AllNonNegative(m) && Total(m) <= BlockSubsidy(0)
  {
    TotalCreate(map[], coinbase.txid, coinbase.outputs);
    ReplacedNonNegative(map[], coinbase.txid, coinbase.outputs);
    assert [coinbase][..0] == [];
    assert EMPTY.outs - Spent(coinbase.inputs) == EMPTY.outs;
  }

  /** The same for the live UTXO set after any sequence of events. */
  lemma RunSupplyBounded(r: Rules, events: seq<Event>)
    requires forall i :: 0 <= i < |events| && events[i].Genesis? ==> GenesisReward(events[i].coinbase)
    requires SoundChain(ListRun(r, [], events))
    ensures var s := Run(r, Load(EMPTY_DISK), events);
            s.height >= -1 && Total(s.utxo.outs) <= SubsidyTo(s.height + 1) < 5_000_000_000_000_000
  {
    RunRefines(r, events);
    RunValid(r, events);
    GenesisFromEvents(r, events);
    SupplyBounded(r, ListRun(r, [], events));
  }

  lemma {:induction false} GenesisFromEvents(r: Rules, events: seq<Event>)
    requires forall i :: 0 <= i < |events| && events[i].Genesis? ==> GenesisReward(events[i].coinbase)
    ensures var chain := ListRun(r, [], events); chain != [] ==> chain[0].txs != [] && GenesisReward(chain[0].txs[0])
  {
    if events != [] {
      GenesisFromEvents(r, events[..|events| - 1]);
    }
  }

  // ----- txids that determine their outputs -----

  /** f is the map from txids to output lists that computing every txid from its outputs provides. */
  predicate TxIdsFixOutputs(f: TxId -> seq<TxOutput>, chain: seq<Block>)
  {
    forall i, a :: 0 <= i < |chain| && 0 <= a < |chain[i].txs| ==> chain[i].txs[a].outputs == f(chain[i].txs[a].txid)
  }

  predicate Named(f: TxId -> seq<TxOutput>, m: Outs)
  {
    forall k :: k in m ==> 0 <= k.index < |f(k.txid)| && m[k] == f(k.txid)[k.index]
  }

  lemma {:induction false} NamedAfterTxs(f: TxId -> seq<TxOutput>, u: Utxo, txs: seq<Tx>, height: int)
    requires Named(f, u.outs) && forall a :: 0 <= a < |txs| ==> txs[a].outputs == f(txs[a].txid)
    ensures Named(f, ApplyTxs(u, txs, height).outs)
  {
    if txs != [] {
      NamedAfterTxs(f, u, txs[..|txs| - 1], height);
      var tx := txs[|txs| - 1];
      assert tx.outputs == f(tx.txid);
    }
  }

  lemma {:induction false} ReplayNamed(f: TxId -> seq<TxOutput>, chain: seq<Block>, n: nat)
    requires TxIdsFixOutputs(f, chain) && n <= |chain|
    ensures Named(f, Replay(chain[..n]).outs)
  {
    if n > 0 {
      var m := n - 1;
      assert forall a :: 0 <= a < |chain[m].txs| ==> chain[m].txs[a].outputs == f(chain[m].txs[a].txid);
      ReplayNamed(f, chain, m);
      assert chain[..n][..m] == chain[..m];
      NamedAfterTxs(f, Replay(chain[..m]), chain[m].txs, m);
    }
  }

  /** Where every txid determines its outputs, as `Transaction.txid` does, nothing can be debased. */
  lemma TxIdsSuffice(f: TxId -> seq<TxOutput>, chain: seq<Block>)
    requires TxIdsFixOutputs(f, chain)
    ensures SoundChain(chain)
  {
    forall h, i, j | 1 <= h < |chain| && 0 <= i < |chain[h].txs| && 0 <= j < |chain[h].txs[i].inputs|
      ensures !Debased(Replay(chain[..h]).outs, chain[h].txs, i, Key(chain[h].txs[i].inputs[j]))
    {
      ReplayNamed(f, chain, h);
    }
  }
}
