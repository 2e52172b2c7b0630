/** The condition of `Supply.BlockConserves` cannot be dropped: blocks that pass validation and create value. */
module Debasement {
  import opened Merkle
  import opened Model
  import opened CoinParams
  import opened Utxos
  import opened ChainSpec
  import opened TxBuilder
  import opened Supply
  import opened ChainModel
  import opened ValidChains

  /** Five different txids: of two outputs before the block, of two spends, of the coinbase. */
  datatype Names = Names(t: TxId, s: TxId, x: TxId, y: TxId, c: TxId)

  predicate Different(n: Names)
  {
    && n.t !in {n.s, n.x, n.y, n.c} && n.s !in {n.x, n.y, n.c} && n.x !in {n.y, n.c} && n.y != n.c
  }

  function Point(txid: TxId): OutPoint { OutPoint(txid, 0) }

  function Mine(r: Rules, key: string, value: int): TxOutput
  {
    TxOutput(value, r.crypto.address(r.crypto.publicKey(key)))
  }

  /** A transaction that says its txid is `txid` and moves one output of the key to itself. */
  function Move(r: Rules, key: string, from: TxId, txid: TxId, value: int): Tx
  {
    var unsigned := [TxInput(from, 0, "", r.crypto.publicKey(key))];
    var outs := [Mine(r, key, value)];
    Tx(txid, false, [unsigned[0].(signature := r.crypto.sign(key, Body(r.chainId, unsigned, outs)))], outs)
  }

  /** The key owns an output of this value, spendable at this height. */
  predicate Owns(r: Rules, key: string, u: Utxo, txid: TxId, value: int, height: int)
  {
    && Point(txid) in u.outs && u.outs[Point(txid)] == Mine(r, key, value)
    && (txid in u.coinbaseAt ==> height - u.coinbaseAt[txid] >= COINBASE_MATURITY)
  }

  /** Before the block: the key owns t of value v and s of value w, and x, y and c are unused. */
  predicate Before(r: Rules, key: string, u: Utxo, n: Names, v: nat, w: nat, height: int)
  {
    && Different(n) && w <= v
    && Owns(r, key, u, n.t, v, height) && Owns(r, key, u, n.s, w, height)
    && Point(n.x) !in u.outs && Point(n.y) !in u.outs && Point(n.c) !in u.outs
  }

  /** Output t is spent, created again with value w from s, and spent again. */
  function Debasing(r: Rules, key: string, n: Names, v: nat, w: nat, index: nat, header: Header): Block
    requires w <= v
  {
    Block(index, header,
          [Tx(n.c, true, [], [Mine(r, key, BlockSubsidy(index) + v - w)]),
           Move(r, key, n.t, n.x, v), Move(r, key, n.s, n.t, w), Move(r, key, n.t, n.y, w)])
  }

  lemma Singletons(m: Outs, i: TxInput, out: TxOutput)
    ensures PresentSum(m, [i]) == ValueAt(m, Key(i)) && OutSum([out]) == out.value
  {
    assert [i][..0] == [] && [out][..0] == [];
  }

  lemma OneReplaced(m: Outs, txid: TxId, out: TxOutput)
    ensures Replaced(m, txid, [out]) == ValueAt(m, Point(txid))
  {
    assert [out][..0] == [];
  }

  // ----- one move -----

  /** A move of the key's own output is valid. */
  lemma MoveOk(r: Rules, key: string, u: Utxo, from: TxId, txid: TxId, value: nat, height: int)
    requires SignaturesVerify(r.crypto) && Owns(r, key, u, from, value, height)
    ensures var tx := Move(r, key, from, txid, value);
            ValidTx(r.crypto, r.chainId, u, tx.inputs, tx.outputs, 0, height, COINBASE_MATURITY)
  {
    var tx := Move(r, key, from, txid, value);
    var unsigned := [TxInput(from, 0, "", r.crypto.publicKey(key))];
    assert Body(r.chainId, tx.inputs, tx.outputs) == Body(r.chainId, unsigned, tx.outputs);
    Singletons(u.outs, tx.inputs[0], tx.outputs[0]);
  }

  lemma MoveSpends(r: Rules, key: string, from: TxId, txid: TxId, value: nat)
    ensures Spent(Move(r, key, from, txid, value).inputs) == {Point(from)}
  {
    var tx := Move(r, key, from, txid, value);
    assert tx.inputs[0] in tx.inputs;
  }

  lemma MoveApplies(r: Rules, key: string, m: Outs, from: TxId, txid: TxId, value: nat)
    ensures ApplyOuts(m, Move(r, key, from, txid, value)) == (m - {Point(from)})[Point(txid) := Mine(r, key, value)]
  {
    var tx := Move(r, key, from, txid, value);
    MoveSpends(r, key, from, txid, value);
    assert Created(tx.txid, tx.outputs) == map[Point(txid) := Mine(r, key, value)];
  }

  lemma CoinbaseApplies(m: Outs, c: TxId, pay: TxOutput)
    ensures ApplyOuts(m, Tx(c, true, [], [pay])) == m[Point(c) := pay]
  {
    assert Created(c, [pay]) == map[Point(c) := pay];
  }

  /** A move into an unused entry keeps the total and overwrites nothing. */
  lemma MoveKeeps(r: Rules, key: string, m: Outs, from: TxId, txid: TxId, value: nat)
    requires Point(from) in m && m[Point(from)].value == value && Point(txid) !in m
    ensures var tx := Move(r, key, from, txid, value);
            Total(ApplyOuts(m, tx)) == Total(m) && Overwrites(m, tx) == 0
  {
    var tx := Move(r, key, from, txid, value);
    MoveApplies(r, key, m, from, txid, value);
    MoveSpends(r, key, from, txid, value);
    TotalRemove(m, Point(from));
    TotalPut(m - {Point(from)}, Point(txid), Mine(r, key, value));
    OneReplaced(m - {Point(from)}, txid, tx.outputs[0]);
    assert tx.outputs == [tx.outputs[0]];
    hide Total;
  }

  lemma MoveFee(r: Rules, key: string, m: Outs, from: TxId, txid: TxId, value: nat)
    requires Point(from) in m && m[Point(from)].value >= value
    ensures FeeOf(m, Move(r, key, from, txid, value)) == m[Point(from)].value - value
  {
    var tx := Move(r, key, from, txid, value);
    Singletons(m, tx.inputs[0], tx.outputs[0]);
  }

  lemma MoveParts(r: Rules, key: string, from: TxId, txid: TxId, value: nat)
    ensures var tx := Move(r, key, from, txid, value);
            && tx.txid == txid && !tx.coinbase && NonNegative(tx.outputs)
            && |tx.inputs| == 1 && Key(tx.inputs[0]) == Point(from) && tx.outputs == [Mine(r, key, value)]
  {
  }

  // ----- four transactions -----

  lemma ThreeViews(u: Utxo, txs: seq<Tx>)
    requires |txs| == 4 && txs[0].coinbase && !txs[1].coinbase && !txs[2].coinbase
    ensures Snapshot(u, txs[..1]) == u
    ensures Snapshot(u, txs[..2]) == u.(outs := ApplyOuts(u.outs, txs[1]))
    ensures Snapshot(u, txs[..3]) == u.(outs := ApplyOuts(ApplyOuts(u.outs, txs[1]), txs[2]))
  {
    assert Snapshot(u, txs[..0]) == u;
    hide Snapshot, ApplyOuts;
    SnapshotSnoc(u, txs, 0);
    SnapshotSnoc(u, txs, 1);
    SnapshotSnoc(u, txs, 2);
  }

  lemma LostSnoc(m: Outs, txs: seq<Tx>, i: nat)
    requires i < |txs|
    ensures Lost(m, txs[..i + 1]) == Lost(m, txs[..i]) + Overwrites(FoldOuts(m, txs[..i]), txs[i])
  {
    assert txs[..i + 1][..i] == txs[..i];
  }

  /** One step of the commit: what was lost so far, and what the entries are then. */
  lemma LostStep(m: Outs, txs: seq<Tx>, i: nat, here: Outs)
    requires i < |txs| && FoldOuts(m, txs[..i]) == here && Lost(m, txs[..i]) == 0 && Overwrites(here, txs[i]) == 0
    ensures FoldOuts(m, txs[..i + 1]) == ApplyOuts(here, txs[i]) && Lost(m, txs[..i + 1]) == 0
  {
    hide *;
    FoldSnoc(m, txs, i);
    LostSnoc(m, txs, i);
  }

  lemma FourFees(m: Outs, txs: seq<Tx>)
    requires |txs| == 4
    ensures TotalFees(m, txs) == FeeOf(m, txs[0]) + FeeOf(m, txs[1]) + FeeOf(m, txs[2]) + FeeOf(m, txs[3])
  {
    assert txs[..4] == txs && TotalFees(m, txs[..0]) == 0;
    hide FeeOf, TotalFees;
    TotalFeesSnoc(m, txs, 0);
    TotalFeesSnoc(m, txs, 1);
    TotalFeesSnoc(m, txs, 2);
    TotalFeesSnoc(m, txs, 3);
  }

  // ----- the debasing block -----

  lemma WellShaped(r: Rules, key: string, n: Names, v: nat, w: nat, index: nat, header: Header)
    requires Different(n) && w <= v
    ensures ShapeOk(Debasing(r, key, n, v, w, index, header).txs)
  {
    hide BlockSubsidy, Move;
    MoveParts(r, key, n.t, n.x, v);
    MoveParts(r, key, n.s, n.t, w);
    MoveParts(r, key, n.t, n.y, w);
  }

  lemma Accepted(r: Rules, key: string, u: Utxo, n: Names, v: nat, w: nat, index: nat, header: Header)
    requires SignaturesVerify(r.crypto) && Before(r, key, u, n, v, w, index)
    ensures SpendsOk(r, u, Debasing(r, key, n, v, w, index, header))
  {
    var b := Debasing(r, key, n, v, w, index, header);
    ThreeViews(u, b.txs);
    MoveApplies(r, key, u.outs, n.t, n.x, v);
    var s2 := ApplyOuts(u.outs, b.txs[1]);
    MoveApplies(r, key, s2, n.s, n.t, w);
    var s3 := ApplyOuts(s2, b.txs[2]);
    assert b.txs[0].coinbase;
    assert Owns(r, key, u.(outs := s2), n.s, w, index) && Owns(r, key, u.(outs := s3), n.t, w, index);
    hide SignaturesVerify, ValidTx, Snapshot, ApplyOuts, BlockSubsidy, Mine, Move, Owns;
    MoveOk(r, key, u, n.t, n.x, v, index);
    MoveOk(r, key, u.(outs := s2), n.s, n.t, w, index);
    MoveOk(r, key, u.(outs := s3), n.t, n.y, w, index);
    forall i | 0 <= i < 4 ensures SpendOk(r, u, b, i) {}
  }

  lemma Fees(r: Rules, key: string, u: Utxo, n: Names, v: nat, w: nat, index: nat, header: Header)
    requires Before(r, key, u, n, v, w, index)
    ensures TotalFees(u.outs, Debasing(r, key, n, v, w, index, header).txs) == v - w
  {
    FourFees(u.outs, Debasing(r, key, n, v, w, index, header).txs);
    hide TotalFees, Move, BlockSubsidy;
    MoveFee(r, key, u.outs, n.t, n.x, v);
    MoveFee(r, key, u.outs, n.s, n.t, w);
    MoveFee(r, key, u.outs, n.t, n.y, w);
  }

  /** One move of the commit, from what the entries are by then. */
  lemma MoveStep(r: Rules, key: string, m: Outs, txs: seq<Tx>, i: nat, from: TxId, txid: TxId, value: nat)
    requires i < |txs| && txs[i] == Move(r, key, from, txid, value) && Lost(m, txs[..i]) == 0
    requires var here := FoldOuts(m, txs[..i]);
             Point(from) in here && here[Point(from)].value == value && Point(txid) !in here
    ensures var here, next := FoldOuts(m, txs[..i]), FoldOuts(m, txs[..i + 1]);
            && Total(next) == Total(here) && Lost(m, txs[..i + 1]) == 0
            && Point(txid) in next && next[Point(txid)].value == value && (from != txid ==> Point(from) !in next)
            && forall k :: k !in {Point(from), Point(txid)} ==>
                 (k in next <==> k in here) && (k in next ==> next[k] == here[k])
  {
    assert Mine(r, key, value).value == value;
    hide *;
    MoveKeeps(r, key, FoldOuts(m, txs[..i]), from, txid, value);
    MoveApplies(r, key, FoldOuts(m, txs[..i]), from, txid, value);
    LostStep(m, txs, i, FoldOuts(m, txs[..i]));
  }

  lemma CoinbaseStep(m: Outs, txs: seq<Tx>, c: TxId, pay: TxOutput)
    requires txs != [] && txs[0] == Tx(c, true, [], [pay]) && Point(c) !in m
    ensures FoldOuts(m, txs[..1]) == m[Point(c) := pay] && Lost(m, txs[..1]) == 0
    ensures Total(m[Point(c) := pay]) == Total(m) + pay.value
  {
    assert txs[..0] == [];
    OneReplaced(m, c, pay);
    CoinbaseApplies(m, c, pay);
    LostStep(m, txs, 0, m);
    TotalPut(m, Point(c), pay);
  }

  lemma ThreeMoves(r: Rules, key: string, m: Outs, txs: seq<Tx>, n: Names, v: nat, w: nat)
    requires Different(n) && |txs| == 4 && Lost(m, txs[..1]) == 0
    requires txs[1] == Move(r, key, n.t, n.x, v) && txs[2] == Move(r, key, n.s, n.t, w)
    requires txs[3] == Move(r, key, n.t, n.y, w)
    requires var here := FoldOuts(m, txs[..1]);
             && Point(n.t) in here && here[Point(n.t)].value == v && Point(n.s) in here && here[Point(n.s)].value == w
             && Point(n.x) !in here && Point(n.y) !in here
    ensures Total(FoldOuts(m, txs)) == Total(FoldOuts(m, txs[..1])) && Lost(m, txs) == 0
  {
    assert txs[..4] == txs;
    hide FoldOuts, Lost, Total, Move;
    MoveStep(r, key, m, txs, 1, n.t, n.x, v);
    var m2 := FoldOuts(m, txs[..2]);
    assert Point(n.s) in m2 && m2[Point(n.s)].value == w && Point(n.t) !in m2 && Point(n.y) !in m2;
    MoveStep(r, key, m, txs, 2, n.s, n.t, w);
    var m3 := FoldOuts(m, txs[..3]);
    assert Point(n.t) in m3 && m3[Point(n.t)].value == w && Point(n.y) !in m3;
    MoveStep(r, key, m, txs, 3, n.t, n.y, w);
  }

  /** The commit: the coinbase is all new value, each move keeps the total, nothing is overwritten. */
  lemma NewTotal(r: Rules, key: string, u: Utxo, n: Names, v: nat, w: nat, index: nat, header: Header)
    requires Before(r, key, u, n, v, w, index)
    ensures var txs := Debasing(r, key, n, v, w, index, header).txs;
            && Lost(u.outs, txs) == 0
            && Total(FoldOuts(u.outs, txs)) == Total(u.outs) + BlockSubsidy(index) + (v - w)
  {
    var m, txs := u.outs, Debasing(r, key, n, v, w, index, header).txs;
    hide FoldOuts, Lost, Total, BlockSubsidy, Move;
    CoinbaseStep(m, txs, n.c, Mine(r, key, BlockSubsidy(index) + v - w));
    ThreeMoves(r, key, m, txs, n, v, w);
  }

  lemma PlainMoves(r: Rules, key: string, u: Utxo, n: Names, v: nat, w: nat, index: nat, header: Header)
    requires Before(r, key, u, n, v, w, index)
    ensures var txs := Debasing(r, key, n, v, w, index, header).txs;
            && (forall i :: 0 <= i < 4 ==> PlainAt(u.outs, txs, i))
            && (Sound(u.outs, txs) <==> w == v)
  {
    var m, txs := u.outs, Debasing(r, key, n, v, w, index, header).txs;
    MoveParts(r, key, n.t, n.x, v);
    MoveParts(r, key, n.s, n.t, w);
    MoveParts(r, key, n.t, n.y, w);
    hide BlockSubsidy, Move;
    forall p, i | 0 <= p < 4 && 0 <= i < 4 && |txs[i].inputs| == 1 && Creates(txs[p], Key(txs[i].inputs[0]))
      ensures p == 2 && i != 2
    {
    }
    forall i | 0 <= i < 4 ensures PlainAt(m, txs, i) {}
    if w < v {
      assert Creates(txs[2], Point(n.t)) && txs[2].outputs[0].value < m[Point(n.t)].value;
      assert Debased(m, txs, 3, Key(txs[3].inputs[0]));
      assert !SoundAt(m, txs, 3);
    } else {
      forall i | 0 <= i < 4 ensures SoundAt(m, txs, i) {}
      assert Sound(m, txs);
    }
  }

  /** Over any set that holds two spendable outputs of one key, creating the larger one again from the smaller and
      spending it twice in one block passes validation and adds the difference on top of the subsidy. */
  lemma DebasementCreatesValue(r: Rules, key: string, u: Utxo, n: Names, v: nat, w: nat, index: nat, header: Header)
    requires SignaturesVerify(r.crypto) && Before(r, key, u, n, v, w, index)
    ensures var b := Debasing(r, key, n, v, w, index, header);
            && ShapeOk(b.txs) && SpendsOk(r, u, b) && RewardOk(u, b) && TakesAll(u, b)
            && Plain(u.outs, b.txs) && (Sound(u.outs, b.txs) <==> w == v)
            && Total(ApplyTxs(u, b.txs, index).outs) == Total(u.outs) + BlockSubsidy(index) + (v - w)
  {
    var b := Debasing(r, key, n, v, w, index, header);
    Singletons(u.outs, b.txs[1].inputs[0], b.txs[0].outputs[0]);
    hide ShapeOk, SpendsOk, TotalFees, ApplyTxs, FoldOuts, Total, Sound, BlockSubsidy, OutSum, Lost, PlainAt, Owns,
         SignaturesVerify, Move;
    WellShaped(r, key, n, v, w, index, header);
    Accepted(r, key, u, n, v, w, index, header);
    Fees(r, key, u, n, v, w, index, header);
    NewTotal(r, key, u, n, v, w, index, header);
    PlainMoves(r, key, u, n, v, w, index, header);
    ApplyIsFold(u, b.txs, index);
  }

  // ----- on a live node -----

  /** The header makes the block the next one of the chain, at some work and at a time the node admits. */
  predicate Fits(r: Rules, chain: seq<Block>, b: Block, now: int)
  {
    && chain != [] && b.index == |chain| && b.header.prev == TipOf(chain)
    && b.header.bits == ExpectedBits(r, View(chain), |chain|) && MeetsTarget(r.crypto, b.header)
    && b.header.root == Root(TxIds(b.txs))
    && TimeOk(View(chain), b) && NotFromFuture(b, now) && r.fits(b)
  }

  /** Every node whose chain has left such outputs spendable accepts the block once its header is mined. The value in
      existence then exceeds the subsidies so far exactly if it was within v - w of them before. */
  lemma NodeAcceptsDebasement(r: Rules, key: string, s: State, chain: seq<Block>, n: Names, v: nat, w: nat,
                              header: Header, now: int)
    requires SignaturesVerify(r.crypto) && Reflects(s, chain) && ValidChain(r, chain)
    requires Before(r, key, s.utxo, n, v, w, |chain|)
    requires Fits(r, chain, Debasing(r, key, n, v, w, |chain|, header), now)
    ensures var b := Debasing(r, key, n, v, w, |chain|, header);
            var (after, ok) := AddBlock(r, s, b, now);
            && ok && Reflects(after, chain + [b]) && ValidChain(r, chain + [b])
            && Total(after.utxo.outs) == Total(s.utxo.outs) + BlockSubsidy(|chain|) + (v - w)
            && (Total(after.utxo.outs) > SubsidyTo(|chain| + 1) <==> Total(s.utxo.outs) + (v - w) > SubsidyTo(|chain|))
  {
    var b := Debasing(r, key, n, v, w, |chain|, header);
    assert s.utxo == Replay(chain);
    hide *;
    DebasementCreatesValue(r, key, s.utxo, n, v, w, |chain|, header);
    NextAccepted(r, chain, b, now);
    AddBlockRefines(r, s, chain, b, now);
    NextValid(r, chain, b, now);
    ReflectsAfter(AddBlock(r, s, b, now).0, chain, b);
    NextSubsidy(|chain|);
  }

  lemma NextSubsidy(height: nat)
    ensures SubsidyTo(height + 1) == SubsidyTo(height) + BlockSubsidy(height)
  {
  }

  lemma NextValid(r: Rules, chain: seq<Block>, b: Block, now: int)
    requires ValidChain(r, chain) && Accepts(r, chain, b, now) && b.index == |chain|
    ensures ValidChain(r, chain + [b])
  {
    ValidExtension(r, chain, b, now);
    assert chain[..|chain|] == chain;
  }

  lemma ReflectsAfter(after: State, chain: seq<Block>, b: Block)
    requires Reflects(after, chain + [b])
    ensures after.utxo == ApplyTxs(Replay(chain), b.txs, |chain|)
  {
    assert (chain + [b])[..|chain|] == chain;
  }

  lemma NextAccepted(r: Rules, chain: seq<Block>, b: Block, now: int)
    requires Fits(r, chain, b, now)
    requires ShapeOk(b.txs) && SpendsOk(r, Replay(chain), b) && RewardOk(Replay(chain), b)
    ensures b.index == |chain| && Accepts(r, chain, b, now) && Deliver(r, chain, b, now) == chain + [b]
  {
    hide ShapeOk, SpendsOk, RewardOk, TimeOk, NotFromFuture, MeetsTarget, ExpectedBits, Root, Replay;
    assert chain[..|chain|] == chain;
    assert BlockAt(View(chain), |chain| - 1) == Some(chain[|chain| - 1]);
  }
}
