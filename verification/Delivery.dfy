/** Block delivery with an orphan pool (node/node.py): the order of arrival does not matter. */
module Delivery {
  import opened Merkle
  import opened Model
  import opened ChainSpec
  import opened ChainModel
  import opened ValidChains
  import opened Finality
  import opened Blockchain

  const MAX_ORPHANS: nat := 200

  /** Chain, blocks waiting for their parent (keyed by it), and unconfirmed transactions. */
  datatype NodeState = NodeState(chain: State, orphans: map<Hash, Block>, mempool: seq<Tx>)

  function Unconfirmed(mempool: seq<Tx>, ids: seq<TxId>): (rest: seq<Tx>)
    ensures forall tx :: tx in rest <==> tx in mempool && tx.txid !in ids
  {
    if mempool == [] then []
    else (if mempool[0].txid in ids then [] else [mempool[0]]) + Unconfirmed(mempool[1..], ids)
  }

  lemma UnconfirmedHead(tx: Tx, rest: seq<Tx>, ids: seq<TxId>)
    ensures Unconfirmed([tx] + rest, ids) == (if tx.txid in ids then [] else [tx]) + Unconfirmed(rest, ids)
  {
    assert ([tx] + rest)[1..] == rest;
  }

  /** What stays, stays in order. */
  lemma {:induction false} UnconfirmedConcat(a: seq<Tx>, b: seq<Tx>, ids: seq<TxId>)
    ensures Unconfirmed(a + b, ids) == Unconfirmed(a, ids) + Unconfirmed(b, ids)
  {
    if a == [] {
      assert a + b == b && Unconfirmed(a, ids) == [];
    } else {
      var tx, rest := a[0], a[1..];
      var head := if tx.txid in ids then [] else [tx];
      hide *;
      assert a == [tx] + rest;
      ConcatIn3([tx], rest, b);
      UnconfirmedConcat(rest, b, ids);
      UnconfirmedHead(tx, rest, ids);
      UnconfirmedHead(tx, rest + b, ids);
      ConcatIn3(head, Unconfirmed(rest, ids), Unconfirmed(b, ids));
    }
  }

  lemma ConcatIn3(a: seq<Tx>, b: seq<Tx>, c: seq<Tx>)
    ensures (a + b) + c == a + (b + c)
  {
  }

  /** `_process_orphans`: attach waiting children of the new tip, one after another. */
  function ProcessOrphans(r: Rules, n: NodeState, tip: Hash, now: int): NodeState
    decreases |n.orphans|
  {
    if tip !in n.orphans then n
    else
      var b := n.orphans[tip];
      assert n.orphans.Keys == (n.orphans - {tip}).Keys + {tip};
      var (s, ok) := AddBlock(r, n.chain, b, now);
      var next := n.(chain := s, orphans := n.orphans - {tip});
      if ok then ProcessOrphans(r, next, HashOf(b), now) else next
  }

  /** `_handle_block`. */
  function HandleBlock(r: Rules, n: NodeState, b: Block, now: int): NodeState
  {
    var (s, ok) := AddBlock(r, n.chain, b, now);
    if ok then
      ProcessOrphans(r, n.(chain := s, mempool := Unconfirmed(n.mempool, TxIds(b.txs))), HashOf(b), now)
    else if b.index > s.height + 1 && |n.orphans| < MAX_ORPHANS then
      n.(chain := s, orphans := n.orphans[b.header.prev := b])
    else n.(chain := s)
  }

  lemma {:induction false} AttachingKeepsMempool(r: Rules, n: NodeState, tip: Hash, now: int)
    ensures ProcessOrphans(r, n, tip, now).mempool == n.mempool
    decreases |n.orphans|
  {
    hide AddBlock;
    if tip in n.orphans {
      var b := n.orphans[tip];
      assert n.orphans.Keys == (n.orphans - {tip}).Keys + {tip};
      var (s, ok) := AddBlock(r, n.chain, b, now);
      if ok { AttachingKeepsMempool(r, n.(chain := s, orphans := n.orphans - {tip}), HashOf(b), now); }
    }
  }

  /** An accepted block takes its own transactions out of the mempool, and nothing else: not those of the orphans that
      attach after it. A refused block changes nothing there. */
  lemma MempoolAfter(r: Rules, n: NodeState, b: Block, now: int)
    ensures HandleBlock(r, n, b, now).mempool ==
            if AddBlock(r, n.chain, b, now).1 then Unconfirmed(n.mempool, TxIds(b.txs)) else n.mempool
  {
    hide AddBlock, ProcessOrphans, Unconfirmed;
    var s := AddBlock(r, n.chain, b, now).0;
    AttachingKeepsMempool(r, n.(chain := s, mempool := Unconfirmed(n.mempool, TxIds(b.txs))), HashOf(b), now);
  }

  /** Blocks arriving one after another. */
  function HandleAll(r: Rules, n: NodeState, arrivals: seq<Block>, now: int): NodeState
  {
    if arrivals == [] then n
    else HandleBlock(r, HandleAll(r, n, arrivals[..|arrivals| - 1], now), arrivals[|arrivals| - 1], now)
  }

  /** The same blocks in chain order, with no orphan pool involved. */
  function InOrder(r: Rules, s: State, blocks: seq<Block>, now: int): State
  {
    if blocks == [] then s
    else AddBlock(r, InOrder(r, s, blocks[..|blocks| - 1], now), blocks[|blocks| - 1], now).0
  }

  /** blocks are the next blocks of a node whose chain is valid. */
  predicate NextBlocks(r: Rules, s: State, chain: seq<Block>, blocks: seq<Block>, now: int)
  {
    && chain != [] && Reflects(s, chain) && ValidChain(r, chain)
    && forall i :: 0 <= i < |blocks| ==> Accepts(r, chain + blocks[..i], blocks[i], now)
  }

  // ----- the states reached in order -----

  /** The state with the first k blocks attached. */
  function At(r: Rules, s: State, blocks: seq<Block>, now: int, k: nat): State
    requires k <= |blocks|
  {
    InOrder(r, s, blocks[..k], now)
  }

  lemma AcceptedAtTip(r: Rules, chain: seq<Block>, b: Block, now: int)
    requires ValidChain(r, chain) && Accepts(r, chain, b, now)
    ensures b.index == |chain| && chain != [] && b.header.prev == TipOf(chain)
    ensures Deliver(r, chain, b, now) == chain + [b] && ValidChain(r, chain + [b])
  {
    if b.index < |chain| { NoRivalAccepted(r, chain, b, now); }
    ValidExtension(r, chain, b, now);
    assert chain[..|chain|] == chain;
  }

  lemma AcceptedNext(r: Rules, s: State, chain: seq<Block>, b: Block, now: int)
    requires Reflects(s, chain) && ValidChain(r, chain) && Accepts(r, chain, b, now)
    ensures AddBlock(r, s, b, now).1
    ensures Reflects(AddBlock(r, s, b, now).0, chain + [b]) && ValidChain(r, chain + [b])
  {
    AddBlockRefines(r, s, chain, b, now);
    AcceptedAtTip(r, chain, b, now);
  }

  lemma AcceptsEach(r: Rules, s: State, chain: seq<Block>, blocks: seq<Block>, now: int, k: nat)
    requires NextBlocks(r, s, chain, blocks, now) && k < |blocks|
    ensures Accepts(r, chain + blocks[..k], blocks[k], now)
    ensures chain + blocks[..k] + [blocks[k]] == chain + blocks[..k + 1]
    ensures At(r, s, blocks, now, k + 1) == AddBlock(r, At(r, s, blocks, now, k), blocks[k], now).0
  {
    hide Accepts, AddBlock;
    assert blocks[..k + 1] == blocks[..k] + [blocks[k]];
    assert blocks[..k + 1][..k] == blocks[..k];
  }

  lemma {:induction false} InOrderReflects(r: Rules, s: State, chain: seq<Block>, blocks: seq<Block>, now: int, k: nat)
    requires NextBlocks(r, s, chain, blocks, now) && k <= |blocks|
    ensures Reflects(At(r, s, blocks, now, k), chain + blocks[..k])
    ensures ValidChain(r, chain + blocks[..k])
  {
    hide Reflects, ValidChain, Accepts, AddBlock;
    if k == 0 {
      assert chain + blocks[..0] == chain;
    } else {
      InOrderReflects(r, s, chain, blocks, now, k - 1);
      AcceptsEach(r, s, chain, blocks, now, k - 1);
      AcceptedNext(r, At(r, s, blocks, now, k - 1), chain + blocks[..k - 1], blocks[k - 1], now);
    }
  }

  lemma BlockPlace(r: Rules, s: State, chain: seq<Block>, blocks: seq<Block>, now: int, j: nat)
    requires NextBlocks(r, s, chain, blocks, now) && j < |blocks|
    ensures blocks[j].index == |chain| + j
    ensures blocks[j].header.prev == TipOf(chain + blocks[..j])
    ensures Depth(blocks[j].header.prev) == |chain| + j
  {
    var below := chain + blocks[..j];
    assert chain != [];
    hide NextBlocks, Accepts, ValidChain, At, Deliver, ValidAfter;
    InOrderReflects(r, s, chain, blocks, now, j);
    AcceptsEach(r, s, chain, blocks, now, j);
    AcceptedAtTip(r, below, blocks[j], now);
    assert Linked(below);
    hide Reflects, Linked;
    ChainDepth(below, |below| - 1);
  }

  predicate DistinctParents(blocks: seq<Block>)
  {
    forall i, j :: 0 <= i < j < |blocks| ==> blocks[i].header.prev != blocks[j].header.prev
  }

  predicate Chained(blocks: seq<Block>)
  {
    forall j :: 1 <= j < |blocks| ==> blocks[j].header.prev == HashOf(blocks[j - 1])
  }

  /** With the first k blocks on the chain, exactly block k is acceptable; any other changes nothing. */
  predicate Responds(r: Rules, s: State, blocks: seq<Block>, now: int, k: nat, j: nat)
    requires k <= |blocks| && j < |blocks|
  {
    && (blocks[j].index > At(r, s, blocks, now, k).height + 1 <==> j > k)
    && AddBlock(r, At(r, s, blocks, now, k), blocks[j], now) ==
       if j == k then (At(r, s, blocks, now, k + 1), true) else (At(r, s, blocks, now, k), false)
  }

  lemma OnlyNextAccepted(r: Rules, s: State, chain: seq<Block>, blocks: seq<Block>, now: int, k: nat, j: nat)
    requires NextBlocks(r, s, chain, blocks, now) && k <= |blocks| && j < |blocks|
    ensures Responds(r, s, blocks, now, k, j)
    ensures At(r, s, blocks, now, k).height == |chain| + k - 1
  {
    hide NextBlocks, ValidChain, Accepts, At;
    var at := At(r, s, blocks, now, k);
    InOrderReflects(r, s, chain, blocks, now, k);
    BlockPlace(r, s, chain, blocks, now, j);
    HeightOf(at, chain + blocks[..k]);
    hide Reflects;
    if j < k {
      EarlierBlockRefused(r, at, chain + blocks[..k], blocks[j], now);
    } else if j == k {
      hide AddBlock;
      AcceptsEach(r, s, chain, blocks, now, k);
      AcceptedNext(r, at, chain + blocks[..k], blocks[k], now);
    }
  }

  lemma HeightOf(s: State, chain: seq<Block>)
    requires Reflects(s, chain)
    ensures s.height == |chain| - 1
  {
  }

  /** All the pool needs to know about the chain. */
  predicate Batch(r: Rules, s: State, blocks: seq<Block>, now: int)
  {
    && DistinctParents(blocks) && Chained(blocks)
    && forall k: nat, j: nat :: k <= |blocks| && j < |blocks| ==> Responds(r, s, blocks, now, k, j)
  }

  lemma NextBlocksAreBatch(r: Rules, s: State, chain: seq<Block>, blocks: seq<Block>, now: int)
    requires NextBlocks(r, s, chain, blocks, now)
    ensures Batch(r, s, blocks, now)
  {
    hide NextBlocks, Responds;
    forall j: nat | j < |blocks|
      ensures Depth(blocks[j].header.prev) == |chain| + j
      ensures j > 0 ==> blocks[j].header.prev == HashOf(blocks[j - 1])
    {
      BlockPlace(r, s, chain, blocks, now, j);
    }
    forall k: nat, j: nat | k <= |blocks| && j < |blocks| ensures Responds(r, s, blocks, now, k, j) {
      OnlyNextAccepted(r, s, chain, blocks, now, k, j);
    }
  }

  lemma Respond(r: Rules, s: State, blocks: seq<Block>, now: int, k: nat, j: nat)
    requires Batch(r, s, blocks, now) && k <= |blocks| && j < |blocks|
    ensures Responds(r, s, blocks, now, k, j)
    ensures DistinctParents(blocks) && Chained(blocks)
  {
  }

  lemma RespondsNext(r: Rules, s: State, blocks: seq<Block>, now: int, k: nat)
    requires k < |blocks| && Responds(r, s, blocks, now, k, k)
    ensures AddBlock(r, At(r, s, blocks, now, k), blocks[k], now) == (At(r, s, blocks, now, k + 1), true)
  {
  }

  // ----- the pool -----

  /** The pool holds exactly the blocks numbered in js. */
  predicate Holds(orphans: map<Hash, Block>, blocks: seq<Block>, js: set<nat>)
  {
    && (forall j :: j in js ==> j < |blocks| && blocks[j].header.prev in orphans
                                && orphans[blocks[j].header.prev] == blocks[j])
    && (forall h :: h in orphans ==> exists j :: j in js && blocks[j].header.prev == h)
  }

  lemma RemoveSize(orphans: map<Hash, Block>, h: Hash)
    requires h in orphans
    ensures |orphans| == |orphans - {h}| + 1
  {
    assert orphans.Keys == (orphans - {h}).Keys + {h};
  }

  lemma HoldsWithout(orphans: map<Hash, Block>, blocks: seq<Block>, js: set<nat>, k: nat)
    requires Holds(orphans, blocks, js) && DistinctParents(blocks) && k in js
    ensures Holds(orphans - {blocks[k].header.prev}, blocks, js - {k})
    ensures |orphans| == |orphans - {blocks[k].header.prev}| + 1
  {
    var h := blocks[k].header.prev;
    RemoveSize(orphans, h);
    forall j | j in js - {k} ensures blocks[j].header.prev != h {}
    forall g | g in orphans - {h} ensures exists j :: j in js - {k} && blocks[j].header.prev == g {
      var j :| j in js && blocks[j].header.prev == g;
      assert j in js - {k};
    }
  }

  lemma HoldsWith(orphans: map<Hash, Block>, blocks: seq<Block>, js: set<nat>, j: nat)
    requires Holds(orphans, blocks, js) && DistinctParents(blocks) && j < |blocks|
    ensures Holds(orphans[blocks[j].header.prev := blocks[j]], blocks, js + {j})
  {
    var after := orphans[blocks[j].header.prev := blocks[j]];
    forall h | h in after ensures exists i :: i in js + {j} && blocks[i].header.prev == h {
      if h in orphans {
        var i :| i in js && blocks[i].header.prev == h;
        assert i in js + {j};
      } else {
        assert j in js + {j};
      }
    }
  }

  lemma {:induction false} PoolSize(orphans: map<Hash, Block>, blocks: seq<Block>, js: set<nat>)
    requires Holds(orphans, blocks, js) && DistinctParents(blocks)
    ensures |orphans| == |js|
    decreases |js|
  {
    if js == {} {
      assert orphans == map[];
    } else {
      var j :| j in js;
      assert j < |blocks|;
      hide Holds, DistinctParents;
      HoldsWithout(orphans, blocks, js, j);
      PoolSize(orphans - {blocks[j].header.prev}, blocks, js - {j});
    }
  }

  function From(kept: set<nat>, k: nat): set<nat> { set j | j in kept && k <= j }

  /** The numbers of those blocks that have arrived. */
  function Arrived(blocks: seq<Block>, arrivals: seq<Block>): set<nat>
  {
    set j: nat | j < |blocks| && blocks[j] in arrivals
  }

  /** k blocks are on the chain, block k has not come, and the pool holds the later ones that were kept. */
  predicate Settled(r: Rules, s: State, blocks: seq<Block>, now: int, n: NodeState, kept: set<nat>, k: nat)
  {
    && k <= |blocks| && k !in kept
    && (forall j :: j in kept ==> j < |blocks|)
    && n.chain == At(r, s, blocks, now, k)
    && Holds(n.orphans, blocks, From(kept, k))
  }

  lemma FromNext(kept: set<nat>, k: nat)
    ensures k in From(kept, k) <==> k in kept
    ensures forall j :: j in From(kept, k) ==> k <= j
    ensures From(kept, k) - {k} == From(kept, k + 1)
  {
  }

  lemma WaitingChild(blocks: seq<Block>, orphans: map<Hash, Block>, js: set<nat>, k: nat)
    requires DistinctParents(blocks) && Chained(blocks) && 1 <= k <= |blocks| && Holds(orphans, blocks, js)
    requires forall j :: j in js ==> k <= j
    ensures HashOf(blocks[k - 1]) in orphans <==> k in js
    ensures k in js ==> k < |blocks| && blocks[k].header.prev == HashOf(blocks[k - 1])
                        && orphans[HashOf(blocks[k - 1])] == blocks[k]
  {
    var tip := HashOf(blocks[k - 1]);
    if k < |blocks| { assert blocks[k].header.prev == tip; }
    if tip in orphans {
      var j :| j in js && blocks[j].header.prev == tip;
      assert k < |blocks|;
      assert j == k;
    }
  }

  /** One turn of `_process_orphans`: the child of block k-1, if waiting, is block k, and it attaches. */
  lemma AttachNext(r: Rules, s: State, blocks: seq<Block>, now: int, n: NodeState, kept: set<nat>, k: nat)
    requires Batch(r, s, blocks, now) && 1 <= k <= |blocks|
    requires n.chain == At(r, s, blocks, now, k) && Holds(n.orphans, blocks, From(kept, k))
    ensures HashOf(blocks[k - 1]) in n.orphans <==> k in kept
    ensures k in kept ==>
              && k < |blocks| && n.orphans[HashOf(blocks[k - 1])] == blocks[k]
              && AddBlock(r, n.chain, blocks[k], now) == (At(r, s, blocks, now, k + 1), true)
              && Holds(n.orphans - {HashOf(blocks[k - 1])}, blocks, From(kept, k + 1))
              && |n.orphans| == |n.orphans - {HashOf(blocks[k - 1])}| + 1
  {
    FromNext(kept, k);
    hide *;
    Respond(r, s, blocks, now, 0, 0);
    WaitingChild(blocks, n.orphans, From(kept, k), k);
    if k in kept {
      Respond(r, s, blocks, now, k, k);
      RespondsNext(r, s, blocks, now, k);
      HoldsWithout(n.orphans, blocks, From(kept, k), k);
    }
  }

  lemma {:induction false} OrphansAttach(r: Rules, s: State, blocks: seq<Block>, now: int,
                                         n: NodeState, kept: set<nat>, k: nat) returns (k': nat)
    requires Batch(r, s, blocks, now) && 1 <= k <= |blocks|
    requires forall j :: j in kept ==> j < |blocks|
    requires n.chain == At(r, s, blocks, now, k) && Holds(n.orphans, blocks, From(kept, k))
    ensures k <= k' && forall j :: k <= j < k' ==> j in kept
    ensures Settled(r, s, blocks, now, ProcessOrphans(r, n, HashOf(blocks[k - 1]), now), kept, k')
    decreases |n.orphans|
  {
    hide Batch, AddBlock, At, Holds;
    var tip := HashOf(blocks[k - 1]);
    AttachNext(r, s, blocks, now, n, kept, k);
    k' := k;
    if k in kept {
      var next := n.(chain := At(r, s, blocks, now, k + 1), orphans := n.orphans - {tip});
      k' := OrphansAttach(r, s, blocks, now, next, kept, k + 1);
    }
  }

  lemma HandleAccepted(r: Rules, n: NodeState, b: Block, now: int, s: State)
    requires AddBlock(r, n.chain, b, now) == (s, true)
    ensures HandleBlock(r, n, b, now) ==
            ProcessOrphans(r, NodeState(s, n.orphans, Unconfirmed(n.mempool, TxIds(b.txs))), HashOf(b), now)
  {
    hide AddBlock, ProcessOrphans, Unconfirmed, TxIds;
  }

  lemma HandleRefused(r: Rules, n: NodeState, b: Block, now: int)
    requires AddBlock(r, n.chain, b, now) == (n.chain, false)
    ensures HandleBlock(r, n, b, now) ==
            if b.index > n.chain.height + 1 && |n.orphans| < MAX_ORPHANS
            then NodeState(n.chain, n.orphans[b.header.prev := b], n.mempool) else n
  {
    hide AddBlock, ProcessOrphans;
  }

  /** A refused block changes nothing but the pool, and is kept there exactly if it is more than one above the height
      and fewer than 200 are waiting, under its parent's hash. */
  lemma RefusedBlock(r: Rules, n: NodeState, chain: seq<Block>, b: Block, now: int)
    requires Reflects(n.chain, chain) && !Accepts(r, chain, b, now)
    ensures var after := HandleBlock(r, n, b, now);
            && after.chain == n.chain && after.mempool == n.mempool
            && after.orphans == if b.index > |chain| && |n.orphans| < 200 then n.orphans[b.header.prev := b]
                                else n.orphans
  {
    HeightOf(n.chain, chain);
    hide Reflects, Accepts, AddBlock, HandleBlock;
    AddBlockRefines(r, n.chain, chain, b, now);
    HandleRefused(r, n, b, now);
  }

  lemma FromFacts(kept: set<nat>, k: nat, j: nat)
    ensures j < k ==> From(kept + {j}, k) == From(kept, k)
    ensures j >= k ==> From(kept + {j}, k) == From(kept, k) + {j}
    ensures k !in kept ==> From(kept + {k}, k + 1) == From(kept, k)
  {
  }

  lemma SettledParts(r: Rules, s: State, blocks: seq<Block>, now: int, n: NodeState, kept: set<nat>, k: nat)
    requires Settled(r, s, blocks, now, n, kept, k)
    ensures k <= |blocks| && k !in kept && n.chain == At(r, s, blocks, now, k)
    ensures forall j :: j in kept ==> j < |blocks|
    ensures Holds(n.orphans, blocks, From(kept, k))
    ensures From(kept, k) == {} ==> n.orphans == map[]
  {
  }

  lemma PastHandled(r: Rules, s: State, blocks: seq<Block>, now: int, n: NodeState, kept: set<nat>, k: nat, j: nat)
    requires Batch(r, s, blocks, now) && Settled(r, s, blocks, now, n, kept, k) && j < k
    ensures Settled(r, s, blocks, now, HandleBlock(r, n, blocks[j], now), kept + {j}, k)
  {
    Respond(r, s, blocks, now, k, j);
    hide Batch, AddBlock, At, Holds, HandleBlock, DistinctParents, Chained, From;
    HandleRefused(r, n, blocks[j], now);
    FromFacts(kept, k, j);
  }

  lemma NextHandled(r: Rules, s: State, blocks: seq<Block>, now: int, n: NodeState, kept: set<nat>, k: nat)
    returns (k': nat)
    requires Batch(r, s, blocks, now) && Settled(r, s, blocks, now, n, kept, k) && k < |blocks|
    ensures Settled(r, s, blocks, now, HandleBlock(r, n, blocks[k], now), kept + {k}, k')
    ensures k <= k' && forall i :: k <= i < k' ==> i in kept + {k}
  {
    hide *;
    Respond(r, s, blocks, now, k, k);
    SettledParts(r, s, blocks, now, n, kept, k);
    assert AddBlock(r, n.chain, blocks[k], now) == (At(r, s, blocks, now, k + 1), true) by {
      RespondsNext(r, s, blocks, now, k);
    }
    HandleAccepted(r, n, blocks[k], now, At(r, s, blocks, now, k + 1));
    var next := NodeState(At(r, s, blocks, now, k + 1), n.orphans, Unconfirmed(n.mempool, TxIds(blocks[k].txs)));
    FromFacts(kept, k, k);
    k' := OrphansAttach(r, s, blocks, now, next, kept + {k}, k + 1);
  }

  lemma SettledFrom(r: Rules, s: State, blocks: seq<Block>, now: int, n: NodeState, kept: set<nat>, k: nat)
    requires k <= |blocks| && k !in kept && n.chain == At(r, s, blocks, now, k)
    requires forall j :: j in kept ==> j < |blocks|
    requires Holds(n.orphans, blocks, From(kept, k))
    ensures Settled(r, s, blocks, now, n, kept, k)
  {
  }

  lemma RespondsLater(r: Rules, s: State, blocks: seq<Block>, now: int, k: nat, j: nat)
    requires k < j < |blocks| && Responds(r, s, blocks, now, k, j)
    ensures AddBlock(r, At(r, s, blocks, now, k), blocks[j], now) == (At(r, s, blocks, now, k), false)
    ensures blocks[j].index > At(r, s, blocks, now, k).height + 1
  {
  }

  lemma FutureHandled(r: Rules, s: State, blocks: seq<Block>, now: int, n: NodeState, kept: set<nat>, k: nat, j: nat)
    requires Batch(r, s, blocks, now) && Settled(r, s, blocks, now, n, kept, k) && k < j < |blocks|
    ensures Settled(r, s, blocks, now, HandleBlock(r, n, blocks[j], now),
                    if |From(kept, k)| < MAX_ORPHANS then kept + {j} else kept, k)
  {
    hide *;
    Respond(r, s, blocks, now, k, j);
    RespondsLater(r, s, blocks, now, k, j);
    SettledParts(r, s, blocks, now, n, kept, k);
    PoolSize(n.orphans, blocks, From(kept, k));
    HandleRefused(r, n, blocks[j], now);
    if |n.orphans| < MAX_ORPHANS {
      HoldsWith(n.orphans, blocks, From(kept, k), j);
      FromFacts(kept, k, j);
      SettledFrom(r, s, blocks, now, HandleBlock(r, n, blocks[j], now), kept + {j}, k);
    }
  }

  /** Block j arrives: next in line, it pulls in waiting successors; late or early, it is dropped or kept. */
  lemma BlockHandled(r: Rules, s: State, blocks: seq<Block>, now: int,
                     n: NodeState, kept: set<nat>, k: nat, j: nat) returns (kept': set<nat>, k': nat)
    requires Batch(r, s, blocks, now) && Settled(r, s, blocks, now, n, kept, k) && j < |blocks|
    ensures Settled(r, s, blocks, now, HandleBlock(r, n, blocks[j], now), kept', k')
    ensures kept' == if j <= k || |From(kept, k)| < MAX_ORPHANS then kept + {j} else kept
    ensures k <= k' && (k' > k ==> j == k) && forall i :: k <= i < k' ==> i in kept'
  {
    hide Batch, Settled, HandleBlock;
    kept' := if j <= k || |From(kept, k)| < MAX_ORPHANS then kept + {j} else kept;
    k' := k;
    if j < k {
      PastHandled(r, s, blocks, now, n, kept, k, j);
    } else if j == k {
      k' := NextHandled(r, s, blocks, now, n, kept, k);
    } else {
      FutureHandled(r, s, blocks, now, n, kept, k, j);
    }
  }

  lemma {:induction false} CountBelow(js: set<nat>, lo: nat, hi: nat)
    requires lo <= hi && forall j :: j in js ==> lo <= j < hi
    ensures |js| <= hi - lo
    decreases hi
  {
    if lo < hi {
      CountBelow(js - {hi - 1}, lo, hi - 1);
      if hi - 1 in js { assert js == (js - {hi - 1}) + {hi - 1}; } else { assert js - {hi - 1} == js; }
    } else {
      assert js == {};
    }
  }

  /** A batch of at most 201 blocks never overfills the pool. */
  lemma RoomFor(kept: set<nat>, k: nat, j: nat, n: nat)
    requires n <= MAX_ORPHANS + 1 && k !in kept && j !in kept && k < j < n && forall i :: i in kept ==> i < n
    ensures |From(kept, k)| < MAX_ORPHANS
  {
    CountBelow(From(kept, k) + {j}, k + 1, n);
  }

  lemma NothingArrived(r: Rules, s: State, blocks: seq<Block>, now: int, n: NodeState)
    requires n.chain == s && n.orphans == map[]
    ensures Settled(r, s, blocks, now, n, {}, 0)
    ensures Arrived(blocks, []) == {}
  {
    assert blocks[..0] == [];
  }

  lemma ArrivedSnoc(blocks: seq<Block>, front: seq<Block>, j: nat)
    requires DistinctParents(blocks) && j < |blocks|
    ensures Arrived(blocks, front + [blocks[j]]) == Arrived(blocks, front) + {j}
    ensures j in Arrived(blocks, front) ==> Arrived(blocks, front) + {j} == Arrived(blocks, front)
  {
  }

  lemma HandleAllSnoc(r: Rules, n: NodeState, front: seq<Block>, b: Block, now: int)
    ensures HandleAll(r, n, front + [b], now) == HandleBlock(r, HandleAll(r, n, front, now), b, now)
  {
    assert (front + [b])[..|front|] == front;
  }

  lemma {:induction false} DeliverySettles(r: Rules, s: State, blocks: seq<Block>, now: int,
                                           n: NodeState, arrivals: seq<Block>) returns (k: nat)
    requires Batch(r, s, blocks, now) && |blocks| <= MAX_ORPHANS + 1
    requires n.chain == s && n.orphans == map[]
    requires forall b :: b in arrivals ==> b in blocks
    ensures Settled(r, s, blocks, now, HandleAll(r, n, arrivals, now), Arrived(blocks, arrivals), k)
  {
    k := 0;
    if arrivals == [] {
      NothingArrived(r, s, blocks, now, n);
    } else {
      var front, b := arrivals[..|arrivals| - 1], arrivals[|arrivals| - 1];
      assert b in arrivals && b in blocks;
      var j: nat :| j < |blocks| && blocks[j] == b;
      assert arrivals == front + [b];
      hide *;
      k := DeliverySettles(r, s, blocks, now, n, front);
      Respond(r, s, blocks, now, 0, j);
      ArrivedSnoc(blocks, front, j);
      HandleAllSnoc(r, n, front, b, now);
      var here := HandleAll(r, n, front, now);
      SettledParts(r, s, blocks, now, here, Arrived(blocks, front), k);
      if j > k && j !in Arrived(blocks, front) { RoomFor(Arrived(blocks, front), k, j, |blocks|); }
      var kept', k' := BlockHandled(r, s, blocks, now, here, Arrived(blocks, front), k, j);
      k := k';
    }
  }

  lemma AllArrived(blocks: seq<Block>, arrivals: seq<Block>, k: nat)
    requires k <= |blocks| && k !in Arrived(blocks, arrivals)
    requires forall b :: b in blocks ==> b in arrivals
    ensures k == |blocks| && blocks[..k] == blocks && From(Arrived(blocks, arrivals), k) == {}
  {
    forall j: nat | j < |blocks| ensures j in Arrived(blocks, arrivals) { assert blocks[j] in blocks; }
  }

  // ----- other arrivals in between -----

  function Parents(blocks: seq<Block>): set<Hash> { set b | b in blocks :: b.header.prev }

  /** Blocks that are refused at every stage of the batch and wait for no parent of its blocks. */
  predicate Foreign(r: Rules, s: State, blocks: seq<Block>, now: int, foreign: seq<Block>)
  {
    && (forall f :: f in foreign ==> f.header.prev !in Parents(blocks))
    && (forall f, k: nat :: f in foreign && k <= |blocks| ==>
          AddBlock(r, At(r, s, blocks, now, k), f, now) == (At(r, s, blocks, now, k), false))
  }

  /** n is m but for foreign blocks in its pool. */
  predicate Alike(n: NodeState, m: NodeState, foreign: seq<Block>)
  {
    && n.chain == m.chain && n.mempool == m.mempool
    && m.orphans == n.orphans - Parents(foreign)
    && forall h :: h in n.orphans && h in Parents(foreign) ==> n.orphans[h] in foreign
  }

  lemma AlikeSize(n: NodeState, m: NodeState, foreign: seq<Block>)
    requires Alike(n, m, foreign)
    ensures |m.orphans| <= |n.orphans| <= |m.orphans| + |Parents(foreign)|
  {
    var extra := n.orphans.Keys * Parents(foreign);
    assert n.orphans.Keys == m.orphans.Keys + extra;
    assert |n.orphans.Keys| == |m.orphans.Keys| + |extra|;
    SubsetSize(extra, Parents(foreign));
  }

  lemma SubsetSize(a: set<Hash>, b: set<Hash>)
    requires a <= b
    ensures |a| <= |b|
  {
    assert b == a + (b - a);
  }

  lemma ForeignRefused(r: Rules, s: State, blocks: seq<Block>, now: int, foreign: seq<Block>, f: Block, k: nat)
    requires Foreign(r, s, blocks, now, foreign) && f in foreign && k <= |blocks|
    ensures AddBlock(r, At(r, s, blocks, now, k), f, now) == (At(r, s, blocks, now, k), false)
  {
  }

  /** Attaching orphans goes the same way on both, a foreign block at most ending it by being refused. */
  lemma {:induction false} AlikeAttach(r: Rules, s: State, blocks: seq<Block>, now: int, foreign: seq<Block>,
                                       n: NodeState, m: NodeState, tip: Hash, k: nat)
    requires Foreign(r, s, blocks, now, foreign) && Alike(n, m, foreign) && k <= |blocks|
    requires ProcessOrphans(r, m, tip, now).chain == At(r, s, blocks, now, k)
    ensures Alike(ProcessOrphans(r, n, tip, now), ProcessOrphans(r, m, tip, now), foreign)
    decreases |n.orphans|
  {
    hide AddBlock, At, Foreign;
    if tip in n.orphans {
      RemoveSize(n.orphans, tip);
      var b := n.orphans[tip];
      if tip in Parents(foreign) {
        ForeignRefused(r, s, blocks, now, foreign, b, k);
      } else {
        var (after, ok) := AddBlock(r, n.chain, b, now);
        var n' := n.(chain := after, orphans := n.orphans - {tip});
        var m' := m.(chain := after, orphans := m.orphans - {tip});
        assert Alike(n', m', foreign);
        if ok { AlikeAttach(r, s, blocks, now, foreign, n', m', HashOf(b), k); }
      }
    }
  }

  lemma AlikeForeign(r: Rules, s: State, blocks: seq<Block>, now: int, foreign: seq<Block>,
                     n: NodeState, m: NodeState, f: Block, k: nat)
    requires Foreign(r, s, blocks, now, foreign) && Alike(n, m, foreign) && k <= |blocks|
    requires m.chain == At(r, s, blocks, now, k) && f in foreign
    ensures Alike(HandleBlock(r, n, f, now), m, foreign)
  {
    ForeignRefused(r, s, blocks, now, foreign, f, k);
    AlikeExtra(n, m, f, foreign);
    assert n.chain == m.chain;
    hide AddBlock, At, Foreign, HandleBlock, Alike;
    HandleRefused(r, n, f, now);
  }

  lemma AlikeExtra(n: NodeState, m: NodeState, f: Block, foreign: seq<Block>)
    requires Alike(n, m, foreign) && f in foreign
    ensures Alike(NodeState(n.chain, n.orphans[f.header.prev := f], n.mempool), m, foreign)
  {
    assert f.header.prev in Parents(foreign);
  }

  /** A block of the batch that must wait finds room, or waits already. */
  lemma RoomAmongForeign(r: Rules, s: State, blocks: seq<Block>, now: int, foreign: seq<Block>,
                         m: NodeState, kept: set<nat>, k: nat, j: nat)
    requires DistinctParents(blocks) && Settled(r, s, blocks, now, m, kept, k) && k < j < |blocks|
    requires |blocks| + |Parents(foreign)| <= MAX_ORPHANS + 1
    ensures |m.orphans| + |Parents(foreign)| < MAX_ORPHANS
            || (blocks[j].header.prev in m.orphans && m.orphans[blocks[j].header.prev] == blocks[j])
  {
    if j in kept {
      assert j in From(kept, k);
    } else {
      CountBelow(From(kept, k) + {j}, k + 1, |blocks|);
      PoolSize(m.orphans, blocks, From(kept, k));
    }
  }

  lemma AlikePut(n: NodeState, m: NodeState, b: Block, foreign: seq<Block>)
    requires Alike(n, m, foreign) && b.header.prev !in Parents(foreign)
    ensures var h := b.header.prev;
            && Alike(NodeState(n.chain, n.orphans[h := b], n.mempool), NodeState(m.chain, m.orphans[h := b], m.mempool),
                     foreign)
            && (h in m.orphans && m.orphans[h] == b ==>
                  m.orphans[h := b] == m.orphans && n.orphans[h := b] == n.orphans)
  {
  }

  lemma AlikeStore(r: Rules, n: NodeState, m: NodeState, b: Block, now: int, foreign: seq<Block>)
    requires Alike(n, m, foreign) && b.header.prev !in Parents(foreign)
    requires AddBlock(r, m.chain, b, now) == (m.chain, false)
    requires b.index > m.chain.height + 1 ==>
               |m.orphans| + |Parents(foreign)| < MAX_ORPHANS
               || (b.header.prev in m.orphans && m.orphans[b.header.prev] == b)
    ensures Alike(HandleBlock(r, n, b, now), HandleBlock(r, m, b, now), foreign)
  {
    AlikeSize(n, m, foreign);
    AlikePut(n, m, b, foreign);
    assert n.chain == m.chain;
    hide AddBlock, HandleBlock, Alike, Parents;
    HandleRefused(r, n, b, now);
    HandleRefused(r, m, b, now);
  }

  lemma AlikeBatch(r: Rules, s: State, blocks: seq<Block>, now: int, foreign: seq<Block>,
                   n: NodeState, m: NodeState, kept: set<nat>, k: nat, j: nat, k': nat)
    requires Batch(r, s, blocks, now) && Foreign(r, s, blocks, now, foreign) && Alike(n, m, foreign)
    requires |blocks| + |Parents(foreign)| <= MAX_ORPHANS + 1
    requires Settled(r, s, blocks, now, m, kept, k) && j < |blocks| && k' <= |blocks|
    requires HandleBlock(r, m, blocks[j], now).chain == At(r, s, blocks, now, k')
    ensures Alike(HandleBlock(r, n, blocks[j], now), HandleBlock(r, m, blocks[j], now), foreign)
  {
    var b := blocks[j];
    Respond(r, s, blocks, now, k, j);
    assert b.header.prev in Parents(blocks);
    assert b.header.prev !in Parents(foreign);
    hide AddBlock, At, HandleBlock, Batch, DistinctParents, Chained, Parents, Foreign, Holds, From;
    if j == k {
      var next := At(r, s, blocks, now, k + 1);
      HandleAccepted(r, n, b, now, next);
      HandleAccepted(r, m, b, now, next);
      var pool := Unconfirmed(n.mempool, TxIds(b.txs));
      AlikeAttach(r, s, blocks, now, foreign, NodeState(next, n.orphans, pool), NodeState(next, m.orphans, pool),
                  HashOf(b), k');
    } else {
      if j > k { RoomAmongForeign(r, s, blocks, now, foreign, m, kept, k, j); }
      AlikeStore(r, n, m, b, now, foreign);
    }
  }

  /** The arrivals that belong to the batch. */
  function Ours(blocks: seq<Block>, arrivals: seq<Block>): (ours: seq<Block>)
    ensures forall b :: b in ours <==> b in arrivals && b in blocks
  {
    if arrivals == [] then []
    else
      var front, b := Ours(blocks, arrivals[..|arrivals| - 1]), arrivals[|arrivals| - 1];
      assert arrivals == arrivals[..|arrivals| - 1] + [b];
      if b in blocks then front + [b] else front
  }

  lemma {:induction false} ForeignHarmless(r: Rules, s: State, blocks: seq<Block>, now: int, foreign: seq<Block>,
                                           n: NodeState, arrivals: seq<Block>)
    requires Batch(r, s, blocks, now) && Foreign(r, s, blocks, now, foreign)
    requires |blocks| + |Parents(foreign)| <= MAX_ORPHANS + 1
    requires n.chain == s && n.orphans == map[]
    requires forall b :: b in arrivals ==> b in blocks || b in foreign
    ensures Alike(HandleAll(r, n, arrivals, now), HandleAll(r, n, Ours(blocks, arrivals), now), foreign)
  {
    if arrivals != [] {
      var front, b := arrivals[..|arrivals| - 1], arrivals[|arrivals| - 1];
      assert b in arrivals;
      hide Batch, Foreign, Alike, HandleBlock, Parents;
      ForeignHarmless(r, s, blocks, now, foreign, n, front);
      var ours := Ours(blocks, front);
      var k := DeliverySettles(r, s, blocks, now, n, ours);
      SettledParts(r, s, blocks, now, HandleAll(r, n, ours, now), Arrived(blocks, ours), k);
      if b in blocks {
        var j: nat :| j < |blocks| && blocks[j] == b;
        var k' := DeliverySettles(r, s, blocks, now, n, ours + [b]);
        HandleAllSnoc(r, n, ours, b, now);
        SettledParts(r, s, blocks, now, HandleAll(r, n, ours + [b], now), Arrived(blocks, ours + [b]), k');
        AlikeBatch(r, s, blocks, now, foreign, HandleAll(r, n, front, now), HandleAll(r, n, ours, now),
                   Arrived(blocks, ours), k, j, k');
      } else {
        AlikeForeign(r, s, blocks, now, foreign, HandleAll(r, n, front, now), HandleAll(r, n, ours, now), b, k);
      }
    } else {
      assert Alike(n, n, foreign);
    }
  }

  /** Blocks acceptable nowhere along the batch are refused all along it. */
  lemma NeverAccepted(r: Rules, s: State, chain: seq<Block>, blocks: seq<Block>, now: int, foreign: seq<Block>)
    requires NextBlocks(r, s, chain, blocks, now)
    requires forall f :: f in foreign ==> f.header.prev !in Parents(blocks)
    requires forall f, k :: f in foreign && 0 <= k <= |blocks| ==> !Accepts(r, chain + blocks[..k], f, now)
    ensures Foreign(r, s, blocks, now, foreign)
  {
    hide NextBlocks, Accepts, AddBlock, At, Parents;
    forall f, k: nat | f in foreign && k <= |blocks|
      ensures AddBlock(r, At(r, s, blocks, now, k), f, now) == (At(r, s, blocks, now, k), false)
    {
      InOrderReflects(r, s, chain, blocks, now, k);
      AddBlockRefines(r, At(r, s, blocks, now, k), chain + blocks[..k], f, now);
    }
  }

  /** Next blocks, arriving in any order and with repeats but each at least once, lead to exactly the state of
      in-order delivery. Other blocks may arrive in between if they are acceptable nowhere along the way, share no
      parent hash with the batch, and leave room for it: with none of them, 201 blocks are possible. */
  lemma DeliveryOrderIrrelevant(r: Rules, s: State, chain: seq<Block>, blocks: seq<Block>, now: int,
                                foreign: seq<Block>, n: NodeState, arrivals: seq<Block>)
    requires NextBlocks(r, s, chain, blocks, now) && |blocks| + |Parents(foreign)| <= 201
    requires n.chain == s && n.orphans == map[]
    requires forall b :: b in blocks ==> b in arrivals
    requires forall b :: b in arrivals ==> b in blocks || b in foreign
    requires forall f :: f in foreign ==> f.header.prev !in Parents(blocks)
    requires forall f, k :: f in foreign && 0 <= k <= |blocks| ==> !Accepts(r, chain + blocks[..k], f, now)
    ensures HandleAll(r, n, arrivals, now).chain == InOrder(r, s, blocks, now)
    ensures forall h :: h in HandleAll(r, n, arrivals, now).orphans ==>
              HandleAll(r, n, arrivals, now).orphans[h] in foreign
    ensures foreign == [] ==> HandleAll(r, n, arrivals, now).orphans == map[]
  {
    NextBlocksAreBatch(r, s, chain, blocks, now);
    NeverAccepted(r, s, chain, blocks, now, foreign);
    hide NextBlocks, Batch, HandleAll, InOrder, Settled, Arrived, Foreign, Accepts;
    ForeignHarmless(r, s, blocks, now, foreign, n, arrivals);
    var ours := Ours(blocks, arrivals);
    var k := DeliverySettles(r, s, blocks, now, n, ours);
    SettledParts(r, s, blocks, now, HandleAll(r, n, ours, now), Arrived(blocks, ours), k);
    AllArrived(blocks, ours, k);
    var orphans := HandleAll(r, n, arrivals, now).orphans;
    assert orphans - Parents(foreign) == map[];
    forall h | h in orphans ensures h in Parents(foreign) { assert h !in orphans - Parents(foreign); }
  }

  lemma TwoNext(r: Rules, s: State, chain: seq<Block>, blocks: seq<Block>, now: int, f: Block)
    requires NextBlocks(r, s, chain, blocks, now) && |blocks| == 2 && f.index > s.height + 2
    ensures var s1 := At(r, s, blocks, now, 1);
            && AddBlock(r, s, blocks[0], now) == (s1, true) && AddBlock(r, s, blocks[1], now) == (s, false)
            && AddBlock(r, s, f, now) == (s, false) && AddBlock(r, s1, f, now) == (s1, false)
            && s1.height < InOrder(r, s, blocks, now).height
    ensures blocks[1].header.prev == HashOf(blocks[0]) && blocks[1].index > s.height + 1
  {
    NextBlocksAreBatch(r, s, chain, blocks, now);
    OnlyNextAccepted(r, s, chain, blocks, now, 0, 0);
    OnlyNextAccepted(r, s, chain, blocks, now, 0, 1);
    OnlyNextAccepted(r, s, chain, blocks, now, 1, 0);
    OnlyNextAccepted(r, s, chain, blocks, now, 2, 0);
    assert blocks[..2] == blocks && blocks[..0] == [];
    assert At(r, s, blocks, now, 0) == s;
    hide NextBlocks, InOrder;
  }

  /** The parent hash must not be shared: an unvalidated block of a far index with the same parent takes a waiting
      block's place, and the chain stops short. */
  lemma ReplacedOrphan(r: Rules, s: State, chain: seq<Block>, blocks: seq<Block>, now: int, n: NodeState, f: Block)
    requires NextBlocks(r, s, chain, blocks, now) && |blocks| == 2
    requires n.chain == s && n.orphans == map[]
    requires f.header.prev == blocks[1].header.prev && f.index > s.height + 2
    ensures var end := HandleAll(r, n, [blocks[1], f, blocks[0]], now);
            && end.chain == InOrder(r, s, blocks[..1], now) && end.orphans == map[]
            && end.chain.height < InOrder(r, s, blocks, now).height
  {
    TwoNext(r, s, chain, blocks, now, f);
    hide *;
    Arrivals3(r, n, blocks[1], f, blocks[0], now);
    Displaced(r, n, blocks[0], blocks[1], f, now, At(r, s, blocks, now, 1));
    assert At(r, s, blocks, now, 1) == InOrder(r, s, blocks[..1], now) by { AtIs(r, s, blocks, now, 1); }
  }

  lemma AtIs(r: Rules, s: State, blocks: seq<Block>, now: int, k: nat)
    requires k <= |blocks|
    ensures At(r, s, blocks, now, k) == InOrder(r, s, blocks[..k], now)
  {
  }

  lemma Displaced(r: Rules, n: NodeState, b: Block, child: Block, f: Block, now: int, s1: State)
    requires n.orphans == map[] && child.header.prev == f.header.prev == HashOf(b)
    requires child.index > n.chain.height + 1 && f.index > n.chain.height + 1
    requires AddBlock(r, n.chain, b, now) == (s1, true)
    requires AddBlock(r, n.chain, child, now) == (n.chain, false)
    requires AddBlock(r, n.chain, f, now) == (n.chain, false) && AddBlock(r, s1, f, now) == (s1, false)
    ensures var end := HandleBlock(r, HandleBlock(r, HandleBlock(r, n, child, now), f, now), b, now);
            end.chain == s1 && end.orphans == map[]
  {
    var h := HashOf(b);
    hide *;
    Overtaken(r, n, h, child, f, now);
    var waiting := n.(orphans := map[h := f]);
    HandleAccepted(r, waiting, b, now, s1);
    Popped(r, NodeState(s1, map[h := f], Unconfirmed(n.mempool, TxIds(b.txs))), h, now);
    assert map[h := f] - {h} == map[];
  }

  /** A far block arriving for the parent of a waiting one is what waits then. */
  lemma Overtaken(r: Rules, n: NodeState, h: Hash, child: Block, f: Block, now: int)
    requires n.orphans == map[] && child.header.prev == f.header.prev == h
    requires child.index > n.chain.height + 1 && f.index > n.chain.height + 1
    requires AddBlock(r, n.chain, child, now) == (n.chain, false) && AddBlock(r, n.chain, f, now) == (n.chain, false)
    ensures HandleBlock(r, HandleBlock(r, n, child, now), f, now) == n.(orphans := map[h := f])
  {
    var first := n.(orphans := map[h := child]);
    assert |map[h := child]| == 1 && map[h := child][h := f] == map[h := f];
    hide *;
    HandleRefused(r, n, child, now);
    assert HandleBlock(r, n, child, now) == first;
    HandleRefused(r, first, f, now);
  }

  lemma Popped(r: Rules, n: NodeState, tip: Hash, now: int)
    requires tip in n.orphans && AddBlock(r, n.chain, n.orphans[tip], now) == (n.chain, false)
    ensures ProcessOrphans(r, n, tip, now) == n.(orphans := n.orphans - {tip})
  {
    hide AddBlock;
  }

  lemma Arrivals3(r: Rules, n: NodeState, a: Block, b: Block, c: Block, now: int)
    ensures HandleAll(r, n, [a, b, c], now) == HandleBlock(r, HandleBlock(r, HandleBlock(r, n, a, now), b, now), c, now)
  {
    assert HandleAll(r, n, [], now) == n;
    hide HandleBlock, HandleAll;
    assert [] + [a] == [a] && [a] + [b] == [a, b] && [a, b] + [c] == [a, b, c];
    HandleAllSnoc(r, n, [], a, now);
    HandleAllSnoc(r, n, [a], b, now);
    HandleAllSnoc(r, n, [a, b], c, now);
  }

  // ----- 201 is the exact limit -----

  function Range(lo: nat, hi: nat): (js: set<nat>)
    ensures forall j :: j in js <==> lo <= j < hi
  {
    if lo >= hi then {} else Range(lo, hi - 1) + {hi - 1}
  }

  lemma {:induction false} RangeSize(lo: nat, hi: nat)
    requires lo <= hi
    ensures |Range(lo, hi)| == hi - lo
  {
    if lo < hi {
      RangeSize(lo, hi - 1);
      RangeSnoc(lo, hi);
      assert hi - 1 !in Range(lo, hi - 1);
      hide Range;
    }
  }

  /** Which of the blocks 1 to m-1, arriving in this order, find room in the pool. */
  function Fitting(m: nat): set<nat> { Range(1, if m <= MAX_ORPHANS + 1 then m else MAX_ORPHANS + 1) }

  lemma FromZero(kept: set<nat>)
    ensures From(kept, 0) == kept
  {
  }

  lemma RangeSnoc(lo: nat, hi: nat)
    requires lo < hi
    ensures Range(lo, hi) == Range(lo, hi - 1) + {hi - 1}
  {
  }

  lemma FillStep(m: nat)
    requires m >= 2
    ensures Fitting(m) == if |From(Fitting(m - 1), 0)| < MAX_ORPHANS then Fitting(m - 1) + {m - 1} else Fitting(m - 1)
  {
    FromZero(Fitting(m - 1));
    RangeSize(1, if m - 1 <= MAX_ORPHANS + 1 then m - 1 else MAX_ORPHANS + 1);
    RangeSnoc(1, m);
    hide Range, From;
  }

  lemma LateStep(r: Rules, s: State, blocks: seq<Block>, now: int, n: NodeState, m: nat)
    requires Batch(r, s, blocks, now) && 2 <= m <= |blocks| && Settled(r, s, blocks, now, n, Fitting(m - 1), 0)
    ensures Settled(r, s, blocks, now, HandleBlock(r, n, blocks[m - 1], now), Fitting(m), 0)
  {
    hide *;
    FillStep(m);
    FutureHandled(r, s, blocks, now, n, Fitting(m - 1), 0, m - 1);
  }

  lemma {:induction false} LateBlocksFill(r: Rules, s: State, blocks: seq<Block>, now: int, n: NodeState, m: nat)
    requires Batch(r, s, blocks, now) && 1 <= m <= |blocks|
    requires n.chain == s && n.orphans == map[]
    ensures Settled(r, s, blocks, now, HandleAll(r, n, blocks[1..m], now), Fitting(m), 0)
  {
    if m == 1 {
      NothingArrived(r, s, blocks, now, n);
      assert blocks[1..1] == [] && Fitting(1) == {};
    } else {
      assert blocks[1..m] == blocks[1..m - 1] + [blocks[m - 1]];
      hide *;
      LateBlocksFill(r, s, blocks, now, n, m - 1);
      HandleAllSnoc(r, n, blocks[1..m - 1], blocks[m - 1], now);
      LateStep(r, s, blocks, now, HandleAll(r, n, blocks[1..m - 1], now), m);
    }
  }

  /** After the late blocks 1, 2, ... and then block 0, exactly the 201 that fitted are on the chain. */
  lemma LimitReached(r: Rules, s: State, blocks: seq<Block>, now: int, n: NodeState, m: nat)
    requires Batch(r, s, blocks, now) && |blocks| == m > MAX_ORPHANS + 1
    requires Settled(r, s, blocks, now, n, Fitting(m), 0)
    ensures HandleBlock(r, n, blocks[0], now).chain == At(r, s, blocks, now, MAX_ORPHANS + 1)
    ensures HandleBlock(r, n, blocks[0], now).orphans == map[]
  {
    LimitKept(m);
    hide *;
    var kept, k := BlockHandled(r, s, blocks, now, n, Fitting(m), 0, 0);
    SettledParts(r, s, blocks, now, HandleBlock(r, n, blocks[0], now), kept, k);
    FirstMissing(kept, k);
  }

  lemma FirstMissing(kept: set<nat>, k: nat)
    requires forall j: nat :: j in kept <==> j < MAX_ORPHANS + 1
    requires k !in kept && forall i :: 0 <= i < k ==> i in kept
    ensures k == MAX_ORPHANS + 1
  {
    assert k <= MAX_ORPHANS + 1 || (MAX_ORPHANS + 1) in kept;
  }

  lemma LimitKept(m: nat)
    requires m > MAX_ORPHANS + 1
    ensures forall j: nat :: j in Fitting(m) + {0} <==> j < MAX_ORPHANS + 1
    ensures From(Fitting(m) + {0}, MAX_ORPHANS + 1) == {}
  {
  }

  lemma LimitHeights(r: Rules, s: State, chain: seq<Block>, blocks: seq<Block>, now: int)
    requires NextBlocks(r, s, chain, blocks, now) && |blocks| > MAX_ORPHANS + 1
    ensures At(r, s, blocks, now, MAX_ORPHANS + 1) == InOrder(r, s, blocks[..MAX_ORPHANS + 1], now)
    ensures At(r, s, blocks, now, MAX_ORPHANS + 1).height < InOrder(r, s, blocks, now).height
  {
    hide NextBlocks, InOrder, Responds;
    OnlyNextAccepted(r, s, chain, blocks, now, MAX_ORPHANS + 1, 0);
    OnlyNextAccepted(r, s, chain, blocks, now, |blocks|, 0);
    assert blocks[..|blocks|] == blocks;
  }

  lemma LateOutcome(r: Rules, s: State, blocks: seq<Block>, now: int, n: NodeState)
    requires Batch(r, s, blocks, now) && |blocks| > MAX_ORPHANS + 1 && n.chain == s && n.orphans == map[]
    ensures HandleAll(r, n, blocks[1..] + [blocks[0]], now).chain == At(r, s, blocks, now, MAX_ORPHANS + 1)
    ensures HandleAll(r, n, blocks[1..] + [blocks[0]], now).orphans == map[]
  {
    assert blocks[1..|blocks|] == blocks[1..];
    hide *;
    LateBlocksFill(r, s, blocks, now, n, |blocks|);
    HandleAllSnoc(r, n, blocks[1..], blocks[0], now);
    LimitReached(r, s, blocks, now, HandleAll(r, n, blocks[1..], now), |blocks|);
  }

  /** With 202 or more blocks order does matter: if the first comes last, the node stops after 201. */
  lemma DeliveryLimitTight(r: Rules, s: State, chain: seq<Block>, blocks: seq<Block>, now: int, n: NodeState)
    requires NextBlocks(r, s, chain, blocks, now) && |blocks| >= 202
    requires n.chain == s && n.orphans == map[]
    ensures var late := HandleAll(r, n, blocks[1..] + [blocks[0]], now);
            && late.chain == InOrder(r, s, blocks[..201], now) && late.orphans == map[]
            && late.chain.height < InOrder(r, s, blocks, now).height
  {
    assert MAX_ORPHANS + 1 == 201;
    hide *;
    NextBlocksAreBatch(r, s, chain, blocks, now);
    LimitHeights(r, s, chain, blocks, now);
    LateOutcome(r, s, blocks, now, n);
  }

  // ----- the node itself -----

  class Node {
    const chain: Chain
    var orphans: map<Hash, Block>
    var mempool: seq<Tx>

    constructor (chain: Chain)
      ensures this.chain == chain && orphans == map[] && mempool == []
    {
      this.chain, orphans, mempool := chain, map[], [];
    }

    ghost function Now(): NodeState
      reads this, chain, chain.utxo, chain.store
    {
      NodeState(chain.Now(), orphans, mempool)
    }

    /** `_process_orphans`. */
    method Attach(tip: Hash, now: int)
      modifies this, chain, chain.utxo, chain.store
      ensures Now() == ProcessOrphans(chain.rules, old(Now()), tip, now)
      ensures chain.utxo == old(chain.utxo) || fresh(chain.utxo)
      decreases |orphans|
    {
      hide AddBlock;
      if tip in orphans {
        var b := orphans[tip];
        assert orphans.Keys == (orphans - {tip}).Keys + {tip};
        orphans := orphans - {tip};
        var ok := chain.Add(b, now);
        if ok { Attach(HashOf(b), now); }
      }
    }

    /** `_handle_block`. */
    method Handle(b: Block, now: int)
      modifies this, chain, chain.utxo, chain.store
      ensures Now() == HandleBlock(chain.rules, old(Now()), b, now)
      ensures chain.utxo == old(chain.utxo) || fresh(chain.utxo)
    {
      hide AddBlock, ProcessOrphans;
      var ok := chain.Add(b, now);
      if ok {
        mempool := Unconfirmed(mempool, TxIds(b.txs));
        Attach(HashOf(b), now);
      } else if b.index > chain.height + 1 {
        if |orphans| < MAX_ORPHANS { orphans := orphans[b.header.prev := b]; }
      }
    }
  }
}
