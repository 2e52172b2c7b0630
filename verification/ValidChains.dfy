/** Chains in which every block passed validation on its own prefix, and that runs produce no others. */
module ValidChains {
  import opened Merkle
  import opened Model
  import opened ChainSpec
  import opened ChainModel

  predicate GenesisShape(b: Block)
  {
    |b.txs| == 1 && b == GenesisBlock(b.txs[0], b.header.timestamp)
  }

  predicate ValidAt(r: Rules, chain: seq<Block>, i: nat)
    requires i < |chain|
  {
    && chain[i].index == i
    && chain[i].header.bits == ExpectedBits(r, View(chain[..i]), i)
    && ValidOn(r, View(chain[..i]), Replay(chain[..i]), chain[i])
  }

  predicate ValidChain(r: Rules, chain: seq<Block>)
  {
    && (chain != [] ==> GenesisShape(chain[0]))
    && forall i :: 1 <= i < |chain| ==> ValidAt(r, chain, i)
  }

  lemma ValidParts(r: Rules, chain: seq<Block>, i: nat)
    requires ValidChain(r, chain) && 1 <= i < |chain|
    ensures chain[i].index == i
    ensures chain[i].header.bits == ExpectedBits(r, View(chain[..i]), i)
    ensures ParentOk(View(chain[..i]), chain[i]) && TimeOk(View(chain[..i]), chain[i])
    ensures Root(TxIds(chain[i].txs)) == chain[i].header.root
    ensures ShapeOk(chain[i].txs)
    ensures RewardOk(Replay(chain[..i]), chain[i]) && SpendsOk(r, Replay(chain[..i]), chain[i])
  {
    hide ParentOk, TimeOk, RewardOk, SpendsOk, ExpectedBits;
    assert ValidAt(r, chain, i);
  }

  lemma ValidPrefix(r: Rules, chain: seq<Block>, n: nat)
    requires ValidChain(r, chain) && n <= |chain|
    ensures ValidChain(r, chain[..n])
  {
    forall i | 1 <= i < n ensures ValidAt(r, chain[..n], i) {
      assert ValidAt(r, chain, i);
      assert chain[..n][..i] == chain[..i];
    }
  }

  lemma ValidExtension(r: Rules, chain: seq<Block>, b: Block, now: int)
    requires ValidChain(r, chain) && ValidAfter(r, chain, b, now)
    ensures ValidChain(r, chain[..b.index] + [b])
  {
    var cut := chain[..b.index];
    var next := cut + [b];
    ValidPrefix(r, chain, b.index);
    forall i | 1 <= i < |next| ensures ValidAt(r, next, i) {
      if i < b.index { assert ValidAt(r, cut, i); }
      assert next[..i] == cut[..i];
      assert cut[..b.index] == cut;
    }
  }

  /** Whatever happens to a node, its chain stays valid block by block. */
  lemma ListStepValid(r: Rules, chain: seq<Block>, e: Event)
    requires ValidChain(r, chain)
    ensures ValidChain(r, ListStep(r, chain, e))
  {
    match e
    case Genesis(cb, ts) =>
    case Arrive(b, now) => if Accepts(r, chain, b, now) { ValidExtension(r, chain, b, now); }
    case Rollback(t) => if -1 <= t < |chain| { ValidPrefix(r, chain, t + 1); }
    case Restart =>
  }

  lemma {:induction false} RunValid(r: Rules, events: seq<Event>)
    ensures ValidChain(r, ListRun(r, [], events))
  {
    if events != [] {
      RunValid(r, events[..|events| - 1]);
      ListStepValid(r, ListRun(r, [], events[..|events| - 1]), events[|events| - 1]);
    }
  }
}
