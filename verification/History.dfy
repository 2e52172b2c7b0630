/** Laws of every valid chain: coinbase maturity, median-time-past, required bits and work. */
module History {
  import opened Arith
  import opened Compact
  import opened Merkle
  import opened Median
  import opened Model
  import opened CoinParams
  import opened Utxos
  import opened Store
  import opened ChainSpec
  import opened ChainModel
  import opened ValidChains

  // ----- coinbase maturity -----

  predicate Mints(txs: seq<Tx>, txid: TxId)
  {
    exists a :: 0 <= a < |txs| && txs[a].coinbase && txs[a].txid == txid
  }

  lemma MintsSnoc(txs: seq<Tx>, txid: TxId)
    requires txs != []
    ensures var n := |txs| - 1;
            Mints(txs, txid) <==> Mints(txs[..n], txid) || (txs[n].coinbase && txs[n].txid == txid)
  {
    var n := |txs| - 1;
    if Mints(txs, txid) {
      var a :| 0 <= a < |txs| && txs[a].coinbase && txs[a].txid == txid;
      if a < n { assert txs[..n][a] == txs[a]; }
    }
    if Mints(txs[..n], txid) {
      var a :| 0 <= a < n && txs[..n][a].coinbase && txs[..n][a].txid == txid;
      assert txs[a].coinbase;
    }
  }

  lemma {:induction false} CoinbaseAfterTxs(u: Utxo, txs: seq<Tx>, height: int, txid: TxId)
    ensures var after := ApplyTxs(u, txs, height).coinbaseAt;
            if Mints(txs, txid) then txid in after && after[txid] == height
            else (txid in after <==> txid in u.coinbaseAt) && (txid in after ==> after[txid] == u.coinbaseAt[txid])
  {
    if txs != [] {
      CoinbaseAfterTxs(u, txs[..|txs| - 1], height, txid);
      MintsSnoc(txs, txid);
    }
  }

  /** The recorded coinbase height is that of the latest block minting the txid, repeats included. */
  lemma {:induction false} CoinbaseHeightIsLatest(chain: seq<Block>, txid: TxId)
    ensures var at := Replay(chain).coinbaseAt;
            && (txid in at <==> exists k :: 0 <= k < |chain| && Mints(chain[k].txs, txid))
            && (txid in at ==> 0 <= at[txid] < |chain| && Mints(chain[at[txid]].txs, txid))
            && (txid in at ==> forall k :: 0 <= k < |chain| && Mints(chain[k].txs, txid) ==> k <= at[txid])
  {
    if chain != [] {
      var n := |chain| - 1;
      var cut := chain[..n];
      CoinbaseHeightIsLatest(cut, txid);
      CoinbaseAfterTxs(Replay(cut), chain[n].txs, n, txid);
      forall k | 0 <= k < n ensures cut[k] == chain[k] {}
      if !Mints(chain[n].txs, txid) && txid in Replay(cut).coinbaseAt {
        var k := Replay(cut).coinbaseAt[txid];
        assert Mints(chain[k].txs, txid);
      }
    }
  }

  /** No block on a valid chain spends an output whose txid was minted fewer than 100 blocks before. */
  lemma CoinbaseMaturity(r: Rules, chain: seq<Block>, h: nat, a: nat, j: nat, k: nat)
    requires ValidChain(r, chain)
    requires 1 <= h < |chain| && a < |chain[h].txs| && !chain[h].txs[a].coinbase && j < |chain[h].txs[a].inputs|
    requires k < h && Mints(chain[k].txs, chain[h].txs[a].inputs[j].txid)
    ensures k + 100 <= h
  {
    var b, tx := chain[h], chain[h].txs[a];
    var u := Replay(chain[..h]);
    assert ValidAt(r, chain, h);
    SnapshotCoinbases(u, b.txs[..a]);
    assert SpendOk(r, u, b, a);
    assert InputOk(r.crypto, Snapshot(u, b.txs[..a]), Body(r.chainId, tx.inputs, tx.outputs), tx.inputs[j], h,
                   COINBASE_MATURITY);
    CoinbaseHeightIsLatest(chain[..h], tx.inputs[j].txid);
    assert chain[..h][k] == chain[k];
  }

  // ----- median-time-past -----

  function Times(chain: seq<Block>, lo: nat, hi: nat): seq<int>
    requires lo <= hi <= |chain|
  {
    seq(hi - lo, i requires 0 <= i < hi - lo => chain[lo + i].header.timestamp as int)
  }

  lemma {:induction false} WindowIs(chain: seq<Block>, lo: nat, hi: nat)
    requires lo <= hi <= |chain|
    ensures WindowTimes(View(chain), lo, hi) == Times(chain, lo, hi)
    decreases hi
  {
    if lo < hi {
      WindowIs(chain, lo, hi - 1);
      assert Times(chain, lo, hi) == Times(chain, lo, hi - 1) + [chain[hi - 1].header.timestamp];
    }
  }

  /** The last eleven blocks below a height, or as many as there are. */
  function WindowStart(height: nat): nat { if height < 11 then 0 else height - 11 }

  /** The median time past that the block at a height must respect. */
  function Mtp(chain: seq<Block>, height: nat): int { MedianTimePast(View(chain), height) }

  lemma MtpIs(chain: seq<Block>, height: nat)
    requires height <= |chain|
    ensures Mtp(chain, height) ==
            if height == 0 then 0 else Median.Median(Times(chain, WindowStart(height), height))
  {
    WindowIs(chain, WindowStart(height), height);
  }

  lemma {:induction false} MedianNonNegative(s: seq<int>)
    requires s != [] && forall i :: 0 <= i < |s| ==> s[i] >= 0
    ensures Median.Median(s) >= 0
  {
    assert Sort(s)[|s| / 2] in multiset(Sort(s));
  }

  lemma TimesNonNegative(chain: seq<Block>, lo: nat, hi: nat)
    requires lo < hi <= |chain|
    ensures Times(chain, lo, hi) != []
    ensures forall i :: 0 <= i < |Times(chain, lo, hi)| ==> Times(chain, lo, hi)[i] >= 0
  {
    forall i | 0 <= i < hi - lo ensures Times(chain, lo, hi)[i] >= 0 {
      var header := chain[lo + i].header;
      assert header.timestamp >= 0;
    }
  }

  lemma MtpNonNegative(chain: seq<Block>, i: nat)
    requires i <= |chain|
    ensures Mtp(chain, i) >= 0
  {
    MtpIs(chain, i);
    if i > 0 {
      TimesNonNegative(chain, WindowStart(i), i);
      MedianNonNegative(Times(chain, WindowStart(i), i));
    }
  }

  lemma TimeRespected(r: Rules, chain: seq<Block>, i: nat)
    requires ValidChain(r, chain) && 1 <= i < |chain|
    ensures chain[i].header.timestamp >= Mtp(chain, i)
  {
    hide *;
    ValidParts(r, chain, i);
    ViewsAgree(chain, i);
    ContextIsLocal(View(chain), View(chain[..i]), chain[i]);
    MtpNonNegative(chain, i);
    TimeOkMeans(chain, i);
  }

  lemma ViewsAgree(chain: seq<Block>, i: nat)
    requires i <= |chain|
    ensures Agree(View(chain), View(chain[..i]), i)
  {
  }

  lemma TimeOkMeans(chain: seq<Block>, i: nat)
    requires 1 <= i < |chain| && chain[i].index == i && TimeOk(View(chain), chain[i]) && Mtp(chain, i) >= 0
    ensures chain[i].header.timestamp >= Mtp(chain, i)
  {
    hide MedianTimePast;
    assert chain[i].header.timestamp >= 0;
  }

  /** The time rule on the next place of a chain: exactly the timestamps from the median of the last eleven on. */
  lemma TimeOkIff(chain: seq<Block>, b: Block)
    requires b.index == |chain| && chain != []
    ensures TimeOk(View(chain), b) <==>
            b.header.timestamp >= Median.Median(Times(chain, WindowStart(|chain|), |chain|))
  {
    MtpIs(chain, |chain|);
    MtpNonNegative(chain, |chain|);
    assert b.header.timestamp >= 0;
    hide MedianTimePast, Median.Median, Times;
  }

  lemma TimesGrow(chain: seq<Block>, i: nat)
    requires 1 <= i < |chain|
    ensures var w := Times(chain, WindowStart(i), i);
            && w != []
            && Times(chain, WindowStart(i + 1), i + 1) ==
               if i < MTP_WINDOW then w + [chain[i].header.timestamp as int]
               else w[1..] + [chain[i].header.timestamp as int]
  {
  }

  lemma MedianStep(w: seq<int>, t: int)
    requires w != [] && t >= Median.Median(w)
    ensures Median.Median(w + [t]) >= Median.Median(w)
    ensures Median.Median(w[1..] + [t]) >= Median.Median(w)
  {
    GrowingWindow(w, t);
    SlidingWindow(w, t);
  }

  lemma WindowStep(chain: seq<Block>, i: nat)
    requires 1 <= i < |chain| && chain[i].header.timestamp >= Mtp(chain, i)
    ensures Mtp(chain, i) <= Mtp(chain, i + 1)
  {
    MtpIs(chain, i);
    MtpIs(chain, i + 1);
    TimesGrow(chain, i);
    var w: seq<int> := Times(chain, WindowStart(i), i);
    var t: int := chain[i].header.timestamp;
    assert Mtp(chain, i + 1) == Median.Median(if i < MTP_WINDOW then w + [t] else w[1..] + [t]);
    hide *;
    MedianStep(w, t);
  }

  lemma MtpStep(r: Rules, chain: seq<Block>, i: nat)
    requires ValidChain(r, chain) && i < |chain|
    ensures Mtp(chain, i) <= Mtp(chain, i + 1)
  {
    if i == 0 {
      MtpIs(chain, 0);
      MtpNonNegative(chain, 1);
    } else {
      TimeRespected(r, chain, i);
      WindowStep(chain, i);
    }
  }

  /** Median-time-past never decreases along a valid chain. */
  lemma {:induction false} MtpMonotone(r: Rules, chain: seq<Block>, i: nat, j: nat)
    requires ValidChain(r, chain) && i <= j <= |chain|
    ensures Mtp(chain, i) <= Mtp(chain, j)
    decreases j
  {
    hide ValidChain, Mtp;
    if i < j {
      MtpMonotone(r, chain, i, j - 1);
      MtpStep(r, chain, j - 1);
    }
  }

  // ----- bits and work -----

  lemma ExpectedBitsOn(r: Rules, chain: seq<Block>, i: nat)
    requires 1 <= i <= |chain|
    ensures ExpectedBits(r, View(chain[..i]), i) ==
            if r.noRetarget || i % RETARGET_INTERVAL != 0 then chain[i - 1].header.bits
            else CalculateNextBits(chain[i - 1].header.bits, chain[i - RETARGET_INTERVAL].header.timestamp,
                                   chain[i - 1].header.timestamp)
  {
    hide CalculateNextBits, DifficultyToBits;
    var v := View(chain[..i]);
    assert BlockAt(v, i - 1) == Some(chain[i - 1]);
    if i % RETARGET_INTERVAL == 0 {
      assert BlockAt(v, i - RETARGET_INTERVAL) == Some(chain[i - RETARGET_INTERVAL]);
    }
  }

  /** Where there is no chain to take them from, the required bits are the easiest. */
  lemma BitsWithoutParent(r: Rules, blocks: Blocks, height: int)
    requires height == 0 || BlockAt(blocks, height - 1) == None
    ensures ExpectedBits(r, blocks, height) == 0x200F_FFFF
  {
    EasiestBits();
    hide DifficultyToBits;
  }

  lemma BitsRequired(r: Rules, chain: seq<Block>, i: nat)
    requires ValidChain(r, chain) && 1 <= i < |chain|
    ensures chain[i].header.bits ==
            if r.noRetarget || i % 2016 != 0 then chain[i - 1].header.bits
            else CalculateNextBits(chain[i - 1].header.bits, chain[i - 2016].header.timestamp,
                                   chain[i - 1].header.timestamp)
  {
    hide ExpectedBits, ValidChain, CalculateNextBits, ParentOk, TimeOk, RewardOk, SpendsOk, ShapeOk;
    ValidParts(r, chain, i);
    ExpectedBitsOn(r, chain, i);
  }

  /** At each multiple of 2016, a period that took e seconds sets the target to n, encoded, where n is the old target
      times e over 241_920, rounded down and capped at 256 bits, and e counts as 60_480 to 967_680 seconds. */
  lemma RetargetOnChain(r: Rules, chain: seq<Block>, i: nat, e: int, n: nat)
    requires ValidChain(r, chain) && 1 <= i < |chain| && i % 2016 == 0 && !r.noRetarget
    requires var took := chain[i - 1].header.timestamp - chain[i - 2016].header.timestamp;
             e == if took < 60_480 then 60_480 else if took > 967_680 then 967_680 else took
    requires n * 241_920 <= BitsToTarget(chain[i - 1].header.bits) * e < (n + 1) * 241_920
    ensures BitsToTarget(chain[i].header.bits) == Rounded(Min(n, MAX_TARGET))
  {
    hide ValidChain, BitsToTarget, CalculateNextBits, Rounded;
    BitsRequired(r, chain, i);
    var bits, first, last := chain[i - 1].header.bits, chain[i - 2016].header.timestamp, chain[i - 1].header.timestamp;
    RetargetClamped(bits, first, last);
    RetargetProportional(bits, first, first + e, n);
  }

  /** From block to block the target at most quadruples and, up to encoding precision, falls at most to a quarter. */
  lemma TargetDrift(r: Rules, chain: seq<Block>, i: nat)
    requires ValidChain(r, chain) && 1 <= i < |chain|
    ensures var before, after := BitsToTarget(chain[i - 1].header.bits), BitsToTarget(chain[i].header.bits);
            && after <= 4 * before
            && (before / 4 >= SMALL ==> after * 0x8000 > (before / 4) * 0x7FFF)
  {
    hide ValidChain, BitsToTarget, CalculateNextBits;
    BitsRequired(r, chain, i);
    TargetFits(r, chain, i - 1);
    if !(r.noRetarget || i % RETARGET_INTERVAL != 0) {
      RetargetBounds(chain[i - 1].header.bits, chain[i - RETARGET_INTERVAL].header.timestamp,
                     chain[i - 1].header.timestamp);
    }
  }

  lemma GenesisTarget()
    ensures BitsToTarget(DifficultyToBits(0)) <= MAX_TARGET
  {
    TwoTo256();
    PowAdd(256, 3, 29);
    assert BitsToTarget(0x200F_FFFF) == 0xF_FFFF * Pow(256, 29);
  }

  /** Targets on a valid chain fit 256 bits. */
  lemma TargetFitsStep(r: Rules, chain: seq<Block>, i: nat)
    requires ValidChain(r, chain) && 1 <= i < |chain|
    requires BitsToTarget(chain[i - 1].header.bits) <= MAX_TARGET
    ensures BitsToTarget(chain[i].header.bits) <= MAX_TARGET
  {
    hide ValidChain, BitsToTarget, CalculateNextBits;
    BitsRequired(r, chain, i);
    if !(r.noRetarget || i % RETARGET_INTERVAL != 0) {
      NextBitsFit(chain[i - 1].header.bits, chain[i - RETARGET_INTERVAL].header.timestamp,
                  chain[i - 1].header.timestamp);
    }
  }

  lemma {:induction false} TargetFits(r: Rules, chain: seq<Block>, i: nat)
    requires ValidChain(r, chain) && i < |chain|
    ensures BitsToTarget(chain[i].header.bits) <= MAX_TARGET
  {
    hide BitsToTarget;
    if i == 0 {
      GenesisTarget();
      assert GenesisShape(chain[0]);
    } else {
      TargetFits(r, chain, i - 1);
      TargetFitsStep(r, chain, i);
    }
  }

  /** Every block of a valid chain is at least one unit of work. */
  lemma WorkPositive(r: Rules, chain: seq<Block>, i: nat)
    requires ValidChain(r, chain) && i < |chain|
    ensures BlockWork(chain[i]) >= 1
  {
    TargetFits(r, chain, i);
    DivAtLeast(TWO_256, BitsToTarget(chain[i].header.bits) + 1, 1);
  }

  /** Total work strictly increases with every block. */
  lemma {:induction false} WorkIncreases(r: Rules, chain: seq<Block>, i: nat, j: nat)
    requires ValidChain(r, chain) && i < j <= |chain|
    ensures TotalWork(chain[..i]) < TotalWork(chain[..j])
    decreases j
  {
    WorkPositive(r, chain, j - 1);
    assert chain[..j][..j - 1] == chain[..j - 1];
    if i < j - 1 { WorkIncreases(r, chain, i, j - 1); }
  }

  /** Every block after genesis is hash-linked to its predecessor, proves its work against a 256-bit target,
      commits to its transactions and keeps the size limit. */
  lemma BlockCommitments(r: Rules, chain: seq<Block>, i: nat)
    requires ValidChain(r, chain) && 1 <= i < |chain|
    ensures chain[i].header.prev == HashOf(chain[i - 1])
    ensures r.crypto.sha(HeaderBytes(r.crypto, chain[i].header)) <= BitsToTarget(chain[i].header.bits) <= MAX_TARGET
    ensures chain[i].header.root == Root(TxIds(chain[i].txs)) && r.fits(chain[i])
  {
    ValidParts(r, chain, i);
    TargetFits(r, chain, i);
    assert ValidAt(r, chain, i);
    hide TimeOk, ShapeOk, SpendsOk, RewardOk, ExpectedBits, HeaderBytes, BitsToTarget, Root, ValidChain;
    assert BlockAt(View(chain[..i]), i - 1) == Some(chain[i - 1]);
  }

  /** After any run, each block record above genesis is linked to the record below it, meets a target of at most 256
      bits, commits to its transactions, is found under its hash, and adds to the recorded work. */
  lemma RunCommitments(r: Rules, events: seq<Event>, i: nat)
    requires 1 <= i <= Run(r, Load(EMPTY_DISK), events).height
    ensures var d := Run(r, Load(EMPTY_DISK), events).disk;
            && i - 1 in d.blocks && i in d.blocks && i - 1 in d.work && i in d.work
            && var b := d.blocks[i];
               && b.index == i && b.header.prev == HashOf(d.blocks[i - 1])
               && r.crypto.sha(HeaderBytes(r.crypto, b.header)) <= BitsToTarget(b.header.bits) <= MAX_TARGET
               && b.header.root == Root(TxIds(b.txs)) && r.fits(b)
               && HashOf(b) in d.hashes && d.hashes[HashOf(b)] == i
               && d.work[i - 1] < d.work[i]
  {
    var s, chain := Run(r, Load(EMPTY_DISK), events), ListRun(r, [], events);
    RunRefines(r, events);
    RunValid(r, events);
    assert StoredAt(s.disk, chain, i - 1) && StoredAt(s.disk, chain, i) && LinkedAt(chain, i);
    hide *;
    BlockCommitments(r, chain, i);
    WorkIncreases(r, chain, i, i + 1);
    StoredParts(s.disk, chain, i - 1);
    StoredParts(s.disk, chain, i);
    LinkedParts(chain, i);
  }

  /** What the record at a height has over the record below it. */
  predicate AddsWork(d: Disk, i: nat, w: int)
  {
    && i in d.work && (i > 0 ==> i - 1 in d.work)
    && d.work[i] == w + if i == 0 then 0 else d.work[i - 1]
  }

  lemma RecordedWork(s: State, chain: seq<Block>, i: nat)
    requires Reflects(s, chain) && i < |chain|
    ensures i in s.disk.blocks && s.disk.blocks[i] == chain[i] && AddsWork(s.disk, i, BlockWork(chain[i]))
    ensures i == s.height ==> s.work == s.disk.work[i]
  {
    assert StoredAt(s.disk, chain, i) && (i > 0 ==> StoredAt(s.disk, chain, i - 1));
    WorkAdded(chain, i);
    hide BlockWork, TotalWork, Linked;
    if i == s.height { assert chain[..i + 1] == chain; }
  }

  /** The work recorded at each height of any run exceeds that below it by the number of times the block's target and
      the hashes below it fit into 256 bits. */
  lemma RunWork(r: Rules, events: seq<Event>, i: nat) returns (w: nat)
    requires i <= Run(r, Load(EMPTY_DISK), events).height
    ensures var s := Run(r, Load(EMPTY_DISK), events);
            && AddsWork(s.disk, i, w) && (i == s.height ==> s.work == s.disk.work[i])
            && i in s.disk.blocks && Attempts(w, BitsToTarget(s.disk.blocks[i].header.bits))
  {
    var s, chain := Run(r, Load(EMPTY_DISK), events), ListRun(r, [], events);
    RunRefines(r, events);
    assert s.height == |chain| - 1;
    hide *;
    RecordedWork(s, chain, i);
    WorkBracket(chain[i]);
    w := BlockWork(chain[i]);
  }

  lemma WorkAdded(chain: seq<Block>, i: nat)
    requires i < |chain|
    ensures TotalWork(chain[..i + 1]) == TotalWork(chain[..i]) + BlockWork(chain[i])
    ensures i == 0 ==> TotalWork(chain[..i]) == 0
  {
    assert chain[..i + 1][..i] == chain[..i];
  }

  lemma StoredParts(d: Disk, chain: seq<Block>, i: nat)
    requires i < |chain| && StoredAt(d, chain, i)
    ensures i in d.blocks && d.blocks[i] == chain[i]
    ensures i in d.work && d.work[i] == TotalWork(chain[..i + 1])
    ensures HashOf(chain[i]) in d.hashes && d.hashes[HashOf(chain[i])] == i
  {
  }

  lemma LinkedParts(chain: seq<Block>, i: nat)
    requires i < |chain| && LinkedAt(chain, i)
    ensures chain[i].index == i
  {
  }

  /** Within a retarget period all blocks carry the same bits. */
  lemma {:induction false} BitsConstant(r: Rules, chain: seq<Block>, i: nat, j: nat)
    requires ValidChain(r, chain) && i <= j < |chain|
    requires r.noRetarget || i / 2016 == j / 2016
    ensures chain[i].header.bits == chain[j].header.bits
    decreases j
  {
    if i < j {
      BitsRequired(r, chain, j);
      BitsConstant(r, chain, i, j - 1);
    }
  }
}
