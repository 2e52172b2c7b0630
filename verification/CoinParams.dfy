/** Supply constants and the halving schedule of coin_params.py. */
module CoinParams {
  import opened Arith

  const COIN: nat := 100_000_000
  const INITIAL_SUBSIDY: nat := 50 * COIN
  const HALVING_INTERVAL: nat := 500_000
  const MAX_SUPPLY: nat := 50_000_000 * COIN
  const COINBASE_MATURITY: nat := 100
  const MAX_TX_INPUTS: nat := 1000
  const MAX_TX_OUTPUTS: nat := 1000
  const MAX_FUTURE_SECONDS: nat := 7200
  const MTP_WINDOW: nat := 11

  function EraSubsidy(halvings: nat): nat
  {
    PowPositive(2, halvings);
    if halvings >= 64 then 0 else INITIAL_SUBSIDY / Pow(2, halvings)
  }

  /** `block_subsidy`. */
  function BlockSubsidy(height: nat): nat
  {
    EraSubsidy(height / HALVING_INTERVAL)
  }

  /** Everything the schedule allows to be minted below a height. */
  function SubsidyTo(height: nat): nat
  {
    if height == 0 then 0 else SubsidyTo(height - 1) + BlockSubsidy(height - 1)
  }

  /** The subsidy halves from era to era, rounding down; the cut-off at 64 halvings never bites. */
  lemma EraHalves(k: nat)
    ensures EraSubsidy(k + 1) == EraSubsidy(k) / 2
    ensures EraSubsidy(0) == INITIAL_SUBSIDY
  {
    FirstEra();
    if k < 63 { EarlyEra(k); } else if k == 63 { LastEra(); }
  }

  lemma FirstEra()
    ensures EraSubsidy(0) == INITIAL_SUBSIDY
  {
  }

  lemma EarlyEra(k: nat)
    requires k < 63
    ensures EraSubsidy(k + 1) == EraSubsidy(k) / 2
  {
    PowPositive(2, k);
    PowPositive(2, k + 1);
    assert Pow(2, k + 1) == 2 * Pow(2, k);
    hide Pow;
    DivDiv(INITIAL_SUBSIDY, Pow(2, k), 2);
  }

  lemma TwoTo63()
    ensures Pow(2, 63) == 0x8000_0000_0000_0000
  {
    assert Pow(2, 7) == 128;
    hide Pow;
    PowAdd(2, 7, 7);
    PowAdd(2, 14, 14);
    PowAdd(2, 28, 28);
    PowAdd(2, 56, 7);
  }

  lemma LastEra()
    ensures EraSubsidy(63) == 0 && EraSubsidy(64) == 0
  {
    hide Pow;
    TwoTo63();
    DivUnique(INITIAL_SUBSIDY, Pow(2, 63), 0);
  }

  lemma NextHeight(g: nat)
    ensures var k, r := g / HALVING_INTERVAL, g % HALVING_INTERVAL;
            if r == HALVING_INTERVAL - 1 then (g + 1) / HALVING_INTERVAL == k + 1 && (g + 1) % HALVING_INTERVAL == 0
            else (g + 1) / HALVING_INTERVAL == k && (g + 1) % HALVING_INTERVAL == r + 1
  {
  }

  // ----- the schedule in numbers -----

  /** The first half million blocks pay 50 coins each, and every half million later it is half, rounded down. */
  lemma SubsidyHalves(height: nat)
    ensures height < 500_000 ==> BlockSubsidy(height) == 5_000_000_000
    ensures BlockSubsidy(height + 500_000) == BlockSubsidy(height) / 2
  {
    assert (height + 500_000) / HALVING_INTERVAL == height / HALVING_INTERVAL + 1;
    hide EraSubsidy;
    EraHalves(height / HALVING_INTERVAL);
  }

  /** What k whole eras pay per block of an era. */
  function EraSum(k: nat): nat { if k == 0 then 0 else EraSum(k - 1) + EraSubsidy(k - 1) }

  lemma FourEras(k: nat, pays: nat, sum: nat)
    requires EraSubsidy(k) == pays && EraSum(k) == sum
    ensures EraSubsidy(k + 4) == pays / 16
    ensures EraSum(k + 4) == sum + pays + pays / 2 + pays / 4 + pays / 8
  {
    hide EraSubsidy;
    EraHalves(k);
    EraHalves(k + 1);
    EraHalves(k + 2);
    EraHalves(k + 3);
    assert EraSum(k + 1) == sum + EraSubsidy(k) && EraSum(k + 2) == EraSum(k + 1) + EraSubsidy(k + 1);
    assert EraSum(k + 3) == EraSum(k + 2) + EraSubsidy(k + 2) && EraSum(k + 4) == EraSum(k + 3) + EraSubsidy(k + 3);
  }

  lemma LastCoins()
    ensures EraSubsidy(32) == 1 && EraSum(32) == 9_999_999_988
    ensures EraSubsidy(33) == 0 && EraSum(33) == 9_999_999_989
  {
    FirstEra();
    NoEra();
    assert INITIAL_SUBSIDY == 5_000_000_000;
    hide *;
    FourEras(0, 5_000_000_000, 0);
    FourEras(4, 312_500_000, 9_375_000_000);
    FourEras(8, 19_531_250, 9_960_937_500);
    FourEras(12, 1_220_703, 9_997_558_593);
    FourEras(16, 76_293, 9_999_847_409);
    FourEras(20, 4768, 9_999_990_457);
    FourEras(24, 298, 9_999_999_397);
    FourEras(28, 18, 9_999_999_955);
    EraHalves(32);
    OneMoreEra(32);
  }

  lemma NoEra()
    ensures EraSum(0) == 0
  {
  }

  lemma OneMoreEra(k: nat)
    ensures EraSum(k + 1) == EraSum(k) + EraSubsidy(k)
  {
  }

  lemma {:induction false} EraPays(k: nat)
    ensures k <= 32 <==> EraSubsidy(k) > 0
    decreases if k <= 32 then 32 - k else k
  {
    hide EraSubsidy;
    LastCoins();
    if k < 32 {
      EraPays(k + 1);
      EraHalves(k);
    } else if k > 33 {
      EraPays(k - 1);
      EraHalves(k - 1);
    }
  }

  /** Blocks are paid for exactly below height 33 * 500_000. */
  lemma SubsidyEnds(height: nat)
    ensures BlockSubsidy(height) > 0 <==> height < 16_500_000
  {
    hide EraSubsidy;
    EraPays(height / HALVING_INTERVAL);
  }

  lemma SumStep(k: nat, p: nat, before: nat, after: nat)
    requires before == 500_000 * EraSum(k) + p * EraSubsidy(k) && after == before + EraSubsidy(k)
    ensures after == 500_000 * EraSum(k) + (p + 1) * EraSubsidy(k)
    ensures p + 1 == 500_000 ==> after == 500_000 * EraSum(k + 1)
  {
    var e := EraSubsidy(k);
    assert (p + 1) * e == p * e + e;
    assert EraSum(k + 1) == EraSum(k) + e;
  }

  /** Everything minted below a height, exactly: whole eras, and the part of the current one. */
  lemma {:induction false} SubsidyToIs(height: nat)
    ensures SubsidyTo(height) ==
            500_000 * EraSum(height / 500_000) + (height % 500_000) * EraSubsidy(height / 500_000)
  {
    hide EraSubsidy;
    if height > 0 {
      var g := height - 1;
      SubsidyToIs(g);
      NextHeight(g);
      hide EraSum;
      SumStep(g / 500_000, g % 500_000, SubsidyTo(g), SubsidyTo(height));
    }
  }

  lemma {:induction false} SubsidyToGrows(low: nat, high: nat)
    requires low <= high
    ensures SubsidyTo(low) <= SubsidyTo(high)
    decreases high
  {
    if low < high { SubsidyToGrows(low, high - 1); }
  }

  lemma AllEras(end: nat)
    requires end == 16_500_000
    ensures SubsidyTo(end) == 4_999_999_994_500_000
  {
    hide *;
    SubsidyToIs(end);
    LastCoins();
  }

  lemma {:induction false} NoneAfter(end: nat, height: nat)
    requires end == 16_500_000 <= height
    ensures SubsidyTo(height) == SubsidyTo(end)
    decreases height
  {
    hide BlockSubsidy;
    if end < height {
      NoneAfter(end, height - 1);
      SubsidyEnds(height - 1);
    }
  }

  /** The whole schedule mints 4_999_999_994_500_000 units, and has done so exactly from where subsidies end. */
  lemma FinalSupply(height: nat)
    ensures SubsidyTo(height) <= 4_999_999_994_500_000
    ensures SubsidyTo(height) == 4_999_999_994_500_000 <==> height >= 16_500_000
  {
    var end: nat :| end == 16_500_000;
    AllEras(end);
    if height >= end {
      NoneAfter(end, height);
    } else {
      SubsidyToGrows(height, end - 1);
      SubsidyEnds(end - 1);
    }
  }

  /** The whole schedule stays strictly below the advertised maximum, at every height. */
  lemma SupplyBelowMax(height: nat)
    ensures SubsidyTo(height) < MAX_SUPPLY == 5_000_000_000_000_000
  {
    FinalSupply(height);
  }
}
