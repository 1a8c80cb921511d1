/** The block reward schedule and the total it emits. */
module Emission {

  const COIN: int := 100_000_000

  /** Reward of the block at a height, in satoshis; 15220.70 coins are 1522070000000. */
  function BlockValue(height: nat): int {
    if height == 1 then 6000000 * COIN
    else if height < 711111 then 1522070000000
    else if height < 716666 then 8000 * COIN
    else if height < 722222 then 4000 * COIN
    else if height < 727777 then 2000 * COIN
    else if height < 733333 then 1000 * COIN
    else if height < 738888 then 500 * COIN
    else if height < 744444 then 250 * COIN
    else if height < 750000 then 125 * COIN
    else if height < 755555 then 60 * COIN
    else if height < 761111 then 30 * COIN
    else if height < 766666 then 15 * COIN
    else if height < 772222 then 8 * COIN
    else if height < 777777 then 4 * COIN
    else if height < 910000 then 2 * COIN
    else if height < 6569605 then 100 * COIN
    else 0
  }

  /** Total reward of the blocks 1..h. */
  function Emitted(h: nat): int {
    if h == 0 then 0 else Emitted(h - 1) + BlockValue(h)
  }

  /** How many of the heights from..to-1 lie at or below h. */
  function Between(h: nat, from: nat, to: nat): int {
    if h < from then 0 else if h < to then h - from + 1 else to - from
  }

  /** The same total, phase by phase: how many blocks of each phase lie at or below h. */
  function ClosedForm(h: nat): int {
    (if h >= 1 then 6000000 * COIN else 0)
    + Between(h, 2, 711111) * 1522070000000
    + COIN * (
        Between(h, 711111, 716666) * 8000
      + Between(h, 716666, 722222) * 4000
      + Between(h, 722222, 727777) * 2000
      + Between(h, 727777, 733333) * 1000
      + Between(h, 733333, 738888) * 500
      + Between(h, 738888, 744444) * 250
      + Between(h, 744444, 750000) * 125
      + Between(h, 750000, 755555) * 60
      + Between(h, 755555, 761111) * 30
      + Between(h, 761111, 766666) * 15
      + Between(h, 766666, 772222) * 8
      + Between(h, 772222, 777777) * 4
      + Between(h, 777777, 910000) * 2
      + Between(h, 910000, 6569605) * 100)
  }

  /** One more block adds one to exactly the phase it belongs to. */
  lemma BetweenStep(h: nat, from: nat, to: nat)
    requires h > 0 && 0 < from < to
    ensures Between(h, from, to) == Between(h - 1, from, to) + if from <= h < to then 1 else 0
  {
  }

  lemma ClosedFormStep(h: nat)
    requires h > 0
    ensures ClosedForm(h) == ClosedForm(h - 1) + BlockValue(h)
  {
    hide Between;
    BetweenStep(h, 2, 711111);
    BetweenStep(h, 711111, 716666);
    BetweenStep(h, 716666, 722222);
    BetweenStep(h, 722222, 727777);
    BetweenStep(h, 727777, 733333);
    BetweenStep(h, 733333, 738888);
    BetweenStep(h, 738888, 744444);
    BetweenStep(h, 744444, 750000);
    BetweenStep(h, 750000, 755555);
    BetweenStep(h, 755555, 761111);
    BetweenStep(h, 761111, 766666);
    BetweenStep(h, 766666, 772222);
    BetweenStep(h, 772222, 777777);
    BetweenStep(h, 777777, 910000);
    BetweenStep(h, 910000, 6569605);
  }

  lemma {:induction false} EmittedClosedForm(h: nat)
    ensures Emitted(h) == ClosedForm(h)
  {
    if h > 0 {
      EmittedClosedForm(h - 1);
      ClosedFormStep(h);
    }
  }

  /** Emission stops for good at the last rewarded height, with a total far below the int64 limit. */
  lemma EmissionBounded(h: nat)
    ensures 0 <= Emitted(h) <= 1_148_464_267_530_000_000 < 0x7fff_ffff_ffff_ffff
    ensures h >= 6569604 ==> Emitted(h) == 1_148_464_267_530_000_000
  {
    hide Emitted;
    EmittedClosedForm(h);
  }

  lemma {:induction false} EmittedGrows(h: nat, k: nat)
    requires h <= k
    ensures Emitted(h) <= Emitted(k)
    ensures Emitted(h) == Emitted(k) <==> h == k || h >= 6569604
    decreases k - h
  {
    if h < k { EmittedGrows(h, k - 1); }
  }
}
