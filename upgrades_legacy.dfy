/** The upgrades of the earlier catalog: three pure transformers of the game
    state with a rarity label each. Die i of a transformer takes the i-th
    random draw; the dice it appends take the draws after the last die. */
module LegacyUpgrades {
  import opened Rules
  import opened State
  import Upgrades

  datatype Rarity = Common | Uncommon

  datatype LegacyId = ExtraTwoDice | UpgradeToMax | ResetLevels

  datatype LegacyUpgrade = LegacyUpgrade(id: LegacyId, name: string, rarity: Rarity)

  const LegacyCatalog: seq<LegacyUpgrade> := [
    LegacyUpgrade(ExtraTwoDice, "Get 2 extra 6-sided dice", Common),
    LegacyUpgrade(UpgradeToMax, "Upgrade 2 random dice to max level", Common),
    LegacyUpgrade(ResetLevels, "Decrease all dice to level 1, but get 2 extra 12-sided dice", Uncommon)
  ]

  /** extra_dice: two new level-1 dice rolled on six sides, appended. */
  function ExtraTwo(s: GameState, draw: nat -> nat): (r: GameState)
    ensures |r.dice| == |s.dice| + 2 && r.dice[..|s.dice|] == s.dice
    ensures forall i :: |s.dice| <= i < |r.dice| ==> r.dice[i].level == 1 && 1 <= r.dice[i].value <= 6
    ensures r == s.(dice := r.dice)
  {
    var n := |s.dice|;
    s.(dice := s.dice + [Upgrades.FreshDie(6, 1, draw(n)), Upgrades.FreshDie(6, 1, draw(n + 1))])
  }

  /** upgrade_to_max: the first two upgradable dice in list order jump to the
      top level and are rolled on twenty sides. */
  function ToMax(s: GameState, draw: nat -> nat): GameState
  {
    var picked := Upgrades.FirstTwo(s.dice);
    var dice := seq(|s.dice|, i requires 0 <= i < |s.dice| =>
      if i in picked then Upgrades.FreshDie(20, MaxLevel, draw(i)) else s.dice[i]);
    s.(dice := dice)
  }

  /** upgrade_to_max changes exactly the upgradable dice with fewer than two
      upgradable dice before them, each to the top level with a face from 1
      to 20; every other die and every other field stay as they were. */
  lemma ToMaxSpec(s: GameState, draw: nat -> nat)
    ensures var r := ToMax(s, draw);
      && r == s.(dice := r.dice)
      && |r.dice| == |s.dice|
      && forall i :: 0 <= i < |s.dice| ==>
           if Upgradable(s.dice[i]) && |Eligible(s.dice[..i])| < 2 then
             r.dice[i].level == MaxLevel && 1 <= r.dice[i].value <= 20
           else r.dice[i] == s.dice[i]
  {
    var r := ToMax(s, draw);
    forall i | 0 <= i < |s.dice|
      ensures i in Upgrades.FirstTwo(s.dice) <==> Upgradable(s.dice[i]) && |Eligible(s.dice[..i])| < 2
    {
      Upgrades.EligibleTake(s.dice, i, 2);
    }
    forall i | 0 <= i < |s.dice|
      ensures r.dice[i] == if i in Upgrades.FirstTwo(s.dice) then Upgrades.FreshDie(20, MaxLevel, draw(i)) else s.dice[i]
    {
    }
  }

  /** With at most two dice below the top level, upgrade_to_max leaves no
      die to upgrade. */
  lemma ToMaxFinishes(s: GameState, draw: nat -> nat)
    requires |Eligible(s.dice)| <= 2
    ensures Eligible(ToMax(s, draw).dice) == []
  {
    var r := ToMax(s, draw);
    EligibleSpec(s.dice);
    assert Upgrades.FirstTwo(s.dice) == Eligible(s.dice);
    forall i | 0 <= i < |r.dice| ensures !Upgradable(r.dice[i]) {
      if i in Eligible(s.dice) {
        assert r.dice[i] == Upgrades.FreshDie(20, MaxLevel, draw(i));
      } else {
        assert r.dice[i] == s.dice[i];
      }
    }
    EligibleEmpty(r.dice);
  }

  /** upgrade.apply(state), by the upgrade's identity; reset_to_level_1 is
      the same transformer as in the typed catalog. */
  function LegacyApply(u: LegacyUpgrade, s: GameState, draw: nat -> nat): GameState
  {
    match u.id
    case ExtraTwoDice => ExtraTwo(s, draw)
    case UpgradeToMax => ToMax(s, draw)
    case ResetLevels => Upgrades.ResetToOne(s, draw)
  }

  /** Each of the three upgrades keeps every die at a level in [1, 4] with a
      face its level can roll, never removes a die and changes nothing but
      the dice. */
  lemma LegacyApplyKeepsDice(u: LegacyUpgrade, s: GameState, draw: nat -> nat)
    requires DiceOk(s.dice)
    ensures var r := LegacyApply(u, s, draw);
      && DiceOk(r.dice)
      && |r.dice| >= |s.dice|
      && r == s.(dice := r.dice)
  {
    var r := LegacyApply(u, s, draw);
    match u.id
    case ExtraTwoDice =>
      forall i | 0 <= i < |r.dice| ensures DieOk(r.dice[i]) {
        if i < |s.dice| {
          assert r.dice[i] == r.dice[..|s.dice|][i];
        }
      }
    case UpgradeToMax =>
      ToMaxSpec(s, draw);
    case ResetLevels =>
  }
}
