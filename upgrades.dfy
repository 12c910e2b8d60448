/** The catalog of upgrades offered every fifth checkpoint by the typed
    engine. Each `apply` is a pure transformer of the game state; here the
    catalog lists upgrade identities and `Apply` dispatches on them. Die i
    of a transformer takes the i-th random draw. */
module Upgrades {
  import opened Rules
  import opened State

  /** The five offers and their weights: resetting to level one is twice as
      likely to be drawn as each of the others. */
  const Catalog: seq<Upgrade> := [
    Upgrade(ExtraDice, "Get an extra 6-sided dice", 1),
    Upgrade(UpgradeTwoDice, "Upgrade 2 random dice by 1 Level", 1),
    Upgrade(ResetToLevelOne, "Decrease all dice to level 1, but get 2 extra 12-sided dice", 2),
    Upgrade(DecreaseBuyCost, "Decrease the cost of buying new dice by 25%", 1),
    Upgrade(DecreaseUpgradeCost, "Decrease the cost of upgrading dice by 25%", 1)
  ]

  /** extra_dice: one new level-1 die on six sides, appended. */
  function ExtraDie(s: GameState, draw: nat -> nat): (r: GameState)
    ensures |r.dice| == |s.dice| + 1 && r.dice[..|s.dice|] == s.dice
    ensures r.dice[|s.dice|].level == 1 && 1 <= r.dice[|s.dice|].value <= 6
    ensures r == s.(dice := r.dice)
  {
    s.(dice := s.dice + [Die(Rules.Roll(6, draw(0)), 1)])
  }

  /** The dice upgrade_2_dice picks: the first two upgradable dice. */
  function FirstTwo(dice: seq<Die>): seq<nat>
  {
    var e := Eligible(dice);
    if |e| <= 2 then e else e[..2]
  }

  /** upgrade_2_dice: the first two upgradable dice in list order each go up
      one level and are rolled on the upgrade ladder's sides for that level. */
  function UpgradeTwo(s: GameState, draw: nat -> nat): GameState
  {
    var picked := FirstTwo(s.dice);
    var dice := seq(|s.dice|, i requires 0 <= i < |s.dice| =>
      if i in picked then LevelUp(s.dice[i], draw(i)) else s.dice[i]);
    s.(dice := dice)
  }

  /** A die one level up, showing a face rolled on the upgrade ladder. */
  function LevelUp(d: Die, r: nat): (e: Die)
    ensures e.level == d.level + 1 && 1 <= e.value <= Sides(UpgradeLadder, d.level + 1)
  {
    Die(Rules.Roll(Sides(UpgradeLadder, d.level + 1), r), d.level + 1)
  }

  /** upgrade_2_dice changes exactly the upgradable dice with fewer than two
      upgradable dice before them, raising each by one level; every other
      die and every other field stay as they were. */
  lemma UpgradeTwoSpec(s: GameState, draw: nat -> nat)
    ensures var r := UpgradeTwo(s, draw);
      && r == s.(dice := r.dice)
      && |r.dice| == |s.dice|
      && forall i :: 0 <= i < |s.dice| ==>
           if Upgradable(s.dice[i]) && |Eligible(s.dice[..i])| < 2 then
             r.dice[i].level == s.dice[i].level + 1 && 1 <= r.dice[i].value <= Sides(UpgradeLadder, s.dice[i].level + 1)
           else r.dice[i] == s.dice[i]
  {
    var r := UpgradeTwo(s, draw);
    forall i | 0 <= i < |s.dice|
      ensures i in FirstTwo(s.dice) <==> Upgradable(s.dice[i]) && |Eligible(s.dice[..i])| < 2
    {
      EligibleTake(s.dice, i, 2);
    }
    forall i | 0 <= i < |s.dice| ensures r.dice[i] == if i in FirstTwo(s.dice) then LevelUp(s.dice[i], draw(i)) else s.dice[i] {
    }
  }

  /** The dice of a list prefix are listed first, in the same order. */
  lemma {:induction false} EligiblePrefix(dice: seq<Die>, j: nat)
    requires j <= |dice|
    ensures |Eligible(dice[..j])| <= |Eligible(dice)|
    ensures Eligible(dice)[..|Eligible(dice[..j])|] == Eligible(dice[..j])
    ensures forall k :: |Eligible(dice[..j])| <= k < |Eligible(dice)| ==> Eligible(dice)[k] >= j
    decreases |dice|
  {
    if j < |dice| {
      var init := dice[..|dice| - 1];
      assert init[..j] == dice[..j];
      EligiblePrefix(init, j);
      EligibleSpec(init);
    } else {
      assert dice[..j] == dice;
    }
  }

  /** Die i is among the first m upgradable dice exactly when it is
      upgradable and fewer than m upgradable dice come before it. */
  lemma EligibleTake(dice: seq<Die>, i: nat, m: nat)
    requires i < |dice|
    ensures var e := Eligible(dice);
      i in (if |e| <= m then e else e[..m]) <==> Upgradable(dice[i]) && |Eligible(dice[..i])| < m
  {
    var e := Eligible(dice);
    var n := |Eligible(dice[..i])|;
    EligiblePrefix(dice, i);
    EligiblePrefix(dice, i + 1);
    EligibleSpec(dice);
    assert dice[..i + 1][..i] == dice[..i];
    if Upgradable(dice[i]) {
      assert Eligible(dice[..i + 1]) == Eligible(dice[..i]) + [i];
      assert e[n] == i;
    } else {
      assert Eligible(dice[..i + 1]) == Eligible(dice[..i]);
      forall k | 0 <= k < |e| ensures e[k] != i {
        if k < n {
          assert e[k] in Eligible(dice[..i]);
          EligibleSpec(dice[..i]);
        }
      }
    }
  }

  /** reset_to_level_1: every die drops to level one and is rolled on six
      sides, then two level-3 dice rolled on twelve sides are appended. */
  function ResetToOne(s: GameState, draw: nat -> nat): (r: GameState)
    ensures |r.dice| == |s.dice| + 2
    ensures forall i :: 0 <= i < |s.dice| ==> r.dice[i].level == 1 && 1 <= r.dice[i].value <= 6
    ensures forall i :: |s.dice| <= i < |r.dice| ==> r.dice[i].level == 3 && 1 <= r.dice[i].value <= 12
    ensures r == s.(dice := r.dice)
  {
    var n := |s.dice|;
    var reset := seq(n, i requires 0 <= i < n => FreshDie(6, 1, draw(i)));
    assert forall i :: 0 <= i < n ==> reset[i] == FreshDie(6, 1, draw(i));
    s.(dice := reset + [FreshDie(12, 3, draw(n)), FreshDie(12, 3, draw(n + 1))])
  }

  /** A die of the given level showing a face rolled on the given sides. */
  function FreshDie(sides: nat, level: int, r: nat): (d: Die)
    requires sides > 0
    ensures d.level == level && 1 <= d.value <= sides
  {
    Die(Rules.Roll(sides, r), level)
  }

  /** A 25% discount rounded down, but never below one:
      max(1, floor(cost * 0.75)). */
  function Discount(cost: int): (d: int)
    ensures d >= 1
    ensures 3 * cost >= 8 ==> 4 * d <= 3 * cost < 4 * d + 4
    ensures 3 * cost < 8 ==> d == 1
  {
    var q := (3 * cost) / 4;
    if q > 1 then q else 1
  }

  /** A discount never raises a positive cost, lowers every cost of two or
      more, and leaves the minimum cost of one where it is. */
  lemma DiscountLowers(cost: int)
    ensures cost >= 1 ==> Discount(cost) <= cost
    ensures cost >= 2 ==> Discount(cost) < cost
    ensures cost <= 1 ==> Discount(cost) == 1
  {
  }

  /** decrease_buy_cost: the buy cost drops by a quarter, rounded down, but
      stays at least one; nothing else changes. */
  function CheaperBuy(s: GameState): (r: GameState)
    ensures r.buyCost >= 1 && (s.buyCost >= 1 ==> r.buyCost <= s.buyCost)
    ensures 3 * s.buyCost >= 8 ==> 4 * r.buyCost <= 3 * s.buyCost < 4 * r.buyCost + 4
    ensures 3 * s.buyCost < 8 ==> r.buyCost == 1
    ensures r == s.(buyCost := r.buyCost)
  {
    DiscountLowers(s.buyCost);
    s.(buyCost := Discount(s.buyCost))
  }

  /** decrease_upgrade_cost: the upgrade cost drops by a quarter, rounded
      down, but stays at least one; nothing else changes. */
  function CheaperUpgrade(s: GameState): (r: GameState)
    ensures r.upgradeCost >= 1 && (s.upgradeCost >= 1 ==> r.upgradeCost <= s.upgradeCost)
    ensures 3 * s.upgradeCost >= 8 ==> 4 * r.upgradeCost <= 3 * s.upgradeCost < 4 * r.upgradeCost + 4
    ensures 3 * s.upgradeCost < 8 ==> r.upgradeCost == 1
    ensures r == s.(upgradeCost := r.upgradeCost)
  {
    DiscountLowers(s.upgradeCost);
    s.(upgradeCost := Discount(s.upgradeCost))
  }

  /** upgrade.apply(state), by the upgrade's identity. */
  function Apply(u: Upgrade, s: GameState, draw: nat -> nat): GameState
  {
    match u.id
    case ExtraDice => ExtraDie(s, draw)
    case UpgradeTwoDice => UpgradeTwo(s, draw)
    case ResetToLevelOne => ResetToOne(s, draw)
    case DecreaseBuyCost => CheaperBuy(s)
    case DecreaseUpgradeCost => CheaperUpgrade(s)
  }

  /** Every upgrade keeps each die's level in [1, 4] with a face its level
      can roll, keeps both costs at least one, never removes a die, and
      touches nothing but the dice and the costs. */
  lemma ApplyPreserves(u: Upgrade, s: GameState, draw: nat -> nat)
    requires DiceOk(s.dice) && s.buyCost >= 1 && s.upgradeCost >= 1
    ensures var r := Apply(u, s, draw);
      && DiceOk(r.dice)
      && r.buyCost >= 1 && r.upgradeCost >= 1
      && |r.dice| >= |s.dice|
      && r == s.(dice := r.dice, buyCost := r.buyCost, upgradeCost := r.upgradeCost)
  {
    match u.id
    case ExtraDice => ExtraDieKeepsDice(s, draw);
    case UpgradeTwoDice => UpgradeTwoKeepsDice(s, draw);
    case ResetToLevelOne =>
    case DecreaseBuyCost =>
    case DecreaseUpgradeCost =>
  }

  /** No upgrade removes a die, and only the dice and the prices change. */
  lemma ApplyGrows(u: Upgrade, s: GameState, draw: nat -> nat)
    ensures var r := Apply(u, s, draw);
      && |r.dice| >= |s.dice|
      && r == s.(dice := r.dice, buyCost := r.buyCost, upgradeCost := r.upgradeCost)
  {
    if u.id == UpgradeTwoDice {
      UpgradeTwoSpec(s, draw);
    }
  }

  lemma ExtraDieKeepsDice(s: GameState, draw: nat -> nat)
    requires DiceOk(s.dice)
    ensures DiceOk(ExtraDie(s, draw).dice)
  {
    var r := ExtraDie(s, draw);
    forall i | 0 <= i < |r.dice| ensures DieOk(r.dice[i]) {
      if i < |s.dice| {
        assert r.dice[i] == r.dice[..|s.dice|][i];
      }
    }
  }

  lemma UpgradeTwoKeepsDice(s: GameState, draw: nat -> nat)
    requires DiceOk(s.dice)
    ensures DiceOk(UpgradeTwo(s, draw).dice)
  {
    var r := UpgradeTwo(s, draw);
    UpgradeTwoSpec(s, draw);
    forall i | 0 <= i < |r.dice| ensures DieOk(r.dice[i]) {
      UpgradeWithinRoll(s.dice[i].level + 1);
    }
  }
}
