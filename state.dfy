/** The shape of the game state shared by both engines, and the operations on
    the dice list that several actions and upgrades use. */
module State {
  import opened Rules

  datatype Option<T> = None | Some(value: T)

  /** A die: the face it shows and its level (1 = six sides). */
  datatype Die = Die(value: nat, level: int)

  datatype Phase = Roll | UpgradeSelection | Lose

  /** The identities of the upgrades of the typed catalog; each one stands
      for that catalog entry's `apply` transformer. */
  datatype UpgradeId = ExtraDice | UpgradeTwoDice | ResetToLevelOne | DecreaseBuyCost | DecreaseUpgradeCost

  /** An upgrade offer: its identity, its display name and its weight in the
      random draw of offers. */
  datatype Upgrade = Upgrade(id: UpgradeId, name: string, rarity: nat)

  /** The game state. The optional flags `shopAvailable` and `gameOver` are
      false while absent, and the absent offer list is empty. */
  datatype GameState = GameState(
    dice: seq<Die>,
    highlights: map<nat, string>,
    phase: Phase,
    points: int,
    rerollsLeft: int,
    checkpoint: int,
    round: int,
    required: int,
    gained: int,
    base: int,
    multiplier: int,
    buyCost: int,
    upgradeCost: int,
    shopAvailable: bool,
    gameOver: bool,
    availableUpgrades: seq<Upgrade>)

  /** The faces showing, in dice order: `dice.map(die => die.value)`. */
  function Values(dice: seq<Die>): (vs: seq<nat>)
    ensures |vs| == |dice|
    ensures forall i :: 0 <= i < |dice| ==> vs[i] == dice[i].value
  {
    seq(|dice|, i requires 0 <= i < |dice| => dice[i].value)
  }

  /** Every die rerolled on the sides its level has on the ladder, keeping
      its level; die i takes the i-th random draw. */
  function Reroll(dice: seq<Die>, ladder: seq<nat>, draw: nat -> nat): (r: seq<Die>)
    requires forall k :: 0 <= k < |ladder| ==> ladder[k] > 0
    ensures |r| == |dice|
    ensures forall i :: 0 <= i < |dice| ==>
      r[i].level == dice[i].level && 1 <= r[i].value <= Sides(ladder, dice[i].level)
  {
    var r := seq(|dice|, i requires 0 <= i < |dice| => RerollDie(dice[i], ladder, draw(i)));
    assert forall i :: 0 <= i < |dice| ==> r[i] == RerollDie(dice[i], ladder, draw(i));
    r
  }

  /** One die rerolled on the ladder, keeping its level. */
  function RerollDie(d: Die, ladder: seq<nat>, r: nat): (e: Die)
    requires forall k :: 0 <= k < |ladder| ==> ladder[k] > 0
    ensures e.level == d.level && 1 <= e.value <= Sides(ladder, d.level)
  {
    Die(Rules.Roll(Sides(ladder, d.level), r), d.level)
  }

  /** A die can be upgraded while its level is below the ladder's length. */
  predicate Upgradable(d: Die)
  {
    d.level < MaxLevel
  }

  /** The indices of the upgradable dice, in list order: the dice that
      `filter(die => die.level < 4)` keeps. */
  function Eligible(dice: seq<Die>): seq<nat>
  {
    if dice == [] then []
    else Eligible(dice[..|dice| - 1]) + (if Upgradable(dice[|dice| - 1]) then [|dice| - 1] else [])
  }

  /** Eligible lists exactly the upgradable dice, each once, in ascending order. */
  lemma {:induction false} EligibleSpec(dice: seq<Die>)
    ensures forall k :: 0 <= k < |Eligible(dice)| ==>
      Eligible(dice)[k] < |dice| && Upgradable(dice[Eligible(dice)[k]])
    ensures forall i :: 0 <= i < |dice| && Upgradable(dice[i]) ==> i in Eligible(dice)
    ensures forall k, l :: 0 <= k < l < |Eligible(dice)| ==> Eligible(dice)[k] < Eligible(dice)[l]
  {
    if dice != [] {
      var init := dice[..|dice| - 1];
      EligibleSpec(init);
      forall i | 0 <= i < |dice| - 1 ensures dice[i] == init[i] { }
    }
  }

  /** There is nothing to upgrade exactly when every die is at the top level. */
  lemma {:induction false} EligibleEmpty(dice: seq<Die>)
    ensures Eligible(dice) == [] <==> forall i :: 0 <= i < |dice| ==> !Upgradable(dice[i])
  {
    EligibleSpec(dice);
    if Eligible(dice) != [] {
      var j := Eligible(dice)[0];
      assert Upgradable(dice[j]);
    }
  }

  /** Dice i shows a face its level can roll, and its level is in range. */
  predicate DieOk(d: Die)
  {
    1 <= d.level <= MaxLevel && 1 <= d.value <= Sides(RollLadder, d.level)
  }

  predicate DiceOk(dice: seq<Die>)
  {
    forall i :: 0 <= i < |dice| ==> DieOk(dice[i])
  }
}
