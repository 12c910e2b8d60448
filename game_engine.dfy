/** The typed game engine: the starting state and the reducer that applies a
    player action to the game state. Every action builds a new state; the
    random outcomes of one reducer call are the draws draw(0), draw(1), ...
    (die i of a reroll takes draw(i)). */
module Engine {
  import opened Rules
  import opened State
  import Scoring
  import opened Upgrades
  import opened UpgradeSelection

  /** An action: its `type` and the upgrade an APPLY_UPGRADE carries. */
  datatype Action = Action(kind: string, upgrade: Option<Upgrade>)

  /** The highlight colours of the faces the dice show; only dice that
      exist are highlighted. */
  function HighlightsOf(dice: seq<Die>): (h: map<nat, string>)
    ensures forall i :: i in h ==> i < |dice|
  {
    Scoring.Analyse(Values(dice)).highlights
  }

  /** initialState: one level-1 die rolled on six sides, no points, two
      rerolls, the first round of the first checkpoint. */
  function InitialState(draw: nat -> nat): (s: GameState)
    ensures |s.dice| == 1 && s.dice[0].level == 1 && 1 <= s.dice[0].value <= 6
    ensures s.highlights == map[]
    ensures s.phase == Roll && s.points == 0 && s.rerollsLeft == 2
    ensures s.checkpoint == 1 && s.round == 1 && s.required == Required(1) == 15
    ensures s.gained == 0 && s.base == 0 && s.multiplier == 1
    ensures s.buyCost == 10 && s.upgradeCost == 10
    ensures !s.shopAvailable && !s.gameOver && s.availableUpgrades == []
  {
    var dice := [Die(Rules.Roll(6, draw(0)), 1)];
    RequiredFirstTwo();
    assert HighlightsOf(dice) == map[] by {
      assert multiset(Values(dice)) == multiset{dice[0].value};
      assert !Scoring.IsGroup(Values(dice), dice[0].value);
    }
    GameState(dice, HighlightsOf(dice), Roll, 0, RerollsPerRound, 1, 1, Required(1), 0, 0, 1,
      InitialBuyCost, InitialUpgradeCost, false, false, [])
  }

  /** ROLL: spend a reroll to roll every die again on the roll ladder; no
      change once the rerolls are used up. */
  function RollDice(s: GameState, draw: nat -> nat): (r: GameState)
    ensures s.rerollsLeft <= 0 ==> r == s
    ensures s.rerollsLeft > 0 ==>
      && r.rerollsLeft == s.rerollsLeft - 1
      && |r.dice| == |s.dice|
      && (forall i :: 0 <= i < |s.dice| ==>
            r.dice[i].level == s.dice[i].level && 1 <= r.dice[i].value <= Sides(RollLadder, s.dice[i].level))
      && r.highlights == HighlightsOf(r.dice)
      && r == s.(dice := r.dice, rerollsLeft := r.rerollsLeft, highlights := r.highlights)
  {
    if s.rerollsLeft <= 0 then s
    else
      var dice := Reroll(s.dice, RollLadder, draw);
      s.(dice := dice, rerollsLeft := s.rerollsLeft - 1, highlights := HighlightsOf(dice))
  }

  /** FINISH_ROLL: score the dice. The points grow by the roll's total. On
      the last round of the checkpoint the checkpoint is passed exactly when
      the points reach the requirement, which opens the shop, and is lost
      otherwise; on any other round the next round starts with fresh rolls
      and two rerolls. No phase or game-over check guards it. */
  function FinishRoll(s: GameState, draw: nat -> nat): (r: GameState)
    ensures var a := Scoring.Analyse(Values(s.dice));
      && r.gained == a.total == a.base * a.multiplier
      && r.base == a.base == Scoring.Sum(Values(s.dice))
      && r.multiplier == a.multiplier >= 1
      && r.points == s.points + r.gained >= s.points
    ensures s.round == RollsPerCheck ==>
      && r.shopAvailable == (r.points >= s.required)
      && r.gameOver == !r.shopAvailable
      && r.highlights == HighlightsOf(s.dice)
      && r == s.(points := r.points, gained := r.gained, base := r.base, multiplier := r.multiplier,
                 highlights := r.highlights, shopAvailable := r.shopAvailable, gameOver := r.gameOver)
    ensures s.round != RollsPerCheck ==>
      && r.round == s.round + 1 && r.rerollsLeft == RerollsPerRound
      && |r.dice| == |s.dice|
      && (forall i :: 0 <= i < |s.dice| ==>
            r.dice[i].level == s.dice[i].level && 1 <= r.dice[i].value <= Sides(RollLadder, s.dice[i].level))
      && r.highlights == HighlightsOf(r.dice)
      && r == s.(points := r.points, gained := r.gained, base := r.base, multiplier := r.multiplier,
                 highlights := r.highlights, dice := r.dice, rerollsLeft := r.rerollsLeft, round := r.round)
  {
    var a := Scoring.Analyse(Values(s.dice));
    Scoring.MultiplierAtLeastOne(Values(s.dice));
    if s.round == RollsPerCheck then
      var passed := s.points + a.total >= s.required;
      s.(points := s.points + a.total, gained := a.total, base := a.base, multiplier := a.multiplier,
         highlights := a.highlights, shopAvailable := passed, gameOver := !passed)
    else
      var dice := Reroll(s.dice, RollLadder, draw);
      s.(points := s.points + a.total, gained := a.total, base := a.base, multiplier := a.multiplier,
         highlights := HighlightsOf(dice), dice := dice, rerollsLeft := RerollsPerRound, round := s.round + 1)
  }

  /** BUY_DIE: while the shop is open and the points cover the price, pay
      it, append one level-1 die rolled on six sides and double the price. */
  function BuyDie(s: GameState, draw: nat -> nat): (r: GameState)
    ensures !s.shopAvailable || s.points < s.buyCost ==> r == s
    ensures s.shopAvailable && s.points >= s.buyCost ==>
      && r.points == s.points - s.buyCost >= 0
      && r.buyCost == 2 * s.buyCost
      && |r.dice| == |s.dice| + 1 && r.dice[..|s.dice|] == s.dice
      && r.dice[|s.dice|].level == 1 && 1 <= r.dice[|s.dice|].value <= 6
      && r == s.(points := r.points, dice := r.dice, buyCost := r.buyCost)
  {
    if !s.shopAvailable || s.points < s.buyCost then s
    else s.(points := s.points - s.buyCost, dice := s.dice + [Die(Rules.Roll(6, draw(0)), 1)], buyCost := s.buyCost * 2)
  }

  /** UPGRADE_DIE: when the points cover the price and some die is below
      the top level, pay it, raise one such die (chosen at random) by one
      level, roll it on the upgrade ladder, and double the price. The shop
      need not be open. */
  function UpgradeDie(s: GameState, draw: nat -> nat): (r: GameState)
    ensures s.points < s.upgradeCost || (forall i :: 0 <= i < |s.dice| ==> !Upgradable(s.dice[i])) ==> r == s
    ensures s.points >= s.upgradeCost && (exists i :: 0 <= i < |s.dice| && Upgradable(s.dice[i])) ==>
      && r.points == s.points - s.upgradeCost >= 0
      && r.upgradeCost == 2 * s.upgradeCost
      && |r.dice| == |s.dice|
      && (exists j :: 0 <= j < |s.dice| && Upgradable(s.dice[j])
            && r.dice[j].level == s.dice[j].level + 1
            && 1 <= r.dice[j].value <= Sides(UpgradeLadder, s.dice[j].level + 1)
            && forall i :: 0 <= i < |s.dice| && i != j ==> r.dice[i] == s.dice[i])
      && r == s.(points := r.points, dice := r.dice, upgradeCost := r.upgradeCost)
  {
    if s.points < s.upgradeCost then s
    else
      var e := Eligible(s.dice);
      EligibleEmpty(s.dice);
      if |e| == 0 then s
      else
        EligibleSpec(s.dice);
        var j := e[RandomIndex(draw(0), |e|)];
        s.(points := s.points - s.upgradeCost, dice := s.dice[j := LevelUp(s.dice[j], draw(1))],
           upgradeCost := s.upgradeCost * 2)
  }

  /** APPLY_UPGRADE: apply the carried upgrade, back to the roll phase with
      no offers left; nothing happens without an upgrade. The phase is not
      checked. */
  function ApplyUpgrade(s: GameState, a: Action, draw: nat -> nat): (r: GameState)
    ensures a.upgrade.None? ==> r == s
    ensures a.upgrade.Some? ==>
      && r.phase == Roll && r.availableUpgrades == []
      && r == Apply(a.upgrade.value, s, draw).(phase := Roll, availableUpgrades := [])
  {
    match a.upgrade
    case None => s
    case Some(u) => Apply(u, s, draw).(phase := Roll, availableUpgrades := [])
  }

  /** NEXT_CHECKPOINT: once the shop is open, move to the next checkpoint.
      When it is a multiple of five, three offers are drawn and the upgrade
      selection starts, leaving the threshold, round, rerolls, dice and shop
      as they were; otherwise a fresh checkpoint starts: dice rerolled on the
      upgrade ladder, the new threshold, round one, two rerolls, the last
      roll's score cleared and the shop closed. */
  function NextCheckpoint(s: GameState, draw: nat -> nat): (r: GameState)
    ensures !s.shopAvailable ==> r == s
    ensures s.shopAvailable ==> r.checkpoint == s.checkpoint + 1
    ensures s.shopAvailable && (s.checkpoint + 1) % 5 == 0 ==>
      && r.phase == UpgradeSelection
      && r.availableUpgrades == Selected(Catalog, 3, draw)
      && r == s.(checkpoint := r.checkpoint, phase := r.phase, availableUpgrades := r.availableUpgrades)
    ensures s.shopAvailable && (s.checkpoint + 1) % 5 != 0 ==>
      && r.required == Required(r.checkpoint)
      && r.round == 1 && r.rerollsLeft == RerollsPerRound && !r.shopAvailable
      && r.gained == 0 && r.base == 0 && r.multiplier == 1
      && |r.dice| == |s.dice|
      && (forall i :: 0 <= i < |s.dice| ==>
            r.dice[i].level == s.dice[i].level && 1 <= r.dice[i].value <= Sides(UpgradeLadder, s.dice[i].level))
      && r.highlights == HighlightsOf(r.dice)
      && r == s.(checkpoint := r.checkpoint, required := r.required, round := r.round,
                 rerollsLeft := r.rerollsLeft, dice := r.dice, highlights := r.highlights,
                 gained := 0, base := 0, multiplier := 1, shopAvailable := false)
  {
    if !s.shopAvailable then s
    else
      var cp := s.checkpoint + 1;
      if cp % 5 == 0 then
        s.(checkpoint := cp, phase := UpgradeSelection, availableUpgrades := Selected(Catalog, 3, draw))
      else
        var dice := Reroll(s.dice, UpgradeLadder, draw);
        s.(checkpoint := cp, required := Required(cp), round := 1, rerollsLeft := RerollsPerRound,
           dice := dice, highlights := HighlightsOf(dice), gained := 0, base := 0, multiplier := 1,
           shopAvailable := false)
  }

  /** reducer(state, action). */
  function Reduce(s: GameState, a: Action, draw: nat -> nat): GameState
  {
    if a.kind == "ROLL" then RollDice(s, draw)
    else if a.kind == "FINISH_ROLL" then FinishRoll(s, draw)
    else if a.kind == "BUY_DIE" then BuyDie(s, draw)
    else if a.kind == "UPGRADE_DIE" then UpgradeDie(s, draw)
    else if a.kind == "APPLY_UPGRADE" then ApplyUpgrade(s, a, draw)
    else if a.kind == "NEXT_CHECKPOINT" then NextCheckpoint(s, draw)
    else if a.kind == "RESET" then InitialState(draw)
    else s
  }

  /** The action types the reducer handles. */
  predicate Known(kind: string)
  {
    kind in ["ROLL", "FINISH_ROLL", "BUY_DIE", "UPGRADE_DIE", "APPLY_UPGRADE", "NEXT_CHECKPOINT", "RESET"]
  }

  /** Any other action leaves the state as it was, and RESET starts over. */
  lemma ReduceDefault(s: GameState, a: Action, draw: nat -> nat)
    ensures !Known(a.kind) ==> Reduce(s, a, draw) == s
    ensures a.kind == "RESET" ==> Reduce(s, a, draw) == InitialState(draw)
  {
  }

  /** What every state reached from the initial state satisfies: dice
      levels in [1, 4] showing faces their level can roll, at least one die,
      no debt, at most two rerolls, positive prices, a checkpoint from one
      on, a round from one to five, never both a lost game and an open shop,
      and highlights only on existing dice. */
  predicate Inv(s: GameState)
  {
    && DiceOk(s.dice) && |s.dice| >= 1
    && s.points >= 0
    && 0 <= s.rerollsLeft <= RerollsPerRound
    && s.buyCost >= 1 && s.upgradeCost >= 1
    && s.checkpoint >= 1
    && 1 <= s.round <= RollsPerCheck
    && !(s.gameOver && s.shopAvailable)
    && (forall i :: i in s.highlights ==> i < |s.dice|)
  }

  lemma InitialInv(draw: nat -> nat)
    ensures Inv(InitialState(draw))
  {
  }

  lemma RerollKeepsDice(dice: seq<Die>, ladder: seq<nat>, draw: nat -> nat)
    requires DiceOk(dice)
    requires ladder == RollLadder || ladder == UpgradeLadder
    ensures DiceOk(Reroll(dice, ladder, draw))
  {
    var r := Reroll(dice, ladder, draw);
    forall i | 0 <= i < |r| ensures DieOk(r[i]) {
      UpgradeWithinRoll(dice[i].level);
    }
  }

  lemma UpgradeDieInv(s: GameState, draw: nat -> nat)
    requires Inv(s)
    ensures Inv(UpgradeDie(s, draw))
  {
    var r := UpgradeDie(s, draw);
    if r != s {
      var j :| 0 <= j < |s.dice| && Upgradable(s.dice[j])
            && r.dice[j].level == s.dice[j].level + 1
            && 1 <= r.dice[j].value <= Sides(UpgradeLadder, s.dice[j].level + 1)
            && forall i :: 0 <= i < |s.dice| && i != j ==> r.dice[i] == s.dice[i];
      UpgradeWithinRoll(s.dice[j].level + 1);
      assert DieOk(r.dice[j]);
    }
  }

  lemma BuyDieInv(s: GameState, draw: nat -> nat)
    requires Inv(s)
    ensures Inv(BuyDie(s, draw))
  {
    var r := BuyDie(s, draw);
    if r != s {
      forall i | 0 <= i < |r.dice| ensures DieOk(r.dice[i]) {
        if i < |s.dice| {
          assert r.dice[i] == r.dice[..|s.dice|][i];
        }
      }
    }
  }

  lemma NextCheckpointInv(s: GameState, draw: nat -> nat)
    requires Inv(s)
    ensures Inv(NextCheckpoint(s, draw))
  {
    if s.shopAvailable && (s.checkpoint + 1) % 5 != 0 {
      FreshCheckpointInv(s, draw);
    }
  }

  lemma FreshCheckpointInv(s: GameState, draw: nat -> nat)
    requires Inv(s) && s.shopAvailable && (s.checkpoint + 1) % 5 != 0
    ensures Inv(NextCheckpoint(s, draw))
  {
    RerollKeepsDice(s.dice, UpgradeLadder, draw);
  }

  lemma RollDiceInv(s: GameState, draw: nat -> nat)
    requires Inv(s)
    ensures Inv(RollDice(s, draw))
  {
    if s.rerollsLeft > 0 {
      RerollKeepsDice(s.dice, RollLadder, draw);
    }
  }

  lemma FinishRollInv(s: GameState, draw: nat -> nat)
    requires Inv(s)
    ensures Inv(FinishRoll(s, draw))
  {
    if s.round != RollsPerCheck {
      RerollKeepsDice(s.dice, RollLadder, draw);
    }
  }

  lemma ApplyUpgradeInv(s: GameState, a: Action, draw: nat -> nat)
    requires Inv(s)
    ensures Inv(ApplyUpgrade(s, a, draw))
  {
    if a.upgrade.Some? {
      ApplyPreserves(a.upgrade.value, s, draw);
    }
  }

  /** Every action keeps the invariant: in particular the points never go
      negative, no die passes level 4 and the prices stay positive. */
  lemma ReducePreservesInv(s: GameState, a: Action, draw: nat -> nat)
    requires Inv(s)
    ensures Inv(Reduce(s, a, draw))
  {
    if a.kind == "ROLL" {
      RollDiceInv(s, draw);
    } else if a.kind == "FINISH_ROLL" {
      FinishRollInv(s, draw);
    } else if a.kind == "BUY_DIE" {
      BuyDieInv(s, draw);
    } else if a.kind == "UPGRADE_DIE" {
      UpgradeDieInv(s, draw);
    } else if a.kind == "APPLY_UPGRADE" {
      ApplyUpgradeInv(s, a, draw);
    } else if a.kind == "NEXT_CHECKPOINT" {
      NextCheckpointInv(s, draw);
    }
  }

  /** Only RESET ever takes a die away. */
  lemma DiceNeverLost(s: GameState, a: Action, draw: nat -> nat)
    requires a.kind != "RESET"
    ensures |Reduce(s, a, draw).dice| >= |s.dice|
  {
    if a.kind == "APPLY_UPGRADE" && a.upgrade.Some? {
      ApplyGrows(a.upgrade.value, s, draw);
    }
  }

  /** The upgrade-selection step offers three upgrades, all from the catalog. */
  lemma UpgradeOffers(s: GameState, draw: nat -> nat)
    requires s.shopAvailable && (s.checkpoint + 1) % 5 == 0
    ensures var r := NextCheckpoint(s, draw);
      |r.availableUpgrades| == 3 && forall u :: u in r.availableUpgrades ==> u in Catalog
  {
    var r := NextCheckpoint(s, draw);
    assert r.availableUpgrades == Selected(Catalog, 3, draw);
    CatalogOffers(draw);
  }

  /** The threshold goes stale on the way into an upgrade selection: from a
      state whose threshold matches its checkpoint, the new checkpoint keeps
      the old, strictly smaller threshold. */
  lemma UpgradeBranchKeepsThreshold(s: GameState, draw: nat -> nat)
    requires s.shopAvailable && s.checkpoint >= 1 && (s.checkpoint + 1) % 5 == 0
    requires s.required == Required(s.checkpoint)
    ensures var r := NextCheckpoint(s, draw);
      r.required == s.required < Required(r.checkpoint)
  {
    var r := NextCheckpoint(s, draw);
    var offers := Selected(Catalog, 3, draw);
    assert r == s.(checkpoint := s.checkpoint + 1, phase := UpgradeSelection, availableUpgrades := offers);
    assert r.required == s.required;
    RequiredStep(s.checkpoint);
  }
}
