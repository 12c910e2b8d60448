/** The earlier engine. Its starting state and its ROLL, FINISH_ROLL,
    BUY_DIE and UPGRADE_DIE cases do what the typed engine's do; it has no
    upgrade selection: every new checkpoint starts afresh, rerolling the
    dice on the roll ladder, and APPLY_UPGRADE is an action it does not know. */
module LegacyEngine {
  import opened Rules
  import opened State
  import Engine

  /** NEXT_CHECKPOINT: once the shop is open, start the next checkpoint: the
      dice are rerolled on the roll ladder, the threshold is the new
      checkpoint's, round one with two rerolls, the last roll's score is
      cleared and the shop closes. */
  function NextCheckpoint(s: GameState, draw: nat -> nat): (r: GameState)
    ensures !s.shopAvailable ==> r == s
    ensures s.shopAvailable ==>
      && r.checkpoint == s.checkpoint + 1
      && r.required == Required(r.checkpoint)
      && r.round == 1 && r.rerollsLeft == RerollsPerRound && !r.shopAvailable
      && r.gained == 0 && r.base == 0 && r.multiplier == 1
      && |r.dice| == |s.dice|
      && (forall i :: 0 <= i < |s.dice| ==>
            r.dice[i].level == s.dice[i].level && 1 <= r.dice[i].value <= Sides(RollLadder, s.dice[i].level))
      && r.highlights == Engine.HighlightsOf(r.dice)
      && r == s.(checkpoint := r.checkpoint, required := r.required, round := r.round,
                 rerollsLeft := r.rerollsLeft, dice := r.dice, highlights := r.highlights,
                 gained := 0, base := 0, multiplier := 1, shopAvailable := false)
  {
    if !s.shopAvailable then s
    else
      var cp := s.checkpoint + 1;
      var dice := Reroll(s.dice, RollLadder, draw);
      s.(checkpoint := cp, required := Required(cp), round := 1, rerollsLeft := RerollsPerRound,
         dice := dice, highlights := Engine.HighlightsOf(dice), gained := 0, base := 0, multiplier := 1,
         shopAvailable := false)
  }

  /** reducer(state, action) of the earlier engine. */
  function Reduce(s: GameState, a: Engine.Action, draw: nat -> nat): GameState
  {
    if a.kind == "ROLL" then Engine.RollDice(s, draw)
    else if a.kind == "FINISH_ROLL" then Engine.FinishRoll(s, draw)
    else if a.kind == "BUY_DIE" then Engine.BuyDie(s, draw)
    else if a.kind == "UPGRADE_DIE" then Engine.UpgradeDie(s, draw)
    else if a.kind == "NEXT_CHECKPOINT" then NextCheckpoint(s, draw)
    else if a.kind == "RESET" then Engine.InitialState(draw)
    else s
  }

  /** The action types the earlier reducer handles. */
  predicate Known(kind: string)
  {
    kind in ["ROLL", "FINISH_ROLL", "BUY_DIE", "UPGRADE_DIE", "NEXT_CHECKPOINT", "RESET"]
  }

  /** Any other action, APPLY_UPGRADE among them, leaves the state as it was,
      and RESET starts over. */
  lemma ReduceDefault(s: GameState, a: Engine.Action, draw: nat -> nat)
    ensures !Known(a.kind) ==> Reduce(s, a, draw) == s
    ensures a.kind == "APPLY_UPGRADE" ==> Reduce(s, a, draw) == s
    ensures a.kind == "RESET" ==> Reduce(s, a, draw) == Engine.InitialState(draw)
  {
  }

  /** The two engines differ only on NEXT_CHECKPOINT and APPLY_UPGRADE. */
  lemma AgreesWithTyped(s: GameState, a: Engine.Action, draw: nat -> nat)
    requires a.kind != "NEXT_CHECKPOINT" && a.kind != "APPLY_UPGRADE"
    ensures Reduce(s, a, draw) == Engine.Reduce(s, a, draw)
  {
  }

  /** Where the typed engine starts a fresh checkpoint too, the two differ
      only in the faces rolled (on the roll ladder here, on the upgrade
      ladder there) and so in the highlights: every other field and every
      die's level agree. */
  lemma FreshCheckpointsAgree(s: GameState, draw: nat -> nat)
    requires s.shopAvailable && (s.checkpoint + 1) % 5 != 0
    ensures var r, t := NextCheckpoint(s, draw), Engine.NextCheckpoint(s, draw);
      && r == t.(dice := r.dice, highlights := r.highlights)
      && |r.dice| == |t.dice|
      && forall i :: 0 <= i < |r.dice| ==> r.dice[i].level == t.dice[i].level
  {
    var r, t := NextCheckpoint(s, draw), Engine.NextCheckpoint(s, draw);
    assert r.checkpoint == t.checkpoint && r.required == t.required;
  }

  /** What every state of the earlier game satisfies: the typed engine's
      invariant, and moreover the threshold is always the current
      checkpoint's, the phase is always ROLL and nothing is on offer. */
  predicate LegacyInv(s: GameState)
  {
    && Engine.Inv(s)
    && s.required == Required(s.checkpoint)
    && s.phase == Roll
    && s.availableUpgrades == []
  }

  lemma InitialLegacyInv(draw: nat -> nat)
    ensures LegacyInv(Engine.InitialState(draw))
  {
    Engine.InitialInv(draw);
  }

  lemma NextCheckpointInv(s: GameState, draw: nat -> nat)
    requires LegacyInv(s)
    ensures LegacyInv(NextCheckpoint(s, draw))
  {
    if s.shopAvailable {
      Engine.RerollKeepsDice(s.dice, RollLadder, draw);
    }
  }

  /** Every action of the earlier engine keeps its invariant: the threshold
      never goes stale there. */
  lemma ReducePreservesLegacyInv(s: GameState, a: Engine.Action, draw: nat -> nat)
    requires LegacyInv(s)
    ensures LegacyInv(Reduce(s, a, draw))
  {
    if a.kind == "ROLL" {
      Engine.RollDiceInv(s, draw);
    } else if a.kind == "FINISH_ROLL" {
      Engine.FinishRollInv(s, draw);
    } else if a.kind == "BUY_DIE" {
      Engine.BuyDieInv(s, draw);
    } else if a.kind == "UPGRADE_DIE" {
      Engine.UpgradeDieInv(s, draw);
    } else if a.kind == "NEXT_CHECKPOINT" {
      NextCheckpointInv(s, draw);
    } else if a.kind == "RESET" {
      InitialLegacyInv(draw);
    }
  }
}
