# Dice game: a verified model of the game logic

This project models the logic of a push-your-luck dice game in Dafny. The
player rolls a handful of dice over five rounds per checkpoint and scores
each roll. A roll scores its sum of faces times a multiplier: the product of
the sizes of its groups of equal faces. To pass a checkpoint, the points
must reach a threshold that grows by half each checkpoint. Points buy new
dice and upgrade dice to more sides. In the typed engine, every fifth
checkpoint offers three upgrades drawn by weight from a catalog.

The model covers:

- **Rules** (`rules.dfy`): the constants, and the exact threshold
  `ceil(15 * 1.5^(cp - 1))`. It also covers the roll of a die of a given
  level, with two side ladders: `[6, 8, 12, 20]` for rolls and
  `[6, 8, 10, 20]` for upgrades.
- **State** (`state.dfy`): the game state record, the reroll of all dice,
  and the list of dice that can still be upgraded.
- **Scoring** (`scoring.dfy`): `analyseRoll`, written as the loops the
  source uses. Each method is proved equal to a specification function:
  `SumFaces` to `Sum`, `IndexFaces` to `FreqOf`, `PaintGroup` to
  `Painted`, `ScoreGroups` to both `Multiplier` and `Highlights`, and
  `AnalyseRoll` to `Analyse`. Lemmas about those functions state what the
  score means.
- **Typed engine** (`game_engine.dfy`): `initialState` and every case of
  `reducer`, with the invariant that every action keeps.
- **Earlier engine** (`game_engine_legacy.dfy`): the earlier `reducer`. It
  shares the typed engine's starting state and its ROLL, FINISH_ROLL,
  BUY_DIE and UPGRADE_DIE cases. Its NEXT_CHECKPOINT differs, and it has no
  APPLY_UPGRADE.
- **Upgrade catalogs** (`upgrades.dfy`, `upgrades_legacy.dfy`): the five
  typed and three earlier `apply` transformers, as functions of the state.
- **Offer sampling** (`select_upgrades.dfy`): `selectUpgrades`, the
  weighted draw without replacement, as a loop proved against a recursive
  specification.
- **Combos** (`combos.dfy`): the Pair, Triple and Straight tests of the
  earlier game.

Randomness is an oracle `draw: nat -> nat`. Dafny's `%` is Euclidean, and
every draw is a `nat`, so the remainders below match the source's.

- `roll(sides)` for the raw draw `r` is `1 + r % sides`.
- `Math.floor(Math.random() * n)` is `r % n`.
- Within one reducer call, die `i` of a reroll takes `draw(i)`.
- `UPGRADE_DIE` picks with `draw(0)` and rolls with `draw(1)`.
- `selectUpgrades` makes its k-th pick with `pick(k)`.

Each of these covers exactly the values the real calls can produce.

Where the source differs from what a reader might expect, the model follows
the code:

- **Two side ladders.** ROLL and FINISH_ROLL reroll on `[6, 8, 12, 20]`.
  UPGRADE_DIE and the typed NEXT_CHECKPOINT use `[6, 8, 10, 20]`.
- **Missing resets on the upgrade branch.** On the typed NEXT_CHECKPOINT
  upgrade branch, the threshold, round, rerolls and shop flag are left as
  they were. `Engine.UpgradeBranchKeepsThreshold` shows the threshold is
  then the previous checkpoint's, strictly below the new one's.
- **Missing guards.** UPGRADE_DIE does not need the shop to be open.
  FINISH_ROLL checks neither the phase nor a lost game. APPLY_UPGRADE does
  not check the phase.
- **Duplicate offers.** The weighted draw can offer the same upgrade twice.
  `UpgradeSelection.DuplicateOffers` exhibits one.
- **"Random" upgrade picks the first two.** The "upgrade 2 random dice" and
  "upgrade 2 random dice to max level" upgrades take the first two
  upgradable dice in list order.
- **LOSE is never set.** No action enters the `LOSE` phase; a lost game
  only sets `gameOver`.
- **Stale highlights.** BUY_DIE, UPGRADE_DIE and APPLY_UPGRADE change the
  dice without recomputing the highlights.

## Model

| member | source | states |
|---|---|---|
| Rules.Required | src/GameEngine.ts:9-11 | `requiredForCheckpoint`, computed exactly on integers; it has no contract of its own, and what it computes is stated by RequiredIsCeiling, RequiredFirstTwo, RequiredStep and RequiredMonotone |
| Rules.CeilDiv | src/GameEngine.ts:10 | `Math.ceil` of an exact quotient: the least q with a <= q * b |
| Rules.RequiredIsCeiling | src/GameEngine.ts:9-11 | for checkpoint cp >= 1 the threshold is the least whole number at or above 15 * (3/2)^(cp - 1) |
| Rules.RequiredFirstTwo | src/GameEngine.js:19-21 | the first checkpoint asks for 15 points, the second for 23 |
| Rules.RequiredStep | src/GameEngine.js:19-21 | each checkpoint from the first on asks for strictly more points than the one before |
| Rules.RequiredMonotone | src/GameEngine.ts:9-11 | the threshold never decreases from one checkpoint to a later one |
| Rules.Roll | src/GameEngine.ts:69 | `roll(sides)` yields a face from 1 to sides |
| Rules.RandomIndex | src/GameEngine.ts:132 | `Math.floor(Math.random() * n)` yields an index below n |
| Rules.UpgradeWithinRoll | src/GameEngine.ts:127 | at every level the upgrade ladder gives at most as many sides as the roll ladder, and never more than 20 |
| State.Values | src/GameEngine.ts:71 | `dice.map(die => die.value)`: same length, face i is die i's value |
| State.Reroll | src/GameEngine.ts:67-70 | every die keeps its level and shows a face from 1 to the sides of its level on the given ladder |
| State.EligibleSpec | src/GameEngine.ts:129 | the upgradable dice are listed exactly once each, in list order, and each is below the top level |
| State.EligibleEmpty | src/GameEngine.ts:129-130 | nothing is upgradable exactly when every die is at the top level |
| Scoring.SumFaces | src/GameEngine.ts:19 | the `reduce` loop computes the sum of the faces |
| Scoring.IndexFaces | src/GameEngine.ts:20-21 | the `forEach` loop maps each face shown to the ascending list of its dice |
| Scoring.FreqOfSpec | src/GameEngine.ts:20-21 | a face is a key of `freq` exactly when it shows, and its list is exactly its dice |
| Scoring.PositionsSpec | src/GameEngine.ts:21 | a face's list holds exactly the dice showing it, in ascending order, as many as it shows |
| Scoring.PaintGroup | src/GameEngine.ts:32 | painting a group sets every die of the list to the colour and keeps every other entry |
| Scoring.ScoreGroups | src/GameEngine.ts:27-34 | walking the groups in ascending face order gives the product of the sizes of the duplicate groups and colours each group's dice with the palette entry of its rank |
| Scoring.Analyse | src/GameEngine.ts:13-37 | the value `analyseRoll` returns, as a function of the faces; no contract of its own: the lemmas below and AnalyseRoll state what it means |
| Scoring.AnalyseRoll | src/GameEngine.ts:13-37 | `analyseRoll` returns the sum, the multiplier, their product and the highlights; the earlier engine's `analyseRoll` (src/GameEngine.js:23-41) is the same code |
| Scoring.MultiplierAtLeastOne | src/GameEngine.ts:23-36 | the multiplier is at least one and the total is the base times the multiplier |
| Scoring.ProductBelowGrows | src/GameEngine.ts:28-29 | multiplying in group sizes only raises the multiplier, starting from one |
| Scoring.MultiplierOneIffDistinct | src/GameEngine.ts:27-29 | the multiplier is one exactly when all faces are distinct |
| Scoring.DistinctMultiplier | src/GameEngine.ts:27-29 | with all faces distinct no group forms and the multiplier stays one |
| Scoring.RepeatMultiplier | src/GameEngine.ts:28-29 | a face shown twice makes the multiplier at least two |
| Scoring.HighlightedIffRepeated | src/GameEngine.ts:27-33 | a die is highlighted exactly when another die shows the same face |
| Scoring.GroupsBelowGrows | src/GameEngine.ts:27-31 | a group with a higher face gets a later colour index |
| Scoring.SameFaceSameColour | src/GameEngine.ts:27-33 | two highlighted dice showing the same face always share a colour, whatever the number of groups |
| Scoring.SameColourIffSameFace | src/GameEngine.ts:27-33 | with at most eight groups, two highlighted dice share a colour exactly when they show the same face |
| Scoring.PaletteDistinct | src/GameEngine.js:8-17 | the eight palette colours are pairwise different |
| Engine.HighlightsOf | src/GameEngine.ts:71 | highlights fall only on dice that exist |
| Engine.InitialState | src/GameEngine.ts:39-58 | one level-1 die showing 1 to 6, no highlight, phase ROLL, 0 points, 2 rerolls, checkpoint 1, round 1, threshold 15, score 0/0/1, prices 10/10, shop closed, game not over, no offers |
| Engine.RollDice | src/GameEngine.ts:65-73 | no change without rerolls; otherwise one reroll spent, every die rerolled on the roll ladder at its level, highlights recomputed, nothing else changed |
| Engine.FinishRoll | src/GameEngine.ts:75-112 | the points grow by base times multiplier; on the last round the shop opens exactly when the points reach the threshold, and the game is lost otherwise; on any other round the next round starts with two rerolls and rerolled dice |
| Engine.BuyDie | src/GameEngine.ts:114-122 | no change unless the shop is open and the points cover the price; otherwise the price is paid, one level-1 die is appended and the price doubles |
| Engine.UpgradeDie | src/GameEngine.ts:124-147 | no change when the points fall short or no die can be upgraded; otherwise the price is paid and doubles, and exactly one upgradable die goes up one level with a face on the upgrade ladder |
| Engine.ApplyUpgrade | src/GameEngine.ts:149-157 | no change without an upgrade; otherwise the upgrade is applied, the phase is ROLL and no offers remain |
| Engine.NextCheckpoint | src/GameEngine.ts:159-193 | no change while the shop is closed; otherwise the checkpoint advances, and either three offers open the upgrade selection or a fresh checkpoint starts with the new threshold, round 1, two rerolls, dice rerolled on the upgrade ladder, score cleared and the shop closed |
| Engine.Reduce | src/GameEngine.ts:60-202 | `reducer`, dispatching on the action type; no contract of its own: ReduceDefault, ReducePreservesInv and DiceNeverLost state what it does |
| Engine.ReduceDefault | src/GameEngine.ts:195-200 | an unknown action changes nothing and RESET gives the starting state |
| Engine.InitialInv | src/GameEngine.ts:39-58 | the starting state satisfies the game invariant |
| Engine.RollDiceInv | src/GameEngine.ts:65-73 | ROLL keeps the game invariant |
| Engine.FinishRollInv | src/GameEngine.ts:75-112 | FINISH_ROLL keeps the game invariant |
| Engine.BuyDieInv | src/GameEngine.ts:114-122 | BUY_DIE keeps the game invariant |
| Engine.UpgradeDieInv | src/GameEngine.ts:124-147 | UPGRADE_DIE keeps the game invariant; no die passes level 4 |
| Engine.ApplyUpgradeInv | src/GameEngine.ts:149-157 | APPLY_UPGRADE keeps the game invariant |
| Engine.NextCheckpointInv | src/GameEngine.ts:159-193 | NEXT_CHECKPOINT keeps the game invariant |
| Engine.FreshCheckpointInv | src/GameEngine.ts:174-192 | starting a fresh checkpoint keeps the game invariant |
| Engine.RerollKeepsDice | src/GameEngine.ts:67-70 | rerolling on either ladder keeps every die valid for its level |
| Engine.ReducePreservesInv | src/GameEngine.ts:60-202 | every action keeps the invariant: levels in [1, 4] with faces the level can roll, at least one die, points and rerolls never negative, positive prices, a lost game never has an open shop, highlights only on existing dice |
| Engine.DiceNeverLost | src/GameEngine.ts:60-202 | only RESET takes a die away |
| Engine.UpgradeOffers | src/GameEngine.ts:164-172 | the upgrade selection offers three upgrades, all from the catalog |
| Engine.UpgradeBranchKeepsThreshold | src/GameEngine.ts:164-172 | entering the upgrade selection leaves the previous checkpoint's threshold, strictly below the new checkpoint's |
| LegacyEngine.NextCheckpoint | src/GameEngine.js:156-178 | no change while the shop is closed; otherwise the checkpoint advances with its own threshold, round 1, two rerolls, dice rerolled on the roll ladder, score cleared and the shop closed |
| LegacyEngine.Reduce | src/GameEngine.js:64-187 | the earlier `reducer`, dispatching on the action type; no contract of its own: ReduceDefault, AgreesWithTyped and ReducePreservesLegacyInv state what it does |
| LegacyEngine.ReduceDefault | src/GameEngine.js:180-186 | an unknown action, APPLY_UPGRADE among them, changes nothing; RESET gives the starting state |
| LegacyEngine.AgreesWithTyped | src/GameEngine.js:68-154 | ROLL, FINISH_ROLL, BUY_DIE, UPGRADE_DIE, RESET and unknown actions do the same in both engines |
| LegacyEngine.FreshCheckpointsAgree | src/GameEngine.js:156-178 | where both engines start a fresh checkpoint, they differ only in the faces rolled and the highlights |
| LegacyEngine.InitialLegacyInv | src/GameEngine.js:43-62 | the earlier starting state satisfies the earlier invariant |
| LegacyEngine.NextCheckpointInv | src/GameEngine.js:156-178 | the earlier NEXT_CHECKPOINT keeps the earlier invariant |
| LegacyEngine.ReducePreservesLegacyInv | src/GameEngine.js:64-187 | every earlier action keeps the typed invariant, the threshold of the current checkpoint, the ROLL phase and an empty offer list |
| Upgrades.ExtraDie | src/utils/upgrades.ts:10-13 | extra_dice appends one level-1 die showing 1 to 6 and changes nothing else |
| Upgrades.LevelUp | src/utils/upgrades.ts:24 | an upgraded die is one level up with a face on the upgrade ladder |
| Upgrades.UpgradeTwo | src/utils/upgrades.ts:19-28 | upgrade_2_dice as a function of the state; no contract of its own: UpgradeTwoSpec states what it does |
| Upgrades.UpgradeTwoSpec | src/utils/upgrades.ts:19-28 | upgrade_2_dice raises exactly the first two upgradable dice in list order by one level; every other die and field is unchanged |
| Upgrades.EligibleTake | src/utils/upgrades.ts:20-23 | a die is among the first m upgradable dice exactly when it is upgradable with fewer than m upgradable dice before it |
| Upgrades.ResetToOne | src/utils/upgrades.ts:34-41 | reset_to_level_1 sets every die to level 1 with a face from 1 to 6 and appends two level-3 dice showing 1 to 12; nothing else changes; the earlier catalog's reset_to_level_1 (src/utils/upgrades.js:33-40) is the same transformer |
| Upgrades.Discount | src/utils/upgrades.ts:49 | max(1, floor(cost * 3/4)): exactly one when three quarters of the cost are below two, and otherwise the floor of three quarters of the cost |
| Upgrades.DiscountLowers | src/utils/upgrades.ts:47-50 | the discount never raises a positive cost, lowers every cost of two or more and keeps the minimum of one |
| Upgrades.CheaperBuy | src/utils/upgrades.ts:47-50 | decrease_buy_cost: the new buy price is the floor of three quarters of the old one, or exactly one when that floor is below two; it never rises, and nothing else changes |
| Upgrades.CheaperUpgrade | src/utils/upgrades.ts:56-59 | decrease_upgrade_cost: the new upgrade price is the floor of three quarters of the old one, or exactly one when that floor is below two; it never rises, and nothing else changes |
| Upgrades.Apply | src/utils/upgrades.ts:5-60 | `upgrade.apply(state)`, dispatching on the upgrade's identity; no contract of its own: ApplyPreserves and ApplyGrows state what it does |
| Upgrades.ApplyPreserves | src/utils/upgrades.ts:5-60 | every upgrade keeps the dice valid and the prices positive, never removes a die and changes only the dice and prices |
| Upgrades.ApplyGrows | src/utils/upgrades.ts:5-60 | no upgrade removes a die, and only the dice and prices change |
| LegacyUpgrades.ExtraTwo | src/utils/upgrades.js:8-11 | extra_dice appends two level-1 dice showing 1 to 6 and changes nothing else |
| LegacyUpgrades.ToMax | src/utils/upgrades.js:17-27 | upgrade_to_max as a function of the state; no contract of its own: ToMaxSpec and ToMaxFinishes state what it does |
| LegacyUpgrades.ToMaxSpec | src/utils/upgrades.js:17-27 | upgrade_to_max sets exactly the first two upgradable dice to level 4 with a face from 1 to 20; every other die and field is unchanged |
| LegacyUpgrades.ToMaxFinishes | src/utils/upgrades.js:19-25 | with at most two upgradable dice, none is left upgradable afterwards |
| LegacyUpgrades.LegacyApply | src/utils/upgrades.js:3-42 | `upgrade.apply(state)` of the earlier catalog; no contract of its own: LegacyApplyKeepsDice states what it does |
| LegacyUpgrades.LegacyApplyKeepsDice | src/utils/upgrades.js:3-42 | every earlier upgrade keeps each die at a level in [1, 4] with a face its level can roll, never removes a die and changes only the dice |
| UpgradeSelection.Copies | src/utils/selectUpgrades.ts:5 | `Array(rarity).fill(upgrade)`: rarity copies of the upgrade |
| UpgradeSelection.Selected | src/utils/selectUpgrades.ts:3-15 | what `selectUpgrades(catalog, count)` returns for the given draws; no contract of its own: SelectedLength, SelectedFromCatalog and CatalogOffers state what it is |
| UpgradeSelection.SelectUpgrades | src/utils/selectUpgrades.ts:3-15 | the loop returns exactly the weighted draw without replacement, `Selected`; `count` defaults to 3 |
| UpgradeSelection.WeightedLength | src/utils/selectUpgrades.ts:4-6 | the weighted pool holds as many entries as the rarities add up to |
| UpgradeSelection.WeightedCount | src/utils/selectUpgrades.ts:4-6 | an upgrade listed once in the catalog appears `rarity` times in the pool, and one not listed does not appear |
| UpgradeSelection.SpliceCount | src/utils/selectUpgrades.ts:11 | a splice removes exactly one copy of the picked entry |
| UpgradeSelection.Drawn | src/utils/selectUpgrades.ts:9-12 | the remaining picks of the draw loop from a given pool; no contract of its own: DrawnLength and DrawnFromPool state what it is |
| UpgradeSelection.DrawnLength | src/utils/selectUpgrades.ts:9-12 | the draw stops after `need` picks or when the pool runs out; nothing is drawn when `need` <= 0 |
| UpgradeSelection.DrawnFromPool | src/utils/selectUpgrades.ts:9-12 | no upgrade is drawn more often than it appears in the pool |
| UpgradeSelection.SelectedLength | src/utils/selectUpgrades.ts:3-12 | the result has min(count, total rarity) offers, none when count <= 0 |
| UpgradeSelection.SelectedFromCatalog | src/utils/selectUpgrades.ts:4-11 | every offer comes from the catalog, and an upgrade listed once is offered at most `rarity` times |
| UpgradeSelection.CatalogRarity | src/utils/upgrades.ts:9-54 | the catalog's rarities add up to six, reset_to_level_1 counting twice |
| UpgradeSelection.WeightedCatalog | src/utils/upgrades.ts:9-54 | the catalog's weighted pool lists reset_to_level_1 twice and every other upgrade once, in order |
| UpgradeSelection.CatalogOffers | src/GameEngine.ts:165 | `selectUpgrades(upgrades, 3)` always offers three upgrades from the catalog |
| UpgradeSelection.DuplicateOffers | src/utils/selectUpgrades.ts:9-12 | the draw can offer reset_to_level_1 twice in one selection |
| Combos.IndexOf | src/data/combos.js:2 | `indexOf`: the first position of the value, or -1 exactly when it is absent |
| Combos.PairTest | src/data/combos.js:2 | the Pair test as written, through `indexOf`; no contract of its own: PairIffRepeat and NoPairIffDistinct state what it means |
| Combos.PairIffRepeat | src/data/combos.js:2 | Pair holds exactly when two different dice show the same face |
| Combos.NoPairIffDistinct | src/data/combos.js:2 | there is no Pair exactly when the faces are as many distinct values as dice |
| Combos.DistinctIffElems | src/data/combos.js:6-7 | the `Set` is as large as the list exactly when the faces are pairwise different |
| Combos.CountIsMultiplicity | src/data/combos.js:3 | the `filter` count of a value is its multiplicity |
| Combos.TripleTest | src/data/combos.js:3 | the Triple test as written, through `filter`; no contract of its own: TripleIffThreeOfAKind states what it means |
| Combos.TripleIffThreeOfAKind | src/data/combos.js:3 | Triple holds exactly when some value shows exactly three times |
| Combos.FourOfAKindIsNoTriple | src/data/combos.js:3 | four of a kind alone, of any face, is no Triple |
| Combos.TripleIsPair | src/data/combos.js:2-3 | every Triple is a Pair |
| Combos.StraightTest | src/data/combos.js:5-8 | the Straight test as written, through `Set`, `Math.max` and `Math.min`; no contract of its own: StraightIffRun states what it means |
| Combos.StraightIffRun | src/data/combos.js:5-8 | Straight holds exactly when the faces are non-empty, pairwise different and fill the consecutive values from the lowest |
| Combos.StraightHasNoPair | src/data/combos.js:2-8 | a Straight never holds a Pair |
| Combos.SingleIsStraight | src/data/combos.js:5-8 | a single face is a Straight |
| Combos.TestsIgnoreOrder | src/data/combos.js:2-8 | each test depends only on which faces show and how often, not on their order |

## Left out

- Rendering, the React components, the dispatch hook and the two
  `console.log` calls of the reducer are not modelled. They hold no game
  logic.
- `roll` is not part of this model, and neither is `Math.random`. Both are
  the draw oracle described above.
- `roll()` without sides is taken to roll six sides, so a level outside the
  ladder rolls six sides.
- The draw indices each call consumes are a modelling choice. Real draws
  are independent.
- Rules.Required: `Math.pow` and `Math.ceil` on doubles are computed
  exactly, with integers. Doubles give the same results as far as
  15 * 1.5^(cp - 1) is exact in a double.
- Points, prices and the `cost * 0.75` of the discounts are JavaScript
  doubles in the source, exact only up to 2^53. The model uses unbounded
  integers for them, which agree with the doubles below that bound.
- Rules.RequiredMonotone: monotonicity is proved only for checkpoints from
  one on. A game never has a lower checkpoint.
- The `./constants/game` and `./constants/colors` modules are not part of
  this model. Their values are taken from the earlier engine: 5 rounds,
  15 starting points, growth 1.5, buy cost 10, and its eight colours.
- The `apply` closures are not modelled as first-class functions. The
  catalog lists upgrade identities, and `Apply` and `LegacyApply` dispatch
  on them.
- Rarities are natural numbers in the typed catalog and
  `Common`/`Uncommon` labels in the earlier one. The earlier engine never
  samples its catalog, so the labels carry no weight.
- The optional `shopAvailable`, `gameOver` and `availableUpgrades` fields
  are modelled as present. The flags are false and the list is empty where
  the source leaves them out.
- Object identity of dice is modelled by index. Selecting a die by
  reference equals selecting it by position, since every die is a fresh
  object.
- Face values are natural numbers. `roll` never yields less than one, so
  the ordering of non-integer keys in `Object.values` does not arise.
- Engine.HighlightsOf: its contract states only that highlights fall on
  existing dice. What they are is stated by
  Scoring.HighlightedIffRepeated, Scoring.SameFaceSameColour and
  Scoring.SameColourIffSameFace.
- Scoring.SameColourIffSameFace: stated for rolls with at most eight
  groups. With more, the palette cycles and different groups can share a
  colour.
- UpgradeSelection.SelectedFromCatalog: the bound of `rarity` offers is
  stated for upgrades listed once in the catalog. An upgrade listed several
  times could be offered up to the sum of its rarities.
- Engine.FinishRoll: a lost game only sets `gameOver`; the typed engine
  never enters the `LOSE` phase, and neither does the model.
