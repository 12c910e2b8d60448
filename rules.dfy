/** The fixed rules of the game: its constants, the point threshold of each
    checkpoint and how a die of a given level is rolled. */
module Rules {

  /** Rounds (scored rolls) per checkpoint. */
  const RollsPerCheck: int := 5
  /** Points required to pass the first checkpoint. */
  const StartCheckpointPoints: nat := 15
  const InitialBuyCost: int := 10
  const InitialUpgradeCost: int := 10
  /** Rerolls granted at the start of every round. */
  const RerollsPerRound: int := 2
  /** The highest level a die can reach: the length of the side ladders. */
  const MaxLevel: int := 4

  /** Sides of a die by level (index level - 1) when it is rerolled by a roll
      or at the end of a round. */
  const RollLadder: seq<nat> := [6, 8, 12, 20]
  /** Sides of a die by level when it is upgraded, and in the typed engine
      when a new checkpoint starts. */
  const UpgradeLadder: seq<nat> := [6, 8, 10, 20]

  function Pow(b: nat, n: nat): nat
  {
    if n == 0 then 1 else b * Pow(b, n - 1)
  }

  lemma {:induction false} PowPositive(b: nat, n: nat)
    requires b >= 1
    ensures Pow(b, n) >= 1
  {
    if n > 0 {
      PowPositive(b, n - 1);
      MulMonotone(b, 1, Pow(b, n - 1));
    }
  }

  lemma MulMonotone(a: nat, b: nat, c: nat)
    requires b <= c
    ensures a * b <= a * c
  {
  }

  /** Powers of 3 dominate powers of 2. */
  lemma {:induction false} PowThreeAtLeastTwo(n: nat)
    ensures Pow(2, n) <= Pow(3, n)
  {
    if n > 0 {
      PowThreeAtLeastTwo(n - 1);
      MulMonotone(2, Pow(2, n - 1), Pow(3, n - 1));
    }
  }

  /** The least q with a <= q * b: the ceiling of a / b. */
  function CeilDiv(a: nat, b: nat): (q: nat)
    requires b > 0
    ensures a <= q * b
    ensures q == 0 || (q - 1) * b < a
  {
    var q := (a + b - 1) / b;
    assert (a + b - 1) - b < q * b <= a + b - 1;
    q
  }

  /** requiredForCheckpoint: ceil(15 * 1.5^(cp - 1)), computed exactly. For
      cp >= 1 this is ceil(15 * 3^n / 2^n) with n = cp - 1; below 1 the
      growth factor is inverted. */
  function Required(cp: int): nat
  {
    if cp >= 1 then
      PowPositive(2, cp - 1);
      CeilDiv(StartCheckpointPoints * Pow(3, cp - 1), Pow(2, cp - 1))
    else
      PowPositive(3, 1 - cp);
      CeilDiv(StartCheckpointPoints * Pow(2, 1 - cp), Pow(3, 1 - cp))
  }

  /** For a checkpoint from one on, the threshold is the least whole number
      of points at or above 15 * (3/2)^(cp - 1). */
  lemma RequiredIsCeiling(cp: int)
    requires cp >= 1
    ensures var r := Required(cp);
      && r * Pow(2, cp - 1) >= StartCheckpointPoints * Pow(3, cp - 1)
      && (r - 1) * Pow(2, cp - 1) < StartCheckpointPoints * Pow(3, cp - 1)
  {
    PowPositive(2, cp - 1);
    PowPositive(3, cp - 1);
    var r := Required(cp);
    assert r >= 1 by {
      MulMonotone(StartCheckpointPoints, 1, Pow(3, cp - 1));
    }
  }

  /** The first two thresholds: 15 points, then 23 (the ceiling of 22.5). */
  lemma RequiredFirstTwo()
    ensures Required(1) == 15
    ensures Required(2) == 23
  {
    assert Pow(2, 1) == 2 && Pow(3, 1) == 3;
  }

  /** One ceiling step: if a >= 2b then ceil(3a / 2b) > ceil(a / b). */
  lemma CeilDivStep(a: nat, b: nat)
    requires b > 0 && a >= 2 * b
    ensures CeilDiv(3 * a, 2 * b) > CeilDiv(a, b)
  {
    var q, q' := CeilDiv(a, b), CeilDiv(3 * a, 2 * b);
    assert q >= 1;
    assert (q - 1) * b < a;
    assert q * b < a + b;
    assert q * (2 * b) == 2 * (q * b) < 3 * a <= q' * (2 * b);
    MulCancel(q, q', 2 * b);
  }

  lemma MulCancel(x: nat, y: nat, m: nat)
    requires x * m < y * m
    ensures x < y
  {
    if y <= x {
      MulMonotone(m, y, x);
    }
  }

  /** Each checkpoint asks for strictly more points than the one before. */
  lemma RequiredStep(cp: int)
    requires cp >= 1
    ensures Required(cp) < Required(cp + 1)
  {
    var n: nat := cp - 1;
    PowPositive(2, n);
    PowThreeAtLeastTwo(n);
    var a, b := StartCheckpointPoints * Pow(3, n), Pow(2, n);
    assert Pow(3, n + 1) == 3 * Pow(3, n) && Pow(2, n + 1) == 2 * Pow(2, n);
    assert StartCheckpointPoints * Pow(3, n + 1) == 3 * a;
    MulMonotone(StartCheckpointPoints, Pow(2, n), Pow(3, n));
    CeilDivStep(a, b);
  }

  /** requiredForCheckpoint never decreases along the checkpoints of a game. */
  lemma {:induction false} RequiredMonotone(lo: int, hi: int)
    requires 1 <= lo <= hi
    ensures Required(lo) <= Required(hi)
    decreases hi - lo
  {
    if lo < hi {
      RequiredStep(lo);
      RequiredMonotone(lo + 1, hi);
    }
  }

  /** roll(sides): the face shown for the raw random draw r. */
  function Roll(sides: nat, r: nat): (v: nat)
    requires sides > 0
    ensures 1 <= v <= sides
  {
    1 + r % sides
  }

  /** `Math.floor(Math.random() * n)` for the raw random draw r: an index below n. */
  function RandomIndex(r: nat, n: nat): (i: nat)
    requires n > 0
    ensures i < n
  {
    r % n
  }

  /** The sides rolled for a die of this level: the ladder entry, or the
      default of six sides when the lookup falls outside the ladder. */
  function Sides(ladder: seq<nat>, level: int): nat
  {
    if 1 <= level <= |ladder| then ladder[level - 1] else 6
  }

  /** Upgrading never gives a die more sides than a roll at the same level. */
  lemma UpgradeWithinRoll(level: int)
    ensures 1 <= Sides(UpgradeLadder, level) <= Sides(RollLadder, level) <= 20
  {
  }
}
