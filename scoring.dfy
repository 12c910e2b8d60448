/** The scoring engine: analyseRoll turns the faces showing on the dice into a
    base sum, a multiplier (the product of the sizes of the duplicate groups)
    and a highlight colour for every die of a duplicate group. */
module Scoring {

  /** The highlight palette, handed out cyclically to the duplicate groups. */
  const GroupColours: seq<string> :=
    ["#22c55e", "#f59e0b", "#0ea5e9", "#e879f9", "#f87171", "#10b981", "#8b5cf6", "#facc15"]

  datatype Analysis = Analysis(base: nat, multiplier: nat, total: nat, highlights: map<nat, string>)

  /** Sum of the faces, folded from the left as `reduce` does. */
  function Sum(s: seq<nat>): nat
  {
    if s == [] then 0 else Sum(s[..|s| - 1]) + s[|s| - 1]
  }

  /** The indices at which face v shows, in ascending order: the `freq[v]` list. */
  function Positions(s: seq<nat>, v: nat): seq<nat>
  {
    if s == [] then [] else Positions(s[..|s| - 1], v) + (if s[|s| - 1] == v then [|s| - 1] else [])
  }

  /** Face v forms a duplicate group: it shows on at least two dice. */
  predicate IsGroup(s: seq<nat>, v: nat)
  {
    multiset(s)[v] >= 2
  }

  /** Number of duplicate groups whose face is below m. */
  function GroupsBelow(s: seq<nat>, m: nat): nat
  {
    if m == 0 then 0 else GroupsBelow(s, m - 1) + (if IsGroup(s, m - 1) then 1 else 0)
  }

  /** Product of the sizes of the duplicate groups whose face is below m. */
  function ProductBelow(s: seq<nat>, m: nat): nat
  {
    if m == 0 then 1
    else ProductBelow(s, m - 1) * (if IsGroup(s, m - 1) then multiset(s)[m - 1] else 1)
  }

  /** A face value above every face that shows. */
  function Bound(s: seq<nat>): (b: nat)
    ensures forall i :: 0 <= i < |s| ==> s[i] < b
  {
    if s == [] then 0
    else
      var b := Bound(s[1..]);
      assert forall i :: 1 <= i < |s| ==> s[i] == s[1..][i - 1];
      if s[0] < b then b else s[0] + 1
  }

  /** The multiplier: the product of the sizes of all duplicate groups. */
  function Multiplier(s: seq<nat>): nat
  {
    ProductBelow(s, Bound(s))
  }

  /** The number of duplicate groups. */
  function GroupCount(s: seq<nat>): nat
  {
    GroupsBelow(s, Bound(s))
  }

  /** Groups are coloured in ascending face order, cycling through the palette. */
  function Colour(s: seq<nat>, v: nat): string
  {
    GroupColours[GroupsBelow(s, v) % |GroupColours|]
  }

  /** The highlights of the groups whose face is below m. */
  function HighlightsBelow(s: seq<nat>, m: nat): map<nat, string>
  {
    map i: nat | i < |s| && s[i] < m && IsGroup(s, s[i]) :: Colour(s, s[i])
  }

  /** Every die of a duplicate group, mapped to its group's colour. */
  function Highlights(s: seq<nat>): map<nat, string>
  {
    map i: nat | i < |s| && IsGroup(s, s[i]) :: Colour(s, s[i])
  }

  /** What analyseRoll returns, as a function of the faces. */
  function Analyse(s: seq<nat>): Analysis
  {
    Analysis(Sum(s), Multiplier(s), Sum(s) * Multiplier(s), Highlights(s))
  }

  /** The least element of a non-empty finite set of faces. */
  ghost function Least(ks: set<nat>): (m: nat)
    requires ks != {}
    ensures m in ks && forall k :: k in ks ==> m <= k
  {
    var x :| x in ks;
    if ks == {x} then
      assert forall k :: k in ks ==> k == x;
      x
    else
      var m := Least(ks - {x});
      assert forall k :: k in ks ==> k == x || k in ks - {x};
      if x < m then x else m
  }

  /** The list of v's positions has one entry per die showing v. */
  lemma {:induction false} PositionsCount(s: seq<nat>, v: nat)
    ensures |Positions(s, v)| == multiset(s)[v]
  {
    if s != [] {
      var init := s[..|s| - 1];
      assert s == init + [s[|s| - 1]];
      PositionsCount(init, v);
    }
  }

  /** The list of v's positions holds exactly the indices showing v, in
      ascending order, one per die showing v. */
  lemma {:induction false} PositionsSpec(s: seq<nat>, v: nat)
    ensures |Positions(s, v)| == multiset(s)[v]
    ensures forall k :: 0 <= k < |Positions(s, v)| ==> Positions(s, v)[k] < |s| && s[Positions(s, v)[k]] == v
    ensures forall i :: 0 <= i < |s| && s[i] == v ==> i in Positions(s, v)
    ensures forall k, l :: 0 <= k < l < |Positions(s, v)| ==> Positions(s, v)[k] < Positions(s, v)[l]
  {
    if s != [] {
      var init := s[..|s| - 1];
      assert s == init + [s[|s| - 1]];
      PositionsSpec(init, v);
      PositionsCount(s, v);
    }
  }

  lemma PositionsSnoc(s: seq<nat>, v: nat, w: nat)
    ensures Positions(s + [v], w) == Positions(s, w) + (if w == v then [|s|] else [])
  {
    assert (s + [v])[..|s|] == s;
  }

  /** Faces in [lo, hi) form no group, so nothing changes between lo and hi. */
  lemma {:induction false} SkipNonGroups(s: seq<nat>, lo: nat, hi: nat)
    requires lo <= hi
    requires forall v :: lo <= v < hi ==> !IsGroup(s, v)
    ensures ProductBelow(s, hi) == ProductBelow(s, lo)
    ensures GroupsBelow(s, hi) == GroupsBelow(s, lo)
  {
    if hi > lo {
      SkipNonGroups(s, lo, hi - 1);
    }
  }

  /** Once every face is below b, the partial results are the whole results. */
  lemma Settled(s: seq<nat>, b: nat)
    requires forall i :: 0 <= i < |s| ==> s[i] < b
    ensures ProductBelow(s, b) == Multiplier(s)
    ensures HighlightsBelow(s, b) == Highlights(s)
  {
    var top := Bound(s);
    if b <= top {
      forall v | b <= v < top ensures !IsGroup(s, v) {
        assert v !in s;
      }
      SkipNonGroups(s, b, top);
    } else {
      forall v | top <= v < b ensures !IsGroup(s, v) {
        assert v !in s;
      }
      SkipNonGroups(s, top, b);
    }
  }

  /** The three cases of one step of the walk over the groups, from faces
      below b to faces below k + 1, when no face in [b, k) shows. */
  lemma WalkStep(s: seq<nat>, b: nat, k: nat)
    requires b <= k
    requires forall v :: b <= v < k ==> v !in s
    ensures ProductBelow(s, k + 1) == ProductBelow(s, b) * (if IsGroup(s, k) then multiset(s)[k] else 1)
    ensures GroupsBelow(s, k + 1) == GroupsBelow(s, b) + (if IsGroup(s, k) then 1 else 0)
    ensures GroupsBelow(s, k) == GroupsBelow(s, b)
    ensures HighlightsBelow(s, k + 1) ==
      HighlightsBelow(s, b) + (if IsGroup(s, k) then map p | p in Positions(s, k) :: Colour(s, k) else map[])
  {
    forall v | b <= v < k ensures !IsGroup(s, v) {
      assert v !in s;
      assert v !in multiset(s);
    }
    SkipNonGroups(s, b, k);
    PositionsSpec(s, k);
    var lhs := HighlightsBelow(s, k + 1);
    var rhs := HighlightsBelow(s, b) + (if IsGroup(s, k) then map p | p in Positions(s, k) :: Colour(s, k) else map[]);
    forall p | p in lhs ensures p in rhs {
      assert s[p] in s;
    }
    assert lhs.Keys == rhs.Keys;
  }

  /** One step of the walk, stated on the frequency table's entry for k. */
  lemma WalkStepFreq(s: seq<nat>, b: nat, k: nat)
    requires b <= k && k in s
    requires forall v :: b <= v < k ==> v !in s
    ensures k in FreqOf(s)
    ensures var idx := FreqOf(s)[k];
      && (IsGroup(s, k) <==> |idx| >= 2)
      && GroupsBelow(s, k) == GroupsBelow(s, b)
      && ProductBelow(s, k + 1) == ProductBelow(s, b) * (if |idx| >= 2 then |idx| else 1)
      && GroupsBelow(s, k + 1) == GroupsBelow(s, b) + (if |idx| >= 2 then 1 else 0)
      && HighlightsBelow(s, k + 1) ==
           if |idx| >= 2 then Painted(HighlightsBelow(s, b), idx, GroupColours[GroupsBelow(s, b) % |GroupColours|])
           else HighlightsBelow(s, b)
  {
    FreqOfSpec(s, k);
    PositionsCount(s, k);
    WalkStep(s, b, k);
  }

  /** The frequency table after the first |s| dice have been entered. */
  function FreqOf(s: seq<nat>): map<nat, seq<nat>>
  {
    if s == [] then map[]
    else
      var f := FreqOf(s[..|s| - 1]);
      var v := s[|s| - 1];
      f[v := (if v in f then f[v] else []) + [|s| - 1]]
  }

  /** The frequency table maps exactly the faces that show, each to its positions. */
  lemma {:induction false} FreqOfSpec(s: seq<nat>, w: nat)
    ensures w in FreqOf(s) <==> w in multiset(s)
    ensures w in FreqOf(s) ==> FreqOf(s)[w] == Positions(s, w)
  {
    if s != [] {
      var init := s[..|s| - 1];
      var v := s[|s| - 1];
      assert s == init + [v];
      assert multiset(s) == multiset(init) + multiset{v};
      FreqOfSpec(init, w);
      PositionsSnoc(init, v, w);
      if w == v && v !in FreqOf(init) {
        PositionsCount(init, v);
      }
    }
  }

  /** The `reduce` that adds up the faces. */
  method SumFaces(dice: seq<nat>) returns (base: nat)
    ensures base == Sum(dice)
  {
    base := 0;
    var i := 0;
    while i < |dice|
      invariant 0 <= i <= |dice|
      invariant base == Sum(dice[..i])
    {
      assert dice[..i + 1][..i] == dice[..i];
      base := base + dice[i];
      i := i + 1;
    }
    assert dice[..|dice|] == dice;
  }

  /** The frequency table: every face that shows, with the indices showing it. */
  method IndexFaces(dice: seq<nat>) returns (freq: map<nat, seq<nat>>)
    ensures freq == FreqOf(dice)
  {
    freq := map[];
    var i := 0;
    while i < |dice|
      invariant 0 <= i <= |dice|
      invariant freq == FreqOf(dice[..i])
    {
      var v := dice[i];
      assert dice[..i + 1][..i] == dice[..i];
      freq := freq[v := (if v in freq then freq[v] else []) + [i]];
      i := i + 1;
    }
    assert dice[..i] == dice;
  }

  /** The highlights h with every die at a position in xs painted c. */
  function Painted(h: map<nat, string>, xs: seq<nat>, c: string): map<nat, string>
  {
    h + map p | p in xs :: c
  }

  /** Painting one more die extends the painted set by that die. */
  lemma PaintSnoc(h: map<nat, string>, xs: seq<nat>, x: nat, c: string)
    ensures Painted(h, xs, c)[x := c] == Painted(h, xs + [x], c)
  {
    assert Painted(h, xs, c)[x := c].Keys == Painted(h, xs + [x], c).Keys;
  }

  /** Removing the least face from the unvisited keys moves the walk past it. */
  lemma KeysStep(keys: set<nat>, s: seq<nat>, b: nat, k: nat)
    requires forall v :: v in keys <==> v in s && v >= b
    requires k in keys && forall k' :: k' in keys ==> k <= k'
    ensures forall v :: v in keys - {k} <==> v in s && v >= k + 1
    ensures forall v :: b <= v < k ==> v !in s
  {
    forall v | b <= v < k ensures v !in s {
      assert v !in keys;
    }
  }

  /** Gives every index of one group the group's colour. */
  method PaintGroup(highlights: map<nat, string>, idxArr: seq<nat>, c: string) returns (h: map<nat, string>)
    ensures h == Painted(highlights, idxArr, c)
  {
    h := highlights;
    var j := 0;
    while j < |idxArr|
      invariant 0 <= j <= |idxArr|
      invariant h == Painted(highlights, idxArr[..j], c)
    {
      assert idxArr[..j + 1] == idxArr[..j] + [idxArr[j]];
      PaintSnoc(highlights, idxArr[..j], idxArr[j], c);
      h := h[idxArr[j] := c];
      j := j + 1;
    }
    assert idxArr[..j] == idxArr;
  }

  /** Walks the frequency table in ascending face order (the order in which
      integer keys are listed), multiplying in the size of every group and
      painting its dice with the next colour of the palette. */
  method ScoreGroups(dice: seq<nat>, freq: map<nat, seq<nat>>) returns (multiplier: nat, highlights: map<nat, string>)
    requires freq == FreqOf(dice)
    ensures multiplier == Multiplier(dice)
    ensures highlights == Highlights(dice)
  {
    multiplier := 1;
    highlights := map[];
    var colour := 0;
    var keys := freq.Keys;
    forall v ensures v in keys <==> v in dice {
      FreqOfSpec(dice, v);
    }
    ghost var b: nat := 0;
    while keys != {}
      invariant forall v :: v in keys <==> v in dice && v >= b
      invariant multiplier == ProductBelow(dice, b)
      invariant colour == GroupsBelow(dice, b)
      invariant highlights == HighlightsBelow(dice, b)
      decreases keys
    {
      ghost var least := Least(keys);
      var k :| k in keys && forall k' :: k' in keys ==> k <= k';
      KeysStep(keys, dice, b, k);
      WalkStepFreq(dice, b, k);
      var idxArr := freq[k];
      if |idxArr| >= 2 {
        multiplier := multiplier * |idxArr|;
        var c := GroupColours[colour % |GroupColours|];
        colour := colour + 1;
        highlights := PaintGroup(highlights, idxArr, c);
      }
      keys := keys - {k};
      b := k + 1;
    }
    forall p | 0 <= p < |dice| ensures dice[p] < b {
      assert dice[p] in dice;
    }
    Settled(dice, b);
  }

  /** analyseRoll: the base is the sum of the faces, the multiplier the
      product of the group sizes, the total their product, and the dice of
      each group share that group's colour. */
  method AnalyseRoll(dice: seq<nat>) returns (r: Analysis)
    ensures r == Analyse(dice)
  {
    var base := SumFaces(dice);
    var freq := IndexFaces(dice);
    var multiplier, highlights := ScoreGroups(dice, freq);
    r := Analysis(base, multiplier, base * multiplier, highlights);
  }

  // Properties of the analysis.

  /** Two dice showing the same face make that face a duplicate group. */
  lemma RepeatIsGroup(s: seq<nat>, i: nat, j: nat)
    requires i < j < |s| && s[i] == s[j]
    ensures IsGroup(s, s[i])
  {
    assert s == s[..i] + [s[i]] + s[i + 1..j] + [s[j]] + s[j + 1..];
  }

  /** A duplicate group shows on two distinct dice. */
  lemma GroupHasRepeat(s: seq<nat>, v: nat)
    requires IsGroup(s, v)
    ensures exists i, j :: 0 <= i < j < |s| && s[i] == v && s[j] == v
  {
    PositionsSpec(s, v);
    var p := Positions(s, v);
    assert s[p[0]] == v && s[p[1]] == v && p[0] < p[1];
  }

  lemma MulAtLeast(a: nat, f: nat)
    requires f >= 1
    ensures a * f >= a
  {
    assert a * f == a * (f - 1) + a;
  }

  /** The partial products are at least one and grow with the bound. */
  lemma {:induction false} ProductBelowGrows(s: seq<nat>, lo: nat, hi: nat)
    requires lo <= hi
    ensures 1 <= ProductBelow(s, lo) <= ProductBelow(s, hi)
    decreases hi
  {
    if hi == 0 {
    } else if hi == lo {
      ProductBelowGrows(s, lo - 1, hi - 1);
      var f := if IsGroup(s, hi - 1) then multiset(s)[hi - 1] else 1;
      MulAtLeast(ProductBelow(s, hi - 1), f);
    } else {
      ProductBelowGrows(s, lo, hi - 1);
      var f := if IsGroup(s, hi - 1) then multiset(s)[hi - 1] else 1;
      MulAtLeast(ProductBelow(s, hi - 1), f);
    }
  }

  /** The group counts grow with the bound, by one at every group. */
  lemma {:induction false} GroupsBelowGrows(s: seq<nat>, lo: nat, hi: nat)
    requires lo <= hi
    ensures GroupsBelow(s, lo) <= GroupsBelow(s, hi)
    ensures lo < hi && IsGroup(s, lo) ==> GroupsBelow(s, lo) < GroupsBelow(s, hi)
    decreases hi - lo
  {
    if lo < hi {
      GroupsBelowGrows(s, lo, hi - 1);
      if hi - 1 > lo {
        GroupsBelowGrows(s, lo + 1, hi - 1);
        assert GroupsBelow(s, lo + 1) <= GroupsBelow(s, hi - 1);
      }
    }
  }

  /** The multiplier is never below one. */
  lemma MultiplierAtLeastOne(s: seq<nat>)
    ensures Analyse(s).multiplier >= 1
    ensures Analyse(s).total == Analyse(s).base * Analyse(s).multiplier
  {
    ProductBelowGrows(s, Bound(s), Bound(s));
  }

  /** The multiplier is exactly one when, and only when, all faces differ. */
  lemma MultiplierOneIffDistinct(s: seq<nat>)
    ensures Analyse(s).multiplier == 1 <==> forall i, j :: 0 <= i < j < |s| ==> s[i] != s[j]
  {
    if forall i, j :: 0 <= i < j < |s| ==> s[i] != s[j] {
      DistinctMultiplier(s);
    } else {
      var i, j :| 0 <= i < j < |s| && s[i] == s[j];
      RepeatMultiplier(s, i, j);
    }
  }

  /** Without a repeated face no group multiplies the score. */
  lemma DistinctMultiplier(s: seq<nat>)
    requires forall i, j :: 0 <= i < j < |s| ==> s[i] != s[j]
    ensures Multiplier(s) == 1
  {
    forall v | 0 <= v < Bound(s) ensures !IsGroup(s, v) {
      if IsGroup(s, v) {
        GroupHasRepeat(s, v);
      }
    }
    SkipNonGroups(s, 0, Bound(s));
  }

  /** A repeated face at least doubles the score. */
  lemma RepeatMultiplier(s: seq<nat>, i: nat, j: nat)
    requires i < j < |s| && s[i] == s[j]
    ensures Multiplier(s) >= 2
  {
    var v := s[i];
    RepeatIsGroup(s, i, j);
    ProductBelowGrows(s, 0, v);
    ProductBelowGrows(s, v + 1, Bound(s));
    var p, m := ProductBelow(s, v), multiset(s)[v];
    assert ProductBelow(s, v + 1) == p * m;
    MulAtLeast(m, p);
    assert p * m >= m >= 2;
  }

  /** A die is highlighted exactly when another die shows the same face. */
  lemma HighlightedIffRepeated(s: seq<nat>, i: nat)
    ensures i in Analyse(s).highlights <==> i < |s| && exists j :: 0 <= j < |s| && j != i && s[j] == s[i]
  {
    if i < |s| {
      if IsGroup(s, s[i]) {
        PositionsSpec(s, s[i]);
        var p := Positions(s, s[i]);
        var j := if p[0] == i then p[1] else p[0];
        assert j != i && s[j] == s[i];
      }
      if j :| 0 <= j < |s| && j != i && s[j] == s[i] {
        if i < j { RepeatIsGroup(s, i, j); } else { RepeatIsGroup(s, j, i); }
      }
    }
  }

  /** The palette holds distinct colours. */
  lemma PaletteDistinct(a: nat, b: nat)
    requires a < b < |GroupColours|
    ensures GroupColours[a] != GroupColours[b]
  {
    assert GroupColours[a][1..3] != GroupColours[b][1..3] || GroupColours[a][3..] != GroupColours[b][3..];
  }

  lemma ModSmall(a: nat, n: nat)
    requires a < n
    ensures a % n == a
  {
  }

  /** The colour of a highlighted die is its group's colour. */
  lemma HighlightColour(s: seq<nat>, i: nat)
    requires i in Highlights(s)
    ensures i < |s| && IsGroup(s, s[i])
    ensures Highlights(s)[i] == GroupColours[GroupsBelow(s, s[i]) % |GroupColours|]
  {
  }

  /** Dice showing the same face are painted the same colour, however many
      groups there are. */
  lemma SameFaceSameColour(s: seq<nat>, i: nat, j: nat)
    requires i in Analyse(s).highlights && j in Analyse(s).highlights
    requires s[i] == s[j]
    ensures Analyse(s).highlights[i] == Analyse(s).highlights[j]
  {
    HighlightColour(s, i);
    HighlightColour(s, j);
  }

  /** Groups are ranked below the number of groups. */
  lemma GroupRankBelowCount(s: seq<nat>, i: nat)
    requires i < |s| && IsGroup(s, s[i])
    ensures GroupsBelow(s, s[i]) < GroupCount(s)
  {
    GroupsBelowGrows(s, s[i], Bound(s));
  }

  /** While there are no more groups than colours, two highlighted dice share
      a colour exactly when they show the same face. */
  lemma SameColourIffSameFace(s: seq<nat>, i: nat, j: nat)
    requires i in Analyse(s).highlights && j in Analyse(s).highlights
    requires GroupCount(s) <= |GroupColours|
    ensures Analyse(s).highlights[i] == Analyse(s).highlights[j] <==> s[i] == s[j]
  {
    HighlightColour(s, i);
    HighlightColour(s, j);
    GroupRankBelowCount(s, i);
    GroupRankBelowCount(s, j);
    var ri, rj := GroupsBelow(s, s[i]), GroupsBelow(s, s[j]);
    assert Analyse(s).highlights == Highlights(s);
    ModSmall(ri, |GroupColours|);
    ModSmall(rj, |GroupColours|);
    if s[i] < s[j] {
      GroupsBelowGrows(s, s[i], s[j]);
      PaletteDistinct(ri, rj);
    } else if s[j] < s[i] {
      GroupsBelowGrows(s, s[j], s[i]);
      PaletteDistinct(rj, ri);
    }
  }
}
