/** The scoring combinations of the earlier game: a pair, a triple and a
    straight, each a test over the list of faces shown and a fixed number of
    points. */
module Combos {

  datatype Kind = Pair | Triple | Straight

  /** A combination: its display name, its points and which test it uses. */
  datatype Combo = Combo(name: string, points: nat, kind: Kind)

  const PairPoints: nat := 5
  const TriplePoints: nat := 10
  const StraightPoints: nat := 15

  const Combos: seq<Combo> := [
    Combo("Pair", PairPoints, Pair),
    Combo("Triple", TriplePoints, Triple),
    Combo("Straight", StraightPoints, Straight)
  ]

  /** The test of a combination on a list of faces. */
  predicate Test(c: Combo, faces: seq<int>)
  {
    match c.kind
    case Pair => PairTest(faces)
    case Triple => TripleTest(faces)
    case Straight => StraightTest(faces)
  }

  /** `faces.indexOf(v)`: the first position showing v, or -1 when no face
      shows it. */
  function IndexOf(faces: seq<int>, v: int): (i: int)
    ensures -1 <= i < |faces|
    ensures i == -1 <==> v !in faces
    ensures 0 <= i ==> faces[i] == v && forall j :: 0 <= j < i ==> faces[j] != v
  {
    if |faces| == 0 then -1
    else if faces[0] == v then 0
    else
      var k := IndexOf(faces[1..], v);
      if k == -1 then -1 else k + 1
  }

  /** Pair: some face is not the first occurrence of its value. */
  predicate PairTest(faces: seq<int>)
  {
    exists i :: 0 <= i < |faces| && IndexOf(faces, faces[i]) != i
  }

  /** `faces.filter(x => x === v).length`. */
  function Count(faces: seq<int>, v: int): nat
  {
    if |faces| == 0 then 0
    else (if faces[0] == v then 1 else 0) + Count(faces[1..], v)
  }

  /** Triple: some face's value is shown exactly three times. */
  predicate TripleTest(faces: seq<int>)
  {
    exists i :: 0 <= i < |faces| && Count(faces, faces[i]) == 3
  }

  /** The distinct values shown: `new Set(faces)`. */
  function Elems(faces: seq<int>): set<int>
  {
    set x | x in faces
  }

  /** `Math.max(...faces)` of a non-empty list. */
  function Max(faces: seq<int>): int
    requires |faces| > 0
  {
    if |faces| == 1 then faces[0]
    else
      var m := Max(faces[1..]);
      if faces[0] > m then faces[0] else m
  }

  /** `Math.min(...faces)` of a non-empty list. */
  function Min(faces: seq<int>): int
    requires |faces| > 0
  {
    if |faces| == 1 then faces[0]
    else
      var m := Min(faces[1..]);
      if faces[0] < m then faces[0] else m
  }

  /** Straight: the faces are all different and span exactly as many
      consecutive values as there are faces. An empty list is no straight:
      there `Math.max()` is minus infinity and `Math.min()` plus infinity,
      so the span test fails. */
  predicate StraightTest(faces: seq<int>)
  {
    |faces| > 0 && |Elems(faces)| == |faces| && Max(faces) - Min(faces) == |faces| - 1
  }

  /** The whole numbers from lo up to, not including, hi. */
  function Interval(lo: int, hi: int): set<int>
    decreases hi - lo
  {
    if hi <= lo then {} else Interval(lo, hi - 1) + {hi - 1}
  }

  // ----- Pair -----

  /** A pair is shown exactly when two different dice show the same value. */
  lemma PairIffRepeat(faces: seq<int>)
    ensures PairTest(faces) <==> exists i, j :: 0 <= i < j < |faces| && faces[i] == faces[j]
  {
    if PairTest(faces) {
      var j :| 0 <= j < |faces| && IndexOf(faces, faces[j]) != j;
      var i := IndexOf(faces, faces[j]);
      assert 0 <= i < j && faces[i] == faces[j];
    }
    if exists i, j :: 0 <= i < j < |faces| && faces[i] == faces[j] {
      var i, j :| 0 <= i < j < |faces| && faces[i] == faces[j];
      assert IndexOf(faces, faces[j]) <= i;
    }
  }

  /** The faces are pairwise different exactly when there are as many
      distinct values as faces. */
  lemma {:induction false} DistinctIffElems(faces: seq<int>)
    ensures |Elems(faces)| <= |faces|
    ensures |Elems(faces)| == |faces| <==> forall i, j :: 0 <= i < j < |faces| ==> faces[i] != faces[j]
  {
    if |faces| > 0 {
      var rest := faces[1..];
      DistinctIffElems(rest);
      assert Elems(faces) == {faces[0]} + Elems(rest);
      if faces[0] in rest {
        assert Elems(faces) == Elems(rest);
        var k :| 0 <= k < |rest| && rest[k] == faces[0];
        assert faces[0] == faces[k + 1];
      } else {
        assert |Elems(faces)| == |Elems(rest)| + 1;
        if forall i, j :: 0 <= i < j < |rest| ==> rest[i] != rest[j] {
          forall i, j | 0 <= i < j < |faces| ensures faces[i] != faces[j] {
            if i == 0 {
              assert faces[j] == rest[j - 1];
            } else {
              assert faces[i] == rest[i - 1] && faces[j] == rest[j - 1];
            }
          }
        } else {
          var i, j :| 0 <= i < j < |rest| && rest[i] == rest[j];
          assert faces[i + 1] == faces[j + 1];
        }
      }
    }
  }

  /** The faces show no pair exactly when all their values are distinct. */
  lemma NoPairIffDistinct(faces: seq<int>)
    ensures !PairTest(faces) <==> |Elems(faces)| == |faces|
  {
    PairIffRepeat(faces);
    DistinctIffElems(faces);
  }

  // ----- Triple -----

  /** Count agrees with the multiset of the faces. */
  lemma {:induction false} CountIsMultiplicity(faces: seq<int>, v: int)
    ensures Count(faces, v) == multiset(faces)[v]
  {
    if |faces| > 0 {
      CountIsMultiplicity(faces[1..], v);
      assert faces == [faces[0]] + faces[1..];
      assert multiset(faces) == multiset{faces[0]} + multiset(faces[1..]);
    }
  }

  /** A triple is shown exactly when some value is shown exactly three times. */
  lemma TripleIffThreeOfAKind(faces: seq<int>)
    ensures TripleTest(faces) <==> exists v :: Count(faces, v) == 3
  {
    if exists v :: Count(faces, v) == 3 {
      var v :| Count(faces, v) == 3;
      CountIsMultiplicity(faces, v);
      assert v in multiset(faces);
      var i :| 0 <= i < |faces| && faces[i] == v;
      assert Count(faces, faces[i]) == 3;
    }
  }

  /** Four of a kind alone, of any face, is no triple. */
  lemma FourOfAKindIsNoTriple(v: int)
    ensures !TripleTest([v, v, v, v])
  {
    var faces := [v, v, v, v];
    CountIsMultiplicity(faces, v);
    assert multiset(faces)[v] == 4;
    forall i | 0 <= i < |faces| ensures Count(faces, faces[i]) != 3 {
      assert faces[i] == v;
    }
  }

  /** A value shown twice or more is a repeat: two different dice show it. */
  lemma {:induction false} CountTwoRepeats(faces: seq<int>, v: int)
    requires Count(faces, v) >= 2
    ensures exists i, j :: 0 <= i < j < |faces| && faces[i] == faces[j]
  {
    var rest := faces[1..];
    if faces[0] == v {
      assert Count(rest, v) >= 1;
      CountIsMultiplicity(rest, v);
      var k :| 0 <= k < |rest| && rest[k] == v;
      assert faces[0] == faces[k + 1];
    } else {
      CountTwoRepeats(rest, v);
      var i, j :| 0 <= i < j < |rest| && rest[i] == rest[j];
      assert faces[i + 1] == faces[j + 1];
    }
  }

  /** Every triple is also a pair. */
  lemma TripleIsPair(faces: seq<int>)
    requires TripleTest(faces)
    ensures PairTest(faces)
  {
    var i :| 0 <= i < |faces| && Count(faces, faces[i]) == 3;
    CountTwoRepeats(faces, faces[i]);
    PairIffRepeat(faces);
  }

  // ----- Straight -----

  lemma {:induction false} MaxSpec(faces: seq<int>)
    requires |faces| > 0
    ensures Max(faces) in faces && forall k :: 0 <= k < |faces| ==> faces[k] <= Max(faces)
  {
    if |faces| > 1 {
      MaxSpec(faces[1..]);
      forall k | 1 <= k < |faces| ensures faces[k] <= Max(faces) {
        assert faces[k] == faces[1..][k - 1];
      }
    }
  }

  lemma {:induction false} MinSpec(faces: seq<int>)
    requires |faces| > 0
    ensures Min(faces) in faces && forall k :: 0 <= k < |faces| ==> Min(faces) <= faces[k]
  {
    if |faces| > 1 {
      MinSpec(faces[1..]);
      forall k | 1 <= k < |faces| ensures Min(faces) <= faces[k] {
        assert faces[k] == faces[1..][k - 1];
      }
    }
  }

  lemma {:induction false} IntervalSize(lo: int, hi: int)
    requires lo <= hi
    ensures |Interval(lo, hi)| == hi - lo
    ensures forall x :: x in Interval(lo, hi) <==> lo <= x < hi
    decreases hi - lo
  {
    if lo < hi {
      IntervalSize(lo, hi - 1);
    }
  }

  /** A subset as large as the set it lies in is that set. */
  lemma {:induction false} FullSubset(a: set<int>, b: set<int>)
    requires a <= b && |a| == |b|
    ensures a == b
  {
    assert a + b == b && a * b == a && a - b == {};
    assert |b - a| == 0;
    assert b - a == {};
  }

  /** The faces are a straight exactly when they are a run: their values are
      the consecutive numbers from the lowest one, each shown once. */
  lemma StraightIffRun(faces: seq<int>)
    ensures StraightTest(faces) <==>
      |faces| > 0 && |Elems(faces)| == |faces| && Elems(faces) == Interval(Min(faces), Min(faces) + |faces|)
  {
    if StraightTest(faces) {
      StraightFillsInterval(faces);
    } else if |faces| > 0 && Elems(faces) == Interval(Min(faces), Min(faces) + |faces|) {
      RunSpan(faces);
    }
  }

  lemma RunSpan(faces: seq<int>)
    requires |faces| > 0 && Elems(faces) == Interval(Min(faces), Min(faces) + |faces|)
    ensures Max(faces) - Min(faces) == |faces| - 1
  {
    var lo, n := Min(faces), |faces|;
    MaxSpec(faces);
    IntervalSize(lo, lo + n);
    assert Max(faces) in Elems(faces);
    assert lo + n - 1 in Elems(faces);
    var k :| 0 <= k < n && faces[k] == lo + n - 1;
  }

  lemma StraightFillsInterval(faces: seq<int>)
    requires StraightTest(faces)
    ensures Elems(faces) == Interval(Min(faces), Min(faces) + |faces|)
  {
    var lo, n := Min(faces), |faces|;
    MaxSpec(faces);
    MinSpec(faces);
    IntervalSize(lo, lo + n);
    forall x | x in Elems(faces) ensures x in Interval(lo, lo + n) {
      var k :| 0 <= k < n && faces[k] == x;
    }
    FullSubset(Elems(faces), Interval(lo, lo + n));
  }

  /** A straight never holds a pair. */
  lemma StraightHasNoPair(faces: seq<int>)
    requires StraightTest(faces)
    ensures !PairTest(faces)
  {
    NoPairIffDistinct(faces);
  }

  /** One face on its own is a straight. */
  lemma SingleIsStraight(x: int)
    ensures StraightTest([x])
  {
    assert Elems([x]) == {x};
  }

  // ----- Order -----

  lemma SameElems(f: seq<int>, g: seq<int>)
    requires multiset(f) == multiset(g)
    ensures Elems(f) == Elems(g) && |f| == |g|
  {
    assert |f| == |multiset(f)|;
    forall x ensures x in f <==> x in g {
      assert x in f <==> x in multiset(f);
      assert x in g <==> x in multiset(g);
    }
  }

  lemma SameExtremes(f: seq<int>, g: seq<int>)
    requires |f| > 0 && Elems(f) == Elems(g)
    ensures |g| > 0 && Max(f) == Max(g) && Min(f) == Min(g)
  {
    assert f[0] in Elems(g);
    MaxSpec(f);
    MaxSpec(g);
    MinSpec(f);
    MinSpec(g);
    assert Max(f) in Elems(g) && Max(g) in Elems(f);
    assert Min(f) in Elems(g) && Min(g) in Elems(f);
  }

  /** Every test depends only on which faces are shown, not on their order. */
  lemma TestsIgnoreOrder(c: Combo, f: seq<int>, g: seq<int>)
    requires multiset(f) == multiset(g)
    ensures Test(c, f) <==> Test(c, g)
  {
    SameElems(f, g);
    match c.kind
    case Pair =>
      NoPairIffDistinct(f);
      NoPairIffDistinct(g);
    case Triple =>
      TripleIffThreeOfAKind(f);
      TripleIffThreeOfAKind(g);
      if exists v :: Count(f, v) == 3 {
        var v :| Count(f, v) == 3;
        CountIsMultiplicity(f, v);
        CountIsMultiplicity(g, v);
        assert Count(g, v) == 3;
      }
      if exists v :: Count(g, v) == 3 {
        var v :| Count(g, v) == 3;
        CountIsMultiplicity(f, v);
        CountIsMultiplicity(g, v);
        assert Count(f, v) == 3;
      }
    case Straight =>
      if |f| > 0 {
        SameExtremes(f, g);
      }
  }
}
