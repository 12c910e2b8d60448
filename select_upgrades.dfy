/** selectUpgrades: draws up to `count` offers from the catalog, each with a
    chance proportional to its rarity, by splicing entries out of a weighted
    copy of the catalog. The k-th draw `Math.floor(Math.random() * n)` is
    `pick(k) % n`. */
module UpgradeSelection {
  import opened Rules
  import opened State
  import opened Upgrades

  /** n copies of u: `Array(n).fill(u)`. */
  function Copies(u: Upgrade, n: nat): (c: seq<Upgrade>)
    ensures |c| == n && forall i :: 0 <= i < n ==> c[i] == u
  {
    seq(n, _ => u)
  }

  /** The weighted pool: every upgrade repeated `rarity` times, in catalog order. */
  function Weighted(catalog: seq<Upgrade>): seq<Upgrade>
  {
    if catalog == [] then [] else Copies(catalog[0], catalog[0].rarity) + Weighted(catalog[1..])
  }

  /** The sum of the rarities of the catalog. */
  function TotalRarity(catalog: seq<Upgrade>): nat
  {
    if catalog == [] then 0 else catalog[0].rarity + TotalRarity(catalog[1..])
  }

  /** The offers drawn from the pool when `need` more are wanted, the first
      of them being draw number k. */
  function Drawn(pool: seq<Upgrade>, need: int, pick: nat -> nat, k: nat): seq<Upgrade>
    decreases |pool|
  {
    if need <= 0 || pool == [] then []
    else
      var i := RandomIndex(pick(k), |pool|);
      [pool[i]] + Drawn(Splice(pool, i), need - 1, pick, k + 1)
  }

  /** The pool with entry i cut out: `splice(i, 1)`. */
  function Splice(pool: seq<Upgrade>, i: nat): (r: seq<Upgrade>)
    requires i < |pool|
    ensures |r| == |pool| - 1
  {
    pool[..i] + pool[i + 1..]
  }

  /** The number of times u occurs in the pool. */
  function Count(pool: seq<Upgrade>, u: Upgrade): nat
  {
    if pool == [] then 0 else Count(pool[..|pool| - 1], u) + (if pool[|pool| - 1] == u then 1 else 0)
  }

  lemma {:induction false} CountConcat(a: seq<Upgrade>, b: seq<Upgrade>, u: Upgrade)
    ensures Count(a + b, u) == Count(a, u) + Count(b, u)
    decreases |b|
  {
    if b != [] {
      var init := b[..|b| - 1];
      assert (a + b)[..|a + b| - 1] == a + init;
      CountConcat(a, init, u);
    } else {
      assert a + b == a;
    }
  }

  /** Splicing removes one occurrence of the cut entry and nothing else. */
  lemma SpliceCount(pool: seq<Upgrade>, i: nat, u: Upgrade)
    requires i < |pool|
    ensures Count(pool, u) == Count(Splice(pool, i), u) + (if pool[i] == u then 1 else 0)
  {
    assert pool == pool[..i] + [pool[i]] + pool[i + 1..];
    CountConcat(pool[..i] + [pool[i]], pool[i + 1..], u);
    CountConcat(pool[..i], [pool[i]], u);
    CountConcat(pool[..i], pool[i + 1..], u);
    assert Count([pool[i]], u) == if pool[i] == u then 1 else 0 by {
      assert [pool[i]][..0] == [];
    }
  }

  /** What selectUpgrades(catalog, count) returns for the random draws pick. */
  function Selected(catalog: seq<Upgrade>, count: int, pick: nat -> nat): seq<Upgrade>
  {
    Drawn(Weighted(catalog), count, pick, 0)
  }

  /** The weighted draw without replacement. The catalog itself is a value
      and is never changed; only the local weighted pool shrinks, one entry
      per draw, which is what bounds the loop. */
  method SelectUpgrades(catalog: seq<Upgrade>, pick: nat -> nat, count: int := 3) returns (selected: seq<Upgrade>)
    ensures selected == Selected(catalog, count, pick)
  {
    var weighted := Weighted(catalog);
    selected := [];
    while |selected| < count && |weighted| > 0
      invariant selected + Drawn(weighted, count - |selected|, pick, |selected|) == Selected(catalog, count, pick)
      decreases |weighted|
    {
      var i := RandomIndex(pick(|selected|), |weighted|);
      selected := selected + [weighted[i]];
      weighted := weighted[..i] + weighted[i + 1..];
    }
  }

  /** Each draw takes one entry: the pool gives min(need, |pool|) offers. */
  lemma {:induction false} DrawnLength(pool: seq<Upgrade>, need: int, pick: nat -> nat, k: nat)
    ensures |Drawn(pool, need, pick, k)| == if need <= 0 then 0 else if need < |pool| then need else |pool|
    decreases |pool|
  {
    if need > 0 && pool != [] {
      var i := RandomIndex(pick(k), |pool|);
      DrawnLength(Splice(pool, i), need - 1, pick, k + 1);
    }
  }

  /** No entry is drawn more often than it occurs in the pool. */
  lemma {:induction false} DrawnFromPool(pool: seq<Upgrade>, need: int, pick: nat -> nat, k: nat, u: Upgrade)
    ensures Count(Drawn(pool, need, pick, k), u) <= Count(pool, u)
    decreases |pool|
  {
    if need > 0 && pool != [] {
      var i := RandomIndex(pick(k), |pool|);
      var later := Drawn(Splice(pool, i), need - 1, pick, k + 1);
      DrawnFromPool(Splice(pool, i), need - 1, pick, k + 1, u);
      SpliceCount(pool, i, u);
      CountConcat([pool[i]], later, u);
      assert Count([pool[i]], u) == if pool[i] == u then 1 else 0 by {
        assert [pool[i]][..0] == [];
      }
    }
  }

  lemma {:induction false} WeightedLength(catalog: seq<Upgrade>)
    ensures |Weighted(catalog)| == TotalRarity(catalog)
  {
    if catalog != [] {
      WeightedLength(catalog[1..]);
    }
  }

  /** The pool repeats each catalog entry as often as its rarity; an upgrade
      occurring once in the catalog occurs `rarity` times in the pool. */
  lemma {:induction false} WeightedCount(catalog: seq<Upgrade>, u: Upgrade)
    ensures Count(catalog, u) == 0 ==> Count(Weighted(catalog), u) == 0
    ensures Count(catalog, u) == 1 ==> Count(Weighted(catalog), u) == u.rarity
  {
    if catalog != [] {
      WeightedCount(catalog[1..], u);
      assert catalog == [catalog[0]] + catalog[1..];
      CountConcat([catalog[0]], catalog[1..], u);
      assert Count([catalog[0]], u) == if catalog[0] == u then 1 else 0 by {
        assert [catalog[0]][..0] == [];
      }
      CountConcat(Copies(catalog[0], catalog[0].rarity), Weighted(catalog[1..]), u);
      CopiesCount(catalog[0], catalog[0].rarity, u);
    }
  }

  lemma {:induction false} CopiesCount(u: Upgrade, n: nat, v: Upgrade)
    ensures Count(Copies(u, n), v) == if u == v then n else 0
  {
    if n > 0 {
      CopiesCount(u, n - 1, v);
      assert Copies(u, n)[..n - 1] == Copies(u, n - 1);
    }
  }

  /** An upgrade occurs in a list exactly when it is counted there. */
  lemma {:induction false} CountPositive(pool: seq<Upgrade>, u: Upgrade)
    ensures Count(pool, u) > 0 <==> u in pool
  {
    if pool != [] {
      var init := pool[..|pool| - 1];
      CountPositive(init, u);
      assert pool == init + [pool[|pool| - 1]];
    }
  }

  /** selectUpgrades returns min(count, total rarity) offers, and none when
      count is not positive. */
  lemma SelectedLength(catalog: seq<Upgrade>, count: int, pick: nat -> nat)
    ensures var n := TotalRarity(catalog);
      |Selected(catalog, count, pick)| == if count <= 0 then 0 else if count < n then count else n
  {
    WeightedLength(catalog);
    DrawnLength(Weighted(catalog), count, pick, 0);
  }

  /** Every offer comes from the catalog, and an upgrade listed once in the
      catalog is offered at most `rarity` times. */
  lemma SelectedFromCatalog(catalog: seq<Upgrade>, count: int, pick: nat -> nat, u: Upgrade)
    ensures u in Selected(catalog, count, pick) ==> u in catalog
    ensures Count(catalog, u) == 1 ==> Count(Selected(catalog, count, pick), u) <= u.rarity
  {
    DrawnFromPool(Weighted(catalog), count, pick, 0, u);
    WeightedCount(catalog, u);
    CountPositive(catalog, u);
    CountPositive(Selected(catalog, count, pick), u);
  }

  /** The typed catalog's weighted pool: every offer once, except two copies
      of reset_to_level_1. */
  lemma WeightedCatalog()
    ensures Weighted(Catalog) == [Catalog[0], Catalog[1], Catalog[2], Catalog[2], Catalog[3], Catalog[4]]
  {
    var c := Catalog;
    assert Weighted(c[4..]) == [c[4]] by {
      assert c[4..][1..] == [];
      assert Copies(c[4], 1) == [c[4]];
    }
    assert Weighted(c[3..]) == [c[3], c[4]] by {
      assert c[3..][1..] == c[4..];
      assert Copies(c[3], 1) == [c[3]];
    }
    assert Weighted(c[2..]) == [c[2], c[2], c[3], c[4]] by {
      assert c[2..][1..] == c[3..];
      assert Copies(c[2], 2) == [c[2], c[2]];
    }
    assert Weighted(c[1..]) == [c[1], c[2], c[2], c[3], c[4]] by {
      assert c[1..][1..] == c[2..];
      assert Copies(c[1], 1) == [c[1]];
    }
    assert Copies(c[0], 1) == [c[0]];
  }

  lemma {:induction false} CatalogRarity()
    ensures TotalRarity(Catalog) == 6
  {
    var c := Catalog;
    assert TotalRarity(c[4..]) == 1 by {
      assert c[4..][1..] == [];
    }
    assert TotalRarity(c[3..]) == 2 by {
      assert c[3..][1..] == c[4..];
    }
    assert TotalRarity(c[2..]) == 4 by {
      assert c[2..][1..] == c[3..];
    }
    assert TotalRarity(c[1..]) == 5 by {
      assert c[1..][1..] == c[2..];
    }
  }

  /** The three offers of an upgrade selection: always three, all from the
      typed catalog. */
  lemma CatalogOffers(pick: nat -> nat)
    ensures |Selected(Catalog, 3, pick)| == 3
    ensures forall u :: u in Selected(Catalog, 3, pick) ==> u in Catalog
  {
    CatalogRarity();
    SelectedLength(Catalog, 3, pick);
    forall u | u in Selected(Catalog, 3, pick) ensures u in Catalog {
      SelectedFromCatalog(Catalog, 3, pick, u);
    }
  }

  /** The same upgrade can be offered twice: with every draw landing on
      index 2, the first two offers are both reset_to_level_1, whose rarity
      is 2. */
  lemma DuplicateOffers()
    ensures var offers := Selected(Catalog, 3, k => 2);
      |offers| == 3 && offers[0] == offers[1] == Catalog[2]
  {
    var c := Catalog;
    WeightedCatalog();
    var p: nat -> nat := k => 2;
    var w := [c[0], c[1], c[2], c[2], c[3], c[4]];
    var w1 := [c[0], c[1], c[2], c[3], c[4]];
    var w2 := [c[0], c[1], c[3], c[4]];
    assert RandomIndex(p(0), 6) == 2 && RandomIndex(p(1), 5) == 2;
    assert Splice(w, 2) == w1;
    assert Splice(w1, 2) == w2;
    var rest := Drawn(w2, 1, p, 2);
    DrawnLength(w2, 1, p, 2);
    assert Drawn(w1, 2, p, 1) == [c[2]] + rest;
    assert Drawn(w, 3, p, 0) == [c[2], c[2]] + rest;
  }
}
