/** The order in which a `std::map<int, PriceLevel, sideBookComp<int>>`
    keeps its prices: best first under the side comparator. A side's map is
    modelled as a plain `map`, and its iteration order as `Ranked` of its keys. */
module PriceIndex {
  import opened OrderTypes

  /** x is the best price of ks: it beats every other member. */
  predicate IsBest(side: Side, ks: set<int>, x: int) {
    x in ks && forall y | y in ks :: y == x || Better(side, x, y)
  }

  lemma {:induction false} BestExists(side: Side, ks: set<int>)
    requires ks != {}
    ensures exists x :: IsBest(side, ks, x)
    decreases |ks|
  {
    if forall z :: z !in ks {
      assert false;
    }
    var y :| y in ks;
    var rest := ks - {y};
    if rest == {} {
      assert ks == {y};
      assert IsBest(side, ks, y);
    } else {
      BestExists(side, rest);
      var x :| IsBest(side, rest, x);
      if Better(side, x, y) {
        assert IsBest(side, ks, x);
      } else {
        BetterIsStrictTotalOrder(side, y, x, y);
        forall z | z in ks ensures z == y || Better(side, y, z) {
          BetterIsStrictTotalOrder(side, y, x, z);
        }
        assert IsBest(side, ks, y);
      }
    }
  }

  lemma BestUnique(side: Side, ks: set<int>, x: int, y: int)
    requires IsBest(side, ks, x) && IsBest(side, ks, y)
    ensures x == y
  {
    BetterIsStrictTotalOrder(side, x, y, x);
  }

  /** The first key of the side's map: the highest bid or the lowest ask. */
  function BestPrice(side: Side, ks: set<int>): (x: int)
    requires ks != {}
    ensures IsBest(side, ks, x)
  {
    BestExists(side, ks);
    var x :| IsBest(side, ks, x);
    x
  }

  /** A price better than every resident one becomes the best once inserted. */
  lemma BestAfterInsert(side: Side, ks: set<int>, p: int)
    requires ks == {} || Better(side, p, BestPrice(side, ks))
    ensures IsBest(side, ks + {p}, p)
  {
    if ks != {} {
      var best := BestPrice(side, ks);
      forall y | y in ks ensures y == p || Better(side, p, y) {
        BetterIsStrictTotalOrder(side, p, best, y);
      }
    }
  }

  /** The keys of the side's map in iteration order. */
  function Ranked(side: Side, ks: set<int>): (r: seq<int>)
    ensures |r| == |ks|
    ensures forall i | 0 <= i < |r| :: r[i] in ks
    decreases |ks|
  {
    if ks == {} then []
    else
      var b := BestPrice(side, ks);
      [b] + Ranked(side, ks - {b})
  }

  /** The resident prices strictly better than p. */
  function BetterThan(side: Side, ks: set<int>, p: int): set<int> {
    set q | q in ks && Better(side, q, p)
  }

  /** How many resident prices beat p: the index at which p is met when the
      side's map is iterated from the start. */
  function Rank(side: Side, ks: set<int>, p: int): nat {
    |BetterThan(side, ks, p)|
  }

  /** The i-th key in iteration order has exactly i better keys before it. */
  lemma {:induction false} RankedRank(side: Side, ks: set<int>, i: nat)
    requires i < |ks|
    ensures Ranked(side, ks)[i] in ks
    ensures Rank(side, ks, Ranked(side, ks)[i]) == i
    decreases |ks|
  {
    var b := BestPrice(side, ks);
    var rest := ks - {b};
    var r := Ranked(side, ks);
    if i == 0 {
      assert r[0] == b;
      forall q | q in ks ensures !Better(side, q, b) {
        BetterIsStrictTotalOrder(side, q, b, q);
      }
      assert BetterThan(side, ks, b) == {};
    } else {
      assert r[i] == Ranked(side, rest)[i - 1];
      RankedRank(side, rest, i - 1);
      var p := r[i];
      assert p in rest;
      BetterThanRemoveBest(side, ks, b, p);
    }
  }

  /** Iteration order is strictly best-first: an earlier key beats every later one. */
  lemma RankedSorted(side: Side, ks: set<int>, i: nat, j: nat)
    requires i < j < |ks|
    ensures Better(side, Ranked(side, ks)[i], Ranked(side, ks)[j])
  {
    var r := Ranked(side, ks);
    RankedRank(side, ks, i);
    RankedRank(side, ks, j);
    BetterIsStrictTotalOrder(side, r[i], r[j], r[i]);
    if Better(side, r[j], r[i]) {
      RankGrows(side, ks, r[j], r[i]);
    }
  }

  /** Different resident prices have different ranks, so a rank names one level. */
  lemma RankInjective(side: Side, ks: set<int>, p: int, q: int)
    requires p in ks && q in ks && p != q
    ensures Rank(side, ks, p) != Rank(side, ks, q)
  {
    BetterIsStrictTotalOrder(side, p, q, p);
    if Better(side, p, q) {
      RankGrows(side, ks, p, q);
    } else {
      RankGrows(side, ks, q, p);
    }
  }

  lemma RankGrows(side: Side, ks: set<int>, p: int, q: int)
    requires p in ks && Better(side, p, q)
    ensures Rank(side, ks, p) < Rank(side, ks, q)
  {
    forall z | z in BetterThan(side, ks, p) ensures z in BetterThan(side, ks, q) {
      BetterIsStrictTotalOrder(side, z, p, q);
    }
    BetterIsStrictTotalOrder(side, p, p, p);
    var lo, hi := BetterThan(side, ks, p), BetterThan(side, ks, q);
    assert p in hi - lo;
    assert hi == lo + (hi - lo);
    assert |hi - lo| >= 1;
  }

  /** Removing the best price b from ks drops exactly b from what beats any other p. */
  lemma BetterThanRemoveBest(side: Side, ks: set<int>, b: int, p: int)
    requires IsBest(side, ks, b) && p in ks && p != b
    ensures Rank(side, ks, p) == Rank(side, ks - {b}, p) + 1
  {
    var whole, part := BetterThan(side, ks, p), BetterThan(side, ks - {b}, p);
    forall z | z in whole ensures z in part + {b} { }
    forall z | z in part + {b} ensures z in whole { }
    assert whole == part + {b};
    assert b !in part;
  }
}
