/** When the order in which manifests were read can change what retention keeps. */
module Schedules {
  import opened Sets
  import opened Retention
  import opened RetentionLaws

  /** `b` is `a` read in the order `order`. */
  ghost predicate Reordered(a: seq<Gen>, b: seq<Gen>, order: seq<int>) {
    && |order| == |a| == |b|
    && Injective(order, |a|)
    && forall k :: 0 <= k < |b| ==> b[k] == a[order[k]]
  }

  ghost predicate DistinctIds(gens: seq<Gen>) {
    forall i, j :: 0 <= i < |gens| && 0 <= j < |gens| && gens[i].id == gens[j].id ==> i == j
  }

  /** Generations of one group that carry the same time are kept together or dropped together. */
  ghost predicate TiesAgree(gens: seq<Gen>, p: Policy, now: Time) {
    forall i, j :: 0 <= i < |gens| && 0 <= j < |gens| && Tied(gens, i, j) ==>
      (Keeps(gens, p, now, i) <==> Keeps(gens, p, now, j))
  }

  ghost predicate Tied(gens: seq<Gen>, i: int, j: int)
    requires 0 <= i < |gens| && 0 <= j < |gens|
  {
    GroupOf(gens[i]) == GroupOf(gens[j]) && gens[i].time == gens[j].time
  }

  // --- counts that no reordering changes -----------------------------------

  ghost function Newer(gens: seq<Gen>, i: int): set<int>
    requires 0 <= i < |gens|
  {
    set j | 0 <= j < |gens| && GroupOf(gens[j]) == GroupOf(gens[i]) && gens[j].time > gens[i].time
  }

  ghost function Ties(gens: seq<Gen>, i: int): set<int>
    requires 0 <= i < |gens|
  {
    set j | 0 <= j < |gens| && Tied(gens, j, i)
  }

  lemma SameCount(order: seq<int>, n: nat, s: set<int>, t: set<int>)
    requires |order| == n && Injective(order, n)
    requires forall k :: k in s ==> 0 <= k < n
    requires forall i :: i in t ==> 0 <= i < n
    requires forall k :: 0 <= k < n ==> (k in s <==> order[k] in t)
    ensures |s| == |t|
  {
    forall i | i in t
      ensures i in Image(order, s)
    {
      var k := SourceOf(order, n, i);
    }
    assert Image(order, s) == t;
    ImageSize(order, n, s);
  }

  lemma CountsInvariant(a: seq<Gen>, b: seq<Gen>, order: seq<int>, p: Policy, now: Time, k: int)
    requires Reordered(a, b, order) && 0 <= k < |b|
    ensures |Newer(b, k)| == |Newer(a, order[k])|
    ensures |Ties(b, k)| == |Ties(a, order[k])|
    ensures KeptLength(b, p, now, k) == KeptLength(a, p, now, order[k])
  {
    var i := order[k];
    SameCount(order, |a|, Newer(b, k), Newer(a, i));
    SameCount(order, |a|, Ties(b, k), Ties(a, i));
    SameCount(order, |a|, Young(b, p, now, k), Young(a, p, now, i));
    StaleInvariant(a, b, order, p.staleAfter, k);
  }

  lemma StaleInvariant(a: seq<Gen>, b: seq<Gen>, order: seq<int>, s: Duration, k: int)
    requires Reordered(a, b, order) && 0 <= k < |b|
    ensures Stale(b, s, k) <==> Stale(a, s, order[k])
  {
    var i := order[k];
    if Stale(b, s, k) {
      var t :| 0 <= t < |b| && Leads(b, s, t, k);
      forall j | 0 <= j < |a| && GroupOf(a[j]) == GroupOf(a[i])
        ensures Since(a[order[t]].time, a[j].time) >= s
      {
        var m := SourceOf(order, |a|, j);
        assert GroupOf(b[m]) == GroupOf(b[k]);
      }
      assert Leads(a, s, order[t], i);
    }
    if Stale(a, s, i) {
      var t :| 0 <= t < |a| && Leads(a, s, t, i);
      var m := SourceOf(order, |a|, t);
      assert Leads(b, s, m, k);
    }
  }

  lemma RankBounds(gens: seq<Gen>, i: int)
    requires 0 <= i < |gens|
    ensures |Newer(gens, i)| <= Rank(gens, i) < |Newer(gens, i)| + |Ties(gens, i)|
  {
    var ties := Ties(gens, i);
    assert i in ties;
    assert Newer(gens, i) <= Ahead(gens, i);
    SubsetSize(Newer(gens, i), Ahead(gens, i));
    assert Ahead(gens, i) <= Newer(gens, i) + (ties - {i});
    SubsetSize(Ahead(gens, i), Newer(gens, i) + (ties - {i}));
  }

  /** Some generation tied with `i` has nothing but newer ones ahead, and some has every tied one ahead. */
  lemma TieEnds(gens: seq<Gen>, i: int) returns (first: int, last: int)
    requires 0 <= i < |gens|
    ensures first in Ties(gens, i) && Rank(gens, first) == |Newer(gens, i)|
    ensures last in Ties(gens, i) && Rank(gens, last) == |Newer(gens, i)| + |Ties(gens, i)| - 1
  {
    var ties := Ties(gens, i);
    assert i in ties;
    first := FirstIn(gens, ties);
    last := LastIn(gens, ties);
    assert forall j :: 0 <= j < |gens| && Tied(gens, j, i) ==> j in ties;
    forall j | 0 <= j < |gens|
      ensures j in Ahead(gens, first) <==> j in Newer(gens, i)
    {
      assert j in ties && j != first ==> Before(gens, first, j);
    }
    assert Ahead(gens, first) == Newer(gens, i);
    forall j | 0 <= j < |gens|
      ensures j in Ahead(gens, last) <==> j in Newer(gens, i) + (ties - {last})
    {
      assert j in ties && j != last ==> Before(gens, j, last);
    }
    assert Ahead(gens, last) == Newer(gens, i) + (ties - {last});
    assert Newer(gens, i) !! ties - {last};
  }

  lemma KeepsReordered(a: seq<Gen>, b: seq<Gen>, order: seq<int>, p: Policy, now: Time, k: int)
    requires Reordered(a, b, order) && TiesAgree(a, p, now) && 0 <= k < |b|
    ensures Keeps(b, p, now, k) <==> Keeps(a, p, now, order[k])
  {
    var i := order[k];
    CountsInvariant(a, b, order, p, now, k);
    RankBounds(b, k);
    var first, last := TieEnds(a, i);
    KeptPrefix(a, p, now, i);
    KeptPrefix(b, p, now, k);
    KeptPrefix(a, p, now, first);
    KeptPrefix(a, p, now, last);
    assert Tied(a, first, i) && Tied(a, last, i);
    assert KeptLength(a, p, now, first) == KeptLength(a, p, now, i) by {
      SameLength(a, p, now, first, i);
    }
    assert KeptLength(a, p, now, last) == KeptLength(a, p, now, i) by {
      SameLength(a, p, now, last, i);
    }
  }

  lemma SameLength(gens: seq<Gen>, p: Policy, now: Time, j: int, i: int)
    requires 0 <= i < |gens| && 0 <= j < |gens| && GroupOf(gens[j]) == GroupOf(gens[i])
    ensures KeptLength(gens, p, now, j) == KeptLength(gens, p, now, i)
  {
    assert Young(gens, p, now, j) == Young(gens, p, now, i);
    forall t | 0 <= t < |gens|
      ensures Leads(gens, p.staleAfter, t, j) <==> Leads(gens, p.staleAfter, t, i)
    {
    }
  }

  lemma RetainReordered(a: seq<Gen>, b: seq<Gen>, order: seq<int>, p: Policy, now: Time)
    requires Reordered(a, b, order) && TiesAgree(a, p, now)
    ensures Retain(b, p, now) == Retain(a, p, now)
  {
    forall id
      ensures id in Retain(b, p, now) <==> id in Retain(a, p, now)
    {
      if id in Retain(b, p, now) {
        var k :| 0 <= k < |b| && Keeps(b, p, now, k) && b[k].id == id;
        KeepsReordered(a, b, order, p, now, k);
      }
      if id in Retain(a, p, now) {
        var i :| 0 <= i < |a| && Keeps(a, p, now, i) && a[i].id == id;
        var k := SourceOf(order, |a|, i);
        KeepsReordered(a, b, order, p, now, k);
      }
    }
  }

  // --- a tie across the cut does depend on the order ------------------------

  /** Two inputs that differ only in ids get the same verdicts, position by position. */
  lemma IdsDoNotMatter(a: seq<Gen>, b: seq<Gen>, p: Policy, now: Time, i: int)
    requires |a| == |b| && 0 <= i < |a|
    requires forall k :: 0 <= k < |a| ==> GroupOf(a[k]) == GroupOf(b[k]) && a[k].time == b[k].time
    ensures Keeps(a, p, now, i) <==> Keeps(b, p, now, i)
  {
    assert Ahead(a, i) == Ahead(b, i);
    forall t | 0 <= t < |a|
      ensures Leads(a, p.staleAfter, t, i) <==> Leads(b, p.staleAfter, t, i)
    {
    }
  }

  lemma SplitTieSwaps(a: seq<Gen>, p: Policy, now: Time, i: int, j: int)
    requires DistinctIds(a)
    requires 0 <= i < |a| && 0 <= j < |a| && Tied(a, i, j)
    requires Keeps(a, p, now, i) && !Keeps(a, p, now, j)
    ensures exists b, order :: Reordered(a, b, order) && Retain(b, p, now) != Retain(a, p, now)
  {
    var order := seq(|a|, k => if k == i then j else if k == j then i else k);
    var b := seq(|a|, k requires 0 <= k < |a| => a[order[k]]);
    hide Keeps, Retain;
    assert Reordered(a, b, order);
    IdsDoNotMatter(a, b, p, now, i);
    assert b[i].id == a[j].id;
    RetainHas(b, p, now, i);
    RetainLacks(a, p, now, j);
  }

  lemma RetainHas(gens: seq<Gen>, p: Policy, now: Time, i: int)
    requires 0 <= i < |gens| && Keeps(gens, p, now, i)
    ensures gens[i].id in Retain(gens, p, now)
  {
    hide Keeps;
  }

  lemma RetainLacks(gens: seq<Gen>, p: Policy, now: Time, i: int)
    requires DistinctIds(gens) && 0 <= i < |gens| && !Keeps(gens, p, now, i)
    ensures gens[i].id !in Retain(gens, p, now)
  {
    hide Keeps;
  }

  ghost predicate OrderFree(gens: seq<Gen>, p: Policy, now: Time) {
    forall b, order :: Reordered(gens, b, order) ==> Retain(b, p, now) == Retain(gens, p, now)
  }

  /**
   * The retained set is the same for every reading order exactly when no tie of
   * one group straddles the line between kept and dropped.
   */
  lemma OrderFreeIff(gens: seq<Gen>, p: Policy, now: Time)
    requires DistinctIds(gens)
    ensures OrderFree(gens, p, now) <==> TiesAgree(gens, p, now)
  {
    if TiesAgree(gens, p, now) {
      forall b, order | Reordered(gens, b, order)
        ensures Retain(b, p, now) == Retain(gens, p, now)
      {
        RetainReordered(gens, b, order, p, now);
      }
    } else {
      var i, j :| 0 <= i < |gens| && 0 <= j < |gens| && Tied(gens, i, j) && Keeps(gens, p, now, i)
        && !Keeps(gens, p, now, j);
      SplitTieSwaps(gens, p, now, i, j);
    }
  }

  /** The line between kept and dropped falls inside the run of generations tied with `i`. */
  ghost predicate CutInside(gens: seq<Gen>, p: Policy, now: Time, i: int)
    requires 0 <= i < |gens|
  {
    |Newer(gens, i)| < KeptLength(gens, p, now, i) < |Newer(gens, i)| + |Ties(gens, i)|
  }

  lemma TiedAlike(gens: seq<Gen>, p: Policy, now: Time, i: int, j: int)
    requires 0 <= i < |gens| && 0 <= j < |gens| && Tied(gens, i, j)
    ensures Newer(gens, i) == Newer(gens, j) && Ties(gens, i) == Ties(gens, j)
    ensures KeptLength(gens, p, now, i) == KeptLength(gens, p, now, j)
  {
    SameLength(gens, p, now, i, j);
  }

  /** Ties agree exactly when no run of tied generations holds the cut, which counting newer and tied ones decides. */
  lemma TiesAgreeIff(gens: seq<Gen>, p: Policy, now: Time)
    ensures TiesAgree(gens, p, now) <==> forall i :: 0 <= i < |gens| ==> !CutInside(gens, p, now, i)
  {
    if i :| 0 <= i < |gens| && CutInside(gens, p, now, i) {
      var first, last := TieEnds(gens, i);
      TiedAlike(gens, p, now, first, i);
      TiedAlike(gens, p, now, last, i);
      KeptPrefix(gens, p, now, first);
      KeptPrefix(gens, p, now, last);
      assert Tied(gens, first, last);
    } else {
      forall i, j | 0 <= i < |gens| && 0 <= j < |gens| && Tied(gens, i, j)
        ensures Keeps(gens, p, now, i) <==> Keeps(gens, p, now, j)
      {
        assert !CutInside(gens, p, now, i);
        TiedAlike(gens, p, now, i, j);
        RankBounds(gens, i);
        RankBounds(gens, j);
        KeptPrefix(gens, p, now, i);
        KeptPrefix(gens, p, now, j);
      }
    }
  }

  /** Distinct times within each group leave nothing to straddle. */
  ghost predicate DistinctTimes(gens: seq<Gen>) {
    forall i, j :: 0 <= i < |gens| && 0 <= j < |gens| && Tied(gens, i, j) ==> i == j
  }

  lemma DistinctTimesOrderFree(a: seq<Gen>, b: seq<Gen>, order: seq<int>, p: Policy, now: Time)
    requires Reordered(a, b, order) && DistinctTimes(a)
    ensures Retain(b, p, now) == Retain(a, p, now)
  {
    RetainReordered(a, b, order, p, now);
  }
}
