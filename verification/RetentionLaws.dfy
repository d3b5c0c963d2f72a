/** What the retention rule guarantees across sweeps: the algebra both collectors rest on. */
module RetentionLaws {
  import opened Sets
  import opened Retention

  // --- subsequences --------------------------------------------------------

  /** `sub` is the subsequence of `full` at the positions `e`, in inherited order. */
  ghost predicate Embeds(sub: seq<Gen>, full: seq<Gen>, e: seq<int>) {
    && |e| == |sub|
    && Increasing(e, |full|)
    && forall k :: 0 <= k < |sub| ==> sub[k] == full[e[k]]
  }

  ghost function At(full: seq<Gen>, e: seq<int>): seq<Gen>
    requires Increasing(e, |full|)
  {
    seq(|e|, k requires 0 <= k < |e| => full[e[k]])
  }

  /** Positions of the kept generations. */
  ghost function KeptAt(gens: seq<Gen>, p: Policy, now: Time): (e: seq<int>)
    ensures Increasing(e, |gens|)
    ensures forall i :: 0 <= i < |gens| ==> (i in Range(e) <==> Keeps(gens, p, now, i))
  {
    Select(|gens|, i => 0 <= i < |gens| && Keeps(gens, p, now, i))
  }

  /** The generations left once everything not retained is deleted, order kept. */
  ghost function Kept(gens: seq<Gen>, p: Policy, now: Time): seq<Gen> {
    At(gens, KeptAt(gens, p, now))
  }

  /** `sub` keeps at least what a sweep at `now` retains: what is left when a sweep stops part way. */
  ghost predicate CoversKept(e: seq<int>, gens: seq<Gen>, p: Policy, now: Time) {
    forall i :: 0 <= i < |gens| && Keeps(gens, p, now, i) ==> i in Range(e)
  }

  // --- ranks ---------------------------------------------------------------

  lemma AheadOfMember(gens: seq<Gen>, j: int, i: int)
    requires 0 <= i < |gens| && j in Ahead(gens, i)
    ensures Ahead(gens, j) <= Ahead(gens, i)
    ensures Rank(gens, j) < Rank(gens, i)
  {
    assert Ahead(gens, j) <= Ahead(gens, i) - {j};
    SubsetSize(Ahead(gens, j), Ahead(gens, i) - {j});
  }

  /** A nonempty set of positions has one that every other comes before. */
  lemma {:induction false} LastIn(gens: seq<Gen>, s: set<int>) returns (last: int)
    requires s != {}
    requires forall i :: i in s ==> 0 <= i < |gens|
    ensures last in s
    ensures forall i :: i in s && i != last ==> Before(gens, i, last)
  {
    var x := Pick(s);
    var rest := s - {x};
    if rest == {} {
      last := x;
      assert s == {x};
    } else {
      var y := LastIn(gens, rest);
      last := if Before(gens, x, y) then y else x;
      assert forall i :: i in s ==> i == x || i in rest;
      forall i | i in s && i != last
        ensures Before(gens, i, last)
      {
        assert i == x || i == y || Before(gens, i, y);
      }
    }
  }

  /** ... and one that comes before every other. */
  lemma {:induction false} FirstIn(gens: seq<Gen>, s: set<int>) returns (first: int)
    requires s != {}
    requires forall i :: i in s ==> 0 <= i < |gens|
    ensures first in s
    ensures forall i :: i in s && i != first ==> Before(gens, first, i)
  {
    var x := Pick(s);
    var rest := s - {x};
    if rest == {} {
      first := x;
      assert s == {x};
    } else {
      var y := FirstIn(gens, rest);
      first := if Before(gens, x, y) then x else y;
      assert forall i :: i in s ==> i == x || i in rest;
      forall i | i in s && i != first
        ensures Before(gens, first, i)
      {
        assert i == x || i == y || Before(gens, y, i);
      }
    }
  }

  ghost function AheadBelow(gens: seq<Gen>, i: int, n: nat): set<int>
    requires 0 <= i < |gens|
  {
    set j | j in Ahead(gens, i) && 0 <= j < |gens| && Rank(gens, j) < n
  }

  /** If `n` members come before `i`, then `n` of them have rank below `n`. */
  lemma {:induction false} TopMembers(gens: seq<Gen>, i: int, n: nat)
    requires 0 <= i < |gens| && Rank(gens, i) >= n
    ensures |AheadBelow(gens, i, n)| >= n
    decreases Rank(gens, i)
  {
    var ahead := Ahead(gens, i);
    if Rank(gens, i) == n {
      forall j | j in ahead
        ensures j in AheadBelow(gens, i, n)
      {
        AheadOfMember(gens, j, i);
      }
      assert ahead == AheadBelow(gens, i, n);
    } else {
      assert ahead != {};
      var j := LastIn(gens, ahead);
      assert Ahead(gens, j) == ahead - {j};
      AheadOfMember(gens, j, i);
      TopMembers(gens, j, n);
      assert AheadBelow(gens, j, n) <= AheadBelow(gens, i, n);
      SubsetSize(AheadBelow(gens, j, n), AheadBelow(gens, i, n));
    }
  }

  /** In a subsequence, a member's predecessors are the ones that were not removed. */
  lemma AheadEmbedded(sub: seq<Gen>, full: seq<Gen>, e: seq<int>, k: int)
    requires Embeds(sub, full, e) && 0 <= k < |sub|
    ensures Image(e, Ahead(sub, k)) == Ahead(full, e[k]) * Range(e)
    ensures Rank(sub, k) == |Ahead(full, e[k]) * Range(e)|
    ensures Rank(sub, k) <= Rank(full, e[k])
  {
    forall v
      ensures v in Image(e, Ahead(sub, k)) <==> v in Ahead(full, e[k]) * Range(e)
    {
      if v in Image(e, Ahead(sub, k)) {
        var j :| j in Ahead(sub, k) && e[j] == v;
        InRange(e, j);
      }
      if v in Ahead(full, e[k]) && v in Range(e) {
        var j :| 0 <= j < |e| && e[j] == v;
        assert j in Ahead(sub, k);
      }
    }
    IncreasingIsInjective(e, |full|);
    ImageSize(e, |full|, Ahead(sub, k));
    SubsetSize(Ahead(full, e[k]) * Range(e), Ahead(full, e[k]));
  }

  // --- anchors: what a kept generation keeps alive --------------------------

  /** Within a group the kept generations are a newest-first prefix. */
  lemma PrefixKept(gens: seq<Gen>, p: Policy, now: Time, j: int, i: int)
    requires 0 <= i < |gens| && j in Ahead(gens, i)
    requires Keeps(gens, p, now, i)
    ensures Keeps(gens, p, now, j)
  {
    AheadOfMember(gens, j, i);
    if Stale(gens, p.staleAfter, j) {
      var t :| 0 <= t < |gens| && Leads(gens, p.staleAfter, t, j);
      assert Leads(gens, p.staleAfter, t, i);
    }
  }

  /** With a nonzero count, each tier keeps a generation carrying its newest time, at every time. */
  lemma TierNewestKept(gens: seq<Gen>, p: Policy, now: Time, i: int) returns (top: int)
    requires 0 <= i < |gens|
    requires PolicyFor(p, gens[i].branch).keepNewest >= 1
    ensures 0 <= top < |gens| && TierOf(gens[top]) == TierOf(gens[i])
    ensures forall j :: 0 <= j < |gens| && TierOf(gens[j]) == TierOf(gens[i]) ==> gens[j].time <= gens[top].time
    ensures Keeps(gens, p, now, top)
    ensures Rank(gens, top) == 0
  {
    var tier := set j | 0 <= j < |gens| && TierOf(gens[j]) == TierOf(gens[i]);
    assert i in tier;
    top := FirstIn(gens, tier);
    assert forall j :: j in Ahead(gens, top) ==> j in tier;
    assert Ahead(gens, top) == {};
    forall j | 0 <= j < |gens| && TierOf(gens[j]) == TierOf(gens[i])
      ensures gens[j].time <= gens[top].time
    {
      assert j in tier;
    }
  }

  /** A group whose member is kept by count keeps its newest member. */
  lemma GroupNewestKept(gens: seq<Gen>, p: Policy, now: Time, i: int) returns (top: int)
    requires 0 <= i < |gens| && Keeps(gens, p, now, i)
    ensures 0 <= top < |gens| && GroupOf(gens[top]) == GroupOf(gens[i])
    ensures forall j :: 0 <= j < |gens| && GroupOf(gens[j]) == GroupOf(gens[i]) ==> gens[j].time <= gens[top].time
    ensures Keeps(gens, p, now, top)
  {
    var group := set j | 0 <= j < |gens| && GroupOf(gens[j]) == GroupOf(gens[i]);
    assert i in group;
    top := FirstIn(gens, group);
    forall j | 0 <= j < |gens| && GroupOf(gens[j]) == GroupOf(gens[i])
      ensures gens[j].time <= gens[top].time
    {
      assert j in group;
    }
    if top != i {
      assert top in Ahead(gens, i);
      PrefixKept(gens, p, now, top, i);
    }
  }

  // --- stability -----------------------------------------------------------

  lemma KeptStaysKept(sub: seq<Gen>, full: seq<Gen>, e: seq<int>, p: Policy, now: Time, k: int)
    requires Embeds(sub, full, e) && CoversKept(e, full, p, now)
    requires 0 <= k < |sub| && Keeps(full, p, now, e[k])
    ensures Keeps(sub, p, now, k)
  {
    var i := e[k];
    AheadEmbedded(sub, full, e, k);
    if !VerdictOf(full, p, now, i).KeepAge? && Stale(sub, p.staleAfter, k) {
      var t :| 0 <= t < |sub| && Leads(sub, p.staleAfter, t, k);
      var top := GroupNewestKept(full, p, now, i);
      assert top in Range(e);
      var m :| 0 <= m < |e| && e[m] == top;
      assert GroupOf(sub[m]) == GroupOf(sub[k]);
      assert Leads(full, p.staleAfter, e[t], i);
    }
  }

  /** A stale group's leader may be among the deleted, but then the tier's newest leads in its place. */
  lemma StaleStaysStale(sub: seq<Gen>, full: seq<Gen>, e: seq<int>, p: Policy, now: Time, k: int)
    requires Embeds(sub, full, e) && CoversKept(e, full, p, now)
    requires 0 <= k < |sub| && Stale(full, p.staleAfter, e[k]) && PolicyFor(p, full[e[k]].branch).keepNewest >= 1
    ensures Stale(sub, p.staleAfter, k)
  {
    hide PolicyFor, VerdictOf;
    var i := e[k];
    var top := TierNewestKept(full, p, now, i);
    assert top in Range(e);
    var m :| 0 <= m < |e| && e[m] == top;
    var t :| 0 <= t < |full| && Leads(full, p.staleAfter, t, i);
    forall j | 0 <= j < |sub| && GroupOf(sub[j]) == GroupOf(sub[k])
      ensures Since(sub[m].time, sub[j].time) >= p.staleAfter
    {
      assert Since(full[t].time, full[e[j]].time) >= p.staleAfter;
    }
    assert Leads(sub, p.staleAfter, m, k);
  }

  lemma StaleTogether(gens: seq<Gen>, stale: Duration, j: int, i: int)
    requires 0 <= j < |gens| && 0 <= i < |gens| && GroupOf(gens[j]) == GroupOf(gens[i])
    ensures Stale(gens, stale, j) <==> Stale(gens, stale, i)
  {
    forall t | 0 <= t < |gens|
      ensures Leads(gens, stale, t, j) <==> Leads(gens, stale, t, i)
    {
    }
  }

  /** In a group that is not stale, the newest `n` of the whole are kept and so still stand ahead. */
  lemma RankStays(sub: seq<Gen>, full: seq<Gen>, e: seq<int>, p: Policy, now: Time, k: int)
    requires Embeds(sub, full, e) && CoversKept(e, full, p, now)
    requires 0 <= k < |sub| && !Keeps(full, p, now, e[k]) && !Stale(full, p.staleAfter, e[k])
    ensures !Keeps(sub, p, now, k)
  {
    var i := e[k];
    var n := PolicyFor(p, full[i].branch).keepNewest;
    AheadEmbedded(sub, full, e, k);
    TopMembers(full, i, n);
    forall j | j in AheadBelow(full, i, n)
      ensures j in Ahead(full, i) * Range(e)
    {
      StaleTogether(full, p.staleAfter, j, i);
      assert Keeps(full, p, now, j);
    }
    SubsetSize(AheadBelow(full, i, n), Ahead(full, i) * Range(e));
  }

  lemma DroppedStaysDropped(sub: seq<Gen>, full: seq<Gen>, e: seq<int>, p: Policy, now: Time, k: int)
    requires Embeds(sub, full, e) && CoversKept(e, full, p, now)
    requires 0 <= k < |sub| && !Keeps(full, p, now, e[k])
    ensures !Keeps(sub, p, now, k)
  {
    hide Stale, CoversKept;
    if !Stale(full, p.staleAfter, e[k]) {
      RankStays(sub, full, e, p, now, k);
    } else if PolicyFor(p, full[e[k]].branch).keepNewest >= 1 {
      StaleStaysStale(sub, full, e, p, now, k);
    }
  }

  /**
   * Deleting any of the dropped generations changes no later decision: every
   * survivor gets the answer it had, staleness included.
   */
  lemma Stability(sub: seq<Gen>, full: seq<Gen>, e: seq<int>, p: Policy, now: Time)
    requires Embeds(sub, full, e) && CoversKept(e, full, p, now)
    ensures forall k :: 0 <= k < |sub| ==> (Keeps(sub, p, now, k) <==> Keeps(full, p, now, e[k]))
    ensures Retain(sub, p, now) == Retain(full, p, now)
    ensures Kept(sub, p, now) == Kept(full, p, now)
  {
    forall k | 0 <= k < |sub|
      ensures Keeps(sub, p, now, k) <==> Keeps(full, p, now, e[k])
    {
      if Keeps(full, p, now, e[k]) {
        KeptStaysKept(sub, full, e, p, now, k);
      } else {
        DroppedStaysDropped(sub, full, e, p, now, k);
      }
    }
    forall id
      ensures id in Retain(sub, p, now) <==> id in Retain(full, p, now)
    {
      if id in Retain(sub, p, now) {
        var k :| 0 <= k < |sub| && Keeps(sub, p, now, k) && sub[k].id == id;
        assert Keeps(full, p, now, e[k]);
      }
      if id in Retain(full, p, now) {
        var i :| 0 <= i < |full| && Keeps(full, p, now, i) && full[i].id == id;
        assert i in Range(e);
        var k :| 0 <= k < |e| && e[k] == i;
        assert Keeps(sub, p, now, k);
      }
    }
    SamePicks(sub, full, e, KeptAt(sub, p, now), KeptAt(full, p, now));
  }

  /** Picking corresponding positions from a subsequence and from the whole gives the same list. */
  lemma SamePicks(sub: seq<Gen>, full: seq<Gen>, e: seq<int>, a: seq<int>, b: seq<int>)
    requires Embeds(sub, full, e)
    requires Increasing(a, |sub|) && Increasing(b, |full|)
    requires forall k :: 0 <= k < |sub| ==> (k in Range(a) <==> e[k] in Range(b))
    requires Range(b) <= Range(e)
    ensures At(sub, a) == At(full, b)
  {
    hide At;
    var c := seq(|a|, k requires 0 <= k < |a| => e[a[k]]);
    SameRange(sub, full, e, a, b, c);
    Composed(e, |sub|, |full|, a, c);
    IncreasingUnique(c, b, |full|);
    PicksAgree(sub, full, e, a, b);
  }

  lemma Composed(e: seq<int>, n: int, m: int, a: seq<int>, c: seq<int>)
    requires |e| == n && Increasing(e, m) && Increasing(a, n)
    requires |c| == |a| && forall k :: 0 <= k < |a| ==> c[k] == e[a[k]]
    ensures Increasing(c, m)
  {
  }

  lemma PicksAgree(sub: seq<Gen>, full: seq<Gen>, e: seq<int>, a: seq<int>, b: seq<int>)
    requires Embeds(sub, full, e) && Increasing(a, |sub|) && Increasing(b, |full|)
    requires |a| == |b| && forall k :: 0 <= k < |a| ==> b[k] == e[a[k]]
    ensures At(sub, a) == At(full, b)
  {
  }

  lemma SameRange(sub: seq<Gen>, full: seq<Gen>, e: seq<int>, a: seq<int>, b: seq<int>, c: seq<int>)
    requires Embeds(sub, full, e)
    requires Increasing(a, |sub|) && Increasing(b, |full|)
    requires forall k :: 0 <= k < |sub| ==> (k in Range(a) <==> e[k] in Range(b))
    requires Range(b) <= Range(e)
    requires |c| == |a| && forall k :: 0 <= k < |a| ==> c[k] == e[a[k]]
    ensures Range(c) == Range(b)
  {
    forall v | v in Range(c)
      ensures v in Range(b)
    {
      var k :| 0 <= k < |c| && c[k] == v;
      InRange(a, k);
    }
    forall v | v in Range(b)
      ensures v in Range(c)
    {
      assert v in Range(e);
      var m :| 0 <= m < |e| && e[m] == v;
      assert m in Range(a);
      var k :| 0 <= k < |a| && a[k] == m;
      assert c[k] == v;
    }
  }

  // --- time ----------------------------------------------------------------

  lemma KeptEarlier(gens: seq<Gen>, p: Policy, t1: Time, t2: Time, i: int)
    requires t1 <= t2 && 0 <= i < |gens|
    requires Keeps(gens, p, t2, i)
    ensures Keeps(gens, p, t1, i)
  {
  }

  /** An intermediate sweep leaves no trace: only the last one decides. */
  lemma PathIndependence(gens: seq<Gen>, p: Policy, t1: Time, t2: Time)
    requires t1 <= t2
    ensures Kept(Kept(gens, p, t1), p, t2) == Kept(gens, p, t2)
    ensures Retain(Kept(gens, p, t1), p, t2) == Retain(gens, p, t2)
  {
    Stability(Kept(gens, p, t1), gens, KeptAt(gens, p, t1), p, t2);
  }

  /** One sweep that may have died part way: everything it retains is still there. */
  ghost predicate PartialSweep(before: seq<Gen>, after: seq<Gen>, p: Policy, now: Time) {
    exists e :: Embeds(after, before, e) && CoversKept(e, before, p, now)
  }

  /** Any number of sweeps, each possibly interrupted, then one more: the last one alone decides. */
  lemma {:induction false} SweepRun(states: seq<seq<Gen>>, times: seq<Time>, p: Policy, last: Time)
    requires |states| == |times| + 1
    requires forall n :: 0 <= n < |times| ==> times[n] <= last && PartialSweep(states[n], states[n + 1], p, times[n])
    ensures Kept(states[|times|], p, last) == Kept(states[0], p, last)
    decreases |times|
  {
    if |times| > 0 {
      var n := |times| - 1;
      SweepRun(states[..n + 1], times[..n], p, last);
      var e :| Embeds(states[n + 1], states[n], e) && CoversKept(e, states[n], p, times[n]);
      Stability(states[n + 1], states[n], e, p, last);
    }
  }

  // --- publishing between sweeps -------------------------------------------

  /** The condition under which sweeping before new generations arrive costs nothing. */
  predicate RevivalFree(p: Policy) {
    p.staleAfter == 0 || (p.main.keepNewest <= 1 && p.other.keepNewest <= 1)
  }

  /** A sweep at `t1`, then new generations, then a sweep at `t2`: the result is as if `t1` had not happened. */
  ghost predicate EarlySweepHarmless(p: Policy, old': seq<Gen>, new': seq<Gen>, t1: Time, t2: Time) {
    Kept(Kept(old', p, t1) + new', p, t2) == Kept(old' + new', p, t2)
  }

  lemma OldPartRank(old': seq<Gen>, new': seq<Gen>, i: int)
    requires 0 <= i < |old'|
    ensures Ahead(old', i) <= Ahead(old' + new', i)
    ensures Rank(old', i) <= Rank(old' + new', i)
  {
    SubsetSize(Ahead(old', i), Ahead(old' + new', i));
  }

  lemma KeptBeforeArrivals(p: Policy, old': seq<Gen>, new': seq<Gen>, t1: Time, t2: Time, i: int)
    requires RevivalFree(p) && t1 <= t2 && 0 <= i < |old'|
    requires Keeps(old' + new', p, t2, i)
    ensures Keeps(old', p, t1, i)
  {
    var all := old' + new';
    OldPartRank(old', new', i);
    if !VerdictOf(all, p, t2, i).KeepAge? && Stale(old', p.staleAfter, i) {
      assert Rank(all, i) == 0;
      assert Ahead(all, i) == {};
      var t :| 0 <= t < |old'| && Leads(old', p.staleAfter, t, i);
      forall j | 0 <= j < |all| && GroupOf(all[j]) == GroupOf(all[i])
        ensures Since(all[t].time, all[j].time) >= p.staleAfter
      {
        assert j !in Ahead(all, i);
        assert Since(old'[t].time, old'[i].time) >= p.staleAfter;
      }
      assert Leads(all, p.staleAfter, t, i);
    }
  }

  lemma EarlySweepSafe(p: Policy, old': seq<Gen>, new': seq<Gen>, t1: Time, t2: Time)
    requires RevivalFree(p) && t1 <= t2
    ensures EarlySweepHarmless(p, old', new', t1, t2)
  {
    var all := old' + new';
    var a := KeptAt(old', p, t1);
    var fresh' := seq(|new'|, k requires 0 <= k < |new'| => |old'| + k);
    var e := a + fresh';
    var sub := Kept(old', p, t1) + new';
    assert Embeds(sub, all, e);
    forall i | 0 <= i < |all| && Keeps(all, p, t2, i)
      ensures i in Range(e)
    {
      if i < |old'| {
        KeptBeforeArrivals(p, old', new', t1, t2, i);
        var k :| 0 <= k < |a| && a[k] == i;
        assert e[k] == i;
      } else {
        assert e[|a| + i - |old'|] == i;
      }
    }
    Stability(sub, all, e, p, t2);
  }

  /** A dormant attribute, its busy neighbour, and the generation that revives it. */
  function Dormant(branch: string): Gen {
    Gen("dormant", "f", branch, "a", 0)
  }

  function Busy(branch: string, s: Duration): Gen {
    Gen("busy", "f", branch, "b", s)
  }

  function Revived(branch: string, s: Duration): Gen {
    Gen("revived", "f", branch, "a", s)
  }

  lemma DormantSwept(p: Policy, branch: string)
    requires p.staleAfter != 0
    ensures
      var s := p.staleAfter;
      !Keeps([Dormant(branch), Busy(branch, s)], p, s + PolicyFor(p, branch).maxAge, 0)
  {
    var old' := [Dormant(branch), Busy(branch, p.staleAfter)];
    assert Leads(old', p.staleAfter, 1, 0);
  }

  lemma DormantRevived(p: Policy, branch: string)
    requires p.staleAfter != 0 && PolicyFor(p, branch).keepNewest > 1
    ensures
      var s := p.staleAfter;
      Keeps([Dormant(branch), Busy(branch, s), Revived(branch, s)], p, s + PolicyFor(p, branch).maxAge, 0)
  {
    var s := p.staleAfter;
    var all := [Dormant(branch), Busy(branch, s), Revived(branch, s)];
    assert Ahead(all, 0) == {2};
    forall t | 0 <= t < |all|
      ensures !Leads(all, s, t, 0)
    {
      assert GroupOf(all[2]) == GroupOf(all[0]);
      assert Since(all[t].time, all[2].time) < s;
    }
  }

  lemma KeptHas(gens: seq<Gen>, p: Policy, now: Time, i: int)
    requires 0 <= i < |gens| && Keeps(gens, p, now, i)
    ensures gens[i] in Kept(gens, p, now)
  {
    var e := KeptAt(gens, p, now);
    var k :| 0 <= k < |e| && e[k] == i;
    assert Kept(gens, p, now)[k] == gens[i];
  }

  lemma KeptFrom(gens: seq<Gen>, p: Policy, now: Time, g: Gen)
    requires g in Kept(gens, p, now)
    ensures exists i :: 0 <= i < |gens| && Keeps(gens, p, now, i) && gens[i] == g
  {
    var e := KeptAt(gens, p, now);
    var k :| 0 <= k < |e| && Kept(gens, p, now)[k] == g;
    InRange(e, k);
  }

  /** A group that goes stale, is swept, and then publishes again: its older member is gone for good. */
  lemma EarlySweepCosts(p: Policy)
    requires !RevivalFree(p)
    ensures exists old', new', t1, t2 :: t1 <= t2 && !EarlySweepHarmless(p, old', new', t1, t2)
  {
    var branch := if p.main.keepNewest > 1 then "main" else "pr";
    var s := p.staleAfter;
    var now := s + PolicyFor(p, branch).maxAge;
    var old', new' := [Dormant(branch), Busy(branch, s)], [Revived(branch, s)];
    DormantSwept(p, branch);
    DormantRevived(p, branch);
    assert old' + new' == [Dormant(branch), Busy(branch, s), Revived(branch, s)];
    KeptHas(old' + new', p, now, 0);
    var swept := Kept(old', p, now);
    if Dormant(branch) in swept {
      KeptFrom(old', p, now, Dormant(branch));
    }
    assert Dormant(branch) !in swept + new';
    if Dormant(branch) in Kept(swept + new', p, now) {
      KeptFrom(swept + new', p, now, Dormant(branch));
    }
    assert !EarlySweepHarmless(p, old', new', now, now);
  }

  /**
   * Sweeping early is invisible for every history exactly when staleness is off
   * or no group keeps more than one generation by count.
   */
  lemma EarlySweepHarmlessIff(p: Policy)
    ensures (forall old', new', t1, t2 :: t1 <= t2 ==> EarlySweepHarmless(p, old', new', t1, t2)) <==> RevivalFree(p)
  {
    if RevivalFree(p) {
      forall old', new', t1, t2 | t1 <= t2
        ensures EarlySweepHarmless(p, old', new', t1, t2)
      {
        EarlySweepSafe(p, old', new', t1, t2);
      }
    } else {
      EarlySweepCosts(p);
    }
  }

  // --- box and remote ------------------------------------------------------

  /** A policy that keeps by count only, like the box's. */
  predicate CountOnly(p: Policy) {
    p.main.maxAge == 0 && p.other.maxAge == 0 && p.staleAfter == 0
  }

  lemma CountOnlyKeeps(gens: seq<Gen>, q: Policy, now: Time, i: int)
    requires CountOnly(q) && 0 <= i < |gens|
    ensures Keeps(gens, q, now, i) <==> Rank(gens, i) < PolicyFor(q, gens[i].branch).keepNewest
  {
  }

  /** Positions both policies keep. */
  ghost function BothAt(gens: seq<Gen>, p: Policy, now: Time, q: Policy, then': Time): (e: seq<int>)
    ensures Increasing(e, |gens|)
    ensures forall i :: 0 <= i < |gens| ==> (i in Range(e) <==> Keeps(gens, p, now, i) && Keeps(gens, q, then', i))
  {
    Select(|gens|, i => 0 <= i < |gens| && Keeps(gens, p, now, i) && Keeps(gens, q, then', i))
  }

  /**
   * Applying a count-only rule to what another policy left keeps exactly what
   * both keep: mirroring first never makes the box keep more, or fewer.
   */
  lemma IntersectionLaw(gens: seq<Gen>, p: Policy, now: Time, q: Policy, then': Time)
    requires CountOnly(q)
    ensures Kept(Kept(gens, p, now), q, then') == At(gens, BothAt(gens, p, now, q, then'))
  {
    var e := KeptAt(gens, p, now);
    var sub := Kept(gens, p, now);
    forall k | 0 <= k < |sub|
      ensures Keeps(sub, q, then', k) <==> Keeps(gens, q, then', e[k])
    {
      InRange(e, k);
      AheadEmbedded(sub, gens, e, k);
      forall j | j in Ahead(gens, e[k])
        ensures j in Range(e)
      {
        PrefixKept(gens, p, now, j, e[k]);
      }
      assert Ahead(gens, e[k]) * Range(e) == Ahead(gens, e[k]);
      CountOnlyKeeps(sub, q, then', k);
      CountOnlyKeeps(gens, q, then', e[k]);
    }
    forall k | 0 <= k < |sub|
      ensures k in Range(KeptAt(sub, q, then')) <==> e[k] in Range(BothAt(gens, p, now, q, then'))
    {
      InRange(e, k);
    }
    SamePicks(sub, gens, e, KeptAt(sub, q, then'), BothAt(gens, p, now, q, then'));
  }

  /** On one common set of generations, what the box's rule keeps `p` keeps too. */
  ghost predicate BoxWithin(p: Policy) {
    forall gens: seq<Gen>, now: Time, i :: 0 <= i < |gens| && Keeps(gens, BOXED, now, i) ==> Keeps(gens, p, now, i)
  }

  lemma BoxNotWithin(p: Policy, gens: seq<Gen>, now: Time, i: int)
    requires 0 <= i < |gens| && Keeps(gens, BOXED, now, i) && !Keeps(gens, p, now, i)
    ensures !BoxWithin(p)
  {
  }

  /** Below three `main` or one other, the count itself separates them. */
  lemma BoxBeyondCount(p: Policy)
    requires p.main.keepNewest < 3 || p.other.keepNewest < 1
    ensures !BoxWithin(p)
  {
    if p.other.keepNewest < 1 {
      var gens := [Gen("x", "f", "pr", "a", 0)];
      assert Ahead(gens, 0) == {};
      BoxNotWithin(p, gens, p.other.maxAge, 0);
    } else {
      var a, b, c := Gen("a", "f", "main", "a", 2), Gen("b", "f", "main", "a", 1), Gen("c", "f", "main", "a", 0);
      var gens := [a, b, c];
      assert Ahead(gens, 0) == {};
      assert Ahead(gens, 1) == {0};
      assert Ahead(gens, 2) == {0, 1};
      BoxNotWithin(p, gens, p.main.maxAge + 2, p.main.keepNewest);
    }
  }

  /** With staleness on, a stale group separates them. */
  lemma BoxBeyondStale(p: Policy)
    requires p.staleAfter != 0
    ensures !BoxWithin(p)
  {
    var gens := [Gen("old", "f", "main", "a", 0), Gen("new", "f", "main", "b", p.staleAfter)];
    assert Ahead(gens, 0) == {};
    assert Leads(gens, p.staleAfter, 1, 0);
    BoxNotWithin(p, gens, p.main.maxAge, 0);
  }

  /**
   * The stated guarantee "box retained is within remote retained" holds for every
   * set of generations exactly when the remote policy never goes stale and keeps
   * at least as many by count; the remote default does not qualify.
   */
  lemma BoxWithinIff(p: Policy)
    ensures BoxWithin(p) <==> p.staleAfter == 0 && p.main.keepNewest >= 3 && p.other.keepNewest >= 1
    ensures !BoxWithin(REMOTE)
  {
    BoxBeyondStale(REMOTE);
    if p.staleAfter != 0 {
      BoxBeyondStale(p);
    } else if p.main.keepNewest < 3 || p.other.keepNewest < 1 {
      BoxBeyondCount(p);
    } else {
      forall gens: seq<Gen>, now: Time, i | 0 <= i < |gens| && Keeps(gens, BOXED, now, i)
        ensures Keeps(gens, p, now, i)
      {
        CountOnlyKeeps(gens, BOXED, now, i);
      }
    }
  }

  // --- prefix length -------------------------------------------------------

  ghost function Young(gens: seq<Gen>, p: Policy, now: Time, i: int): set<int>
    requires 0 <= i < |gens|
  {
    set j | 0 <= j < |gens| && GroupOf(gens[j]) == GroupOf(gens[i])
      && Since(now, gens[j].time) < PolicyFor(p, gens[i].branch).maxAge
  }

  /** How many of a group survive, counted from its newest. */
  ghost function KeptLength(gens: seq<Gen>, p: Policy, now: Time, i: int): nat
    requires 0 <= i < |gens|
  {
    var counted := if Stale(gens, p.staleAfter, i) then 0 else PolicyFor(p, gens[i].branch).keepNewest;
    var young := |Young(gens, p, now, i)|;
    if young < counted then counted else young
  }

  lemma YoungRank(gens: seq<Gen>, p: Policy, now: Time, i: int)
    requires 0 <= i < |gens|
    ensures Since(now, gens[i].time) < PolicyFor(p, gens[i].branch).maxAge <==> Rank(gens, i) < |Young(gens, p, now, i)|
  {
    var young := Young(gens, p, now, i);
    if i in young {
      assert Ahead(gens, i) <= young - {i};
      SubsetSize(Ahead(gens, i), young - {i});
    } else {
      assert young <= Ahead(gens, i);
      SubsetSize(young, Ahead(gens, i));
    }
  }

  /** A group keeps exactly its newest max(young, if stale then 0 else N) generations. */
  lemma KeptPrefix(gens: seq<Gen>, p: Policy, now: Time, i: int)
    requires 0 <= i < |gens|
    ensures Keeps(gens, p, now, i) <==> Rank(gens, i) < KeptLength(gens, p, now, i)
  {
    YoungRank(gens, p, now, i);
  }

  // --- monotonicity and locality -------------------------------------------

  /** `q` raises counts and ages, and raises or disables staleness. */
  predicate Looser(p: Policy, q: Policy) {
    && p.main.keepNewest <= q.main.keepNewest && p.main.maxAge <= q.main.maxAge
    && p.other.keepNewest <= q.other.keepNewest && p.other.maxAge <= q.other.maxAge
    && (q.staleAfter == 0 || (p.staleAfter != 0 && p.staleAfter <= q.staleAfter))
  }

  lemma PolicyMonotone(gens: seq<Gen>, p: Policy, q: Policy, now: Time, i: int)
    requires Looser(p, q) && 0 <= i < |gens|
    requires Keeps(gens, p, now, i)
    ensures Keeps(gens, q, now, i)
  {
    if Stale(gens, q.staleAfter, i) {
      var t :| 0 <= t < |gens| && Leads(gens, q.staleAfter, t, i);
      assert Leads(gens, p.staleAfter, t, i);
    }
  }

  lemma StaleInTier(sub: seq<Gen>, full: seq<Gen>, e: seq<int>, stale: Duration, k: int)
    requires Embeds(sub, full, e) && 0 <= k < |sub|
    requires forall i :: 0 <= i < |full| && TierOf(full[i]) == TierOf(sub[k]) ==> i in Range(e)
    requires Stale(full, stale, e[k])
    ensures Stale(sub, stale, k)
  {
    var t :| 0 <= t < |full| && Leads(full, stale, t, e[k]);
    assert t in Range(e);
    var m :| 0 <= m < |e| && e[m] == t;
    assert Leads(sub, stale, m, k);
  }

  lemma StaleFromTier(sub: seq<Gen>, full: seq<Gen>, e: seq<int>, stale: Duration, k: int)
    requires Embeds(sub, full, e) && 0 <= k < |sub|
    requires forall i :: 0 <= i < |full| && TierOf(full[i]) == TierOf(sub[k]) ==> i in Range(e)
    requires Stale(sub, stale, k)
    ensures Stale(full, stale, e[k])
  {
    var m :| 0 <= m < |sub| && Leads(sub, stale, m, k);
    forall i | 0 <= i < |full| && GroupOf(full[i]) == GroupOf(full[e[k]])
      ensures Since(full[e[m]].time, full[i].time) >= stale
    {
      assert i in Range(e);
      var j :| 0 <= j < |e| && e[j] == i;
      assert GroupOf(sub[j]) == GroupOf(sub[k]);
    }
    assert Leads(full, stale, e[m], e[k]);
  }

  /** Generations of other flakes or of the other tier change no verdict. */
  lemma Locality(sub: seq<Gen>, full: seq<Gen>, e: seq<int>, p: Policy, now: Time, k: int)
    requires Embeds(sub, full, e) && 0 <= k < |sub|
    requires forall i :: 0 <= i < |full| && TierOf(full[i]) == TierOf(sub[k]) ==> i in Range(e)
    ensures VerdictOf(sub, p, now, k) == VerdictOf(full, p, now, e[k])
  {
    hide Stale;
    AheadEmbedded(sub, full, e, k);
    assert Ahead(full, e[k]) * Range(e) == Ahead(full, e[k]);
    if Stale(full, p.staleAfter, e[k]) {
      StaleInTier(sub, full, e, p.staleAfter, k);
    }
    if Stale(sub, p.staleAfter, k) {
      StaleFromTier(sub, full, e, p.staleAfter, k);
    }
  }
}
