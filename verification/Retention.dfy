/** The retention selector shared by the box sweep and the remote sweep. */
module Retention {
  import opened Sets

  /** Seconds since the epoch; a generation may be dated before it or after `now`. */
  type Time = int
  type Duration = nat

  const WEEK: Duration := 7 * 24 * 3600

  /** `now.duration_since(t)`, with an error (a time in the future) read as zero. */
  function Since(now: Time, t: Time): Duration {
    if t <= now then now - t else 0
  }

  datatype GroupPolicy = GroupPolicy(keepNewest: nat, maxAge: Duration)

  /** `staleAfter == 0` disables staleness. */
  datatype Policy = Policy(main: GroupPolicy, other: GroupPolicy, staleAfter: Duration)

  const REMOTE := Policy(GroupPolicy(5, 4 * WEEK), GroupPolicy(1, WEEK), 4 * WEEK)
  const BOXED := Policy(GroupPolicy(3, 0), GroupPolicy(1, 0), 0)

  datatype Gen = Gen(id: string, flake: string, branch: string, attr: string, time: Time)

  datatype Verdict = KeepAge | KeepCount | DropStale | Drop {
    predicate Keeps() {
      KeepAge? || KeepCount?
    }
  }

  predicate IsMain(branch: string) {
    branch == "main"
  }

  function PolicyFor(p: Policy, branch: string): GroupPolicy {
    if IsMain(branch) then p.main else p.other
  }

  type GroupKey = (string, string, string)
  type TierKey = (string, bool)

  function GroupOf(g: Gen): GroupKey {
    (g.flake, g.branch, g.attr)
  }

  function TierOf(g: Gen): TierKey {
    (g.flake, IsMain(g.branch))
  }

  // --- the declarative rule ------------------------------------------------

  /** `j` comes before `i` newest-first; equal times keep input order. */
  predicate Before(gens: seq<Gen>, j: int, i: int)
    requires 0 <= j < |gens| && 0 <= i < |gens|
  {
    gens[j].time > gens[i].time || (gens[j].time == gens[i].time && j < i)
  }

  /** Members of `i`'s group that come before it. */
  ghost function Ahead(gens: seq<Gen>, i: int): set<int>
    requires 0 <= i < |gens|
  {
    set j | 0 <= j < |gens| && GroupOf(gens[j]) == GroupOf(gens[i]) && Before(gens, j, i)
  }

  ghost function Rank(gens: seq<Gen>, i: int): nat
    requires 0 <= i < |gens|
  {
    |Ahead(gens, i)|
  }

  /** `j` belongs to `i`'s tier and is at least `s` newer than every member of `i`'s group. */
  ghost predicate Leads(gens: seq<Gen>, s: Duration, j: int, i: int)
    requires 0 <= j < |gens| && 0 <= i < |gens|
  {
    && TierOf(gens[j]) == TierOf(gens[i])
    && forall k :: 0 <= k < |gens| && GroupOf(gens[k]) == GroupOf(gens[i]) ==> Since(gens[j].time, gens[k].time) >= s
  }

  /** The flake's tier has moved `s` past everything in `i`'s group. */
  ghost predicate Stale(gens: seq<Gen>, s: Duration, i: int)
    requires 0 <= i < |gens|
  {
    s != 0 && exists j :: 0 <= j < |gens| && Leads(gens, s, j, i)
  }

  ghost function VerdictOf(gens: seq<Gen>, p: Policy, now: Time, i: int): Verdict
    requires 0 <= i < |gens|
  {
    var gp := PolicyFor(p, gens[i].branch);
    if Since(now, gens[i].time) < gp.maxAge then KeepAge
    else if Rank(gens, i) >= gp.keepNewest then Drop
    else if Stale(gens, p.staleAfter, i) then DropStale
    else KeepCount
  }

  ghost predicate Keeps(gens: seq<Gen>, p: Policy, now: Time, i: int)
    requires 0 <= i < |gens|
  {
    VerdictOf(gens, p, now, i).Keeps()
  }

  /** Ids of the generations to retain. */
  ghost function Retain(gens: seq<Gen>, p: Policy, now: Time): set<string> {
    set i | 0 <= i < |gens| && Keeps(gens, p, now, i) :: gens[i].id
  }

  // --- the rule in the terms of a generation's fields ------------------------

  /** Same flake, branch and attribute. */
  ghost predicate Siblings(a: Gen, b: Gen) {
    a.flake == b.flake && a.branch == b.branch && a.attr == b.attr
  }

  /** Same flake, and both of branch `main` or neither. */
  ghost predicate SameTier(a: Gen, b: Gen) {
    a.flake == b.flake && (a.branch == "main" <==> b.branch == "main")
  }

  /** Siblings that are newer, or as new and ahead in the input. */
  ghost function NewerSiblings(gens: seq<Gen>, i: int): set<int>
    requires 0 <= i < |gens|
  {
    set j | 0 <= j < |gens| && Siblings(gens[j], gens[i])
      && (gens[j].time > gens[i].time || (gens[j].time == gens[i].time && j < i))
  }

  /** Some generation of the tier is this much newer than the generation and all its siblings. */
  ghost predicate LeftBehind(gens: seq<Gen>, lead: Duration, i: int)
    requires 0 <= i < |gens|
  {
    lead > 0 && exists j :: 0 <= j < |gens| && SameTier(gens[j], gens[i]) && AheadBy(gens, lead, j, i)
  }

  ghost predicate AheadBy(gens: seq<Gen>, lead: Duration, j: int, i: int)
    requires 0 <= i < |gens| && 0 <= j < |gens|
  {
    forall k :: 0 <= k < |gens| && Siblings(gens[k], gens[i]) ==> gens[j].time - gens[k].time >= lead
  }

  /** Younger than the age limit; a generation of the future is, unless the limit is zero. */
  ghost predicate WithinAge(rule: GroupPolicy, now: Time, g: Gen) {
    rule.maxAge > 0 && now - g.time < rule.maxAge
  }

  /** The verdict a rule gives: by age first, then by count, then by staleness. */
  ghost predicate Follows(gens: seq<Gen>, rule: GroupPolicy, staleAfter: Duration, now: Time, i: int, v: Verdict)
    requires 0 <= i < |gens|
  {
    var counted := |NewerSiblings(gens, i)| < rule.keepNewest;
    && (v == KeepAge <==> WithinAge(rule, now, gens[i]))
    && (v == Drop <==> !WithinAge(rule, now, gens[i]) && !counted)
    && (v == DropStale <==> !WithinAge(rule, now, gens[i]) && counted && LeftBehind(gens, staleAfter, i))
    && (v == KeepCount <==> !WithinAge(rule, now, gens[i]) && counted && !LeftBehind(gens, staleAfter, i))
  }

  /** Every verdict follows from the fields: branch `main` has one rule, every other branch the other. */
  lemma VerdictFollows(gens: seq<Gen>, p: Policy, now: Time, i: int)
    requires 0 <= i < |gens|
    ensures gens[i].branch == "main" ==> Follows(gens, p.main, p.staleAfter, now, i, VerdictOf(gens, p, now, i))
    ensures gens[i].branch != "main" ==> Follows(gens, p.other, p.staleAfter, now, i, VerdictOf(gens, p, now, i))
  {
    assert Ahead(gens, i) == NewerSiblings(gens, i);
    StaleIsLeft(gens, p.staleAfter, i);
    hide Ahead, NewerSiblings, Stale, LeftBehind;
  }

  lemma StaleIsLeft(gens: seq<Gen>, lead: Duration, i: int)
    requires 0 <= i < |gens|
    ensures Stale(gens, lead, i) <==> LeftBehind(gens, lead, i)
  {
    if Stale(gens, lead, i) {
      var j :| 0 <= j < |gens| && Leads(gens, lead, j, i);
      forall k | 0 <= k < |gens| && Siblings(gens[k], gens[i])
        ensures gens[j].time - gens[k].time >= lead
      {
        assert GroupOf(gens[k]) == GroupOf(gens[i]);
      }
      assert SameTier(gens[j], gens[i]) && AheadBy(gens, lead, j, i);
    }
    if LeftBehind(gens, lead, i) {
      var j :| 0 <= j < |gens| && SameTier(gens[j], gens[i]) && AheadBy(gens, lead, j, i);
      forall k | 0 <= k < |gens| && GroupOf(gens[k]) == GroupOf(gens[i])
        ensures Since(gens[j].time, gens[k].time) >= lead
      {
        assert Siblings(gens[k], gens[i]);
      }
      assert Leads(gens, lead, j, i);
    }
  }

  /** What retention keeps: young enough, or among the newest of a group that is not left behind. */
  ghost predicate Deserves(gens: seq<Gen>, p: Policy, now: Time, i: int)
    requires 0 <= i < |gens|
  {
    var rule := if gens[i].branch == "main" then p.main else p.other;
    || WithinAge(rule, now, gens[i])
    || (|NewerSiblings(gens, i)| < rule.keepNewest && !LeftBehind(gens, p.staleAfter, i))
  }

  lemma KeepsIffDeserves(gens: seq<Gen>, p: Policy, now: Time, i: int)
    requires 0 <= i < |gens|
    ensures Keeps(gens, p, now, i) <==> Deserves(gens, p, now, i)
  {
    VerdictFollows(gens, p, now, i);
    hide NewerSiblings, LeftBehind, VerdictOf;
  }

  /** With counts only: kept iff fewer than the tier's number come before it, three and one on the box. */
  lemma CountsOnly(gens: seq<Gen>, p: Policy, now: Time, i: int)
    requires 0 <= i < |gens| && p.staleAfter == 0 && p.main.maxAge == 0 && p.other.maxAge == 0
    ensures gens[i].branch == "main" ==>
      (Keeps(gens, p, now, i) <==> |NewerSiblings(gens, i)| < p.main.keepNewest)
    ensures gens[i].branch != "main" ==>
      (Keeps(gens, p, now, i) <==> |NewerSiblings(gens, i)| < p.other.keepNewest)
  {
    KeepsIffDeserves(gens, p, now, i);
    hide NewerSiblings, Keeps;
  }

  /** Two generations of one flake share a tier exactly when both are of branch `main` or neither is. */
  lemma TierShared(a: Gen, b: Gen)
    ensures TierOf(a) == TierOf(b) <==> a.flake == b.flake && (a.branch == "main" <==> b.branch == "main")
    ensures GroupOf(a) == GroupOf(b) <==> a.flake == b.flake && a.branch == b.branch && a.attr == b.attr
  {
  }

  /** The defaults, in seconds. */
  lemma Defaults()
    ensures REMOTE == Policy(GroupPolicy(5, 2_419_200), GroupPolicy(1, 604_800), 2_419_200)
    ensures BOXED == Policy(GroupPolicy(3, 0), GroupPolicy(1, 0), 0)
  {
  }

  // --- the algorithm -------------------------------------------------------

  ghost predicate SortedNewestFirst(gens: seq<Gen>, group: seq<int>)
    requires forall k :: 0 <= k < |group| ==> 0 <= group[k] < |gens|
  {
    forall j, k :: 0 <= j < k < |group| ==> Before(gens, group[j], group[k])
  }

  /** Stable in-place sort by descending time. On input in index order, stability makes `Before` its order. */
  method SortNewestFirst(gens: seq<Gen>, group: array<int>)
    requires Increasing(group[..], |gens|)
    modifies group
    ensures Injective(group[..], |gens|)
    ensures Range(group[..]) == Range(old(group[..]))
    ensures SortedNewestFirst(gens, group[..])
  {
    IncreasingIsInjective(group[..], |gens|);
    var n := 0;
    while n < group.Length
      invariant 0 <= n <= group.Length
      invariant Injective(group[..], |gens|)
      invariant Range(group[..]) == Range(old(group[..]))
      invariant SortedNewestFirst(gens, group[..n])
      invariant forall k :: n <= k < group.Length ==> group[k] == old(group[k])
      invariant forall j, k :: 0 <= j < n <= k < group.Length ==> group[j] < group[k]
    {
      Insert(gens, group, n);
      n := n + 1;
    }
    assert group[..n] == group[..];
  }

  ghost predicate PartlySorted(gens: seq<Gen>, group: seq<int>, n: int, hole: int)
    requires forall k :: 0 <= k < |group| ==> 0 <= group[k] < |gens|
    requires 0 <= hole <= n < |group|
  {
    forall j, k :: 0 <= j < k <= n && k != hole ==>
      (j == hole && Before(gens, group[hole], group[k])) || (j != hole && Before(gens, group[j], group[k]))
  }

  /** Entry `n` of `was` on its way left, now at `hole`; the others below it are still sorted. */
  ghost predicate Inserting(gens: seq<Gen>, was: seq<int>, now: seq<int>, n: int, hole: int) {
    && 0 <= hole <= n < |was| == |now|
    && Injective(now, |gens|) && Range(now) == Range(was)
    && now[hole] == was[n]
    && PartlySorted(gens, now, n, hole)
    && (forall k :: n < k < |now| ==> now[k] == was[k])
    && (forall j :: 0 <= j <= n && j != hole ==> now[j] < was[n])
  }

  lemma InsertStart(gens: seq<Gen>, group: seq<int>, n: int)
    requires 0 <= n < |group| && Injective(group, |gens|)
    requires SortedNewestFirst(gens, group[..n]) && forall j :: 0 <= j < n ==> group[j] < group[n]
    ensures Inserting(gens, group, group, n, n)
    ensures forall k :: 0 <= k < |group| ==> 0 <= group[k] < |gens|
  {
    hide Range, Before;
    forall j, k | 0 <= j < k <= n && k != n
      ensures Before(gens, group[j], group[k])
    {
      assert group[..n][j] == group[j] && group[..n][k] == group[k];
    }
  }

  /** Past one older entry, to which it then stands in the right order. */
  lemma InsertStep(gens: seq<Gen>, was: seq<int>, now: seq<int>, n: int, hole: int)
    requires Inserting(gens, was, now, n, hole) && hole > 0
    requires gens[now[hole - 1]].time < gens[now[hole]].time
    ensures Inserting(gens, was, now[hole - 1 := now[hole]][hole := now[hole - 1]], n, hole - 1)
    ensures forall k :: 0 <= k < |now| ==> 0 <= now[k] < |gens|
  {
    var next := now[hole - 1 := now[hole]][hole := now[hole - 1]];
    SwapKeeps(now, next, |gens|, hole - 1);
    hide Range, Injective, Before;
    assert Before(gens, next[hole - 1], next[hole]) by {
      NewerBefore(gens, next[hole - 1], next[hole]);
    }
    forall j, k | 0 <= j < k <= n && k != hole - 1
      ensures Before(gens, next[j], next[k])
    {
      SwappedPair(gens, now, next, n, hole, j, k);
    }
  }

  lemma NewerBefore(gens: seq<Gen>, i: int, j: int)
    requires 0 <= i < |gens| && 0 <= j < |gens| && gens[j].time < gens[i].time
    ensures Before(gens, i, j)
  {
  }

  lemma SwappedPair(gens: seq<Gen>, now: seq<int>, next: seq<int>, n: int, hole: int, j: int, k: int)
    requires forall i :: 0 <= i < |now| ==> 0 <= now[i] < |gens|
    requires 0 < hole <= n < |now| && next == now[hole - 1 := now[hole]][hole := now[hole - 1]]
    requires PartlySorted(gens, now, n, hole) && Before(gens, next[hole - 1], next[hole])
    requires 0 <= j < k <= n && k != hole - 1
    ensures Before(gens, next[j], next[k])
  {
    hide Before;
    var j' := if j == hole - 1 then hole else if j == hole then hole - 1 else j;
    var k' := if k == hole then hole - 1 else k;
    assert next[j] == now[j'] && next[k] == now[k'];
  }

  /** It stops where the entry to its left is not older. */
  lemma InsertEnd(gens: seq<Gen>, was: seq<int>, now: seq<int>, n: int, hole: int)
    requires Inserting(gens, was, now, n, hole)
    requires hole == 0 || gens[now[hole - 1]].time >= gens[now[hole]].time
    ensures SortedNewestFirst(gens, now[..n + 1])
    ensures Injective(now, |gens|) && Range(now) == Range(was)
    ensures forall k :: n < k < |now| ==> now[k] == was[k]
    ensures forall j :: 0 <= j <= n ==> now[j] <= was[n]
  {
    hide Range;
    forall j, k | 0 <= j < k <= n
      ensures Before(gens, now[j], now[k])
    {
      if k == hole && j < hole - 1 {
        assert Before(gens, now[j], now[hole - 1]);
      }
    }
  }

  /** Move entry `n` left past every sorted entry it is newer than. */
  method Insert(gens: seq<Gen>, group: array<int>, n: int)
    requires 0 <= n < group.Length
    requires Injective(group[..], |gens|)
    requires SortedNewestFirst(gens, group[..n])
    requires forall j :: 0 <= j < n ==> group[j] < group[n]
    modifies group
    ensures Injective(group[..], |gens|)
    ensures Range(group[..]) == Range(old(group[..]))
    ensures SortedNewestFirst(gens, group[..n + 1])
    ensures forall k :: n < k < group.Length ==> group[k] == old(group[k])
    ensures forall j :: 0 <= j <= n ==> group[j] <= old(group[n])
  {
    hide Injective, Range, SortedNewestFirst, PartlySorted, Inserting;
    ghost var was := group[..];
    var hole := n;
    InsertStart(gens, was, n);
    while hole > 0 && gens[group[hole - 1]].time < gens[group[hole]].time
      invariant 0 <= hole <= n && Inserting(gens, was, group[..], n, hole)
      invariant forall k :: 0 <= k < group.Length ==> 0 <= group[k] < |gens|
    {
      ghost var before := group[..];
      InsertStep(gens, was, before, n, hole);
      group[hole], group[hole - 1] := group[hole - 1], group[hole];
      hole := hole - 1;
      assert group[..] == before[hole := before[hole + 1]][hole + 1 := before[hole]];
    }
    InsertEnd(gens, was, group[..], n, hole);
  }

  lemma SwapKeeps(was: seq<int>, now: seq<int>, n: int, k: int)
    requires 0 <= k && k + 1 < |was| == |now|
    requires now == was[k := was[k + 1]][k + 1 := was[k]]
    requires Injective(was, n)
    ensures Injective(now, n)
    ensures Range(now) == Range(was)
  {
    forall v
      ensures v in Range(now) <==> v in Range(was)
    {
      if v in Range(was) {
        var j :| 0 <= j < |was| && was[j] == v;
        var j' := if j == k then k + 1 else if j == k + 1 then k else j;
        assert now[j'] == v;
      }
      if v in Range(now) {
        var j :| 0 <= j < |now| && now[j] == v;
        var j' := if j == k then k + 1 else if j == k + 1 then k else j;
        assert was[j'] == v;
      }
    }
  }

  /** `list` holds, in input order, every index below `n` whose group is `key`. */
  ghost predicate Files(gens: seq<Gen>, n: nat, key: GroupKey, list: seq<int>)
    requires n <= |gens|
  {
    && list != []
    && Increasing(list, n)
    && forall i :: 0 <= i < n ==> (i in Range(list) <==> GroupOf(gens[i]) == key)
  }

  /** The index lists built so far: every index below `n` filed under its own group. */
  ghost predicate Grouped(gens: seq<Gen>, n: nat, groups: map<GroupKey, seq<int>>)
    requires n <= |gens|
  {
    && (forall i :: 0 <= i < n ==> GroupOf(gens[i]) in groups)
    && (forall key :: key in groups ==> Files(gens, n, key, groups[key]))
  }

  ghost predicate TierMax(gens: seq<Gen>, n: nat, key: TierKey, t: Time)
    requires n <= |gens|
  {
    && (exists i :: 0 <= i < n && TierOf(gens[i]) == key && gens[i].time == t)
    && (forall i :: 0 <= i < n && TierOf(gens[i]) == key ==> gens[i].time <= t)
  }

  ghost predicate TierNewest(gens: seq<Gen>, n: nat, newest: map<TierKey, Time>)
    requires n <= |gens|
  {
    && (forall i :: 0 <= i < n ==> TierOf(gens[i]) in newest)
    && (forall key :: key in newest ==> TierMax(gens, n, key, newest[key]))
  }

  lemma FilesStep(gens: seq<Gen>, n: nat, key: GroupKey, list: seq<int>)
    requires n < |gens| && GroupOf(gens[n]) == key
    requires Files(gens, n, key, list) || (list == [] && forall i :: 0 <= i < n ==> GroupOf(gens[i]) != key)
    ensures Files(gens, n + 1, key, list + [n])
  {
    RangeOfAppend(list, n);
    if list == [] {
      assert Range(list) == {};
    }
  }

  lemma FilesSkip(gens: seq<Gen>, n: nat, key: GroupKey, list: seq<int>)
    requires n < |gens| && GroupOf(gens[n]) != key
    requires Files(gens, n, key, list)
    ensures Files(gens, n + 1, key, list)
  {
  }

  lemma GroupedStep(gens: seq<Gen>, n: nat, groups: map<GroupKey, seq<int>>)
    requires n < |gens| && Grouped(gens, n, groups)
    ensures
      var key := GroupOf(gens[n]);
      Grouped(gens, n + 1, groups[key := (if key in groups then groups[key] else []) + [n]])
  {
    var key := GroupOf(gens[n]);
    FilesStep(gens, n, key, if key in groups then groups[key] else []);
    forall other | other in groups && other != key {
      FilesSkip(gens, n, other, groups[other]);
    }
  }

  lemma TierStep(gens: seq<Gen>, n: nat, newest: map<TierKey, Time>)
    requires n < |gens| && TierNewest(gens, n, newest)
    ensures
      var tier := TierOf(gens[n]);
      var t := if tier in newest then newest[tier] else gens[n].time;
      TierNewest(gens, n + 1, newest[tier := if t < gens[n].time then gens[n].time else t])
  {
  }

  /** What a group's pass starts from: its members, and the newest time of its tier. */
  lemma PickGroup(gens: seq<Gen>, groups: map<GroupKey, seq<int>>, newest: map<TierKey, Time>, key: GroupKey)
    requires Grouped(gens, |gens|, groups) && TierNewest(gens, |gens|, newest) && key in groups
    ensures Files(gens, |gens|, key, groups[key])
    ensures (key.0, IsMain(key.1)) in newest
    ensures TierMax(gens, |gens|, (key.0, IsMain(key.1)), newest[(key.0, IsMain(key.1))])
  {
    hide TierMax;
    InRange(groups[key], 0);
    assert TierOf(gens[groups[key][0]]) == (key.0, IsMain(key.1));
  }

  lemma NoneGrouped(gens: seq<Gen>)
    ensures Grouped(gens, 0, map[]) && TierNewest(gens, 0, map[])
  {
  }

  lemma AllGrouped(gens: seq<Gen>, groups: map<GroupKey, seq<int>>)
    requires Grouped(gens, |gens|, groups)
    ensures forall i :: 0 <= i < |gens| ==> GroupOf(gens[i]) in groups.Keys
  {
  }

  /**
   * One verdict per generation, in input order. The groups are visited in an
   * arbitrary order, as the source's hash map does.
   */
  method Verdicts(gens: seq<Gen>, policy: Policy, now: Time) returns (verdicts: seq<Verdict>)
    ensures |verdicts| == |gens|
    ensures forall i :: 0 <= i < |gens| ==> verdicts[i] == VerdictOf(gens, policy, now, i)
    ensures forall i :: 0 <= i < |gens| ==>
      Follows(gens, if gens[i].branch == "main" then policy.main else policy.other, policy.staleAfter, now, i,
        verdicts[i])
  {
    hide Follows;
    hide Grouped, TierNewest, Files, TierMax, VerdictOf, IsMain;
    var groups: map<GroupKey, seq<int>> := map[];
    NoneGrouped(gens);
    var tierNewest: map<TierKey, Time> := map[];
    for i := 0 to |gens|
      invariant Grouped(gens, i, groups)
      invariant TierNewest(gens, i, tierNewest)
    {
      var g := gens[i];
      GroupedStep(gens, i, groups);
      TierStep(gens, i, tierNewest);
      var key := GroupOf(g);
      groups := groups[key := (if key in groups then groups[key] else []) + [i]];
      var tier := TierOf(g);
      var t := if tier in tierNewest then tierNewest[tier] else g.time;
      tierNewest := tierNewest[tier := if t < g.time then g.time else t];
    }
    AllGrouped(gens, groups);
    var out := new Verdict[|gens|](_ => Drop);
    var todo := groups.Keys;
    while todo != {}
      invariant todo <= groups.Keys
      invariant forall i :: 0 <= i < |gens| && GroupOf(gens[i]) !in todo ==> out[i] == VerdictOf(gens, policy, now, i)
      decreases |todo|
    {
      var key :| key in todo;
      todo := todo - {key};
      PickGroup(gens, groups, tierNewest, key);
      JudgeGroup(gens, policy, now, key, groups[key], tierNewest[(key.0, IsMain(key.1))], out);
    }
    verdicts := out[..];
    AllFollow(gens, policy, now);
  }

  lemma AllFollow(gens: seq<Gen>, p: Policy, now: Time)
    ensures forall i :: 0 <= i < |gens| ==>
      Follows(gens, if gens[i].branch == "main" then p.main else p.other, p.staleAfter, now, i,
        VerdictOf(gens, p, now, i))
  {
    hide Follows, VerdictOf;
    forall i | 0 <= i < |gens|
      ensures Follows(gens, if gens[i].branch == "main" then p.main else p.other, p.staleAfter, now, i,
        VerdictOf(gens, p, now, i))
    {
      VerdictFollows(gens, p, now, i);
    }
  }

  lemma RankInGroup(gens: seq<Gen>, group: seq<int>, idx: int)
    requires Injective(group, |gens|)
    requires SortedNewestFirst(gens, group)
    requires 0 <= idx < |group|
    requires forall i :: 0 <= i < |gens| ==> (i in Range(group) <==> GroupOf(gens[i]) == GroupOf(gens[group[idx]]))
    ensures Rank(gens, group[idx]) == idx
  {
    var positions := Below(idx);
    assert forall k :: idx < k < |group| ==> Before(gens, group[idx], group[k]);
    forall i
      ensures i in Image(group, positions) <==> i in Ahead(gens, group[idx])
    {
      if i in Image(group, positions) {
        var k :| k in positions && group[k] == i;
        InRange(group, k);
        assert Before(gens, group[k], group[idx]);
      }
      if i in Ahead(gens, group[idx]) {
        assert i in Range(group);
        var k :| 0 <= k < |group| && group[k] == i;
        assert k in positions;
      }
    }
    assert Image(group, positions) == Ahead(gens, group[idx]);
    ImageSize(group, |gens|, positions);
  }

  lemma StaleByLead(gens: seq<Gen>, s: Duration, tierNewest: Time, newest: int, i: int)
    requires 0 <= newest < |gens| && 0 <= i < |gens|
    requires GroupOf(gens[newest]) == GroupOf(gens[i])
    requires forall k :: 0 <= k < |gens| && GroupOf(gens[k]) == GroupOf(gens[i]) ==> gens[k].time <= gens[newest].time
    requires TierMax(gens, |gens|, TierOf(gens[i]), tierNewest)
    ensures Stale(gens, s, i) <==> s != 0 && Since(tierNewest, gens[newest].time) >= s
  {
    var top :| 0 <= top < |gens| && TierOf(gens[top]) == TierOf(gens[i]) && gens[top].time == tierNewest;
    if s != 0 && Since(tierNewest, gens[newest].time) >= s {
      assert Leads(gens, s, top, i);
    }
  }

  /** What the loop computes for the member at position `idx` of its sorted group is the declared verdict. */
  lemma VerdictInGroup(gens: seq<Gen>, policy: Policy, now: Time, sorted: seq<int>, tierNewest: Time, idx: int)
    requires Injective(sorted, |gens|)
    requires SortedNewestFirst(gens, sorted)
    requires 0 <= idx < |sorted|
    requires forall i :: 0 <= i < |gens| ==> (i in Range(sorted) <==> GroupOf(gens[i]) == GroupOf(gens[sorted[idx]]))
    requires TierMax(gens, |gens|, TierOf(gens[sorted[idx]]), tierNewest)
    ensures
      var i := sorted[idx];
      var gp := PolicyFor(policy, gens[i].branch);
      var stale := policy.staleAfter != 0 && Since(tierNewest, gens[sorted[0]].time) >= policy.staleAfter;
      VerdictOf(gens, policy, now, i) ==
      if Since(now, gens[i].time) < gp.maxAge then KeepAge
      else if idx >= gp.keepNewest then Drop
      else if stale then DropStale
      else KeepCount
  {
    var i := sorted[idx];
    RankInGroup(gens, sorted, idx);
    InRange(sorted, 0);
    forall k | 0 <= k < |gens| && GroupOf(gens[k]) == GroupOf(gens[i])
      ensures gens[k].time <= gens[sorted[0]].time
    {
      assert k in Range(sorted);
      var j :| 0 <= j < |sorted| && sorted[j] == k;
      assert j == 0 || Before(gens, sorted[0], sorted[j]);
    }
    StaleByLead(gens, policy.staleAfter, tierNewest, sorted[0], i);
  }

  /** Sort one group and write each member's verdict into its slot; no other slot changes. */
  method JudgeGroup(gens: seq<Gen>, policy: Policy, now: Time, ghost key: GroupKey, members: seq<int>, tierNewest: Time,
    out: array<Verdict>)
    requires out.Length == |gens|
    requires Files(gens, |gens|, key, members)
    requires TierMax(gens, |gens|, (key.0, IsMain(key.1)), tierNewest)
    modifies out
    ensures forall i :: 0 <= i < |gens| && GroupOf(gens[i]) != key ==> out[i] == old(out[i])
    ensures forall i :: 0 <= i < |gens| && GroupOf(gens[i]) == key ==> out[i] == VerdictOf(gens, policy, now, i)
  {
    var group := new int[|members|](k requires 0 <= k < |members| => members[k]);
    assert group[..] == members;
    SortNewestFirst(gens, group);
    ghost var sorted := group[..];
    forall k | 0 <= k < |sorted|
      ensures GroupOf(gens[sorted[k]]) == key
    {
      InRange(sorted, k);
    }
    JudgeSorted(gens, policy, now, key, group[..], tierNewest, out);
    forall i | 0 <= i < |gens| && GroupOf(gens[i]) == key
      ensures out[i] == VerdictOf(gens, policy, now, i)
    {
      assert i in Range(sorted);
      var k :| 0 <= k < |sorted| && sorted[k] == i;
    }
  }

  method JudgeSorted(gens: seq<Gen>, policy: Policy, now: Time, ghost key: GroupKey, group: seq<int>, tierNewest: Time,
    out: array<Verdict>)
    requires out.Length == |gens|
    requires group != [] && Injective(group, |gens|) && SortedNewestFirst(gens, group)
    requires forall i :: 0 <= i < |gens| ==> (i in Range(group) <==> GroupOf(gens[i]) == key)
    requires forall k :: 0 <= k < |group| ==> GroupOf(gens[group[k]]) == key
    requires TierMax(gens, |gens|, (key.0, IsMain(key.1)), tierNewest)
    modifies out
    ensures forall i :: 0 <= i < |gens| && GroupOf(gens[i]) != key ==> out[i] == old(out[i])
    ensures forall k :: 0 <= k < |group| ==> out[group[k]] == VerdictOf(gens, policy, now, group[k])
  {
    var head := gens[group[0]];
    var p := PolicyFor(policy, head.branch);
    var lead := Since(tierNewest, head.time);
    var stale := policy.staleAfter != 0 && lead >= policy.staleAfter;
    for idx := 0 to |group|
      invariant forall k :: 0 <= k < idx ==> out[group[k]] == VerdictOf(gens, policy, now, group[k])
      invariant forall i :: 0 <= i < |gens| && GroupOf(gens[i]) != key ==> out[i] == old(out[i])
    {
      var i := group[idx];
      VerdictInGroup(gens, policy, now, group, tierNewest, idx);
      var age := Since(now, gens[i].time);
      out[i] := if age < p.maxAge then KeepAge
                else if idx >= p.keepNewest then Drop
                else if stale then DropStale
                else KeepCount;
    }
  }

  /** Ids of the kept generations, read off the verdicts. */
  lemma RetainIsDeserved(gens: seq<Gen>, p: Policy, now: Time)
    ensures forall id :: id in Retain(gens, p, now) <==>
      exists i :: 0 <= i < |gens| && gens[i].id == id && Deserves(gens, p, now, i)
  {
    hide Keeps, Deserves;
    forall i | 0 <= i < |gens|
      ensures Keeps(gens, p, now, i) <==> Deserves(gens, p, now, i)
    {
      KeepsIffDeserves(gens, p, now, i);
    }
  }

  method RetainIds(gens: seq<Gen>, policy: Policy, now: Time) returns (ids: set<string>)
    ensures ids == Retain(gens, policy, now)
    ensures forall id :: id in ids <==>
      exists i :: 0 <= i < |gens| && gens[i].id == id && Deserves(gens, policy, now, i)
  {
    RetainIsDeserved(gens, policy, now);
    hide Deserves, Follows;
    var verdicts := Verdicts(gens, policy, now);
    ids := set i | 0 <= i < |gens| && verdicts[i].Keeps() :: gens[i].id;
  }
}
