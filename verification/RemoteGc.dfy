/** What a remote sweep deletes, as a function of the bucket, and the laws that make it safe to repeat. */
module RemoteGc {
  import opened Wrappers
  import opened Sets
  import opened Retention
  import opened RetentionLaws
  import Schedules
  import opened Keys
  import opened Objects

  /** `order` lists the manifests of the bucket, each once: the order their reads completed in. */
  ghost predicate ManifestOrder(b: Bucket, order: seq<string>) {
    && (forall j, k :: 0 <= j < k < |order| ==> order[j] != order[k])
    && (forall key :: key in order <==> key in b && Classify(key).RootObject? && IsManifest(b, key))
  }

  ghost function Gens(b: Bucket, order: seq<string>): seq<Gen>
    requires forall k :: 0 <= k < |order| ==> IsManifest(b, order[k])
  {
    seq(|order|, k requires 0 <= k < |order| && IsManifest(b, order[k]) =>
      ToGen(order[k], b[order[k]].body.manifest.value))
  }

  /** Keys of the retained manifests. */
  ghost function Keep(b: Bucket, order: seq<string>, p: Policy, now: Time): set<string>
    requires ManifestOrder(b, order)
  {
    Retain(Gens(b, order), p, now)
  }

  /** The union of the retained closures. */
  ghost function Mark(b: Bucket, keep: set<string>): set<string> {
    set key, h | key in keep && IsManifest(b, key) && h in Hashes(b[key].body.manifest.value) :: h
  }

  /** NARs named by the marked narinfos. */
  ghost function Live(b: Bucket, mark: set<string>): set<string> {
    set h | h in mark && UrlIn(b, h).Some? :: UrlIn(b, h).value
  }

  /** The sweep has no business deleting this key: it is retained, marked, live, or not its own. */
  predicate Held(key: string, keep: set<string>, mark: set<string>, live: set<string>) {
    match Classify(key)
    case RootObject => key in keep
    case InfoObject(h) => h in mark
    case NarObject => key in live
    case Foreign => true
  }

  predicate IsYoung(now: Time, t: Time, grace: Duration) {
    Since(now, t) < grace
  }

  /** Inside the grace window: younger than that, the future included; with no window nothing is. */
  ghost predicate WithinGrace(now: Time, t: Time, grace: Duration) {
    grace > 0 && now - t < grace
  }

  lemma YoungSpelled(now: Time, grace: Duration)
    ensures forall t :: IsYoung(now, t, grace) <==> grace > 0 && now - t < grace
    ensures forall t :: IsYoung(now, t, grace) <==> WithinGrace(now, t, grace)
  {
  }

  /** Listed keys that are neither held nor young. */
  ghost function Condemned(listing: map<string, Time>, keep: set<string>, mark: set<string>, live: set<string>,
    now: Time, grace: Duration): set<string> {
    set key | key in listing && !Held(key, keep, mark, live) && !IsYoung(now, listing[key], grace)
  }

  ghost function Listing(b: Bucket): map<string, Time> {
    map key | key in b :: b[key].time
  }

  ghost function KillIn(b: Bucket, keep: set<string>, now: Time, grace: Duration): set<string> {
    var mark := Mark(b, keep);
    Condemned(Listing(b), keep, mark, Live(b, mark), now, grace)
  }

  /** What one undisturbed sweep deletes. */
  ghost function Kill(b: Bucket, order: seq<string>, p: Policy, now: Time, grace: Duration): set<string>
    requires ManifestOrder(b, order)
  {
    KillIn(b, Keep(b, order, p, now), now, grace)
  }

  lemma KeepMember(b: Bucket, order: seq<string>, p: Policy, now: Time, key: string)
    requires ManifestOrder(b, order)
    ensures key in Keep(b, order, p, now) <==>
      exists i :: 0 <= i < |order| && order[i] == key && Keeps(Gens(b, order), p, now, i)
  {
    var gens := Gens(b, order);
    if key in Keep(b, order, p, now) {
      var i :| 0 <= i < |gens| && Keeps(gens, p, now, i) && gens[i].id == key;
      assert order[i] == key;
    }
    if i :| 0 <= i < |order| && order[i] == key && Keeps(gens, p, now, i) {
      assert gens[i].id == key;
    }
  }

  // --- repeated and interrupted sweeps -------------------------------------

  /** The bucket after part of a sweep's deletions, and the reading order that leaves. */
  ghost predicate Interrupted(b: Bucket, order: seq<string>, gone: set<string>, b': Bucket, order': seq<string>,
    e: seq<int>, p: Policy, now: Time, grace: Duration)
    requires ManifestOrder(b, order)
  {
    && gone <= Kill(b, order, p, now, grace)
    && b' == b - gone
    && ManifestOrder(b', order')
    && |e| == |order'| && Increasing(e, |order|)
    && forall k :: 0 <= k < |order'| ==> order'[k] == order[e[k]]
  }

  lemma RemainderCovers(b: Bucket, order: seq<string>, gone: set<string>, b': Bucket, order': seq<string>, e: seq<int>,
    p: Policy, t1: Time, t2: Time, grace: Duration)
    requires ManifestOrder(b, order) && t1 <= t2
    requires Interrupted(b, order, gone, b', order', e, p, t1, grace)
    ensures Embeds(Gens(b', order'), Gens(b, order), e)
    ensures CoversKept(e, Gens(b, order), p, t2)
    ensures Keep(b, order, p, t2) <= Keep(b, order, p, t1)
  {
    var full := Gens(b, order);
    forall i | 0 <= i < |full| && Keeps(full, p, t2, i)
      ensures i in Range(e) && full[i].id in Keep(b, order, p, t1)
    {
      KeptEarlier(full, p, t1, t2, i);
      assert full[i].id == order[i];
      KeepMember(b, order, p, t1, order[i]);
      assert order[i] in order && order[i] !in gone;
      assert order[i] in order';
      var k :| 0 <= k < |order'| && order'[k] == order[i];
      assert e[k] == i;
      InRange(e, k);
    }
  }

  lemma SameKeep(b: Bucket, order: seq<string>, gone: set<string>, b': Bucket, order': seq<string>, e: seq<int>,
    p: Policy, t1: Time, t2: Time, grace: Duration)
    requires ManifestOrder(b, order) && t1 <= t2
    requires Interrupted(b, order, gone, b', order', e, p, t1, grace)
    ensures Keep(b', order', p, t2) == Keep(b, order, p, t2)
    ensures Keep(b, order, p, t2) <= Keep(b, order, p, t1)
  {
    RemainderCovers(b, order, gone, b', order', e, p, t1, t2, grace);
    Stability(Gens(b', order'), Gens(b, order), e, p, t2);
  }

  lemma KeepIsManifests(b: Bucket, order: seq<string>, p: Policy, now: Time)
    requires ManifestOrder(b, order)
    ensures forall key :: key in Keep(b, order, p, now) ==> IsManifest(b, key) && Classify(key).RootObject?
  {
    forall key | key in Keep(b, order, p, now)
      ensures IsManifest(b, key) && Classify(key).RootObject?
    {
      KeepMember(b, order, p, now, key);
      assert key in order;
    }
  }

  /** Deleting part of a kill list leaves every mark and every live URL a later sweep computes unchanged. */
  lemma SameMarks(b: Bucket, keep1: set<string>, keep2: set<string>, gone: set<string>, t1: Time, grace: Duration)
    requires keep2 <= keep1 && gone <= KillIn(b, keep1, t1, grace)
    requires forall key :: key in keep1 ==> IsManifest(b, key) && Classify(key).RootObject?
    ensures Mark(b - gone, keep2) == Mark(b, keep2) <= Mark(b, keep1)
    ensures Live(b - gone, Mark(b, keep2)) == Live(b, Mark(b, keep2)) <= Live(b, Mark(b, keep1))
  {
    var b' := b - gone;
    assert forall key :: key in keep1 ==> key !in gone;
    forall h
      ensures h in Mark(b', keep2) <==> h in Mark(b, keep2)
      ensures h in Mark(b, keep2) ==> h in Mark(b, keep1)
    {
      if h in Mark(b, keep2) {
        var key :| key in keep2 && IsManifest(b, key) && h in Hashes(b[key].body.manifest.value);
        assert key in keep1 && IsManifest(b', key) && b'[key] == b[key];
      }
    }
    assert Mark(b', keep2) == Mark(b, keep2);
    assert Mark(b, keep2) <= Mark(b, keep1);
    forall h | h in Mark(b, keep2)
      ensures UrlIn(b', h) == UrlIn(b, h)
    {
      MarkedNotKilled(b, keep1, h, t1, grace);
    }
    assert Live(b', Mark(b, keep2)) == Live(b, Mark(b, keep2));
  }

  lemma MarkedNotKilled(b: Bucket, keep: set<string>, h: string, now: Time, grace: Duration)
    requires h in Mark(b, keep)
    ensures InfoKey(h) !in KillIn(b, keep, now, grace)
    ensures '/' !in h
  {
    var key :| key in keep && IsManifest(b, key) && h in Hashes(b[key].body.manifest.value);
    var path :| path in b[key].body.manifest.value.closure && StoreHashOf(path) == h;
    ClassifyInfo(h, InfoKey(h));
  }

  /**
   * A sweep at `t1` that died after deleting any part of its kill list, then a
   * full sweep at `t2`: the second one deletes exactly what it would have deleted
   * had the first never run, minus what is gone already.
   */
  lemma ResumedSweep(b: Bucket, order: seq<string>, gone: set<string>, b': Bucket, order': seq<string>, e: seq<int>,
    p: Policy, t1: Time, t2: Time, grace: Duration)
    requires ManifestOrder(b, order) && t1 <= t2
    requires Interrupted(b, order, gone, b', order', e, p, t1, grace)
    ensures gone <= Kill(b, order, p, t2, grace)
    ensures Kill(b', order', p, t2, grace) == Kill(b, order, p, t2, grace) - gone
    ensures b' - Kill(b', order', p, t2, grace) == b - Kill(b, order, p, t2, grace)
  {
    var keep1, keep2 := Keep(b, order, p, t1), Keep(b, order, p, t2);
    SameKeep(b, order, gone, b', order', e, p, t1, t2, grace);
    KeepIsManifests(b, order, p, t1);
    SameMarks(b, keep1, keep2, gone, t1, grace);
    forall key | key in b
      ensures key in b' ==> Listing(b')[key] == Listing(b)[key]
      ensures key in Kill(b, order, p, t1, grace) ==> key in Kill(b, order, p, t2, grace)
    {
    }
  }

  /** After a complete sweep, a rerun at the same time deletes nothing. */
  lemma RerunDeletesNothing(b: Bucket, order: seq<string>, order': seq<string>, e: seq<int>, p: Policy, now: Time,
    grace: Duration)
    requires ManifestOrder(b, order)
    requires Interrupted(b, order, Kill(b, order, p, now, grace), b - Kill(b, order, p, now, grace), order', e, p, now,
      grace)
    ensures Kill(b - Kill(b, order, p, now, grace), order', p, now, grace) == {}
  {
    var kill := Kill(b, order, p, now, grace);
    ResumedSweep(b, order, kill, b - kill, order', e, p, now, now, grace);
  }

  /** One point in a history of sweeps: the bucket, and the order its manifests are read in. */
  datatype Point = Point(bucket: Bucket, order: seq<string>)

  ghost predicate SweptTo(a: Point, z: Point, p: Policy, now: Time, grace: Duration) {
    && ManifestOrder(a.bucket, a.order)
    && exists gone, e :: Interrupted(a.bucket, a.order, gone, z.bucket, z.order, e, p, now, grace)
  }

  /** Any number of sweeps, each cut off anywhere, then a complete one: the complete one alone decides the bucket. */
  lemma {:induction false} SweepsConverge(points: seq<Point>, times: seq<Time>, p: Policy, last: Time, grace: Duration)
    requires |points| == |times| + 1
    requires ManifestOrder(points[0].bucket, points[0].order)
    requires forall n :: 0 <= n < |times| ==> times[n] <= last && SweptTo(points[n], points[n + 1], p, times[n], grace)
    ensures ManifestOrder(points[|times|].bucket, points[|times|].order)
    ensures
      var first, end := points[0], points[|times|];
      end.bucket - Kill(end.bucket, end.order, p, last, grace)
      == first.bucket - Kill(first.bucket, first.order, p, last, grace)
    decreases |times|
  {
    if |times| > 0 {
      var n := |times| - 1;
      SweepsConverge(points[..n + 1], times[..n], p, last, grace);
      var a, z := points[n], points[n + 1];
      assert SweptTo(points[n], points[n + 1], p, times[n], grace);
      var gone, e :| Interrupted(a.bucket, a.order, gone, z.bucket, z.order, e, p, times[n], grace);
      ResumedSweep(a.bucket, a.order, gone, z.bucket, z.order, e, p, times[n], last, grace);
    }
  }

  // --- reading order -------------------------------------------------------

  lemma OrdersPermute(b: Bucket, order: seq<string>, order': seq<string>) returns (perm: seq<int>)
    requires ManifestOrder(b, order) && ManifestOrder(b, order')
    ensures Schedules.Reordered(Gens(b, order), Gens(b, order'), perm)
  {
    perm := Positions(order, order');
    assert Injective(perm, |order|);
    SameLength(order, order', perm);
  }

  ghost function PositionOf(order: seq<string>, key: string): (i: int)
    requires key in order
    ensures 0 <= i < |order| && order[i] == key
  {
    var i :| 0 <= i < |order| && order[i] == key;
    i
  }

  ghost function Positions(order: seq<string>, order': seq<string>): (perm: seq<int>)
    requires forall key :: key in order' ==> key in order
    ensures |perm| == |order'|
    ensures forall k :: 0 <= k < |perm| ==> 0 <= perm[k] < |order| && order[perm[k]] == order'[k]
  {
    seq(|order'|, k requires 0 <= k < |order'| => PositionOf(order, order'[k]))
  }

  lemma SameLength(order: seq<string>, order': seq<string>, perm: seq<int>)
    requires forall j, k :: 0 <= j < k < |order| ==> order[j] != order[k]
    requires forall j, k :: 0 <= j < k < |order'| ==> order'[j] != order'[k]
    requires forall key :: key in order <==> key in order'
    ensures |order| == |order'|
  {
    var s, s' := set key | key in order, set key | key in order';
    assert s == s';
    Unrepeated(order);
    Unrepeated(order');
  }

  lemma {:induction false} Unrepeated(order: seq<string>)
    requires forall j, k :: 0 <= j < k < |order| ==> order[j] != order[k]
    ensures |set key | key in order| == |order|
  {
    if order != [] {
      var n := |order| - 1;
      Unrepeated(order[..n]);
      assert (set key | key in order) == (set key | key in order[..n]) + {order[n]};
    } else {
      assert (set key | key in order) == {};
    }
  }

  /**
   * The schedule of the manifest reads does not change what is deleted, provided
   * no tie of one group straddles the line between kept and dropped.
   */
  lemma ScheduleFree(b: Bucket, order: seq<string>, order': seq<string>, p: Policy, now: Time, grace: Duration)
    requires ManifestOrder(b, order) && ManifestOrder(b, order')
    requires Schedules.TiesAgree(Gens(b, order), p, now)
    ensures Kill(b, order', p, now, grace) == Kill(b, order, p, now, grace)
  {
    var perm := OrdersPermute(b, order, order');
    Schedules.RetainReordered(Gens(b, order), Gens(b, order'), perm, p, now);
  }

  /** Ties that agree before a partial sweep agree after it. */
  lemma TiesSurvive(sub: seq<Gen>, full: seq<Gen>, e: seq<int>, p: Policy, now: Time)
    requires Embeds(sub, full, e) && CoversKept(e, full, p, now)
    requires Schedules.TiesAgree(full, p, now)
    ensures Schedules.TiesAgree(sub, p, now)
  {
    Stability(sub, full, e, p, now);
    forall i, j | 0 <= i < |sub| && 0 <= j < |sub| && Schedules.Tied(sub, i, j)
      ensures Keeps(sub, p, now, i) <==> Keeps(sub, p, now, j)
    {
      assert Schedules.Tied(full, e[i], e[j]);
    }
  }

  /** Whatever part of a kill list is carried out, the remaining manifests inherit a reading order. */
  lemma Resumable(b: Bucket, order: seq<string>, gone: set<string>, p: Policy, now: Time, grace: Duration)
    returns (order': seq<string>, e: seq<int>)
    requires ManifestOrder(b, order) && gone <= Kill(b, order, p, now, grace)
    ensures Interrupted(b, order, gone, b - gone, order', e, p, now, grace)
  {
    e := Select(|order|, i => 0 <= i < |order| && order[i] !in gone);
    order' := seq(|e|, k requires 0 <= k < |e| && 0 <= e[k] < |order| => order[e[k]]);
    forall k | 0 <= k < |e|
      ensures order'[k] in order && order'[k] !in gone
    {
      InRange(e, k);
    }
    forall key | key in order && key !in gone
      ensures key in order'
    {
      var i :| 0 <= i < |order| && order[i] == key;
      assert i in Range(e);
      var k :| 0 <= k < |e| && e[k] == i;
      assert order'[k] == key;
    }
  }

  /**
   * Crash convergence under any schedule: delete any part of a kill list, read
   * what is left in any order, and the sweep computes exactly the remainder.
   */
  lemma CrashConvergence(b: Bucket, order: seq<string>, gone: set<string>, order'': seq<string>, p: Policy, t1: Time,
    t2: Time, grace: Duration)
    requires ManifestOrder(b, order) && t1 <= t2
    requires gone <= Kill(b, order, p, t1, grace)
    requires ManifestOrder(b - gone, order'')
    requires Schedules.TiesAgree(Gens(b, order), p, t2)
    ensures Kill(b - gone, order'', p, t2, grace) == Kill(b, order, p, t2, grace) - gone
    ensures (b - gone) - Kill(b - gone, order'', p, t2, grace) == b - Kill(b, order, p, t2, grace)
  {
    var order', e := Resumable(b, order, gone, p, t1, grace);
    ResumedSweep(b, order, gone, b - gone, order', e, p, t1, t2, grace);
    RemainderCovers(b, order, gone, b - gone, order', e, p, t1, t2, grace);
    TiesSurvive(Gens(b - gone, order'), Gens(b, order), e, p, t2);
    ScheduleFree(b - gone, order', order'', p, t2, grace);
  }

  // --- what stays servable --------------------------------------------------

  /** A key that names neither a manifest nor a narinfo: the only kind a NAR may be stored under. */
  predicate NarLike(key: string) {
    Classify(key).NarObject? || Classify(key).Foreign?
  }

  /**
   * However much of the sweep was carried out, a retained manifest and the narinfos
   * of its closure stay, and a path of it that could be fetched still can, from the
   * same NAR, exactly unless the key its narinfo gives as URL was deleted; which
   * can happen only to a key that is itself a manifest's or a narinfo's.
   */
  lemma RetainedStayServable(b: Bucket, order: seq<string>, p: Policy, now: Time, grace: Duration, key: string,
    path: string, gone: set<string>)
    requires ManifestOrder(b, order)
    requires key in Keep(b, order, p, now) && IsManifest(b, key) && path in b[key].body.manifest.value.closure
    requires Servable(b, StoreHashOf(path))
    requires gone <= Kill(b, order, p, now, grace)
    ensures key in b - gone
    ensures UrlIn(b - gone, StoreHashOf(path)) == UrlIn(b, StoreHashOf(path))
    ensures Servable(b - gone, StoreHashOf(path)) <==> UrlIn(b, StoreHashOf(path)).value !in gone
    ensures NarLike(UrlIn(b, StoreHashOf(path)).value) ==> Servable(b - gone, StoreHashOf(path))
  {
    var keep := Keep(b, order, p, now);
    var h := StoreHashOf(path);
    assert h in Hashes(b[key].body.manifest.value);
    assert h in Mark(b, keep);
    MarkedNotKilled(b, keep, h, now, grace);
    KeepIsManifests(b, order, p, now);
    assert UrlIn(b, h).value in Live(b, Mark(b, keep));
  }
}
