/**
 * The remote sweep's reads as the worker pool makes them: whatever the schedule of
 * either pool, the sweep arrives at the kill set of the specification, and any two
 * schedules at the same one unless a tie straddles the line between kept and dropped.
 */
module PooledSweep {
  import opened Wrappers
  import opened Sets
  import opened Retention
  import Schedules
  import opened Keys
  import opened Objects
  import opened Remote
  import opened RemoteGc
  import opened FanOut

  /** What a worker brings back for one listed root. */
  datatype Reading = Reading(key: string, time: Time, manifest: Option<Manifest>)

  /** Read one root; the request may be refused, and what is gone or does not parse is garbage. */
  function ReadRoot(b: Bucket, refused: string -> bool, e: Entry): Result<Reading> {
    if refused(e.0) then Err
    else Ok(Reading(e.0, e.1, if e.0 in b then b[e.0].body.manifest else None))
  }

  /** Read one marked narinfo for its URL; one that is not text is an error, one that does not parse has none. */
  function ReadUrl(b: Bucket, refused: string -> bool, h: string): Result<Option<string>> {
    var key := InfoKey(h);
    if refused(key) then Err
    else if key !in b then Ok(None)
    else if !b[key].body.utf8 then Err
    else Ok(match b[key].body.info case Some(info) => Some(info.url) case None => None)
  }

  /** The roots of a listing: every root of the bucket once. */
  ghost predicate RootsListed(b: Bucket, roots: seq<Entry>) {
    && DistinctKeys(roots)
    && (forall k :: 0 <= k < |roots| ==> roots[k].0 in b && Classify(roots[k].0).RootObject?)
    && (forall key :: key in b && Classify(key).RootObject? ==> exists k :: 0 <= k < |roots| && roots[k].0 == key)
  }

  // --- from readings to generations ------------------------------------------

  /** The generations and their keys, in the order the readings come in. */
  function GensOf(readings: seq<Reading>): seq<Gen> {
    if readings == [] then []
    else
      var n := |readings| - 1;
      GensOf(readings[..n]) + match readings[n].manifest case Some(m) => [ToGen(readings[n].key, m)] case None => []
  }

  function OrderOf(readings: seq<Reading>): seq<string> {
    if readings == [] then []
    else
      var n := |readings| - 1;
      OrderOf(readings[..n]) + if readings[n].manifest.Some? then [readings[n].key] else []
  }

  ghost predicate ReadFrom(b: Bucket, readings: seq<Reading>) {
    forall k :: 0 <= k < |readings| ==>
      readings[k].key in b && Classify(readings[k].key).RootObject?
        && readings[k].manifest == b[readings[k].key].body.manifest
  }

  ghost predicate KeysOnce(readings: seq<Reading>) {
    forall j, k :: 0 <= j < k < |readings| ==> readings[j].key != readings[k].key
  }

  lemma {:induction false} OrderMembers(readings: seq<Reading>)
    ensures forall key :: key in OrderOf(readings) <==>
      exists k :: 0 <= k < |readings| && readings[k].key == key && readings[k].manifest.Some?
  {
    if readings != [] {
      var n := |readings| - 1;
      OrderMembers(readings[..n]);
      forall key
        ensures key in OrderOf(readings) <==>
          exists k :: 0 <= k < |readings| && readings[k].key == key && readings[k].manifest.Some?
      {
        if k :| 0 <= k < |readings| && readings[k].key == key && readings[k].manifest.Some? {
          assert k < n ==> readings[..n][k] == readings[k];
        }
        if key in OrderOf(readings[..n]) {
          var k :| 0 <= k < n && readings[..n][k].key == key && readings[..n][k].manifest.Some?;
          assert readings[k].key == key;
        }
      }
    }
  }

  lemma {:induction false} OrderFollows(b: Bucket, readings: seq<Reading>)
    requires ReadFrom(b, readings) && KeysOnce(readings)
    ensures forall j, k :: 0 <= j < k < |OrderOf(readings)| ==> OrderOf(readings)[j] != OrderOf(readings)[k]
    ensures forall k :: 0 <= k < |OrderOf(readings)| ==> IsManifest(b, OrderOf(readings)[k])
    ensures GensOf(readings) == Gens(b, OrderOf(readings))
  {
    if readings != [] {
      var n := |readings| - 1;
      OrderFollows(b, readings[..n]);
      OrderMembers(readings[..n]);
      assert forall k :: 0 <= k < n ==> readings[..n][k].key != readings[n].key;
      assert readings[n].key !in OrderOf(readings[..n]);
    }
  }

  /** The readings of all the roots, in any order, are a reading order of the bucket's manifests. */
  lemma ReadingsAreOrder(b: Bucket, roots: seq<Entry>, readings: seq<Reading>)
    requires RootsListed(b, roots) && ReadFrom(b, readings) && KeysOnce(readings)
    requires forall e :: e in roots ==> exists k :: 0 <= k < |readings| && readings[k].key == e.0
    ensures ManifestOrder(b, OrderOf(readings))
    ensures GensOf(readings) == Gens(b, OrderOf(readings))
  {
    OrderFollows(b, readings);
    OrderMembers(readings);
    forall key | key in b && Classify(key).RootObject? && IsManifest(b, key)
      ensures key in OrderOf(readings)
    {
      var k :| 0 <= k < |roots| && roots[k].0 == key;
      assert roots[k] in roots;
    }
  }

  /** What the pool returns for the roots is each root read once. */
  lemma PoolReadings(b: Bucket, refused: string -> bool, roots: seq<Entry>, out: seq<Reading>, order: seq<int>)
    requires RootsListed(b, roots)
    requires ResultsOf(roots, e => ReadRoot(b, refused, e), out, order)
    ensures ManifestOrder(b, OrderOf(out)) && GensOf(out) == Gens(b, OrderOf(out))
    ensures ReadFrom(b, out)
  {
    assert forall k :: 0 <= k < |out| ==> ReadRoot(b, refused, roots[order[k]]) == Ok(out[k]);
    forall k | 0 <= k < |out|
      ensures ReadingOf(b, roots[order[k]], out[k])
    {
      ReadRootGives(b, refused, roots[order[k]], out[k]);
    }
    OutReadings(b, roots, out, order);
    ReadingsAreOrder(b, roots, out);
  }

  ghost predicate ReadingOf(b: Bucket, e: Entry, r: Reading) {
    r.key == e.0 && r.manifest == if e.0 in b then b[e.0].body.manifest else None
  }

  lemma ReadRootGives(b: Bucket, refused: string -> bool, e: Entry, r: Reading)
    requires ReadRoot(b, refused, e) == Ok(r)
    ensures ReadingOf(b, e, r)
  {
  }

  lemma OutReadings(b: Bucket, roots: seq<Entry>, out: seq<Reading>, order: seq<int>)
    requires RootsListed(b, roots) && |order| == |roots| == |out| && Injective(order, |roots|)
    requires forall k :: 0 <= k < |out| ==> ReadingOf(b, roots[order[k]], out[k])
    ensures ReadFrom(b, out) && KeysOnce(out)
    ensures forall e :: e in roots ==> exists k :: 0 <= k < |out| && out[k].key == e.0
  {
    hide Classify;
    forall e | e in roots
      ensures exists k :: 0 <= k < |out| && out[k].key == e.0
    {
      var i :| 0 <= i < |roots| && roots[i] == e;
      var k := SourceOf(order, |roots|, i);
      assert ReadingOf(b, roots[order[k]], out[k]);
      assert out[k].key == e.0;
    }
    forall j, k | 0 <= j < k < |out|
      ensures out[j].key != out[k].key
    {
      assert order[j] != order[k];
      assert ReadingOf(b, roots[order[j]], out[j]) && ReadingOf(b, roots[order[k]], out[k]);
      assert roots[order[j]].0 != roots[order[k]].0;
    }
    forall k | 0 <= k < |out|
      ensures out[k].key in b && Classify(out[k].key).RootObject? && out[k].manifest == b[out[k].key].body.manifest
    {
      assert ReadingOf(b, roots[order[k]], out[k]);
    }
  }

  // --- one pass of reads ---------------------------------------------------------

  /** One sweep's reads: the roots, the marked hashes, and the pool's states over each. */
  datatype Pass = Pass(
    roots: seq<Entry>,
    rootPool: seq<Pool<Reading>>,
    hashes: seq<string>,
    urlPool: seq<Pool<Option<string>>>,
    refused: string -> bool)

  ghost predicate Succeeded<T, R>(states: seq<Pool<R>>, items: seq<T>, f: T -> Result<R>) {
    Run(states, items, f) && Ended(states[|states| - 1]) && Join(states[|states| - 1]).Ok?
  }

  ghost function Results<R>(states: seq<Pool<R>>): seq<R> {
    if states != [] && Join(states[|states| - 1]).Ok? then Join(states[|states| - 1]).value else []
  }

  ghost function PassKeep(pass: Pass, p: Policy, now: Time): set<string> {
    Retain(GensOf(Results(pass.rootPool)), p, now)
  }

  /** Hashes of the closures of the readings kept. */
  ghost function PassMark(pass: Pass, p: Policy, now: Time): set<string> {
    set r, h | r in Results(pass.rootPool) && r.manifest.Some? && r.key in PassKeep(pass, p, now)
      && h in Hashes(r.manifest.value) :: h
  }

  ghost function PassLive(pass: Pass): set<string> {
    set r | r in Results(pass.urlPool) && r.Some? :: r.value
  }

  /** What the sweep condemns after these reads. */
  ghost function PassKill(b: Bucket, pass: Pass, p: Policy, now: Time, grace: Duration): set<string> {
    Condemned(Listing(b), PassKeep(pass, p, now), PassMark(pass, p, now), PassLive(pass), now, grace)
  }

  /** The listed narinfos that are marked. */
  ghost predicate MarkedListed(b: Bucket, hashes: seq<string>, mark: set<string>) {
    forall h :: h in hashes <==> InfoKey(h) in b && '/' !in h && h in mark
  }

  /** Both pools ran to the end on this bucket, under any schedule, and no read failed. */
  ghost predicate Complete(b: Bucket, pass: Pass, p: Policy, now: Time) {
    && RootsListed(b, pass.roots)
    && Succeeded(pass.rootPool, pass.roots, e => ReadRoot(b, pass.refused, e))
    && MarkedListed(b, pass.hashes, PassMark(pass, p, now))
    && Succeeded(pass.urlPool, pass.hashes, h => ReadUrl(b, pass.refused, h))
  }

  lemma RootsRead(b: Bucket, pass: Pass)
    requires RootsListed(b, pass.roots)
    requires Succeeded(pass.rootPool, pass.roots, e => ReadRoot(b, pass.refused, e))
    ensures ManifestOrder(b, OrderOf(Results(pass.rootPool)))
    ensures GensOf(Results(pass.rootPool)) == Gens(b, OrderOf(Results(pass.rootPool)))
    ensures ReadFrom(b, Results(pass.rootPool))
  {
    var f := e => ReadRoot(b, pass.refused, e);
    FanOutResult(pass.rootPool, pass.roots, f);
    var out := Results(pass.rootPool);
    var order :| ResultsOf(pass.roots, f, out, order);
    PoolReadings(b, pass.refused, pass.roots, out, order);
  }

  lemma MarkRead(b: Bucket, pass: Pass, p: Policy, now: Time)
    requires ReadFrom(b, Results(pass.rootPool))
    requires ManifestOrder(b, OrderOf(Results(pass.rootPool)))
    requires GensOf(Results(pass.rootPool)) == Gens(b, OrderOf(Results(pass.rootPool)))
    ensures PassKeep(pass, p, now) == Keep(b, OrderOf(Results(pass.rootPool)), p, now)
    ensures PassMark(pass, p, now) == Mark(b, PassKeep(pass, p, now))
  {
    var out := Results(pass.rootPool);
    var keep := PassKeep(pass, p, now);
    OrderMembers(out);
    forall h | h in Mark(b, keep)
      ensures h in PassMark(pass, p, now)
    {
      var key :| key in keep && IsManifest(b, key) && h in Hashes(b[key].body.manifest.value);
      KeepMember(b, OrderOf(out), p, now, key);
      assert key in OrderOf(out);
      var k :| 0 <= k < |out| && out[k].key == key && out[k].manifest.Some?;
      assert out[k] in out;
    }
    forall h | h in PassMark(pass, p, now)
      ensures h in Mark(b, keep)
    {
      var r :| r in out && r.manifest.Some? && r.key in keep && h in Hashes(r.manifest.value);
      assert IsManifest(b, r.key);
    }
  }

  /** The URLs the second pool brings back are the live NARs. */
  lemma LiveRead(b: Bucket, pass: Pass, mark: set<string>)
    requires MarkedListed(b, pass.hashes, mark) && forall h :: h in mark ==> '/' !in h
    requires Succeeded(pass.urlPool, pass.hashes, h => ReadUrl(b, pass.refused, h))
    ensures PassLive(pass) == Live(b, mark)
  {
    var f := h => ReadUrl(b, pass.refused, h);
    FanOutResult(pass.urlPool, pass.hashes, f);
    var out := Results(pass.urlPool);
    var order :| ResultsOf(pass.hashes, f, out, order);
    forall k | 0 <= k < |out|
      ensures out[k] == UrlIn(b, pass.hashes[order[k]])
    {
      assert f(pass.hashes[order[k]]) == Ok(out[k]);
      ReadUrlGives(b, pass.refused, pass.hashes[order[k]], out[k]);
    }
    UrlsAreLive(b, pass.hashes, out, order, mark);
  }

  lemma ReadUrlGives(b: Bucket, refused: string -> bool, h: string, r: Option<string>)
    requires ReadUrl(b, refused, h) == Ok(r)
    ensures r == UrlIn(b, h)
  {
  }

  lemma UrlsAreLive(b: Bucket, hashes: seq<string>, out: seq<Option<string>>, order: seq<int>, mark: set<string>)
    requires MarkedListed(b, hashes, mark) && forall h :: h in mark ==> '/' !in h
    requires |order| == |hashes| == |out| && Injective(order, |hashes|)
    requires forall k :: 0 <= k < |out| ==> out[k] == UrlIn(b, hashes[order[k]])
    ensures (set r | r in out && r.Some? :: r.value) == Live(b, mark)
  {
    forall url | Some(url) in out
      ensures url in Live(b, mark)
    {
      var k :| 0 <= k < |out| && out[k] == Some(url);
      assert hashes[order[k]] in hashes;
    }
    forall url | url in Live(b, mark)
      ensures Some(url) in out
    {
      var h :| h in mark && UrlIn(b, h) == Some(url);
      var i :| 0 <= i < |hashes| && hashes[i] == h;
      var k := SourceOf(order, |hashes|, i);
      assert out[k] == Some(url);
    }
  }

  lemma MarksAreHashes(b: Bucket, keep: set<string>)
    ensures forall h :: h in Mark(b, keep) ==> '/' !in h
  {
    forall h | h in Mark(b, keep)
      ensures '/' !in h
    {
      MarkedNotKilled(b, keep, h, 0, 0);
    }
  }

  /** Whatever the schedules of the two pools, the sweep condemns the kill set of the reading order they amount to. */
  lemma PooledKill(b: Bucket, pass: Pass, p: Policy, now: Time, grace: Duration)
    requires Complete(b, pass, p, now)
    ensures
      var order := OrderOf(Results(pass.rootPool));
      && ManifestOrder(b, order)
      && GensOf(Results(pass.rootPool)) == Gens(b, order)
      && PassKill(b, pass, p, now, grace) == Kill(b, order, p, now, grace)
  {
    RootsRead(b, pass);
    MarkRead(b, pass, p, now);
    MarksAreHashes(b, PassKeep(pass, p, now));
    LiveRead(b, pass, PassMark(pass, p, now));
  }

  /** Any two complete passes condemn the same keys, unless equal times of one group straddle the cut. */
  lemma SchedulesAgree(b: Bucket, pass: Pass, other: Pass, p: Policy, now: Time, grace: Duration)
    requires Complete(b, pass, p, now) && Complete(b, other, p, now)
    requires Schedules.TiesAgree(GensOf(Results(pass.rootPool)), p, now)
    ensures PassKill(b, pass, p, now, grace) == PassKill(b, other, p, now, grace)
  {
    PooledKill(b, pass, p, now, grace);
    PooledKill(b, other, p, now, grace);
    ScheduleFree(b, OrderOf(Results(pass.rootPool)), OrderOf(Results(other.rootPool)), p, now, grace);
  }

  /** No two manifests of one flake, branch and attribute carry one time. */
  ghost predicate TimesApart(b: Bucket) {
    forall x, y :: IsManifest(b, x) && IsManifest(b, y) && x != y ==>
      var m, n := b[x].body.manifest.value, b[y].body.manifest.value;
      GroupOf(ToGen(x, m)) == GroupOf(ToGen(y, n)) ==> m.time != n.time
  }

  /** With distinct times in every group the schedule never matters. */
  lemma DistinctTimesAgree(b: Bucket, pass: Pass, other: Pass, p: Policy, now: Time, grace: Duration)
    requires Complete(b, pass, p, now) && Complete(b, other, p, now) && TimesApart(b)
    ensures PassKill(b, pass, p, now, grace) == PassKill(b, other, p, now, grace)
  {
    PooledKill(b, pass, p, now, grace);
    var order := OrderOf(Results(pass.rootPool));
    var gens := Gens(b, order);
    forall i, j | 0 <= i < |gens| && 0 <= j < |gens| && Schedules.Tied(gens, i, j)
      ensures i == j
    {
      assert IsManifest(b, order[i]) && IsManifest(b, order[j]);
      assert order[i] == order[j];
    }
    SchedulesAgree(b, pass, other, p, now, grace);
  }

  /** The first pool succeeds under one schedule exactly when it does under any: when no read is refused. */
  lemma ReadsSucceedIff(b: Bucket, refused: string -> bool, roots: seq<Entry>, states: seq<Pool<Reading>>)
    requires Run(states, roots, e => ReadRoot(b, refused, e)) && Ended(states[|states| - 1])
    ensures Join(states[|states| - 1]).Ok? <==> forall e :: e in roots ==> !refused(e.0)
  {
    var f := e => ReadRoot(b, refused, e);
    FanOutResult(states, roots, f);
    assert forall i :: 0 <= i < |roots| ==> (f(roots[i]).Ok? <==> !refused(roots[i].0));
  }
}
