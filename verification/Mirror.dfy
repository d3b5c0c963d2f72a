/** The replica workers: mirror-down, gap filling and mirror-up. */
module Mirror {
  import opened Wrappers
  import opened Retention
  import opened Keys
  import opened Objects
  import opened Remote
  import opened BoxStore

  /** How long a path no source could supply is left alone. */
  const MISS_RETRY: int := 3600

  // --- assumptions on the other side ---------------------------------------

  /** A narinfo found under a hash describes a path with that hash. */
  ghost predicate InfosKeyed(b: Bucket) {
    forall h :: InfoKey(h) in b && '/' !in h && Readable(b[InfoKey(h)].body) ==>
      StoreHashOf(b[InfoKey(h)].body.info.value.storePath) == h
  }

  /** A manifest found under a key carries the names the key spells. */
  ghost predicate ManifestsKeyed(b: Bucket) {
    forall key :: key in b && ParseManifestKey(key).Some? && b[key].body.manifest.Some? ==>
      var m := b[key].body.manifest.value;
      ParseManifestKey(key).value == (m.flake, m.gen)
  }

  // --- what mirror-down may do to the box ----------------------------------

  /** Nothing a client could fetch from the box is lost. */
  ghost predicate ServesOn(box: Box, box': Box) {
    forall h :: BoxServes(box, h) ==> BoxServes(box', h)
  }

  ghost predicate SameFiles(box: Box, box': Box) {
    box'.narinfos == box.narinfos && box'.nars == box.nars && box'.index == box.index
  }

  ghost predicate SameManifests(box: Box, box': Box) {
    box'.manifests == box.manifests && box'.localOrigin == box.localOrigin && box'.mirrored == box.mirrored
  }

  ghost predicate IndexKept(box: Box, box': Box) {
    && (IndexCovers(box) ==> IndexCovers(box'))
    && (IndexExact(box) ==> IndexExact(box'))
    && (SafeNames(box) ==> SafeNames(box'))
  }

  /** Manifests are only added, and on a well-keyed remote only under names the box did not have. */
  ghost predicate Discovered(box: Box, box': Box, b: Bucket) {
    && SameFiles(box, box') && box'.localOrigin == box.localOrigin && box'.mirrored == box.mirrored
    && (WellKeyed(box) ==> WellKeyed(box'))
    && (forall id :: id in box.manifests ==> id in box'.manifests)
    && (ManifestsKeyed(b) ==> forall id :: id in box.manifests ==> box'.manifests[id].body == box.manifests[id].body)
    && (ManifestsKeyed(b) ==> forall id :: id in box'.manifests && id !in box.manifests ==>
          KeyOf(id) in b && box'.manifests[id].body == b[KeyOf(id)].body)
  }

  /** Manifests are only dropped, none of them guarded; what stays keeps its guard, or its lack of one. */
  ghost predicate Dropped(box: Box, box': Box, b: Bucket) {
    && SameFiles(box, box')
    && (WellKeyed(box) ==> WellKeyed(box'))
    && box'.localOrigin <= box.localOrigin && box'.mirrored <= box.mirrored
    && (box.mirrored <= box.localOrigin ==> box'.mirrored <= box'.localOrigin)
    && (forall id :: Guarded(box', id) <==> Guarded(box, id))
    && (forall id :: id in box'.manifests ==> id in box.manifests && box'.manifests[id] == box.manifests[id])
    && (forall id :: id in box.manifests && id !in box'.manifests ==> KeyOf(id) !in b && !Guarded(box, id))
  }

  /** Files are only added, and narinfos only where the index had a gap. */
  ghost predicate Filled(box: Box, box': Box) {
    SameManifests(box, box') && ServesOn(box, box') && IndexKept(box, box')
  }

  /** Everything mirror-down can have done, whether it finished or failed anywhere on the way. */
  ghost predicate DownRel(box: Box, box': Box, b: Bucket) {
    exists mid1, mid2 :: Discovered(box, mid1, b) && Dropped(mid1, mid2, b) && Filled(mid2, box')
  }

  /** Every narinfo the box did not have like this has passed the trust check. */
  ghost predicate Vetted(box: Box, box': Box, trusts: Body -> bool) {
    forall h :: h in box'.narinfos ==>
      (h in box.narinfos && box'.narinfos[h] == box.narinfos[h]) || trusts(box'.narinfos[h].body)
  }

  // --- what mirror-down owes the box ---------------------------------------

  function OwnId(m: Manifest): GenId {
    (m.flake, m.gen)
  }

  /** A valid manifest of the remote has arrived, under the name in its key or under its own. */
  ghost predicate Taken(manifests: map<GenId, Object>, b: Bucket, key: string) {
    ParseManifestKey(key).Some? && IsManifest(b, key) ==>
      ParseManifestKey(key).value in manifests || OwnId(b[key].body.manifest.value) in manifests
  }

  /** A manifest the store refuses: a name in its key or its body is no path component. */
  ghost predicate Unstorable(b: Bucket, key: string) {
    && ParseManifestKey(key).Some?
    && (!SafeId(ParseManifestKey(key).value) || (IsManifest(b, key) && !SafeId(OwnId(b[key].body.manifest.value))))
  }

  /** If the key spells a manifest's names at all, the store can use them. */
  predicate SafeSpelled(key: string) {
    match ParseManifestKey(key)
    case Some(id) => SafeId(id)
    case None => true
  }

  ghost predicate AllSafeSpelled(b: Bucket) {
    forall key :: key in b ==> SafeSpelled(key)
  }

  lemma ListedSafe(b: Bucket, listing: seq<Entry>)
    requires Lists(b, ROOTS, listing) && forall k :: 0 <= k < |listing| ==> SafeSpelled(listing[k].0)
    ensures AllSafeSpelled(b)
  {
    hide SafeId;
    forall key | key in b
      ensures SafeSpelled(key)
    {
      if ROOTS <= key {
        var k :| 0 <= k < |listing| && listing[k].0 == key;
      }
    }
  }

  ghost predicate SomeUnstorable(b: Bucket, listing: seq<Entry>) {
    exists k :: 0 <= k < |listing| && Unstorable(b, listing[k].0)
  }

  ghost predicate UnsafeManifest(box: Box) {
    exists id :: id in box.manifests && !SafeId(id)
  }

  function WithoutManifest(box: Box, id: GenId): Box {
    box.(manifests := box.manifests - {id}, localOrigin := box.localOrigin - {MarkerOf(id)},
      mirrored := box.mirrored - {MarkerOf(id)})
  }

  /** Markers may be shared, but a generation sharing an unguarded one's marker is not guarded either. */
  lemma DropOne(start: Box, box: Box, b: Bucket, id: GenId)
    requires Dropped(start, box, b)
    requires SafeId(id) ==> KeyOf(id) !in b && !Guarded(box, id)
    ensures SafeId(id) ==> Dropped(start, WithoutManifest(box, id), b)
    ensures SafeId(id) ==> forall x :: Guarded(WithoutManifest(box, id), x) <==> Guarded(box, x)
  {
    if SafeId(id) {
      var box' := WithoutManifest(box, id);
      forall x
        ensures Guarded(box', x) <==> Guarded(box, x)
      {
        if MarkerOf(x) == MarkerOf(id) && SafeId(x) {
          assert Guarded(box, x) <==> Guarded(box, id);
        }
      }
    }
  }

  lemma FilledKeeps(box: Box, box': Box)
    requires Filled(box, box')
    ensures box'.manifests == box.manifests
  {
  }

  lemma FilledAgain(box: Box, box': Box, box'': Box, trusts: Body -> bool)
    requires Filled(box, box') && Filled(box', box'')
    requires Vetted(box, box', trusts) && Vetted(box', box'', trusts)
    ensures Filled(box, box'') && Vetted(box, box'', trusts)
  {
  }

  lemma DroppedNothing(box: Box, b: Bucket)
    ensures Dropped(box, box, b)
    ensures Filled(box, box)
  {
  }

  /** Whatever mirror-down did, an unmirrored local push is still there, still guarded, and as servable as before. */
  lemma DownSparesGuarded(box: Box, box': Box, b: Bucket, id: GenId)
    requires DownRel(box, box', b)
    requires id in box.manifests && Guarded(box, id)
    ensures id in box'.manifests && Guarded(box', id)
    ensures ManifestsKeyed(b) ==> box'.manifests[id].body == box.manifests[id].body
    ensures ServesOn(box, box')
  {
    var mid1, mid2 :| Discovered(box, mid1, b) && Dropped(mid1, mid2, b) && Filled(mid2, box');
    assert Guarded(mid1, id);
    forall h | BoxServes(box, h)
      ensures BoxServes(box', h)
    {
      assert BoxServes(mid1, h) && BoxServes(mid2, h);
    }
  }

  // --- gap accounting ------------------------------------------------------

  function Missing(index: map<string, string>, paths: seq<string>): nat {
    |Gaps(index, paths)|
  }

  lemma {:induction false} MissingAppend(index: map<string, string>, paths: seq<string>, path: string)
    ensures Missing(index, paths + [path]) == Missing(index, paths) + if StoreHashOf(path) in index then 0 else 1
  {
    if paths == [] {
      assert [] + [path] == [path];
    } else {
      MissingAppend(index, paths[1..], path);
      assert (paths + [path])[1..] == paths[1..] + [path];
    }
  }

  /** Counting what is still missing among the gaps found earlier is counting what is missing at all. */
  lemma {:induction false} MissingAmongGaps(before: map<string, string>, now: map<string, string>, closure: seq<string>)
    requires before.Keys <= now.Keys
    ensures Missing(now, Gaps(before, closure)) == Missing(now, closure)
  {
    if closure != [] {
      MissingAmongGaps(before, now, closure[1..]);
      assert StoreHashOf(closure[0]) in before.Keys ==> StoreHashOf(closure[0]) in now.Keys;
      if StoreHashOf(closure[0]) in before {
        assert Gaps(before, closure) == Gaps(before, closure[1..]);
        assert Gaps(now, closure) == Gaps(now, closure[1..]);
      } else {
        assert Gaps(before, closure) == [closure[0]] + Gaps(before, closure[1..]);
        assert Gaps(before, closure)[1..] == Gaps(before, closure[1..]);
      }
    }
  }

  /** Every hash of the closure is indexed or has been given up on. */
  ghost predicate Settled(index: map<string, string>, misses: map<string, int>, closure: seq<string>) {
    forall path :: path in closure ==> StoreHashOf(path) in index || StoreHashOf(path) in misses
  }

  /** The index grew, but not by any hash already given up on. */
  ghost predicate GrewPast(before: map<string, string>, now: map<string, string>, misses: map<string, int>) {
    before.Keys <= now.Keys && forall h :: h in now && h !in before ==> h !in misses
  }

  lemma {:induction false} SettledStaysMissing(before: map<string, string>, now: map<string, string>,
    misses: map<string, int>, closure: seq<string>)
    requires Settled(before, misses, closure) && GrewPast(before, now, misses)
    ensures Missing(now, closure) == Missing(before, closure)
    ensures Settled(now, misses, closure)
  {
    if closure != [] {
      assert closure[0] in closure;
      assert Settled(before, misses, closure[1..]);
      SettledStaysMissing(before, now, misses, closure[1..]);
    }
  }

  ghost predicate DistinctHashes(closure: seq<string>) {
    forall j, k :: 0 <= j < k < |closure| ==> StoreHashOf(closure[j]) != StoreHashOf(closure[k])
  }

  lemma {:induction false} GapsDistinct(index: map<string, string>, closure: seq<string>)
    requires DistinctHashes(closure)
    ensures DistinctHashes(Gaps(index, closure))
  {
    if closure != [] {
      var rest := closure[1..];
      assert DistinctHashes(rest) by {
        forall j, k | 0 <= j < k < |rest|
          ensures StoreHashOf(rest[j]) != StoreHashOf(rest[k])
        {
          assert rest[j] == closure[j + 1] && rest[k] == closure[k + 1];
        }
      }
      GapsDistinct(index, rest);
      var tail := Gaps(index, rest);
      forall k | 0 <= k < |tail|
        ensures StoreHashOf(tail[k]) != StoreHashOf(closure[0])
      {
        assert tail[k] in rest;
        var j :| 0 <= j < |rest| && rest[j] == tail[k];
        assert closure[j + 1] == tail[k];
      }
    }
  }

  /** Gaps of a flake's manifests among `files`, on one index. */
  ghost function FlakeGaps(manifests: map<GenId, Object>, files: seq<GenId>, index: map<string, string>,
    flake: string): nat {
    if files == [] then 0
    else
      var id := files[|files| - 1];
      FlakeGaps(manifests, files[..|files| - 1], index, flake)
      + if id.0 == flake && id in manifests && manifests[id].body.manifest.Some?
        then Missing(index, manifests[id].body.manifest.value.closure) else 0
  }

  ghost predicate AllSettled(manifests: map<GenId, Object>, files: seq<GenId>, index: map<string, string>,
    misses: map<string, int>) {
    forall id :: id in files && id in manifests && manifests[id].body.manifest.Some? ==>
      Settled(index, misses, manifests[id].body.manifest.value.closure)
  }

  lemma {:induction false} FlakeGapsStay(manifests: map<GenId, Object>, files: seq<GenId>, before: map<string, string>,
    now: map<string, string>, misses: map<string, int>, flake: string)
    requires AllSettled(manifests, files, before, misses) && GrewPast(before, now, misses)
    ensures FlakeGaps(manifests, files, now, flake) == FlakeGaps(manifests, files, before, flake)
    ensures AllSettled(manifests, files, now, misses)
  {
    if files != [] {
      var n := |files| - 1;
      var id := files[n];
      FlakeGapsStay(manifests, files[..n], before, now, misses, flake);
      assert id in files;
      forall x | x in files && x in manifests && manifests[x].body.manifest.Some?
        ensures Settled(now, misses, manifests[x].body.manifest.value.closure)
      {
        SettledStaysMissing(before, now, misses, manifests[x].body.manifest.value.closure);
      }
      if id in manifests && manifests[id].body.manifest.Some? {
        SettledStaysMissing(before, now, misses, manifests[id].body.manifest.value.closure);
      }
    }
  }

  /** One attempt to fetch a hash: it came in, no source has it, or something broke. */
  datatype Finding = Fetched | Absent | Broken

  datatype Probe = Probe(hash: string, finding: Finding)

  /** No hash is tried again in the cycle after it failed. */
  ghost predicate NoRetry(probes: seq<Probe>) {
    forall j, k :: 0 <= j < k < |probes| && !probes[j].finding.Fetched? ==> probes[j].hash != probes[k].hash
  }

  ghost function Fetches(probes: seq<Probe>): nat {
    if probes == [] then 0
    else Fetches(probes[..|probes| - 1]) + if probes[|probes| - 1].finding.Fetched? then 1 else 0
  }

  lemma {:induction false} FetchesMore(probes: seq<Probe>, tried: seq<Probe>)
    ensures Fetches(probes + tried) == Fetches(probes) + Fetches(tried)
  {
    if tried == [] {
      assert probes + tried == probes;
    } else {
      FetchesMore(probes, tried[..|tried| - 1]);
      assert (probes + tried)[..|probes + tried| - 1] == probes + tried[..|tried| - 1];
    }
  }

  /** Every hash that failed is on record as a miss. */
  ghost predicate FailuresRecorded(probes: seq<Probe>, misses: map<string, int>) {
    forall k :: 0 <= k < |probes| && !probes[k].finding.Fetched? ==> probes[k].hash in misses
  }

  /** A hash is tried only if it was not a miss, or its miss had expired. */
  ghost predicate RecentMissesLeft(probes: seq<Probe>, misses: map<string, int>, now: int) {
    forall k :: 0 <= k < |probes| && probes[k].hash in misses ==> now - misses[probes[k].hash] >= 3600
  }

  /** Some attempt at this hash failed. */
  ghost predicate FailedOn(probes: seq<Probe>, h: string) {
    exists k :: 0 <= k < |probes| && probes[k].hash == h && !probes[k].finding.Fetched?
  }

  /** A miss on record was there before, unchanged, or an attempt since has failed and dated it. */
  ghost predicate MissesFrom(before: map<string, int>, misses: map<string, int>, probes: seq<Probe>, now: int) {
    && (forall h :: h in before ==> h in misses && misses[h] == before[h])
    && (forall h :: h in misses && h !in before ==> FailedOn(probes, h) && now <= misses[h])
  }

  lemma MissesFromMore(before: map<string, int>, mid: map<string, int>, misses: map<string, int>, probes: seq<Probe>,
    tried: seq<Probe>, now: int)
    requires MissesFrom(before, mid, probes, now) && MissesFrom(mid, misses, tried, now)
    ensures MissesFrom(before, misses, probes + tried, now)
  {
    var all := probes + tried;
    forall h | h in misses && h !in before
      ensures FailedOn(all, h) && now <= misses[h]
    {
      if h in mid {
        var k :| 0 <= k < |probes| && probes[k].hash == h && !probes[k].finding.Fetched?;
        assert all[k] == probes[k];
      } else {
        var k :| 0 <= k < |tried| && tried[k].hash == h && !tried[k].finding.Fetched?;
        assert all[|probes| + k] == tried[k];
      }
    }
  }

  /** Misses young enough to be left alone. */
  function Recent(misses: map<string, int>, now: int): map<string, int> {
    map h | h in misses && now - misses[h] < 3600 :: misses[h]
  }

  /** A closure path that is still a gap is a recent miss, or an attempt at it has failed in this cycle. */
  ghost predicate Explained(manifests: map<GenId, Object>, index: map<string, string>, misses: map<string, int>,
    probes: seq<Probe>, now: int) {
    forall id :: id in manifests && manifests[id].body.manifest.Some? ==>
      forall path :: path in manifests[id].body.manifest.value.closure && StoreHashOf(path) !in index ==>
        StoreHashOf(path) in Recent(misses, now) || FailedOn(probes, StoreHashOf(path))
  }

  ghost predicate DistinctClosures(manifests: map<GenId, Object>) {
    forall id :: id in manifests && manifests[id].body.manifest.Some? ==>
      DistinctHashes(manifests[id].body.manifest.value.closure)
  }

  function CountOf(gaps: map<string, nat>, flake: string): nat {
    if flake in gaps then gaps[flake] else 0
  }

  function Count(gaps: map<string, nat>, flake: string, n: nat): map<string, nat> {
    gaps[flake := CountOf(gaps, flake) + n]
  }

  /** The counts are, flake by flake, the gaps of the manifests on this index. */
  ghost predicate Accounts(gaps: map<string, nat>, manifests: map<GenId, Object>, files: seq<GenId>,
    index: map<string, string>) {
    forall flake :: CountOf(gaps, flake) == FlakeGaps(manifests, files, index, flake)
  }

  lemma ProbesMore(probes: seq<Probe>, tried: seq<Probe>, misses: map<string, int>, misses': map<string, int>)
    requires NoRetry(probes) && FailuresRecorded(probes, misses)
    requires NoRetry(tried) && FailuresRecorded(tried, misses')
    requires misses.Keys <= misses'.Keys
    requires forall k :: 0 <= k < |tried| ==> tried[k].hash !in misses
    ensures NoRetry(probes + tried) && FailuresRecorded(probes + tried, misses')
  {
  }

  /** Everything indexed since came from one of these paths. */
  ghost predicate IndexedFrom(before: map<string, string>, now: map<string, string>, paths: seq<string>) {
    forall h :: h in now && h !in before ==> exists k :: 0 <= k < |paths| && StoreHashOf(paths[k]) == h
  }

  lemma SettledMore(before: map<string, string>, now: map<string, string>, misses: map<string, int>,
    misses': map<string, int>, paths: seq<string>, path: string)
    requires Settled(before, misses, paths)
    requires before.Keys <= now.Keys && misses.Keys <= misses'.Keys
    requires StoreHashOf(path) in now || StoreHashOf(path) in misses'
    ensures Settled(now, misses', paths + [path])
  {
  }

  /** What is known after the gaps `paths` of one manifest have been tried. */
  ghost predicate Tried(keyed: bool, start: map<string, string>, index: map<string, string>, misses0: map<string, int>,
    misses: map<string, int>, paths: seq<string>, probes: seq<Probe>, now: int) {
    && MissesFrom(misses0, misses, probes, now) && start.Keys <= index.Keys
    && NoRetry(probes) && FailuresRecorded(probes, misses)
    && (forall k :: 0 <= k < |probes| ==> probes[k].hash !in misses0)
    && (keyed ==> GrewPast(start, index, misses0) && Settled(index, misses, paths) && IndexedFrom(start, index, paths))
  }

  lemma TriedMore(keyed: bool, start: map<string, string>, before: map<string, string>, after: map<string, string>,
    misses0: map<string, int>, misses1: map<string, int>, misses2: map<string, int>, paths: seq<string>,
    probes: seq<Probe>, path: string, missed: bool, tried: seq<Probe>, now: int)
    requires Tried(keyed, start, before, misses0, misses1, paths, probes, now)
    requires MissesFrom(misses1, misses2, tried, now) && before.Keys <= after.Keys
    requires missed ==> after == before && StoreHashOf(path) in misses2
    requires keyed ==>
      && (!missed ==> StoreHashOf(path) in after)
      && after.Keys <= before.Keys + {StoreHashOf(path)} && GrewPast(before, after, misses1)
    requires if StoreHashOf(path) in misses1 then tried == []
      else |tried| == 1 && tried[0].hash == StoreHashOf(path) && (tried[0].finding.Fetched? <==> !missed)
    ensures Tried(keyed, start, after, misses0, misses2, paths + [path], probes + tried, now)
  {
    hide StoreHashOf, MissesFrom, NoRetry, FailuresRecorded, Settled, IndexedFrom, GrewPast;
    MissesGrow(misses0, misses1, probes, now);
    MissesGrow(misses1, misses2, tried, now);
    HashesNew(misses0, misses1, probes, tried);
    ProbesMore(probes, tried, misses1, misses2);
    MissesFromMore(misses0, misses1, misses2, probes, tried, now);
    if keyed {
      GrewOn(start, before, after, misses0, misses1);
      SettledMore(before, after, misses1, misses2, paths, path);
      IndexedMore(start, before, after, paths, path);
    }
  }

  lemma MissesGrow(before: map<string, int>, misses: map<string, int>, probes: seq<Probe>, now: int)
    requires MissesFrom(before, misses, probes, now)
    ensures before.Keys <= misses.Keys
  {
  }

  lemma HashesNew(misses0: map<string, int>, misses1: map<string, int>, probes: seq<Probe>, tried: seq<Probe>)
    requires misses0.Keys <= misses1.Keys
    requires forall k :: 0 <= k < |probes| ==> probes[k].hash !in misses0
    requires forall k :: 0 <= k < |tried| ==> tried[k].hash !in misses1
    ensures forall k :: 0 <= k < |probes + tried| ==> (probes + tried)[k].hash !in misses0
  {
  }

  lemma GrewOn(start: map<string, string>, before: map<string, string>, after: map<string, string>,
    misses0: map<string, int>, misses1: map<string, int>)
    requires GrewPast(start, before, misses0) && GrewPast(before, after, misses1) && misses0.Keys <= misses1.Keys
    ensures GrewPast(start, after, misses0)
  {
    assert forall h :: h in misses0 ==> h in misses1.Keys;
  }

  lemma IndexedMore(start: map<string, string>, before: map<string, string>, now: map<string, string>,
    paths: seq<string>, path: string)
    requires IndexedFrom(start, before, paths)
    requires now.Keys <= before.Keys + {StoreHashOf(path)}
    ensures IndexedFrom(start, now, paths + [path])
  {
    var longer := paths + [path];
    forall h | h in now && h !in start
      ensures exists k :: 0 <= k < |longer| && StoreHashOf(longer[k]) == h
    {
      assert h in now.Keys;
      if h in before {
        var k :| 0 <= k < |paths| && StoreHashOf(paths[k]) == h;
        assert longer[k] == paths[k];
      } else {
        assert longer[|paths|] == path;
      }
    }
  }

  lemma UnresolvedMore(start: map<string, string>, before: map<string, string>, now: map<string, string>,
    closure: seq<string>, gaps: seq<string>, i: int, missed: bool)
    requires gaps == Gaps(start, closure) && DistinctHashes(gaps) && 0 <= i < |gaps|
    requires start.Keys <= before.Keys && IndexedFrom(start, before, gaps[..i])
    requires before.Keys <= now.Keys <= before.Keys + {StoreHashOf(gaps[i])}
    requires if missed then now == before else StoreHashOf(gaps[i]) in now
    ensures Missing(now, gaps[..i] + [gaps[i]]) == Missing(before, gaps[..i]) + if missed then 1 else 0
  {
    var h := StoreHashOf(gaps[i]);
    assert gaps[i] in gaps;
    assert h !in before;
    forall path | path in gaps[..i]
      ensures StoreHashOf(path) != h
    {
      var k :| 0 <= k < i && gaps[k] == path;
    }
    SameMissing(before, now, gaps[..i], h);
    MissingAppend(now, gaps[..i], gaps[i]);
  }

  lemma ClosureSettled(before: map<string, string>, now: map<string, string>, misses: map<string, int>,
    closure: seq<string>)
    requires before.Keys <= now.Keys && Settled(now, misses, Gaps(before, closure))
    ensures Settled(now, misses, closure)
  {
    forall path | path in closure
      ensures StoreHashOf(path) in now || StoreHashOf(path) in misses
    {
      assert StoreHashOf(path) in before || path in Gaps(before, closure);
    }
  }

  lemma TriedClosure(keyed: bool, start: map<string, string>, now: map<string, string>, misses0: map<string, int>,
    misses: map<string, int>, closure: seq<string>, probes: seq<Probe>, time: int)
    requires Tried(keyed, start, now, misses0, misses, Gaps(start, closure), probes, time)
    ensures Tried(keyed, start, now, misses0, misses, closure, probes, time)
  {
    if keyed {
      ClosureSettled(start, now, misses, closure);
      var gaps := Gaps(start, closure);
      forall h | h in now && h !in start
        ensures exists k :: 0 <= k < |closure| && StoreHashOf(closure[k]) == h
      {
        var k :| 0 <= k < |gaps| && StoreHashOf(gaps[k]) == h;
        assert gaps[k] in closure;
      }
    }
  }

  lemma ManifestTried(keyed: bool, start: map<string, string>, after: map<string, string>, misses0: map<string, int>,
    misses: map<string, int>, closure: seq<string>, probes: seq<Probe>, now: int)
    requires Tried(keyed, start, after, misses0, misses, Gaps(start, closure), probes, now)
    ensures Tried(keyed, start, after, misses0, misses, closure, probes, now)
    ensures Missing(after, Gaps(start, closure)) == Missing(after, closure)
  {
    TriedClosure(keyed, start, after, misses0, misses, closure, probes, now);
    MissingAmongGaps(start, after, closure);
  }

  lemma SettledManifest(manifests: map<GenId, Object>, files: seq<GenId>, id: GenId, before: map<string, string>,
    now: map<string, string>, misses: map<string, int>, misses': map<string, int>)
    requires AllSettled(manifests, files, before, misses) && GrewPast(before, now, misses)
      && misses.Keys <= misses'.Keys
    requires id in manifests && manifests[id].body.manifest.Some?
      && Settled(now, misses', manifests[id].body.manifest.value.closure)
    ensures AllSettled(manifests, files + [id], now, misses')
  {
    FlakeGapsStay(manifests, files, before, now, misses, "");
  }

  lemma AccountsMore(gaps: map<string, nat>, manifests: map<GenId, Object>, files: seq<GenId>, id: GenId,
    before: map<string, string>, now: map<string, string>, misses: map<string, int>, unresolved: nat)
    requires AllSettled(manifests, files, before, misses) && GrewPast(before, now, misses)
    requires Accounts(gaps, manifests, files, before)
    requires id in manifests && manifests[id].body.manifest.Some?
      && unresolved == Missing(now, manifests[id].body.manifest.value.closure)
    ensures Accounts(Count(gaps, id.0, unresolved), manifests, files + [id], now)
  {
    forall flake
      ensures CountOf(Count(gaps, id.0, unresolved), flake) == FlakeGaps(manifests, files + [id], now, flake)
    {
      FlakeGapsStay(manifests, files, before, now, misses, flake);
      assert (files + [id])[..|files|] == files;
      assert CountOf(gaps, flake) == FlakeGaps(manifests, files, before, flake);
    }
  }

  /** What is known after the manifests `files` have been gone through. */
  ghost predicate Cycle(keyed: bool, manifests: map<GenId, Object>, files: seq<GenId>, index: map<string, string>,
    kept: map<string, int>, misses: map<string, int>, probes: seq<Probe>, gaps: map<string, nat>, now: int) {
    && MissesFrom(kept, misses, probes, now)
    && NoRetry(probes) && FailuresRecorded(probes, misses)
    && (forall k :: 0 <= k < |probes| ==> probes[k].hash !in kept)
    && (keyed ==> AllSettled(manifests, files, index, misses))
    && (keyed && DistinctClosures(manifests) ==> Accounts(gaps, manifests, files, index))
  }

  lemma CycleMore(keyed: bool, manifests: map<GenId, Object>, files: seq<GenId>, id: GenId, before: map<string, string>,
    after: map<string, string>, kept: map<string, int>, misses: map<string, int>, misses': map<string, int>,
    probes: seq<Probe>, tried: seq<Probe>, gaps: map<string, nat>, unresolved: nat, now: int)
    requires Cycle(keyed, manifests, files, before, kept, misses, probes, gaps, now)
    requires id in manifests && manifests[id].body.manifest.Some?
    requires Tried(keyed, before, after, misses, misses', manifests[id].body.manifest.value.closure, tried, now)
    requires keyed && DistinctClosures(manifests) ==>
      unresolved == Missing(after, manifests[id].body.manifest.value.closure)
    ensures Cycle(keyed, manifests, files + [id], after, kept, misses', probes + tried, Count(gaps, id.0, unresolved),
      now)
  {
    assert kept.Keys <= misses.Keys && misses.Keys <= misses'.Keys;
    ProbesMore(probes, tried, misses, misses');
    MissesFromMore(kept, misses, misses', probes, tried, now);
    assert forall h :: h in kept ==> h in misses.Keys;
    if keyed {
      SettledManifest(manifests, files, id, before, after, misses, misses');
      if DistinctClosures(manifests) {
        AccountsMore(gaps, manifests, files, id, before, after, misses, unresolved);
      }
    }
  }

  lemma CycleSkip(keyed: bool, manifests: map<GenId, Object>, files: seq<GenId>, id: GenId, index: map<string, string>,
    kept: map<string, int>, misses: map<string, int>, probes: seq<Probe>, gaps: map<string, nat>, now: int)
    requires Cycle(keyed, manifests, files, index, kept, misses, probes, gaps, now)
    requires id in manifests && manifests[id].body.manifest.None?
    ensures Cycle(keyed, manifests, files + [id], index, kept, misses, probes, gaps, now)
  {
    assert (files + [id])[..|files|] == files;
  }

  lemma CycleStarts(keyed: bool, manifests: map<GenId, Object>, index: map<string, string>, kept: map<string, int>,
    now: int)
    ensures Cycle(keyed, manifests, [], index, kept, kept, [], map[], now)
  {
  }

  lemma CycleEnds(keyed: bool, manifests: map<GenId, Object>, files: seq<GenId>, index: map<string, string>,
    known: map<string, int>, misses: map<string, int>, probes: seq<Probe>, gaps: map<string, nat>, now: int)
    requires Cycle(keyed, manifests, files, index, Recent(known, now), misses, probes, gaps, now)
    requires forall id :: id in manifests ==> id in files
    ensures NoRetry(probes) && RecentMissesLeft(probes, known, now)
    ensures FailuresRecorded(probes, misses) && MissesFrom(Recent(known, now), misses, probes, now)
    ensures keyed ==> Explained(manifests, index, known, probes, now)
    ensures keyed && DistinctClosures(manifests) ==> Accounts(gaps, manifests, files, index)
  {
    hide Accounts, NoRetry, DistinctClosures;
    var kept := Recent(known, now);
    forall k | 0 <= k < |probes| && probes[k].hash in known
      ensures now - known[probes[k].hash] >= 3600
    {
      assert probes[k].hash !in kept;
    }
    if keyed {
      forall id | id in manifests && manifests[id].body.manifest.Some?
        ensures forall path :: path in manifests[id].body.manifest.value.closure && StoreHashOf(path) !in index ==>
          StoreHashOf(path) in kept || FailedOn(probes, StoreHashOf(path))
      {
        assert Settled(index, misses, manifests[id].body.manifest.value.closure);
      }
    }
  }

  datatype DownReport = DownReport(gaps: map<string, nat>, fetchedPaths: nat)

  lemma NoProbes(misses: map<string, int>, now: int)
    ensures NoRetry([]) && RecentMissesLeft([], misses, now) && Fetches([]) == 0
  {
  }

  /** The first `i` manifest files have been dealt with. */
  ghost predicate Dropping(start: Box, box: Box, b: Bucket, files: seq<GenId>, i: int) {
    && 0 <= i <= |files| && (forall j, k :: 0 <= j < k < |files| ==> files[j] != files[k])
    && Dropped(start, box, b) && box.manifests.Keys <= start.manifests.Keys
    && (forall k :: i <= k < |files| ==> files[k] in box.manifests)
    && (forall id :: id in box.manifests ==> id in files)
    && (forall k :: 0 <= k < i && files[k] in box.manifests ==> KeyOf(files[k]) in b || Guarded(box, files[k]))
  }

  lemma DropStart(box: Box, b: Bucket, files: seq<GenId>)
    requires forall j, k :: 0 <= j < k < |files| ==> files[j] != files[k]
    requires forall id :: id in files <==> id in box.manifests
    ensures Dropping(box, box, b, files, 0)
  {
    hide Guarded, KeyOf;
    DroppedNothing(box, b);
  }

  lemma DropKept(start: Box, box: Box, b: Bucket, files: seq<GenId>, i: int)
    requires Dropping(start, box, b, files, i) && i < |files|
    ensures files[i] in box.manifests && files[i] in start.manifests
    ensures KeyOf(files[i]) in b || Guarded(box, files[i]) ==> Dropping(start, box, b, files, i + 1)
  {
    hide Guarded, KeyOf, Dropped;
    assert files[i] in box.manifests.Keys;
  }

  lemma DropGone(start: Box, box: Box, b: Bucket, files: seq<GenId>, i: int)
    requires Dropping(start, box, b, files, i) && i < |files|
    requires SafeId(files[i]) && KeyOf(files[i]) !in b && !Guarded(box, files[i])
    ensures Dropping(start, WithoutManifest(box, files[i]), b, files, i + 1)
  {
    hide Guarded, KeyOf, Dropped, MarkerOf, SafeId;
    var id := files[i];
    DropOne(start, box, b, id);
    DroppingOn(start, box, WithoutManifest(box, id), b, files, i);
  }

  lemma DroppingOn(start: Box, box: Box, box': Box, b: Bucket, files: seq<GenId>, i: int)
    requires Dropping(start, box, b, files, i) && i < |files|
    requires Dropped(start, box', b) && box'.manifests == box.manifests - {files[i]}
    requires forall x :: Guarded(box', x) <==> Guarded(box, x)
    ensures Dropping(start, box', b, files, i + 1)
  {
    hide Guarded, KeyOf, Dropped;
    assert box'.manifests.Keys <= box.manifests.Keys;
    forall k | i + 1 <= k < |files|
      ensures files[k] in box'.manifests
    {
      assert files[i] != files[k];
    }
  }

  lemma DropEnd(start: Box, box: Box, b: Bucket, files: seq<GenId>)
    requires Dropping(start, box, b, files, |files|)
    ensures Dropped(start, box, b)
    ensures forall id :: id in box.manifests ==> KeyOf(id) in b || Guarded(box, id)
  {
    hide Guarded, KeyOf, Dropped;
  }

  lemma DropSoFar(start: Box, box: Box, b: Bucket, files: seq<GenId>, i: int)
    requires Dropping(start, box, b, files, i)
    ensures Dropped(start, box, b)
  {
  }

  lemma KeyListed(objects: Bucket, prefix: string, listing: seq<Entry>, key: string)
    requires Lists(objects, prefix, listing) && prefix <= key
    ensures key in objects <==> key in (set e | e in listing :: e.0)
  {
    if key in objects {
      var k :| 0 <= k < |listing| && listing[k].0 == key;
      assert listing[k] in listing;
    }
  }

  /** Nothing happened, or the manifest found under a key the box did not have was stored under its own name. */
  ghost predicate Took(manifests: map<GenId, Object>, manifests': map<GenId, Object>, b: Bucket, key: string,
    now: Time) {
    || manifests' == manifests
    || (&& ParseManifestKey(key).Some? && ParseManifestKey(key).value !in manifests && IsManifest(b, key)
        && SafeId(OwnId(b[key].body.manifest.value))
        && manifests' == manifests[OwnId(b[key].body.manifest.value) := Object(b[key].body, now)])
  }

  lemma KeyedPut(box: Box, obj: Object)
    requires obj.body.manifest.Some? && SafeId(OwnId(obj.body.manifest.value))
    ensures WellKeyed(box) ==> WellKeyed(box.(manifests := box.manifests[OwnId(obj.body.manifest.value) := obj]))
  {
    SafeNoSlash(obj.body.manifest.value.flake);
  }

  lemma SafePut(box: Box, id: GenId, obj: Object)
    requires SafeId(id)
    ensures UnsafeManifest(box.(manifests := box.manifests[id := obj])) ==> UnsafeManifest(box)
  {
  }

  lemma DiscoverMore(start: Box, box: Box, b: Bucket, key: string, manifests': map<GenId, Object>, now: Time)
    requires Discovered(start, box, b) && Took(box.manifests, manifests', b, key, now)
    ensures Discovered(start, box.(manifests := manifests'), b)
    ensures box.manifests.Keys <= manifests'.Keys
    ensures UnsafeManifest(box.(manifests := manifests')) ==> UnsafeManifest(box)
  {
    hide SafeComponent, SafeId, WellKeyed, ParseManifestKey, UnsafeManifest;
    if manifests' == box.manifests {
      assert box.(manifests := manifests') == box;
    } else {
      var id := ParseManifestKey(key).value;
      var obj := Object(b[key].body, now);
      ParsedNoSlash(key);
      ManifestKeyRoundTrip(id.0, id.1, key);
      KeyedPut(box, obj);
      SafePut(box, OwnId(obj.body.manifest.value), obj);
    }
  }

  lemma ParsedNoSlash(key: string)
    requires ParseManifestKey(key).Some?
    ensures '/' !in ParseManifestKey(key).value.0
  {
  }

  lemma DiscoveredNothing(box: Box, b: Bucket)
    ensures Discovered(box, box, b)
  {
  }

  lemma TakenStays(manifests: map<GenId, Object>, manifests': map<GenId, Object>, b: Bucket, listing: seq<Entry>,
    i: nat)
    requires i < |listing| && manifests.Keys <= manifests'.Keys
    requires forall k :: 0 <= k < i ==> Taken(manifests, b, listing[k].0)
    ensures forall k :: 0 <= k < i ==> Taken(manifests', b, listing[k].0)
  {
    forall k | 0 <= k < i
      ensures Taken(manifests', b, listing[k].0)
    {
      assert Taken(manifests, b, listing[k].0);
      assert forall id :: id in manifests ==> id in manifests'.Keys;
    }
  }

  /** A pair the store accepts: its NAR is under `nar/`, and both file names are path components. */
  predicate Storable(info: Info) {
    NarFile(info.url).Some? && SafeComponent(NarFile(info.url).value) && SafeComponent(StoreHashOf(info.storePath))
  }

  /** The pair stored whole and indexed. */
  ghost predicate PairIn(box: Box, box': Box, info: Info, body: Body, nar: Body, now: Time) {
    && Storable(info)
    && var h := StoreHashOf(info.storePath);
       box' == box.(nars := box.nars[NarFile(info.url).value := Object(nar, now)],
                    narinfos := box.narinfos[h := Object(body, now)], index := box.index[h := info.url])
  }

  lemma NothingMissed(misses: map<string, int>, now: int)
    ensures MissesFrom(misses, misses, [], now)
  {
  }

  lemma MissRecorded(misses: map<string, int>, h: string, learned: int, probe: Probe, now: int)
    requires h !in misses && probe.hash == h && now <= learned
    ensures MissesFrom(misses, if probe.finding.Fetched? then misses else misses[h := learned], [probe], now)
  {
    var tried := [probe];
    assert tried[0] == probe;
    assert !probe.finding.Fetched? ==> FailedOn(tried, h);
  }

  lemma NothingGrew(index: map<string, string>, misses: map<string, int>)
    ensures GrewPast(index, index, misses)
  {
  }

  lemma GrewByOne(before: map<string, string>, after: map<string, string>, misses: map<string, int>, h: string)
    requires before.Keys <= after.Keys <= before.Keys + {h} && h !in misses
    ensures GrewPast(before, after, misses)
  {
  }

  lemma FetchesOfOne(tried: seq<Probe>, missed: bool)
    requires if tried == [] then missed else |tried| == 1 && (tried[0].finding.Fetched? <==> !missed)
    ensures Fetches(tried) == if missed then 0 else 1
  {
    if tried != [] {
      assert tried[..0] == [];
    }
  }

  lemma DistinctOne(manifests: map<GenId, Object>, id: GenId)
    requires id in manifests && manifests[id].body.manifest.Some?
    ensures DistinctClosures(manifests) ==> DistinctHashes(manifests[id].body.manifest.value.closure)
  {
  }

  lemma RecentIs(misses: map<string, int>, now: int)
    ensures Recent(misses, now) == map h | h in misses && now - misses[h] < MISS_RETRY :: misses[h]
  {
  }

  lemma VettedFiles(box: Box, box': Box, trusts: Body -> bool)
    requires box'.narinfos == box.narinfos
    ensures Vetted(box, box', trusts)
  {
  }

  lemma VettedOn(box: Box, box': Box, box'': Box, trusts: Body -> bool)
    requires Vetted(box, box', trusts) && Vetted(box', box'', trusts)
    ensures Vetted(box, box'', trusts)
  {
  }

  /** Every valid manifest of the remote is on the box under the name in its key. */
  ghost predicate AllTaken(manifests: map<GenId, Object>, b: Bucket) {
    forall key :: key in b && ParseManifestKey(key).Some? && IsManifest(b, key) ==>
      ParseManifestKey(key).value in manifests
  }

  /** The manifests after listing, storing what is new, and dropping what is gone. */
  ghost predicate Reflected(box: Box, box': Box, b: Bucket) {
    exists mid :: Discovered(box, mid, b) && Dropped(mid, box', b)
  }

  lemma ReflectedBy(box: Box, mid: Box, box': Box, b: Bucket)
    requires Discovered(box, mid, b) && Dropped(mid, box', b)
    ensures Reflected(box, box', b)
  {
  }

  lemma DownFrom(box: Box, mid: Box, box': Box, b: Bucket)
    requires Reflected(box, mid, b) && Filled(mid, box')
    ensures DownRel(box, box', b)
    ensures mid.narinfos == box.narinfos && box'.manifests == mid.manifests
    ensures forall id :: Guarded(box', id) <==> Guarded(mid, id)
  {
    var first :| Discovered(box, first, b) && Dropped(first, mid, b);
  }

  /** What was taken from a well-keyed remote is still listed there and so is not dropped again. */
  lemma TakenIsKept(mid: Box, box: Box, b: Bucket, listing: seq<Entry>)
    requires Lists(b, ROOTS, listing) && Dropped(mid, box, b) && ManifestsKeyed(b)
    requires forall k :: 0 <= k < |listing| ==> Taken(mid.manifests, b, listing[k].0)
    ensures AllTaken(box.manifests, b)
  {
    forall key | key in b && ParseManifestKey(key).Some? && IsManifest(b, key)
      ensures ParseManifestKey(key).value in box.manifests
    {
      var id := ParseManifestKey(key).value;
      ManifestKeyRoundTrip(id.0, id.1, key);
      assert ROOTS <= key;
      var k :| 0 <= k < |listing| && listing[k].0 == key;
      assert Taken(mid.manifests, b, listing[k].0);
    }
  }

  lemma ListedUnstorable(b: Bucket, listing: seq<Entry>)
    requires Lists(b, ROOTS, listing) && SomeUnstorable(b, listing)
    ensures exists key :: key in b && Unstorable(b, key)
  {
    var k :| 0 <= k < |listing| && Unstorable(b, listing[k].0);
    assert listing[k].0 in b;
  }

  ghost function FaultsOf(sources: seq<RemoteCache>): nat
    reads (set source | source in sources)`faults
  {
    if sources == [] then 0 else sources[0].faults + FaultsOf(sources[1..])
  }

  /** Failed requests only add up. */
  twostate lemma FaultsGrow(sources: seq<RemoteCache>)
    requires forall source :: source in sources ==> old(source.faults) <= source.faults
    ensures old(FaultsOf(sources)) <= FaultsOf(sources)
    ensures (exists source :: source in sources && old(source.faults) < source.faults) ==>
      old(FaultsOf(sources)) < FaultsOf(sources)
  {
    if sources != [] {
      assert sources[0] in sources;
      FaultsGrow(sources[1..]);
    }
  }

  class Replica {
    const store: Store
    const remote: RemoteCache
    const upstreams: seq<RemoteCache>
    /** The trust check on a narinfo; signatures and content addresses are not part of this class. */
    const trusts: Body -> bool
    /** Hashes no source could supply, with the time that was learned. */
    var misses: map<string, int>

    constructor (store: Store, remote: RemoteCache, upstreams: seq<RemoteCache>, trusts: Body -> bool)
      ensures this.store == store && this.remote == remote && this.upstreams == upstreams && this.trusts == trusts
      ensures misses == map[]
    {
      this.store, this.remote, this.upstreams, this.trusts := store, remote, upstreams, trusts;
      misses := map[];
    }

    function Sources(): seq<RemoteCache> {
      [remote] + upstreams
    }

    ghost function SourceSet(): set<RemoteCache> {
      set source | source in Sources()
    }

    ghost predicate SourcesKeyed()
      reads remote`objects, (set u | u in upstreams)`objects
    {
      InfosKeyed(remote.objects) && forall i :: 0 <= i < |upstreams| ==> InfosKeyed(upstreams[i].objects)
    }

    /** How many requests and local writes have failed. */
    ghost function Faults(): nat
      reads SourceSet()`faults, store`faults
    {
      FaultsOf(Sources()) + store.faults
    }

    /** A source has the pair: a readable, trusted narinfo under the hash, and the NAR it names. */
    ghost predicate Offers(b: Bucket, h: string) {
      && h + ".narinfo" in b && b[h + ".narinfo"].body.utf8 && b[h + ".narinfo"].body.info.Some?
      && trusts(b[h + ".narinfo"].body) && b[h + ".narinfo"].body.info.value.url in b
    }

    /** The remote or some upstream has it. */
    ghost predicate Suppliable(h: string)
      reads remote`objects, (set u | u in upstreams)`objects
    {
      Offers(remote.objects, h) || exists i :: 0 <= i < |upstreams| && Offers(upstreams[i].objects, h)
    }

    ghost predicate Unfit(b: Bucket, h: string) {
      Offers(b, h) && !Storable(b[h + ".narinfo"].body.info.value)
    }

    /** A source has a pair that the store refuses. */
    ghost predicate UnfitOffer(h: string)
      reads remote`objects, (set u | u in upstreams)`objects
    {
      Unfit(remote.objects, h) || exists i :: 0 <= i < |upstreams| && Unfit(upstreams[i].objects, h)
    }

    /** The box has this source's pair, whole. */
    ghost predicate Brought(box: Box, box': Box, b: Bucket, h: string, now: Time)
      requires Offers(b, h)
    {
      var body := b[h + ".narinfo"].body;
      PairIn(box, box', body.info.value, body, b[body.info.value.url].body, now)
    }

    /** It came from the remote if the remote has it, else from the first upstream that does. */
    ghost predicate Came(box: Box, box': Box, h: string, now: Time)
      reads remote`objects, (set u | u in upstreams)`objects
    {
      if Offers(remote.objects, h) then Brought(box, box', remote.objects, h, now)
      else exists i :: 0 <= i < |upstreams| && FirstUpstream(i, h) && Brought(box, box', upstreams[i].objects, h, now)
    }

    ghost predicate FirstUpstream(i: int, h: string)
      requires 0 <= i < |upstreams|
      reads (set u | u in upstreams)`objects
    {
      Offers(upstreams[i].objects, h) && forall j :: 0 <= j < i ==> !Offers(upstreams[j].objects, h)
    }

    /** The sources are the remote and then every upstream. */
    lemma SourcesSpelled()
      ensures |Sources()| == 1 + |upstreams| && Sources()[0] == remote
      ensures forall i :: 0 <= i < |upstreams| ==> Sources()[i + 1] == upstreams[i]
      ensures forall h :: Suppliable(h) <==> exists i :: 0 <= i < |Sources()| && Offers(Sources()[i].objects, h)
    {
      forall h
        ensures Suppliable(h) <==> exists i :: 0 <= i < |Sources()| && Offers(Sources()[i].objects, h)
      {
        if i :| 0 <= i < |upstreams| && Offers(upstreams[i].objects, h) {
          assert Sources()[i + 1] == upstreams[i];
        }
        if i :| 0 <= i < |Sources()| && Offers(Sources()[i].objects, h) {
          assert i > 0 ==> Sources()[i] == upstreams[i - 1];
        }
        if Offers(remote.objects, h) {
          assert Sources()[0] == remote;
        }
      }
    }

    /** What the attempts found is so: absent means no source has the pair, broken that something failed. */
    ghost predicate Truthful(probes: seq<Probe>, faulted: bool)
      reads remote`objects, (set u | u in upstreams)`objects
    {
      forall k :: 0 <= k < |probes| ==>
        && (probes[k].finding.Absent? ==> !Suppliable(probes[k].hash))
        && (probes[k].finding.Broken? ==> faulted || UnfitOffer(probes[k].hash))
    }

    // --- mirror-down ---------------------------------------------------------

    /** Store every valid manifest of the listing the box does not have. */
    method Discover(listing: seq<Entry>, now: Time) returns (r: Outcome)
      modifies store`manifests, store`faults, remote`faults
      ensures Discovered(old(store.Snapshot()), store.Snapshot(), remote.objects)
      ensures old(remote.faults) <= remote.faults && old(store.faults) <= store.faults
      ensures r.Done? ==> forall k :: 0 <= k < |listing| ==> Taken(store.manifests, remote.objects, listing[k].0)
      ensures r.Done? ==> forall k :: 0 <= k < |listing| ==> SafeSpelled(listing[k].0)
      ensures UnsafeManifest(store.Snapshot()) ==> UnsafeManifest(old(store.Snapshot()))
      ensures r.Failed? ==>
        old(remote.faults) < remote.faults || old(store.faults) < store.faults
          || SomeUnstorable(remote.objects, listing)
    {
      hide Discovered, Taken, Took, Unstorable, UnsafeManifest, SafeSpelled;
      DiscoveredNothing(store.Snapshot(), remote.objects);
      for i := 0 to |listing|
        invariant Discovered(old(store.Snapshot()), store.Snapshot(), remote.objects)
        invariant old(remote.faults) <= remote.faults && old(store.faults) <= store.faults
        invariant forall k :: 0 <= k < i ==> Taken(store.manifests, remote.objects, listing[k].0)
        invariant forall k :: 0 <= k < i ==> SafeSpelled(listing[k].0)
        invariant UnsafeManifest(store.Snapshot()) ==> UnsafeManifest(old(store.Snapshot()))
      {
        ghost var box := store.Snapshot();
        var outcome := Take(listing[i].0, now);
        DiscoverMore(old(store.Snapshot()), box, remote.objects, listing[i].0, store.manifests, now);
        if outcome.Failed? {
          assert Unstorable(remote.objects, listing[i].0) ==> SomeUnstorable(remote.objects, listing);
          return Failed;
        }
        TakenStays(box.manifests, store.manifests, remote.objects, listing, i);
      }
      return Done;
    }

    /** One key of the listing. */
    method Take(key: string, now: Time) returns (r: Outcome)
      modifies store`manifests, store`faults, remote`faults
      ensures Took(old(store.manifests), store.manifests, remote.objects, key, now)
      ensures old(remote.faults) <= remote.faults && old(store.faults) <= store.faults
      ensures r.Done? ==> Taken(store.manifests, remote.objects, key) && SafeSpelled(key)
      ensures r.Failed? ==>
        old(remote.faults) < remote.faults || old(store.faults) < store.faults || Unstorable(remote.objects, key)
    {
      match ParseManifestKey(key) {
        case None =>
        case Some(id) =>
          if !SafeId(id) {
            return Failed;
          }
          if id !in store.manifests {
            var reply := remote.Get(key);
            if reply.Err? {
              return Failed;
            }
            if reply.value.Some? && reply.value.value.manifest.Some? {
              var outcome := store.PutManifest(reply.value.value.manifest.value, reply.value.value, now);
              if outcome.Failed? {
                return Failed;
              }
            }
          }
      }
      return Done;
    }

    /** Reflect remote retention: drop what the remote no longer lists, unless it is an unmirrored local push. */
    method Drop(listing: seq<Entry>) returns (r: Outcome)
      requires Lists(remote.objects, ROOTS, listing)
      modifies store`manifests, store`localOrigin, store`mirrored
      ensures Dropped(old(store.Snapshot()), store.Snapshot(), remote.objects)
      ensures r.Done? ==>
        forall id :: id in store.manifests ==> KeyOf(id) in remote.objects || Guarded(store.Snapshot(), id)
      ensures r.Failed? ==> UnsafeManifest(old(store.Snapshot()))
    {
      hide Dropped, Dropping, Lists, MarkerOf, KeyOf, SafeId, UnsafeManifest;
      ghost var start := store.Snapshot();
      var files := store.ManifestFiles();
      var keys := set e | e in listing :: e.0;
      DropStart(start, remote.objects, files);
      for i := 0 to |files|
        invariant Dropping(start, store.Snapshot(), remote.objects, files, i)
      {
        var id := files[i];
        ghost var box := store.Snapshot();
        RootKey(id);
        KeyListed(remote.objects, ROOTS, listing, KeyOf(id));
        DropKept(start, box, remote.objects, files, i);
        if KeyOf(id) !in keys {
          if !(LocalOrigin(store.Snapshot(), id) && !Mirrored(store.Snapshot(), id)) {
            var outcome := store.RemoveManifest(id);
            if outcome.Failed? {
              DropSoFar(start, box, remote.objects, files, i);
              UnsafeIs(start, id);
              return Failed;
            }
            DropGone(start, box, remote.objects, files, i);
          }
        }
      }
      DropEnd(start, store.Snapshot(), remote.objects, files);
      return Done;
    }

    lemma RootKey(id: GenId)
      ensures ROOTS <= KeyOf(id)
    {
    }

    lemma UnsafeIs(box: Box, id: GenId)
      requires id in box.manifests && !SafeId(id)
      ensures UnsafeManifest(box)
    {
    }

    /** Ask one source for the pair: a readable, trusted narinfo, and the NAR it names. */
    method AskSource(source: RemoteCache, h: string) returns (r: Result<Option<(Body, Body)>>)
      modifies source`faults
      ensures old(source.faults) <= source.faults && (r.Err? ==> old(source.faults) < source.faults)
      ensures r.Ok? ==> (r.value.Some? <==> Offers(source.objects, h))
      ensures r.Ok? && r.value.Some? ==>
        && r.value.value.0 == source.objects[InfoKey(h)].body
        && r.value.value.1 == source.objects[r.value.value.0.info.value.url].body
    {
      var reply := source.Get(InfoKey(h));
      if reply.Err? {
        return Err;
      }
      if reply.value.None? || !Readable(reply.value.value) || !trusts(reply.value.value) {
        return Ok(None);
      }
      var body := reply.value.value;
      var nar := source.Get(body.info.value.url);
      if nar.Err? {
        return Err;
      }
      return Ok(match nar.value case Some(bytes) => Some((body, bytes)) case None => None);
    }

    /** The first source that has the pair, with what it has. */
    method FindPair(h: string) returns (r: Result<Option<(nat, Body, Body)>>)
      modifies SourceSet()`faults
      ensures old(FaultsOf(Sources())) <= FaultsOf(Sources())
      ensures r.Err? ==> old(FaultsOf(Sources())) < FaultsOf(Sources())
      ensures r == Ok(None) ==> !Suppliable(h)
      ensures r.Ok? && r.value.Some? ==> FirstPair(r.value.value.0, h, r.value.value.1, r.value.value.2)
    {
      hide Offers;
      var sources := Sources();
      for i := 0 to |sources|
        invariant forall source :: source in sources ==> old(source.faults) <= source.faults
        invariant forall j :: 0 <= j < i ==> !Offers(sources[j].objects, h)
      {
        assert sources[i] in sources;
        var asked := AskSource(sources[i], h);
        if asked.Err? {
          FaultsGrow(sources);
          return Err;
        }
        if asked.value.Some? {
          FaultsGrow(sources);
          return Ok(Some((i, asked.value.value.0, asked.value.value.1)));
        }
      }
      FaultsGrow(sources);
      return Ok(None);
    }

    /** Source `i` has this pair, and none before it has one. */
    ghost predicate FirstPair(i: int, h: string, body: Body, nar: Body)
      reads SourceSet()`objects
    {
      && 0 <= i < |Sources()| && Offers(Sources()[i].objects, h)
      && (forall j :: 0 <= j < i ==> !Offers(Sources()[j].objects, h))
      && body == Sources()[i].objects[h + ".narinfo"].body
      && nar == Sources()[i].objects[body.info.value.url].body
    }

    /**
     * Try each source for a narinfo and its NAR. The first source that has the pair
     * supplies it whole; "no" means none has it; an error means a request or a write
     * failed, or the store refuses the pair, and then nothing is indexed.
     */
    method FetchPath(path: string, now: Time) returns (r: Result<bool>)
      modifies store`narinfos, store`nars, store`index, store`faults, SourceSet()`faults
      ensures Filled(old(store.Snapshot()), store.Snapshot()) && Vetted(old(store.Snapshot()), store.Snapshot(), trusts)
      ensures r == Ok(false) ==>
        && !Offers(remote.objects, StoreHashOf(path))
        && (forall i :: 0 <= i < |upstreams| ==> !Offers(upstreams[i].objects, StoreHashOf(path)))
      ensures r == Ok(false) ==> !Suppliable(StoreHashOf(path)) && store.Snapshot() == old(store.Snapshot())
      ensures r == Ok(true) ==> Came(old(store.Snapshot()), store.Snapshot(), StoreHashOf(path), now)
      ensures r == Err ==> store.index == old(store.index) && store.narinfos == old(store.narinfos)
      ensures r == Err ==> old(Faults()) < Faults() || UnfitOffer(StoreHashOf(path))
      ensures old(Faults()) <= Faults()
    {
      hide Came, PairIn, Filled, Vetted, FirstPair, StoreHashOf, Storable, Suppliable, UnfitOffer, Offers;
      var h := StoreHashOf(path);
      FilledNothing(store.Snapshot());
      var found := FindPair(h);
      match found {
        case Err => return Err;
        case Ok(None) =>
          NoneOffers(h);
          return Ok(false);
        case Ok(Some((i, body, nar))) =>
          FirstPairReads(i, h, body, nar);
          r := StorePair(body.info.value, body, nar, now);
          PairStored(r, old(store.Snapshot()), store.Snapshot(), i, h, body, nar, now);
      }
    }

    lemma NoneOffers(h: string)
      requires !Suppliable(h)
      ensures !Offers(remote.objects, h)
      ensures forall i :: 0 <= i < |upstreams| ==> !Offers(upstreams[i].objects, h)
    {
    }

    lemma FirstPairReads(i: int, h: string, body: Body, nar: Body)
      requires FirstPair(i, h, body, nar)
      ensures Readable(body) && trusts(body)
      ensures !Storable(body.info.value) ==> UnfitOffer(h)
    {
      if i > 0 {
        assert Sources()[i] == upstreams[i - 1];
      }
    }

    lemma PairStored(r: Result<bool>, box: Box, box': Box, i: int, h: string, body: Body, nar: Body, now: Time)
      requires FirstPair(i, h, body, nar) && Readable(body)
      requires r == Ok(true) ==> PairIn(box, box', body.info.value, body, nar, now)
      ensures r == Ok(true) ==> Came(box, box', h, now)
    {
      hide Offers, PairIn;
      if r == Ok(true) && i > 0 {
        assert !Offers(Sources()[0].objects, h);
        assert Sources()[i] == upstreams[i - 1];
        forall j | 0 <= j < i - 1
          ensures !Offers(upstreams[j].objects, h)
        {
          assert Sources()[j + 1] == upstreams[j];
        }
        assert FirstUpstream(i - 1, h);
      }
    }

    method StorePair(info: Info, body: Body, nar: Body, now: Time) returns (r: Result<bool>)
      requires Readable(body) && body.info.value == info && trusts(body)
      modifies store`narinfos, store`nars, store`index, store`faults
      ensures Filled(old(store.Snapshot()), store.Snapshot()) && Vetted(old(store.Snapshot()), store.Snapshot(), trusts)
      ensures r == Ok(true) || r == Err
      ensures r == Err ==> store.index == old(store.index) && store.narinfos == old(store.narinfos)
      ensures r == Err ==> old(store.faults) < store.faults || !Storable(info)
      ensures old(store.faults) <= store.faults
      ensures r == Ok(true) ==> PairIn(old(store.Snapshot()), store.Snapshot(), info, body, nar, now)
    {
      hide Filled, Vetted, PairIn, IndexExact, IndexCovers;
      ghost var box := store.Snapshot();
      FilledNothing(box);
      var file := NarFile(info.url);
      if file.None? {
        return Err;
      }
      var outcome := store.PutNar(file.value, nar, now);
      if outcome.Failed? {
        return Err;
      }
      NarAdded(box, store.Snapshot(), file.value, Object(nar, now));
      ghost var mid := store.Snapshot();
      outcome := store.PutNarinfo(info, body, now);
      if outcome.Failed? {
        return Err;
      }
      InfoAdded(box, mid, store.Snapshot(), info, body, nar, now);
      return Ok(true);
    }

    lemma NarAdded(box: Box, box': Box, file: string, obj: Object)
      requires box' == box.(nars := box.nars[file := obj])
      ensures Filled(box, box') && Vetted(box, box', trusts)
    {
    }

    lemma InfoAdded(box: Box, mid: Box, box': Box, info: Info, body: Body, nar: Body, now: Time)
      requires Readable(body) && body.info.value == info && trusts(body) && Storable(info)
      requires mid == box.(nars := box.nars[NarFile(info.url).value := Object(nar, now)])
      requires Filled(box, mid) && Vetted(box, mid, trusts)
      requires
        var h := StoreHashOf(info.storePath);
        box' == mid.(narinfos := mid.narinfos[h := Object(body, now)], index := mid.index[h := info.url])
      requires (IndexExact(mid) ==> IndexExact(box')) && (IndexCovers(mid) ==> IndexCovers(box'))
      ensures Filled(box, box') && Vetted(box, box', trusts)
      ensures PairIn(box, box', info, body, nar, now)
    {
      hide StoreHashOf, SafeComponent, IndexExact, IndexCovers;
      assert ServesOn(mid, box') by {
        InfoServesOn(mid, box', StoreHashOf(info.storePath), Object(body, now));
      }
      assert Vetted(mid, box', trusts);
      assert Filled(mid, box');
      FilledAgain(box, mid, box', trusts);
    }

    /** A narinfo written over another serves too, if its NAR is there. */
    lemma InfoServesOn(box: Box, box': Box, h: string, obj: Object)
      requires Readable(obj.body) && NarFile(obj.body.info.value.url).Some?
      requires NarFile(obj.body.info.value.url).value in box.nars
      requires box'.nars == box.nars && box'.narinfos == box.narinfos[h := obj]
      ensures ServesOn(box, box')
    {
    }

    /** One gap: skip it if it is a recent miss, else try to fetch it, and record a failure. */
    method TryGap(path: string, now: int) returns (missed: bool, ghost tried: seq<Probe>)
      modifies this`misses, store`narinfos, store`nars, store`index, store`faults, SourceSet()`faults
      ensures Filled(old(store.Snapshot()), store.Snapshot()) && Vetted(old(store.Snapshot()), store.Snapshot(), trusts)
      ensures old(store.index).Keys <= store.index.Keys && old(Faults()) <= Faults()
      ensures MissesFrom(old(misses), misses, tried, now)
      ensures missed ==> store.index == old(store.index) && StoreHashOf(path) in misses
      ensures !missed ==> Came(old(store.Snapshot()), store.Snapshot(), StoreHashOf(path), now)
      ensures SourcesKeyed() && !missed ==> StoreHashOf(path) in store.index
      ensures SourcesKeyed() ==> store.index.Keys <= old(store.index).Keys + {StoreHashOf(path)}
      ensures SourcesKeyed() ==> GrewPast(old(store.index), store.index, old(misses))
      ensures if StoreHashOf(path) in old(misses) then tried == [] && missed
        else |tried| == 1 && tried[0].hash == StoreHashOf(path) && (tried[0].finding.Fetched? <==> !missed)
      ensures Truthful(tried, old(Faults()) < Faults())
    {
      hide Filled, Vetted, Came, Suppliable, UnfitOffer, MissesFrom, GrewPast, Truthful, Faults, SourcesKeyed;
      hide StoreHashOf;
      var h := StoreHashOf(path);
      FilledNothing(store.Snapshot());
      NothingTried();
      NothingMissed(misses, now);
      NothingGrew(store.index, misses);
      if h in misses {
        return true, [];
      }
      var r := FetchPath(path, now);
      if r.Ok? && r.value {
        CameIndexed(old(store.Snapshot()), store.Snapshot(), path, now);
        tried := [Probe(h, Fetched)];
        MissRecorded(misses, h, now, tried[0], now);
        OneTruth(tried[0], old(Faults()) < Faults());
        if SourcesKeyed() {
          GrewByOne(old(store.index), store.index, old(misses), h);
        }
        return false, tried;
      }
      assert r.Ok? ==> r == Ok(false);
      var learned: int :| now <= learned;
      tried := [Probe(h, if r.Err? then Broken else Absent)];
      MissRecorded(misses, h, learned, tried[0], now);
      OneTruth(tried[0], old(Faults()) < Faults());
      misses := misses[h := learned];
      return true, tried;
    }

    lemma OneTruth(probe: Probe, faulted: bool)
      requires probe.finding.Absent? ==> !Suppliable(probe.hash)
      requires probe.finding.Broken? ==> faulted || UnfitOffer(probe.hash)
      ensures Truthful([probe], faulted)
    {
    }

    lemma CameIndexed(box: Box, box': Box, path: string, now: Time)
      requires Came(box, box', StoreHashOf(path), now)
      ensures box.index.Keys <= box'.index.Keys
      ensures SourcesKeyed() ==>
        StoreHashOf(path) in box'.index && box'.index.Keys <= box.index.Keys + {StoreHashOf(path)}
    {
      var h := StoreHashOf(path);
      assert InfoKey(h) == h + ".narinfo";
      if !Offers(remote.objects, h) {
        var i :| 0 <= i < |upstreams| && FirstUpstream(i, h) && Brought(box, box', upstreams[i].objects, h, now);
      }
    }

    lemma TruthfulMore(probes: seq<Probe>, tried: seq<Probe>, before: bool, since: bool, faulted: bool)
      requires Truthful(probes, before) && Truthful(tried, since)
      requires before || since ==> faulted
      ensures Truthful(probes + tried, faulted)
    {
      var all := probes + tried;
      forall k | 0 <= k < |all|
        ensures all[k].finding.Absent? ==> !Suppliable(all[k].hash)
        ensures all[k].finding.Broken? ==> faulted || UnfitOffer(all[k].hash)
      {
        assert all[k] == if k < |probes| then probes[k] else tried[k - |probes|];
      }
    }

    /** The next gap of a manifest. */
    method NextGap(ghost start: Box, ghost faults0: nat, ghost misses0: map<string, int>, ghost closure: seq<string>,
      gaps: seq<string>, i: nat, now: int, ghost probes: seq<Probe>, ghost unresolved: nat)
      returns (missed: bool, ghost probes': seq<Probe>)
      requires gaps == Gaps(start.index, closure) && i < |gaps|
      requires Filled(start, store.Snapshot()) && Vetted(start, store.Snapshot(), trusts)
      requires Tried(SourcesKeyed(), start.index, store.index, misses0, misses, gaps[..i], probes, now)
      requires SourcesKeyed() && DistinctHashes(gaps) ==> unresolved == Missing(store.index, gaps[..i])
      requires faults0 <= Faults() && Truthful(probes, faults0 < Faults())
      modifies this`misses, store`narinfos, store`nars, store`index, store`faults, SourceSet()`faults
      ensures Filled(start, store.Snapshot()) && Vetted(start, store.Snapshot(), trusts)
      ensures Tried(SourcesKeyed(), start.index, store.index, misses0, misses, gaps[..i + 1], probes', now)
      ensures SourcesKeyed() && DistinctHashes(gaps) ==>
        unresolved + (if missed then 1 else 0) == Missing(store.index, gaps[..i + 1])
      ensures faults0 <= Faults() && Truthful(probes', faults0 < Faults())
      ensures Fetches(probes') == Fetches(probes) + if missed then 0 else 1
    {
      hide Tried, Filled, Vetted, Truthful, GrewPast, DistinctHashes, Missing, MissesFrom, Gaps, Came, Fetches;
      hide Faults, SourcesKeyed, StoreHashOf;
      var path := gaps[i];
      ghost var box, misses1, faults1 := store.Snapshot(), misses, Faults();
      assert gaps[..i + 1] == gaps[..i] + [path];
      ghost var tried;
      missed, tried := TryGap(path, now);
      FilledAgain(start, box, store.Snapshot(), trusts);
      FetchesOfOne(tried, missed);
      FetchesMore(probes, tried);
      GapTried(start, box, store.Snapshot(), misses0, misses1, misses, closure, gaps, i, probes, tried, now, missed,
        unresolved);
      TruthfulMore(probes, tried, faults0 < faults1, faults1 < Faults(), faults0 < Faults());
      probes' := probes + tried;
    }

    lemma GapTried(start: Box, box: Box, box': Box, misses0: map<string, int>, misses1: map<string, int>,
      misses2: map<string, int>, closure: seq<string>, gaps: seq<string>, i: nat, probes: seq<Probe>, tried: seq<Probe>,
      now: int, missed: bool, unresolved: nat)
      requires gaps == Gaps(start.index, closure) && i < |gaps|
      requires Tried(SourcesKeyed(), start.index, box.index, misses0, misses1, gaps[..i], probes, now)
      requires SourcesKeyed() && DistinctHashes(gaps) ==> unresolved == Missing(box.index, gaps[..i])
      requires MissesFrom(misses1, misses2, tried, now) && box.index.Keys <= box'.index.Keys
      requires missed ==> box'.index == box.index && StoreHashOf(gaps[i]) in misses2
      requires SourcesKeyed() ==>
        && (!missed ==> StoreHashOf(gaps[i]) in box'.index)
        && box'.index.Keys <= box.index.Keys + {StoreHashOf(gaps[i])}
        && GrewPast(box.index, box'.index, misses1)
      requires if StoreHashOf(gaps[i]) in misses1 then tried == [] && missed
        else |tried| == 1 && tried[0].hash == StoreHashOf(gaps[i]) && (tried[0].finding.Fetched? <==> !missed)
      ensures Tried(SourcesKeyed(), start.index, box'.index, misses0, misses2, gaps[..i] + [gaps[i]], probes + tried,
        now)
      ensures SourcesKeyed() && DistinctHashes(gaps) ==>
        unresolved + (if missed then 1 else 0) == Missing(box'.index, gaps[..i] + [gaps[i]])
    {
      TriedMore(SourcesKeyed(), start.index, box.index, box'.index, misses0, misses1, misses2, gaps[..i], probes,
        gaps[i], missed, tried, now);
      if SourcesKeyed() && DistinctHashes(gaps) {
        UnresolvedMore(start.index, box.index, box'.index, closure, gaps, i, missed);
      }
    }

    /** Fetch one manifest's gaps; count those that stay. */
    method FillManifest(closure: seq<string>, now: int)
      returns (unresolved: nat, fetched: nat, ghost probes: seq<Probe>)
      modifies this`misses, store`narinfos, store`nars, store`index, store`faults, SourceSet()`faults
      ensures Filled(old(store.Snapshot()), store.Snapshot()) && Vetted(old(store.Snapshot()), store.Snapshot(), trusts)
      ensures Tried(SourcesKeyed(), old(store.index), store.index, old(misses), misses, closure, probes, now)
      ensures SourcesKeyed() && DistinctHashes(closure) ==> unresolved == Missing(store.index, closure)
      ensures old(Faults()) <= Faults() && Truthful(probes, old(Faults()) < Faults())
      ensures fetched == Fetches(probes)
    {
      hide Filled, Vetted, Truthful, DistinctHashes, Tried, Missing, Gaps, Fetches, Faults, SourcesKeyed;
      var gaps := Gaps(store.index, closure);
      unresolved, fetched, probes := 0, 0, [];
      if DistinctHashes(closure) {
        GapsDistinct(store.index, closure);
      }
      ghost var start, misses0, faults0 := store.Snapshot(), misses, Faults();
      assert gaps[..0] == [];
      FilledNothing(start);
      NothingTried();
      TriedNothing(SourcesKeyed(), start.index, misses0, now);
      for i := 0 to |gaps|
        invariant Filled(start, store.Snapshot()) && Vetted(start, store.Snapshot(), trusts)
        invariant Tried(SourcesKeyed(), start.index, store.index, misses0, misses, gaps[..i], probes, now)
        invariant SourcesKeyed() && DistinctHashes(gaps) ==> unresolved == Missing(store.index, gaps[..i])
        invariant faults0 <= Faults() && Truthful(probes, faults0 < Faults())
        invariant fetched == Fetches(probes)
      {
        var missed;
        missed, probes := NextGap(start, faults0, misses0, closure, gaps, i, now, probes, unresolved);
        if missed {
          unresolved := unresolved + 1;
        } else {
          fetched := fetched + 1;
        }
      }
      assert gaps[..|gaps|] == gaps;
      ManifestTried(SourcesKeyed(), start.index, store.index, misses0, misses, closure, probes, now);
    }

    lemma TriedNothing(keyed: bool, index: map<string, string>, misses0: map<string, int>, now: int)
      ensures Tried(keyed, index, index, misses0, misses0, [], [], now) && Missing(index, []) == 0
    {
    }

    lemma FilledNothing(box: Box)
      ensures Filled(box, box) && Vetted(box, box, trusts)
    {
    }

    lemma NothingTried()
      ensures Truthful([], false) && Truthful([], true) && Fetches([]) == 0
    {
    }

    /** The next manifest of the cycle. */
    method NextManifest(ghost start: Box, ghost faults0: nat, ghost kept: map<string, int>, all: seq<GenId>, i: nat,
      now: int, report: DownReport, ghost probes: seq<Probe>)
      returns (report': DownReport, ghost probes': seq<Probe>)
      requires i < |all| && all[i] in store.manifests
      requires Filled(start, store.Snapshot()) && Vetted(start, store.Snapshot(), trusts)
      requires Cycle(SourcesKeyed(), start.manifests, all[..i], store.index, kept, misses, probes, report.gaps, now)
      requires faults0 <= Faults() && Truthful(probes, faults0 < Faults()) && report.fetchedPaths == Fetches(probes)
      modifies this`misses, store`narinfos, store`nars, store`index, store`faults, SourceSet()`faults
      ensures Filled(start, store.Snapshot()) && Vetted(start, store.Snapshot(), trusts)
      ensures Cycle(SourcesKeyed(), start.manifests, all[..i + 1], store.index, kept, misses, probes', report'.gaps,
        now)
      ensures faults0 <= Faults() && Truthful(probes', faults0 < Faults()) && report'.fetchedPaths == Fetches(probes')
    {
      hide Cycle, Tried, Vetted, Truthful, Filled, DistinctClosures, Faults, SourcesKeyed, Fetches, Missing;
      FilledKeeps(start, store.Snapshot());
      var id := all[i];
      ghost var box, misses0, faults1 := store.Snapshot(), misses, Faults();
      assert all[..i + 1] == all[..i] + [id];
      match store.manifests[id].body.manifest {
        case None =>
          CycleSkip(SourcesKeyed(), start.manifests, all[..i], id, store.index, kept, misses, probes, report.gaps, now);
          return report, probes;
        case Some(m) =>
          var unresolved, fetched, tried := FillManifest(m.closure, now);
          FilledAgain(start, box, store.Snapshot(), trusts);
          DistinctOne(start.manifests, id);
          CycleMore(SourcesKeyed(), start.manifests, all[..i], id, box.index, store.index, kept, misses0, misses,
            probes, tried, report.gaps, unresolved, now);
          TruthfulMore(probes, tried, faults0 < faults1, faults1 < Faults(), faults0 < Faults());
          FetchesMore(probes, tried);
          return DownReport(Count(report.gaps, id.0, unresolved), report.fetchedPaths + fetched), probes + tried;
      }
    }

    /** Fill the gaps of every manifest the box holds, and count what no source had. */
    method FillGaps(now: int) returns (report: DownReport, ghost files: seq<GenId>, ghost probes: seq<Probe>)
      modifies this`misses, store`narinfos, store`nars, store`index, store`faults, SourceSet()`faults
      ensures Filled(old(store.Snapshot()), store.Snapshot()) && Vetted(old(store.Snapshot()), store.Snapshot(), trusts)
      ensures forall j, k :: 0 <= j < k < |files| ==> files[j] != files[k]
      ensures forall id :: id in files <==> id in store.manifests
      ensures NoRetry(probes) && RecentMissesLeft(probes, old(misses), now)
      ensures FailuresRecorded(probes, misses) && MissesFrom(Recent(old(misses), now), misses, probes, now)
      ensures old(Faults()) <= Faults() && Truthful(probes, old(Faults()) < Faults())
      ensures report.fetchedPaths == Fetches(probes)
      ensures SourcesKeyed() ==> Explained(store.manifests, store.index, old(misses), probes, now)
      ensures SourcesKeyed() && DistinctClosures(store.manifests) ==>
        Accounts(report.gaps, store.manifests, files, store.index)
    {
      hide Cycle, Accounts, NoRetry, RecentMissesLeft, FailuresRecorded, MissesFrom, DistinctClosures, Filled;
      hide Vetted, Truthful, Explained, Recent, Faults, SourcesKeyed, Fetches;
      ghost var known := misses;
      misses := map h | h in misses && now - misses[h] < MISS_RETRY :: misses[h];
      assert misses == Recent(known, now) by { RecentIs(known, now); }
      ghost var start, faults0 := store.Snapshot(), Faults();
      var all := store.ManifestFiles();
      files := all;
      report, probes := DownReport(map[], 0), [];
      assert all[..0] == [];
      CycleStarts(SourcesKeyed(), start.manifests, store.index, misses, now);
      FilledNothing(start);
      NothingTried();
      for i := 0 to |all|
        invariant Filled(start, store.Snapshot()) && Vetted(start, store.Snapshot(), trusts)
        invariant Cycle(SourcesKeyed(), start.manifests, all[..i], store.index, Recent(known, now), misses, probes,
          report.gaps, now)
        invariant faults0 <= Faults() && Truthful(probes, faults0 < Faults()) && report.fetchedPaths == Fetches(probes)
      {
        assert all[i] in all;
        report, probes := NextManifest(start, faults0, Recent(known, now), all, i, now, report, probes);
      }
      assert all[..|all|] == all;
      CycleEnds(SourcesKeyed(), start.manifests, all, store.index, known, misses, probes, report.gaps, now);
    }

    /** List the remote's manifests and store what is new. */
    method TakeListing(now: Time) returns (r: Result<seq<Entry>>)
      modifies store`manifests, store`faults, remote`faults
      ensures Discovered(old(store.Snapshot()), store.Snapshot(), remote.objects)
      ensures old(Faults()) <= Faults()
      ensures UnsafeManifest(store.Snapshot()) ==> UnsafeManifest(old(store.Snapshot()))
      ensures r.Err? ==>
        old(Faults()) < Faults() || exists key :: key in remote.objects && Unstorable(remote.objects, key)
      ensures r.Ok? ==>
        && Lists(remote.objects, ROOTS, r.value) && AllSafeSpelled(remote.objects)
        && forall k :: 0 <= k < |r.value| ==> Taken(store.manifests, remote.objects, r.value[k].0)
    {
      hide Discovered, Lists, Taken, Unstorable, SomeUnstorable, UnsafeManifest, SafeSpelled, AllSafeSpelled;
      assert remote in Sources();
      DiscoveredNothing(store.Snapshot(), remote.objects);
      r := remote.List(ROOTS);
      FaultsGrow(Sources());
      if r.Err? {
        return Err;
      }
      var outcome := Discover(r.value, now);
      FaultsGrow(Sources());
      if outcome.Failed? {
        if SomeUnstorable(remote.objects, r.value) {
          ListedUnstorable(remote.objects, r.value);
        }
        return Err;
      }
      ListedSafe(remote.objects, r.value);
    }

    /** List the remote's manifests, store what is new, drop what is gone. */
    method Reflect(now: Time) returns (r: Outcome)
      modifies store`manifests, store`localOrigin, store`mirrored, store`faults, remote`faults
      ensures Reflected(old(store.Snapshot()), store.Snapshot(), remote.objects)
      ensures old(Faults()) <= Faults()
      ensures r.Failed? ==>
        || old(Faults()) < Faults() || UnsafeManifest(old(store.Snapshot()))
        || exists key :: key in remote.objects && Unstorable(remote.objects, key)
      ensures r.Done? ==>
        && (forall id :: id in store.manifests ==> KeyOf(id) in remote.objects || Guarded(store.Snapshot(), id))
        && (ManifestsKeyed(remote.objects) ==> AllTaken(store.manifests, remote.objects))
        && AllSafeSpelled(remote.objects)
    {
      hide Discovered, Dropped, Reflected, Lists, Taken, Unstorable, ManifestsKeyed, AllTaken, UnsafeManifest;
      hide AllSafeSpelled, Guarded, KeyOf;
      ghost var box := store.Snapshot();
      var listed := TakeListing(now);
      ghost var mid := store.Snapshot();
      DroppedNothing(mid, remote.objects);
      ReflectedBy(box, mid, mid, remote.objects);
      if listed.Err? {
        return Failed;
      }
      r := Drop(listed.value);
      ReflectedBy(box, mid, store.Snapshot(), remote.objects);
      if r.Done? && ManifestsKeyed(remote.objects) {
        TakenIsKept(mid, store.Snapshot(), remote.objects, listed.value);
      }
    }

    /**
     * One mirror-down. Whatever fails, only what `DownRel` allows has happened, and
     * only trusted narinfos came in. On success every valid manifest the remote lists
     * is on the box, every manifest left is listed remotely or guarded, and a path
     * still missing is a recent miss or was tried once and failed, because no source
     * has the pair or because something broke; the reported gaps of each flake are
     * the gaps of its manifests on the final index. It fails only when a request or a
     * write did, or when a name is no path component; and one key of the remote that
     * spells such a name always makes it fail.
     */
    method Down(now: Time) returns (r: Result<DownReport>, ghost files: seq<GenId>, ghost probes: seq<Probe>)
      modifies this`misses, store, SourceSet()`faults
      ensures DownRel(old(store.Snapshot()), store.Snapshot(), remote.objects)
      ensures Vetted(old(store.Snapshot()), store.Snapshot(), trusts)
      ensures NoRetry(probes) && RecentMissesLeft(probes, old(misses), now)
      ensures Truthful(probes, old(Faults()) < Faults())
      ensures r.Err? ==>
        || old(Faults()) < Faults() || UnsafeManifest(old(store.Snapshot()))
        || exists key :: key in remote.objects && Unstorable(remote.objects, key)
      ensures r.Ok? ==>
        && (forall id :: id in store.manifests ==> KeyOf(id) in remote.objects || Guarded(store.Snapshot(), id))
        && (ManifestsKeyed(remote.objects) ==> AllTaken(store.manifests, remote.objects))
        && AllSafeSpelled(remote.objects)
        && (forall id :: id in files <==> id in store.manifests)
        && (forall j, k :: 0 <= j < k < |files| ==> files[j] != files[k])
        && FailuresRecorded(probes, misses) && MissesFrom(Recent(old(misses), now), misses, probes, now)
        && r.value.fetchedPaths == Fetches(probes)
        && (SourcesKeyed() ==> Explained(store.manifests, store.index, old(misses), probes, now))
      ensures r.Ok? && SourcesKeyed() && DistinctClosures(store.manifests) ==>
        Accounts(r.value.gaps, store.manifests, files, store.index)
    {
      hide Accounts, NoRetry, RecentMissesLeft, FailuresRecorded, MissesFrom, DistinctClosures, Truthful, Explained,
        Recent;
      hide Vetted, Unstorable, ManifestsKeyed, AllTaken, UnsafeManifest, Reflected, Filled, DownRel, Guarded;
      hide AllSafeSpelled;
      files, probes := [], [];
      NoProbes(misses, now);
      NothingTried();
      ghost var box := store.Snapshot();
      var outcome := Reflect(now);
      if outcome.Failed? {
        FilledNothing(store.Snapshot());
        DownFrom(box, store.Snapshot(), store.Snapshot(), remote.objects);
        VettedFiles(box, store.Snapshot(), trusts);
        return Err, files, probes;
      }
      ghost var mid, faults1 := store.Snapshot(), Faults();
      var report;
      report, files, probes := FillGaps(now);
      DownFrom(box, mid, store.Snapshot(), remote.objects);
      VettedFiles(box, mid, trusts);
      VettedOn(box, mid, store.Snapshot(), trusts);
      TruthfulMore([], probes, false, faults1 < Faults(), old(Faults()) < Faults());
      assert [] + probes == probes;
      return Ok(report), files, probes;
    }
  }

  lemma {:induction false} SameMissing(before: map<string, string>, now: map<string, string>, paths: seq<string>,
    h: string)
    requires before.Keys <= now.Keys <= before.Keys + {h}
    requires forall path :: path in paths ==> StoreHashOf(path) != h
    ensures Missing(now, paths) == Missing(before, paths)
  {
    if paths != [] {
      assert paths[0] in paths;
      SameMissing(before, now, paths[1..], h);
    }
  }
}
