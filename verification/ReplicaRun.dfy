/**
 * The box and its remote over whole runs. A step is one push to the box, one
 * mirror-down, one mirror-up, one box sweep (by the server or by another process),
 * one index prune, or any change to the remote; the replica operations are the
 * relations their methods are proved to stay within, failures included.
 */
module ReplicaRun {
  import opened Wrappers
  import opened Retention
  import opened Keys
  import opened Objects
  import opened BoxStore
  import opened BoxGc
  import opened Ingest
  import opened Mirror
  import opened MirrorUp

  datatype World = World(box: Box, remote: Bucket)

  // --- steps ---------------------------------------------------------------

  ghost predicate PushInfo(s: World, s': World, h: string, obj: Object) {
    InfoStored(s.box, s'.box, h, obj) && s'.remote == s.remote
  }

  ghost predicate PushNar(s: World, s': World, file: string, obj: Object) {
    NarStored(s.box, s'.box, file, obj) && s'.remote == s.remote
  }

  ghost predicate PushManifest(s: World, s': World, id: GenId, obj: Object) {
    ManifestStored(s.box, s'.box, id, obj) && s'.remote == s.remote
  }

  ghost predicate DownStep(s: World, s': World) {
    DownRel(s.box, s'.box, s.remote) && s'.remote == s.remote
  }

  ghost predicate UpStep(s: World, s': World) {
    UpRel(s.box, s'.box, s.remote, s'.remote)
  }

  ghost predicate SweepStep(s: World, s': World, now: Time, grace: Duration) {
    BoxSweepRel(s.box, s'.box, now, grace) && s'.remote == s.remote
  }

  /** A sweep in another process scans its own index; the server's index stays as it was. */
  ghost predicate ExternalSweep(s: World, s': World, now: Time, grace: Duration) {
    && s'.remote == s.remote
    && exists swept ::
      BoxSweepRel(s.box.(index := ScanOf(s.box.narinfos)), swept, now, grace) && s'.box == swept.(index := s.box.index)
  }

  ghost predicate Prune(s: World, s': World) {
    s' == s.(box := s.box.(index := map h | h in s.box.index && SafeComponent(h) && h in s.box.narinfos ::
      s.box.index[h]))
  }

  /** Other publishers, the remote sweep, anything: the remote is whatever it is. */
  ghost predicate RemoteChange(s: World, s': World) {
    s'.box == s.box
  }

  ghost predicate Step(s: World, s': World) {
    || (exists h, obj :: PushInfo(s, s', h, obj))
    || (exists file, obj :: PushNar(s, s', file, obj))
    || (exists id, obj :: PushManifest(s, s', id, obj))
    || DownStep(s, s')
    || UpStep(s, s')
    || (exists now, grace :: SweepStep(s, s', now, grace))
    || (exists now, grace :: ExternalSweep(s, s', now, grace))
    || Prune(s, s')
    || RemoteChange(s, s')
  }

  /** The hypotheses on names: every state has a well-keyed box and remote, and no two manifests share a marker name. */
  ghost predicate WellNamed(s: World) {
    WellKeyed(s.box) && ManifestsKeyed(s.remote) && DistinctMarkers(s.box.manifests.Keys)
  }

  ghost predicate Run(states: seq<World>) {
    && states != []
    && (forall n :: 0 <= n < |states| ==> WellNamed(states[n]))
    && (forall n :: 0 <= n < |states| - 1 ==> Step(states[n], states[n + 1]))
  }

  // --- invariants of the names and the index --------------------------------

  ghost predicate StoreOk(box: Box) {
    WellKeyed(box) && IndexCovers(box) && SafeNames(box)
  }

  lemma DownKeepsStore(s: World, s': World)
    requires DownStep(s, s') && StoreOk(s.box)
    ensures StoreOk(s'.box)
  {
    hide Discovered, Dropped, Filled, StoreOk;
    var mid1, mid2 :| Discovered(s.box, mid1, s.remote) && Dropped(mid1, mid2, s.remote) && Filled(mid2, s'.box);
    DiscoveredKeeps(s.box, mid1, s.remote);
    DroppedKeeps(mid1, mid2, s.remote);
    FilledKeeps(mid2, s'.box);
  }

  lemma DiscoveredKeeps(box: Box, box': Box, b: Bucket)
    requires Discovered(box, box', b) && StoreOk(box)
    ensures StoreOk(box')
  {
    hide ManifestsKeyed, KeyOf, WellKeyed;
  }

  lemma DroppedKeeps(box: Box, box': Box, b: Bucket)
    requires Dropped(box, box', b) && StoreOk(box)
    ensures StoreOk(box')
  {
    hide KeyOf, WellKeyed, Guarded;
  }

  lemma FilledKeeps(box: Box, box': Box)
    requires Filled(box, box') && StoreOk(box)
    ensures StoreOk(box')
  {
    hide ServesOn, IndexCovers, IndexExact, SafeNames;
  }

  lemma NamesAlone(a: Box, b: Box)
    requires a.narinfos == b.narinfos && a.manifests == b.manifests
    ensures (WellKeyed(a) <==> WellKeyed(b)) && (SafeNames(a) <==> SafeNames(b))
  {
  }

  /** Narinfos only disappear in a sweep. */
  lemma InfosOnlyGo(box: Box, box': Box, now: Time, grace: Duration)
    requires BoxSweepRel(box, box', now, grace)
    ensures forall h :: h in box'.narinfos ==> h in box.narinfos && box'.narinfos[h] == box.narinfos[h]
  {
  }

  lemma ExternalSweepKeepsStore(s: World, s': World, now: Time, grace: Duration)
    requires ExternalSweep(s, s', now, grace) && StoreOk(s.box)
    ensures StoreOk(s'.box)
  {
    var scanned := s.box.(index := ScanOf(s.box.narinfos));
    hide BoxSweepRel, WellKeyed, SafeNames, IndexExact;
    var swept :| BoxSweepRel(scanned, swept, now, grace) && s'.box == swept.(index := s.box.index);
    NamesAlone(scanned, s.box);
    NamesAlone(swept, s'.box);
    InfosOnlyGo(scanned, swept, now, grace);
    SweepKeepsIndex(scanned, swept, now, grace);
  }

  /** What the write endpoint does is a push of the run, with its narinfo checked. */
  lemma PushIsStep(s: World, s': World, path: string, obj: Object, trusts: Body -> bool)
    requires Pushed(s.box, s'.box, path, obj, trusts) && s'.remote == s.remote
    ensures Step(s, s') && CheckedStep(s, s', trusts)
  {
    hide InfoStored, NarStored, ManifestStored, DownStep, UpStep, SweepStep, ExternalSweep, Prune, RemoteChange;
    match TargetOf(path)
    case InfoFile(hash) => assert PushInfo(s, s', hash, obj);
    case NarFileNamed(file) => assert PushNar(s, s', file, obj);
    case ManifestFile(id) => assert PushManifest(s, s', id, obj);
  }

  lemma PushKeepsStore(s: World, s': World)
    requires (exists h, obj :: PushInfo(s, s', h, obj)) || (exists file, obj :: PushNar(s, s', file, obj))
      || (exists id, obj :: PushManifest(s, s', id, obj))
    requires StoreOk(s.box)
    ensures StoreOk(s'.box)
  {
    hide InfoStored, NarStored, ManifestStored, WellKeyed, IndexCovers, SafeNames;
    if h, obj :| PushInfo(s, s', h, obj) {
      InfoKeepsOrder(s.box, s'.box, h, obj);
    } else if file, obj :| PushNar(s, s', file, obj) {
      NarKeepsOrder(s.box, s'.box, file, obj);
    } else {
      var id, obj :| PushManifest(s, s', id, obj);
      ManifestKeepsOrder(s.box, s'.box, id, obj);
    }
  }

  /** Every step keeps manifests under their own names and the index a cover of the disk. */
  lemma StepKeepsStore(s: World, s': World)
    requires Step(s, s') && StoreOk(s.box)
    ensures StoreOk(s'.box)
  {
    if DownStep(s, s') {
      DownKeepsStore(s, s');
    } else if now, grace :| SweepStep(s, s', now, grace) {
      SweepKeepsIndex(s.box, s'.box, now, grace);
    } else if now, grace :| ExternalSweep(s, s', now, grace) {
      ExternalSweepKeepsStore(s, s', now, grace);
    } else if !UpStep(s, s') && !Prune(s, s') && !RemoteChange(s, s') {
      PushKeepsStore(s, s');
    }
  }

  // --- trust ------------------------------------------------------------------

  /** Every narinfo on the box has passed this check. */
  ghost predicate AllTrusted(box: Box, trusts: Body -> bool) {
    forall h :: h in box.narinfos ==> trusts(box.narinfos[h].body)
  }

  /** A step whose pushed narinfo was checked, and whose mirror-down checked what it fetched. */
  ghost predicate CheckedStep(s: World, s': World, trusts: Body -> bool) {
    || (exists h, obj :: PushInfo(s, s', h, obj) && trusts(obj.body))
    || (exists file, obj :: PushNar(s, s', file, obj))
    || (exists id, obj :: PushManifest(s, s', id, obj))
    || (DownStep(s, s') && Vetted(s.box, s'.box, trusts))
    || UpStep(s, s')
    || (exists now, grace :: SweepStep(s, s', now, grace))
    || (exists now, grace :: ExternalSweep(s, s', now, grace))
    || Prune(s, s')
    || RemoteChange(s, s')
  }

  lemma CheckedKeepsTrust(s: World, s': World, trusts: Body -> bool)
    requires CheckedStep(s, s', trusts) && AllTrusted(s.box, trusts)
    ensures AllTrusted(s'.box, trusts)
  {
    hide BoxSweepRel, DownRel;
    if now, grace :| SweepStep(s, s', now, grace) {
      InfosOnlyGo(s.box, s'.box, now, grace);
    } else if now, grace :| ExternalSweep(s, s', now, grace) {
      var scanned := s.box.(index := ScanOf(s.box.narinfos));
      var swept :| BoxSweepRel(scanned, swept, now, grace) && s'.box == swept.(index := s.box.index);
      InfosOnlyGo(scanned, swept, now, grace);
    }
  }

  /** Over every run, each narinfo on the box, and so each one it serves, has passed the trust check. */
  lemma {:induction false} TrustInvariant(states: seq<World>, n: int, trusts: Body -> bool)
    requires 0 <= n < |states| && AllTrusted(states[0].box, trusts)
    requires forall k :: 0 <= k < |states| - 1 ==> CheckedStep(states[k], states[k + 1], trusts)
    ensures AllTrusted(states[n].box, trusts)
    ensures forall path :: TargetOf(path).InfoFile? && Served(states[n].box, path).Some? ==>
      trusts(Served(states[n].box, path).value.body)
    decreases n
  {
    hide CheckedStep, SafeComponent;
    if n > 0 {
      TrustInvariant(states, n - 1, trusts);
      assert CheckedStep(states[n - 1], states[n], trusts);
      CheckedKeepsTrust(states[n - 1], states[n], trusts);
    }
  }

  // --- guarded pushes -------------------------------------------------------

  /** The operations of the replica itself, as opposed to pushes and remote changes. */
  ghost predicate ReplicaStep(s: World, s': World) {
    || DownStep(s, s')
    || (exists now, grace :: SweepStep(s, s', now, grace))
    || (exists now, grace :: ExternalSweep(s, s', now, grace))
    || Prune(s, s')
  }

  /**
   * No mirror-down, sweep or prune removes an unmirrored local push, lifts its
   * guard, or takes away a narinfo or NAR that serves its closure.
   */
  lemma GuardedUntouched(s: World, s': World, id: GenId)
    requires ReplicaStep(s, s') && IndexCovers(s.box)
    requires Parsed(s.box, id) && Guarded(s.box, id)
    ensures id in s'.box.manifests && Guarded(s'.box, id)
    ensures ManifestsKeyed(s.remote) ==> s'.box.manifests[id].body == s.box.manifests[id].body
    ensures forall path :: path in ManifestOf(s.box, id).closure && BoxServes(s.box, StoreHashOf(path)) ==>
      BoxServes(s'.box, StoreHashOf(path))
  {
    if DownStep(s, s') {
      DownSparesGuarded(s.box, s'.box, s.remote, id);
    } else if now, grace :| SweepStep(s, s', now, grace) {
      SweepSparesGuarded(s.box, s'.box, now, grace, id);
    } else if now, grace :| ExternalSweep(s, s', now, grace) {
      var scanned := s.box.(index := ScanOf(s.box.narinfos));
      var swept :| BoxSweepRel(scanned, swept, now, grace) && s'.box == swept.(index := s.box.index);
      SweepSparesGuarded(scanned, swept, now, grace, id);
      forall path | path in ManifestOf(s.box, id).closure && BoxServes(s.box, StoreHashOf(path))
        ensures BoxServes(s'.box, StoreHashOf(path))
      {
        assert BoxServes(scanned, StoreHashOf(path));
      }
    }
  }

  // --- the only copy --------------------------------------------------------

  /** The remote has held this body for this generation by state `n`. */
  ghost predicate WasOnRemote(states: seq<World>, n: int, id: GenId, body: Body)
    requires 0 <= n < |states|
  {
    exists k :: 0 <= k <= n && Holds(states[k].remote, id, body)
  }

  ghost predicate Holds(b: Bucket, id: GenId, body: Body) {
    KeyOf(id) in b && b[KeyOf(id)].body == body
  }

  ghost predicate OnBox(s: World, id: GenId, body: Body) {
    id in s.box.manifests && s.box.manifests[id].body == body
  }

  ghost predicate Pushes(s: World, s': World, id: GenId) {
    exists obj :: PushManifest(s, s', id, obj)
  }

  /** Nobody pushes this generation again from state `i` on. */
  ghost predicate NotPushedFrom(states: seq<World>, i: int, id: GenId) {
    forall n :: i <= n < |states| - 1 && 0 <= n ==> !Pushes(states[n], states[n + 1], id)
  }

  lemma OtherPushKeeps(s: World, s': World, id: GenId, other: GenId, obj: Object)
    requires PushManifest(s, s', other, obj) && other != id
    requires id in s.box.manifests && Guarded(s.box, id)
    ensures id in s'.box.manifests && s'.box.manifests[id] == s.box.manifests[id] && Guarded(s'.box, id)
    ensures s'.box.narinfos == s.box.narinfos && s'.box.nars == s.box.nars
  {
  }

  /**
   * The remote holds this manifest and a narinfo for every path of its closure;
   * each that reads can be fetched with its NAR, if the remote had no narinfo
   * without one before.
   */
  ghost predicate Copied(before: Bucket, b: Bucket, id: GenId, body: Body)
    requires body.manifest.Some?
  {
    && Holds(b, id, body)
    && forall path :: path in body.manifest.value.closure ==>
         var h := StoreHashOf(path);
         InfoKey(h) in b && (NoDangling(before) && Readable(b[InfoKey(h)].body) ==> Servable(b, h))
  }

  /** A mirror-up changes only markers, and when it lifts a guard that whole generation is on the remote. */
  lemma UpSecures(s: World, s': World, id: GenId)
    requires UpStep(s, s') && WellNamed(s)
    requires Parsed(s.box, id) && Guarded(s.box, id)
    ensures s'.box == s.box.(mirrored := s'.box.mirrored)
    ensures Guarded(s'.box, id) || Copied(s.remote, s'.remote, id, s.box.manifests[id].body)
  {
    if !Guarded(s'.box, id) {
      var marker := MarkerOf(id);
      assert marker in s'.box.mirrored && marker !in s.box.mirrored;
      var x :| MarkerOf(x) == marker && Guarded(s.box, x) && OnRemote(s.box.manifests, s'.remote, x);
      assert x in s.box.manifests.Keys && id in s.box.manifests.Keys;
      assert x == id;
      NothingDangles(s.remote, s'.remote, ManifestOf(s.box, id).closure);
    }
  }

  lemma NothingDangles(before: Bucket, b: Bucket, closure: seq<string>)
    requires NoDangling(before) ==> NoDangling(b)
    requires forall path :: path in closure ==> InfoKey(StoreHashOf(path)) in b
    ensures forall path :: path in closure && NoDangling(before) && Readable(b[InfoKey(StoreHashOf(path))].body) ==>
      Servable(b, StoreHashOf(path))
  {
    forall path | path in closure && NoDangling(before) && Readable(b[InfoKey(StoreHashOf(path))].body)
      ensures Servable(b, StoreHashOf(path))
    {
      var h := StoreHashOf(path);
      ClassifyInfo(h, InfoKey(h));
    }
  }

  lemma {:induction false} StoreHolds(states: seq<World>, n: int)
    requires Run(states) && 0 <= n < |states|
    requires StoreOk(states[0].box)
    ensures StoreOk(states[n].box)
    decreases n
  {
    if n > 0 {
      StoreHolds(states, n - 1);
      assert Step(states[n - 1], states[n]);
      StepKeepsStore(states[n - 1], states[n]);
    }
  }

  /** The narinfo of this hash is pushed only once the box has the NAR it names. */
  ghost predicate Paired(s: World, s': World, h: string) {
    forall obj :: PushInfo(s, s', h, obj) ==>
      NarFile(obj.body.info.value.url).Some? && NarFile(obj.body.info.value.url).value in s.box.nars
  }

  ghost predicate PairedBetween(states: seq<World>, i: int, n: int, h: string)
    requires 0 <= i <= n < |states|
  {
    forall k :: i <= k < n ==> Paired(states[k], states[k + 1], h)
  }

  /** The push is on the box, guarded, and each path of it the box could serve at `i` it can serve at `n`. */
  ghost predicate Safe(states: seq<World>, i: int, n: int, id: GenId, body: Body)
    requires 0 <= i <= n < |states| && body.manifest.Some?
  {
    && OnBox(states[n], id, body) && Guarded(states[n].box, id)
    && forall path :: path in body.manifest.value.closure && PairedBetween(states, i, n, StoreHashOf(path)) ==>
         BoxServes(states[i].box, StoreHashOf(path)) ==> BoxServes(states[n].box, StoreHashOf(path))
  }

  ghost predicate CopiedBetween(states: seq<World>, i: int, n: int, id: GenId, body: Body)
    requires 0 <= i <= n < |states| && body.manifest.Some?
  {
    exists k :: i < k <= n && Copied(states[k - 1].remote, states[k].remote, id, body)
  }

  lemma PushServesOn(s: World, s': World, h: string)
    requires (exists x, obj :: PushInfo(s, s', x, obj)) || (exists file, obj :: PushNar(s, s', file, obj))
    requires Paired(s, s', h) && BoxServes(s.box, h)
    ensures BoxServes(s'.box, h)
  {
  }

  lemma PushKeepsRest(s: World, s': World)
    requires (exists x, obj :: PushInfo(s, s', x, obj)) || (exists file, obj :: PushNar(s, s', file, obj))
    ensures s'.box.manifests == s.box.manifests && s'.box.mirrored == s.box.mirrored
      && s'.box.localOrigin == s.box.localOrigin
  {
  }

  /** One step of a run from a guarded push: it is copied whole, or stays as it was. */
  lemma SafeStep(s: World, s': World, id: GenId, body: Body)
    requires Step(s, s') && WellNamed(s) && IndexCovers(s.box)
    requires OnBox(s, id, body) && Guarded(s.box, id) && body.manifest.Some?
    requires !Pushes(s, s', id)
    ensures Copied(s.remote, s'.remote, id, body) || (OnBox(s', id, body) && Guarded(s'.box, id))
    ensures Copied(s.remote, s'.remote, id, body) ||
      forall path :: path in body.manifest.value.closure && Paired(s, s', StoreHashOf(path)) ==>
        BoxServes(s.box, StoreHashOf(path)) ==> BoxServes(s'.box, StoreHashOf(path))
  {
    hide DownStep, SweepStep, ExternalSweep, Prune, UpStep, Copied;
    hide IndexCovers, BoxServes, StoreHashOf, MarkerOf, DistinctMarkers, WellKeyed, ManifestsKeyed;
    if ReplicaStep(s, s') {
      GuardedUntouched(s, s', id);
    } else if UpStep(s, s') {
      UpSecures(s, s', id);
      SameServing(s.box, s'.box);
    } else if other, obj :| PushManifest(s, s', other, obj) {
      assert !Pushes(s, s', id);
      OtherPushKeeps(s, s', id, other, obj);
      SameServing(s.box, s'.box);
    } else if !RemoteChange(s, s') {
      PushKeepsRest(s, s');
      forall path | path in body.manifest.value.closure && Paired(s, s', StoreHashOf(path))
        && BoxServes(s.box, StoreHashOf(path))
        ensures BoxServes(s'.box, StoreHashOf(path))
      {
        PushServesOn(s, s', StoreHashOf(path));
      }
    }
  }

  lemma SameServing(box: Box, box': Box)
    requires box'.narinfos == box.narinfos && box'.nars == box.nars
    ensures ServesOn(box, box')
  {
  }

  lemma SafeNext(states: seq<World>, i: int, n: int, id: GenId, body: Body)
    requires Run(states) && 0 <= i <= n < |states| - 1
    requires StoreOk(states[0].box) && body.manifest.Some?
    requires NotPushedFrom(states, i, id)
    requires CopiedBetween(states, i, n, id, body) || Safe(states, i, n, id, body)
    ensures CopiedBetween(states, i, n + 1, id, body) || Safe(states, i, n + 1, id, body)
  {
    hide Step, WellNamed, Copied, OnBox, IndexCovers, WellKeyed, SafeNames, BoxServes, StoreHashOf, Pushes, Paired;
    if CopiedBetween(states, i, n, id, body) {
      var k :| i < k <= n && Copied(states[k - 1].remote, states[k].remote, id, body);
      assert i < k <= n + 1;
    } else {
      StoreHolds(states, n);
      var s, s' := states[n], states[n + 1];
      SafeStep(s, s', id, body);
      if Copied(s.remote, s'.remote, id, body) {
        assert Copied(states[n + 1 - 1].remote, states[n + 1].remote, id, body);
      } else {
        forall path | path in body.manifest.value.closure && PairedBetween(states, i, n + 1, StoreHashOf(path))
          ensures BoxServes(states[i].box, StoreHashOf(path)) ==> BoxServes(states[n + 1].box, StoreHashOf(path))
        {
          assert PairedBetween(states, i, n, StoreHashOf(path));
          assert Paired(states[n], states[n + 1], StoreHashOf(path));
        }
      }
    }
  }

  /**
   * Over every run: a push made while its generation is unmarked stays on the box,
   * guarded, and every path of its closure the box could serve stays fetchable from
   * it, provided its narinfo is not pushed ahead of its NAR; until some mirror-up
   * has put that very manifest and its whole closure on the remote. The box never
   * loses the only copy.
   */
  lemma {:induction false} OnlyCopyServed(states: seq<World>, i: int, n: int, id: GenId, body: Body)
    requires Run(states) && 0 <= i <= n < |states|
    requires StoreOk(states[0].box)
    requires OnBox(states[i], id, body) && Guarded(states[i].box, id) && body.manifest.Some?
    requires NotPushedFrom(states, i, id)
    ensures CopiedBetween(states, i, n, id, body) || Safe(states, i, n, id, body)
    decreases n
  {
    hide Run, NotPushedFrom, IndexCovers, WellKeyed, SafeNames, CopiedBetween, PairedBetween, BoxServes, StoreHashOf;
    if i < n {
      OnlyCopyServed(states, i, n - 1, id, body);
      SafeNext(states, i, n - 1, id, body);
    }
  }

  /** So the manifest's own bytes are on the box, or the remote has held them. */
  lemma OnlyCopySafe(states: seq<World>, i: int, n: int, id: GenId, body: Body)
    requires Run(states) && 0 <= i <= n < |states|
    requires StoreOk(states[0].box)
    requires OnBox(states[i], id, body) && Guarded(states[i].box, id) && body.manifest.Some?
    requires NotPushedFrom(states, i, id)
    ensures WasOnRemote(states, n, id, body) || (OnBox(states[n], id, body) && Guarded(states[n].box, id))
  {
    hide Run, StoreOk, NotPushedFrom, Guarded, PairedBetween, BoxServes, StoreHashOf, NoDangling, Servable;
    OnlyCopyServed(states, i, n, id, body);
    if CopiedBetween(states, i, n, id, body) {
      var k :| i < k <= n && Copied(states[k - 1].remote, states[k].remote, id, body);
      assert Holds(states[k].remote, id, body);
    }
  }

  // --- exactly which pushes are safe ----------------------------------------

  /** The run goes on, and nobody pushes this generation again. */
  ghost predicate Continues(states: seq<World>, more: seq<World>, id: GenId) {
    states != [] && Run(states + more) && NotPushedFrom(states + more, |states| - 1, id)
  }

  /** At the end of the run the body is on the box, or the remote has held it. */
  ghost predicate NotLost(states: seq<World>, id: GenId, body: Body)
    requires states != []
  {
    OnBox(states[|states| - 1], id, body) || WasOnRemote(states, |states| - 1, id, body)
  }

  lemma DropUnguarded(box: Box, id: GenId)
    requires SafeId(id) && !Guarded(box, id)
    ensures DownRel(box, WithoutManifest(box, id), map[])
  {
    DroppedNothing(box, map[]);
    DropOne(box, box, map[], id);
    DroppedNothing(WithoutManifest(box, id), map[]);
    assert Discovered(box, box, map[]);
  }

  lemma RunOn(states: seq<World>, s: World)
    requires Run(states) && Step(states[|states| - 1], s) && WellNamed(s)
    ensures Run(states + [s])
  {
    var all := states + [s];
    forall n | 0 <= n < |all| - 1
      ensures Step(all[n], all[n + 1])
    {
      if n < |states| - 1 {
        assert Step(states[n], states[n + 1]);
      }
    }
  }

  lemma NotPushedOn(states: seq<World>, s: World, i: int, id: GenId)
    requires states != [] && NotPushedFrom(states, i, id)
    requires !Pushes(states[|states| - 1], s, id)
    ensures NotPushedFrom(states + [s], i, id)
  {
    var all := states + [s];
    forall n | i <= n < |all| - 1 && 0 <= n
      ensures !Pushes(all[n], all[n + 1], id)
    {
      if n < |states| - 1 {
        assert !Pushes(states[n], states[n + 1], id);
      }
    }
  }

  lemma NotHeldOn(states: seq<World>, s: World, id: GenId, body: Body)
    requires states != [] && !WasOnRemote(states, |states| - 1, id, body) && s.remote == map[]
    ensures !WasOnRemote(states + [s], |states|, id, body)
  {
    var all := states + [s];
    forall k | 0 <= k <= |states|
      ensures !Holds(all[k].remote, id, body)
    {
      if k < |states| {
        assert !Holds(states[k].remote, id, body);
      }
    }
  }

  /** The remote loses everything. */
  lemma Emptied(states: seq<World>, id: GenId, body: Body) returns (more: seq<World>)
    requires Run(states) && !WasOnRemote(states, |states| - 1, id, body)
    ensures Run(states + more) && NotPushedFrom(states + more, |states| - 1, id)
    ensures !WasOnRemote(states + more, |states + more| - 1, id, body)
    ensures (states + more)[|states + more| - 1] == World(states[|states| - 1].box, map[])
  {
    var last := states[|states| - 1];
    assert NotPushedFrom(states, |states| - 1, id);
    if last.remote == map[] {
      more := [];
      assert states + more == states;
    } else {
      var s := World(last.box, map[]);
      more := [s];
      assert RemoteChange(last, s);
      assert WellNamed(last);
      RunOn(states, s);
      NotPushedOn(states, s, |states| - 1, id);
      NotHeldOn(states, s, id, body);
    }
  }

  /** An unguarded push the remote never held: an empty remote and one mirror-down lose it. */
  lemma UnguardedCanBeLost(states: seq<World>, id: GenId, body: Body)
    requires Run(states)
    requires OnBox(states[|states| - 1], id, body) && SafeId(id)
    requires !Guarded(states[|states| - 1].box, id) && !WasOnRemote(states, |states| - 1, id, body)
    ensures exists more :: Continues(states, more, id) && !NotLost(states + more, id, body)
  {
    RunNotEmpty(states);
    var first := Emptied(states, id, body);
    hide Run, Guarded, NotPushedFrom, WasOnRemote, MarkerOf, OnBox, NotLost;
    var mid := states + first;
    var dropped := DropLast(mid, |states| - 1, id, body);
    var more := first + [dropped];
    assert states + more == mid + [dropped];
    assert Continues(states, more, id) && !NotLost(states + more, id, body);
  }

  /** Mirror-down from an empty remote drops it. */
  lemma DropLast(states: seq<World>, i: int, id: GenId, body: Body) returns (dropped: World)
    requires Run(states) && states != [] && states[|states| - 1].remote == map[]
    requires SafeId(id) && !Guarded(states[|states| - 1].box, id)
    requires NotPushedFrom(states, i, id) && !WasOnRemote(states, |states| - 1, id, body)
    ensures Run(states + [dropped]) && NotPushedFrom(states + [dropped], i, id)
    ensures !NotLost(states + [dropped], id, body)
  {
    hide Run, Guarded, NotPushedFrom, WasOnRemote, Step, DownRel, WellNamed, Pushes, MarkerOf, OnBox, NotLost;
    var last := states[|states| - 1];
    dropped := World(WithoutManifest(last.box, id), map[]);
    DropUnguarded(last.box, id);
    DownIsStep(last, dropped);
    DownPushesNone(last, dropped, id);
    DroppedWorld(states, id);
    RunOn(states, dropped);
    NotPushedOn(states, dropped, i, id);
    NotHeldOn(states, dropped, id, body);
    GoneAtEnd(states, dropped, id, body);
  }

  lemma GoneAtEnd(states: seq<World>, s: World, id: GenId, body: Body)
    requires id !in s.box.manifests && !WasOnRemote(states + [s], |states|, id, body)
    ensures !NotLost(states + [s], id, body)
  {
    hide WasOnRemote;
  }

  lemma RunNotEmpty(states: seq<World>)
    requires Run(states)
    ensures states != []
  {
  }

  lemma DownIsStep(s: World, s': World)
    requires DownStep(s, s')
    ensures Step(s, s')
  {
  }

  lemma DownPushesNone(s: World, s': World, id: GenId)
    requires id !in s'.box.manifests
    ensures !Pushes(s, s', id)
  {
  }

  lemma DroppedWorld(states: seq<World>, id: GenId)
    requires Run(states)
    ensures states != [] && WellNamed(World(WithoutManifest(states[|states| - 1].box, id), map[]))
  {
    hide Step, MarkerOf;
    assert WellNamed(states[|states| - 1]);
  }

  /**
   * A push just made can never be lost, however the run goes on, exactly when its
   * generation is not marked mirrored already, or the remote has held the very same
   * manifest. Pushing different bytes under a mirrored name is the case the marker
   * does not cover.
   */
  lemma PushSafeIff(states: seq<World>, id: GenId, body: Body)
    requires Run(states) && StoreOk(states[0].box)
    requires OnBox(states[|states| - 1], id, body) && LocalOrigin(states[|states| - 1].box, id) && body.manifest.Some?
    ensures (forall more :: Continues(states, more, id) ==> NotLost(states + more, id, body))
            <==> !Mirrored(states[|states| - 1].box, id) || WasOnRemote(states, |states| - 1, id, body)
  {
    var n := |states| - 1;
    if !Mirrored(states[n].box, id) || WasOnRemote(states, n, id, body) {
      forall more | Continues(states, more, id)
        ensures NotLost(states + more, id, body)
      {
        ContinuationSafe(states, more, id, body);
      }
    } else {
      UnguardedCanBeLost(states, id, body);
    }
  }

  lemma ContinuationSafe(states: seq<World>, more: seq<World>, id: GenId, body: Body)
    requires Continues(states, more, id) && StoreOk(states[0].box) && body.manifest.Some?
    requires WasOnRemote(states, |states| - 1, id, body)
      || (OnBox(states[|states| - 1], id, body) && Guarded(states[|states| - 1].box, id))
    ensures NotLost(states + more, id, body)
  {
    var all := states + more;
    var n := |states| - 1;
    assert all[n] == states[n] && all[0] == states[0];
    if WasOnRemote(states, n, id, body) {
      var k :| 0 <= k <= n && Holds(states[k].remote, id, body);
      assert Holds(all[k].remote, id, body);
    } else {
      OnlyCopySafe(all, n, |all| - 1, id, body);
    }
  }

  // --- why marker names must differ ------------------------------------------

  /** Two generations that share a marker name. */
  lemma MarkersCollide()
    ensures MarkerOf(("a", "b--c")) == MarkerOf(("a--b", "c")) && ("a", "b--c") != ("a--b", "c")
  {
    assert "a" + "--" + "b--c" == "a--b--c" == "a--b" + "--" + "c";
  }

  /** Flakes without a double dash that do not end in a dash rule it out. */
  lemma PlainFlakesDistinct(ids: set<GenId>)
    requires forall id :: id in ids ==> PlainFlake(id.0)
    ensures DistinctMarkers(ids)
  {
    forall a, b | a in ids && b in ids && MarkerOf(a) == MarkerOf(b)
      ensures a == b
    {
      MarkerInjective(a.0, a.1, b.0, b.1);
    }
  }
}
