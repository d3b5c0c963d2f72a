/** Mirror-up: what the remote lacks of a local push, NAR before narinfo before manifest, then the marker. */
module MirrorUp {
  import opened Wrappers
  import opened Sets
  import opened Retention
  import opened Keys
  import opened Objects
  import opened Remote
  import opened BoxStore

  /** Every readable narinfo on the remote has its NAR. */
  ghost predicate NoDangling(b: Bucket) {
    forall key :: key in b && Classify(key).InfoObject? && Readable(b[key].body) ==> b[key].body.info.value.url in b
  }

  /** Nothing is removed, and no manifest but `id`'s is touched. */
  ghost predicate PutsOnly(b: Bucket, b': Bucket, id: GenId) {
    && (forall key :: key in b ==> key in b')
    && (forall key :: key in b && Classify(key).RootObject? && key != KeyOf(id) ==> b'[key] == b[key])
  }

  /** Every bucket on the way kept the property it started with. */
  ghost predicate SafeTrace(b: Bucket, trace: seq<Bucket>) {
    NoDangling(b) ==> forall k :: 0 <= k < |trace| ==> NoDangling(trace[k])
  }

  lemma SafeJoin(b: Bucket, mid: Bucket, trace: seq<Bucket>, steps: seq<Bucket>)
    requires SafeTrace(b, trace) && SafeTrace(mid, steps) && (NoDangling(b) ==> NoDangling(mid))
    ensures SafeTrace(b, trace + steps)
  {
  }

  lemma SafeOne(b: Bucket, b': Bucket)
    requires NoDangling(b) ==> NoDangling(b')
    ensures SafeTrace(b, [b'])
  {
  }

  lemma NothingUnsafe(b: Bucket)
    ensures SafeTrace(b, [])
  {
  }

  lemma PutNarSafe(b: Bucket, url: string, obj: Object)
    requires NoDangling(b) && NAR <= url
    ensures NoDangling(b[url := obj])
    ensures !Classify(url).RootObject?
  {
    assert url[3] == '/';
    assert '/' in url;
  }

  lemma PutInfoSafe(b: Bucket, h: string, obj: Object)
    requires NoDangling(b) && '/' !in h
    requires Readable(obj.body) && obj.body.info.value.url in b
    ensures NoDangling(b[InfoKey(h) := obj])
  {
  }

  lemma PutManifestSafe(b: Bucket, id: GenId, obj: Object)
    requires NoDangling(b)
    ensures NoDangling(b[KeyOf(id) := obj])
    ensures !Classify(KeyOf(id)).InfoObject?
  {
    assert KeyOf(id)[5] == '/';
    assert '/' in KeyOf(id);
  }

  lemma InfoIsNotRoot(h: string)
    requires '/' !in h
    ensures !Classify(InfoKey(h)).RootObject?
  {
    ClassifyInfo(h, InfoKey(h));
  }

  lemma NarIsNotRoot(url: string)
    requires NAR <= url
    ensures !Classify(url).RootObject?
  {
    assert url[0] == 'n' && ROOTS[0] == 'r';
  }

  /** Narinfo and NAR of this hash are on the box, under names the store can read. */
  predicate Ready(box: Box, h: string) {
    && SafeComponent(h) && h in box.narinfos && Readable(box.narinfos[h].body)
    && var file := NarFile(box.narinfos[h].body.info.value.url);
       file.Some? && SafeComponent(file.value) && file.value in box.nars
  }

  /** A push that is all there: no gaps, and every file it needs. */
  ghost predicate ReadyPush(box: Box, m: Manifest) {
    && Gaps(box.index, m.closure) == [] && SafeId((m.flake, m.gen))
    && forall path :: path in m.closure ==> Ready(box, StoreHashOf(path))
  }

  /** Upload one path the remote lacks: the NAR, then the narinfo. `trace` records the bucket after each request. */
  method PushPath(store: Store, remote: RemoteCache, id: GenId, path: string, now: Time)
    returns (r: Outcome, ghost trace: seq<Bucket>)
    modifies remote
    ensures PutsOnly(old(remote.objects), remote.objects, id)
    ensures SafeTrace(old(remote.objects), trace)
    ensures NoDangling(old(remote.objects)) ==> NoDangling(remote.objects)
    ensures r.Done? ==> InfoKey(StoreHashOf(path)) in remote.objects
    ensures old(remote.faults) <= remote.faults
    ensures r.Failed? ==> old(remote.faults) < remote.faults || !Ready(store.Snapshot(), StoreHashOf(path))
  {
    trace := [];
    hide NoDangling, StoreHashOf, SafeComponent, Classify, InfoKey;
    var h := StoreHashOf(path);
    InfoIsNotRoot(h);
    var there := remote.Exists(InfoKey(h));
    if there.Err? {
      return Failed, trace;
    }
    if there.value {
      return Done, trace;
    }
    if !SafeComponent(h) || h !in store.narinfos || !Readable(store.narinfos[h].body) {
      return Failed, trace;
    }
    var body := store.narinfos[h].body;
    var url := body.info.value.url;
    var file := NarFile(url);
    if file.None? || !SafeComponent(file.value) || file.value !in store.nars {
      return Failed, trace;
    }
    NarIsNotRoot(url);
    ghost var before := remote.objects;
    var put := remote.Put(url, store.nars[file.value].body, now);
    if NoDangling(before) {
      PutNarSafe(before, url, Object(store.nars[file.value].body, now));
    }
    trace := trace + [remote.objects];
    if put.Failed? {
      return Failed, trace;
    }
    ghost var mid := remote.objects;
    put := remote.Put(InfoKey(h), body, now);
    if NoDangling(before) {
      PutInfoSafe(mid, h, Object(body, now));
    }
    trace := trace + [remote.objects];
    return put, trace;
  }

  /** All closure narinfos of `id`'s manifest and the identical manifest body are on the remote. */
  ghost predicate OnRemote(manifests: map<GenId, Object>, b: Bucket, id: GenId) {
    && id in manifests && manifests[id].body.manifest.Some?
    && KeyOf(id) in b && b[KeyOf(id)].body == manifests[id].body
    && forall path :: path in manifests[id].body.manifest.value.closure ==> InfoKey(StoreHashOf(path)) in b
  }

  /**
   * Push one generation. The marker is set only once everything is on the remote;
   * wherever a request fails, every bucket on the way keeps "each narinfo has its NAR".
   * It fails only when a request does, or when the push is not all there.
   */
  method PushGen(store: Store, remote: RemoteCache, m: Manifest, now: Time)
    returns (r: Outcome, ghost trace: seq<Bucket>)
    requires WellKeyed(store.Snapshot())
    requires (m.flake, m.gen) in store.manifests && store.manifests[(m.flake, m.gen)].body.manifest == Some(m)
    modifies remote, store`mirrored
    ensures PutsOnly(old(remote.objects), remote.objects, (m.flake, m.gen))
    ensures SafeTrace(old(remote.objects), trace)
    ensures NoDangling(old(remote.objects)) ==> NoDangling(remote.objects)
    ensures r.Done? ==> OnRemote(store.manifests, remote.objects, (m.flake, m.gen))
    ensures r.Done? ==> SafeId((m.flake, m.gen))
    ensures old(remote.faults) <= remote.faults
    ensures r.Failed? ==> old(remote.faults) < remote.faults || !ReadyPush(old(store.Snapshot()), m)
    ensures store.mirrored == if r.Done? then old(store.mirrored) + {MarkerOf((m.flake, m.gen))}
      else old(store.mirrored)
  {
    hide NoDangling, SafeTrace, WellKeyed, Gaps, KeyOf, MarkerOf, StoreHashOf, InfoKey, SafeId;
    var id := (m.flake, m.gen);
    trace := [];
    NothingUnsafe(remote.objects);
    var gaps := Gaps(store.index, m.closure);
    if gaps != [] {
      return Failed, trace;
    }
    for i := 0 to |m.closure|
      invariant store.mirrored == old(store.mirrored) && old(remote.faults) <= remote.faults
      invariant PutsOnly(old(remote.objects), remote.objects, id)
      invariant SafeTrace(old(remote.objects), trace)
      invariant NoDangling(old(remote.objects)) ==> NoDangling(remote.objects)
      invariant forall k :: 0 <= k < i ==> InfoKey(StoreHashOf(m.closure[k])) in remote.objects
    {
      ghost var mid := remote.objects;
      assert m.closure[i] in m.closure;
      var outcome, steps := PushPath(store, remote, id, m.closure[i], now);
      SafeJoin(old(remote.objects), mid, trace, steps);
      trace := trace + steps;
      if outcome.Failed? {
        return Failed, trace;
      }
    }
    if !SafeId(id) {
      return Failed, trace;
    }
    ghost var before := remote.objects;
    var raw := store.manifests[id].body;
    var put := remote.Put(KeyOf(id), raw, now);
    if NoDangling(before) {
      PutManifestSafe(before, id, Object(raw, now));
    }
    SafeOne(before, remote.objects);
    SafeJoin(old(remote.objects), before, trace, [remote.objects]);
    trace := trace + [remote.objects];
    if put.Failed? {
      return Failed, trace;
    }
    r := store.MarkMirrored(id);
  }

  // --- a whole mirror-up ----------------------------------------------------

  /** No two of these generations share a marker name. */
  predicate DistinctMarkers(ids: set<GenId>) {
    forall a, b :: a in ids && b in ids && MarkerOf(a) == MarkerOf(b) ==> a == b
  }

  /** Every marker that is new names a generation whose push is complete and whose body is on the remote. */
  ghost predicate UpRel(box: Box, box': Box, b: Bucket, b': Bucket) {
    && box' == box.(mirrored := box'.mirrored)
    && box.mirrored <= box'.mirrored
    && (forall key :: key in b ==> key in b')
    && (NoDangling(b) ==> NoDangling(b'))
    && forall marker :: marker in box'.mirrored && marker !in box.mirrored ==>
         exists id :: MarkerOf(id) == marker && Guarded(box, id) && OnRemote(box.manifests, b', id)
  }

  /** Local pushes that parse and are still not mirrored. */
  ghost function Unmirrored(box: Box, ids: set<GenId>): set<GenId> {
    set id | id in ids && id in box.manifests && box.manifests[id].body.manifest.Some? && Guarded(box, id)
  }

  lemma KeysDiffer(a: GenId, b: GenId)
    requires '/' !in a.0 && '/' !in b.0 && a != b
    ensures KeyOf(a) != KeyOf(b)
    ensures Classify(KeyOf(a)).RootObject?
  {
    hide ParseManifestKey, Classify;
    ManifestKeyRoundTrip(a.0, a.1, KeyOf(a));
    ManifestKeyRoundTrip(b.0, b.1, KeyOf(b));
    KeyIsRoot(a);
  }

  lemma KeyIsRoot(id: GenId)
    ensures Classify(KeyOf(id)).RootObject?
  {
    var key := KeyOf(id);
    var rest := id.0 + "/" + id.1 + JSON;
    assert key == ROOTS + rest && key[..6] == ROOTS;
    assert key[|key| - 1] == JSON[4] == 'n' && NARINFO[|NARINFO| - 1] == 'o';
    assert key[|key| - |NARINFO|..][|NARINFO| - 1] == key[|key| - 1];
    assert key[0] == 'r' && NAR[0] == 'n';
  }

  /** A later push leaves an earlier one on the remote. */
  lemma StaysOnRemote(box: Box, b: Bucket, b': Bucket, id: GenId, other: GenId)
    requires WellKeyed(box) && id in box.manifests
    requires OnRemote(box.manifests, b, other) && PutsOnly(b, b', id)
    requires id == other ==> OnRemote(box.manifests, b', id)
    ensures OnRemote(box.manifests, b', other)
  {
    if id != other {
      KeysDiffer(other, id);
    }
  }

  /** The state of the loop: `box` before, `now'` now, `done` gone through, `pending` failures among them. */
  ghost predicate UpInv(box: Box, now': Box, b: Bucket, b': Bucket, done: set<GenId>, pending: nat) {
    && UpRel(box, now', b, b')
    && (DistinctMarkers(box.manifests.Keys) ==> pending == |Unmirrored(now', done)|)
    && (DistinctMarkers(box.manifests.Keys) ==> forall id :: id in box.manifests && id !in done ==>
      (Guarded(now', id) <==> Guarded(box, id)))
  }

  lemma UpStep(box: Box, was: Box, now': Box, b: Bucket, b1: Bucket, b2: Bucket, done: set<GenId>, pending: nat,
    id: GenId, pushed: bool)
    requires WellKeyed(box) && UpInv(box, was, b, b1, done, pending)
    requires id in box.manifests && id !in done
    requires done <= box.manifests.Keys
    requires Guarded(was, id) && box.manifests[id].body.manifest.Some?
    requires PutsOnly(b1, b2, id) && (NoDangling(b1) ==> NoDangling(b2))
    requires now' == was.(mirrored := if pushed then was.mirrored + {MarkerOf(id)} else was.mirrored)
    requires pushed ==> OnRemote(box.manifests, b2, id)
    ensures UpInv(box, now', b, b2, done + {id}, if pushed then pending else pending + 1)
  {
    forall marker | marker in now'.mirrored && marker !in box.mirrored
      ensures exists x :: MarkerOf(x) == marker && Guarded(box, x) && OnRemote(box.manifests, b2, x)
    {
      if marker in was.mirrored {
        var x :| MarkerOf(x) == marker && Guarded(box, x) && OnRemote(box.manifests, b1, x);
        assert MarkerOf(id) !in was.mirrored;
        assert x != id;
        StaysOnRemote(box, b1, b2, id, x);
      } else {
        assert marker == MarkerOf(id);
        assert Guarded(box, id);
      }
    }
    if DistinctMarkers(box.manifests.Keys) {
      UnmirroredStep(was, now', done, id, pushed);
    }
  }

  lemma MarkersApart(ids: set<GenId>, a: GenId, b: GenId)
    requires DistinctMarkers(ids) && a in ids && b in ids && a != b
    ensures MarkerOf(a) != MarkerOf(b)
  {
  }

  lemma MarkedUnguarded(was: Box, now': Box, id: GenId)
    ensures now'.mirrored == was.mirrored + {MarkerOf(id)} ==> !Guarded(now', id)
  {
  }

  lemma UnmirroredStep(was: Box, now': Box, done: set<GenId>, id: GenId, pushed: bool)
    requires DistinctMarkers(was.manifests.Keys) && done <= was.manifests.Keys
    requires id in was.manifests && id !in done && Guarded(was, id) && was.manifests[id].body.manifest.Some?
    requires now' == was.(mirrored := if pushed then was.mirrored + {MarkerOf(id)} else was.mirrored)
    ensures |Unmirrored(now', done + {id})| == |Unmirrored(was, done)| + if pushed then 0 else 1
    ensures forall x :: x in was.manifests && x != id ==> (Guarded(now', x) <==> Guarded(was, x))
  {
    hide MarkerOf, SafeId, DistinctMarkers;
    forall x | x in was.manifests && x != id
      ensures Guarded(now', x) <==> Guarded(was, x)
    {
      MarkersApart(was.manifests.Keys, id, x);
    }
    hide Guarded;
    if pushed {
      MarkedUnguarded(was, now', id);
    } else {
      assert now' == was;
    }
    CountOne(was, now', done, id);
  }

  lemma CountOne(was: Box, now': Box, done: set<GenId>, id: GenId)
    requires now'.manifests == was.manifests && done <= was.manifests.Keys
    requires id in was.manifests && id !in done && was.manifests[id].body.manifest.Some?
    requires forall x :: x in was.manifests && x != id ==> (Guarded(now', x) <==> Guarded(was, x))
    ensures |Unmirrored(now', done + {id})| == |Unmirrored(was, done)| + if Guarded(now', id) then 1 else 0
  {
    hide Guarded;
    if Guarded(now', id) {
      assert Unmirrored(now', done + {id}) == Unmirrored(was, done) + {id};
    } else {
      assert Unmirrored(now', done + {id}) == Unmirrored(was, done);
    }
  }

  lemma UpSkip(box: Box, now': Box, b: Bucket, b': Bucket, done: set<GenId>, pending: nat, id: GenId)
    requires UpInv(box, now', b, b', done, pending)
    requires id in box.manifests
    requires !Guarded(now', id) || box.manifests[id].body.manifest.None?
    ensures UpInv(box, now', b, b', done + {id}, pending)
  {
    assert Unmirrored(now', done + {id}) == Unmirrored(now', done);
  }

  /** Some unmirrored local push is not all there. */
  ghost predicate SomeUnready(box: Box) {
    exists id :: id in box.manifests && Guarded(box, id) && box.manifests[id].body.manifest.Some?
      && !ReadyPush(box, box.manifests[id].body.manifest.value)
  }

  /** Readiness does not depend on the mirrored markers, and markers are only added. */
  lemma UnreadyFrom(box: Box, was: Box, id: GenId)
    requires was == box.(mirrored := was.mirrored) && box.mirrored <= was.mirrored
    requires id in box.manifests && Guarded(was, id) && box.manifests[id].body.manifest.Some?
    ensures !ReadyPush(was, box.manifests[id].body.manifest.value) ==> SomeUnready(box)
  {
    assert Guarded(box, id);
  }

  lemma UpStart(box: Box, b: Bucket)
    ensures UpInv(box, box, b, b, {}, 0)
  {
    assert Unmirrored(box, {}) == {};
  }

  lemma UpEnd(box: Box, now': Box, b: Bucket, b': Bucket, pending: nat)
    requires UpInv(box, now', b, b', box.manifests.Keys, pending)
    ensures UpRel(box, now', b, b')
    ensures DistinctMarkers(box.manifests.Keys) ==> pending == |Unmirrored(now', box.manifests.Keys)|
  {
  }

  lemma ElementsOf(files: seq<GenId>, ids: set<GenId>)
    requires forall id :: id in files <==> id in ids
    ensures Elements(files[..0]) == {} && Elements(files[..|files|]) == ids
    ensures forall i: nat :: i <= |files| ==> Elements(files[..i]) <= ids
  {
  }

  lemma ElementsNext(files: seq<GenId>, i: nat)
    requires i < |files| && forall j, k :: 0 <= j < k < |files| ==> files[j] != files[k]
    ensures files[i] in files && files[i] !in Elements(files[..i])
    ensures Elements(files[..i + 1]) == Elements(files[..i]) + {files[i]}
  {
  }

  /**
   * Try to push every unmirrored local generation. With distinct marker names the
   * result is exactly the number of parseable ones still unmirrored. None is left
   * pending unless a request failed or a push is not all there.
   */
  method Up(store: Store, remote: RemoteCache, now: Time) returns (pending: nat, ghost trace: seq<Bucket>)
    requires WellKeyed(store.Snapshot())
    modifies remote, store`mirrored
    ensures UpRel(old(store.Snapshot()), store.Snapshot(), old(remote.objects), remote.objects)
    ensures SafeTrace(old(remote.objects), trace)
    ensures old(remote.faults) <= remote.faults
    ensures pending > 0 ==> old(remote.faults) < remote.faults || SomeUnready(old(store.Snapshot()))
    ensures DistinctMarkers(store.manifests.Keys) ==> pending == |Unmirrored(store.Snapshot(), store.manifests.Keys)|
  {
    hide ReadyPush, SomeUnready;
    hide UpInv, UpRel, Unmirrored, PutsOnly, NoDangling, SafeTrace, OnRemote, Elements, DistinctMarkers;
    pending, trace := 0, [];
    ghost var box, b := store.Snapshot(), remote.objects;
    var files := store.ManifestFiles();
    UpStart(box, b);
    NothingUnsafe(b);
    ElementsOf(files, box.manifests.Keys);
    for i := 0 to |files|
      invariant store.Snapshot() == box.(mirrored := store.mirrored)
      invariant SafeTrace(b, trace) && (NoDangling(b) ==> NoDangling(remote.objects))
      invariant UpInv(box, store.Snapshot(), b, remote.objects, Elements(files[..i]), pending)
      invariant old(remote.faults) <= remote.faults && box.mirrored <= store.mirrored
      invariant pending > 0 ==> old(remote.faults) < remote.faults || SomeUnready(box)
    {
      var id := files[i];
      ElementsNext(files, i);
      if LocalOrigin(store.Snapshot(), id) && !Mirrored(store.Snapshot(), id)
        && store.manifests[id].body.manifest.Some? {
        ghost var was, b1 := store.Snapshot(), remote.objects;
        var outcome, steps := PushGen(store, remote, store.manifests[id].body.manifest.value, now);
        SafeJoin(b, b1, trace, steps);
        trace := trace + steps;
        UpStep(box, was, store.Snapshot(), b, b1, remote.objects, Elements(files[..i]), pending, id, outcome.Done?);
        UnreadyFrom(box, was, id);
        if outcome.Failed? {
          pending := pending + 1;
        }
      } else {
        UpSkip(box, store.Snapshot(), b, remote.objects, Elements(files[..i]), pending, id);
      }
    }
    UpEnd(box, store.Snapshot(), b, remote.objects, pending);
  }
}
