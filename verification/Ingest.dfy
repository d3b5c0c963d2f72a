/** The box's write and read endpoints: what a push stores, and that it is served back. */
module Ingest {
  import opened Wrappers
  import opened Retention
  import opened Keys
  import opened Objects
  import opened BoxStore

  /** The file a request path stands for. */
  datatype Target = InfoFile(hash: string) | NarFileNamed(file: string) | ManifestFile(id: GenId) | NoFile

  function TargetOf(path: string): Target {
    match StripSuffix(path, NARINFO)
    case Some(hash) => InfoFile(hash)
    case None =>
      match StripPrefix(path, NAR)
      case Some(file) => NarFileNamed(file)
      case None =>
        match ParseManifestKey(path)
        case Some(id) => ManifestFile(id)
        case None => NoFile
  }

  /** Which paths name a narinfo, which a NAR, which a manifest, letter for letter. */
  lemma TargetSpelled(path: string, flake: string, gen: string)
    requires '/' !in flake
    ensures EndsInNarinfo(path) ==> TargetOf(path) == InfoFile(path[..|path| - 8])
    ensures !EndsInNarinfo(path) && Starts(path, "nar/") ==> TargetOf(path) == NarFileNamed(path[4..])
    ensures !EndsInNarinfo(path) && !Starts(path, "nar/") ==>
      (TargetOf(path) == ManifestFile((flake, gen)) <==> path == "roots/" + flake + "/" + gen + ".json")
    ensures !EndsInNarinfo(path) && !Starts(path, "nar/") && !Starts(path, "roots/") ==> TargetOf(path) == NoFile
  {
    ManifestKeyRoundTrip(flake, gen, path);
    hide ParseManifestKey, Classify;
    ClassSpelled(path);
    NotRoots(path);
  }

  lemma NotRoots(path: string)
    ensures !Starts(path, "roots/") ==> ParseManifestKey(path) == None
  {
  }

  /** What a GET of this path finds. */
  function Served(box: Box, path: string): Option<Object> {
    match TargetOf(path)
    case InfoFile(hash) => if SafeComponent(hash) && hash in box.narinfos then Some(box.narinfos[hash]) else None
    case NarFileNamed(file) => if SafeComponent(file) && file in box.nars then Some(box.nars[file]) else None
    case ManifestFile(id) => if SafeId(id) && id in box.manifests then Some(box.manifests[id]) else None
    case NoFile => None
  }

  /** A GET finds the file its path names, and only under names that are path components. */
  lemma ServedSpelled(box: Box, path: string, obj: Object)
    ensures Served(box, path) == Some(obj) <==>
      if EndsInNarinfo(path) then HoldsFile(box.narinfos, path[..|path| - 8], obj)
      else if Starts(path, "nar/") then HoldsFile(box.nars, path[4..], obj)
      else exists flake, gen :: path == "roots/" + flake + "/" + gen + ".json" && HoldsManifest(box, flake, gen, obj)
  {
    hide TargetOf, SafeComponent, ParseManifestKey;
    TargetSpelled(path, "", "");
    if !EndsInNarinfo(path) && !Starts(path, "nar/") {
      ManifestServed(box, path, obj);
    }
  }

  ghost predicate HoldsFile(files: map<string, Object>, name: string, obj: Object) {
    SafeComponent(name) && name in files && files[name] == obj
  }

  ghost predicate HoldsManifest(box: Box, flake: string, gen: string, obj: Object) {
    && SafeComponent(flake) && SafeComponent(gen)
    && (flake, gen) in box.manifests && box.manifests[(flake, gen)] == obj
  }

  lemma ManifestServed(box: Box, path: string, obj: Object)
    requires !EndsInNarinfo(path) && !Starts(path, "nar/")
    ensures Served(box, path) == Some(obj) <==>
      exists flake, gen :: path == "roots/" + flake + "/" + gen + ".json" && HoldsManifest(box, flake, gen, obj)
  {
    hide TargetOf, SafeComponent, ParseManifestKey;
    if flake, gen :| path == "roots/" + flake + "/" + gen + ".json" && HoldsManifest(box, flake, gen, obj) {
      SafeNoSlash(flake);
      TargetSpelled(path, flake, gen);
    }
    if Served(box, path) == Some(obj) {
      NotInfoNorNar(path);
      var (flake, gen) := TargetOf(path).id;
      SafeNoSlash(flake);
      TargetSpelled(path, flake, gen);
      assert HoldsManifest(box, flake, gen, obj);
    }
  }

  lemma NotInfoNorNar(path: string)
    requires !EndsInNarinfo(path) && !Starts(path, "nar/")
    ensures TargetOf(path).ManifestFile? || TargetOf(path).NoFile?
  {
    hide ParseManifestKey;
  }

  // --- what a push may do ----------------------------------------------------

  ghost predicate InfoStored(box: Box, box': Box, h: string, obj: Object) {
    && SafeComponent(h) && Readable(obj.body) && StoreHashOf(obj.body.info.value.storePath) == h
    && box' == box.(narinfos := box.narinfos[h := obj], index := box.index[h := obj.body.info.value.url])
  }

  ghost predicate NarStored(box: Box, box': Box, file: string, obj: Object) {
    SafeComponent(file) && box' == box.(nars := box.nars[file := obj])
  }

  /** A pushed manifest is stored under the names in its URL, which must be its own, and marked local. */
  ghost predicate ManifestStored(box: Box, box': Box, id: GenId, obj: Object) {
    && SafeId(id) && obj.body.manifest.Some?
    && (obj.body.manifest.value.flake, obj.body.manifest.value.gen) == id
    && box' == box.(manifests := box.manifests[id := obj], localOrigin := box.localOrigin + {MarkerOf(id)})
  }

  ghost predicate Pushed(box: Box, box': Box, path: string, obj: Object, trusts: Body -> bool) {
    match TargetOf(path)
    case InfoFile(hash) => InfoStored(box, box', hash, obj) && trusts(obj.body)
    case NarFileNamed(file) => NarStored(box, box', file, obj)
    case ManifestFile(id) => ManifestStored(box, box', id, obj)
    case NoFile => false
  }

  predicate InfoAcceptable(hash: string, body: Body, trusts: Body -> bool) {
    SafeComponent(hash) && Readable(body) && StoreHashOf(body.info.value.storePath) == hash && trusts(body)
  }

  predicate ManifestAcceptable(id: GenId, body: Body) {
    SafeId(id) && body.manifest.Some? && (body.manifest.value.flake, body.manifest.value.gen) == id
  }

  /** The request passes every check the endpoint makes. */
  predicate Acceptable(path: string, body: Body, trusts: Body -> bool) {
    match TargetOf(path)
    case InfoFile(hash) => InfoAcceptable(hash, body, trusts)
    case NarFileNamed(file) => SafeComponent(file)
    case ManifestFile(id) => ManifestAcceptable(id, body)
    case NoFile => false
  }

  method PutInfoFile(store: Store, hash: string, body: Body, trusts: Body -> bool, now: Time) returns (r: Outcome)
    modifies store`narinfos, store`index, store`faults
    ensures r.Failed? ==> store.Snapshot() == old(store.Snapshot())
    ensures r.Failed? ==> old(store.faults) < store.faults || !InfoAcceptable(hash, body, trusts)
    ensures r.Done? ==>
      InfoStored(old(store.Snapshot()), store.Snapshot(), hash, Object(body, now)) && trusts(body)
  {
    hide SafeComponent, StoreHashOf, IndexExact, IndexCovers;
    if !Readable(body) || StoreHashOf(body.info.value.storePath) != hash || !trusts(body) {
      return Failed;
    }
    r := store.PutNarinfo(body.info.value, body, now);
  }

  method PutManifestFile(store: Store, id: GenId, body: Body, now: Time) returns (r: Outcome)
    modifies store`manifests, store`localOrigin, store`faults
    ensures r.Failed? ==> store.Snapshot() == old(store.Snapshot())
    ensures r.Failed? ==> old(store.faults) < store.faults || !ManifestAcceptable(id, body)
    ensures r.Done? ==> ManifestStored(old(store.Snapshot()), store.Snapshot(), id, Object(body, now))
  {
    hide SafeId, MarkerOf, WellKeyed;
    match body.manifest {
      case None => return Failed;
      case Some(m) =>
        if (m.flake, m.gen) != id {
          return Failed;
        }
        r := store.PutManifest(m, body, now);
        if r.Failed? {
          return Failed;
        }
        r := store.MarkLocalOrigin(id);
    }
  }

  /**
   * One authenticated PUT: a rejected or failed one changes nothing, an accepted one
   * stores exactly its object; it fails only by a check of the endpoint or a failed
   * write.
   */
  method Put(store: Store, path: string, body: Body, trusts: Body -> bool, now: Time) returns (r: Outcome)
    modifies store`narinfos, store`nars, store`manifests, store`index, store`localOrigin, store`faults
    ensures r.Failed? ==> store.Snapshot() == old(store.Snapshot())
    ensures r.Failed? ==> old(store.faults) < store.faults || !Acceptable(path, body, trusts)
    ensures r.Done? ==> Pushed(old(store.Snapshot()), store.Snapshot(), path, Object(body, now), trusts)
  {
    hide InfoStored, ManifestStored, InfoAcceptable, ManifestAcceptable, SafeComponent, ParseManifestKey;
    if HasSuffix(path, NARINFO) {
      r := PutInfoFile(store, path[..|path| - |NARINFO|], body, trusts, now);
      return r;
    }
    if NAR <= path {
      r := store.PutNar(path[|NAR|..], body, now);
      return r;
    }
    match ParseManifestKey(path) {
      case None => return Failed;
      case Some(id) => r := PutManifestFile(store, id, body, now);
    }
  }

  // --- pushing and serving -----------------------------------------------------

  /** A path is determined by the file it stands for. */
  lemma TargetInjective(p: string, q: string)
    requires TargetOf(p) == TargetOf(q) != NoFile
    ensures p == q
  {
    if TargetOf(p).ManifestFile? {
      KeySpelled(p);
      KeySpelled(q);
    }
  }

  lemma KeySpelled(key: string)
    requires ParseManifestKey(key).Some?
    ensures var id := ParseManifestKey(key).value; key == ROOTS + (id.0 + ['/'] + (id.1 + JSON))
  {
  }

  /** What was pushed under a path is served under it, and every other path serves what it did. */
  lemma PushThenGet(box: Box, box': Box, path: string, obj: Object, trusts: Body -> bool, other: string)
    requires Pushed(box, box', path, obj, trusts)
    ensures Served(box', path) == Some(obj)
    ensures other != path ==> Served(box', other) == Served(box, other)
  {
    hide TargetOf, SafeComponent, SafeId, MarkerOf, Readable, StoreHashOf;
    if other != path && TargetOf(other) == TargetOf(path) {
      TargetInjective(other, path);
    }
  }

  lemma InfoKeepsOrder(box: Box, box': Box, h: string, obj: Object)
    requires InfoStored(box, box', h, obj)
    ensures (WellKeyed(box) ==> WellKeyed(box')) && (SafeNames(box) ==> SafeNames(box'))
    ensures (IndexCovers(box) ==> IndexCovers(box')) && (IndexExact(box) ==> IndexExact(box'))
  {
    hide SafeComponent, StoreHashOf;
    assert ScanOf(box'.narinfos) == ScanOf(box.narinfos)[h := obj.body.info.value.url];
  }

  lemma ManifestKeepsOrder(box: Box, box': Box, id: GenId, obj: Object)
    requires ManifestStored(box, box', id, obj)
    ensures (WellKeyed(box) ==> WellKeyed(box')) && (SafeNames(box) ==> SafeNames(box'))
    ensures (IndexCovers(box) ==> IndexCovers(box')) && (IndexExact(box) ==> IndexExact(box'))
  {
    hide MarkerOf;
  }

  lemma NarKeepsOrder(box: Box, box': Box, file: string, obj: Object)
    requires NarStored(box, box', file, obj)
    ensures (WellKeyed(box) ==> WellKeyed(box')) && (SafeNames(box) ==> SafeNames(box'))
    ensures (IndexCovers(box) ==> IndexCovers(box')) && (IndexExact(box) ==> IndexExact(box'))
  {
    hide SafeComponent;
  }

  /** A push keeps the store in order: manifests under their names, safe narinfo names, and the index. */
  lemma PushKeepsOrder(box: Box, box': Box, path: string, obj: Object, trusts: Body -> bool)
    requires Pushed(box, box', path, obj, trusts)
    ensures (WellKeyed(box) ==> WellKeyed(box')) && (SafeNames(box) ==> SafeNames(box'))
    ensures (IndexCovers(box) ==> IndexCovers(box')) && (IndexExact(box) ==> IndexExact(box'))
  {
    hide TargetOf, InfoStored, NarStored, ManifestStored, WellKeyed, SafeNames, IndexCovers, IndexExact;
    match TargetOf(path)
    case InfoFile(hash) => InfoKeepsOrder(box, box', hash, obj);
    case NarFileNamed(file) => NarKeepsOrder(box, box', file, obj);
    case ManifestFile(id) => ManifestKeepsOrder(box, box', id, obj);
  }
}
