/** The box's store: files on disk, state markers, and the in-memory index of narinfos. */
module BoxStore {
  import opened Wrappers
  import opened Retention
  import opened Keys
  import opened Objects

  /** Directory and file name of a manifest under `roots/`. */
  type GenId = (string, string)

  /** Everything the store holds at one moment. Narinfos are keyed by store hash, NARs by file name. */
  datatype Box = Box(
    narinfos: map<string, Object>,
    nars: map<string, Object>,
    manifests: map<GenId, Object>,
    localOrigin: set<string>,
    mirrored: set<string>,
    index: map<string, string>)

  predicate Readable(body: Body) {
    body.utf8 && body.info.Some?
  }

  /** The index a scan of these narinfo files builds. */
  function ScanOf(narinfos: map<string, Object>): map<string, string> {
    map h | h in narinfos && Readable(narinfos[h].body) :: narinfos[h].body.info.value.url
  }

  /** The index is what a scan would rebuild. */
  predicate IndexExact(box: Box) {
    box.index == ScanOf(box.narinfos)
  }

  /** Deletions by another process leave the index with entries too many, never too few or wrong ones. */
  predicate IndexCovers(box: Box) {
    && (forall h :: h in ScanOf(box.narinfos) ==> h in box.index && box.index[h] == ScanOf(box.narinfos)[h])
    && (forall h :: h in box.index && h in box.narinfos ==> h in ScanOf(box.narinfos))
  }

  /** Narinfo files have names the store itself would give them. */
  predicate SafeNames(box: Box) {
    forall h :: h in box.narinfos ==> SafeComponent(h)
  }

  /** Manifests are filed under their own names; a directory name has no slash. */
  predicate WellKeyed(box: Box) {
    forall id :: id in box.manifests ==>
      '/' !in id.0 && match box.manifests[id].body.manifest
                      case Some(m) => (m.flake, m.gen) == id
                      case None => true
  }

  predicate SafeId(id: GenId) {
    SafeComponent(id.0) && SafeComponent(id.1)
  }

  function MarkerOf(id: GenId): string {
    MarkerName(id.0, id.1)
  }

  function KeyOf(id: GenId): string {
    ManifestKey(id.0, id.1)
  }

  predicate LocalOrigin(box: Box, id: GenId) {
    SafeId(id) && MarkerOf(id) in box.localOrigin
  }

  predicate Mirrored(box: Box, id: GenId) {
    SafeId(id) && MarkerOf(id) in box.mirrored
  }

  /** An unmirrored local push: the box may hold the only copy. */
  predicate Guarded(box: Box, id: GenId) {
    LocalOrigin(box, id) && !Mirrored(box, id)
  }

  /** Closure paths whose narinfo the index does not list. */
  function Gaps(index: map<string, string>, closure: seq<string>): (gaps: seq<string>)
    ensures forall path :: path in gaps <==> path in closure && StoreHashOf(path) !in index
  {
    if closure == [] then []
    else
      (if StoreHashOf(closure[0]) in index then [] else [closure[0]]) + Gaps(index, closure[1..])
  }

  function OwnGap(index: map<string, string>, path: string): seq<string> {
    if StoreHashOf(path) in index then [] else [path]
  }

  lemma GapsCons(index: map<string, string>, path: string, rest: seq<string>)
    ensures Gaps(index, [path] + rest) == OwnGap(index, path) + Gaps(index, rest)
  {
    assert ([path] + rest)[1..] == rest;
  }

  /**
   * Each path contributes to the gaps once for each time it is listed, in the order
   * of the closure: the gaps of two closures joined are the gaps of both, joined,
   * and one path is its own gap or none.
   */
  lemma {:induction false} GapsJoin(index: map<string, string>, a: seq<string>, b: seq<string>)
    ensures Gaps(index, a + b) == Gaps(index, a) + Gaps(index, b)
    ensures forall path :: Gaps(index, [path]) == if StoreHashOf(path) in index then [] else [path]
  {
    GapsOfOne(index);
    hide Gaps, OwnGap, StoreHashOf;
    if a == [] {
      assert a + b == b;
      assert Gaps(index, a) == [];
    } else {
      var rest := a[1..];
      GapsJoin(index, rest, b);
      GapsCons(index, a[0], rest + b);
      GapsCons(index, a[0], rest);
      assert a + b == [a[0]] + (rest + b);
      assert a == [a[0]] + rest;
    }
  }

  lemma GapsOfOne(index: map<string, string>)
    ensures Gaps(index, []) == []
    ensures forall path :: Gaps(index, [path]) == if StoreHashOf(path) in index then [] else [path]
  {
    hide StoreHashOf;
    forall path
      ensures Gaps(index, [path]) == OwnGap(index, path)
    {
      assert [path][1..] == [];
    }
  }

  /** File name of the NAR a URL names. */
  function NarFile(url: string): Option<string> {
    StripPrefix(url, NAR)
  }

  /** The box can serve this hash: the narinfo reads, and the NAR file it names is there. */
  predicate BoxServes(box: Box, h: string) {
    && h in box.narinfos && Readable(box.narinfos[h].body)
    && var url := box.narinfos[h].body.info.value.url;
    NarFile(url).Some? && NarFile(url).value in box.nars
  }

  lemma ServesSpelled(box: Box, h: string)
    ensures BoxServes(box, h) <==>
      exists info: Info, file :: h in box.narinfos && box.narinfos[h].body.utf8
        && box.narinfos[h].body.info == Some(info) && info.url == "nar/" + file && file in box.nars
  {
    if h in box.narinfos && Readable(box.narinfos[h].body) {
      var url := box.narinfos[h].body.info.value.url;
      if "nar/" <= url {
        assert url == "nar/" + url[4..];
      }
    }
  }

  class Store {
    var narinfos: map<string, Object>
    var nars: map<string, Object>
    var manifests: map<GenId, Object>
    var localOrigin: set<string>
    var mirrored: set<string>
    var index: map<string, string>
    /** How many writes and removals have failed, so that a caller's failure can be traced to one. */
    ghost var faults: nat

    function Snapshot(): Box
      reads this
    {
      Box(narinfos, nars, manifests, localOrigin, mirrored, index)
    }

    constructor Load(disk: Box)
      ensures Snapshot() == disk.(index := map[]) && faults == 0
    {
      narinfos, nars, manifests := disk.narinfos, disk.nars, disk.manifests;
      localOrigin, mirrored, index, faults := disk.localOrigin, disk.mirrored, map[], 0;
    }

    /** Open what is on disk and index it; a narinfo that is not text makes the opening fail. */
    static method Open(disk: Box) returns (r: Result<Store>)
      ensures r.Ok? <==> forall h :: h in disk.narinfos ==> disk.narinfos[h].body.utf8
      ensures r.Ok? ==> fresh(r.value) && r.value.Snapshot() == disk.(index := ScanOf(disk.narinfos))
    {
      var store := new Store.Load(disk);
      var outcome := store.Scan();
      if outcome.Failed? {
        return Err;
      }
      return Ok(store);
    }

    /** Rebuild the index from the narinfo files. */
    method Scan() returns (r: Outcome)
      modifies this`index
      ensures r.Done? <==> forall h :: h in narinfos ==> narinfos[h].body.utf8
      ensures r.Done? ==> IndexExact(Snapshot())
      ensures r.Failed? ==> index == old(index)
    {
      var idx: map<string, string> := map[];
      var todo := narinfos.Keys;
      while todo != {}
        invariant todo <= narinfos.Keys
        invariant forall h :: h in narinfos && h !in todo ==> narinfos[h].body.utf8
        invariant idx == map h | h in narinfos && h !in todo && Readable(narinfos[h].body) ::
          narinfos[h].body.info.value.url
        decreases |todo|
      {
        var h :| h in todo;
        todo := todo - {h};
        if !narinfos[h].body.utf8 {
          return Failed;
        }
        if narinfos[h].body.info.Some? {
          idx := idx[h := narinfos[h].body.info.value.url];
        }
      }
      index := idx;
      return Done;
    }

    /** Store a verified narinfo and index it; the caller has parsed `info` from `body`. */
    method PutNarinfo(info: Info, body: Body, now: Time) returns (r: Outcome)
      requires Readable(body) && body.info.value == info
      modifies this`narinfos, this`index, this`faults
      ensures faults == old(faults) + if r.Failed? && SafeComponent(StoreHashOf(info.storePath)) then 1 else 0
      ensures
        var h := StoreHashOf(info.storePath);
        Snapshot() == if r.Done? then
          old(Snapshot()).(narinfos := old(narinfos)[h := Object(body, now)], index := old(index)[h := info.url])
        else old(Snapshot())
      ensures !SafeComponent(StoreHashOf(info.storePath)) ==> r.Failed?
      ensures old(IndexExact(Snapshot())) ==> IndexExact(Snapshot())
      ensures old(IndexCovers(Snapshot())) ==> IndexCovers(Snapshot())
    {
      var h := StoreHashOf(info.storePath);
      if !SafeComponent(h) {
        return Failed;
      }
      if * {
        faults := faults + 1;
        return Failed;
      }
      narinfos := narinfos[h := Object(body, now)];
      index := index[h := info.url];
      return Done;
    }

    method PutNar(file: string, body: Body, now: Time) returns (r: Outcome)
      modifies this`nars, this`faults
      ensures nars == if r.Done? then old(nars)[file := Object(body, now)] else old(nars)
      ensures faults == old(faults) + if r.Failed? && SafeComponent(file) then 1 else 0
      ensures !SafeComponent(file) ==> r.Failed?
    {
      if !SafeComponent(file) {
        return Failed;
      }
      if * {
        faults := faults + 1;
        return Failed;
      }
      nars := nars[file := Object(body, now)];
      return Done;
    }

    /** Stored under the manifest's own names. */
    method PutManifest(m: Manifest, body: Body, now: Time) returns (r: Outcome)
      requires body.manifest == Some(m)
      modifies this`manifests, this`faults
      ensures faults == old(faults) + if r.Failed? && SafeId((m.flake, m.gen)) then 1 else 0
      ensures manifests == if r.Done? then old(manifests)[(m.flake, m.gen) := Object(body, now)] else old(manifests)
      ensures !SafeId((m.flake, m.gen)) ==> r.Failed?
      ensures old(WellKeyed(Snapshot())) ==> WellKeyed(Snapshot())
    {
      if !SafeId((m.flake, m.gen)) {
        return Failed;
      }
      if * {
        faults := faults + 1;
        return Failed;
      }
      manifests := manifests[(m.flake, m.gen) := Object(body, now)];
      return Done;
    }

    /** The manifest files, each once, in directory order. */
    method ManifestFiles() returns (files: seq<GenId>)
      ensures forall j, k :: 0 <= j < k < |files| ==> files[j] != files[k]
      ensures forall id :: id in files <==> id in manifests
    {
      files := [];
      var todo := manifests.Keys;
      while todo != {}
        invariant todo <= manifests.Keys
        invariant forall j, k :: 0 <= j < k < |files| ==> files[j] != files[k]
        invariant forall id :: id in files <==> id in manifests && id !in todo
        decreases |todo|
      {
        var id :| id in todo;
        todo := todo - {id};
        files := files + [id];
      }
    }

    method MarkLocalOrigin(id: GenId) returns (r: Outcome)
      modifies this`localOrigin
      ensures localOrigin == if r.Done? then old(localOrigin) + {MarkerOf(id)} else old(localOrigin)
      ensures r.Done? <==> SafeId(id)
    {
      if !SafeId(id) {
        return Failed;
      }
      localOrigin := localOrigin + {MarkerOf(id)};
      return Done;
    }

    method MarkMirrored(id: GenId) returns (r: Outcome)
      modifies this`mirrored
      ensures mirrored == if r.Done? then old(mirrored) + {MarkerOf(id)} else old(mirrored)
      ensures r.Done? <==> SafeId(id)
    {
      if !SafeId(id) {
        return Failed;
      }
      mirrored := mirrored + {MarkerOf(id)};
      return Done;
    }

    /** Delete a manifest and its two markers. */
    method RemoveManifest(id: GenId) returns (r: Outcome)
      modifies this`manifests, this`localOrigin, this`mirrored
      ensures r.Done? <==> SafeId(id)
      ensures r.Done? ==>
        manifests == old(manifests) - {id} && localOrigin == old(localOrigin) - {MarkerOf(id)}
        && mirrored == old(mirrored) - {MarkerOf(id)}
      ensures r.Failed? ==> Snapshot() == old(Snapshot())
    {
      if !SafeId(id) {
        return Failed;
      }
      manifests := manifests - {id};
      localOrigin := localOrigin - {MarkerOf(id)};
      mirrored := mirrored - {MarkerOf(id)};
      return Done;
    }

    /** Remove a narinfo, file and index entry. */
    method RemoveNarinfo(h: string) returns (r: Outcome)
      modifies this`narinfos, this`index, this`faults
      ensures faults == old(faults) + if r.Failed? && SafeComponent(h) then 1 else 0
      ensures Snapshot() == if r.Done? then old(Snapshot()).(narinfos := old(narinfos) - {h}, index := old(index) - {h})
        else old(Snapshot())
      ensures old(IndexExact(Snapshot())) ==> IndexExact(Snapshot())
      ensures old(IndexCovers(Snapshot())) ==> IndexCovers(Snapshot())
    {
      if !SafeComponent(h) {
        return Failed;
      }
      if * {
        faults := faults + 1;
        return Failed;
      }
      narinfos := narinfos - {h};
      index := index - {h};
      return Done;
    }

    method RemoveNar(file: string) returns (r: Outcome)
      modifies this`nars, this`faults
      ensures nars == if r.Done? then old(nars) - {file} else old(nars)
      ensures faults == old(faults) + if r.Failed? && SafeComponent(file) then 1 else 0
    {
      if !SafeComponent(file) {
        return Failed;
      }
      if * {
        faults := faults + 1;
        return Failed;
      }
      nars := nars - {file};
      return Done;
    }

    /**
     * Drop index entries whose narinfo is gone from disk. On an index that covers
     * the disk this restores exactness, for the names a store can hold.
     */
    method PruneIndex() returns (pruned: nat)
      modifies this`index
      ensures index == map h | h in old(index) && SafeComponent(h) && h in narinfos :: old(index)[h]
      ensures pruned == |old(index)| - |index|
      ensures old(IndexCovers(Snapshot()) && SafeNames(Snapshot())) ==> IndexExact(Snapshot())
    {
      var before := |index|;
      SubmapSize(index, map h | h in index && SafeComponent(h) && h in narinfos :: index[h]);
      index := map h | h in index && SafeComponent(h) && h in narinfos :: index[h];
      pruned := before - |index|;
    }
  }

  lemma SubmapSize(whole: map<string, string>, part: map<string, string>)
    requires forall h :: h in part ==> h in whole
    ensures |part| <= |whole|
  {
    assert part.Keys <= whole.Keys;
    assert whole.Keys == part.Keys + (whole.Keys - part.Keys);
    assert |whole.Keys| == |part.Keys| + |whole.Keys - part.Keys|;
    assert |part| == |part.Keys| && |whole| == |whole.Keys|;
  }

  /** A file vanishing behind the store's back keeps the index a cover of the disk. */
  lemma ForeignDeleteCovers(box: Box, gone: set<string>)
    requires IndexCovers(box)
    ensures IndexCovers(box.(narinfos := box.narinfos - gone))
  {
  }
}
