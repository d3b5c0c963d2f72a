/** The box sweep: what it keeps, and that it never touches what a kept manifest needs. */
module BoxGc {
  import opened Wrappers
  import opened Sets
  import opened Retention
  import opened Keys
  import opened Objects
  import opened BoxStore
  import RemoteGc

  datatype Report =
    Report(retainedManifests: nat, deletedInfos: seq<string>, deletedNars: seq<string>, skippedYoung: nat)

  function FileId(id: GenId): string {
    id.0 + "/" + id.1
  }

  lemma FileIdInjective(a: GenId, b: GenId)
    requires '/' !in a.0 && '/' !in b.0 && FileId(a) == FileId(b)
    ensures a == b
  {
    SplitOnceAt(a.0, '/', a.1);
    SplitOnceAt(b.0, '/', b.1);
  }

  predicate Parsed(box: Box, id: GenId) {
    id in box.manifests && box.manifests[id].body.manifest.Some?
  }

  function ManifestOf(box: Box, id: GenId): Manifest
    requires Parsed(box, id)
  {
    box.manifests[id].body.manifest.value
  }

  /** The manifest files that parse, each once, in directory order. */
  ghost predicate ParsedFiles(box: Box, files: seq<GenId>) {
    && (forall j, k :: 0 <= j < k < |files| ==> files[j] != files[k])
    && (forall id :: id in files <==> Parsed(box, id))
  }

  ghost function BoxGens(box: Box, files: seq<GenId>): seq<Gen>
    requires forall k :: 0 <= k < |files| ==> Parsed(box, files[k])
  {
    seq(|files|, k requires 0 <= k < |files| && Parsed(box, files[k]) =>
      ToGen(FileId(files[k]), ManifestOf(box, files[k])))
  }

  /** Retained by the box's own rule, or guarded. */
  ghost function BoxKeep(box: Box, files: seq<GenId>, now: Time): set<string>
    requires ParsedFiles(box, files)
  {
    Retain(BoxGens(box, files), BOXED, now) + set id | id in box.manifests && Guarded(box, id) :: FileId(id)
  }

  /** The manifest files whose ids are kept. */
  ghost function KeptIds(box: Box, keep: set<string>): set<GenId> {
    set id | id in box.manifests && FileId(id) in keep
  }

  /** The ids tell manifests apart, so counting kept ids counts kept manifests. */
  lemma KeepCounts(box: Box, files: seq<GenId>, now: Time)
    requires ParsedFiles(box, files) && WellKeyed(box)
    ensures |BoxKeep(box, files, now)| == |KeptIds(box, BoxKeep(box, files, now))|
  {
    var keep := BoxKeep(box, files, now);
    forall name | name in keep
      ensures exists id :: id in KeptIds(box, keep) && FileId(id) == name
    {
      NamedByManifest(box, files, now, name);
    }
    SameCount(KeptIds(box, keep), keep);
  }

  lemma NamedByManifest(box: Box, files: seq<GenId>, now: Time, name: string)
    requires ParsedFiles(box, files) && name in BoxKeep(box, files, now)
    ensures exists id :: id in box.manifests && FileId(id) == name
  {
    var gens := BoxGens(box, files);
    if name in Retain(gens, BOXED, now) {
      var i :| 0 <= i < |gens| && Keeps(gens, BOXED, now, i) && gens[i].id == name;
      assert files[i] in files;
      assert FileId(files[i]) == name;
    }
  }

  lemma {:induction false} SameCount(ids: set<GenId>, names: set<string>)
    requires forall id :: id in ids ==> '/' !in id.0 && FileId(id) in names
    requires forall name :: name in names ==> exists id :: id in ids && FileId(id) == name
    ensures |ids| == |names|
    decreases |ids|
  {
    if ids == {} {
      assert names == {};
    } else {
      var id :| id in ids;
      forall name | name in names - {FileId(id)}
        ensures exists x :: x in ids - {id} && FileId(x) == name
      {
        var x :| x in ids && FileId(x) == name;
        assert x in ids - {id};
      }
      forall x | x in ids - {id}
        ensures FileId(x) in names - {FileId(id)}
      {
        if FileId(x) == FileId(id) {
          FileIdInjective(x, id);
        }
      }
      SameCount(ids - {id}, names - {FileId(id)});
    }
  }

  /** Manifest `id` is kept and its closure lists the hash. */
  ghost predicate Contributes(box: Box, keep: set<string>, id: GenId, h: string) {
    Parsed(box, id) && FileId(id) in keep && h in Hashes(ManifestOf(box, id))
  }

  ghost function BoxMark(box: Box, keep: set<string>): set<string> {
    set id, h | id in box.manifests && Parsed(box, id) && h in Hashes(ManifestOf(box, id))
      && Contributes(box, keep, id, h) :: h
  }

  /** NAR files the index names for marked hashes. */
  ghost function BoxLive(box: Box, mark: set<string>): set<string> {
    set h | h in mark && h in box.index && NarFile(box.index[h]).Some? :: NarFile(box.index[h]).value
  }

  predicate DotFile(file: string) {
    file != "" && file[0] == '.'
  }

  ghost function InfosToDelete(box: Box, mark: set<string>, now: Time, grace: Duration): set<string> {
    set h | h in box.narinfos && h !in mark && !RemoteGc.IsYoung(now, box.narinfos[h].time, grace)
  }

  ghost function NarsToDelete(box: Box, live: set<string>, now: Time, grace: Duration): set<string> {
    set f | f in box.nars && !DotFile(f) && f !in live && !RemoteGc.IsYoung(now, box.nars[f].time, grace)
  }

  /** `box'` is `box` after all or part of a sweep's deletions. */
  ghost predicate SweptBox(box: Box, box': Box, files: seq<GenId>, now: Time, grace: Duration, infos: set<string>,
    nars: set<string>)
    requires ParsedFiles(box, files)
  {
    var mark := BoxMark(box, BoxKeep(box, files, now));
    && infos <= InfosToDelete(box, mark, now, grace)
    && nars <= NarsToDelete(box, BoxLive(box, mark), now, grace)
    && box' == box.(narinfos := box.narinfos - infos, index := box.index - infos, nars := box.nars - nars)
  }

  /** What a box sweep, complete or cut off anywhere, may do to the store. */
  ghost predicate BoxSweepRel(box: Box, box': Box, now: Time, grace: Duration) {
    box' == box || exists files, infos, nars ::
      ParsedFiles(box, files) && files != [] && SweptBox(box, box', files, now, grace, infos, nars)
  }

  /** A manifest the sweep must not strand: kept by count, or an unmirrored local push. */
  ghost predicate Kept(box: Box, files: seq<GenId>, now: Time, id: GenId)
    requires ParsedFiles(box, files)
  {
    Parsed(box, id) && FileId(id) in BoxKeep(box, files, now)
  }

  lemma GuardedKept(box: Box, files: seq<GenId>, now: Time, id: GenId)
    requires ParsedFiles(box, files) && Parsed(box, id) && Guarded(box, id)
    ensures Kept(box, files, now, id)
  {
  }

  /**
   * A closure path of a kept manifest that the box could serve before the sweep it
   * can serve after it, by the same narinfo, however much of the sweep was done:
   * the marks go through closures, the live NARs through the index.
   */
  lemma KeptStayServed(box: Box, box': Box, files: seq<GenId>, now: Time, grace: Duration, infos: set<string>,
    nars: set<string>, id: GenId, path: string)
    requires IndexCovers(box) && ParsedFiles(box, files)
    requires SweptBox(box, box', files, now, grace, infos, nars)
    requires Kept(box, files, now, id) && path in ManifestOf(box, id).closure
    requires BoxServes(box, StoreHashOf(path))
    ensures BoxServes(box', StoreHashOf(path))
    ensures box'.narinfos[StoreHashOf(path)] == box.narinfos[StoreHashOf(path)]
    ensures StoreHashOf(path) in box'.index
  {
    var h := StoreHashOf(path);
    var mark := BoxMark(box, BoxKeep(box, files, now));
    assert h in Hashes(ManifestOf(box, id));
    assert Contributes(box, BoxKeep(box, files, now), id, h);
    var url := box.narinfos[h].body.info.value.url;
    assert h in ScanOf(box.narinfos) && box.index[h] == url;
    assert NarFile(url).value in BoxLive(box, mark);
  }

  lemma SweepKeepsCover(box: Box, box': Box, now: Time, grace: Duration)
    requires BoxSweepRel(box, box', now, grace)
    ensures IndexCovers(box) ==> IndexCovers(box')
  {
    hide WellKeyed, InfosToDelete, NarsToDelete, BoxKeep, BoxMark, BoxLive, ParsedFiles;
  }

  lemma SweepKeepsExact(box: Box, box': Box, now: Time, grace: Duration)
    requires BoxSweepRel(box, box', now, grace)
    ensures IndexExact(box) ==> IndexExact(box')
  {
    hide WellKeyed, InfosToDelete, NarsToDelete, BoxKeep, BoxMark, BoxLive, ParsedFiles;
    if IndexExact(box) && box' != box {
      var infos :| box'.index == box.index - infos && box'.narinfos == box.narinfos - infos;
      assert box'.index == ScanOf(box'.narinfos);
    }
  }

  /** A sweep keeps the index as good as it was, and touches no manifest. */
  lemma SweepKeepsIndex(box: Box, box': Box, now: Time, grace: Duration)
    requires BoxSweepRel(box, box', now, grace)
    ensures IndexCovers(box) ==> IndexCovers(box')
    ensures IndexExact(box) ==> IndexExact(box')
    ensures WellKeyed(box) ==> WellKeyed(box')
    ensures SafeNames(box) ==> SafeNames(box')
  {
    SweepKeepsCover(box, box', now, grace);
    SweepKeepsExact(box, box', now, grace);
    hide IndexCovers, IndexExact, InfosToDelete, NarsToDelete, BoxKeep, BoxMark, BoxLive, ParsedFiles;
  }

  /** An unmirrored local push survives any box sweep: manifest, markers, and everything that serves its closure. */
  lemma SweepSparesGuarded(box: Box, box': Box, now: Time, grace: Duration, id: GenId)
    requires BoxSweepRel(box, box', now, grace) && IndexCovers(box)
    requires id in box.manifests && Guarded(box, id)
    ensures id in box'.manifests && box'.manifests[id] == box.manifests[id] && Guarded(box', id)
    ensures Parsed(box, id) ==>
      forall path :: path in ManifestOf(box, id).closure && BoxServes(box, StoreHashOf(path)) ==>
      BoxServes(box', StoreHashOf(path))
  {
    if box' != box && Parsed(box, id) {
      var files, infos, nars :| ParsedFiles(box, files) && files != []
        && SweptBox(box, box', files, now, grace, infos, nars);
      GuardedKept(box, files, now, id);
      forall path | path in ManifestOf(box, id).closure && BoxServes(box, StoreHashOf(path))
        ensures BoxServes(box', StoreHashOf(path))
      {
        KeptStayServed(box, box', files, now, grace, infos, nars, id, path);
      }
    }
  }

  // --- the sweep as it runs -------------------------------------------------

  /** First pass: the header of every manifest that parses. */
  method ReadGens(store: Store) returns (gens: seq<Gen>, all: seq<GenId>, ghost files: seq<GenId>)
    ensures ParsedFiles(store.Snapshot(), files)
    ensures gens == BoxGens(store.Snapshot(), files)
    ensures forall id :: id in all <==> id in store.manifests
    ensures forall j, k :: 0 <= j < k < |all| ==> all[j] != all[k]
  {
    all := store.ManifestFiles();
    gens, files := [], [];
    for i := 0 to |all|
      invariant forall j, k :: 0 <= j < k < |files| ==> files[j] != files[k]
      invariant forall id :: id in files <==> id in all[..i] && Parsed(store.Snapshot(), id)
      invariant |gens| == |files|
      invariant forall k :: 0 <= k < |files| ==>
        Parsed(store.Snapshot(), files[k]) && gens[k] == ToGen(FileId(files[k]), ManifestOf(store.Snapshot(), files[k]))
    {
      var id := all[i];
      assert all[..i + 1] == all[..i] + [id];
      match store.manifests[id].body.manifest {
        case Some(m) =>
          gens := gens + [ToGen(FileId(id), m)];
          files := files + [id];
        case None =>
      }
    }
    assert all[..|all|] == all;
  }

  /** Add every unmirrored local push, whatever the count rule says. */
  method AddGuarded(store: Store, all: seq<GenId>, retained: set<string>) returns (keep: set<string>)
    requires forall id :: id in all <==> id in store.manifests
    ensures keep == retained + set id | id in store.manifests && Guarded(store.Snapshot(), id) :: FileId(id)
  {
    keep := retained;
    for i := 0 to |all|
      invariant keep == retained + set id | id in all[..i] && Guarded(store.Snapshot(), id) :: FileId(id)
    {
      var id := all[i];
      assert all[..i + 1] == all[..i] + [id];
      if LocalOrigin(store.Snapshot(), id) && !Mirrored(store.Snapshot(), id) {
        keep := keep + {FileId(id)};
      }
    }
    assert all[..|all|] == all;
  }

  /** Second pass: the closures of the kept manifests. */
  method MarkKept(store: Store, all: seq<GenId>, keep: set<string>) returns (mark: set<string>)
    requires forall id :: id in all <==> id in store.manifests
    ensures mark == BoxMark(store.Snapshot(), keep)
  {
    mark := {};
    ghost var box := store.Snapshot();
    for i := 0 to |all|
      invariant forall h :: h in mark <==> exists k :: 0 <= k < i && Contributes(box, keep, all[k], h)
    {
      var id := all[i];
      if FileId(id) in keep && store.manifests[id].body.manifest.Some? {
        mark := mark + Hashes(store.manifests[id].body.manifest.value);
      }
    }
    forall h
      ensures h in mark <==> h in BoxMark(box, keep)
    {
      if h in BoxMark(box, keep) {
        var id :| id in box.manifests && Contributes(box, keep, id, h);
        assert id in all;
      }
    }
  }

  lemma OneMore(deleted: seq<string>, x: string)
    ensures Elements(deleted + [x]) == Elements(deleted) + {x}
  {
  }

  /** Unmarked narinfos the grace window spares. */
  ghost function YoungInfos(box: Box, mark: set<string>, now: Time, grace: Duration): set<string> {
    set h | h in box.narinfos && h !in mark && RemoteGc.IsYoung(now, box.narinfos[h].time, grace)
  }

  ghost function YoungNars(box: Box, live: set<string>, now: Time, grace: Duration): set<string> {
    set f | f in box.nars && !DotFile(f) && f !in live && RemoteGc.IsYoung(now, box.nars[f].time, grace)
  }

  /** The narinfo pass with `todo` still to see: the rest is deleted, counted as young, or marked. */
  ghost predicate InfosSwept(before: Box, box: Box, mark: set<string>, now: Time, grace: Duration, todo: set<string>,
    deleted: seq<string>, young: nat) {
    var gone := Elements(deleted);
    && todo <= before.narinfos.Keys
    && gone == InfosToDelete(before, mark, now, grace) - todo
    && young == |YoungInfos(before, mark, now, grace) - todo|
    && box == before.(narinfos := before.narinfos - gone, index := before.index - gone)
  }

  lemma InfoFates(box: Box, mark: set<string>, now: Time, grace: Duration, h: string)
    requires h in box.narinfos
    ensures h in mark ==> h !in InfosToDelete(box, mark, now, grace) && h !in YoungInfos(box, mark, now, grace)
    ensures h !in mark && RemoteGc.IsYoung(now, box.narinfos[h].time, grace) ==>
      h !in InfosToDelete(box, mark, now, grace) && h in YoungInfos(box, mark, now, grace)
  {
  }

  lemma InfoSpared(before: Box, box: Box, mark: set<string>, now: Time, grace: Duration, todo: set<string>,
    deleted: seq<string>, young: nat, h: string)
    requires InfosSwept(before, box, mark, now, grace, todo, deleted, young)
    requires h in todo
    ensures h in box.narinfos && box.narinfos[h] == before.narinfos[h]
    ensures h in mark ==> InfosSwept(before, box, mark, now, grace, todo - {h}, deleted, young)
    ensures h !in mark && RemoteGc.IsYoung(now, box.narinfos[h].time, grace) ==>
      InfosSwept(before, box, mark, now, grace, todo - {h}, deleted, young + 1)
  {
    InfoFates(before, mark, now, grace, h);
    hide Elements, RemoteGc.IsYoung, YoungInfos, InfosToDelete;
    OneLess(YoungInfos(before, mark, now, grace), todo, h);
    OneLess(InfosToDelete(before, mark, now, grace), todo, h);
  }

  lemma InfoDoomed(box: Box, mark: set<string>, now: Time, grace: Duration, h: string)
    requires h in box.narinfos && h !in mark && !RemoteGc.IsYoung(now, box.narinfos[h].time, grace)
    ensures h in InfosToDelete(box, mark, now, grace) && h !in YoungInfos(box, mark, now, grace)
  {
  }

  lemma InfoDeleted(before: Box, box: Box, mark: set<string>, now: Time, grace: Duration, todo: set<string>,
    deleted: seq<string>, young: nat, h: string)
    requires InfosSwept(before, box, mark, now, grace, todo, deleted, young)
    requires h in todo && h !in mark && !RemoteGc.IsYoung(now, before.narinfos[h].time, grace)
    ensures InfosSwept(before, box.(narinfos := box.narinfos - {h}, index := box.index - {h}), mark, now, grace,
      todo - {h}, deleted + [h], young)
  {
    InfoDoomed(before, mark, now, grace, h);
    hide Elements, RemoteGc.IsYoung, YoungInfos, InfosToDelete;
    OneMore(deleted, h);
    MapMinus(before.narinfos, Elements(deleted), {h});
    MapMinus(before.index, Elements(deleted), {h});
    OneLess(YoungInfos(before, mark, now, grace), todo, h);
    OneLess(InfosToDelete(before, mark, now, grace), todo, h);
  }

  /** A file name the store refuses to touch. */
  ghost predicate UnsafeInfo(box: Box) {
    exists h :: h in box.narinfos && !SafeComponent(h)
  }

  ghost predicate UnsafeNar(box: Box) {
    exists f :: f in box.nars && !SafeComponent(f)
  }

  /** Delete the narinfos neither marked nor young, one file at a time. */
  method SweepInfos(store: Store, mark: set<string>, now: Time, grace: Duration)
    returns (r: Outcome, deleted: seq<string>, young: nat)
    modifies store`narinfos, store`index, store`faults
    ensures old(store.faults) <= store.faults
    ensures r.Failed? ==> old(store.faults) < store.faults || UnsafeInfo(old(store.Snapshot()))
    ensures
      var gone := Elements(deleted);
      && gone <= InfosToDelete(old(store.Snapshot()), mark, now, grace)
      && (r.Done? ==> gone == InfosToDelete(old(store.Snapshot()), mark, now, grace))
      && (r.Done? ==> young == |YoungInfos(old(store.Snapshot()), mark, now, grace)|)
      && store.narinfos == old(store.narinfos) - gone && store.index == old(store.index) - gone
  {
    hide Elements, InfosToDelete, YoungInfos, RemoteGc.IsYoung;
    deleted, young := [], 0;
    ghost var before := store.Snapshot();
    var todo := store.narinfos.Keys;
    NoInfosSwept(before, mark, now, grace);
    while todo != {}
      invariant InfosSwept(before, store.Snapshot(), mark, now, grace, todo, deleted, young)
      invariant old(store.faults) <= store.faults
      decreases |todo|
    {
      var h :| h in todo;
      InfoSpared(before, store.Snapshot(), mark, now, grace, todo, deleted, young, h);
      if h !in mark {
        if RemoteGc.IsYoung(now, store.narinfos[h].time, grace) {
          young := young + 1;
        } else {
          InfoDeleted(before, store.Snapshot(), mark, now, grace, todo, deleted, young, h);
          var outcome := store.RemoveNarinfo(h);
          if outcome.Failed? {
            return Failed, deleted, young;
          }
          deleted := deleted + [h];
        }
      }
      todo := todo - {h};
    }
    return Done, deleted, young;
  }

  lemma NoInfosSwept(box: Box, mark: set<string>, now: Time, grace: Duration)
    ensures InfosSwept(box, box, mark, now, grace, box.narinfos.Keys, [], 0)
  {
    var all, kill := YoungInfos(box, mark, now, grace), InfosToDelete(box, mark, now, grace);
    assert all - box.narinfos.Keys == {} && kill - box.narinfos.Keys == {} == Elements([]);
    assert box.narinfos - {} == box.narinfos && box.index - {} == box.index;
  }

  /** NAR files in directory order are unordered; temporary files are not among them. */
  function NarFiles(nars: map<string, Object>): set<string> {
    set f | f in nars && !DotFile(f)
  }

  lemma NoNarsSwept(box: Box, live: set<string>, now: Time, grace: Duration)
    ensures NarsSwept(box, box, live, now, grace, NarFiles(box.nars), [], 0)
  {
    var todo := NarFiles(box.nars);
    var all, kill := YoungNars(box, live, now, grace), NarsToDelete(box, live, now, grace);
    assert all - todo == {} && kill - todo == {} == Elements([]);
    assert box.nars - {} == box.nars;
  }

  /** What the NAR pass does depends on the NAR files alone. */
  lemma NarsAlone(a: Box, b: Box, live: set<string>, now: Time, grace: Duration)
    requires a.nars == b.nars
    ensures NarsToDelete(a, live, now, grace) == NarsToDelete(b, live, now, grace)
    ensures YoungNars(a, live, now, grace) == YoungNars(b, live, now, grace)
    ensures UnsafeNar(a) <==> UnsafeNar(b)
  {
  }

  /** The NAR pass, in the same way. */
  ghost predicate NarsSwept(before: Box, box: Box, live: set<string>, now: Time, grace: Duration, todo: set<string>,
    deleted: seq<string>, young: nat) {
    var gone := Elements(deleted);
    && todo <= before.nars.Keys && (forall f :: f in todo ==> !DotFile(f))
    && gone == NarsToDelete(before, live, now, grace) - todo
    && young == |YoungNars(before, live, now, grace) - todo|
    && box == before.(nars := before.nars - gone)
  }

  lemma NarFates(box: Box, live: set<string>, now: Time, grace: Duration, f: string)
    requires f in box.nars && !DotFile(f)
    ensures f in live ==> f !in NarsToDelete(box, live, now, grace) && f !in YoungNars(box, live, now, grace)
    ensures f !in live && RemoteGc.IsYoung(now, box.nars[f].time, grace) ==>
      f !in NarsToDelete(box, live, now, grace) && f in YoungNars(box, live, now, grace)
  {
  }

  lemma NarSpared(before: Box, box: Box, live: set<string>, now: Time, grace: Duration, todo: set<string>,
    deleted: seq<string>, young: nat, f: string)
    requires NarsSwept(before, box, live, now, grace, todo, deleted, young)
    requires f in todo
    ensures f in box.nars && box.nars[f] == before.nars[f]
    ensures f in live ==> NarsSwept(before, box, live, now, grace, todo - {f}, deleted, young)
    ensures f !in live && RemoteGc.IsYoung(now, box.nars[f].time, grace) ==>
      NarsSwept(before, box, live, now, grace, todo - {f}, deleted, young + 1)
  {
    NarFates(before, live, now, grace, f);
    hide Elements, RemoteGc.IsYoung, YoungNars, NarsToDelete;
    OneLess(YoungNars(before, live, now, grace), todo, f);
    OneLess(NarsToDelete(before, live, now, grace), todo, f);
  }

  lemma NarListed(before: Box, box: Box, live: set<string>, now: Time, grace: Duration, todo: set<string>,
    deleted: seq<string>, young: nat, f: string)
    requires NarsSwept(before, box, live, now, grace, todo, deleted, young) && f in todo
    ensures f in before.nars && !DotFile(f)
  {
    hide NarsToDelete, YoungNars, Elements;
  }

  lemma NarDeleted(before: Box, box: Box, live: set<string>, now: Time, grace: Duration, todo: set<string>,
    deleted: seq<string>, young: nat, f: string)
    requires NarsSwept(before, box, live, now, grace, todo, deleted, young)
    requires f in todo && f !in live && !RemoteGc.IsYoung(now, before.nars[f].time, grace)
    ensures NarsSwept(before, box.(nars := box.nars - {f}), live, now, grace, todo - {f}, deleted + [f], young)
  {
    NarDoomed(before, live, now, grace, todo, f);
    hide Elements, RemoteGc.IsYoung, YoungNars, NarsToDelete, DotFile;
    OneMore(deleted, f);
    MapMinus(before.nars, Elements(deleted), {f});
    OneLess(YoungNars(before, live, now, grace), todo, f);
    OneLess(NarsToDelete(before, live, now, grace), todo, f);
  }

  lemma NarDoomed(box: Box, live: set<string>, now: Time, grace: Duration, todo: set<string>, f: string)
    requires todo <= box.nars.Keys && (forall x :: x in todo ==> !DotFile(x)) && f in todo
    requires f !in live && !RemoteGc.IsYoung(now, box.nars[f].time, grace)
    ensures f in NarsToDelete(box, live, now, grace) && f !in YoungNars(box, live, now, grace)
  {
  }

  method SweepNars(store: Store, live: set<string>, now: Time, grace: Duration)
    returns (r: Outcome, deleted: seq<string>, young: nat)
    modifies store`nars, store`faults
    ensures old(store.faults) <= store.faults
    ensures r.Failed? ==> old(store.faults) < store.faults || UnsafeNar(old(store.Snapshot()))
    ensures
      var gone := Elements(deleted);
      && gone <= NarsToDelete(old(store.Snapshot()), live, now, grace)
      && (r.Done? ==> gone == NarsToDelete(old(store.Snapshot()), live, now, grace))
      && (r.Done? ==> young == |YoungNars(old(store.Snapshot()), live, now, grace)|)
      && store.nars == old(store.nars) - gone
  {
    hide Elements, NarsToDelete, YoungNars, NarFiles, DotFile, NarsSwept, RemoteGc.IsYoung;
    deleted, young := [], 0;
    ghost var before := store.Snapshot();
    var todo := NarFiles(store.nars);
    NoNarsSwept(before, live, now, grace);
    while todo != {}
      invariant NarsSwept(before, store.Snapshot(), live, now, grace, todo, deleted, young)
      invariant old(store.faults) <= store.faults
      decreases |todo|
    {
      var f :| f in todo;
      NarSpared(before, store.Snapshot(), live, now, grace, todo, deleted, young, f);
      NarListed(before, store.Snapshot(), live, now, grace, todo, deleted, young, f);
      if f !in live {
        if RemoteGc.IsYoung(now, store.nars[f].time, grace) {
          young := young + 1;
        } else {
          NarDeleted(before, store.Snapshot(), live, now, grace, todo, deleted, young, f);
          var outcome := store.RemoveNar(f);
          if outcome.Failed? {
            NarsPart(before, store.Snapshot(), live, now, grace, todo, deleted, young);
            return Failed, deleted, young;
          }
          deleted := deleted + [f];
        }
      }
      todo := todo - {f};
    }
    NarsPart(before, store.Snapshot(), live, now, grace, todo, deleted, young);
    return Done, deleted, young;
  }

  /** What the pass has done so far, and that with nothing left to see it has done all. */
  lemma NarsPart(before: Box, box: Box, live: set<string>, now: Time, grace: Duration, todo: set<string>,
    deleted: seq<string>, young: nat)
    requires NarsSwept(before, box, live, now, grace, todo, deleted, young)
    ensures Elements(deleted) <= NarsToDelete(before, live, now, grace)
    ensures box == before.(nars := before.nars - Elements(deleted))
    ensures todo == {} ==>
      Elements(deleted) == NarsToDelete(before, live, now, grace)
      && young == |YoungNars(before, live, now, grace)|
  {
    hide NarsToDelete, YoungNars;
    if todo == {} {
      assert YoungNars(before, live, now, grace) - todo == YoungNars(before, live, now, grace);
    }
  }

  /** Both passes. Whatever fails, only files that were to be deleted are gone. */
  method SweepFiles(store: Store, mark: set<string>, live: set<string>, now: Time, grace: Duration)
    returns (r: Outcome, infos: seq<string>, nars: seq<string>, young: nat)
    modifies store`narinfos, store`index, store`nars, store`faults
    ensures r.Failed? ==>
      old(store.faults) < store.faults || UnsafeInfo(old(store.Snapshot())) || UnsafeNar(old(store.Snapshot()))
    ensures
      var box := old(store.Snapshot());
      && Elements(infos) <= InfosToDelete(box, mark, now, grace)
      && Elements(nars) <= NarsToDelete(box, live, now, grace)
      && store.Snapshot() == box.(narinfos := box.narinfos - Elements(infos), index := box.index - Elements(infos),
                                  nars := box.nars - Elements(nars))
      && (r.Done? ==>
            && Elements(infos) == InfosToDelete(box, mark, now, grace)
              && Elements(nars) == NarsToDelete(box, live, now, grace)
            && young == |YoungInfos(box, mark, now, grace)| + |YoungNars(box, live, now, grace)|)
  {
    hide InfosToDelete, NarsToDelete, YoungInfos, YoungNars, UnsafeInfo, UnsafeNar;
    ghost var box := store.Snapshot();
    nars := [];
    r, infos, young := SweepInfos(store, mark, now, grace);
    if r.Done? {
      NarsAlone(box, store.Snapshot(), live, now, grace);
      var more;
      r, nars, more := SweepNars(store, live, now, grace);
      young := young + more;
    }
  }

  // --- what a box sweep leaves, by markers, times and contents ------------------

  /** Files whose manifests are of the same flake, branch and attribute, and newer, or as new and earlier in order. */
  ghost function NewerFiles(box: Box, files: seq<GenId>, i: int): set<int>
    requires ParsedFiles(box, files) && 0 <= i < |files|
  {
    var m := ManifestOf(box, files[i]);
    set k | 0 <= k < |files| && NewerManifest(ManifestOf(box, files[k]), m, k < i)
  }

  ghost predicate NewerManifest(a: Manifest, m: Manifest, earlier: bool) {
    && a.flake == m.flake && a.branch == m.branch && a.attr == m.attr
    && (a.time > m.time || (a.time == m.time && earlier))
  }

  /** One of the three newest of branch `main`, or the newest of another branch. */
  ghost predicate AmongNewest(box: Box, files: seq<GenId>, i: int)
    requires ParsedFiles(box, files) && 0 <= i < |files|
  {
    |NewerFiles(box, files, i)| < if ManifestOf(box, files[i]).branch == "main" then 3 else 1
  }

  /** Marked as pushed here and not as mirrored. */
  ghost predicate OnlyHere(box: Box, id: GenId) {
    && SafeComponent(id.0) && SafeComponent(id.1)
    && id.0 + "--" + id.1 in box.localOrigin && id.0 + "--" + id.1 !in box.mirrored
  }

  ghost predicate KeptFile(box: Box, files: seq<GenId>, i: int)
    requires ParsedFiles(box, files) && 0 <= i < |files|
  {
    AmongNewest(box, files, i) || OnlyHere(box, files[i])
  }

  /** Some kept manifest lists a path with this hash. */
  ghost predicate Listed(box: Box, files: seq<GenId>, h: string)
    requires ParsedFiles(box, files)
  {
    exists i :: 0 <= i < |files| && KeptFile(box, files, i) && Lists(ManifestOf(box, files[i]), h)
  }

  ghost predicate Lists(m: Manifest, h: string) {
    exists path :: path in m.closure && StoreHashOf(path) == h
  }

  ghost predicate InfoLeft(box: Box, files: seq<GenId>, now: Time, grace: Duration, h: string)
    requires ParsedFiles(box, files) && h in box.narinfos
  {
    (grace > 0 && now - box.narinfos[h].time < grace) || Listed(box, files, h)
  }

  /** Hidden, young, or named in the index for a listed hash. */
  ghost predicate NarLeft(box: Box, files: seq<GenId>, now: Time, grace: Duration, f: string)
    requires ParsedFiles(box, files) && f in box.nars
  {
    || (f != "" && f[0] == '.')
    || (grace > 0 && now - box.nars[f].time < grace)
    || exists h :: Listed(box, files, h) && h in box.index && box.index[h] == "nar/" + f
  }

  lemma NewestSpelled(box: Box, files: seq<GenId>, now: Time, i: int)
    requires ParsedFiles(box, files) && 0 <= i < |files|
    ensures files[i] in files && Parsed(box, files[i])
    ensures Keeps(BoxGens(box, files), BOXED, now, i) <==> AmongNewest(box, files, i)
  {
    var gens := BoxGens(box, files);
    CountsOnly(gens, BOXED, now, i);
    Defaults();
    forall k | 0 <= k < |files|
      ensures k in NewerSiblings(gens, i) <==> k in NewerFiles(box, files, i)
    {
      GenOfManifest(FileId(files[k]), ManifestOf(box, files[k]));
      GenOfManifest(FileId(files[i]), ManifestOf(box, files[i]));
    }
    assert NewerSiblings(gens, i) == NewerFiles(box, files, i);
    GenOfManifest(FileId(files[i]), ManifestOf(box, files[i]));
  }

  lemma GuardSpelled(box: Box, id: GenId)
    ensures Guarded(box, id) <==> OnlyHere(box, id)
  {
    NamesSpelled("", id.0, id.1);
  }

  lemma KeptFileKept(box: Box, files: seq<GenId>, now: Time, i: int)
    requires ParsedFiles(box, files) && 0 <= i < |files|
    ensures KeptFile(box, files, i) ==> FileId(files[i]) in BoxKeep(box, files, now)
    ensures WellKeyed(box) && FileId(files[i]) in BoxKeep(box, files, now) ==> KeptFile(box, files, i)
  {
    var gens, name := BoxGens(box, files), FileId(files[i]);
    NewestSpelled(box, files, now, i);
    GuardSpelled(box, files[i]);
    hide FileId, AmongNewest, OnlyHere, Keeps, Guarded;
    if AmongNewest(box, files, i) {
      assert gens[i].id == name;
    }
    if WellKeyed(box) && name in BoxKeep(box, files, now) {
      SlashFree(box, files[i]);
      if id :| id in box.manifests && Guarded(box, id) && FileId(id) == name {
        SlashFree(box, id);
        FileIdInjective(id, files[i]);
      } else {
        var k :| 0 <= k < |gens| && Keeps(gens, BOXED, now, k) && gens[k].id == name;
        NewestSpelled(box, files, now, k);
        SlashFree(box, files[k]);
        FileIdInjective(files[k], files[i]);
        assert k == i;
      }
    }
  }

  lemma SlashFree(box: Box, id: GenId)
    requires WellKeyed(box) && id in box.manifests
    ensures '/' !in id.0
  {
  }

  lemma ContributorListed(box: Box, files: seq<GenId>, now: Time, id: GenId, h: string)
    requires ParsedFiles(box, files) && WellKeyed(box)
    requires Contributes(box, BoxKeep(box, files, now), id, h)
    ensures Listed(box, files, h)
  {
    hide BoxKeep, KeptFile, WellKeyed, FileId;
    assert Parsed(box, id);
    assert id in files;
    var i :| 0 <= i < |files| && files[i] == id;
    KeptFileKept(box, files, now, i);
    HashListed(ManifestOf(box, id), h);
  }

  lemma HashListed(m: Manifest, h: string)
    ensures h in Hashes(m) <==> Lists(m, h)
  {
  }

  lemma ListedContributes(box: Box, files: seq<GenId>, now: Time, h: string)
    requires ParsedFiles(box, files) && Listed(box, files, h)
    ensures exists id :: id in box.manifests && Contributes(box, BoxKeep(box, files, now), id, h)
  {
    hide BoxKeep, KeptFile, WellKeyed, FileId;
    var i :| 0 <= i < |files| && KeptFile(box, files, i) && Lists(ManifestOf(box, files[i]), h);
    KeptFileKept(box, files, now, i);
    HashListed(ManifestOf(box, files[i]), h);
    assert files[i] in files;
    assert Contributes(box, BoxKeep(box, files, now), files[i], h);
  }

  lemma MarkSpelled(box: Box, files: seq<GenId>, now: Time, h: string)
    requires ParsedFiles(box, files)
    ensures Listed(box, files, h) ==> h in BoxMark(box, BoxKeep(box, files, now))
    ensures WellKeyed(box) && h in BoxMark(box, BoxKeep(box, files, now)) ==> Listed(box, files, h)
  {
    if Listed(box, files, h) {
      ListedContributes(box, files, now, h);
    }
    if WellKeyed(box) && h in BoxMark(box, BoxKeep(box, files, now)) {
      var id :| id in box.manifests && Contributes(box, BoxKeep(box, files, now), id, h);
      ContributorListed(box, files, now, id, h);
    }
  }

  lemma NarNamed(url: string, f: string)
    ensures NarFile(url) == Some(f) <==> url == "nar/" + f
  {
  }

  lemma LeftSpelled(box: Box, files: seq<GenId>, now: Time, grace: Duration)
    requires ParsedFiles(box, files)
    ensures
      var mark := BoxMark(box, BoxKeep(box, files, now));
      && (forall h :: h in box.narinfos && InfoLeft(box, files, now, grace, h) ==>
            h !in InfosToDelete(box, mark, now, grace))
      && (forall f :: f in box.nars && NarLeft(box, files, now, grace, f) ==>
            f !in NarsToDelete(box, BoxLive(box, mark), now, grace))
      && (WellKeyed(box) ==> forall h :: h in box.narinfos && !InfoLeft(box, files, now, grace, h) ==>
            h in InfosToDelete(box, mark, now, grace))
      && (WellKeyed(box) ==> forall f :: f in box.nars && !NarLeft(box, files, now, grace, f) ==>
            f in NarsToDelete(box, BoxLive(box, mark), now, grace))
  {
    var mark := BoxMark(box, BoxKeep(box, files, now));
    RemoteGc.YoungSpelled(now, grace);
    forall h
      ensures Listed(box, files, h) ==> h in mark
      ensures WellKeyed(box) && h in mark ==> Listed(box, files, h)
    {
      MarkSpelled(box, files, now, h);
    }
    hide BoxMark, BoxKeep, Listed, WellKeyed, NarFile, RemoteGc.IsYoung, ParsedFiles;
    forall h, f | h in box.index
      ensures NarFile(box.index[h]) == Some(f) <==> box.index[h] == "nar/" + f
    {
      NarNamed(box.index[h], f);
    }
  }

  /** All that was to be left is left, as it was. */
  ghost predicate LeftAlone(box: Box, box': Box, files: seq<GenId>, now: Time, grace: Duration)
    requires ParsedFiles(box, files)
  {
    && (forall h :: h in box.narinfos && InfoLeft(box, files, now, grace, h) ==>
          h in box'.narinfos && box'.narinfos[h] == box.narinfos[h])
    && (forall f :: f in box.nars && NarLeft(box, files, now, grace, f) ==>
          f in box'.nars && box'.nars[f] == box.nars[f])
  }

  /** Nothing else is. */
  ghost predicate OnlyLeft(box: Box, box': Box, files: seq<GenId>, now: Time, grace: Duration)
    requires ParsedFiles(box, files)
  {
    && (forall h :: h in box'.narinfos ==> h in box.narinfos && InfoLeft(box, files, now, grace, h))
    && (forall f :: f in box'.nars ==> f in box.nars && NarLeft(box, files, now, grace, f))
  }

  lemma Untouched(box: Box, files: seq<GenId>, now: Time, grace: Duration)
    requires ParsedFiles(box, files)
    ensures LeftAlone(box, box, files, now, grace)
  {
  }

  lemma SweptSpelled(box: Box, box': Box, files: seq<GenId>, now: Time, grace: Duration, infos: set<string>,
    nars: set<string>)
    requires ParsedFiles(box, files) && SweptBox(box, box', files, now, grace, infos, nars)
    ensures LeftAlone(box, box', files, now, grace)
    ensures
      var mark := BoxMark(box, BoxKeep(box, files, now));
      WellKeyed(box) ==> infos == InfosToDelete(box, mark, now, grace) ==>
        nars == NarsToDelete(box, BoxLive(box, mark), now, grace) ==> OnlyLeft(box, box', files, now, grace)
  {
    LeftSpelled(box, files, now, grace);
    hide InfosToDelete, NarsToDelete, BoxMark, BoxKeep, BoxLive, InfoLeft, NarLeft, WellKeyed, ParsedFiles;
  }

  /**
   * The whole box sweep. A store with no manifest that parses is left alone. On
   * success exactly the unmarked, old objects are gone; a failure leaves part of
   * them.
   */
  method BoxSweep(store: Store, now: Time, grace: Duration) returns (r: Result<Report>, ghost files: seq<GenId>)
    modifies store`narinfos, store`index, store`nars, store`faults
    ensures r.Err? ==>
      old(store.faults) < store.faults || UnsafeInfo(old(store.Snapshot())) || UnsafeNar(old(store.Snapshot()))
    ensures ParsedFiles(old(store.Snapshot()), files)
    ensures files == [] ==> store.Snapshot() == old(store.Snapshot()) && r == Ok(Report(0, [], [], 0))
    ensures BoxSweepRel(old(store.Snapshot()), store.Snapshot(), now, grace)
    ensures LeftAlone(old(store.Snapshot()), store.Snapshot(), files, now, grace)
    ensures r.Ok? && files != [] && WellKeyed(old(store.Snapshot())) ==>
      OnlyLeft(old(store.Snapshot()), store.Snapshot(), files, now, grace)
    ensures r.Ok? && files != [] ==>
      var box := old(store.Snapshot());
      var keep := BoxKeep(box, files, now);
      var mark := BoxMark(box, keep);
      var infos := InfosToDelete(box, mark, now, grace);
      var nars := NarsToDelete(box, BoxLive(box, mark), now, grace);
      && r.value.retainedManifests == |keep|
      && (WellKeyed(box) ==> r.value.retainedManifests == |KeptIds(box, keep)|)
      && Elements(r.value.deletedInfos) == infos && Elements(r.value.deletedNars) == nars
      && r.value.skippedYoung == |YoungInfos(box, mark, now, grace)| + |YoungNars(box, BoxLive(box, mark), now, grace)|
      && store.Snapshot() == box.(narinfos := box.narinfos - infos, index := box.index - infos, nars := box.nars - nars)
  {
    hide InfosToDelete, NarsToDelete, YoungInfos, YoungNars, Elements, BoxMark, Guarded, NarFile;
    hide UnsafeInfo, UnsafeNar, KeptIds, WellKeyed, LeftAlone, OnlyLeft;
    var gens, all;
    gens, all, files := ReadGens(store);
    if gens == [] {
      Untouched(store.Snapshot(), files, now, grace);
      return Ok(Report(0, [], [], 0)), files;
    }
    var retained := RetainIds(gens, BOXED, now);
    var keep := AddGuarded(store, all, retained);
    var mark := MarkKept(store, all, keep);
    var live := set h | h in mark && h in store.index && NarFile(store.index[h]).Some? :: NarFile(store.index[h]).value;
    ghost var box := store.Snapshot();
    assert keep == BoxKeep(box, files, now) && live == BoxLive(box, mark);
    if WellKeyed(box) {
      KeepCounts(box, files, now);
    }
    var outcome, infos, nars, young := SweepFiles(store, mark, live, now, grace);
    assert SweptBox(box, store.Snapshot(), files, now, grace, Elements(infos), Elements(nars));
    SweptSpelled(box, store.Snapshot(), files, now, grace, Elements(infos), Elements(nars));
    if outcome.Failed? {
      return Err, files;
    }
    return Ok(Report(|keep|, infos, nars, young)), files;
  }
}
