/**
 * The machine of `BoxRace` with nobody else about: it stays within what a box sweep
 * in one step may do.
 */
module BoxRaceAlone {
  import opened Wrappers
  import opened Retention
  import opened Keys
  import opened Objects
  import opened BoxStore
  import opened BoxGc
  import opened RemoteGc
  import opened BoxRace

  // --- left alone, the machine is the sweep of one step ------------------------------------------

  /** The headers of the parseable files among `read`, as they were read. */
  ghost predicate HeadsRead(b: Box, read: set<GenId>, gens: seq<Gen>, order: seq<GenId>) {
    && (forall j, k :: 0 <= j < k < |order| ==> order[j] != order[k])
    && (forall id :: id in order <==> id in read && Parsed(b, id))
    && gens == BoxGens(b, order)
  }

  ghost function GuardedIds(b: Box, ids: set<GenId>): set<string> {
    set id | id in ids && Guarded(b, id) :: FileId(id)
  }

  /** The kept ids, for some order of the files, of which there is at least one. */
  ghost predicate KeepDecided(b: Box, c: Config, keep: set<string>) {
    exists order :: ParsedFiles(b, order) && order != [] && keep == BoxKeep(b, order, c.now)
  }

  ghost predicate KeepSoFar(b: Box, c: Config, todo: set<GenId>, keep: set<string>) {
    exists order :: ParsedFiles(b, order) && order != []
      && keep == Retain(BoxGens(b, order), BOXED, c.now) + GuardedIds(b, b.manifests.Keys - todo)
  }

  ghost predicate MarkSoFar(b: Box, keep: set<string>, todo: set<GenId>, mark: set<string>) {
    forall h :: h in mark <==> exists id :: id in b.manifests && id !in todo && Contributes(b, keep, id, h)
  }

  ghost predicate LiveSoFar(b: Box, mark: set<string>, hashes: set<string>, live: set<string>) {
    forall f :: f in live <==> exists h :: h in mark && h !in hashes && f in IndexedNar(b.index, h)
  }

  /** What is to be deleted once keeping is decided. */
  ghost function InfoKill(b: Box, c: Config, keep: set<string>): set<string> {
    InfosToDelete(b, BoxMark(b, keep), c.now, c.grace)
  }

  ghost function NarKill(b: Box, c: Config, keep: set<string>): set<string> {
    NarsToDelete(b, BoxLive(b, BoxMark(b, keep)), c.now, c.grace)
  }

  ghost predicate MarkDecided(b: Box, keep: set<string>, mark: set<string>, live: set<string>) {
    mark == BoxMark(b, keep) && live == BoxLive(b, mark)
  }

  ghost predicate DeletedBox(b: Box, box: Box, infos: set<string>, entries: set<string>, nars: set<string>) {
    box == b.(narinfos := b.narinfos - infos, index := b.index - entries, nars := b.nars - nars)
  }

  ghost predicate AloneInv(b: Box, c: Config, s: State) {
    match s.phase
    case ListingManifests(named, files) => s.box == b && files == set id | id in b.manifests && id in named
    case ReadingHeads(files, todo, gens) =>
      && s.box == b && files == b.manifests.Keys && todo <= files
      && exists order :: HeadsRead(b, files - todo, gens, order)
    case ReadingGuards(files, todo, keep) =>
      s.box == b && files == b.manifests.Keys && todo <= files && KeepSoFar(b, c, todo, keep)
    case Marking(todo, keep, mark) => s.box == b && KeepDecided(b, c, keep) && MarkSoFar(b, keep, todo, mark)
    case LookingUp(mark, hashes, live) =>
      && s.box == b && hashes <= mark && LiveSoFar(b, mark, hashes, live)
      && exists keep :: KeepDecided(b, c, keep) && mark == BoxMark(b, keep)
    case ListingInfos(mark, live, listed, seen) =>
      && s.box == b && seen == Dates(b.narinfos, listed)
      && exists keep :: KeepDecided(b, c, keep) && MarkDecided(b, keep, mark, live)
    case DeletingInfos(live, kill, unindexed) =>
      exists keep :: KeepDecided(b, c, keep) && live == BoxLive(b, BoxMark(b, keep))
        && kill <= InfoKill(b, c, keep) && unindexed <= InfoKill(b, c, keep) - kill
        && DeletedBox(b, s.box, InfoKill(b, c, keep) - kill, InfoKill(b, c, keep) - kill - unindexed, {})
    case ListingNars(live, listed, seen) =>
      exists keep :: KeepDecided(b, c, keep) && live == BoxLive(b, BoxMark(b, keep))
        && seen == Dates(PlainNars(b), listed)
        && DeletedBox(b, s.box, InfoKill(b, c, keep), InfoKill(b, c, keep), {})
    case DeletingNars(kill) =>
      exists keep :: KeepDecided(b, c, keep) && kill <= NarKill(b, c, keep)
        && DeletedBox(b, s.box, InfoKill(b, c, keep), InfoKill(b, c, keep), NarKill(b, c, keep) - kill)
    case Ended => BoxSweepRel(b, s.box, c.now, c.grace)
  }

  /** Between its deletions the machine is where a sweep of one step, cut off there, would leave the box. */
  lemma AloneRel(b: Box, c: Config, s: State)
    requires AloneInv(b, c, s) && (s.phase.DeletingInfos? ==> s.phase.unindexed == {})
    ensures BoxSweepRel(b, s.box, c.now, c.grace)
  {
    hide InfosToDelete, NarsToDelete, BoxMark, BoxLive, BoxKeep, ParsedFiles;
    match s.phase
    case DeletingInfos(live, kill, unindexed) =>
      var keep :| KeepDecided(b, c, keep) && kill <= InfoKill(b, c, keep)
        && DeletedBox(b, s.box, InfoKill(b, c, keep) - kill, InfoKill(b, c, keep) - kill - unindexed, {});
      assert InfoKill(b, c, keep) - kill - unindexed == InfoKill(b, c, keep) - kill;
      PartSwept(b, c, s.box, keep, InfoKill(b, c, keep) - kill, {});
    case ListingNars(live, listed, seen) =>
      var keep :| KeepDecided(b, c, keep) && DeletedBox(b, s.box, InfoKill(b, c, keep), InfoKill(b, c, keep), {});
      PartSwept(b, c, s.box, keep, InfoKill(b, c, keep), {});
    case DeletingNars(kill) =>
      var keep :| KeepDecided(b, c, keep) && kill <= NarKill(b, c, keep)
        && DeletedBox(b, s.box, InfoKill(b, c, keep), InfoKill(b, c, keep), NarKill(b, c, keep) - kill);
      PartSwept(b, c, s.box, keep, InfoKill(b, c, keep), NarKill(b, c, keep) - kill);
    case _ =>
  }

  lemma PartSwept(b: Box, c: Config, box: Box, keep: set<string>, infos: set<string>, nars: set<string>)
    requires KeepDecided(b, c, keep) && infos <= InfoKill(b, c, keep) && nars <= NarKill(b, c, keep)
    requires DeletedBox(b, box, infos, infos, nars)
    ensures BoxSweepRel(b, box, c.now, c.grace)
  {
    hide InfosToDelete, NarsToDelete, BoxMark, BoxLive;
    var order :| ParsedFiles(b, order) && order != [] && keep == BoxKeep(b, order, c.now);
    assert SweptBox(b, box, order, c.now, c.grace, infos, nars);
  }

  lemma AloneReadHead(b: Box, c: Config, s: State, s': State, id: GenId)
    requires AloneInv(b, c, s) && ReadHead(s, s', id)
    ensures AloneInv(b, c, s')
  {
    hide FileId, ToGen;
    var ReadingHeads(files, todo, gens) := s.phase;
    var order :| HeadsRead(b, files - todo, gens, order);
    assert files - (todo - {id}) == (files - todo) + {id};
    var order' := if Parsed(b, id) then order + [id] else order;
    assert HeadsRead(b, files - (todo - {id}), s'.phase.gens, order');
  }

  lemma AloneFinishHeads(b: Box, c: Config, s: State, s': State)
    requires AloneInv(b, c, s) && FinishHeads(s, s', c)
    ensures AloneInv(b, c, s')
  {
    hide FileId, Retain, Guarded;
    if s.phase.gens != [] {
      var order :| HeadsRead(b, s.phase.files - s.phase.todo, s.phase.gens, order);
      assert ParsedFiles(b, order);
      assert b.manifests.Keys - s.phase.files == {};
      assert GuardedIds(b, {}) == {};
      assert s'.phase.keep == Retain(BoxGens(b, order), BOXED, c.now) + GuardedIds(b, {});
    }
  }

  lemma GuardedMore(b: Box, ids: set<GenId>, id: GenId)
    ensures GuardedIds(b, ids + {id}) == GuardedIds(b, ids) + if Guarded(b, id) then {FileId(id)} else {}
  {
    hide Guarded, FileId;
  }

  lemma AloneReadGuard(b: Box, c: Config, s: State, s': State, id: GenId)
    requires AloneInv(b, c, s) && ReadGuard(s, s', id)
    ensures AloneInv(b, c, s')
  {
    hide FileId, Retain, Guarded, GuardedIds;
    var ReadingGuards(files, todo, keep) := s.phase;
    assert files - (todo - {id}) == (files - todo) + {id};
    GuardedMore(b, files - todo, id);
    var order :| ParsedFiles(b, order) && order != []
      && keep == Retain(BoxGens(b, order), BOXED, c.now) + GuardedIds(b, files - todo);
    assert s'.phase.keep == Retain(BoxGens(b, order), BOXED, c.now) + GuardedIds(b, files - (todo - {id}));
  }

  lemma AloneFinishGuards(b: Box, c: Config, s: State, s': State)
    requires AloneInv(b, c, s) && FinishGuards(s, s')
    ensures AloneInv(b, c, s')
  {
    hide FileId, Retain, Guarded, Contributes;
    var keep := s.phase.keep;
    assert b.manifests.Keys - s.phase.todo == b.manifests.Keys;
    var order :| ParsedFiles(b, order) && order != []
      && keep == Retain(BoxGens(b, order), BOXED, c.now) + GuardedIds(b, b.manifests.Keys);
    assert keep == BoxKeep(b, order, c.now);
  }

  lemma AloneMarkOne(b: Box, c: Config, s: State, s': State, id: GenId)
    requires AloneInv(b, c, s) && MarkOne(s, s', id)
    ensures AloneInv(b, c, s')
  {
    hide FileId, Hashes, KeepDecided;
    var Marking(todo, keep, mark) := s.phase;
    forall h
      ensures h in s'.phase.mark <==> exists x :: x in b.manifests && x !in todo - {id} && Contributes(b, keep, x, h)
    {
      if x :| x in b.manifests && x !in todo - {id} && Contributes(b, keep, x, h) {
        assert x == id || x !in todo;
      }
      if h in s'.phase.mark && h !in mark {
        assert Contributes(b, keep, id, h);
      }
    }
  }

  lemma AloneFinishMarks(b: Box, c: Config, s: State, s': State)
    requires AloneInv(b, c, s) && FinishMarks(s, s')
    ensures AloneInv(b, c, s')
  {
    hide FileId, Hashes, KeepDecided, IndexedNar;
    var Marking(todo, keep, mark) := s.phase;
    forall h
      ensures h in mark <==> h in BoxMark(b, keep)
    {
    }
    assert mark == BoxMark(b, keep);
  }

  lemma AloneLookUp(b: Box, c: Config, s: State, s': State, h: string)
    requires AloneInv(b, c, s) && LookUp(s, s', h)
    ensures AloneInv(b, c, s')
  {
    hide KeepDecided, BoxMark, IndexedNar;
    var LookingUp(mark, hashes, live) := s.phase;
    forall f
      ensures f in s'.phase.live <==> exists x :: x in mark && x !in hashes - {h} && f in IndexedNar(b.index, x)
    {
      if x :| x in mark && x !in hashes - {h} && f in IndexedNar(b.index, x) {
        assert x == h || x !in hashes;
      }
    }
  }

  lemma AloneFinishLookUps(b: Box, c: Config, s: State, s': State)
    requires AloneInv(b, c, s) && FinishLookUps(s, s')
    ensures AloneInv(b, c, s')
  {
    hide KeepDecided, BoxMark, NarFile;
    var mark, live := s.phase.mark, s.phase.live;
    forall f
      ensures f in live <==> f in BoxLive(b, mark)
    {
      if f in BoxLive(b, mark) {
        var h :| h in mark && h in b.index && NarFile(b.index[h]) == Some(f);
        assert f in IndexedNar(b.index, h);
      }
    }
    assert live == BoxLive(b, mark);
    assert Dates(b.narinfos, iset{}) == map[];
  }

  lemma AloneRead(b: Box, c: Config, s: State, s': State)
    requires AloneInv(b, c, s) && ReadStep(s, s', c)
    ensures AloneInv(b, c, s')
  {
    hide AloneInv, ReadHead, FinishHeads, ReadGuard, FinishGuards, MarkOne, FinishMarks, LookUp, FinishLookUps;
    if page :| ListManifests(s, s', page) {
      AloneListing(b, c, s, s');
    } else if FinishManifests(s, s') {
      AloneListing(b, c, s, s');
    } else if id :| ReadHead(s, s', id) {
      AloneReadHead(b, c, s, s', id);
    } else if FinishHeads(s, s', c) {
      AloneFinishHeads(b, c, s, s');
    } else if id :| ReadGuard(s, s', id) {
      AloneReadGuard(b, c, s, s', id);
    } else if FinishGuards(s, s') {
      AloneFinishGuards(b, c, s, s');
    } else if id :| MarkOne(s, s', id) {
      AloneMarkOne(b, c, s, s', id);
    } else if FinishMarks(s, s') {
      AloneFinishMarks(b, c, s, s');
    } else if h :| LookUp(s, s', h) {
      AloneLookUp(b, c, s, s', h);
    } else {
      AloneFinishLookUps(b, c, s, s');
    }
  }

  lemma AloneListing(b: Box, c: Config, s: State, s': State)
    requires AloneInv(b, c, s) && (FinishManifests(s, s') || exists page :: ListManifests(s, s', page))
    ensures AloneInv(b, c, s')
  {
    if FinishManifests(s, s') {
      assert s.phase.files == b.manifests.Keys;
      assert s.phase.files - s.phase.files == {};
      assert HeadsRead(b, {}, [], []);
    }
  }

  lemma AloneListInfos(b: Box, c: Config, s: State, s': State)
    requires AloneInv(b, c, s) && (FinishInfoListing(s, s', c) || exists page :: ListInfos(s, s', page))
    ensures AloneInv(b, c, s')
  {
    hide KeepDecided, BoxMark, BoxLive, IsYoung;
    var mark, live := s.phase.mark, s.phase.live;
    var keep :| KeepDecided(b, c, keep) && MarkDecided(b, keep, mark, live);
    if FinishInfoListing(s, s', c) {
      var kill := InfoKill(b, c, keep);
      assert s'.phase.kill == kill;
      assert kill - kill == {} && kill - kill - {} == {};
      assert b.narinfos - {} == b.narinfos && b.index - {} == b.index && b.nars - {} == b.nars;
      assert DeletedBox(b, s'.box, kill - kill, kill - kill - {}, {});
    } else {
      var page :| ListInfos(s, s', page);
      assert s'.phase.seen == Dates(b.narinfos, s'.phase.listed);
    }
  }

  lemma AloneUnlink(b: Box, c: Config, s: State, s': State, h: string)
    requires AloneInv(b, c, s) && Unlink(s, s', h)
    ensures AloneInv(b, c, s')
  {
    hide KeepDecided, BoxMark, BoxLive, InfoKill;
    var DeletingInfos(live, kill, unindexed) := s.phase;
    var keep :| KeepDecided(b, c, keep) && live == BoxLive(b, BoxMark(b, keep))
      && kill <= InfoKill(b, c, keep) && unindexed <= InfoKill(b, c, keep) - kill
      && DeletedBox(b, s.box, InfoKill(b, c, keep) - kill, InfoKill(b, c, keep) - kill - unindexed, {});
    var all := InfoKill(b, c, keep);
    assert all - (kill - {h}) == (all - kill) + {h};
    assert all - (kill - {h}) - (unindexed + {h}) == all - kill - unindexed;
    assert b.narinfos - (all - kill) - {h} == b.narinfos - ((all - kill) + {h});
    assert DeletedBox(b, s'.box, all - (kill - {h}), all - (kill - {h}) - (unindexed + {h}), {});
  }

  lemma AloneUnindex(b: Box, c: Config, s: State, s': State, h: string)
    requires AloneInv(b, c, s) && Unindex(s, s', h)
    ensures AloneInv(b, c, s')
  {
    hide KeepDecided, BoxMark, BoxLive, InfoKill;
    var DeletingInfos(live, kill, unindexed) := s.phase;
    var keep :| KeepDecided(b, c, keep) && live == BoxLive(b, BoxMark(b, keep))
      && kill <= InfoKill(b, c, keep) && unindexed <= InfoKill(b, c, keep) - kill
      && DeletedBox(b, s.box, InfoKill(b, c, keep) - kill, InfoKill(b, c, keep) - kill - unindexed, {});
    var gone := InfoKill(b, c, keep) - kill;
    assert gone - (unindexed - {h}) == (gone - unindexed) + {h};
    assert b.index - (gone - unindexed) - {h} == b.index - ((gone - unindexed) + {h});
    assert DeletedBox(b, s'.box, gone, gone - (unindexed - {h}), {});
  }

  lemma AloneFinishInfos(b: Box, c: Config, s: State, s': State)
    requires AloneInv(b, c, s) && FinishInfos(s, s')
    ensures AloneInv(b, c, s')
  {
    hide KeepDecided, BoxMark, BoxLive, InfoKill;
    var DeletingInfos(live, kill, unindexed) := s.phase;
    var keep :| KeepDecided(b, c, keep) && live == BoxLive(b, BoxMark(b, keep))
      && DeletedBox(b, s.box, InfoKill(b, c, keep) - kill, InfoKill(b, c, keep) - kill - unindexed, {});
    var all := InfoKill(b, c, keep);
    assert all - {} == all && all - {} - {} == all;
    assert Dates(PlainNars(b), iset{}) == map[];
    assert DeletedBox(b, s'.box, all, all, {});
  }

  lemma AloneNars(b: Box, c: Config, s: State, s': State)
    requires AloneInv(b, c, s) && (FinishNarListing(s, s', c) || exists page :: ListNars(s, s', page))
    ensures AloneInv(b, c, s')
  {
    hide KeepDecided, BoxMark, BoxLive, InfoKill, IsYoung, DotFile;
    var ListingNars(live, listed, seen) := s.phase;
    var keep :| KeepDecided(b, c, keep) && live == BoxLive(b, BoxMark(b, keep))
      && DeletedBox(b, s.box, InfoKill(b, c, keep), InfoKill(b, c, keep), {});
    assert b.nars - {} == b.nars;
    assert s.box.nars == b.nars;
    if FinishNarListing(s, s', c) {
      var kill := NarKill(b, c, keep);
      assert s'.phase.kill == kill;
      assert kill - kill == {};
      assert DeletedBox(b, s'.box, InfoKill(b, c, keep), InfoKill(b, c, keep), kill - kill);
    } else {
      var page :| ListNars(s, s', page);
      assert s'.phase.seen == Dates(PlainNars(b), s'.phase.listed);
    }
  }

  lemma AloneUnlinkNar(b: Box, c: Config, s: State, s': State, f: string)
    requires AloneInv(b, c, s) && UnlinkNar(s, s', f)
    ensures AloneInv(b, c, s')
  {
    hide KeepDecided, InfoKill, NarKill;
    var kill := s.phase.kill;
    var keep :| KeepDecided(b, c, keep) && kill <= NarKill(b, c, keep)
      && DeletedBox(b, s.box, InfoKill(b, c, keep), InfoKill(b, c, keep), NarKill(b, c, keep) - kill);
    var all := NarKill(b, c, keep);
    assert all - (kill - {f}) == (all - kill) + {f};
    assert b.nars - (all - kill) - {f} == b.nars - ((all - kill) + {f});
    assert DeletedBox(b, s'.box, InfoKill(b, c, keep), InfoKill(b, c, keep), all - (kill - {f}));
  }

  lemma AloneDelete(b: Box, c: Config, s: State, s': State)
    requires AloneInv(b, c, s) && DeleteStep(s, s', c)
    ensures AloneInv(b, c, s')
  {
    hide AloneInv, ListInfos, FinishInfoListing, Unlink, Unindex, FinishInfos, ListNars, FinishNarListing, UnlinkNar;
    if FinishInfoListing(s, s', c) || exists page :: ListInfos(s, s', page) {
      AloneListInfos(b, c, s, s');
    } else if h :| Unlink(s, s', h) {
      AloneUnlink(b, c, s, s', h);
    } else if h :| Unindex(s, s', h) {
      AloneUnindex(b, c, s, s', h);
    } else if FinishInfos(s, s') {
      AloneFinishInfos(b, c, s, s');
    } else if f :| UnlinkNar(s, s', f) {
      AloneUnlinkNar(b, c, s, s', f);
    } else {
      AloneNars(b, c, s, s');
    }
  }

  lemma AloneStep(b: Box, c: Config, s: State, s': State)
    requires AloneInv(b, c, s) && SweepStep(s, s', c)
    ensures AloneInv(b, c, s')
  {
    hide AloneInv, ReadStep, DeleteStep;
    if ReadStep(s, s', c) {
      AloneRead(b, c, s, s');
    } else if DeleteStep(s, s', c) {
      AloneDelete(b, c, s, s');
    } else {
      AloneRel(b, c, s);
      AloneStopped(b, c, s');
    }
  }

  lemma AloneStopped(b: Box, c: Config, s: State)
    requires s.phase.Ended? && BoxSweepRel(b, s.box, c.now, c.grace)
    ensures AloneInv(b, c, s)
  {
  }

  lemma AloneStart(c: Config, s: State)
    requires Init(s)
    ensures AloneInv(s.box, c, s)
  {
    assert (set id: GenId | id in s.box.manifests && id in s.phase.named) == {};
  }

  /**
   * With nobody else about, every run of the machine, whatever it reads and deletes in
   * which order and wherever it stops, has done to the box what a box sweep in one
   * step, complete or cut off, may do.
   */
  lemma {:induction false} SweepAlone(states: seq<State>, c: Config, n: int)
    requires states != [] && Init(states[0]) && 0 <= n < |states|
    requires forall k :: 0 <= k < |states| - 1 ==> SweepStep(states[k], states[k + 1], c)
    ensures AloneInv(states[0].box, c, states[n])
    ensures (states[n].phase.DeletingInfos? ==> states[n].phase.unindexed == {}) ==>
      BoxSweepRel(states[0].box, states[n].box, c.now, c.grace)
    decreases n
  {
    hide AloneInv, SweepStep, Init, BoxSweepRel;
    if n == 0 {
      AloneStart(c, states[0]);
    } else {
      SweepAlone(states, c, n - 1);
      AloneStep(states[0].box, c, states[n - 1], states[n]);
    }
    if states[n].phase.DeletingInfos? ==> states[n].phase.unindexed == {} {
      AloneRel(states[0].box, c, states[n]);
    }
  }
}
