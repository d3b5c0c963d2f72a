/**
 * The box sweep against pushes that land while it runs, file by file, with no locks.
 * A state is the store plus what the sweep has learned; a step is one file operation
 * of either side. The sweep may stop at any point.
 */
module BoxRace {
  import opened Wrappers
  import opened Retention
  import opened Keys
  import opened Objects
  import opened BoxStore
  import opened BoxGc
  import opened RemoteGc
  import Mirror

  type Dated = map<string, Time>

  datatype Phase =
    /** Directory entries arrive in pieces; `named` and `listed` are the names already covered. */
    | ListingManifests(named: iset<GenId>, files: set<GenId>)
    | ReadingHeads(files: set<GenId>, todo: set<GenId>, gens: seq<Gen>)
    | ReadingGuards(files: set<GenId>, todo: set<GenId>, keep: set<string>)
    | Marking(todo: set<GenId>, keep: set<string>, mark: set<string>)
    | LookingUp(mark: set<string>, hashes: set<string>, live: set<string>)
    | ListingInfos(mark: set<string>, live: set<string>, listed: iset<string>, seen: Dated)
    /** `unindexed`: the file is gone, its index entry not yet. */
    | DeletingInfos(live: set<string>, kill: set<string>, unindexed: set<string>)
    | ListingNars(live: set<string>, listed: iset<string>, seen: Dated)
    | DeletingNars(kill: set<string>)
    | Ended

  /** `pending`: narinfos written and not yet entered in the index, with their URLs. */
  datatype State = State(box: Box, pending: set<(string, string)>, phase: Phase)

  datatype Config = Config(now: Time, grace: Duration)

  ghost predicate Init(s: State) {
    s.phase == ListingManifests(iset{}, {})
  }

  // --- the sweep's steps -----------------------------------------------------

  ghost predicate ListManifests(s: State, s': State, page: iset<GenId>) {
    && s.phase.ListingManifests? && s.phase.named !! page
    && s' == s.(phase := ListingManifests(s.phase.named + page,
      s.phase.files + set id | id in s.box.manifests && id in page))
  }

  ghost predicate FinishManifests(s: State, s': State) {
    && s.phase.ListingManifests? && (forall id :: id in s.phase.named)
    && s' == s.(phase := ReadingHeads(s.phase.files, s.phase.files, []))
  }

  ghost predicate ReadHead(s: State, s': State, id: GenId) {
    && s.phase.ReadingHeads? && id in s.phase.todo && id in s.box.manifests
    && var more := if Parsed(s.box, id) then [ToGen(FileId(id), ManifestOf(s.box, id))] else [];
    s' == s.(phase := ReadingHeads(s.phase.files, s.phase.todo - {id}, s.phase.gens + more))
  }

  /** Nothing parsed: the sweep leaves the store alone. */
  ghost predicate FinishHeads(s: State, s': State, c: Config) {
    && s.phase.ReadingHeads? && s.phase.todo == {}
    && s' == s.(phase :=
      if s.phase.gens == [] then Ended
      else ReadingGuards(s.phase.files, s.phase.files, Retain(s.phase.gens, BOXED, c.now)))
  }

  ghost predicate ReadGuard(s: State, s': State, id: GenId) {
    && s.phase.ReadingGuards? && id in s.phase.todo
    && var more := if Guarded(s.box, id) then {FileId(id)} else {};
    s' == s.(phase := ReadingGuards(s.phase.files, s.phase.todo - {id}, s.phase.keep + more))
  }

  ghost predicate FinishGuards(s: State, s': State) {
    && s.phase.ReadingGuards? && s.phase.todo == {}
    && s' == s.(phase := Marking(s.phase.files, s.phase.keep, {}))
  }

  ghost predicate MarkOne(s: State, s': State, id: GenId) {
    && s.phase.Marking? && id in s.phase.todo && (FileId(id) in s.phase.keep ==> id in s.box.manifests)
    && var more := if FileId(id) in s.phase.keep && Parsed(s.box, id) then Hashes(ManifestOf(s.box, id)) else {};
    s' == s.(phase := Marking(s.phase.todo - {id}, s.phase.keep, s.phase.mark + more))
  }

  ghost predicate FinishMarks(s: State, s': State) {
    && s.phase.Marking? && s.phase.todo == {}
    && s' == s.(phase := LookingUp(s.phase.mark, s.phase.mark, {}))
  }

  ghost function IndexedNar(index: map<string, string>, h: string): set<string> {
    if h in index && NarFile(index[h]).Some? then {NarFile(index[h]).value} else {}
  }

  ghost predicate LookUp(s: State, s': State, h: string) {
    && s.phase.LookingUp? && h in s.phase.hashes
    && s' == s.(phase := LookingUp(s.phase.mark, s.phase.hashes - {h}, s.phase.live + IndexedNar(s.box.index, h)))
  }

  ghost predicate FinishLookUps(s: State, s': State) {
    && s.phase.LookingUp? && s.phase.hashes == {}
    && s' == s.(phase := ListingInfos(s.phase.mark, s.phase.live, iset{}, map[]))
  }

  ghost function Dates(files: map<string, Object>, page: iset<string>): Dated {
    map x | x in files && x in page :: files[x].time
  }

  ghost predicate ListInfos(s: State, s': State, page: iset<string>) {
    && s.phase.ListingInfos? && s.phase.listed !! page
    && s' == s.(phase := ListingInfos(s.phase.mark, s.phase.live, s.phase.listed + page,
      s.phase.seen + Dates(s.box.narinfos, page)))
  }

  /** Seen, not to be kept, and past the grace window. */
  ghost function Doomed(seen: Dated, spared: set<string>, c: Config): set<string> {
    set x | x in seen && x !in spared && !IsYoung(c.now, seen[x], c.grace)
  }

  ghost predicate FinishInfoListing(s: State, s': State, c: Config) {
    && s.phase.ListingInfos? && (forall h :: h in s.phase.listed)
    && s' == s.(phase := DeletingInfos(s.phase.live, Doomed(s.phase.seen, s.phase.mark, c), {}))
  }

  ghost predicate Unlink(s: State, s': State, h: string) {
    && s.phase.DeletingInfos? && h in s.phase.kill
    && s' == s.(box := s.box.(narinfos := s.box.narinfos - {h}),
      phase := DeletingInfos(s.phase.live, s.phase.kill - {h}, s.phase.unindexed + {h}))
  }

  ghost predicate Unindex(s: State, s': State, h: string) {
    && s.phase.DeletingInfos? && h in s.phase.unindexed
    && s' == s.(box := s.box.(index := s.box.index - {h}),
      phase := DeletingInfos(s.phase.live, s.phase.kill, s.phase.unindexed - {h}))
  }

  ghost predicate FinishInfos(s: State, s': State) {
    && s.phase.DeletingInfos? && s.phase.kill == {} && s.phase.unindexed == {}
    && s' == s.(phase := ListingNars(s.phase.live, iset{}, map[]))
  }

  /** The NAR files a directory listing shows the sweep: none that is hidden. */
  ghost function PlainNars(b: Box): map<string, Object> {
    map f | f in b.nars && !DotFile(f) :: b.nars[f]
  }

  ghost predicate ListNars(s: State, s': State, page: iset<string>) {
    && s.phase.ListingNars? && s.phase.listed !! page
    && s' == s.(phase := ListingNars(s.phase.live, s.phase.listed + page,
      s.phase.seen + Dates(PlainNars(s.box), page)))
  }

  ghost predicate FinishNarListing(s: State, s': State, c: Config) {
    && s.phase.ListingNars? && (forall f :: f in s.phase.listed)
    && s' == s.(phase := DeletingNars(Doomed(s.phase.seen, s.phase.live, c)))
  }

  ghost predicate UnlinkNar(s: State, s': State, f: string) {
    && s.phase.DeletingNars? && f in s.phase.kill
    && s' == s.(box := s.box.(nars := s.box.nars - {f}), phase := DeletingNars(s.phase.kill - {f}))
  }

  /** A file operation fails, or the deletions are done. Dropping an index entry does not fail. */
  ghost predicate Stop(s: State, s': State) {
    (s.phase.DeletingInfos? ==> s.phase.unindexed == {}) && s' == s.(phase := Ended)
  }

  ghost predicate ReadStep(s: State, s': State, c: Config) {
    || (exists page :: ListManifests(s, s', page))
    || FinishManifests(s, s')
    || (exists id :: ReadHead(s, s', id))
    || FinishHeads(s, s', c)
    || (exists id :: ReadGuard(s, s', id))
    || FinishGuards(s, s')
    || (exists id :: MarkOne(s, s', id))
    || FinishMarks(s, s')
    || (exists h :: LookUp(s, s', h))
    || FinishLookUps(s, s')
  }

  ghost predicate DeleteStep(s: State, s': State, c: Config) {
    || (exists page :: ListInfos(s, s', page))
    || FinishInfoListing(s, s', c)
    || (exists h :: Unlink(s, s', h))
    || (exists h :: Unindex(s, s', h))
    || FinishInfos(s, s')
    || (exists page :: ListNars(s, s', page))
    || FinishNarListing(s, s', c)
    || (exists f :: UnlinkNar(s, s', f))
  }

  ghost predicate SweepStep(s: State, s': State, c: Config) {
    ReadStep(s, s', c) || DeleteStep(s, s', c) || Stop(s, s')
  }

  // --- what others do meanwhile ----------------------------------------------

  ghost predicate WriteNar(s: State, s': State, f: string, obj: Object) {
    SafeComponent(f) && s' == s.(box := s.box.(nars := s.box.nars[f := obj]))
  }

  ghost predicate WriteInfo(s: State, s': State, h: string, obj: Object) {
    && SafeComponent(h) && Readable(obj.body)
    && s' == s.(box := s.box.(narinfos := s.box.narinfos[h := obj]),
      pending := s.pending + {(h, obj.body.info.value.url)})
  }

  ghost predicate EnterIndex(s: State, s': State, h: string, url: string) {
    && (h, url) in s.pending
    && s' == s.(box := s.box.(index := s.box.index[h := url]), pending := s.pending - {(h, url)})
  }

  ghost predicate WriteManifest(s: State, s': State, id: GenId, obj: Object) {
    SafeId(id) && s' == s.(box := s.box.(manifests := s.box.manifests[id := obj]))
  }

  ghost predicate MarkOrigin(s: State, s': State, id: GenId) {
    SafeId(id) && s' == s.(box := s.box.(localOrigin := s.box.localOrigin + {MarkerOf(id)}))
  }

  /** A sweep in another process runs beside the server's mirror passes too. */
  ghost predicate MarkMirrored(s: State, s': State, id: GenId) {
    SafeId(id) && s' == s.(box := s.box.(mirrored := s.box.mirrored + {MarkerOf(id)}))
  }

  ghost predicate Withdraw(s: State, s': State, id: GenId) {
    SafeId(id) && !Guarded(s.box, id) && s' == s.(box := Mirror.WithoutManifest(s.box, id))
  }

  ghost predicate FileStep(s: State, s': State) {
    || (exists f, obj :: WriteNar(s, s', f, obj))
    || (exists h, obj :: WriteInfo(s, s', h, obj))
    || (exists h, url :: EnterIndex(s, s', h, url))
  }

  ghost predicate ManifestStep(s: State, s': State) {
    || (exists id, obj :: WriteManifest(s, s', id, obj))
    || (exists id :: MarkOrigin(s, s', id))
    || (exists id :: MarkMirrored(s, s', id))
    || (exists id :: Withdraw(s, s', id))
  }

  ghost predicate Step(s: State, s': State, c: Config) {
    SweepStep(s, s', c) || FileStep(s, s') || ManifestStep(s, s')
  }

  /** A stretch of a run, from anywhere. */
  ghost predicate Steps(states: seq<State>, c: Config) {
    states != [] && forall n :: 0 <= n < |states| - 1 ==> Step(states[n], states[n + 1], c)
  }

  ghost predicate Run(states: seq<State>, c: Config) {
    Steps(states, c) && Init(states[0])
  }

  // --- a file that is spared when it is looked at -----------------------------

  /** In this step the sweep learns whether this narinfo file is there, and how old it is. */
  ghost predicate LooksAtInfo(s: State, s': State, h: string) {
    && s.phase.ListingInfos? && s'.phase.ListingInfos?
    && h !in s.phase.listed && h in s'.phase.listed
  }

  ghost predicate LooksAtNar(s: State, s': State, f: string) {
    && s.phase.ListingNars? && s'.phase.ListingNars?
    && f !in s.phase.listed && f in s'.phase.listed
  }

  /** If the narinfo is there when the sweep looks at it, it is marked or young. */
  ghost predicate InfoSpared(s: State, s': State, c: Config, h: string) {
    LooksAtInfo(s, s', h) && h in s.box.narinfos ==>
      h in s.phase.mark || WithinGrace(c.now, s.box.narinfos[h].time, c.grace)
  }

  /** If the NAR file is there when the sweep looks at it, it is live or young. */
  ghost predicate NarSpared(s: State, s': State, c: Config, f: string) {
    LooksAtNar(s, s', f) && f in s.box.nars && !DotFile(f) ==>
      f in s.phase.live || WithinGrace(c.now, s.box.nars[f].time, c.grace)
  }

  /** The sweep has nothing on record that would let it delete this narinfo. */
  ghost predicate InfoInv(s: State, c: Config, h: string) {
    match s.phase
    case ListingInfos(mark, _, listed, seen) =>
      h in seen ==> h in listed && (h in mark || WithinGrace(c.now, seen[h], c.grace))
    case DeletingInfos(_, kill, unindexed) => h !in kill && h !in unindexed
    case _ => true
  }

  ghost predicate NarInv(s: State, c: Config, f: string) {
    match s.phase
    case ListingNars(live, listed, seen) =>
      f in seen ==> f in listed && (f in live || WithinGrace(c.now, seen[f], c.grace))
    case DeletingNars(kill) => f !in kill
    case _ => true
  }

  /** Up to the marks the sweep only reads, and its listings start empty. */
  lemma ReadKeeps(s: State, s': State, c: Config)
    requires ReadStep(s, s', c)
    ensures s'.box == s.box && s'.pending == s.pending
    ensures !s'.phase.DeletingInfos? && !s'.phase.ListingNars? && !s'.phase.DeletingNars?
    ensures s'.phase.ListingInfos? ==> s.phase.LookingUp? && s'.phase.seen == map[] && s'.phase.listed == iset{}
  {
  }

  /** Others add files, and never take the sweep's notes away from it. */
  lemma OthersKeep(s: State, s': State)
    requires FileStep(s, s') || ManifestStep(s, s')
    ensures s'.phase == s.phase
    ensures s.box.narinfos.Keys <= s'.box.narinfos.Keys && s.box.nars.Keys <= s'.box.nars.Keys
  {
  }

  lemma InfoDelete(s: State, s': State, c: Config, h: string)
    requires DeleteStep(s, s', c) && InfoInv(s, c, h) && InfoSpared(s, s', c, h)
    ensures InfoInv(s', c, h)
    ensures h in s.box.narinfos ==> h in s'.box.narinfos && s'.box.narinfos[h] == s.box.narinfos[h]
  {
    YoungSpelled(c.now, c.grace);
    hide WithinGrace, IsYoung;
  }

  lemma InfoStep(s: State, s': State, c: Config, h: string)
    requires Step(s, s', c) && InfoInv(s, c, h) && InfoSpared(s, s', c, h)
    ensures InfoInv(s', c, h)
    ensures h in s.box.narinfos ==> h in s'.box.narinfos
  {
    hide ReadStep, DeleteStep, FileStep, ManifestStep, InfoSpared, WithinGrace;
    if ReadStep(s, s', c) {
      ReadKeeps(s, s', c);
    } else if DeleteStep(s, s', c) {
      InfoDelete(s, s', c, h);
    } else if !Stop(s, s') {
      OthersKeep(s, s');
    }
  }

  lemma NarDelete(s: State, s': State, c: Config, f: string)
    requires DeleteStep(s, s', c) && NarInv(s, c, f) && NarSpared(s, s', c, f)
    ensures NarInv(s', c, f)
    ensures f in s.box.nars ==> f in s'.box.nars && s'.box.nars[f] == s.box.nars[f]
  {
    YoungSpelled(c.now, c.grace);
    hide WithinGrace, IsYoung;
  }

  lemma NarStep(s: State, s': State, c: Config, f: string)
    requires Step(s, s', c) && NarInv(s, c, f) && NarSpared(s, s', c, f)
    ensures NarInv(s', c, f)
    ensures f in s.box.nars ==> f in s'.box.nars
  {
    hide ReadStep, DeleteStep, FileStep, ManifestStep, NarSpared, WithinGrace;
    if ReadStep(s, s', c) {
      ReadKeeps(s, s', c);
    } else if DeleteStep(s, s', c) {
      NarDelete(s, s', c, f);
    } else if !Stop(s, s') {
      OthersKeep(s, s');
    }
  }

  ghost predicate AlwaysInfoSpared(states: seq<State>, c: Config, h: string) {
    forall n :: 0 <= n < |states| - 1 ==> InfoSpared(states[n], states[n + 1], c, h)
  }

  ghost predicate AlwaysNarSpared(states: seq<State>, c: Config, f: string) {
    forall n :: 0 <= n < |states| - 1 ==> NarSpared(states[n], states[n + 1], c, f)
  }

  /** Whoever writes this narinfo writes this body. */
  ghost predicate WritesAgree(states: seq<State>, h: string, body: Body) {
    forall n, obj :: 0 <= n < |states| - 1 && WriteInfo(states[n], states[n + 1], h, obj) ==> obj.body == body
  }

  /** The narinfo file of this path says this, and its NAR is there. */
  ghost predicate HasPath(box: Box, h: string, body: Body, f: string) {
    h in box.narinfos && box.narinfos[h].body == body && f in box.nars
  }

  /** A narinfo body that names this NAR file. */
  predicate Names(body: Body, f: string) {
    Readable(body) && NarFile(body.info.value.url) == Some(f)
  }

  lemma HasPathServes(box: Box, h: string, body: Body, f: string)
    requires HasPath(box, h, body, f) && Names(body, f)
    ensures BoxServes(box, h)
  {
  }

  lemma BodyDelete(s: State, s': State, c: Config, h: string)
    requires SweepStep(s, s', c) && h in s.box.narinfos && h in s'.box.narinfos
    ensures s'.box.narinfos[h] == s.box.narinfos[h]
  {
    hide ReadStep;
    if ReadStep(s, s', c) {
      ReadKeeps(s, s', c);
    }
  }

  /** One step with both files spared and the narinfo's writers agreed. */
  lemma PathStep(s: State, s': State, c: Config, h: string, body: Body, f: string)
    requires Step(s, s', c)
    requires InfoInv(s, c, h) && InfoSpared(s, s', c, h) && NarInv(s, c, f) && NarSpared(s, s', c, f)
    requires forall obj :: WriteInfo(s, s', h, obj) ==> obj.body == body
    requires HasPath(s.box, h, body, f)
    ensures InfoInv(s', c, h) && NarInv(s', c, f) && HasPath(s'.box, h, body, f)
  {
    InfoStep(s, s', c, h);
    NarStep(s, s', c, f);
    hide InfoInv, NarInv, InfoSpared, NarSpared, SweepStep;
    if SweepStep(s, s', c) {
      BodyDelete(s, s', c, h);
    }
  }

  lemma {:induction false} NotCondemned(states: seq<State>, c: Config, h: string, f: string, n: int)
    requires Run(states, c) && 0 <= n < |states|
    requires AlwaysInfoSpared(states, c, h) && AlwaysNarSpared(states, c, f)
    ensures InfoInv(states[n], c, h) && NarInv(states[n], c, f)
    decreases n
  {
    hide InfoInv, NarInv, InfoSpared, NarSpared, Step;
    if n == 0 {
      NoneCondemned(states[0], c, h, f);
    } else {
      NotCondemned(states, c, h, f, n - 1);
      InfoStep(states[n - 1], states[n], c, h);
      NarStep(states[n - 1], states[n], c, f);
    }
  }

  lemma NoneCondemned(s: State, c: Config, h: string, f: string)
    requires Init(s)
    ensures InfoInv(s, c, h) && NarInv(s, c, f)
  {
  }

  /**
   * Every interleaving of a sweep with pushes: a path whose narinfo is marked or young
   * when the sweep looks at that file, and whose NAR is live or young when it looks at
   * that one, stays on the box from wherever it is there, wherever the sweep is or
   * stopped.
   */
  lemma {:induction false} PathStays(states: seq<State>, c: Config, h: string, body: Body, f: string, i: int, n: int)
    requires Run(states, c) && 0 <= i <= n < |states|
    requires AlwaysInfoSpared(states, c, h) && AlwaysNarSpared(states, c, f) && WritesAgree(states, h, body)
    requires HasPath(states[i].box, h, body, f)
    ensures HasPath(states[n].box, h, body, f)
    decreases n
  {
    hide InfoSpared, NarSpared, Step, HasPath;
    if i < n {
      PathStays(states, c, h, body, f, i, n - 1);
      NotCondemned(states, c, h, f, n - 1);
      PathStep(states[n - 1], states[n], c, h, body, f);
    }
  }

  // --- a push that lands while the sweep runs -----------------------------------

  /** This manifest is on the box as an unmirrored local push. */
  ghost predicate Pushed(box: Box, id: GenId, body: Body) {
    id in box.manifests && box.manifests[id].body == body && Guarded(box, id)
  }

  /** From state `i` on nobody pushes other bytes under this generation, or marks it mirrored. */
  ghost predicate LeftAlone(states: seq<State>, i: int, id: GenId, body: Body) {
    && (forall n, obj :: 0 <= i <= n < |states| - 1 && WriteManifest(states[n], states[n + 1], id, obj) ==>
          obj.body == body)
    && (forall n :: 0 <= i <= n < |states| ==> MarkerOf(id) !in states[n].box.mirrored)
  }

  lemma SweepNoManifest(s: State, s': State, c: Config)
    requires SweepStep(s, s', c)
    ensures Mirror.SameManifests(s.box, s'.box)
  {
    hide ReadStep;
    if ReadStep(s, s', c) {
      ReadKeeps(s, s', c);
    }
  }

  /** The sweep and the writers of narinfos and NARs touch no manifest and no marker. */
  lemma ManifestsUntouched(s: State, s': State, c: Config)
    requires SweepStep(s, s', c) || FileStep(s, s')
    ensures Mirror.SameManifests(s.box, s'.box)
  {
    hide SweepStep;
    if SweepStep(s, s', c) {
      SweepNoManifest(s, s', c);
    }
  }

  lemma PushedBeside(s: State, s': State, id: GenId, body: Body)
    requires ManifestStep(s, s') && Pushed(s.box, id, body)
    requires forall obj :: WriteManifest(s, s', id, obj) ==> obj.body == body
    requires MarkerOf(id) !in s'.box.mirrored
    ensures Pushed(s'.box, id, body)
  {
    hide MarkerOf, SafeComponent;
  }

  lemma PushedStep(s: State, s': State, c: Config, id: GenId, body: Body)
    requires Step(s, s', c) && Pushed(s.box, id, body)
    requires forall obj :: WriteManifest(s, s', id, obj) ==> obj.body == body
    requires MarkerOf(id) !in s'.box.mirrored
    ensures Pushed(s'.box, id, body)
  {
    hide MarkerOf, SafeComponent, SweepStep, FileStep, ManifestStep, WriteManifest;
    if ManifestStep(s, s') {
      PushedBeside(s, s', id, body);
    } else {
      ManifestsUntouched(s, s', c);
    }
  }

  lemma {:induction false} PushedStays(states: seq<State>, c: Config, id: GenId, body: Body, i: int, n: int)
    requires Steps(states, c) && 0 <= i <= n < |states|
    requires Pushed(states[i].box, id, body) && LeftAlone(states, i, id, body)
    ensures Pushed(states[n].box, id, body)
    decreases n
  {
    hide Step, Pushed, MarkerOf;
    if i < n {
      PushedStays(states, c, id, body, i, n - 1);
      PushedStep(states[n - 1], states[n], c, id, body);
    }
  }

  /** The narinfo this hash had at state `i`, and the NAR file it names. */
  ghost predicate ServedBy(s: State, h: string, body: Body, f: string) {
    Names(body, f) && HasPath(s.box, h, body, f)
  }

  /** Whatever served this hash at state `i` is spared whenever the sweep looks, and written over only by itself. */
  ghost predicate Sheltered(states: seq<State>, c: Config, i: int, h: string)
    requires 0 <= i < |states|
  {
    forall body, f :: ServedBy(states[i], h, body, f) ==>
      AlwaysInfoSpared(states, c, h) && AlwaysNarSpared(states, c, f) && WritesAgree(states, h, body)
  }

  lemma ServedStays(states: seq<State>, c: Config, i: int, n: int, h: string)
    requires Run(states, c) && 0 <= i <= n < |states|
    requires Sheltered(states, c, i, h) && BoxServes(states[i].box, h)
    ensures BoxServes(states[n].box, h)
    ensures states[n].box.narinfos[h].body == states[i].box.narinfos[h].body
  {
    hide Run, AlwaysInfoSpared, AlwaysNarSpared, WritesAgree;
    var body := states[i].box.narinfos[h].body;
    var f := NarFile(body.info.value.url).value;
    assert ServedBy(states[i], h, body, f);
    PathStays(states, c, h, body, f, i, n);
  }

  /**
   * A push that is there, guarded, at any moment of a sweep stays there, guarded, and
   * each path of its closure the box serves it goes on serving, if the path's files
   * are marked, live or young when the sweep looks at them.
   */
  lemma PushStaysServed(states: seq<State>, c: Config, i: int, n: int, id: GenId, body: Body)
    requires Run(states, c) && 0 <= i <= n < |states|
    requires Pushed(states[i].box, id, body) && LeftAlone(states, i, id, body) && body.manifest.Some?
    ensures Pushed(states[n].box, id, body)
    ensures forall path :: path in body.manifest.value.closure && Sheltered(states, c, i, StoreHashOf(path)) ==>
      BoxServes(states[i].box, StoreHashOf(path)) ==> BoxServes(states[n].box, StoreHashOf(path))
  {
    hide Steps, Sheltered, BoxServes, StoreHashOf, Pushed, LeftAlone;
    PushedStays(states, c, id, body, i, n);
    forall path | path in body.manifest.value.closure && Sheltered(states, c, i, StoreHashOf(path))
      && BoxServes(states[i].box, StoreHashOf(path))
      ensures BoxServes(states[n].box, StoreHashOf(path))
    {
      ServedStays(states, c, i, n, StoreHashOf(path));
    }
  }

  // --- what was there and kept before -----------------------------------------------

  /** The sweep has found this manifest, and keeps it or has yet to ask whether it is guarded. */
  ghost predicate KeepInv(s: State, id: GenId) {
    match s.phase
    case ListingManifests(named, files) => id in named ==> id in files
    case ReadingHeads(files, _, _) => id in files
    case ReadingGuards(files, todo, keep) => id in files && (id in todo || FileId(id) in keep)
    case Marking(_, keep, _) => FileId(id) in keep
    case _ => true
  }

  lemma GuardedKept(s: State, s': State, c: Config, id: GenId)
    requires Step(s, s', c) && KeepInv(s, id)
    requires id in s.box.manifests && Guarded(s.box, id)
    ensures KeepInv(s', id)
  {
    hide DeleteStep, FileStep, ManifestStep, Guarded;
    if DeleteStep(s, s', c) {
      DeletePhases(s, s', c);
    } else if FileStep(s, s') || ManifestStep(s, s') {
      OthersKeep(s, s');
    }
  }

  lemma DeletePhases(s: State, s': State, c: Config)
    requires DeleteStep(s, s', c)
    ensures s'.phase.ListingInfos? || s'.phase.DeletingInfos? || s'.phase.ListingNars? || s'.phase.DeletingNars?
    ensures s'.phase.ListingInfos? ==>
      s.phase.ListingInfos? && s'.phase.mark == s.phase.mark && s'.phase.live == s.phase.live
    ensures s'.phase.DeletingInfos? ==>
      (s.phase.ListingInfos? || s.phase.DeletingInfos?) && s'.phase.live == s.phase.live
    ensures s'.phase.ListingNars? ==>
      (s.phase.DeletingInfos? || s.phase.ListingNars?) && s'.phase.live == s.phase.live
    ensures s'.phase.DeletingNars? ==> s.phase.ListingNars? || s.phase.DeletingNars?
  {
  }

  /** A manifest the sweep finds and keeps: its closure is marked, and the NAR the index has for `h` is live. */
  ghost predicate AccountInv(s: State, id: GenId, m: Manifest, h: string, f: string) {
    match s.phase
    case ListingManifests(named, files) => id in named ==> id in files
    case ReadingHeads(files, _, _) => id in files
    case ReadingGuards(files, _, _) => id in files
    case Marking(todo, _, mark) => id in todo || Hashes(m) <= mark
    case LookingUp(mark, hashes, live) => Hashes(m) <= mark && (h in hashes || f in live)
    case ListingInfos(mark, live, _, _) => Hashes(m) <= mark && f in live
    case DeletingInfos(live, _, _) => f in live
    case ListingNars(live, _, _) => f in live
    case _ => true
  }

  ghost predicate Indexed(s: State, h: string, url: string) {
    && h in s.box.index && s.box.index[h] == url
    && forall u :: (h, u) in s.pending ==> u == url
  }

  lemma AccountRead(s: State, s': State, c: Config, id: GenId, m: Manifest, h: string, url: string, f: string)
    requires ReadStep(s, s', c) && AccountInv(s, id, m, h, f)
    requires Parsed(s.box, id) && ManifestOf(s.box, id) == m && h in Hashes(m)
    requires s.phase.Marking? ==> FileId(id) in s.phase.keep
    requires Indexed(s, h, url) && NarFile(url) == Some(f)
    ensures AccountInv(s', id, m, h, f)
  {
    hide Hashes, NarFile, FileId;
  }

  lemma AccountStep(s: State, s': State, c: Config, id: GenId, m: Manifest, h: string, url: string, f: string)
    requires Step(s, s', c) && AccountInv(s, id, m, h, f)
    requires Parsed(s.box, id) && ManifestOf(s.box, id) == m && h in Hashes(m)
    requires s.phase.Marking? ==> FileId(id) in s.phase.keep
    requires Indexed(s, h, url) && NarFile(url) == Some(f)
    ensures AccountInv(s', id, m, h, f)
  {
    hide ReadStep, DeleteStep, FileStep, ManifestStep, Hashes, NarFile, FileId, Indexed;
    if ReadStep(s, s', c) {
      AccountRead(s, s', c, id, m, h, url, f);
    } else if DeleteStep(s, s', c) {
      DeletePhases(s, s', c);
    } else if !Stop(s, s') {
      OthersKeep(s, s');
    }
  }

  /** What accounts for a path spares both its files whenever they are looked at. */
  lemma AccountSpares(s: State, s': State, c: Config, id: GenId, m: Manifest, h: string, f: string)
    requires AccountInv(s, id, m, h, f) && h in Hashes(m)
    ensures InfoSpared(s, s', c, h) && NarSpared(s, s', c, f)
  {
  }

  lemma IndexedDelete(s: State, s': State, c: Config, h: string, url: string)
    requires DeleteStep(s, s', c) && Indexed(s, h, url) && InfoInv(s, c, h)
    ensures Indexed(s', h, url)
  {
  }

  lemma IndexedBeside(s: State, s': State, h: string, body: Body)
    requires FileStep(s, s') || ManifestStep(s, s')
    requires Readable(body) && Indexed(s, h, body.info.value.url)
    requires forall obj :: WriteInfo(s, s', h, obj) ==> obj.body == body
    ensures Indexed(s', h, body.info.value.url)
  {
    hide SafeComponent, MarkerOf;
    if x, obj :| WriteInfo(s, s', x, obj) {
      assert x == h ==> obj.body == body;
    }
  }

  lemma IndexedStep(s: State, s': State, c: Config, h: string, body: Body)
    requires Step(s, s', c) && InfoInv(s, c, h)
    requires Readable(body) && Indexed(s, h, body.info.value.url)
    requires forall obj :: WriteInfo(s, s', h, obj) ==> obj.body == body
    ensures Indexed(s', h, body.info.value.url)
  {
    hide ReadStep, DeleteStep, FileStep, ManifestStep, WriteInfo, InfoInv;
    if ReadStep(s, s', c) {
      ReadKeeps(s, s', c);
    } else if DeleteStep(s, s', c) {
      IndexedDelete(s, s', c, h, body.info.value.url);
    } else if !Stop(s, s') {
      IndexedBeside(s, s', h, body);
    }
  }

  /** All that is known of a path of a kept manifest while the sweep runs. */
  ghost predicate AccountedFor(s: State, c: Config, id: GenId, m: Manifest, h: string, body: Body, f: string) {
    && Names(body, f) && HasPath(s.box, h, body, f) && Indexed(s, h, body.info.value.url)
    && AccountInv(s, id, m, h, f) && InfoInv(s, c, h) && NarInv(s, c, f)
  }

  lemma AccountedStep(s: State, s': State, c: Config, id: GenId, m: Manifest, h: string, body: Body, f: string)
    requires Step(s, s', c) && AccountedFor(s, c, id, m, h, body, f)
    requires Parsed(s.box, id) && ManifestOf(s.box, id) == m && h in Hashes(m)
    requires s.phase.Marking? ==> FileId(id) in s.phase.keep
    requires forall obj :: WriteInfo(s, s', h, obj) ==> obj.body == body
    ensures AccountedFor(s', c, id, m, h, body, f)
  {
    hide Step, HasPath, Indexed, AccountInv, InfoInv, NarInv, InfoSpared, NarSpared, Hashes, WriteInfo;
    AccountSpares(s, s', c, id, m, h, f);
    AccountStep(s, s', c, id, m, h, body.info.value.url, f);
    PathStep(s, s', c, h, body, f);
    IndexedStep(s, s', c, h, body);
  }

  /** The manifest is there with this content in every state, and the sweep decides to keep it. */
  ghost predicate KeptThroughout(states: seq<State>, id: GenId, m: Manifest) {
    forall n :: 0 <= n < |states| ==>
      && Parsed(states[n].box, id) && ManifestOf(states[n].box, id) == m
      && (states[n].phase.Marking? ==> FileId(id) in states[n].phase.keep)
  }

  lemma AccountedStart(s: State, c: Config, id: GenId, m: Manifest, h: string, body: Body, f: string)
    requires Init(s)
    requires Names(body, f) && HasPath(s.box, h, body, f) && Indexed(s, h, body.info.value.url)
    ensures AccountedFor(s, c, id, m, h, body, f)
  {
  }

  /**
   * What the sweep finds and keeps it does not strand, whatever lands beside it: a
   * path of the closure that was served and indexed when the sweep began is served by
   * the same narinfo ever after.
   */
  lemma {:induction false} KeptStaysServed(states: seq<State>, c: Config, id: GenId, m: Manifest, h: string,
    body: Body, f: string, n: int)
    requires Run(states, c) && 0 <= n < |states|
    requires KeptThroughout(states, id, m) && h in Hashes(m) && WritesAgree(states, h, body)
    requires ServedBy(states[0], h, body, f) && Indexed(states[0], h, body.info.value.url)
    ensures AccountedFor(states[n], c, id, m, h, body, f)
    decreases n
  {
    hide Step, AccountedFor, Hashes, HasPath, Indexed, WriteInfo, FileId, Init;
    if n == 0 {
      AccountedStart(states[0], c, id, m, h, body, f);
    } else {
      KeptStaysServed(states, c, id, m, h, body, f, n - 1);
      AccountedStep(states[n - 1], states[n], c, id, m, h, body, f);
    }
  }

  lemma {:induction false} GuardKeeps(states: seq<State>, c: Config, id: GenId, body: Body, n: int)
    requires Run(states, c) && 0 <= n < |states|
    requires Pushed(states[0].box, id, body) && LeftAlone(states, 0, id, body)
    ensures Pushed(states[n].box, id, body) && KeepInv(states[n], id)
    decreases n
  {
    hide Step, KeepInv, Guarded, LeftAlone;
    if n == 0 {
      NothingListed(states[0], id);
    } else {
      GuardKeeps(states, c, id, body, n - 1);
      PushedStays(states, c, id, body, 0, n);
      GuardedKept(states[n - 1], states[n], c, id);
    }
  }

  lemma NothingListed(s: State, id: GenId)
    requires Init(s)
    ensures KeepInv(s, id)
  {
  }

  /**
   * In particular an unmirrored local push that was there when the sweep began: with
   * its guard it is found, kept and marked, and each path that was served and indexed
   * then is served in every state of the run.
   */
  lemma GuardedStaysServed(states: seq<State>, c: Config, id: GenId, body: Body, path: string, n: int)
    requires Run(states, c) && 0 <= n < |states|
    requires Pushed(states[0].box, id, body) && LeftAlone(states, 0, id, body) && body.manifest.Some?
    requires path in body.manifest.value.closure && BoxServes(states[0].box, StoreHashOf(path))
    requires
      var info := states[0].box.narinfos[StoreHashOf(path)].body;
      Indexed(states[0], StoreHashOf(path), info.info.value.url) && WritesAgree(states, StoreHashOf(path), info)
    ensures Pushed(states[n].box, id, body) && BoxServes(states[n].box, StoreHashOf(path))
    ensures states[n].box.narinfos[StoreHashOf(path)].body == states[0].box.narinfos[StoreHashOf(path)].body
  {
    hide Run, LeftAlone, WritesAgree, Indexed, KeepInv, Guarded, AccountInv, InfoInv, NarInv, StoreHashOf;
    var m, h := body.manifest.value, StoreHashOf(path);
    var info := states[0].box.narinfos[h].body;
    var f := NarFile(info.info.value.url).value;
    forall k | 0 <= k < |states|
      ensures Parsed(states[k].box, id) && ManifestOf(states[k].box, id) == m
      ensures states[k].phase.Marking? ==> FileId(id) in states[k].phase.keep
    {
      GuardKeeps(states, c, id, body, k);
      KeptWhenMarking(states[k], id);
    }
    GuardKeeps(states, c, id, body, n);
    assert h in Hashes(m);
    KeptStaysServed(states, c, id, m, h, info, f, n);
  }

  lemma KeptWhenMarking(s: State, id: GenId)
    requires KeepInv(s, id)
    ensures s.phase.Marking? ==> FileId(id) in s.phase.keep
  {
  }
}
