/**
 * When the sweep of `BoxRace` loses something: the exact condition for each narinfo,
 * NAR and index entry, and the run in which a push meets it.
 */
module BoxRaceLimits {
  import opened Wrappers
  import opened Retention
  import opened Keys
  import opened Objects
  import opened BoxStore
  import opened BoxGc
  import opened RemoteGc
  import opened BoxRace
  import ReplicaLoss

  // --- the condition is exact ------------------------------------------------------------

  lemma StepsOn(states: seq<State>, s: State, c: Config)
    requires Steps(states, c) && Step(states[|states| - 1], s, c)
    ensures Steps(states + [s], c)
  {
    hide Step;
    var all := states + [s];
    forall n | 0 <= n < |all| - 1
      ensures Step(all[n], all[n + 1], c)
    {
      if n < |states| - 1 {
        assert Step(states[n], states[n + 1], c);
      }
    }
  }

  /** However the run goes on from `s`, if nobody writes this narinfo again it is still there. */
  ghost predicate InfoSafe(s: State, c: Config, h: string) {
    forall states: seq<State> :: states != [] && Steps(states, c) && states[0] == s && NotWritten(states, h) ==>
      h in states[|states| - 1].box.narinfos
  }

  ghost predicate Writes(s: State, s': State, h: string) {
    exists obj :: WriteInfo(s, s', h, obj)
  }

  ghost predicate NotWritten(states: seq<State>, h: string) {
    forall n :: 0 <= n < |states| - 1 ==> !Writes(states[n], states[n + 1], h)
  }

  /** From the listing on, for a narinfo that is marked or was young when it was last written. */
  ghost predicate SafeInv(s: State, c: Config, h: string, mark: set<string>, obj: Object) {
    && (s.phase.ListingInfos? || s.phase.DeletingInfos? || s.phase.ListingNars? || s.phase.DeletingNars?
        || s.phase.Ended?)
    && (s.phase.ListingInfos? ==> s.phase.mark == mark)
    && InfoInv(s, c, h) && h in s.box.narinfos && s.box.narinfos[h] == obj
  }

  lemma FileBeside(s: State, s': State, h: string)
    requires FileStep(s, s') || ManifestStep(s, s')
    requires !Writes(s, s', h)
    ensures h in s.box.narinfos ==> h in s'.box.narinfos && s'.box.narinfos[h] == s.box.narinfos[h]
  {
    if x, obj :| WriteInfo(s, s', x, obj) {
      assert x != h;
    }
  }

  lemma SafeStep(s: State, s': State, c: Config, h: string, mark: set<string>, obj: Object)
    requires Step(s, s', c) && SafeInv(s, c, h, mark, obj)
    requires h in mark || WithinGrace(c.now, obj.time, c.grace)
    requires !Writes(s, s', h)
    ensures SafeInv(s', c, h, mark, obj)
  {
    hide ReadStep, DeleteStep, FileStep, ManifestStep, Writes, WithinGrace;
    if ReadStep(s, s', c) {
      ReadsEarly(s, s', c);
    } else if DeleteStep(s, s', c) {
      DeletePhases(s, s', c);
      InfoDelete(s, s', c, h);
    } else if !Stop(s, s') {
      OthersKeep(s, s');
      FileBeside(s, s', h);
      InfoStep(s, s', c, h);
    }
  }

  lemma ReadsEarly(s: State, s': State, c: Config)
    requires ReadStep(s, s', c)
    ensures !s.phase.ListingInfos? && !s.phase.DeletingInfos? && !s.phase.ListingNars? && !s.phase.DeletingNars?
    ensures !s.phase.Ended?
  {
  }

  lemma {:induction false} SafeOn(states: seq<State>, c: Config, h: string, mark: set<string>, obj: Object, n: int)
    requires Steps(states, c) && NotWritten(states, h) && 0 <= n < |states|
    requires SafeInv(states[0], c, h, mark, obj)
    requires h in mark || WithinGrace(c.now, obj.time, c.grace)
    ensures SafeInv(states[n], c, h, mark, obj)
    decreases n
  {
    hide Step, SafeInv, Writes, WithinGrace;
    if n > 0 {
      SafeOn(states, c, h, mark, obj, n - 1);
      SafeStep(states[n - 1], states[n], c, h, mark, obj);
    }
  }

  /** Neither marked nor young: the sweep lists the file and deletes it. */
  lemma Deleted(s: State, c: Config, h: string) returns (states: seq<State>)
    requires s.phase.ListingInfos? && h !in s.phase.listed && h in s.box.narinfos
    requires h !in s.phase.mark && !WithinGrace(c.now, s.box.narinfos[h].time, c.grace)
    ensures Steps(states, c) && states[0] == s && NotWritten(states, h)
    ensures states[|states| - 1].box == s.box.(narinfos := s.box.narinfos - {h})
  {
    hide WithinGrace, Step, Writes;
    var page := iset x | x !in s.phase.listed;
    var ListingInfos(mark, live, listed, seen) := s.phase;
    var s1 := s.(phase := ListingInfos(mark, live, listed + page, seen + Dates(s.box.narinfos, page)));
    var kill := Doomed(s1.phase.seen, mark, c);
    var s2 := s1.(phase := DeletingInfos(live, kill, {}));
    var s3 := s2.(box := s.box.(narinfos := s.box.narinfos - {h}), phase := DeletingInfos(live, kill - {h}, {h}));
    LastPage(listed, page);
    SeenOld(seen, s.box.narinfos, page, h, mark, c);
    hide Doomed, Dates;
    assert ListInfos(s, s1, page);
    assert FinishInfoListing(s1, s2, c);
    assert {} + {h} == {h};
    assert Unlink(s2, s3, h);
    hide ListInfos, FinishInfoListing, Unlink;
    ThreeSteps(s, s1, s2, s3, c);
    states := [s, s1, s2, s3];
    assert h in s1.phase.listed;
    PhaseMoves(s, s1);
    PhaseMoves(s1, s2);
    PhaseMoves(s2, s3);
  }

  lemma LastPage(listed: iset<string>, page: iset<string>)
    requires forall x :: x in page <==> x !in listed
    ensures listed !! page && forall x :: x in listed + page
  {
  }

  /** An old file that is seen and not spared is condemned. */
  lemma SeenOld(seen: Dated, files: map<string, Object>, page: iset<string>, x: string, spared: set<string>, c: Config)
    requires x in files && x in page && x !in spared && !WithinGrace(c.now, files[x].time, c.grace)
    ensures x in Doomed(seen + Dates(files, page), spared, c)
  {
    YoungSpelled(c.now, c.grace);
    hide WithinGrace, IsYoung;
  }

  lemma ThreeSteps(s: State, s1: State, s2: State, s3: State, c: Config)
    requires DeleteStep(s, s1, c) && DeleteStep(s1, s2, c) && DeleteStep(s2, s3, c)
    ensures Steps([s, s1, s2, s3], c)
  {
    hide DeleteStep;
  }

  /**
   * Once the closures are marked, a narinfo the sweep has not looked at yet is safe,
   * if nobody writes it again, exactly when it is marked or young.
   */
  lemma InfoSafeIff(s: State, c: Config, h: string)
    requires s.phase.ListingInfos? && h !in s.phase.listed && h !in s.phase.seen && h in s.box.narinfos
    ensures InfoSafe(s, c, h) <==> h in s.phase.mark || WithinGrace(c.now, s.box.narinfos[h].time, c.grace)
  {
    hide Steps, NotWritten, WithinGrace;
    var obj := s.box.narinfos[h];
    if h in s.phase.mark || WithinGrace(c.now, obj.time, c.grace) {
      forall states: seq<State> | states != [] && Steps(states, c) && states[0] == s && NotWritten(states, h)
        ensures h in states[|states| - 1].box.narinfos
      {
        SafeOn(states, c, h, s.phase.mark, obj, |states| - 1);
      }
    } else {
      var states := Deleted(s, c, h);
      NotEmpty(states, c);
    }
  }

  lemma NotEmpty(states: seq<State>, c: Config)
    requires Steps(states, c)
    ensures states != []
  {
  }

  /** The same for a NAR file: nobody writes it again. */
  ghost predicate NarSafe(s: State, c: Config, f: string) {
    forall states: seq<State> :: states != [] && Steps(states, c) && states[0] == s && NarNotWritten(states, f) ==>
      f in states[|states| - 1].box.nars
  }

  ghost predicate WritesNar(s: State, s': State, f: string) {
    exists obj :: WriteNar(s, s', f, obj)
  }

  ghost predicate NarNotWritten(states: seq<State>, f: string) {
    forall n :: 0 <= n < |states| - 1 ==> !WritesNar(states[n], states[n + 1], f)
  }

  ghost predicate NarSafeInv(s: State, c: Config, f: string, live: set<string>, obj: Object) {
    && (s.phase.ListingNars? || s.phase.DeletingNars? || s.phase.Ended?)
    && (s.phase.ListingNars? ==> s.phase.live == live)
    && NarInv(s, c, f) && f in s.box.nars && s.box.nars[f] == obj
  }

  lemma NarBeside(s: State, s': State, f: string)
    requires FileStep(s, s') || ManifestStep(s, s')
    requires !WritesNar(s, s', f)
    ensures f in s.box.nars ==> f in s'.box.nars && s'.box.nars[f] == s.box.nars[f]
  {
    if x, obj :| WriteNar(s, s', x, obj) {
      assert x != f;
    }
  }

  /** A hidden file is not listed, so the sweep never looks at it. */
  lemma NarSafeStep(s: State, s': State, c: Config, f: string, live: set<string>, obj: Object)
    requires Step(s, s', c) && NarSafeInv(s, c, f, live, obj)
    requires DotFile(f) || f in live || WithinGrace(c.now, obj.time, c.grace)
    requires !WritesNar(s, s', f)
    ensures NarSafeInv(s', c, f, live, obj)
  {
    hide ReadStep, DeleteStep, FileStep, ManifestStep, WritesNar, WithinGrace, DotFile;
    if ReadStep(s, s', c) {
      ReadsEarly(s, s', c);
    } else if DeleteStep(s, s', c) {
      DeletePhases(s, s', c);
      NarDelete(s, s', c, f);
    } else if !Stop(s, s') {
      OthersKeep(s, s');
      NarBeside(s, s', f);
      NarStep(s, s', c, f);
    }
  }

  lemma {:induction false} NarSafeOn(states: seq<State>, c: Config, f: string, live: set<string>, obj: Object, n: int)
    requires Steps(states, c) && NarNotWritten(states, f) && 0 <= n < |states|
    requires NarSafeInv(states[0], c, f, live, obj)
    requires DotFile(f) || f in live || WithinGrace(c.now, obj.time, c.grace)
    ensures NarSafeInv(states[n], c, f, live, obj)
    decreases n
  {
    hide Step, NarSafeInv, WritesNar, WithinGrace, DotFile;
    if n > 0 {
      NarSafeOn(states, c, f, live, obj, n - 1);
      NarSafeStep(states[n - 1], states[n], c, f, live, obj);
    }
  }

  lemma ListNarsStep(s: State, s': State, page: iset<string>, c: Config)
    requires ListNars(s, s', page)
    ensures DeleteStep(s, s', c)
  {
    hide ListNars;
  }

  lemma FinishNarsStep(s: State, s': State, c: Config)
    requires FinishNarListing(s, s', c)
    ensures DeleteStep(s, s', c)
  {
    hide FinishNarListing;
  }

  lemma UnlinkNarStep(s: State, s': State, f: string, c: Config)
    requires UnlinkNar(s, s', f)
    ensures DeleteStep(s, s', c)
  {
    hide UnlinkNar;
  }

  lemma NarDeleted(s: State, c: Config, f: string) returns (states: seq<State>)
    requires s.phase.ListingNars? && f !in s.phase.listed && f in s.box.nars && !DotFile(f)
    requires f !in s.phase.live && !WithinGrace(c.now, s.box.nars[f].time, c.grace)
    ensures Steps(states, c) && states[0] == s && NarNotWritten(states, f)
    ensures states[|states| - 1].box == s.box.(nars := s.box.nars - {f})
  {
    hide WithinGrace, Step, DotFile, WritesNar;
    var page := iset x | x !in s.phase.listed;
    var ListingNars(live, listed, seen) := s.phase;
    var plain := PlainNars(s.box);
    assert f in plain && plain[f] == s.box.nars[f];
    hide PlainNars;
    var s1 := s.(phase := ListingNars(live, listed + page, seen + Dates(plain, page)));
    var kill := Doomed(s1.phase.seen, live, c);
    var s2 := s1.(phase := DeletingNars(kill));
    var s3 := s2.(box := s.box.(nars := s.box.nars - {f}), phase := DeletingNars(kill - {f}));
    LastPage(listed, page);
    SeenOld(seen, plain, page, f, live, c);
    hide Doomed, Dates, DeleteStep;
    ListNarsStep(s, s1, page, c);
    FinishNarsStep(s1, s2, c);
    UnlinkNarStep(s2, s3, f, c);
    ThreeSteps(s, s1, s2, s3, c);
    states := [s, s1, s2, s3];
    assert f in s1.phase.listed;
    PhaseMoves(s, s1);
    PhaseMoves(s1, s2);
    PhaseMoves(s2, s3);
  }

  /** Whoever writes a file leaves the sweep's phase alone. */
  lemma PhaseMoves(s: State, s': State)
    requires s.phase != s'.phase
    ensures forall x :: !Writes(s, s', x) && !WritesNar(s, s', x)
  {
  }

  lemma NarSafeIff(s: State, c: Config, f: string)
    requires s.phase.ListingNars? && f !in s.phase.listed && f !in s.phase.seen && f in s.box.nars
    ensures NarSafe(s, c, f) <==>
      DotFile(f) || f in s.phase.live || WithinGrace(c.now, s.box.nars[f].time, c.grace)
  {
    hide Steps, NarNotWritten, WithinGrace, DotFile;
    var obj := s.box.nars[f];
    if DotFile(f) || f in s.phase.live || WithinGrace(c.now, obj.time, c.grace) {
      forall states: seq<State> | states != [] && Steps(states, c) && states[0] == s && NarNotWritten(states, f)
        ensures f in states[|states| - 1].box.nars
      {
        NarSafeOn(states, c, f, s.phase.live, obj, |states| - 1);
      }
    } else {
      var states := NarDeleted(s, c, f);
      NotEmpty(states, c);
    }
  }

  // --- and a push can meet it ---------------------------------------------------------------

  /** A manifest that lists one path, which the box does not have. */
  function Elsewhere(id: GenId): Object {
    Object(Body([], true, Some(Manifest(id.0, id.1, "main", "pkgs", 0, ["/nix/store/b"])), None), 0)
  }

  /** A path on the box, old, and a guarded push that does not list it. */
  function Before(prior: GenId): Box {
    ReplicaLoss.Stocked().(manifests := map[prior := Elsewhere(prior)], localOrigin := {MarkerOf(prior)})
  }

  /** The sweep from its start to the look at the narinfo files, with nobody else about. */
  ghost function Readings(prior: GenId, c: Config): seq<State> {
    var box, k := Before(prior), FileId(prior);
    var gens := [ToGen(k, Elsewhere(prior).body.manifest.value)];
    var keep := Retain(gens, BOXED, c.now);
    var none: iset<GenId> := iset{};
    [State(box, {}, ListingManifests(iset{}, {})),
     State(box, {}, ListingManifests(iset id: GenId | id !in none, {prior})),
     State(box, {}, ReadingHeads({prior}, {prior}, [])),
     State(box, {}, ReadingHeads({prior}, {}, gens)),
     State(box, {}, ReadingGuards({prior}, {prior}, keep)),
     State(box, {}, ReadingGuards({prior}, {}, keep + {k})),
     State(box, {}, Marking({prior}, keep + {k}, {})),
     State(box, {}, Marking({}, keep + {k}, {"b"})),
     State(box, {}, LookingUp({"b"}, {"b"}, {})),
     State(box, {}, LookingUp({"b"}, {}, {})),
     State(box, {}, ListingInfos({"b"}, {}, iset{}, map[]))]
  }

  lemma OnlyB(prior: GenId)
    ensures Hashes(Elsewhere(prior).body.manifest.value) == {"b"}
  {
    hide StoreHashOf;
    Keys.StoreHashOfBase("/nix/store", "b");
    assert "/nix/store" + "/" + "b" == "/nix/store/b";
    var m := Elsewhere(prior).body.manifest.value;
    assert m.closure == ["/nix/store/b"];
    assert "/nix/store/b" in m.closure;
  }

  /** The manifest passes. */
  lemma HeadsRun(prior: GenId, c: Config)
    requires SafeId(prior)
    ensures forall n :: 0 <= n < 4 ==> ReadStep(Readings(prior, c)[n], Readings(prior, c)[n + 1], c)
  {
    hide Retain, FileId, MarkerOf, SafeComponent, StoreHashOf, Hashes;
    var r := Readings(prior, c);
    assert {prior} - {prior} == {};
    assert (set id | id in r[0].box.manifests && id in r[1].phase.named) == {prior};
    assert r[0].phase.named + r[1].phase.named == r[1].phase.named;
    assert ListManifests(r[0], r[1], r[1].phase.named);
    assert FinishManifests(r[1], r[2]);
    assert r[2].phase.gens + r[3].phase.gens == r[3].phase.gens;
    assert ReadHead(r[2], r[3], prior);
    assert FinishHeads(r[3], r[4], c);
    Four(r, c, 0);
  }

  lemma Four(r: seq<State>, c: Config, i: nat)
    requires i + 4 < |r|
    requires ReadStep(r[i], r[i + 1], c) && ReadStep(r[i + 1], r[i + 2], c)
    requires ReadStep(r[i + 2], r[i + 3], c) && ReadStep(r[i + 3], r[i + 4], c)
    ensures forall n :: i <= n < i + 4 ==> ReadStep(r[n], r[n + 1], c)
  {
    hide ReadStep;
  }

  /** The guard, the marks. */
  lemma MarksRun(prior: GenId, c: Config)
    requires SafeId(prior)
    ensures forall n :: 4 <= n < 8 ==> ReadStep(Readings(prior, c)[n], Readings(prior, c)[n + 1], c)
  {
    hide Retain, FileId, MarkerOf, SafeComponent, StoreHashOf, Hashes;
    OnlyB(prior);
    var r := Readings(prior, c);
    assert {prior} - {prior} == {};
    assert ReadGuard(r[4], r[5], prior);
    assert FinishGuards(r[5], r[6]);
    assert r[6].phase.mark + {"b"} == r[7].phase.mark;
    assert MarkOne(r[6], r[7], prior);
    assert FinishMarks(r[7], r[8]);
    Four(r, c, 4);
  }

  lemma LookUpsRun(prior: GenId, c: Config)
    ensures forall n :: 8 <= n < 10 ==> ReadStep(Readings(prior, c)[n], Readings(prior, c)[n + 1], c)
    ensures |Readings(prior, c)| == 11 && Init(Readings(prior, c)[0])
  {
    hide Retain, FileId, MarkerOf;
    var r := Readings(prior, c);
    var b := {"b"};
    assert b - {"b"} == {};
    assert r[8].phase.live + {} == r[9].phase.live;
    assert LookUp(r[8], r[9], "b");
    assert FinishLookUps(r[9], r[10]);
  }

  lemma ReadingsRun(prior: GenId, c: Config)
    requires SafeId(prior)
    ensures Run(Readings(prior, c), c)
  {
    hide Readings, Step, ReadStep, Init;
    HeadsRun(prior, c);
    MarksRun(prior, c);
    LookUpsRun(prior, c);
    var r := Readings(prior, c);
    forall n | 0 <= n < |r| - 1
      ensures Step(r[n], r[n + 1], c)
    {
      StepOf(r[n], r[n + 1], c);
    }
  }

  lemma StepOf(s: State, s': State, c: Config)
    requires ReadStep(s, s', c)
    ensures Step(s, s', c)
  {
  }

  /**
   * A push of a path the box already has, old and in no closure the sweep has marked:
   * the client uploads its manifest alone, the sweep then deletes the narinfo, and the
   * push is there, guarded, and no longer served.
   */
  lemma PushInsideSweepLost(prior: GenId, id: GenId, c: Config) returns (states: seq<State>, i: int)
    requires SafeId(prior) && SafeId(id) && prior != id && !WithinGrace(c.now, 0, c.grace)
    ensures Run(states, c) && 0 <= i < |states|
    ensures
      var body := ReplicaLoss.Made(id, []).body;
      var box, last := states[i].box, states[|states| - 1].box;
      && Pushed(box, id, body) && Pushed(last, id, body)
      && forall path :: path in body.manifest.value.closure ==>
           BoxServes(box, StoreHashOf(path)) && !BoxServes(last, StoreHashOf(path))
  {
    hide Run, Step, WithinGrace, StoreHashOf, SafeComponent, MarkerOf, Readings;
    ReadingsRun(prior, c);
    ReplicaLoss.PathHash();
    ReadingsEnd(prior, c);
    var r := Readings(prior, c);
    var s := r[|r| - 1];
    var obj := ReplicaLoss.Made(id, []);
    var s1 := s.(box := s.box.(manifests := s.box.manifests[id := obj]));
    var s2 := s1.(box := s1.box.(localOrigin := s1.box.localOrigin + {MarkerOf(id)}));
    assert WriteManifest(s, s1, id, obj) && MarkOrigin(s1, s2, id);
    BesideStep(s, s1, c);
    BesideStep(s1, s2, c);
    var tail := Deleted(s2, c, "a");
    states := StepsJoin(r, s1, tail, c);
    i := |r| + 1;
    PushThere(prior, id, s2.box, states[|states| - 1].box);
  }

  /** Where the readings end, the box is as it was. */
  lemma ReadingsEnd(prior: GenId, c: Config)
    ensures Readings(prior, c) != []
    ensures
      var s := Readings(prior, c)[|Readings(prior, c)| - 1];
      s.box == Before(prior) && s.phase == ListingInfos({"b"}, {}, iset{}, map[])
  {
    hide Retain;
  }

  lemma PushThere(prior: GenId, id: GenId, box: Box, box': Box)
    requires SafeId(id)
    requires var obj := ReplicaLoss.Made(id, []); var b := Before(prior);
      box == b.(manifests := b.manifests[id := obj], localOrigin := b.localOrigin + {MarkerOf(id)})
    requires box' == box.(narinfos := box.narinfos - {"a"})
    ensures
      var body := ReplicaLoss.Made(id, []).body;
      && Pushed(box, id, body) && Pushed(box', id, body)
      && BoxServes(box, "a") && !BoxServes(box', "a")
  {
    hide MarkerOf, SafeComponent;
    assert NarFile("nar/a") == Some("a");
  }

  lemma BesideStep(s: State, s': State, c: Config)
    requires ManifestStep(s, s')
    ensures Step(s, s', c)
  {
    hide ManifestStep;
  }

  lemma StepsJoin(r: seq<State>, s1: State, tail: seq<State>, c: Config) returns (states: seq<State>)
    requires Run(r, c) && Steps(tail, c)
    requires Step(r[|r| - 1], s1, c) && Step(s1, tail[0], c)
    ensures states == r + [s1] + tail && Run(states, c)
  {
    hide Step, Init;
    states := r + [s1] + tail;
    forall n | 0 <= n < |states| - 1
      ensures Step(states[n], states[n + 1], c)
    {
      if n > |r| {
        assert states[n] == tail[n - |r| - 1] && states[n + 1] == tail[n - |r|];
        assert Step(tail[n - |r| - 1], tail[n - |r| - 1 + 1], c);
      } else if n < |r| - 1 {
        assert Step(r[n], r[n + 1], c);
      }
    }
  }

  // --- a write between the removal of a file and of its entry ---------------------------------

  /** On disk, not in the index, and nobody about to enter it. */
  ghost predicate EntryLost(s: State, h: string) {
    h in s.box.narinfos && h !in s.box.index && forall u :: (h, u) !in s.pending
  }

  /** However the run goes on from `s`, if nobody writes this narinfo again its entry is not lost. */
  ghost predicate EntrySafe(s: State, c: Config, h: string) {
    forall states: seq<State> :: states != [] && Steps(states, c) && states[0] == s && NotWritten(states, h) ==>
      !EntryLost(states[|states| - 1], h)
  }

  ghost predicate EntryInv(s: State, h: string) {
    && (s.phase.ListingInfos? || s.phase.DeletingInfos? || s.phase.ListingNars? || s.phase.DeletingNars?
        || s.phase.Ended?)
    && (h in s.box.narinfos ==> h in s.box.index || exists u :: (h, u) in s.pending)
    && (s.phase.DeletingInfos? && h in s.box.narinfos ==> h !in s.phase.unindexed)
  }

  lemma EntryDelete(s: State, s': State, c: Config, h: string)
    requires DeleteStep(s, s', c) && EntryInv(s, h)
    ensures EntryInv(s', h)
  {
    YoungSpelled(c.now, c.grace);
    hide WithinGrace, IsYoung;
  }

  lemma EntryBeside(s: State, s': State, h: string)
    requires FileStep(s, s') || ManifestStep(s, s')
    requires EntryInv(s, h) && !Writes(s, s', h)
    ensures EntryInv(s', h)
  {
    OthersKeep(s, s');
    if x, obj :| WriteInfo(s, s', x, obj) {
      assert x != h;
    } else if x, url :| EnterIndex(s, s', x, url) {
      assert forall u :: (h, u) in s.pending && x != h ==> (h, u) in s'.pending;
    }
  }

  lemma EntryStep(s: State, s': State, c: Config, h: string)
    requires Step(s, s', c) && EntryInv(s, h) && !Writes(s, s', h)
    ensures EntryInv(s', h)
  {
    hide ReadStep, DeleteStep, FileStep, ManifestStep, Writes;
    if ReadStep(s, s', c) {
      ReadsEarly(s, s', c);
    } else if DeleteStep(s, s', c) {
      EntryDelete(s, s', c, h);
    } else if !Stop(s, s') {
      EntryBeside(s, s', h);
    }
  }

  lemma {:induction false} EntryOn(states: seq<State>, c: Config, h: string, n: int)
    requires Steps(states, c) && NotWritten(states, h) && 0 <= n < |states| && EntryInv(states[0], h)
    ensures EntryInv(states[n], h)
    decreases n
  {
    hide Step, EntryInv, Writes;
    if n > 0 {
      EntryOn(states, c, h, n - 1);
      EntryStep(states[n - 1], states[n], c, h);
    }
  }

  lemma Unindexed(s: State, c: Config, h: string, url: string) returns (states: seq<State>)
    requires s.phase.DeletingInfos? && h in s.phase.unindexed && h in s.box.narinfos
    requires forall u :: (h, u) in s.pending <==> u == url
    ensures states != [] && Steps(states, c) && states[0] == s && NotWritten(states, h)
    ensures EntryLost(states[|states| - 1], h)
  {
    hide Step, SafeComponent;
    var s1 := s.(box := s.box.(index := s.box.index[h := url]), pending := s.pending - {(h, url)});
    var DeletingInfos(live, kill, unindexed) := s.phase;
    var s2 := s1.(box := s1.box.(index := s1.box.index - {h}), phase := DeletingInfos(live, kill, unindexed - {h}));
    assert EnterIndex(s, s1, h, url);
    assert Unindex(s1, s2, h);
    TwoSteps(s, s1, s2, c);
    states := [s, s1, s2];
    assert (h, url) in s.pending && (h, url) !in s1.pending;
    assert !Writes(s, s1, h);
    assert !Writes(s1, s2, h);
  }

  lemma TwoSteps(s: State, s1: State, s2: State, c: Config)
    requires FileStep(s, s1) && DeleteStep(s1, s2, c)
    ensures Steps([s, s1, s2], c)
  {
    hide FileStep, DeleteStep;
  }

  /**
   * A narinfo written while the sweep deletes keeps its index entry, however things go
   * on, exactly unless the sweep has removed the file and not yet the entry: then the
   * entry just made may go in its place, and the file is on disk unlisted.
   */
  lemma EntrySafeIff(s: State, s': State, c: Config, h: string, obj: Object)
    requires s.phase.DeletingInfos? && WriteInfo(s, s', h, obj) && forall u :: (h, u) !in s.pending
    ensures EntrySafe(s', c, h) <==> h !in s.phase.unindexed
  {
    hide Steps, NotWritten, SafeComponent;
    var url := obj.body.info.value.url;
    assert (h, url) in s'.pending;
    if h in s.phase.unindexed {
      var states := Unindexed(s', c, h, url);
    } else {
      forall states: seq<State> | states != [] && Steps(states, c) && states[0] == s' && NotWritten(states, h)
        ensures !EntryLost(states[|states| - 1], h)
      {
        EntryOn(states, c, h, |states| - 1);
      }
    }
  }
}
