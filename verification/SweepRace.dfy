/**
 * The remote sweep against publishers that write while it runs, request by
 * request, with no locks. A state is the bucket plus what the sweep has learned;
 * a step is one request of either side. The sweep may stop at any point.
 */
module SweepRace {
  import opened Wrappers
  import opened Retention
  import opened Keys
  import opened Objects
  import opened RemoteGc

  type Listed = map<string, Time>

  datatype Phase =
    /** Pages of the listing arrive one by one; `done` is the part of the key space already covered. */
    | ListingPages(done: iset<string>, seen: Listed)
    /** Objects under `roots/` are read in any order; `gens` grows in completion order. */
    | ReadingRoots(seen: Listed, todo: set<string>, gens: seq<Gen>, manifests: map<string, Manifest>)
    | ReadingInfos(seen: Listed, keep: set<string>, mark: set<string>, todo: set<string>, live: set<string>)
    /** What is still to be deleted, in any order. */
    | Deleting(kill: set<string>)
    | Ended

  datatype State = State(bucket: Bucket, phase: Phase)

  datatype Config = Config(policy: Policy, now: Time, grace: Duration)

  ghost predicate Init(s: State) {
    s.phase == ListingPages(iset{}, map[])
  }

  // --- steps ---------------------------------------------------------------

  ghost predicate Put(s: State, s': State, key: string, obj: Object) {
    s' == s.(bucket := s.bucket[key := obj])
  }

  ghost function PageOf(b: Bucket, page: iset<string>): Listed {
    map key | key in b && key in page :: b[key].time
  }

  ghost predicate ReadPage(s: State, s': State, page: iset<string>) {
    && s.phase.ListingPages? && s.phase.done !! page
    && s' == s.(phase := ListingPages(s.phase.done + page, s.phase.seen + PageOf(s.bucket, page)))
  }

  ghost predicate FinishListing(s: State, s': State) {
    && s.phase.ListingPages? && (forall key :: key in s.phase.done)
    && s' == s.(phase := ReadingRoots(s.phase.seen, set key | key in s.phase.seen && Classify(key).RootObject?, [],
      map[]))
  }

  ghost predicate ReadRoot(s: State, s': State, key: string) {
    && s.phase.ReadingRoots? && key in s.phase.todo
    && var ReadingRoots(seen, todo, gens, manifests) := s.phase;
    s' == s.(phase :=
      if IsManifest(s.bucket, key) then
        var m := s.bucket[key].body.manifest.value;
        ReadingRoots(seen, todo - {key}, gens + [ToGen(key, m)], manifests[key := m])
      else
        ReadingRoots(seen, todo - {key}, gens, manifests))
  }

  ghost function MarkOf(manifests: map<string, Manifest>, keep: set<string>): set<string> {
    set key, h | key in keep && key in manifests && h in Hashes(manifests[key]) :: h
  }

  ghost predicate FinishRoots(s: State, s': State, c: Config) {
    && s.phase.ReadingRoots? && s.phase.todo == {}
    && var keep := Retain(s.phase.gens, c.policy, c.now);
    var mark := MarkOf(s.phase.manifests, keep);
    s' == s.(phase := ReadingInfos(s.phase.seen, keep, mark, set h | h in mark && InfoKey(h) in s.phase.seen, {}))
  }

  ghost predicate ReadInfo(s: State, s': State, h: string) {
    && s.phase.ReadingInfos? && h in s.phase.todo
    && (InfoKey(h) in s.bucket ==> s.bucket[InfoKey(h)].body.utf8)
    && var ReadingInfos(seen, keep, mark, todo, live) := s.phase;
    var url := match UrlIn(s.bucket, h) case Some(u) => {u} case None => {};
    s' == s.(phase := ReadingInfos(seen, keep, mark, todo - {h}, live + url))
  }

  ghost predicate FinishInfos(s: State, s': State, c: Config) {
    && s.phase.ReadingInfos? && s.phase.todo == {}
    && s' == s.(phase := Deleting(Condemned(s.phase.seen, s.phase.keep, s.phase.mark, s.phase.live, c.now, c.grace)))
  }

  ghost predicate Delete(s: State, s': State, key: string) {
    && s.phase.Deleting? && key in s.phase.kill
    && s' == State(s.bucket - {key}, Deleting(s.phase.kill - {key}))
  }

  /** A failed request, a narinfo that is not text, a crash, or the end of the deletions. */
  ghost predicate Stop(s: State, s': State) {
    s' == s.(phase := Ended)
  }

  ghost predicate SweepStep(s: State, s': State, c: Config) {
    || (exists page :: ReadPage(s, s', page))
    || FinishListing(s, s')
    || (exists key :: ReadRoot(s, s', key))
    || FinishRoots(s, s', c)
    || (exists h :: ReadInfo(s, s', h))
    || FinishInfos(s, s', c)
    || (exists key :: Delete(s, s', key))
    || Stop(s, s')
  }

  ghost predicate PutStep(s: State, s': State) {
    exists key, obj :: Put(s, s', key, obj)
  }

  ghost predicate Run(states: seq<State>, c: Config) {
    && states != [] && Init(states[0])
    && forall n :: 0 <= n < |states| - 1 ==> SweepStep(states[n], states[n + 1], c) || PutStep(states[n], states[n + 1])
  }

  // --- the generation being published --------------------------------------

  /** The objects of a generation: what every writer of one of these keys writes there. */
  type Want = map<string, Body>

  ghost predicate Agrees(s: State, want: Want) {
    forall key :: key in want && key in s.bucket ==> s.bucket[key].body == want[key]
  }

  /** Every writer that touches a wanted key writes the wanted object. */
  ghost predicate AgreedWrites(states: seq<State>, want: Want) {
    && states != [] && Agrees(states[0], want)
    && forall n, key, obj :: 0 <= n < |states| - 1 && Put(states[n], states[n + 1], key, obj) && key in want ==>
      obj.body == want[key]
  }

  /** While the sweep lists, any copy of the object was put within the grace window: no old one is there to be seen. */
  ghost predicate Fresh(states: seq<State>, c: Config, key: string) {
    forall n :: 0 <= n < |states| && states[n].phase.ListingPages? && key in states[n].bucket ==>
      WithinGrace(c.now, states[n].bucket[key].time, c.grace)
  }

  /** A manifest that was there before the sweep and that the sweep decides to retain. */
  ghost predicate Retained(states: seq<State>, want: Want, key: string) {
    && states != [] && key in want && key in states[0].bucket && want[key].manifest.Some? && Classify(key).RootObject?
    && forall n :: 0 <= n < |states| && states[n].phase.ReadingInfos? ==> key in states[n].phase.keep
  }

  /** A narinfo that was there before the sweep and that a retained manifest lists. */
  ghost predicate Marked(states: seq<State>, want: Want, h: string) {
    && states != [] && InfoKey(h) in want && InfoKey(h) in states[0].bucket
    && want[InfoKey(h)].utf8 && want[InfoKey(h)].info.Some?
    && exists key :: Retained(states, want, key) && h in Hashes(want[key].manifest.value)
  }

  ghost function WantedUrl(want: Want, h: string): string
    requires InfoKey(h) in want && want[InfoKey(h)].info.Some?
  {
    want[InfoKey(h)].info.value.url
  }

  /** Each object is fresh, or a retained manifest accounts for it. */
  ghost predicate Protected(states: seq<State>, want: Want, c: Config, key: string) {
    || Fresh(states, c, key)
    || Retained(states, want, key)
    || (exists h :: key == InfoKey(h) && Marked(states, want, h))
    || (exists h :: Marked(states, want, h) && key == WantedUrl(want, h) && Classify(key).NarObject?)
  }

  // --- invariants ----------------------------------------------------------

  /** The sweep has nothing on record that would let it delete a fresh key. */
  ghost predicate FreshInv(s: State, c: Config, key: string) {
    match s.phase
    case ListingPages(_, seen) => key in seen ==> WithinGrace(c.now, seen[key], c.grace)
    case ReadingRoots(seen, _, _, _) => key in seen ==> WithinGrace(c.now, seen[key], c.grace)
    case ReadingInfos(seen, _, _, _, _) => key in seen ==> WithinGrace(c.now, seen[key], c.grace)
    case Deleting(kill) => key !in kill
    case Ended => true
  }

  /** The sweep sees, reads and keeps a retained manifest. */
  ghost predicate RetainedInv(s: State, key: string, m: Manifest) {
    match s.phase
    case ListingPages(done, seen) => key in done ==> key in seen
    case ReadingRoots(seen, todo, _, manifests) => key in seen
      && (key in todo || (key in manifests && manifests[key] == m))
    case ReadingInfos(_, keep, mark, _, _) => key in keep && Hashes(m) <= mark
    case Deleting(kill) => key !in kill
    case Ended => true
  }

  /** The sweep sees and marks a narinfo listed by a retained manifest, and picks up its NAR. */
  ghost predicate MarkedInv(s: State, h: string, url: string) {
    match s.phase
    case ListingPages(done, seen) => InfoKey(h) in done ==> InfoKey(h) in seen
    case ReadingRoots(seen, _, _, _) => InfoKey(h) in seen
    case ReadingInfos(_, _, mark, todo, live) => h in mark && (h in todo || url in live)
    case Deleting(kill) => InfoKey(h) !in kill && (Classify(url).NarObject? ==> url !in kill)
    case Ended => true
  }

  ghost predicate Spared(s: State, key: string) {
    s.phase.Deleting? ==> key !in s.phase.kill
  }

  lemma FreshStep(s: State, s': State, c: Config, key: string)
    requires SweepStep(s, s', c) || PutStep(s, s')
    requires FreshInv(s, c, key)
    requires s.phase.ListingPages? && key in s.bucket ==> WithinGrace(c.now, s.bucket[key].time, c.grace)
    ensures FreshInv(s', c, key)
  {
    YoungSpelled(c.now, c.grace);
    hide WithinGrace, IsYoung;
  }

  lemma RetainedStep(s: State, s': State, c: Config, key: string, m: Manifest)
    requires SweepStep(s, s', c) || PutStep(s, s')
    requires Classify(key).RootObject?
    requires RetainedInv(s, key, m)
    requires key in s.bucket && s.bucket[key].body.manifest == Some(m)
    requires s'.phase.ReadingInfos? ==> key in s'.phase.keep
    ensures RetainedInv(s', key, m)
  {
    if FinishRoots(s, s', c) {
      assert forall h :: h in Hashes(m) ==> h in MarkOf(s.phase.manifests, s'.phase.keep);
    }
  }

  lemma MarkedStep(s: State, s': State, c: Config, h: string, url: string, key: string, m: Manifest)
    requires SweepStep(s, s', c) || PutStep(s, s')
    requires MarkedInv(s, h, url)
    requires RetainedInv(s', key, m) && h in Hashes(m)
    requires UrlIn(s.bucket, h) == Some(url)
    ensures MarkedInv(s', h, url)
  {
    assert Classify(InfoKey(h)) == InfoObject(h) by {
      var path :| path in m.closure && StoreHashOf(path) == h;
      ClassifyInfo(h, InfoKey(h));
    }
  }

  /** Everything known about the wanted objects at one point of the run. */
  ghost predicate Inv(states: seq<State>, want: Want, c: Config, n: int)
    requires 0 <= n < |states|
  {
    var s := states[n];
    && Agrees(s, want)
    && (forall key :: key in want && Fresh(states, c, key) ==> FreshInv(s, c, key))
    && (forall key :: Retained(states, want, key) ==> key in s.bucket && RetainedInv(s, key, want[key].manifest.value))
    && (forall h :: Marked(states, want, h) ==> InfoKey(h) in s.bucket && MarkedInv(s, h, WantedUrl(want, h)))
  }

  lemma ProtectedSpared(states: seq<State>, want: Want, c: Config, n: int, key: string)
    requires 0 <= n < |states| && Inv(states, want, c, n)
    requires key in want && Protected(states, want, c, key)
    ensures Spared(states[n], key)
  {
  }

  /** A step deletes only what is on the kill list, and changes a wanted object only to itself. */
  lemma StepKeeps(states: seq<State>, want: Want, c: Config, n: int, key: string)
    requires Run(states, c) && AgreedWrites(states, want)
    requires 0 <= n < |states| - 1
    requires Agrees(states[n], want)
    requires key in want && key in states[n].bucket && Spared(states[n], key)
    ensures key in states[n + 1].bucket
  {
    var s, s' := states[n], states[n + 1];
    assert SweepStep(s, s', c) || PutStep(s, s');
  }

  lemma AgreesStep(states: seq<State>, want: Want, c: Config, n: int)
    requires Run(states, c) && AgreedWrites(states, want)
    requires 0 <= n < |states| - 1 && Agrees(states[n], want)
    ensures Agrees(states[n + 1], want)
  {
    var s, s' := states[n], states[n + 1];
    if PutStep(s, s') {
      var key, obj :| Put(s, s', key, obj);
    }
  }

  lemma {:induction false} InvHolds(states: seq<State>, want: Want, c: Config, n: int)
    requires Run(states, c) && AgreedWrites(states, want)
    requires 0 <= n < |states|
    ensures Inv(states, want, c, n)
    decreases n
  {
    if n == 0 {
      InvStart(states, want, c);
    }
    hide Run, Inv, AgreedWrites;
    if n > 0 {
      InvHolds(states, want, c, n - 1);
      InvStep(states, want, c, n - 1);
    }
  }

  lemma InvStart(states: seq<State>, want: Want, c: Config)
    requires Run(states, c) && AgreedWrites(states, want)
    ensures Inv(states, want, c, 0)
  {
    hide Fresh;
  }

  lemma InvStep(states: seq<State>, want: Want, c: Config, n: int)
    requires Run(states, c) && AgreedWrites(states, want)
    requires 0 <= n < |states| - 1 && Inv(states, want, c, n)
    ensures Inv(states, want, c, n + 1)
  {
    hide FreshInv, RetainedInv, MarkedInv, SweepStep, PutStep, AgreedWrites, Spared, WithinGrace;
    var s, s' := states[n], states[n + 1];
    assert SweepStep(s, s', c) || PutStep(s, s');
    AgreesStep(states, want, c, n);
    forall key | key in want && Fresh(states, c, key)
      ensures FreshInv(s', c, key)
    {
      FreshStep(s, s', c, key);
    }
    forall key | Retained(states, want, key)
      ensures key in s'.bucket && RetainedInv(s', key, want[key].manifest.value)
    {
      ProtectedSpared(states, want, c, n, key);
      StepKeeps(states, want, c, n, key);
      RetainedStep(s, s', c, key, want[key].manifest.value);
    }
    forall h | Marked(states, want, h)
      ensures InfoKey(h) in s'.bucket && MarkedInv(s', h, WantedUrl(want, h))
    {
      ProtectedSpared(states, want, c, n, InfoKey(h));
      StepKeeps(states, want, c, n, InfoKey(h));
      var key :| Retained(states, want, key) && h in Hashes(want[key].manifest.value);
      MarkedStep(s, s', c, h, WantedUrl(want, h), key, want[key].manifest.value);
    }
  }

  // --- the theorem ---------------------------------------------------------

  ghost predicate Complete(s: State, want: Want) {
    forall key :: key in want ==> key in s.bucket && s.bucket[key].body == want[key]
  }

  lemma ProtectedStep(states: seq<State>, want: Want, c: Config, key: string, n: int)
    requires Run(states, c) && AgreedWrites(states, want)
    requires 0 <= n < |states| - 1
    requires key in want && Protected(states, want, c, key)
    requires key in states[n].bucket
    ensures key in states[n + 1].bucket
  {
    InvHolds(states, want, c, n);
    ProtectedSpared(states, want, c, n, key);
    StepKeeps(states, want, c, n, key);
  }

  /** Once a protected object is in the bucket it stays there. */
  lemma {:induction false} ProtectedStays(states: seq<State>, want: Want, c: Config, key: string, i: int, n: int)
    requires Run(states, c) && AgreedWrites(states, want)
    requires 0 <= i <= n < |states|
    requires key in want && Protected(states, want, c, key)
    requires key in states[i].bucket
    ensures key in states[n].bucket
    decreases n
  {
    if i < n {
      ProtectedStays(states, want, c, key, i, n - 1);
      ProtectedStep(states, want, c, key, n - 1);
    }
  }

  /**
   * Every interleaving of a sweep with publishers: if each object of a generation
   * was put at some point and is fresh or accounted for by a retained manifest,
   * the generation is complete from then on, wherever the sweep is or stopped.
   */
  lemma SweepSparesGeneration(states: seq<State>, want: Want, c: Config, n: int)
    requires Run(states, c) && AgreedWrites(states, want)
    requires 0 <= n < |states|
    requires forall key :: key in want ==> Protected(states, want, c, key)
    requires forall key :: key in want ==> exists i :: 0 <= i <= n && key in states[i].bucket
    ensures Complete(states[n], want)
  {
    InvHolds(states, want, c, n);
    forall key | key in want
      ensures key in states[n].bucket
    {
      var i :| 0 <= i <= n && key in states[i].bucket;
      ProtectedStays(states, want, c, key, i, n);
    }
  }

  /** The wanted objects make up a generation: the manifest, and for each closure path its narinfo and its NAR. */
  ghost predicate WantsGeneration(want: Want, key: string) {
    && key in want && want[key].manifest.Some?
    && forall h :: h in Hashes(want[key].manifest.value) ==>
         InfoKey(h) in want && want[InfoKey(h)].utf8 && want[InfoKey(h)].info.Some? && WantedUrl(want, h) in want
  }

  /** What a client then sees: the generation is listed and every path of its closure can be fetched. */
  lemma GenerationUsable(s: State, want: Want, key: string, path: string)
    requires Complete(s, want) && WantsGeneration(want, key)
    requires path in want[key].manifest.value.closure
    ensures IsManifest(s.bucket, key) && s.bucket[key].body.manifest == want[key].manifest
    ensures Servable(s.bucket, StoreHashOf(path))
  {
    assert StoreHashOf(path) in Hashes(want[key].manifest.value);
  }

  // --- left alone, the machine is the sweep of the specification ------------

  ghost function OrderOf(gens: seq<Gen>): seq<string> {
    seq(|gens|, k requires 0 <= k < |gens| => gens[k].id)
  }

  /** The manifests among the keys `read`, as they completed. */
  ghost predicate RootsRead(b: Bucket, read: set<string>, gens: seq<Gen>, manifests: map<string, Manifest>) {
    var order := OrderOf(gens);
    && (forall j, k :: 0 <= j < k < |order| ==> order[j] != order[k])
    && (forall key :: key in order <==> key in read && IsManifest(b, key))
    && (forall k :: 0 <= k < |gens| ==>
      IsManifest(b, order[k]) && gens[k] == ToGen(order[k], b[order[k]].body.manifest.value))
    && (forall key :: key in manifests <==> key in order)
    && (forall key :: key in manifests ==> IsManifest(b, key) && manifests[key] == b[key].body.manifest.value)
  }

  ghost function RootsOf(b: Bucket): set<string> {
    set key | key in b && Classify(key).RootObject?
  }

  ghost predicate InfosRead(b: Bucket, c: Config, keep: set<string>, mark: set<string>, todo: set<string>,
    live: set<string>, order: seq<string>) {
    && ManifestOrder(b, order)
    && keep == Keep(b, order, c.policy, c.now) && mark == Mark(b, keep)
    && (forall h :: h in todo ==> h in mark)
    && (forall u :: u in live <==> exists h :: h in mark && h !in todo && UrlIn(b, h) == Some(u))
  }

  ghost predicate PartlyDeleted(b: Bucket, c: Config, s: State, kill: set<string>, order: seq<string>) {
    && ManifestOrder(b, order)
    && kill <= Kill(b, order, c.policy, c.now, c.grace)
    && s.bucket == b - (Kill(b, order, c.policy, c.now, c.grace) - kill)
  }

  ghost predicate AloneInv(b: Bucket, c: Config, s: State) {
    match s.phase
    case ListingPages(done, seen) => s.bucket == b && seen == PageOf(b, done)
    case ReadingRoots(seen, todo, gens, manifests) =>
      s.bucket == b && seen == Listing(b) && todo <= RootsOf(b) && RootsRead(b, RootsOf(b) - todo, gens, manifests)
    case ReadingInfos(seen, keep, mark, todo, live) =>
      s.bucket == b && seen == Listing(b) && exists order :: InfosRead(b, c, keep, mark, todo, live, order)
    case Deleting(kill) => exists order :: PartlyDeleted(b, c, s, kill, order)
    case Ended => s.bucket == b || exists kill, order :: PartlyDeleted(b, c, s, kill, order)
  }

  lemma AloneReadRoot(b: Bucket, c: Config, s: State, s': State, key: string)
    requires AloneInv(b, c, s) && ReadRoot(s, s', key)
    ensures AloneInv(b, c, s')
  {
    hide RootsRead, ToGen, Classify;
    var ReadingRoots(_, todo, gens, manifests) := s.phase;
    assert RootsOf(b) - (todo - {key}) == (RootsOf(b) - todo) + {key};
    RootsReadMore(b, RootsOf(b) - todo, gens, manifests, key);
  }

  lemma RootsReadMore(b: Bucket, read: set<string>, gens: seq<Gen>, manifests: map<string, Manifest>, key: string)
    requires RootsRead(b, read, gens, manifests) && key !in read
    ensures !IsManifest(b, key) ==> RootsRead(b, read + {key}, gens, manifests)
    ensures IsManifest(b, key) ==>
      var m := b[key].body.manifest.value;
      RootsRead(b, read + {key}, gens + [ToGen(key, m)], manifests[key := m])
  {
    if IsManifest(b, key) {
      var m := b[key].body.manifest.value;
      assert OrderOf(gens + [ToGen(key, m)]) == OrderOf(gens) + [key];
    }
  }

  lemma AloneFinishRoots(b: Bucket, c: Config, s: State, s': State)
    requires AloneInv(b, c, s) && FinishRoots(s, s', c)
    ensures AloneInv(b, c, s')
  {
    var order := OrderOf(s.phase.gens);
    assert ManifestOrder(b, order);
    assert s.phase.gens == Gens(b, order);
    var keep := s'.phase.keep;
    forall h
      ensures h in s'.phase.mark <==> h in Mark(b, keep)
    {
      if h in Mark(b, keep) {
        var key :| key in keep && IsManifest(b, key) && h in Hashes(b[key].body.manifest.value);
        KeepMember(b, order, c.policy, c.now, key);
        assert key in s.phase.manifests;
      }
      if h in s'.phase.mark {
        var key :| key in keep && key in s.phase.manifests && h in Hashes(s.phase.manifests[key]);
        assert IsManifest(b, key);
      }
    }
    assert s'.phase.mark == Mark(b, keep);
    assert InfosRead(b, c, keep, s'.phase.mark, s'.phase.todo, {}, order) by {
      forall h | h in s'.phase.mark && h !in s'.phase.todo
        ensures UrlIn(b, h).None?
      {
      }
    }
  }

  lemma AloneReadInfo(b: Bucket, c: Config, s: State, s': State, h: string)
    requires AloneInv(b, c, s) && ReadInfo(s, s', h)
    ensures AloneInv(b, c, s')
  {
    hide UrlIn, Keep, Mark, ManifestOrder;
    var ReadingInfos(_, keep, mark, todo, live) := s.phase;
    var order :| InfosRead(b, c, keep, mark, todo, live, order);
    assert InfosRead(b, c, keep, mark, s'.phase.todo, s'.phase.live, order);
  }

  lemma AloneFinishInfos(b: Bucket, c: Config, s: State, s': State)
    requires AloneInv(b, c, s) && FinishInfos(s, s', c)
    ensures AloneInv(b, c, s')
  {
    var ReadingInfos(_, keep, mark, todo, live) := s.phase;
    var order :| InfosRead(b, c, keep, mark, todo, live, order);
    assert live == Live(b, mark);
    assert PartlyDeleted(b, c, s', s'.phase.kill, order);
  }

  lemma AloneDelete(b: Bucket, c: Config, s: State, s': State, key: string)
    requires AloneInv(b, c, s) && Delete(s, s', key)
    ensures AloneInv(b, c, s')
  {
    var order :| PartlyDeleted(b, c, s, s.phase.kill, order);
    assert PartlyDeleted(b, c, s', s'.phase.kill, order);
  }

  lemma AloneStep(b: Bucket, c: Config, s: State, s': State)
    requires AloneInv(b, c, s) && SweepStep(s, s', c)
    ensures AloneInv(b, c, s')
  {
    if key :| ReadRoot(s, s', key) {
      AloneReadRoot(b, c, s, s', key);
    } else if FinishRoots(s, s', c) {
      AloneFinishRoots(b, c, s, s');
    } else if h :| ReadInfo(s, s', h) {
      AloneReadInfo(b, c, s, s', h);
    } else if FinishInfos(s, s', c) {
      AloneFinishInfos(b, c, s, s');
    } else if key :| Delete(s, s', key) {
      AloneDelete(b, c, s, s', key);
    } else if FinishListing(s, s') {
      assert PageOf(b, s.phase.done) == Listing(b);
    } else if Stop(s, s') {
      AloneStop(b, c, s, s');
    }
  }

  lemma AloneStop(b: Bucket, c: Config, s: State, s': State)
    requires AloneInv(b, c, s) && Stop(s, s')
    ensures AloneInv(b, c, s')
  {
    if s.phase.Deleting? {
      var order :| PartlyDeleted(b, c, s, s.phase.kill, order);
      assert PartlyDeleted(b, c, s', s.phase.kill, order);
    } else if s.phase.Ended? && s.bucket != b {
      var kill, order :| PartlyDeleted(b, c, s, kill, order);
      assert PartlyDeleted(b, c, s', kill, order);
    }
  }

  /**
   * With no publisher around, every run of the machine, whatever pages and reads
   * it happens to take in which order, deletes part of the kill list of the
   * specification for some reading order, and nothing else.
   */
  lemma {:induction false} SweepAlone(states: seq<State>, c: Config, n: int)
    requires states != [] && Init(states[0]) && 0 <= n < |states|
    requires forall k :: 0 <= k < |states| - 1 ==> SweepStep(states[k], states[k + 1], c)
    ensures AloneInv(states[0].bucket, c, states[n])
    ensures states[n].bucket == states[0].bucket || exists kill, order ::
      PartlyDeleted(states[0].bucket, c, states[n], kill, order)
    decreases n
  {
    if n > 0 {
      SweepAlone(states, c, n - 1);
      AloneStep(states[0].bucket, c, states[n - 1], states[n]);
    }
  }
}
