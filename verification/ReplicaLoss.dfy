/**
 * What can be lost, shown by runs that get there from an empty box and an empty
 * remote: a push whose marker name another generation shares, and a push of
 * different bytes under a generation already mirrored.
 */
module ReplicaLoss {
  import opened Wrappers
  import opened Retention
  import opened Keys
  import opened Objects
  import opened BoxStore
  import opened BoxGc
  import opened Ingest
  import opened Mirror
  import opened MirrorUp
  import opened ReplicaRun

  // --- runs over a set of names ---------------------------------------------

  ghost predicate Named(s: World, ids: set<GenId>) {
    WellKeyed(s.box) && ManifestsKeyed(s.remote) && s.box.manifests.Keys <= ids
  }

  /** A run that knows only these generations; nothing is said about their markers. */
  ghost predicate NamedRun(states: seq<World>, ids: set<GenId>) {
    && states != [] && StoreOk(states[0].box)
    && (forall n :: 0 <= n < |states| ==> Named(states[n], ids))
    && (forall n :: 0 <= n < |states| - 1 ==> Step(states[n], states[n + 1]))
  }

  /** Every guarded push stays on the box until the remote has held it. */
  ghost predicate KeepsOnlyCopies(states: seq<World>) {
    forall i, n, id, body ::
      0 <= i <= n < |states| && OnBox(states[i], id, body) && Guarded(states[i].box, id) && body.manifest.Some? ==>
        NotPushedFrom(states, i, id) ==> OnBox(states[n], id, body) || WasOnRemote(states, n, id, body)
  }

  lemma NamedIsRun(states: seq<World>, ids: set<GenId>)
    requires NamedRun(states, ids) && DistinctMarkers(ids)
    ensures Run(states)
  {
    forall n | 0 <= n < |states|
      ensures WellNamed(states[n])
    {
      assert Named(states[n], ids);
    }
  }

  lemma NamedOn(states: seq<World>, s: World, ids: set<GenId>)
    requires NamedRun(states, ids) && Step(states[|states| - 1], s) && Named(s, ids)
    ensures NamedRun(states + [s], ids)
  {
    hide Step, Named, StoreOk;
    var all := states + [s];
    forall n | 0 <= n < |all| - 1
      ensures Step(all[n], all[n + 1])
    {
      if n < |states| - 1 {
        assert Step(states[n], states[n + 1]);
      }
    }
  }

  // --- a generation of one path ---------------------------------------------

  const PATH := "/nix/store/a"

  function Info0(): Object {
    Object(Body([], true, None, Some(Info(PATH, "nar/a"))), 0)
  }

  function Nar0(): Object {
    Object(Body([], false, None, None), 0)
  }

  function Made(id: GenId, bytes: seq<bv8>): Object {
    Object(Body(bytes, true, Some(Manifest(id.0, id.1, "main", "pkgs", 0, [PATH])), None), 0)
  }

  lemma PathHash()
    ensures StoreHashOf(PATH) == "a"
  {
    assert AfterLast("/nix/store/", '/') == "";
    assert PATH[..|PATH| - 1] == "/nix/store/";
  }

  /** The box once the path is on it. */
  function Stocked(): Box {
    Box(map["a" := Info0()], map["a" := Nar0()], map[], {}, {}, map["a" := "nar/a"])
  }

  lemma PathPushed(ids: set<GenId>) returns (states: seq<World>)
    ensures NamedRun(states, ids)
    ensures states[|states| - 1] == World(Stocked(), map[])
    ensures forall n :: 0 <= n < |states| ==> states[n].remote == map[]
  {
    var empty := World(Box(map[], map[], map[], {}, {}, map[]), map[]);
    var one := World(empty.box.(nars := map["a" := Nar0()]), map[]);
    var two := World(Stocked(), map[]);
    SafeA();
    PathHash();
    assert PushNar(empty, one, "a", Nar0());
    assert PushInfo(one, two, "a", Info0());
    hide PushNar, PushInfo, StoreHashOf, SafeComponent;
    assert Step(empty, one) && Step(one, two);
    hide Step;
    NoManifestsNamed(empty, ids);
    NoManifestsNamed(one, ids);
    NoManifestsNamed(two, ids);
    assert StoreOk(empty.box);
    hide Named, StoreOk;
    assert NamedRun([empty], ids);
    hide NamedRun;
    NamedOn([empty], one, ids);
    NamedOn([empty] + [one], two, ids);
    states := [empty] + [one] + [two];
  }

  lemma NoManifestsNamed(s: World, ids: set<GenId>)
    requires s.box.manifests == map[] && s.remote == map[]
    ensures Named(s, ids)
  {
  }

  lemma SafeA()
    ensures SafeComponent("a")
  {
  }

  // --- its steps --------------------------------------------------------------

  function AfterPush(box: Box, id: GenId, obj: Object): Box {
    box.(manifests := box.manifests[id := obj], localOrigin := box.localOrigin + {MarkerOf(id)})
  }

  lemma PushedOn(states: seq<World>, id: GenId, bytes: seq<bv8>, ids: set<GenId>)
    requires NamedRun(states, ids) && id in ids && SafeId(id)
    ensures
      var last := states[|states| - 1];
      NamedRun(states + [World(AfterPush(last.box, id, Made(id, bytes)), last.remote)], ids)
  {
    hide SafeComponent, MarkerOf, ManifestsKeyed;
    NamedLast(states, ids);
    hide NamedRun, Step;
    var last := states[|states| - 1];
    var s := World(AfterPush(last.box, id, Made(id, bytes)), last.remote);
    assert PushManifest(last, s, id, Made(id, bytes));
    PushedIsStep(last, s, id, Made(id, bytes));
    hide PushManifest;
    PushedNamed(last, id, bytes, ids);
    NamedOn(states, s, ids);
  }

  lemma PushedNamed(last: World, id: GenId, bytes: seq<bv8>, ids: set<GenId>)
    requires Named(last, ids) && id in ids && SafeId(id)
    ensures Named(World(AfterPush(last.box, id, Made(id, bytes)), last.remote), ids)
  {
    hide SafeComponent, MarkerOf, ManifestsKeyed;
    SafeNoSlash(id.0);
    var box := AfterPush(last.box, id, Made(id, bytes));
    assert box.manifests.Keys == last.box.manifests.Keys + {id};
  }

  lemma NamedLast(states: seq<World>, ids: set<GenId>)
    requires NamedRun(states, ids)
    ensures states != [] && Named(states[|states| - 1], ids)
  {
  }

  lemma PushedIsStep(s: World, s': World, id: GenId, obj: Object)
    requires PushManifest(s, s', id, obj)
    ensures Step(s, s')
  {
  }

  /** The remote once mirror-up has sent this generation, and nothing else. */
  function Sent(id: GenId, obj: Object): Bucket {
    map["nar/a" := Nar0()][InfoKey("a") := Info0()][KeyOf(id) := obj]
  }

  lemma SentSafe(id: GenId, obj: Object)
    ensures NoDangling(Sent(id, obj))
    ensures InfoKey("a") in Sent(id, obj) && "nar/a" in Sent(id, obj)
  {
    PutNarSafe(map[], "nar/a", Nar0());
    PutInfoSafe(map["nar/a" := Nar0()], "a", Info0());
    PutManifestSafe(map["nar/a" := Nar0()][InfoKey("a") := Info0()], id, obj);
  }

  lemma SentKeyed(id: GenId, bytes: seq<bv8>)
    requires SafeId(id)
    ensures ManifestsKeyed(Sent(id, Made(id, bytes)))
  {
    SafeNoSlash(id.0);
    ManifestKeyRoundTrip(id.0, id.1, KeyOf(id));
  }

  lemma SentApart(id: GenId, other: GenId, bytes: seq<bv8>)
    requires SafeId(id) && SafeId(other) && id != other
    ensures KeyOf(other) !in Sent(id, Made(id, bytes))
  {
    SafeNoSlash(id.0);
    SafeNoSlash(other.0);
    KeysDiffer(id, other);
    assert KeyOf(other)[0] == 'r';
  }

  function AfterUp(box: Box, id: GenId): Box {
    box.(mirrored := box.mirrored + {MarkerOf(id)})
  }

  lemma SentIsUp(box: Box, id: GenId, bytes: seq<bv8>)
    requires id in box.manifests && box.manifests[id] == Made(id, bytes) && Guarded(box, id)
    ensures UpRel(box, AfterUp(box, id), map[], Sent(id, Made(id, bytes)))
  {
    hide MarkerOf, KeyOf, StoreHashOf, NoDangling;
    PathHash();
    SentSafe(id, Made(id, bytes));
    var b := Sent(id, Made(id, bytes));
    assert OnRemote(box.manifests, b, id);
  }

  lemma SentOn(states: seq<World>, id: GenId, bytes: seq<bv8>, ids: set<GenId>)
    requires NamedRun(states, ids) && states[|states| - 1].remote == map[]
    requires
      var box := states[|states| - 1].box;
      id in box.manifests && box.manifests[id] == Made(id, bytes) && Guarded(box, id)
    ensures NamedRun(states + [World(AfterUp(states[|states| - 1].box, id), Sent(id, Made(id, bytes)))], ids)
  {
    hide MarkerOf, KeyOf, StoreHashOf, NoDangling, Sent, UpRel, SafeComponent, ManifestsKeyed;
    var last := states[|states| - 1];
    SentIsUp(last.box, id, bytes);
    SentKeyed(id, bytes);
    assert Named(last, ids);
    var s := World(AfterUp(last.box, id), Sent(id, Made(id, bytes)));
    assert ReplicaRun.UpStep(last, s);
    NamedOn(states, s, ids);
  }

  lemma EmptiedOn(states: seq<World>, ids: set<GenId>)
    requires NamedRun(states, ids)
    ensures NamedRun(states + [World(states[|states| - 1].box, map[])], ids)
  {
    var last := states[|states| - 1];
    assert Named(last, ids);
    assert RemoteChange(last, World(last.box, map[]));
    NamedOn(states, World(last.box, map[]), ids);
  }

  lemma DroppedOn(states: seq<World>, id: GenId, ids: set<GenId>)
    requires NamedRun(states, ids) && states[|states| - 1].remote == map[]
    requires SafeId(id) && !Guarded(states[|states| - 1].box, id)
    ensures NamedRun(states + [World(WithoutManifest(states[|states| - 1].box, id), map[])], ids)
  {
    hide MarkerOf, SafeComponent, DownRel;
    var last := states[|states| - 1];
    assert Named(last, ids);
    var s := World(WithoutManifest(last.box, id), map[]);
    DropUnguarded(last.box, id);
    assert DownStep(last, s);
    NamedOn(states, s, ids);
  }

  // --- shared markers -----------------------------------------------------------

  /**
   * Two generations with one marker name, both pushed; mirror-up sends one and so
   * marks both; the remote is emptied and mirror-down drops the other, which no
   * remote has ever held.
   */
  lemma SharedMarkerLoses(id: GenId, other: GenId, ids: set<GenId>) returns (states: seq<World>)
    requires id in ids && other in ids && SafeId(id) && SafeId(other)
    requires id != other && MarkerOf(id) == MarkerOf(other)
    ensures NamedRun(states, ids) && !KeepsOnlyCopies(states)
  {
    hide NamedRun, MarkerOf, KeyOf, Sent, SafeComponent;
    var start := PathPushed(ids);
    states := Doomed(start, id, other, ids);
    var i := |start|;
    var body := Made(id, []).body;
    Forgotten(start, states, id, other);
    assert OnBox(states[i], id, body) && Guarded(states[i].box, id);
    assert NotPushedFrom(states, i, id);
    assert !OnBox(states[i + 4], id, body) && !WasOnRemote(states, i + 4, id, body);
  }

  /** The five states after the path is on the box. */
  function Tail(id: GenId, other: GenId): seq<World> {
    var one := AfterPush(Stocked(), id, Made(id, []));
    var two := AfterPush(one, other, Made(other, []));
    var up := AfterUp(two, other);
    [World(one, map[]), World(two, map[]), World(up, Sent(other, Made(other, []))), World(up, map[]),
      World(WithoutManifest(up, id), map[])]
  }

  lemma Doomed(start: seq<World>, id: GenId, other: GenId, ids: set<GenId>) returns (states: seq<World>)
    requires id in ids && other in ids && SafeId(id) && SafeId(other)
    requires id != other && MarkerOf(id) == MarkerOf(other)
    requires NamedRun(start, ids) && start[|start| - 1] == World(Stocked(), map[])
    ensures states == start + Tail(id, other) && NamedRun(states, ids)
  {
    hide NamedRun, MarkerOf, KeyOf, Sent, SafeComponent;
    var tail := Tail(id, other);
    assert start != [] by {
      NotEmpty(start, ids);
    }
    PushedOn(start, id, [], ids);
    var s1 := start + [tail[0]];
    PushedOn(s1, other, [], ids);
    var s2 := s1 + [tail[1]];
    SentOn(s2, other, [], ids);
    var s3 := s2 + [tail[2]];
    EmptiedOn(s3, ids);
    var s4 := s3 + [tail[3]];
    DroppedOn(s4, id, ids);
    states := s4 + [tail[4]];
    assert states == start + tail;
  }

  lemma NotEmpty(states: seq<World>, ids: set<GenId>)
    requires NamedRun(states, ids)
    ensures states != []
  {
  }

  lemma Forgotten(start: seq<World>, states: seq<World>, id: GenId, other: GenId)
    requires states == start + Tail(id, other)
    requires SafeId(id) && SafeId(other) && id != other
    requires forall n :: 0 <= n < |start| ==> start[n].remote == map[]
    ensures NotPushedFrom(states, |start|, id)
    ensures !WasOnRemote(states, |states| - 1, id, Made(id, []).body)
  {
    SentApart(other, id, []);
    assert InfoKey("a") in Sent(other, Made(other, []));
    hide MarkerOf, KeyOf, Sent, SafeComponent;
    var i := |start|;
    assert forall k :: 0 <= k < 5 ==> states[i + k] == Tail(id, other)[k];
    forall n | i <= n < |states| - 1 && 0 <= n
      ensures !Pushes(states[n], states[n + 1], id)
    {
      assert n == i || n == i + 1 || n == i + 2 || n == i + 3;
      assert other in states[i + 1].box.manifests && other !in states[i].box.manifests;
      assert id !in states[i + 4].box.manifests;
      assert states[i + 2].remote != map[];
    }
    forall k | 0 <= k <= |states| - 1
      ensures !Holds(states[k].remote, id, Made(id, []).body)
    {
      assert k < i ==> states[k] == start[k];
    }
  }

  /**
   * Over all runs on these generations, the box never loses an only copy exactly
   * when no two of them share a marker name.
   */
  lemma MarkersDecide(ids: set<GenId>)
    requires forall id :: id in ids ==> SafeId(id)
    ensures (forall states :: NamedRun(states, ids) ==> KeepsOnlyCopies(states)) <==> DistinctMarkers(ids)
  {
    hide NamedRun, KeepsOnlyCopies, MarkerOf, SafeComponent;
    if DistinctMarkers(ids) {
      forall states | NamedRun(states, ids)
        ensures KeepsOnlyCopies(states)
      {
        DistinctKeeps(states, ids);
      }
    } else {
      var id, other :| id in ids && other in ids && MarkerOf(id) == MarkerOf(other) && id != other;
      var states := SharedMarkerLoses(id, other, ids);
    }
  }

  lemma DistinctKeeps(states: seq<World>, ids: set<GenId>)
    requires NamedRun(states, ids) && DistinctMarkers(ids)
    ensures KeepsOnlyCopies(states)
  {
    NamedIsRun(states, ids);
    hide Run, StoreOk, Step, Guarded, WasOnRemote, NotPushedFrom, DistinctMarkers;
    forall i, n, id, body |
      0 <= i <= n < |states| && OnBox(states[i], id, body) && Guarded(states[i].box, id) && body.manifest.Some?
      && NotPushedFrom(states, i, id)
      ensures OnBox(states[n], id, body) || WasOnRemote(states, n, id, body)
    {
      OnlyCopySafe(states, i, n, id, body);
    }
  }

  // --- different bytes under a mirrored name --------------------------------------

  /**
   * The unsafe side of `PushSafeIff` is reached by three steps, for any generation
   * and any two texts of its manifest: push, mirror-up, push again. And from there
   * the second text can be lost.
   */
  lemma RepushCanBeLost(id: GenId, v1: seq<bv8>, v2: seq<bv8>) returns (states: seq<World>)
    requires SafeId(id) && v1 != v2
    ensures Run(states) && StoreOk(states[0].box)
    ensures
      var last := states[|states| - 1];
      var body := Made(id, v2).body;
      && OnBox(last, id, body) && LocalOrigin(last.box, id) && Mirrored(last.box, id)
      && !WasOnRemote(states, |states| - 1, id, body)
      && exists more :: Continues(states, more, id) && !NotLost(states + more, id, body)
  {
    hide NamedRun, MarkerOf, KeyOf, Sent, SafeComponent, StoreOk, Run, Continues, NotLost;
    var ids := {id};
    var start := PathPushed(ids);
    states := Repushed(start, id, v1, v2);
    assert DistinctMarkers(ids);
    NamedIsRun(states, ids);
    StartOk(states, ids);
    NeverSent(start, states, id, v1, v2);
    UnguardedCanBeLost(states, id, Made(id, v2).body);
  }

  lemma StartOk(states: seq<World>, ids: set<GenId>)
    requires NamedRun(states, ids)
    ensures states != [] && StoreOk(states[0].box)
  {
  }

  function Repush(id: GenId, v1: seq<bv8>, v2: seq<bv8>): seq<World> {
    var one := AfterPush(Stocked(), id, Made(id, v1));
    var up := AfterUp(one, id);
    var sent := Sent(id, Made(id, v1));
    [World(one, map[]), World(up, sent), World(AfterPush(up, id, Made(id, v2)), sent)]
  }

  lemma Repushed(start: seq<World>, id: GenId, v1: seq<bv8>, v2: seq<bv8>) returns (states: seq<World>)
    requires SafeId(id) && NamedRun(start, {id}) && start[|start| - 1] == World(Stocked(), map[])
    ensures states == start + Repush(id, v1, v2) && NamedRun(states, {id})
  {
    hide NamedRun, MarkerOf, KeyOf, Sent, SafeComponent;
    NotEmpty(start, {id});
    var tail := Repush(id, v1, v2);
    PushedOn(start, id, v1, {id});
    var s1 := start + [tail[0]];
    SentOn(s1, id, v1, {id});
    var s2 := s1 + [tail[1]];
    PushedOn(s2, id, v2, {id});
    states := s2 + [tail[2]];
    assert states == start + tail;
  }

  lemma NeverSent(start: seq<World>, states: seq<World>, id: GenId, v1: seq<bv8>, v2: seq<bv8>)
    requires states == start + Repush(id, v1, v2) && v1 != v2
    requires forall n :: 0 <= n < |start| ==> start[n].remote == map[]
    ensures !WasOnRemote(states, |states| - 1, id, Made(id, v2).body)
  {
    hide MarkerOf, KeyOf;
    var i := |start|;
    assert forall k :: 0 <= k < 3 ==> states[i + k] == Repush(id, v1, v2)[k];
    forall k | 0 <= k <= |states| - 1
      ensures !Holds(states[k].remote, id, Made(id, v2).body)
    {
      assert k < i ==> states[k] == start[k];
      assert Sent(id, Made(id, v1))[KeyOf(id)] == Made(id, v1);
    }
  }
}
