/**
 * Mirror-up against the remote sweep: the requests of one generation's upload as steps
 * of the runs of `SweepRace`, and what the mirrored marker then means.
 */
module UpRace {
  import opened Wrappers
  import opened Retention
  import opened Keys
  import opened Objects
  import opened BoxStore
  import opened MirrorUp
  import opened RemoteGc
  import opened SweepRace
  import ReplicaLoss

  /** A path the remote is found to have at state `at`, or the two steps that upload it. */
  datatype Sent = Skipped(at: nat) | Uploaded(nar: nat, info: nat)

  ghost predicate PutAt(states: seq<State>, n: nat, key: string, body: Body) {
    n < |states| - 1 && exists obj :: Put(states[n], states[n + 1], key, obj) && obj.body == body
  }

  /** The requests mirror-up makes for this hash before state `upto`: none but the question, or NAR and then narinfo. */
  ghost predicate PathSent(states: seq<State>, box: Box, h: string, sent: Sent, upto: nat) {
    match sent
    case Skipped(at) => at <= upto < |states| && InfoKey(h) in states[at].bucket
    case Uploaded(nar, info) =>
      && nar < info < upto < |states| && Ready(box, h)
      && PutAt(states, nar, box.narinfos[h].body.info.value.url,
        box.nars[NarFile(box.narinfos[h].body.info.value.url).value].body)
      && PutAt(states, info, InfoKey(h), box.narinfos[h].body)
  }

  /** All requests of a generation, the manifest's put last: from state `upto` on it is marked mirrored. */
  ghost predicate AllSent(states: seq<State>, box: Box, id: GenId, m: Manifest, sent: map<string, Sent>, last: nat,
    upto: nat) {
    && last < upto < |states| && id in box.manifests && box.manifests[id].body.manifest == Some(m)
    && (forall h :: h in Hashes(m) ==> h in sent && PathSent(states, box, h, sent[h], last))
    && PutAt(states, last, KeyOf(id), box.manifests[id].body)
  }

  /** The generation's objects and no others: the manifest, and each path's narinfo and NAR. */
  ghost predicate WantsOnly(want: Want, id: GenId, m: Manifest) {
    && WantsGeneration(want, KeyOf(id)) && want[KeyOf(id)].manifest == Some(m)
    && forall key :: key in want ==>
         key == KeyOf(id) || exists h :: h in Hashes(m) && (key == InfoKey(h) || key == WantedUrl(want, h))
  }

  lemma PutThere(states: seq<State>, n: nat, key: string, body: Body)
    requires PutAt(states, n, key, body)
    ensures key in states[n + 1].bucket && states[n + 1].bucket[key].body == body
  {
  }

  /** At a path skipped, the narinfo was there; its NAR too, if no narinfo dangled. */
  lemma SkippedThere(states: seq<State>, want: Want, h: string, at: nat)
    requires at < |states| && Agrees(states[at], want) && NoDangling(states[at].bucket) && '/' !in h
    requires InfoKey(h) in states[at].bucket
    requires InfoKey(h) in want && want[InfoKey(h)].utf8 && want[InfoKey(h)].info.Some?
    ensures WantedUrl(want, h) in states[at].bucket
  {
    ClassifyInfo(h, InfoKey(h));
  }

  /** No question was answered from a bucket with a dangling narinfo. */
  ghost predicate SkipsSound(states: seq<State>, sent: map<string, Sent>) {
    forall h :: h in sent && sent[h].Skipped? && sent[h].at < |states| ==> NoDangling(states[sent[h].at].bucket)
  }

  /** By the time the marker is set, each of the path's objects has been on the remote. */
  lemma PathArrived(states: seq<State>, c: Config, box: Box, want: Want, h: string, sent: Sent, upto: nat)
    requires Run(states, c) && AgreedWrites(states, want) && '/' !in h
    requires PathSent(states, box, h, sent, upto)
    requires sent.Skipped? ==> NoDangling(states[sent.at].bucket)
    requires InfoKey(h) in want && want[InfoKey(h)].utf8 && want[InfoKey(h)].info.Some?
    ensures exists i :: 0 <= i <= upto && InfoKey(h) in states[i].bucket
    ensures exists i :: 0 <= i <= upto && WantedUrl(want, h) in states[i].bucket
  {
    hide Run, NoDangling, AgreedWrites, PutAt;
    match sent
    case Skipped(at) =>
      InvHolds(states, want, c, at);
      AgreesAt(states, want, c, at);
      SkippedThere(states, want, h, at);
    case Uploaded(nar, info) =>
      var url := box.narinfos[h].body.info.value.url;
      PutThere(states, nar, url, box.nars[NarFile(url).value].body);
      PutThere(states, info, InfoKey(h), box.narinfos[h].body);
      InvHolds(states, want, c, info + 1);
      AgreesAt(states, want, c, info + 1);
  }

  lemma AgreesAt(states: seq<State>, want: Want, c: Config, n: int)
    requires 0 <= n < |states| && Inv(states, want, c, n)
    ensures Agrees(states[n], want)
  {
  }

  /**
   * The mirrored marker beside a remote sweep: if each object of the generation, those
   * whose upload was skipped included, is fresh or accounted for by a manifest the
   * sweep retains, a marked generation is complete on the remote from then on.
   */
  lemma MarkedIsComplete(states: seq<State>, c: Config, box: Box, id: GenId, m: Manifest, want: Want,
    sent: map<string, Sent>, last: nat, upto: nat, n: int)
    requires Run(states, c) && AgreedWrites(states, want) && WantsOnly(want, id, m)
    requires AllSent(states, box, id, m, sent, last, upto) && SkipsSound(states, sent)
    requires forall key :: key in want ==> Protected(states, want, c, key)
    requires upto <= n < |states|
    ensures Complete(states[n], want)
  {
    hide Run, AgreedWrites, Protected, NoDangling, PathSent, KeyOf;
    forall key | key in want
      ensures exists i :: 0 <= i <= n && key in states[i].bucket
    {
      if key == KeyOf(id) {
        PutThere(states, last, KeyOf(id), box.manifests[id].body);
        assert key in states[last + 1].bucket;
      } else {
        var h :| h in Hashes(m) && (key == InfoKey(h) || key == WantedUrl(want, h));
        assert sent[h].Skipped? ==> sent[h].at < |states| by {
          SkipsInRange(states, box, h, sent[h], last);
        }
        PathArrived(states, c, box, want, h, sent[h], last);
      }
    }
    SweepSparesGeneration(states, want, c, n);
  }

  lemma SkipsInRange(states: seq<State>, box: Box, h: string, sent: Sent, upto: nat)
    requires PathSent(states, box, h, sent, upto)
    ensures sent.Skipped? ==> sent.at < |states|
  {
  }

  // --- a skipped upload the sweep takes away -------------------------------------------

  function Left(): Bucket {
    map["nar/a" := ReplicaLoss.Nar0()][InfoKey("a") := ReplicaLoss.Info0()]
  }

  /** The sweep of a remote without manifests, as far as its kill list. */
  ghost function ToKill(c: Config): seq<State> {
    var b := Left();
    var none: iset<string> := iset{};
    var all := iset key: string | key !in none;
    var seen := PageOf(b, all);
    [State(b, ListingPages(none, map[])),
     State(b, ListingPages(all, seen)),
     State(b, ReadingRoots(seen, {}, [], map[])),
     State(b, ReadingInfos(seen, {}, {}, {}, {})),
     State(b, Deleting(Condemned(seen, {}, {}, {}, c.now, c.grace)))]
  }

  lemma ToKillRun(c: Config)
    ensures Run(ToKill(c), c)
    ensures |ToKill(c)| == 5
    ensures var s := ToKill(c)[4]; s.bucket == Left() && s.phase.Deleting?
  {
    hide Condemned;
    var r := ToKill(c);
    var all := r[1].phase.done;
    assert r[0].phase.done + all == all && r[0].phase.seen + PageOf(Left(), all) == r[1].phase.seen;
    assert ReadPage(r[0], r[1], all);
    assert (set key | key in r[1].phase.seen && Classify(key).RootObject?) == {} by {
      NoRoots();
    }
    assert FinishListing(r[1], r[2]);
    assert Retain([], c.policy, c.now) == {};
    assert MarkOf(map[], {}) == {};
    NoneMarked(r[2].phase.seen);
    assert FinishRoots(r[2], r[3], c);
    assert FinishInfos(r[3], r[4], c);
  }

  lemma NoneMarked(seen: Listed)
    ensures (set h | h in MarkOf(map[], {}) && InfoKey(h) in seen) == {}
  {
  }

  lemma NoRoots()
    ensures forall key :: key in Left() ==> !Classify(key).RootObject?
    ensures Classify(InfoKey("a")) == InfoObject("a")
  {
    ClassifyInfo("a", InfoKey("a"));
    NarIsNotRoot("nar/a");
  }

  lemma OldIsCondemned(c: Config)
    requires !WithinGrace(c.now, 0, c.grace)
    ensures |ToKill(c)| == 5 && ToKill(c)[4].phase.Deleting? && InfoKey("a") in ToKill(c)[4].phase.kill
  {
    YoungSpelled(c.now, c.grace);
    hide WithinGrace, IsYoung;
    NoRoots();
  }

  /**
   * Mirror-up finds an old narinfo the sweep has already condemned, skips its upload,
   * puts the manifest and marks the generation; then the narinfo goes.
   */
  lemma SkippedLost(id: GenId, c: Config) returns (states: seq<State>)
    requires SafeId(id) && !WithinGrace(c.now, 0, c.grace)
    ensures Run(states, c)
    ensures
      var obj := ReplicaLoss.Made(id, []);
      var box := ReplicaLoss.AfterPush(ReplicaLoss.Stocked(), id, obj);
      var b := states[|states| - 1].bucket;
      && AllSent(states, box, id, obj.body.manifest.value, map["a" := Skipped(4)], 4, 5) && 5 < |states|
      && Pushed(box, id) && KeyOf(id) in b && InfoKey("a") !in b
  {
    hide WithinGrace, ToKill, SafeComponent, MarkerOf, KeyOf, StoreHashOf;
    ToKillRun(c);
    OldIsCondemned(c);
    var r := ToKill(c);
    var s, obj := r[4], ReplicaLoss.Made(id, []);
    var s1 := s.(bucket := s.bucket[KeyOf(id) := obj]);
    var s2 := State(s1.bucket - {InfoKey("a")}, Deleting(s1.phase.kill - {InfoKey("a")}));
    assert Put(s, s1, KeyOf(id), obj);
    assert Delete(s1, s2, InfoKey("a"));
    states := r[..5] + [s1] + [s2];
    RunOn(r, s1, s2, c);
    KeyApart(id);
    OnlyA(id);
    assert PutAt(states, 4, KeyOf(id), obj.body) by {
      assert states[4] == s && states[5] == s1;
    }
  }

  lemma RunOn(r: seq<State>, s1: State, s2: State, c: Config)
    requires Run(r, c) && |r| >= 5
    requires PutStep(r[4], s1) && SweepStep(s1, s2, c)
    ensures Run(r[..5] + [s1] + [s2], c)
  {
    hide SweepStep, PutStep, Init;
    var all := r[..5] + [s1] + [s2];
    forall n | 0 <= n < |all| - 1
      ensures SweepStep(all[n], all[n + 1], c) || PutStep(all[n], all[n + 1])
    {
      if n < 4 {
        assert SweepStep(r[n], r[n + 1], c) || PutStep(r[n], r[n + 1]);
      }
    }
  }

  lemma KeyApart(id: GenId)
    ensures KeyOf(id) != InfoKey("a")
  {
    assert KeyOf(id)[0] == 'r';
  }

  lemma OnlyA(id: GenId)
    ensures Hashes(ReplicaLoss.Made(id, []).body.manifest.value) == {"a"}
  {
    hide StoreHashOf;
    ReplicaLoss.PathHash();
    assert ReplicaLoss.PATH in ReplicaLoss.Made(id, []).body.manifest.value.closure;
  }

  ghost predicate Pushed(box: Box, id: GenId) {
    id in box.manifests && Guarded(box, id)
  }
}
