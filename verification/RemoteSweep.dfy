/** The remote sweep as it runs: list, read the manifests, mark, read the narinfos, collect, delete. */
module RemoteSweep {
  import opened Wrappers
  import opened Sets
  import opened Retention
  import opened Keys
  import opened Objects
  import opened RemoteGc
  import opened Remote

  datatype SweepReport = SweepReport(retainedManifests: nat, deleted: seq<string>, skippedYoung: nat)

  datatype Sorted = Sorted(infos: seq<Entry>, nars: seq<Entry>, roots: seq<Entry>)

  /** The listing split by what each key names, foreign keys dropped. */
  ghost predicate Partitions(listing: seq<Entry>, s: Sorted) {
    && DistinctKeys(s.roots + s.infos + s.nars)
    && (forall e :: e in s.infos <==> e in listing && Classify(e.0).InfoObject?)
    && (forall e :: e in s.nars <==> e in listing && Classify(e.0).NarObject?)
    && (forall e :: e in s.roots <==> e in listing && Classify(e.0).RootObject?)
  }

  method SortListing(listing: seq<Entry>) returns (s: Sorted)
    requires DistinctKeys(listing)
    ensures Partitions(listing, s)
  {
    s := Sorted([], [], []);
    for i := 0 to |listing|
      invariant Partitions(listing[..i], s)
    {
      var e := listing[i];
      assert listing[..i + 1] == listing[..i] + [e];
      ghost var was := s;
      match Classify(e.0) {
        case InfoObject(_) => s := s.(infos := s.infos + [e]);
        case NarObject => s := s.(nars := s.nars + [e]);
        case RootObject => s := s.(roots := s.roots + [e]);
        case Foreign =>
      }
      SortStep(listing[..i], e, was, s);
    }
    assert listing[..|listing|] == listing;
  }

  lemma SortStep(listing: seq<Entry>, e: Entry, was: Sorted, s: Sorted)
    requires Partitions(listing, was)
    requires forall k :: 0 <= k < |listing| ==> listing[k].0 != e.0
    requires s == match Classify(e.0)
                  case InfoObject(_) => was.(infos := was.infos + [e])
                  case NarObject => was.(nars := was.nars + [e])
                  case RootObject => was.(roots := was.roots + [e])
                  case Foreign => was
    ensures Partitions(listing + [e], s)
  {
    assert forall x :: x in was.infos || x in was.nars || x in was.roots ==> x in listing && x.0 != e.0;
    forall j, k | 0 <= j < k < |s.roots + s.infos + s.nars|
      ensures (s.roots + s.infos + s.nars)[j].0 != (s.roots + s.infos + s.nars)[k].0
    {
      NoClash(was, s, e, j, k);
    }
  }

  lemma NoClash(was: Sorted, s: Sorted, e: Entry, j: int, k: int)
    requires DistinctKeys(was.roots + was.infos + was.nars)
    requires forall x :: x in was.infos || x in was.nars || x in was.roots ==> x.0 != e.0
    requires s == was || s == was.(infos := was.infos + [e]) || s == was.(nars := was.nars + [e])
      || s == was.(roots := was.roots + [e])
    requires 0 <= j < k < |s.roots + s.infos + s.nars|
    ensures (s.roots + s.infos + s.nars)[j].0 != (s.roots + s.infos + s.nars)[k].0
  {
    var before, after := was.roots + was.infos + was.nars, s.roots + s.infos + s.nars;
    if s != was {
      var at := if |s.roots| > |was.roots| then |was.roots|
                else if |s.infos| > |was.infos| then |was.roots + was.infos|
                else |before|;
      assert after == before[..at] + [e] + before[at..];
      Inserted(before, at, e, j, k);
    }
  }

  lemma Inserted(before: seq<Entry>, at: nat, e: Entry, j: int, k: int)
    requires DistinctKeys(before) && at <= |before|
    requires forall x :: x in before ==> x.0 != e.0
    requires 0 <= j < k <= |before|
    ensures (before[..at] + [e] + before[at..])[j].0 != (before[..at] + [e] + before[at..])[k].0
  {
    var after := before[..at] + [e] + before[at..];
    assert forall m :: 0 <= m <= |before| ==> after[m] == if m < at then before[m] else if m == at then e
      else before[m - 1];
  }

  /** Manifests read so far, in completion order. */
  ghost predicate ReadSoFar(b: Bucket, read: set<string>, order: seq<string>, gens: seq<Gen>,
    manifests: map<string, Manifest>) {
    && (forall j, k :: 0 <= j < k < |order| ==> order[j] != order[k])
    && (forall key :: key in order <==> key in read && IsManifest(b, key))
    && |gens| == |order|
    && (forall k :: 0 <= k < |order| ==>
      IsManifest(b, order[k]) && gens[k] == ToGen(order[k], b[order[k]].body.manifest.value))
    && (forall key :: key in manifests <==> key in order)
    && (forall key :: key in manifests ==> IsManifest(b, key) && manifests[key] == b[key].body.manifest.value)
  }

  lemma RootFound(b: Bucket, read: set<string>, order: seq<string>, gens: seq<Gen>, manifests: map<string, Manifest>,
    key: string)
    requires ReadSoFar(b, read, order, gens, manifests) && key !in read && IsManifest(b, key)
    ensures
      var m := b[key].body.manifest.value;
      ReadSoFar(b, read + {key}, order + [key], gens + [ToGen(key, m)], manifests[key := m])
  {
    hide ToGen;
  }

  lemma RootSkipped(b: Bucket, read: set<string>, order: seq<string>, gens: seq<Gen>, manifests: map<string, Manifest>,
    key: string)
    requires ReadSoFar(b, read, order, gens, manifests) && !IsManifest(b, key)
    ensures ReadSoFar(b, read + {key}, order, gens, manifests)
  {
    hide ToGen;
  }

  lemma NoRootRead(b: Bucket)
    ensures ReadSoFar(b, {}, [], [], map[])
  {
  }

  /** Read every object under `roots/`; completion order is arbitrary, and what does not parse is garbage. */
  method ReadRoots(remote: RemoteCache, roots: seq<Entry>)
    returns (r: Result<(seq<Gen>, map<string, Manifest>)>, ghost order: seq<string>)
    requires forall k :: 0 <= k < |roots| ==> roots[k].0 in remote.objects
    modifies remote`faults
    ensures old(remote.faults) <= remote.faults && (r.Err? ==> old(remote.faults) < remote.faults)
    ensures r.Ok? ==> ReadSoFar(remote.objects, set e | e in roots :: e.0, order, r.value.0, r.value.1)
  {
    hide ReadSoFar, ToGen;
    var gens: seq<Gen> := [];
    var manifests: map<string, Manifest> := map[];
    order := [];
    var all := set e | e in roots :: e.0;
    var todo := all;
    assert all - todo == {};
    NoRootRead(remote.objects);
    while todo != {}
      invariant todo <= all
      invariant ReadSoFar(remote.objects, all - todo, order, gens, manifests)
      invariant old(remote.faults) <= remote.faults
      decreases |todo|
    {
      var key :| key in todo;
      assert all - (todo - {key}) == (all - todo) + {key};
      var reply := remote.Get(key);
      if reply.Err? {
        return Err, order;
      }
      if reply.value.Some? && reply.value.value.manifest.Some? {
        var m := reply.value.value.manifest.value;
        RootFound(remote.objects, all - todo, order, gens, manifests, key);
        gens := gens + [ToGen(key, m)];
        manifests := manifests[key := m];
        order := order + [key];
      } else {
        RootSkipped(remote.objects, all - todo, order, gens, manifests, key);
      }
      todo := todo - {key};
    }
    assert all - todo == all;
    return Ok((gens, manifests)), order;
  }

  method MarkClosures(ghost b: Bucket, manifests: map<string, Manifest>, keep: set<string>) returns (mark: set<string>)
    requires forall key :: key in manifests ==> IsManifest(b, key) && manifests[key] == b[key].body.manifest.value
    requires forall key :: key in keep ==> key in manifests
    ensures mark == Mark(b, keep)
  {
    mark := {};
    var todo := manifests.Keys;
    while todo != {}
      invariant todo <= manifests.Keys
      invariant forall h :: h in mark <==>
        exists key :: key in keep && key !in todo && key in manifests && h in Hashes(manifests[key])
      decreases |todo|
    {
      var key :| key in todo;
      todo := todo - {key};
      if key in keep {
        mark := mark + Hashes(manifests[key]);
      }
    }
    forall h
      ensures h in mark <==> h in Mark(b, keep)
    {
      if h in mark {
        var key :| key in keep && key in manifests && h in Hashes(manifests[key]);
        assert IsManifest(b, key);
      }
      if h in Mark(b, keep) {
        var key :| key in keep && IsManifest(b, key) && h in Hashes(b[key].body.manifest.value);
        assert key in manifests && h in Hashes(manifests[key]);
      }
    }
  }

  /** Some marked narinfo is not text. */
  ghost predicate NotText(b: Bucket, mark: set<string>) {
    exists h :: h in mark && InfoKey(h) in b && !b[InfoKey(h)].body.utf8
  }

  /** Read every marked narinfo that was listed; one that is not text aborts the sweep. */
  method ReadInfos(remote: RemoteCache, infos: seq<Entry>, mark: set<string>) returns (r: Result<set<string>>)
    requires forall e :: e in infos ==> Classify(e.0).InfoObject?
    requires forall h :: h in mark && InfoKey(h) in remote.objects ==> exists e :: e in infos && e.0 == InfoKey(h)
    requires forall h :: h in mark ==> '/' !in h
    modifies remote`faults
    ensures old(remote.faults) <= remote.faults
    ensures r.Ok? ==> r.value == Live(remote.objects, mark)
    ensures r.Err? ==> old(remote.faults) < remote.faults || NotText(remote.objects, mark)
    ensures NotText(remote.objects, mark) ==> r.Err?
  {
    var marked := set e | e in infos && Classify(e.0).hash in mark :: Classify(e.0).hash;
    var live: set<string> := {};
    var todo := marked;
    while todo != {}
      invariant todo <= marked
      invariant forall u :: u in live <==> exists h :: h in marked && h !in todo && UrlIn(remote.objects, h) == Some(u)
      invariant forall h :: h in marked && h !in todo && InfoKey(h) in remote.objects ==>
        remote.objects[InfoKey(h)].body.utf8
      invariant old(remote.faults) <= remote.faults
      decreases |todo|
    {
      var h :| h in todo;
      var reply := remote.Get(InfoKey(h));
      if reply.Err? {
        return Err;
      }
      todo := todo - {h};
      if reply.value.Some? {
        if !reply.value.value.utf8 {
          assert h in mark && InfoKey(h) in remote.objects && !remote.objects[InfoKey(h)].body.utf8;
          return Err;
        }
        if reply.value.value.info.Some? {
          live := live + {reply.value.value.info.value.url};
        }
      }
    }
    forall h | h in mark && InfoKey(h) in remote.objects
      ensures h in marked
    {
      var e :| e in infos && e.0 == InfoKey(h);
      ClassifyInfo(h, e.0);
    }
    forall u
      ensures u in live <==> u in Live(remote.objects, mark)
    {
      if u in Live(remote.objects, mark) {
        var h :| h in mark && UrlIn(remote.objects, h) == Some(u);
        assert h in marked;
      }
    }
    return Ok(live);
  }

  // --- collecting ----------------------------------------------------------

  function KillList(entries: seq<Entry>, keep: set<string>, mark: set<string>, live: set<string>, now: Time,
    grace: Duration): seq<string> {
    if entries == [] then []
    else
      var e := entries[|entries| - 1];
      var front := KillList(entries[..|entries| - 1], keep, mark, live, now, grace);
      if Held(e.0, keep, mark, live) || IsYoung(now, e.1, grace) then front else front + [e.0]
  }

  function Skips(entries: seq<Entry>, keep: set<string>, mark: set<string>, live: set<string>, now: Time,
    grace: Duration): nat {
    if entries == [] then 0
    else
      var e := entries[|entries| - 1];
      Skips(entries[..|entries| - 1], keep, mark, live, now, grace)
      + if !Held(e.0, keep, mark, live) && IsYoung(now, e.1, grace) then 1 else 0
  }

  /** One of the sweep's passes: count the young, collect the rest of what is not held. */
  method Collect(entries: seq<Entry>, keep: set<string>, mark: set<string>, live: set<string>, now: Time,
    grace: Duration, report: SweepReport) returns (r: SweepReport)
    ensures r.retainedManifests == report.retainedManifests
    ensures r.deleted == report.deleted + KillList(entries, keep, mark, live, now, grace)
    ensures r.skippedYoung == report.skippedYoung + Skips(entries, keep, mark, live, now, grace)
  {
    r := report;
    for i := 0 to |entries|
      invariant r.retainedManifests == report.retainedManifests
      invariant r.deleted == report.deleted + KillList(entries[..i], keep, mark, live, now, grace)
      invariant r.skippedYoung == report.skippedYoung + Skips(entries[..i], keep, mark, live, now, grace)
    {
      var (key, t) := entries[i];
      assert entries[..i + 1][..i] == entries[..i];
      if !Held(key, keep, mark, live) {
        if IsYoung(now, t, grace) {
          r := r.(skippedYoung := r.skippedYoung + 1);
        } else {
          r := r.(deleted := r.deleted + [key]);
        }
      }
    }
    assert entries[..|entries|] == entries;
  }

  lemma {:induction false} KillListAppend(a: seq<Entry>, z: seq<Entry>, keep: set<string>, mark: set<string>,
    live: set<string>, now: Time, grace: Duration)
    ensures KillList(a + z, keep, mark, live, now, grace) == KillList(a, keep, mark, live, now, grace)
      + KillList(z, keep, mark, live, now, grace)
    ensures Skips(a + z, keep, mark, live, now, grace) == Skips(a, keep, mark, live, now, grace)
      + Skips(z, keep, mark, live, now, grace)
  {
    hide Held, IsYoung;
    if z == [] {
      assert a + z == a;
    } else {
      var n := |z| - 1;
      KillListAppend(a, z[..n], keep, mark, live, now, grace);
      var all := a + z;
      assert all[..|all| - 1] == a + z[..n] && all[|all| - 1] == z[n];
      KillListLast(all, keep, mark, live, now, grace);
      KillListLast(z, keep, mark, live, now, grace);
      hide KillList, Skips;
    }
  }

  lemma KillListLast(entries: seq<Entry>, keep: set<string>, mark: set<string>, live: set<string>, now: Time,
    grace: Duration)
    requires entries != []
    ensures
      var n := |entries| - 1;
      var e := entries[n];
      && KillList(entries, keep, mark, live, now, grace) == KillList(entries[..n], keep, mark, live, now, grace)
        + (if Held(e.0, keep, mark, live) || IsYoung(now, e.1, grace) then [] else [e.0])
      && Skips(entries, keep, mark, live, now, grace) == Skips(entries[..n], keep, mark, live, now, grace)
        + (if !Held(e.0, keep, mark, live) && IsYoung(now, e.1, grace) then 1 else 0)
  {
    hide Held, IsYoung;
  }

  ghost function SkippedKeys(entries: seq<Entry>, keep: set<string>, mark: set<string>, live: set<string>, now: Time,
    grace: Duration): set<string> {
    set e | e in entries && !Held(e.0, keep, mark, live) && IsYoung(now, e.1, grace) :: e.0
  }

  /** The collected list has no repeats and holds exactly what is neither held nor young. */
  lemma {:induction false} KillListExact(entries: seq<Entry>, keep: set<string>, mark: set<string>, live: set<string>,
    now: Time, grace: Duration)
    requires DistinctKeys(entries)
    ensures
      var kill := KillList(entries, keep, mark, live, now, grace);
      (forall j, k :: 0 <= j < k < |kill| ==> kill[j] != kill[k])
      && (forall key :: key in kill <==>
        exists e :: e in entries && e.0 == key && !Held(key, keep, mark, live) && !IsYoung(now, e.1, grace))
  {
    hide Held, IsYoung;
    if entries != [] {
      var n := |entries| - 1;
      var front, e := entries[..n], entries[n];
      KillListExact(front, keep, mark, live, now, grace);
      assert entries == front + [e];
      assert forall x :: x in front ==> x.0 != e.0;
    }
  }

  lemma {:induction false} SkipsExact(entries: seq<Entry>, keep: set<string>, mark: set<string>, live: set<string>,
    now: Time, grace: Duration)
    requires DistinctKeys(entries)
    ensures Skips(entries, keep, mark, live, now, grace) == |SkippedKeys(entries, keep, mark, live, now, grace)|
  {
    hide Held, IsYoung;
    if entries == [] {
      assert SkippedKeys(entries, keep, mark, live, now, grace) == {};
    } else {
      var n := |entries| - 1;
      var front, e := entries[..n], entries[n];
      SkipsExact(front, keep, mark, live, now, grace);
      assert entries == front + [e];
      assert forall x :: x in front ==> x.0 != e.0;
      var before, after := SkippedKeys(front, keep, mark, live, now, grace),
        SkippedKeys(entries, keep, mark, live, now, grace);
      if !Held(e.0, keep, mark, live) && IsYoung(now, e.1, grace) {
        assert after == before + {e.0};
      } else {
        assert after == before;
      }
    }
  }

  /** Keys that are neither held nor deleted, because they are young. */
  ghost function Skipped(b: Bucket, keep: set<string>, now: Time, grace: Duration): set<string> {
    var mark := Mark(b, keep);
    set key | key in b && !Held(key, keep, mark, Live(b, mark)) && IsYoung(now, b[key].time, grace)
  }

  lemma ForeignHeld(key: string, keep: set<string>, mark: set<string>, live: set<string>)
    ensures Classify(key).Foreign? ==> Held(key, keep, mark, live)
  {
  }

  /** The entries collected from are the bucket's own keys, each with its time, and hold every key not held. */
  ghost predicate EntriesOf(b: Bucket, all: seq<Entry>, keep: set<string>, mark: set<string>, live: set<string>) {
    && (forall e :: e in all ==> e.0 in b && e.1 == b[e.0].time)
    && (forall key :: key in b && !Held(key, keep, mark, live) ==> (key, b[key].time) in all)
  }

  lemma PartsAreEntries(b: Bucket, listing: seq<Entry>, s: Sorted, keep: set<string>, mark: set<string>,
    live: set<string>)
    requires Lists(b, "", listing) && Partitions(listing, s)
    ensures EntriesOf(b, s.roots + s.infos + s.nars, keep, mark, live)
  {
    hide Classify;
    var all := s.roots + s.infos + s.nars;
    assert forall e :: e in all <==> e in listing && !Classify(e.0).Foreign?;
    forall key | key in b && !Held(key, keep, mark, live)
      ensures (key, b[key].time) in all
    {
      ForeignHeld(key, keep, mark, live);
      assert "" <= key;
      var k :| 0 <= k < |listing| && listing[k].0 == key;
      assert listing[k] in listing && listing[k] == (key, b[key].time);
    }
  }

  lemma KillOfEntries(b: Bucket, all: seq<Entry>, keep: set<string>, mark: set<string>, live: set<string>, now: Time,
    grace: Duration)
    requires DistinctKeys(all) && EntriesOf(b, all, keep, mark, live)
    ensures
      var kill := KillList(all, keep, mark, live, now, grace);
      && Elements(kill) == Condemned(Listing(b), keep, mark, live, now, grace)
      && (forall j, k :: 0 <= j < k < |kill| ==> kill[j] != kill[k])
  {
    KillListExact(all, keep, mark, live, now, grace);
    hide Held, IsYoung;
    var kill := KillList(all, keep, mark, live, now, grace);
    forall key
      ensures key in Elements(kill) <==> key in Condemned(Listing(b), keep, mark, live, now, grace)
    {
      if key in Condemned(Listing(b), keep, mark, live, now, grace) {
        var e := (key, b[key].time);
        assert e in all && e.0 == key && !Held(key, keep, mark, live) && !IsYoung(now, e.1, grace);
      }
      if key in kill {
        var e :| e in all && e.0 == key && !Held(key, keep, mark, live) && !IsYoung(now, e.1, grace);
        assert Listing(b)[key] == e.1;
      }
    }
  }

  lemma SkipsOfEntries(b: Bucket, all: seq<Entry>, keep: set<string>, mark: set<string>, live: set<string>, now: Time,
    grace: Duration)
    requires DistinctKeys(all) && EntriesOf(b, all, keep, mark, live)
    ensures Skips(all, keep, mark, live, now, grace) ==
      |set key | key in b && !Held(key, keep, mark, live) && IsYoung(now, b[key].time, grace)|
  {
    hide Skips, Held, IsYoung;
    SkipsExact(all, keep, mark, live, now, grace);
    var young := set key | key in b && !Held(key, keep, mark, live) && IsYoung(now, b[key].time, grace);
    forall key
      ensures key in SkippedKeys(all, keep, mark, live, now, grace) <==> key in young
    {
      if key in young {
        assert (key, b[key].time) in all;
      }
    }
    assert SkippedKeys(all, keep, mark, live, now, grace) == young;
  }

  lemma CollectedIsKill(b: Bucket, listing: seq<Entry>, s: Sorted, keep: set<string>, now: Time, grace: Duration)
    requires Lists(b, "", listing) && Partitions(listing, s)
    ensures
      var mark := Mark(b, keep);
      var live := Live(b, mark);
      var all := s.roots + s.infos + s.nars;
      var kill := KillList(all, keep, mark, live, now, grace);
      Elements(kill) == KillIn(b, keep, now, grace)
      && (forall j, k :: 0 <= j < k < |kill| ==> kill[j] != kill[k])
      && Skips(all, keep, mark, live, now, grace) == |Skipped(b, keep, now, grace)|
  {
    hide KillList, Skips, Mark, Live, IsYoung, Held, EntriesOf, Condemned, Elements;
    var mark := Mark(b, keep);
    var live := Live(b, mark);
    PartsAreEntries(b, listing, s, keep, mark, live);
    var all := s.roots + s.infos + s.nars;
    KillOfEntries(b, all, keep, mark, live, now, grace);
    SkipsOfEntries(b, all, keep, mark, live, now, grace);
  }

  // --- the sweep -----------------------------------------------------------

  /** What the sweep knows before it deletes anything. */
  datatype Survey = Survey(sorted: Sorted, keep: set<string>, mark: set<string>, live: set<string>)

  ghost predicate SurveyOf(b: Bucket, order: seq<string>, policy: Policy, now: Time, s: Survey) {
    && ManifestOrder(b, order)
    && s.keep == Keep(b, order, policy, now)
    && s.mark == Mark(b, s.keep)
    && s.live == Live(b, s.mark)
    && exists listing :: Lists(b, "", listing) && Partitions(listing, s.sorted)
  }

  /** A narinfo the sweep marks is not text. */
  ghost predicate UnreadableMark(b: Bucket, order: seq<string>, policy: Policy, now: Time) {
    ManifestOrder(b, order) && NotText(b, Mark(b, Keep(b, order, policy, now)))
  }

  /** List, read, decide, mark: everything up to the deletions. */
  method TakeSurvey(remote: RemoteCache, policy: Policy, now: Time)
    returns (r: Result<Survey>, ghost order: seq<string>)
    modifies remote`faults
    ensures old(remote.faults) <= remote.faults
    ensures r.Err? ==> old(remote.faults) < remote.faults || UnreadableMark(remote.objects, order, policy, now)
    ensures UnreadableMark(remote.objects, order, policy, now) ==> r.Err?
    ensures r.Ok? ==> SurveyOf(remote.objects, order, policy, now, r.value)
  {
    order := [];
    var listed := remote.List("");
    if listed.Err? {
      return Err, order;
    }
    var sorted := SortListing(listed.value);
    assert forall k :: 0 <= k < |sorted.roots| ==> sorted.roots[k] in sorted.roots;
    var read;
    read, order := ReadRoots(remote, sorted.roots);
    if read.Err? {
      return Err, order;
    }
    var (gens, manifests) := read.value;
    AllManifestsRead(remote.objects, listed.value, sorted, order, gens, manifests);
    var keep := RetainIds(gens, policy, now);
    KeepIsManifests(remote.objects, order, policy, now);
    KeptWereRead(remote.objects, order, policy, now, manifests);
    var mark := MarkClosures(remote.objects, manifests, keep);
    MarkedAreListed(remote.objects, listed.value, sorted, keep);
    var live := ReadInfos(remote, sorted.infos, mark);
    if live.Err? {
      return Err, order;
    }
    return Ok(Survey(sorted, keep, mark, live.value)), order;
  }

  lemma KeptWereRead(b: Bucket, order: seq<string>, policy: Policy, now: Time, manifests: map<string, Manifest>)
    requires ManifestOrder(b, order)
    requires forall key :: key in manifests <==> key in order
    ensures forall key :: key in Keep(b, order, policy, now) ==> key in manifests
  {
    forall key | key in Keep(b, order, policy, now)
      ensures key in manifests
    {
      KeepMember(b, order, policy, now, key);
    }
  }

  /** The three passes over the survey. */
  method CollectAll(s: Survey, now: Time, grace: Duration) returns (report: SweepReport)
    ensures report.retainedManifests == |s.keep|
    ensures report.deleted == KillList(s.sorted.roots + s.sorted.infos + s.sorted.nars, s.keep, s.mark, s.live, now,
      grace)
    ensures report.skippedYoung == Skips(s.sorted.roots + s.sorted.infos + s.sorted.nars, s.keep, s.mark, s.live, now,
      grace)
  {
    hide KillList, Skips;
    report := SweepReport(|s.keep|, [], 0);
    report := Collect(s.sorted.roots, s.keep, s.mark, s.live, now, grace, report);
    report := Collect(s.sorted.infos, s.keep, s.mark, s.live, now, grace, report);
    report := Collect(s.sorted.nars, s.keep, s.mark, s.live, now, grace, report);
    KillListAppend(s.sorted.roots, s.sorted.infos, s.keep, s.mark, s.live, now, grace);
    KillListAppend(s.sorted.roots + s.sorted.infos, s.sorted.nars, s.keep, s.mark, s.live, now, grace);
  }

  /** What a successful sweep reports about the bucket it found. */
  ghost predicate Reports(b: Bucket, order: seq<string>, policy: Policy, now: Time, grace: Duration,
    report: SweepReport)
    requires ManifestOrder(b, order)
  {
    var keep := Keep(b, order, policy, now);
    && report.retainedManifests == |keep|
    && Elements(report.deleted) == Kill(b, order, policy, now, grace)
    && (forall j, k :: 0 <= j < k < |report.deleted| ==> report.deleted[j] != report.deleted[k])
    && report.skippedYoung == |Skipped(b, keep, now, grace)|
  }

  /** Keys the sweep must leave: retained, marked, live, or not its own. */
  ghost function HeldKeys(b: Bucket, keep: set<string>): set<string> {
    var mark := Mark(b, keep);
    set key | key in b && Held(key, keep, mark, Live(b, mark))
  }

  /** Each object found is held, or counted as young, or listed as deleted, and never two of these. */
  ghost predicate Accounted(b: Bucket, keep: set<string>, now: Time, grace: Duration, report: SweepReport) {
    var held, young, dead := HeldKeys(b, keep), Skipped(b, keep, now, grace), Elements(report.deleted);
    && held !! young !! dead
    && held + young + dead == b.Keys
    && |b| == |held| + report.skippedYoung + |report.deleted|
  }

  /** Nothing is lost from sight, and what is held or young is still there as it was. */
  ghost predicate Conserved(b: Bucket, b': Bucket, keep: set<string>, now: Time, grace: Duration, report: SweepReport) {
    && Accounted(b, keep, now, grace, report)
    && (forall key :: key in HeldKeys(b, keep) + Skipped(b, keep, now, grace) ==> key in b' && b'[key] == b[key])
    && (forall key :: key in b' ==> key in b && b'[key] == b[key])
  }

  lemma {:induction false} ElementsSize(keys: seq<string>)
    requires forall j, k :: 0 <= j < k < |keys| ==> keys[j] != keys[k]
    ensures |Elements(keys)| == |keys|
  {
    if keys == [] {
      assert Elements(keys) == {};
    } else {
      var front, last := keys[..|keys| - 1], keys[|keys| - 1];
      ElementsSize(front);
      assert keys == front + [last];
      assert Elements(keys) == Elements(front) + {last};
    }
  }

  lemma Fates(b: Bucket, keep: set<string>, now: Time, grace: Duration)
    ensures
      var held, young, dead := HeldKeys(b, keep), Skipped(b, keep, now, grace), KillIn(b, keep, now, grace);
      held !! young !! dead && held + young + dead == b.Keys
  {
    hide Held, IsYoung, Mark, Live;
    var held, young, dead := HeldKeys(b, keep), Skipped(b, keep, now, grace), KillIn(b, keep, now, grace);
    assert held * young == {} && (held + young) * dead == {};
    forall key
      ensures key in held + young + dead <==> key in b.Keys
    {
    }
  }

  lemma ThreeParts(all: set<string>, x: set<string>, y: set<string>, z: set<string>)
    requires x !! y !! z && x + y + z == all
    ensures |all| == |x| + |y| + |z|
  {
    assert |x + y| == |x| + |y|;
    assert |all| == |x + y| + |z|;
  }

  lemma Remains(b: Bucket, gone: set<string>, spared: set<string>)
    requires spared !! gone && spared <= b.Keys
    ensures forall key :: key in spared ==> key in b - gone && (b - gone)[key] == b[key]
    ensures gone <= b.Keys ==> |b - gone| == |b| - |gone|
  {
    assert (b - gone).Keys == b.Keys - gone;
    assert |b - gone| == |(b - gone).Keys| && |b| == |b.Keys|;
  }

  lemma SparedApart(b: Bucket, keep: set<string>, now: Time, grace: Duration, gone: set<string>)
    requires gone <= KillIn(b, keep, now, grace)
    ensures var spared := HeldKeys(b, keep) + Skipped(b, keep, now, grace); spared !! gone && spared <= b.Keys
    ensures gone <= b.Keys
  {
    hide HeldKeys, Skipped, KillIn;
    Fates(b, keep, now, grace);
  }

  lemma Accounting(b: Bucket, order: seq<string>, policy: Policy, now: Time, grace: Duration, report: SweepReport)
    requires ManifestOrder(b, order) && Reports(b, order, policy, now, grace, report)
    ensures Accounted(b, Keep(b, order, policy, now), now, grace, report)
  {
    hide HeldKeys, Skipped, KillIn, Keep, ManifestOrder;
    var keep := Keep(b, order, policy, now);
    Fates(b, keep, now, grace);
    ElementsSize(report.deleted);
    ThreeParts(b.Keys, HeldKeys(b, keep), Skipped(b, keep, now, grace), Elements(report.deleted));
    assert |b| == |b.Keys|;
  }

  /** A truthful report and a bucket that lost at most what it lists: every object is accounted for. */
  lemma Conservation(b: Bucket, b': Bucket, order: seq<string>, policy: Policy, now: Time, grace: Duration,
    report: SweepReport, gone: set<string>)
    requires ManifestOrder(b, order) && Reports(b, order, policy, now, grace, report)
    requires gone <= Kill(b, order, policy, now, grace) && b' == b - gone
    ensures Conserved(b, b', Keep(b, order, policy, now), now, grace, report)
    ensures gone == Kill(b, order, policy, now, grace) ==> |b'| == |b| - |report.deleted|
  {
    hide HeldKeys, Skipped, KillIn, Keep, ManifestOrder, Accounted, Elements;
    var keep := Keep(b, order, policy, now);
    Accounting(b, order, policy, now, grace, report);
    SparedApart(b, keep, now, grace, gone);
    ElementsSize(report.deleted);
    Remains(b, gone, HeldKeys(b, keep) + Skipped(b, keep, now, grace));
    PartLeft(b, gone);
  }

  lemma PartLeft(b: Bucket, gone: set<string>)
    ensures forall key :: key in b - gone ==> key in b && (b - gone)[key] == b[key]
  {
  }

  lemma Reported(b: Bucket, order: seq<string>, policy: Policy, now: Time, grace: Duration, s: Survey,
    report: SweepReport)
    requires SurveyOf(b, order, policy, now, s)
    requires report.retainedManifests == |s.keep|
    requires var all := s.sorted.roots + s.sorted.infos + s.sorted.nars;
      report.deleted == KillList(all, s.keep, s.mark, s.live, now, grace)
      && report.skippedYoung == Skips(all, s.keep, s.mark, s.live, now, grace)
    ensures Reports(b, order, policy, now, grace, report)
  {
    hide KillList, Skips, Mark, Live, Skipped, Condemned;
    var listing :| Lists(b, "", listing) && Partitions(listing, s.sorted);
    CollectedIsKill(b, listing, s.sorted, s.keep, now, grace);
  }

  // --- what a sweep spares, by names, times and contents -----------------------

  /** None of the sweep's kinds of object, by its name. */
  ghost predicate NotOurs(key: string) {
    if EndsInNarinfo(key) then '/' in key else !Starts(key, "nar/") && !Starts(key, "roots/")
  }

  /** Some kept manifest lists a path with this hash. */
  ghost predicate ListedBy(b: Bucket, keep: set<string>, h: string) {
    exists key :: key in keep && key in b && b[key].body.manifest.Some?
      && exists path :: path in b[key].body.manifest.value.closure && StoreHashOf(path) == h
  }

  /** The narinfo of a listed hash reads, and gives this URL. */
  ghost predicate NamedBy(b: Bucket, keep: set<string>, url: string) {
    exists h :: ListedBy(b, keep, h) && GivesUrl(b, h, url)
  }

  ghost predicate GivesUrl(b: Bucket, h: string, url: string) {
    && h + ".narinfo" in b && b[h + ".narinfo"].body.utf8 && b[h + ".narinfo"].body.info.Some?
    && b[h + ".narinfo"].body.info.value.url == url
  }

  /** What the sweep leaves: what is not its own, what is young, and what a kept manifest accounts for. */
  ghost predicate Spared(b: Bucket, keep: set<string>, now: Time, grace: Duration, key: string)
    requires key in b
  {
    || NotOurs(key)
    || WithinGrace(now, b[key].time, grace)
    || (EndsInNarinfo(key) && ListedBy(b, keep, key[..|key| - 8]))
    || (!EndsInNarinfo(key) && Starts(key, "nar/") && NamedBy(b, keep, key))
    || (!EndsInNarinfo(key) && Starts(key, "roots/") && key in keep)
  }

  lemma MarkIsListed(b: Bucket, keep: set<string>, h: string)
    ensures h in Mark(b, keep) <==> ListedBy(b, keep, h)
  {
    if h in Mark(b, keep) {
      var key :| key in keep && IsManifest(b, key) && h in Hashes(b[key].body.manifest.value);
      var path :| path in b[key].body.manifest.value.closure && StoreHashOf(path) == h;
    }
    if ListedBy(b, keep, h) {
      var key :| key in keep && key in b && b[key].body.manifest.Some?
        && exists path :: path in b[key].body.manifest.value.closure && StoreHashOf(path) == h;
      assert IsManifest(b, key) && h in Hashes(b[key].body.manifest.value);
    }
  }

  lemma LiveIsNamed(b: Bucket, keep: set<string>, url: string)
    ensures url in Live(b, Mark(b, keep)) <==> NamedBy(b, keep, url)
  {
    hide Mark, ListedBy;
    forall h
      ensures UrlIn(b, h) == Some(url) <==> GivesUrl(b, h, url)
      ensures h in Mark(b, keep) <==> ListedBy(b, keep, h)
    {
      NamesSpelled(h, "", "");
      MarkIsListed(b, keep, h);
    }
  }

  /** The kill set is exactly what is not spared. */
  lemma KillIsNotSpared(b: Bucket, keep: set<string>, now: Time, grace: Duration)
    ensures KillIn(b, keep, now, grace) <= b.Keys
    ensures forall key :: key in b ==> (key in KillIn(b, keep, now, grace) <==> !Spared(b, keep, now, grace, key))
  {
    forall key | key in b
      ensures key in KillIn(b, keep, now, grace) <==> !Spared(b, keep, now, grace, key)
    {
      ClassSpelled(key);
      YoungSpelled(now, grace);
      LiveIsNamed(b, keep, key);
      hide Classify, IsYoung, Mark, Live, ListedBy, NamedBy, Starts;
      if EndsInNarinfo(key) {
        MarkIsListed(b, keep, key[..|key| - 8]);
      }
    }
  }

  /** Everything spared is left as it was. */
  ghost predicate SparedKept(b: Bucket, b': Bucket, keep: set<string>, now: Time, grace: Duration) {
    forall key :: key in b && Spared(b, keep, now, grace, key) ==> key in b' && b'[key] == b[key]
  }

  /** Whatever the kept set: what is not the sweep's own, and what is young, is left as it was. */
  ghost predicate OthersKept(b: Bucket, b': Bucket, now: Time, grace: Duration) {
    forall key :: key in b && (NotOurs(key) || WithinGrace(now, b[key].time, grace)) ==> key in b' && b'[key] == b[key]
  }

  lemma SparedStay(b: Bucket, keep: set<string>, now: Time, grace: Duration, gone: set<string>)
    requires gone <= KillIn(b, keep, now, grace)
    ensures SparedKept(b, b - gone, keep, now, grace) && OthersKept(b, b - gone, now, grace)
    ensures gone == KillIn(b, keep, now, grace) ==>
      forall key :: key in b ==> (key in b - gone <==> Spared(b, keep, now, grace, key))
  {
    KillIsNotSpared(b, keep, now, grace);
    hide KillIn, NotOurs, WithinGrace, ListedBy, NamedBy;
  }

  lemma NoneGone(b: Bucket, now: Time, grace: Duration)
    ensures OthersKept(b, b - {}, now, grace)
  {
  }

  /**
   * The whole sweep, run alone. Whatever fails, at most part of the kill list is
   * gone and nothing else has changed; `order` is the order the manifest reads
   * completed in, `gone` what was really deleted, `replies` the answers to the
   * deletes, `unread` how many of them could not be read. A marked narinfo that is
   * not text always makes it fail.
   */
  method Sweep(remote: RemoteCache, policy: Policy, now: Time, grace: Duration, dryRun: bool)
    returns (r: Result<SweepReport>, unread: nat, ghost order: seq<string>, ghost replies: seq<Reply>,
      ghost gone: set<string>)
    modifies remote
    ensures remote.objects == old(remote.objects) - gone
    ensures r.Err? ==>
      old(remote.faults) < remote.faults || UnreadableMark(old(remote.objects), order, policy, now)
    ensures UnreadableMark(old(remote.objects), order, policy, now) ==> r.Err? && gone == {}
    ensures gone != {} || r.Ok? ==> ManifestOrder(old(remote.objects), order)
    ensures gone != {} ==> !dryRun && gone <= Kill(old(remote.objects), order, policy, now, grace)
    ensures r.Ok? ==> Reports(old(remote.objects), order, policy, now, grace, r.value)
    ensures r.Ok? ==>
      Conserved(old(remote.objects), remote.objects, Keep(old(remote.objects), order, policy, now), now, grace, r.value)
    ensures r.Ok? && !dryRun ==> MayDelete(Batches(r.value.deleted), replies, gone) && unread == Unreads(replies)
    ensures r.Ok? && !dryRun && unread == 0 ==> gone == Kill(old(remote.objects), order, policy, now, grace)
    ensures OthersKept(old(remote.objects), remote.objects, now, grace)
    ensures gone != {} || r.Ok? ==>
      SparedKept(old(remote.objects), remote.objects, Keep(old(remote.objects), order, policy, now), now, grace)
    ensures r.Ok? ==>
      var keep := Keep(old(remote.objects), order, policy, now);
      && (forall key :: key in r.value.deleted <==>
            key in old(remote.objects) && !Spared(old(remote.objects), keep, now, grace, key))
      && (!dryRun && unread == 0 ==> forall key :: key in old(remote.objects) ==>
            (key in remote.objects <==> Spared(old(remote.objects), keep, now, grace, key)))
  {
    hide Conserved, KillList, Skips, Keep, KillIn, UnreadableMark, MayDelete, Batches, Unreads;
    hide Spared, SparedKept, OthersKept;
    NoneGone(remote.objects, now, grace);
    assert remote.objects - {} == remote.objects;
    unread, replies, gone := 0, [], {};
    var survey;
    survey, order := TakeSurvey(remote, policy, now);
    if survey.Err? {
      return Err, unread, order, replies, gone;
    }
    var report := CollectAll(survey.value, now, grace);
    Reported(remote.objects, order, policy, now, grace, survey.value, report);
    if !dryRun {
      var outcome;
      outcome, unread, replies, gone := remote.DeleteMany(report.deleted);
      SparedStay(old(remote.objects), Keep(old(remote.objects), order, policy, now), now, grace, gone);
      if outcome.Failed? {
        return Err, unread, order, replies, gone;
      }
    }
    SparedStay(old(remote.objects), Keep(old(remote.objects), order, policy, now), now, grace, gone);
    KillIsNotSpared(old(remote.objects), Keep(old(remote.objects), order, policy, now), now, grace);
    Conservation(old(remote.objects), remote.objects, order, policy, now, grace, report, gone);
    return Ok(report), unread, order, replies, gone;
  }

  lemma AllManifestsRead(b: Bucket, listing: seq<Entry>, s: Sorted, order: seq<string>, gens: seq<Gen>,
    manifests: map<string, Manifest>)
    requires Lists(b, "", listing) && Partitions(listing, s)
    requires ReadSoFar(b, set e | e in s.roots :: e.0, order, gens, manifests)
    ensures ManifestOrder(b, order)
    ensures gens == Gens(b, order)
  {
    forall key
      ensures key in order <==> key in b && Classify(key).RootObject? && IsManifest(b, key)
    {
      if key in b && Classify(key).RootObject? {
        assert "" <= key;
        var k :| 0 <= k < |listing| && listing[k].0 == key;
        assert listing[k] in s.roots;
      }
    }
  }

  lemma MarkedAreListed(b: Bucket, listing: seq<Entry>, s: Sorted, keep: set<string>)
    requires Lists(b, "", listing) && Partitions(listing, s)
    ensures forall h :: h in Mark(b, keep) ==> '/' !in h
    ensures forall h :: h in Mark(b, keep) && InfoKey(h) in b ==> exists e :: e in s.infos && e.0 == InfoKey(h)
  {
    forall h | h in Mark(b, keep)
      ensures '/' !in h
      ensures InfoKey(h) in b ==> exists e :: e in s.infos && e.0 == InfoKey(h)
    {
      MarkedNotKilled(b, keep, h, 0, 0);
      ClassifyInfo(h, InfoKey(h));
      if InfoKey(h) in b {
        assert "" <= InfoKey(h);
        var k :| 0 <= k < |listing| && listing[k].0 == InfoKey(h);
        assert listing[k] in s.infos;
      }
    }
  }
}
