/** The remote cache as its callers see it: an object store whose every request may fail. */
module Remote {
  import opened Wrappers
  import opened Sets
  import opened Retention
  import opened Keys
  import opened Objects

  /** Keys per delete request. */
  const DELETE_BATCH: nat := 1000

  type Entry = (string, Time)

  ghost predicate DistinctKeys(entries: seq<Entry>) {
    forall j, k :: 0 <= j < k < |entries| ==> entries[j].0 != entries[k].0
  }

  /** The entries are the keys of `b` under `prefix`, each once, with its time. */
  ghost predicate Lists(b: Bucket, prefix: string, entries: seq<Entry>) {
    && DistinctKeys(entries)
    && (forall k :: 0 <= k < |entries| ==>
      entries[k].0 in b && prefix <= entries[k].0 && entries[k].1 == b[entries[k].0].time)
    && (forall key :: key in b && prefix <= key ==> exists k :: 0 <= k < |entries| && entries[k].0 == key)
  }

  // --- what a delete may have done --------------------------------------------

  /** The answer to one batched delete: all keys deleted, a success that cannot be read, or an error. */
  datatype Reply = Deleted | Unread | Refused

  /** The keys in the order given, cut into requests. */
  function Batches(keys: seq<string>): seq<seq<string>> {
    if keys == [] then []
    else if |keys| <= DELETE_BATCH then [keys]
    else [keys[..DELETE_BATCH]] + Batches(keys[DELETE_BATCH..])
  }

  /** These keys may be gone after these replies: all of each readable success, any part of the rest. */
  ghost predicate MayDelete(batches: seq<seq<string>>, replies: seq<Reply>, gone: set<string>) {
    && |replies| == |batches|
    && (forall key :: key in gone ==> exists k :: 0 <= k < |batches| && key in batches[k])
    && (forall k :: 0 <= k < |batches| && replies[k].Deleted? ==> Elements(batches[k]) <= gone)
  }

  function Unreads(replies: seq<Reply>): nat {
    if replies == [] then 0
    else Unreads(replies[..|replies| - 1]) + if replies[|replies| - 1].Unread? then 1 else 0
  }

  lemma MayDeleteMore(batches: seq<seq<string>>, replies: seq<Reply>, gone: set<string>, batch: seq<string>,
    reply: Reply, part: set<string>)
    requires MayDelete(batches, replies, gone)
    requires part <= Elements(batch) && (reply.Deleted? ==> part == Elements(batch))
    ensures MayDelete(batches + [batch], replies + [reply], gone + part)
    ensures Unreads(replies + [reply]) == Unreads(replies) + if reply.Unread? then 1 else 0
  {
    var all, answers := batches + [batch], replies + [reply];
    assert answers[..|replies|] == replies;
    assert all[|batches|] == batch;
    assert forall k :: 0 <= k < |batches| ==> all[k] == batches[k] && answers[k] == replies[k];
    forall key | key in gone + part
      ensures exists k :: 0 <= k < |all| && key in all[k]
    {
      if key in gone {
        var k :| 0 <= k < |batches| && key in batches[k];
        assert key in all[k];
      } else {
        assert key in all[|batches|];
      }
    }
  }

  ghost predicate Apart(batches: seq<seq<string>>) {
    forall j, k :: 0 <= j < k < |batches| ==> Elements(batches[j]) !! Elements(batches[k])
  }

  /** Each key goes into one batch, and no batch is empty. */
  lemma {:induction false} BatchesCover(keys: seq<string>)
    ensures forall k :: 0 <= k < |Batches(keys)| ==> Batches(keys)[k] != []
    ensures forall key :: key in keys <==> exists k :: 0 <= k < |Batches(keys)| && key in Batches(keys)[k]
    ensures (forall j, k :: 0 <= j < k < |keys| ==> keys[j] != keys[k]) ==> Apart(Batches(keys))
    decreases |keys|
  {
    if |keys| > DELETE_BATCH {
      var first, rest := keys[..DELETE_BATCH], keys[DELETE_BATCH..];
      BatchesCover(rest);
      var all := Batches(keys);
      assert keys == first + rest;
      assert all[0] == first && all[1..] == Batches(rest);
      FirstAndRest(keys, first, rest, all);
    } else if keys != [] {
      assert Batches(keys)[0] == keys;
    }
  }

  lemma FirstAndRest(keys: seq<string>, first: seq<string>, rest: seq<string>, all: seq<seq<string>>)
    requires keys == first + rest && all != [] && all[0] == first
    requires forall key :: key in rest <==> exists k :: 0 <= k < |all[1..]| && key in all[1..][k]
    ensures forall key :: key in keys <==> exists k :: 0 <= k < |all| && key in all[k]
    ensures (forall j, k :: 0 <= j < k < |keys| ==> keys[j] != keys[k]) && Apart(all[1..]) ==> Apart(all)
  {
    forall key
      ensures key in keys <==> exists k :: 0 <= k < |all| && key in all[k]
    {
      if key in rest {
        var k :| 0 <= k < |all[1..]| && key in all[1..][k];
        assert key in all[k + 1];
      }
      if k :| 0 <= k < |all| && key in all[k] {
        assert k > 0 ==> key in all[1..][k - 1];
      }
    }
    if (forall j, k :: 0 <= j < k < |keys| ==> keys[j] != keys[k]) && Apart(all[1..]) {
      forall j, k | 0 <= j < k < |all|
        ensures Elements(all[j]) !! Elements(all[k])
      {
        assert all[k] == all[1..][k - 1];
        if j > 0 {
          assert all[j] == all[1..][j - 1];
        } else {
          forall key | key in Elements(all[k])
            ensures key !in Elements(first)
          {
            assert key in rest;
            NotInBoth(keys, first, rest, key);
          }
        }
      }
    }
  }

  /** The requests in a row. */
  function Chained(batches: seq<seq<string>>): seq<string> {
    if batches == [] then [] else batches[0] + Chained(batches[1..])
  }

  /** One after the other the requests hold the keys in their order, a thousand each and the rest in the last. */
  lemma {:induction false} BatchesSpelled(keys: seq<string>)
    ensures
      var batches := Batches(keys);
      && Chained(batches) == keys
      && (forall k :: 0 <= k < |batches| ==> 0 < |batches[k]| <= 1000)
      && (forall k :: 0 <= k < |batches| - 1 ==> |batches[k]| == 1000)
    decreases |keys|
  {
    var batches := Batches(keys);
    if |keys| > DELETE_BATCH {
      var first, rest := keys[..DELETE_BATCH], keys[DELETE_BATCH..];
      BatchesSpelled(rest);
      assert batches == [first] + Batches(rest) && batches[1..] == Batches(rest);
      assert keys == first + rest;
    } else if keys != [] {
      assert batches[1..] == [];
    }
  }

  lemma NotInBoth(keys: seq<string>, first: seq<string>, rest: seq<string>, key: string)
    requires keys == first + rest && forall j, k :: 0 <= j < k < |keys| ==> keys[j] != keys[k]
    requires key in rest
    ensures key !in first
  {
    var k :| 0 <= k < |rest| && rest[k] == key;
    assert keys[|first| + k] == key;
    assert forall j :: 0 <= j < |first| ==> keys[j] == first[j];
  }

  /**
   * A report that lists these keys as deleted is true, whatever the store did, exactly
   * when every reply said so: one that could not be read leaves it open for its keys.
   */
  lemma ReportTrueIff(keys: seq<string>, replies: seq<Reply>)
    requires forall j, k :: 0 <= j < k < |keys| ==> keys[j] != keys[k]
    requires |replies| == |Batches(keys)|
    ensures (forall gone :: MayDelete(Batches(keys), replies, gone) ==> gone == Elements(keys)) <==>
      forall k :: 0 <= k < |replies| ==> replies[k].Deleted?
  {
    var batches := Batches(keys);
    BatchesCover(keys);
    if k :| 0 <= k < |replies| && !replies[k].Deleted? {
      var gone := Elements(keys) - Elements(batches[k]);
      assert batches[k][0] in Elements(batches[k]) && batches[k][0] in keys;
      assert MayDelete(batches, replies, gone);
    } else {
      forall gone | MayDelete(batches, replies, gone)
        ensures gone == Elements(keys)
      {
      }
    }
  }

  lemma {:induction false} NoUnreads(replies: seq<Reply>)
    ensures Unreads(replies) == 0 <==> forall k :: 0 <= k < |replies| ==> !replies[k].Unread?
  {
    if replies != [] {
      var n := |replies| - 1;
      NoUnreads(replies[..n]);
      assert forall k :: 0 <= k < n ==> replies[..n][k] == replies[k];
    }
  }

  lemma NoneDeleted(keys: seq<string>)
    ensures MayDelete([], [], {}) && Unreads([]) == 0 && [] + Batches(keys[0..]) == Batches(keys)
  {
    assert keys[0..] == keys;
  }

  lemma NextBatch(keys: seq<string>, i: nat, n: nat, batches: seq<seq<string>>)
    requires i < |keys| && n == if i + DELETE_BATCH < |keys| then i + DELETE_BATCH else |keys|
    requires batches + Batches(keys[i..]) == Batches(keys)
    ensures (batches + [keys[i..n]]) + Batches(keys[n..]) == Batches(keys)
  {
    FirstBatch(keys, i, n);
    hide Batches;
  }

  lemma FirstBatch(keys: seq<string>, i: nat, n: nat)
    requires i < |keys| && n == if i + DELETE_BATCH < |keys| then i + DELETE_BATCH else |keys|
    ensures Batches(keys[i..]) == [keys[i..n]] + Batches(keys[n..])
  {
    var rest := keys[i..];
    if i + DELETE_BATCH < |keys| {
      assert rest[..DELETE_BATCH] == keys[i..n] && rest[DELETE_BATCH..] == keys[n..];
    } else {
      assert rest == keys[i..n] && keys[n..] == [];
      assert Batches(keys[n..]) == [];
    }
  }

  lemma AllDeleted(keys: seq<string>, batches: seq<seq<string>>, replies: seq<Reply>, gone: set<string>)
    requires MayDelete(batches, replies, gone) && batches + Batches(keys[|keys|..]) == Batches(keys)
    requires forall k :: 0 <= k < |replies| ==> !replies[k].Refused?
    ensures batches == Batches(keys)
    ensures Unreads(replies) == 0 ==> gone == Elements(keys)
  {
    assert keys[|keys|..] == [];
    BatchesCover(keys);
    NoUnreads(replies);
  }

  class RemoteCache {
    var objects: Bucket
    /** How many requests have failed, so that a caller's failure can be traced to one. */
    ghost var faults: nat

    constructor ()
      ensures objects == map[] && faults == 0
    {
      objects, faults := map[], 0;
    }

    method List(prefix: string) returns (r: Result<seq<Entry>>)
      modifies this`faults
      ensures r.Ok? ==> Lists(objects, prefix, r.value)
      ensures faults == old(faults) + if r.Err? then 1 else 0
    {
      if * {
        faults := faults + 1;
        return Err;
      }
      var entries: seq<Entry> := [];
      var todo := set key | key in objects && prefix <= key;
      while todo != {}
        invariant forall key :: key in todo ==> key in objects && prefix <= key
        invariant DistinctKeys(entries)
        invariant forall k :: 0 <= k < |entries| ==>
          entries[k].0 in objects && entries[k].0 !in todo && prefix <= entries[k].0
            && entries[k].1 == objects[entries[k].0].time
        invariant forall key :: key in objects && prefix <= key && key !in todo ==>
          exists k :: 0 <= k < |entries| && entries[k].0 == key
        decreases |todo|
      {
        var key :| key in todo;
        ghost var was := entries;
        entries := entries + [(key, objects[key].time)];
        assert entries[|was|].0 == key;
        assert forall k :: 0 <= k < |was| ==> entries[k] == was[k];
        todo := todo - {key};
      }
      return Ok(entries);
    }

    method Get(key: string) returns (r: Result<Option<Body>>)
      modifies this`faults
      ensures r.Ok? ==> r.value == if key in objects then Some(objects[key].body) else None
      ensures faults == old(faults) + if r.Err? then 1 else 0
    {
      if * {
        faults := faults + 1;
        r := Err;
      } else {
        r := Ok(if key in objects then Some(objects[key].body) else None);
      }
    }

    method Exists(key: string) returns (r: Result<bool>)
      modifies this`faults
      ensures r.Ok? ==> r.value == (key in objects)
      ensures faults == old(faults) + if r.Err? then 1 else 0
    {
      if * {
        faults := faults + 1;
        r := Err;
      } else {
        r := Ok(key in objects);
      }
    }

    /** A failed put may still have taken effect. */
    method Put(key: string, body: Body, now: Time) returns (r: Outcome)
      modifies this
      ensures r.Done? ==> objects == old(objects)[key := Object(body, now)]
      ensures objects == old(objects) || objects == old(objects)[key := Object(body, now)]
      ensures faults == old(faults) + if r.Failed? then 1 else 0
    {
      if * {
        faults := faults + 1;
        return Failed;
      }
      objects := objects[key := Object(body, now)];
      if * {
        faults := faults + 1;
        return Failed;
      }
      return Done;
    }

    /**
     * One batched delete. It may fail after deleting some of the keys, and a
     * success whose reply cannot be read (`unread`) does not say which ones went.
     */
    method DeleteBatch(keys: seq<string>) returns (r: Outcome, unread: bool, ghost gone: set<string>)
      modifies this
      ensures gone <= Elements(keys)
      ensures objects == old(objects) - gone
      ensures r.Done? && !unread ==> gone == Elements(keys)
      ensures unread ==> r.Done?
      ensures faults == old(faults) + if r.Failed? then 1 else 0
    {
      if * {
        gone := Elements(keys);
        objects := objects - Elements(keys);
        return Done, false, gone;
      }
      var some: set<string> := {};
      var i := 0;
      while i < |keys|
        invariant 0 <= i <= |keys|
        invariant some <= Elements(keys)
      {
        if * {
          some := some + {keys[i]};
        }
        i := i + 1;
      }
      gone := some;
      objects := objects - some;
      if * {
        return Done, true, gone;
      }
      faults := faults + 1;
      return Failed, false, gone;
    }

    /**
     * Delete every key, batch by batch; after a failed batch the others may or may not
     * be tried. `replies` are the answers, `gone` what was really deleted.
     */
    method DeleteMany(keys: seq<string>)
      returns (r: Outcome, unread: nat, ghost replies: seq<Reply>, ghost gone: set<string>)
      modifies this
      ensures gone <= Elements(keys)
      ensures objects == old(objects) - gone
      ensures r.Done? ==> MayDelete(Batches(keys), replies, gone) && unread == Unreads(replies)
      ensures r.Done? ==> forall k :: 0 <= k < |replies| ==> !replies[k].Refused?
      ensures r.Done? && unread == 0 ==> gone == Elements(keys)
      ensures old(faults) <= faults && (r.Failed? <==> old(faults) < faults)
    {
      hide MayDelete, Unreads, Batches;
      r, unread, replies, gone := Done, 0, [], {};
      ghost var batches: seq<seq<string>> := [];
      NoneDeleted(keys);
      var i := 0;
      while i < |keys|
        invariant 0 <= i <= |keys|
        invariant gone <= Elements(keys[..i])
        invariant objects == old(objects) - gone
        invariant MayDelete(batches, replies, gone) && batches + Batches(keys[i..]) == Batches(keys)
        invariant unread == Unreads(replies)
        invariant r.Done? ==> forall k :: 0 <= k < |replies| ==> !replies[k].Refused?
        invariant old(faults) <= faults && (r.Failed? <==> old(faults) < faults)
      {
        var n := if i + DELETE_BATCH < |keys| then i + DELETE_BATCH else |keys|;
        var outcome, lost, batch := DeleteBatch(keys[i..n]);
        ghost var reply := if outcome.Failed? then Refused else if lost then Unread else Deleted;
        NextBatch(keys, i, n, batches);
        MayDeleteMore(batches, replies, gone, keys[i..n], reply, batch);
        assert keys[..n] == keys[..i] + keys[i..n];
        batches, replies, gone := batches + [keys[i..n]], replies + [reply], gone + batch;
        if outcome.Failed? {
          r := Failed;
        }
        if lost {
          unread := unread + 1;
        }
        i := n;
        if outcome.Failed? {
          if * {
            break;
          }
        }
      }
      if r.Done? {
        AllDeleted(keys, batches, replies, gone);
      }
    }
  }
}
