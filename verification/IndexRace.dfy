/**
 * The store index under interleaving: a write and its index insertion are two
 * steps, a prune takes the index lock and checks files one at a time, and another
 * process deletes files at any moment. A rebuild is modelled too, to show why the
 * index is pruned and never rebuilt.
 */
module IndexRace {

  /** The index lock: free, or held by a prune with the entries it found gone. */
  datatype Lock = Free | Pruning(gone: set<string>)

  datatype State = State(
    disk: map<string, string>,      // hash -> URL of the narinfo file
    index: map<string, string>,
    pending: map<string, string>,   // written, not yet inserted
    lock: Lock,
    rebuilt: map<string, string>)   // what a rebuild has read so far

  ghost predicate Init(s: State) {
    s.index == s.disk && s.pending == map[] && s.lock == Free
  }

  /** `write_atomic`: the file is in place. One writer per name. */
  ghost predicate Write(s: State, s': State, h: string, url: string) {
    h !in s.pending && s' == s.(disk := s.disk[h := url], pending := s.pending[h := url])
  }

  ghost predicate Insert(s: State, s': State, h: string) {
    h in s.pending && s.lock.Free? && s' == s.(index := s.index[h := s.pending[h]], pending := s.pending - {h})
  }

  ghost predicate ForeignDelete(s: State, s': State, h: string) {
    h in s.disk && s' == s.(disk := s.disk - {h})
  }

  ghost predicate PruneBegin(s: State, s': State) {
    s.lock.Free? && s' == s.(lock := Pruning({}))
  }

  /** The prune looks for the file of one entry and does not find it. */
  ghost predicate PruneMiss(s: State, s': State, h: string) {
    s.lock.Pruning? && h in s.index && h !in s.disk && s' == s.(lock := Pruning(s.lock.gone + {h}))
  }

  ghost predicate PruneEnd(s: State, s': State) {
    s.lock.Pruning? && s' == s.(index := s.index - s.lock.gone, lock := Free)
  }

  ghost predicate Step(s: State, s': State) {
    || (exists h, url :: Write(s, s', h, url))
    || (exists h :: Insert(s, s', h))
    || (exists h :: ForeignDelete(s, s', h))
    || PruneBegin(s, s')
    || (exists h :: PruneMiss(s, s', h))
    || PruneEnd(s, s')
  }

  ghost predicate Run(states: seq<State>) {
    && states != [] && Init(states[0])
    && forall n :: 0 <= n < |states| - 1 ==> Step(states[n], states[n + 1])
  }

  /** Every narinfo on disk is indexed under its URL, or its insertion is still to come. */
  ghost predicate Covered(s: State, h: string) {
    h in s.disk ==> (h in s.index && s.index[h] == s.disk[h]) || (h in s.pending && s.pending[h] == s.disk[h])
  }

  ghost predicate InvAt(s: State, h: string) {
    && Covered(s, h)
    && (h in s.pending && h in s.disk ==> s.pending[h] == s.disk[h])
    && (s.lock.Pruning? && h in s.lock.gone && h in s.disk ==> h in s.pending)
  }

  ghost predicate Inv(s: State) {
    forall h :: InvAt(s, h)
  }

  lemma WriterAt(s: State, s': State, h: string)
    requires InvAt(s, h) && ((exists x, url :: Write(s, s', x, url)) || exists x :: Insert(s, s', x))
    ensures InvAt(s', h)
  {
  }

  lemma DeleteAt(s: State, s': State, h: string)
    requires InvAt(s, h) && exists x :: ForeignDelete(s, s', x)
    ensures InvAt(s', h)
  {
  }

  lemma PruneAt(s: State, s': State, h: string)
    requires InvAt(s, h) && (PruneBegin(s, s') || PruneEnd(s, s') || exists x :: PruneMiss(s, s', x))
    ensures InvAt(s', h)
  {
  }

  lemma StepAt(s: State, s': State, h: string)
    requires InvAt(s, h) && Step(s, s')
    ensures InvAt(s', h)
  {
    hide InvAt, Write, Insert, ForeignDelete, PruneBegin, PruneMiss, PruneEnd;
    if (exists x, url :: Write(s, s', x, url)) || exists x :: Insert(s, s', x) {
      WriterAt(s, s', h);
    } else if x :| ForeignDelete(s, s', x) {
      DeleteAt(s, s', h);
    } else {
      PruneAt(s, s', h);
    }
  }

  lemma StepKeepsInv(s: State, s': State)
    requires Inv(s) && Step(s, s')
    ensures Inv(s')
  {
    hide Step, InvAt;
    forall h
      ensures InvAt(s', h)
    {
      StepAt(s, s', h);
    }
  }

  /** However writers, prunes and foreign deletions interleave, no narinfo on disk drops out of the index. */
  lemma {:induction false} NeverLost(states: seq<State>, n: int)
    requires Run(states) && 0 <= n < |states|
    ensures Inv(states[n])
    ensures states[n].pending == map[] ==> forall h :: h in states[n].disk ==>
      h in states[n].index && states[n].index[h] == states[n].disk[h]
    decreases n
  {
    if n > 0 {
      NeverLost(states, n - 1);
      StepKeepsInv(states[n - 1], states[n]);
    }
    forall h | states[n].pending == map[] && h in states[n].disk
      ensures h in states[n].index && states[n].index[h] == states[n].disk[h]
    {
      assert InvAt(states[n], h);
    }
  }

  // --- a rebuild would lose entries ------------------------------------------

  /** `scan` reads the directory without the lock, then swaps its result in. */
  ghost predicate RebuildRead(s: State, s': State) {
    s' == s.(rebuilt := s.disk)
  }

  ghost predicate RebuildSwap(s: State, s': State) {
    s.lock.Free? && s' == s.(index := s.rebuilt)
  }

  /** An indexed file missing from the index with no insertion to come: nothing but a new write brings it back. */
  ghost predicate Lost(s: State, h: string) {
    h in s.disk && h !in s.index && h !in s.pending
  }

  /** A rebuild whose read and swap straddle a write loses that write's entry. */
  lemma RebuildLoses(h: string, url: string)
    ensures exists s0, s1, s2, s3, s4 ::
      Init(s0) && RebuildRead(s0, s1) && Write(s1, s2, h, url) && Insert(s2, s3, h) && RebuildSwap(s3, s4)
        && Lost(s4, h)
  {
    var s0 := State(map[], map[], map[], Free, map[]);
    var s1 := s0.(rebuilt := s0.disk);
    var s2 := s1.(disk := s1.disk[h := url], pending := s1.pending[h := url]);
    var s3 := s2.(index := s2.index[h := url], pending := s2.pending - {h});
    var s4 := s3.(index := s3.rebuilt);
    assert RebuildRead(s0, s1) && Write(s1, s2, h, url) && Insert(s2, s3, h) && RebuildSwap(s3, s4) && Lost(s4, h);
  }

  /** Pruning never repairs it: a lost entry stays lost until the file is deleted or written again. */
  lemma LostForGood(s: State, s': State, h: string)
    requires Lost(s, h) && Step(s, s')
    requires !exists url :: Write(s, s', h, url)
    ensures Lost(s', h) || h !in s'.disk
  {
  }
}
