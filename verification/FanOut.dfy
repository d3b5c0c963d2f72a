/** The worker pool: every schedule of the workers, as a state machine over their atomic steps. */
module FanOut {
  import opened Wrappers
  import opened Sets

  const FANOUT: nat := 32

  /** What a worker is doing: about to take the next index, running `f` on one, or done. */
  datatype Phase = Ready | Holding(item: int) | Finished | Stopped(item: int)

  /** `out` is the worker's vector of results; `seen` records which items they came from. */
  datatype Worker<R> = Worker(phase: Phase, out: seq<R>, seen: seq<int>)

  /** `next` is the shared counter every worker draws from. */
  datatype Pool<R> = Pool(next: int, workers: seq<Worker<R>>)

  function Workers(n: nat): nat {
    if FANOUT < n then FANOUT else n
  }

  /** Not more workers than there are items, and never more than 32. */
  lemma WorkersSpelled(n: nat)
    ensures Workers(n) <= n && Workers(n) <= 32 && (Workers(n) == n || Workers(n) == 32)
  {
  }

  ghost predicate Init<R>(s: Pool<R>, n: nat) {
    && s.next == 0
    && |s.workers| == Workers(n)
    && forall w :: 0 <= w < |s.workers| ==> s.workers[w] == Worker(Ready, [], [])
  }

  /** `next.fetch_add(1)`: take an index, or find the items exhausted. */
  ghost predicate Take<R>(s: Pool<R>, s': Pool<R>, n: nat, w: int) {
    && 0 <= w < |s.workers| && s.workers[w].phase.Ready?
    && s' == Pool(s.next + 1, s.workers[w := s.workers[w].(phase := if s.next < n then Holding(s.next) else Finished)])
  }

  /** `f(item)` returns: push the result, or stop on its error. */
  ghost predicate Return<T, R>(s: Pool<R>, s': Pool<R>, items: seq<T>, f: T -> Result<R>, w: int) {
    && 0 <= w < |s.workers| && s.workers[w].phase.Holding?
    && var worker := s.workers[w];
    var i := worker.phase.item;
    && 0 <= i < |items|
    && s' == s.(workers := s.workers[w :=
        match f(items[i])
        case Ok(r) => Worker(Ready, worker.out + [r], worker.seen + [i])
        case Err => worker.(phase := Stopped(i))])
  }

  ghost predicate Step<T, R>(s: Pool<R>, s': Pool<R>, items: seq<T>, f: T -> Result<R>) {
    exists w :: Take(s, s', |items|, w) || Return(s, s', items, f, w)
  }

  ghost predicate Run<T, R>(states: seq<Pool<R>>, items: seq<T>, f: T -> Result<R>) {
    && states != []
    && Init(states[0], |items|)
    && forall n :: 0 <= n < |states| - 1 ==> Step(states[n], states[n + 1], items, f)
  }

  ghost predicate Ended<R>(s: Pool<R>) {
    forall w :: 0 <= w < |s.workers| ==> s.workers[w].phase.Finished? || s.workers[w].phase.Stopped?
  }

  function Concat<A>(parts: seq<seq<A>>): seq<A> {
    if parts == [] then [] else Concat(parts[..|parts| - 1]) + parts[|parts| - 1]
  }

  ghost function Outs<R>(workers: seq<Worker<R>>): seq<R> {
    Concat(seq(|workers|, w requires 0 <= w < |workers| => workers[w].out))
  }

  ghost function Visits<R>(workers: seq<Worker<R>>): seq<int> {
    Concat(seq(|workers|, w requires 0 <= w < |workers| => workers[w].seen))
  }

  /** Join every worker in turn: all results, or the first error. */
  ghost function Join<R>(s: Pool<R>): Result<seq<R>> {
    if exists w :: 0 <= w < |s.workers| && s.workers[w].phase.Stopped? then Err
    else Ok(Outs(s.workers))
  }

  // --- each index is claimed exactly once ----------------------------------

  ghost function Claim<R>(w: Worker<R>): multiset<int> {
    multiset(w.seen) + (if w.phase.Holding? || w.phase.Stopped? then multiset{w.phase.item} else multiset{})
  }

  ghost function Claims<R>(workers: seq<Worker<R>>): multiset<int> {
    if workers == [] then multiset{} else Claims(workers[..|workers| - 1]) + Claim(workers[|workers| - 1])
  }

  ghost function UpTo(n: int): multiset<int> {
    if n <= 0 then multiset{} else UpTo(n - 1) + multiset{n - 1}
  }

  lemma {:induction false} UpToHas(n: int, i: int)
    ensures UpTo(n)[i] == if 0 <= i < n then 1 else 0
    decreases n
  {
    if n > 0 {
      UpToHas(n - 1, i);
    }
  }

  lemma Regroup(a: multiset<int>, b: multiset<int>, c: multiset<int>, d: multiset<int>, rest: multiset<int>)
    requires a + b == c + d
    ensures (a + rest) + b == (c + rest) + d
  {
    assert (a + rest) + b == (a + b) + rest;
    assert (c + rest) + d == (c + d) + rest;
  }

  lemma {:induction false} ClaimsUpdate<R>(workers: seq<Worker<R>>, w: int, x: Worker<R>)
    requires 0 <= w < |workers|
    ensures Claims(workers[w := x]) + Claim(workers[w]) == Claims(workers) + Claim(x)
  {
    var last := |workers| - 1;
    if w == last {
      assert workers[w := x][..last] == workers[..last];
    } else {
      ClaimsUpdate(workers[..last], w, x);
      assert workers[w := x][..last] == workers[..last][w := x];
      Regroup(Claims(workers[..last][w := x]), Claim(workers[w]), Claims(workers[..last]), Claim(x),
        Claim(workers[last]));
    }
  }

  lemma {:induction false} NoClaims<R>(workers: seq<Worker<R>>)
    requires forall w :: 0 <= w < |workers| ==> workers[w] == Worker(Ready, [], [])
    ensures Claims(workers) == multiset{}
  {
    if workers != [] {
      NoClaims(workers[..|workers| - 1]);
    }
  }

  ghost predicate WorkerOk<T, R>(w: Worker<R>, items: seq<T>, f: T -> Result<R>) {
    && |w.out| == |w.seen|
    && (forall k :: 0 <= k < |w.seen| ==> 0 <= w.seen[k] < |items| && f(items[w.seen[k]]) == Ok(w.out[k]))
    && (w.phase.Holding? ==> 0 <= w.phase.item < |items|)
    && (w.phase.Stopped? ==> 0 <= w.phase.item < |items| && f(items[w.phase.item]) == Err)
  }

  ghost predicate Inv<T, R>(s: Pool<R>, items: seq<T>, f: T -> Result<R>) {
    && 0 <= s.next
    && |s.workers| == Workers(|items|)
    && WorkersOk(s, items, f)
    && ClaimedOnce(s, |items|)
  }

  ghost predicate WorkersOk<T, R>(s: Pool<R>, items: seq<T>, f: T -> Result<R>) {
    forall w :: 0 <= w < |s.workers| ==>
      WorkerOk(s.workers[w], items, f) && (s.workers[w].phase.Finished? ==> |items| <= s.next)
  }

  ghost predicate ClaimedOnce<R>(s: Pool<R>, n: nat) {
    Claims(s.workers) == UpTo(if s.next < n then s.next else n)
  }

  lemma Cancel(a: multiset<int>, b: multiset<int>, c: multiset<int>, d: multiset<int>)
    requires a + b == c + (b + d)
    ensures a == c + d
  {
    assert c + (b + d) == (c + d) + b;
    assert a == (a + b) - b;
    assert c + d == ((c + d) + b) - b;
  }

  lemma ClaimTaken<R>(x: Worker<R>, i: int)
    requires x.phase.Ready?
    ensures Claim(x.(phase := Holding(i))) == Claim(x) + multiset{i}
    ensures Claim(x.(phase := Finished)) == Claim(x) + multiset{}
  {
  }

  lemma ClaimReturned<R>(x: Worker<R>, r: R)
    requires x.phase.Holding?
    ensures Claim(Worker(Ready, x.out + [r], x.seen + [x.phase.item])) == Claim(x) + multiset{}
    ensures Claim(x.(phase := Stopped(x.phase.item))) == Claim(x) + multiset{}
  {
  }

  lemma ClaimsChange<R>(workers: seq<Worker<R>>, w: int, x: Worker<R>, d: multiset<int>)
    requires 0 <= w < |workers| && Claim(x) == Claim(workers[w]) + d
    ensures Claims(workers[w := x]) == Claims(workers) + d
  {
    ClaimsUpdate(workers, w, x);
    Cancel(Claims(workers[w := x]), Claim(workers[w]), Claims(workers), d);
  }

  lemma TakeClaims<R>(workers: seq<Worker<R>>, w: int, next: nat, n: nat)
    requires 0 <= w < |workers| && workers[w].phase.Ready?
    requires Claims(workers) == UpTo(if next < n then next else n)
    ensures next < n ==> Claims(workers[w := workers[w].(phase := Holding(next))]) == UpTo(next + 1)
    ensures next >= n ==> Claims(workers[w := workers[w].(phase := Finished)]) == UpTo(n)
  {
    var x := workers[w];
    ClaimTaken(x, next);
    ClaimsChange(workers, w, x.(phase := Holding(next)), multiset{next});
    ClaimsChange(workers, w, x.(phase := Finished), multiset{});
  }

  lemma TakeKeepsClaims<R>(s: Pool<R>, s': Pool<R>, n: nat, w: int)
    requires 0 <= s.next && Take(s, s', n, w) && ClaimedOnce(s, n)
    ensures ClaimedOnce(s', n)
  {
    TakeClaims(s.workers, w, s.next, n);
  }

  lemma ReturnKeepsClaims<T, R>(s: Pool<R>, s': Pool<R>, items: seq<T>, f: T -> Result<R>, w: int)
    requires Return(s, s', items, f, w) && ClaimedOnce(s, |items|)
    ensures ClaimedOnce(s', |items|)
  {
    var x := s.workers[w];
    var r := f(items[x.phase.item]);
    if r.Ok? {
      ClaimReturned(x, r.value);
    }
    ClaimsChange(s.workers, w, s'.workers[w], multiset{});
  }

  lemma StepKeepsWorkers<T, R>(s: Pool<R>, s': Pool<R>, items: seq<T>, f: T -> Result<R>, w: int)
    requires Take(s, s', |items|, w) || Return(s, s', items, f, w)
    requires 0 <= s.next && WorkersOk(s, items, f)
    ensures WorkersOk(s', items, f)
  {
    var x := s.workers[w];
    assert WorkerOk(x, items, f);
  }

  lemma StepKeepsInv<T, R>(s: Pool<R>, s': Pool<R>, items: seq<T>, f: T -> Result<R>)
    requires Inv(s, items, f) && Step(s, s', items, f)
    ensures Inv(s', items, f)
  {
    var w :| Take(s, s', |items|, w) || Return(s, s', items, f, w);
    StepKeepsWorkers(s, s', items, f, w);
    if Take(s, s', |items|, w) {
      TakeKeepsClaims(s, s', |items|, w);
    } else {
      ReturnKeepsClaims(s, s', items, f, w);
    }
  }

  lemma {:induction false} RunInv<T, R>(states: seq<Pool<R>>, items: seq<T>, f: T -> Result<R>)
    requires Run(states, items, f)
    ensures Inv(states[|states| - 1], items, f)
    decreases |states|
  {
    var n := |states| - 1;
    if n == 0 {
      NoClaims(states[0].workers);
    } else {
      var prefix := states[..n];
      assert Run(prefix, items, f) by {
        forall k | 0 <= k < |prefix| - 1
          ensures Step(prefix[k], prefix[k + 1], items, f)
        {
          assert Step(states[k], states[k + 1], items, f);
        }
      }
      RunInv(prefix, items, f);
      assert Step(states[n - 1], states[n], items, f);
      StepKeepsInv(states[n - 1], states[n], items, f);
    }
  }

  // --- what a finished run returns -----------------------------------------

  lemma {:induction false} VisitsAreClaims<R>(workers: seq<Worker<R>>)
    requires forall w :: 0 <= w < |workers| ==> workers[w].phase.Finished?
    ensures multiset(Visits(workers)) == Claims(workers)
  {
    if workers != [] {
      var front := workers[..|workers| - 1];
      VisitsAreClaims(front);
      VisitsSplit(workers);
    }
  }

  lemma VisitsSplit<R>(workers: seq<Worker<R>>)
    requires workers != []
    ensures Visits(workers) == Visits(workers[..|workers| - 1]) + workers[|workers| - 1].seen
    ensures Outs(workers) == Outs(workers[..|workers| - 1]) + workers[|workers| - 1].out
  {
    var n := |workers| - 1;
    var seens := seq(|workers|, w requires 0 <= w < |workers| => workers[w].seen);
    var outs := seq(|workers|, w requires 0 <= w < |workers| => workers[w].out);
    assert seens[..n] == seq(n, w requires 0 <= w < n => workers[..n][w].seen);
    assert outs[..n] == seq(n, w requires 0 <= w < n => workers[..n][w].out);
  }

  lemma {:induction false} OutsFollowVisits<T, R>(workers: seq<Worker<R>>, items: seq<T>, f: T -> Result<R>)
    requires forall w :: 0 <= w < |workers| ==> WorkerOk(workers[w], items, f)
    ensures |Outs(workers)| == |Visits(workers)|
    ensures forall k :: 0 <= k < |Visits(workers)| ==>
      0 <= Visits(workers)[k] < |items| && f(items[Visits(workers)[k]]) == Ok(Outs(workers)[k])
  {
    if workers != [] {
      OutsFollowVisits(workers[..|workers| - 1], items, f);
      VisitsSplit(workers);
    }
  }

  lemma OnceEach(order: seq<int>, n: nat)
    requires multiset(order) == UpTo(n)
    ensures Injective(order, n)
    ensures |order| == n
  {
    forall k | 0 <= k < |order|
      ensures 0 <= order[k] < n
    {
      UpToHas(n, order[k]);
      assert order[k] in multiset(order);
    }
    forall j, k | 0 <= j < |order| && 0 <= k < |order| && order[j] == order[k]
      ensures j == k
    {
      UpToHas(n, order[k]);
      TwiceCounted(order, j, k);
    }
    assert |multiset(order)| == |order|;
    UpToSize(n);
  }

  lemma {:induction false} UpToSize(n: nat)
    ensures |UpTo(n)| == n
  {
    if n > 0 {
      UpToSize(n - 1);
    }
  }

  lemma TwiceCounted(order: seq<int>, j: int, k: int)
    requires 0 <= j < |order| && 0 <= k < |order| && order[j] == order[k]
    ensures j != k ==> multiset(order)[order[k]] >= 2
  {
    if j != k {
      var a, b := if j < k then j else k, if j < k then k else j;
      assert order == order[..a] + [order[a]] + order[a + 1..b] + [order[b]] + order[b + 1..];
    }
  }

  /** `out` is `f` over all the items, each visited exactly once, in the order `order`. */
  ghost predicate ResultsOf<T, R>(items: seq<T>, f: T -> Result<R>, out: seq<R>, order: seq<int>) {
    && |order| == |items| == |out|
    && Injective(order, |items|)
    && forall k :: 0 <= k < |order| ==> f(items[order[k]]) == Ok(out[k])
  }

  lemma AllFinished<T, R>(s: Pool<R>, items: seq<T>, f: T -> Result<R>)
    requires Inv(s, items, f) && Ended(s) && Join(s).Ok?
    ensures ResultsOf(items, f, Outs(s.workers), Visits(s.workers))
  {
    assert forall w :: 0 <= w < |s.workers| ==> s.workers[w].phase.Finished?;
    if |items| > 0 {
      assert s.workers[0].phase.Finished?;
    }
    var order := Visits(s.workers);
    VisitsAreClaims(s.workers);
    OnceEach(order, |items|);
    OutsFollowVisits(s.workers, items, f);
  }

  /**
   * Whatever the schedule: the pool succeeds exactly when `f` succeeds on every
   * item, and then its results are `f` over all items, each item visited exactly
   * once, in some order.
   */
  lemma FanOutResult<T, R>(states: seq<Pool<R>>, items: seq<T>, f: T -> Result<R>)
    requires Run(states, items, f) && Ended(states[|states| - 1])
    ensures
      var result := Join(states[|states| - 1]);
      (result.Ok? <==> forall i :: 0 <= i < |items| ==> f(items[i]).Ok?)
      && (result.Ok? ==> exists order :: ResultsOf(items, f, result.value, order))
  {
    var s := states[|states| - 1];
    RunInv(states, items, f);
    if Join(s).Ok? {
      AllFinished(s, items, f);
      var order := Visits(s.workers);
      forall i | 0 <= i < |items|
        ensures f(items[i]).Ok?
      {
        var k := SourceOf(order, |items|, i);
        assert f(items[order[k]]) == Ok(Outs(s.workers)[k]);
      }
    } else {
      var w :| 0 <= w < |s.workers| && s.workers[w].phase.Stopped?;
      assert WorkerOk(s.workers[w], items, f);
    }
  }

  // --- every schedule ends --------------------------------------------------

  /** Work left: a worker still has to take or return, and an untaken item needs both. */
  ghost function PhaseCost<R>(w: Worker<R>): nat {
    match w.phase
    case Ready => 1
    case Holding(_) => 2
    case Finished => 0
    case Stopped(_) => 0
  }

  ghost function Cost<R>(workers: seq<Worker<R>>): nat {
    if workers == [] then 0 else Cost(workers[..|workers| - 1]) + PhaseCost(workers[|workers| - 1])
  }

  ghost function Left<R>(s: Pool<R>, n: nat): int {
    Cost(s.workers) + (if s.next < n then 2 * (n - s.next) else 0)
  }

  lemma {:induction false} CostUpdate<R>(workers: seq<Worker<R>>, w: int, x: Worker<R>)
    requires 0 <= w < |workers|
    ensures Cost(workers[w := x]) + PhaseCost(workers[w]) == Cost(workers) + PhaseCost(x)
  {
    var last := |workers| - 1;
    if w == last {
      assert workers[w := x][..last] == workers[..last];
    } else {
      CostUpdate(workers[..last], w, x);
      assert workers[w := x][..last] == workers[..last][w := x];
    }
  }

  /** No deadlock, and every step uses up work: each schedule ends within a fixed number of steps. */
  lemma Progress<T, R>(s: Pool<R>, items: seq<T>, f: T -> Result<R>)
    requires Inv(s, items, f)
    ensures Ended(s) <==> !exists s' :: Step(s, s', items, f)
    ensures forall s' :: Step(s, s', items, f) ==> 0 <= Left(s', |items|) < Left(s, |items|)
  {
    hide Inv;
    forall s' | Step(s, s', items, f)
      ensures 0 <= Left(s', |items|) < Left(s, |items|)
      ensures !Ended(s)
    {
      StepUsesUp(s, s', items, f);
    }
    if !Ended(s) {
      CanStep(s, items, f);
    }
  }

  lemma StepUsesUp<T, R>(s: Pool<R>, s': Pool<R>, items: seq<T>, f: T -> Result<R>)
    requires Step(s, s', items, f)
    ensures 0 <= Left(s', |items|) < Left(s, |items|) && !Ended(s)
  {
    var w :| Take(s, s', |items|, w) || Return(s, s', items, f, w);
    CostUpdate(s.workers, w, s'.workers[w]);
    hide Cost;
  }

  lemma CanStep<T, R>(s: Pool<R>, items: seq<T>, f: T -> Result<R>)
    requires Inv(s, items, f) && !Ended(s)
    ensures exists s' :: Step(s, s', items, f)
  {
    hide ClaimedOnce;
    var w :| 0 <= w < |s.workers| && !s.workers[w].phase.Finished? && !s.workers[w].phase.Stopped?;
    var worker := s.workers[w];
    assert WorkerOk(worker, items, f);
    if worker.phase.Ready? {
      var s' :=
        Pool(s.next + 1, s.workers[w := worker.(phase := if s.next < |items| then Holding(s.next) else Finished)]);
      assert Take(s, s', |items|, w);
      assert Step(s, s', items, f);
    } else {
      var i := worker.phase.item;
      var s' := s.(workers := s.workers[w :=
        match f(items[i])
        case Ok(r) => Worker(Ready, worker.out + [r], worker.seen + [i])
        case Err => worker.(phase := Stopped(i))]);
      assert Return(s, s', items, f, w);
      assert Step(s, s', items, f);
    }
  }
}
