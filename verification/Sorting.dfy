/** Strings in byte order: sorting them, and sorting without repetition. */
module Sorting {

  function Leq(a: string, b: string): bool {
    if a == "" then true
    else if b == "" then false
    else if a[0] != b[0] then a[0] < b[0]
    else Leq(a[1..], b[1..])
  }

  function Insert(x: string, s: seq<string>): seq<string> {
    if s == [] then [x]
    else if Leq(s[|s| - 1], x) then s + [x]
    else Insert(x, s[..|s| - 1]) + [s[|s| - 1]]
  }

  function Sorted(s: seq<string>): (r: seq<string>)
  {
    if s == [] then [] else Insert(s[|s| - 1], Sorted(s[..|s| - 1]))
  }

  ghost predicate Ordered(s: seq<string>) {
    forall i, j :: 0 <= i < j < |s| ==> Leq(s[i], s[j])
  }

  lemma {:induction false} LeqTotal(a: string, b: string)
    ensures Leq(a, b) || Leq(b, a)
    ensures Leq(a, b) && Leq(b, a) ==> a == b
  {
    if a != "" && b != "" && a[0] == b[0] {
      LeqTotal(a[1..], b[1..]);
      assert a == [a[0]] + a[1..] && b == [b[0]] + b[1..];
    }
  }

  lemma {:induction false} LeqTransitive(a: string, b: string, c: string)
    requires Leq(a, b) && Leq(b, c)
    ensures Leq(a, c)
  {
    if a != "" && c != "" && a[0] == b[0] == c[0] {
      LeqTransitive(a[1..], b[1..], c[1..]);
    }
  }

  /** `a` and `b` first differ at `k`, and `a` is smaller there. */
  predicate SmallerAt(a: string, b: string, k: nat) {
    k < |a| && k < |b| && a[..k] == b[..k] && a[k] < b[k]
  }

  /** Strictly before in byte order: a proper beginning, or smaller where the two first differ. */
  predicate Before(a: string, b: string) {
    (a != b && a <= b) || exists k: nat | k < |a| :: SmallerAt(a, b, k)
  }

  lemma {:induction false} LeqSpelled(a: string, b: string)
    ensures Leq(a, b) <==> a == b || Before(a, b)
  {
    if a != "" && b != "" {
      if a[0] == b[0] {
        LeqSpelled(a[1..], b[1..]);
        assert a == [a[0]] + a[1..] && b == [b[0]] + b[1..];
        BeforeTails(a, b);
      } else {
        HeadDecides(a, b);
      }
    }
  }

  lemma HeadDecides(a: string, b: string)
    requires a != "" && b != "" && a[0] != b[0]
    ensures Before(a, b) <==> a[0] < b[0]
  {
    if a[0] < b[0] {
      assert a[..0] == b[..0];
      assert SmallerAt(a, b, 0);
    }
    forall k: nat | SmallerAt(a, b, k)
      ensures k == 0
    {
      HeadsAgree(a, b, k);
    }
  }

  lemma HeadsAgree(a: string, b: string, k: nat)
    requires SmallerAt(a, b, k)
    ensures k == 0 || a[0] == b[0]
  {
    if k > 0 {
      assert a[0] == a[..k][0] == b[..k][0];
    }
  }

  lemma SmallerTails(a: string, b: string, k: nat)
    requires a != "" && b != "" && a[0] == b[0]
    ensures SmallerAt(a, b, k + 1) <==> SmallerAt(a[1..], b[1..], k)
  {
    if k + 1 < |a| && k + 1 < |b| {
      assert a[..k + 1] == [a[0]] + a[1..][..k] && b[..k + 1] == [b[0]] + b[1..][..k];
    }
  }

  lemma BeforeTails(a: string, b: string)
    requires a != "" && b != "" && a[0] == b[0]
    ensures Before(a, b) <==> Before(a[1..], b[1..])
  {
    hide SmallerAt;
    var p, q := a[1..], b[1..];
    assert a == [a[0]] + p && b == [b[0]] + q;
    NotAtHead(a, b);
    if k: nat :| k < |a| && SmallerAt(a, b, k) {
      SmallerTails(a, b, k - 1);
    }
    if k: nat :| k < |p| && SmallerAt(p, q, k) {
      SmallerTails(a, b, k);
    }
  }

  lemma NotAtHead(a: string, b: string)
    requires a != "" && b != "" && a[0] == b[0]
    ensures !SmallerAt(a, b, 0)
  {
  }

  /** None of these comes before one in front of it. */
  ghost predicate Ascending(s: seq<string>) {
    forall i, j :: 0 <= i < j < |s| ==> !Before(s[j], s[i])
  }

  /** Each comes before all behind it. */
  ghost predicate StrictlyAscending(s: seq<string>) {
    forall i, j :: 0 <= i < j < |s| ==> Before(s[i], s[j])
  }

  lemma OrderedAscends(s: seq<string>)
    ensures Ordered(s) <==> Ascending(s)
    ensures Strict(s) ==> StrictlyAscending(s)
  {
    hide Leq, Before;
    forall i, j | 0 <= i < j < |s|
      ensures Leq(s[i], s[j]) <==> !Before(s[j], s[i])
      ensures Leq(s[i], s[j]) && s[i] != s[j] ==> Before(s[i], s[j])
    {
      LeqSpelled(s[i], s[j]);
      LeqSpelled(s[j], s[i]);
      LeqTotal(s[i], s[j]);
      NotBeforeItself(s[i]);
    }
  }

  lemma NotBeforeItself(a: string)
    ensures !Before(a, a)
  {
  }

  lemma {:induction false} InsertSorts(x: string, s: seq<string>)
    requires Ordered(s)
    ensures Ordered(Insert(x, s)) && multiset(Insert(x, s)) == multiset(s) + multiset{x}
  {
    if s != [] {
      var init, last := s[..|s| - 1], s[|s| - 1];
      assert s == init + [last];
      if Leq(last, x) {
        InsertHere(x, s);
        hide Leq, Insert;
        forall i | 0 <= i < |s|
          ensures Leq(s[i], x)
        {
          if i < |init| {
            LeqTransitive(s[i], last, x);
          }
        }
      } else {
        LeqTotal(last, x);
        InsertLast(x, s);
        hide Leq, Insert;
        InsertSorts(x, init);
        InsertBelow(x, init, Insert(x, init), last);
      }
    }
  }

  /** What is sorted in below the last element stays below it. */
  lemma InsertBelow(x: string, init: seq<string>, r: seq<string>, last: string)
    requires Ordered(init + [last]) && Leq(x, last)
    requires Ordered(r) && multiset(r) == multiset(init) + multiset{x}
    ensures Ordered(r + [last]) && multiset(r + [last]) == multiset(init + [last]) + multiset{x}
  {
    hide Leq;
    forall i | 0 <= i < |r|
      ensures Leq(r[i], last)
    {
      assert r[i] in multiset(r);
      if r[i] != x {
        assert r[i] in multiset(init);
        var k :| 0 <= k < |init| && init[k] == r[i];
        assert (init + [last])[k] == r[i] && (init + [last])[|init|] == last;
      }
    }
  }

  lemma AddLast(s: seq<string>)
    requires s != []
    ensures multiset(s) == multiset(s[..|s| - 1]) + multiset{s[|s| - 1]}
  {
    assert s == s[..|s| - 1] + [s[|s| - 1]];
  }

  lemma {:induction false} SortedSorts(s: seq<string>)
    ensures Ordered(Sorted(s)) && multiset(Sorted(s)) == multiset(s)
  {
    hide Insert, Leq;
    if s != [] {
      var init := s[..|s| - 1];
      SortedSorts(init);
      InsertSorts(s[|s| - 1], Sorted(init));
      AddLast(s);
    }
  }

  lemma DropLast(s: seq<string>)
    requires s != []
    ensures multiset(s[..|s| - 1]) == multiset(s) - multiset{s[|s| - 1]}
  {
    AddLast(s);
  }

  /** An ordered sequence is determined by its elements. */
  lemma {:induction false} OrderedUnique(a: seq<string>, b: seq<string>)
    requires Ordered(a) && Ordered(b) && multiset(a) == multiset(b)
    ensures a == b
  {
    SameSize(a, b);
    if a != [] {
      SameLast(a, b);
      DropLast(a);
      DropLast(b);
      OrderedUnique(a[..|a| - 1], b[..|b| - 1]);
      assert a == a[..|a| - 1] + [a[|a| - 1]] && b == b[..|b| - 1] + [b[|b| - 1]];
    }
  }

  lemma SameSize(a: seq<string>, b: seq<string>)
    requires multiset(a) == multiset(b)
    ensures |a| == |b|
  {
    assert |a| == |multiset(a)| == |multiset(b)| == |b|;
  }

  lemma SameLast(a: seq<string>, b: seq<string>)
    requires Ordered(a) && Ordered(b) && multiset(a) == multiset(b) && a != [] && b != []
    ensures a[|a| - 1] == b[|b| - 1]
  {
    var x, y := a[|a| - 1], b[|b| - 1];
    assert x in multiset(b) && y in multiset(a);
    LeqLast(b, x);
    LeqLast(a, y);
    LeqTotal(x, y);
  }

  lemma LeqLast(s: seq<string>, x: string)
    requires Ordered(s) && x in s
    ensures Leq(x, s[|s| - 1])
  {
    var i :| 0 <= i < |s| && s[i] == x;
    LeqTotal(x, x);
  }

  /** Sorting forgets the order and nothing else. */
  lemma SortedIff(a: seq<string>, b: seq<string>)
    ensures Sorted(a) == Sorted(b) <==> multiset(a) == multiset(b)
  {
    SortedSorts(a);
    SortedSorts(b);
    if multiset(a) == multiset(b) {
      OrderedUnique(Sorted(a), Sorted(b));
    }
  }

  /** Insertion sort in place, for the library sort the source calls. */
  method SortInPlace(a: array<string>)
    modifies a
    ensures a[..] == Sorted(old(a[..]))
    ensures Ascending(a[..]) && multiset(a[..]) == multiset(old(a[..]))
  {
    hide Ascending, Ordered;
    for i := 0 to a.Length
      invariant a[..i] == Sorted(old(a[..i]))
      invariant a[i..] == old(a[i..])
    {
      assert old(a[..i + 1])[..i] == old(a[..i]);
      assert a[i] == a[i..][0] == old(a[i..])[0];
      InsertInPlace(a, i);
      assert a[i + 1..] == old(a[i..])[1..];
    }
    assert a[..a.Length] == a[..];
    assert old(a[..a.Length]) == old(a[..]);
    SortedSorts(old(a[..]));
    OrderedAscends(a[..]);
  }

  lemma InsertLast(x: string, s: seq<string>)
    requires s != []
    ensures !Leq(s[|s| - 1], x) ==> Insert(x, s) == Insert(x, s[..|s| - 1]) + [s[|s| - 1]]
  {
  }

  lemma InsertHere(x: string, s: seq<string>)
    requires s == [] || Leq(s[|s| - 1], x)
    ensures Insert(x, s) == s + [x]
  {
  }

  /** `x` on its way down to position `j`: what it has passed has moved up by one. */
  ghost predicate Sinking(x: string, before: seq<string>, a: seq<string>, j: nat) {
    && j <= |before| && |before| < |a|
    && a[..j] == before[..j] && a[j + 1..|before| + 1] == before[j..]
    && Insert(x, before) == Insert(x, before[..j]) + before[j..]
  }

  lemma SinkStart(x: string, before: seq<string>, a: seq<string>)
    requires |before| < |a| && a[..|before|] == before
    ensures Sinking(x, before, a, |before|)
  {
    hide Insert;
    assert before[..|before|] == before;
  }

  lemma SinkStep(x: string, before: seq<string>, a: seq<string>, j: nat)
    requires Sinking(x, before, a, j) && j > 0 && !Leq(a[j - 1], x)
    ensures Sinking(x, before, a[j := a[j - 1]], j - 1)
  {
    hide Leq, Insert;
    assert a[j - 1] == a[..j][j - 1] == before[j - 1];
    InsertLast(x, before[..j]);
    assert before[..j][..j - 1] == before[..j - 1];
    assert [before[j - 1]] + before[j..] == before[j - 1..];
    var next := a[j := a[j - 1]];
    assert next[..j - 1] == a[..j][..j - 1];
    assert next[j..|before| + 1] == [before[j - 1]] + a[j + 1..|before| + 1];
  }

  lemma SinkEnd(x: string, before: seq<string>, a: seq<string>, j: nat)
    requires Sinking(x, before, a, j) && (j == 0 || Leq(a[j - 1], x))
    ensures a[j := x][..|before| + 1] == Insert(x, before)
  {
    assert j > 0 ==> a[j - 1] == a[..j][j - 1] == before[..j][j - 1];
    InsertHere(x, before[..j]);
    hide Leq, Insert;
    assert a[j := x][..|before| + 1] == a[..j] + [x] + a[j + 1..|before| + 1];
  }

  /** Sort one more element into the sorted front. */
  method InsertInPlace(a: array<string>, i: nat)
    requires i < a.Length
    modifies a
    ensures a[..i + 1] == Insert(old(a[i]), old(a[..i]))
    ensures a[i + 1..] == old(a[i + 1..])
  {
    hide Leq, Insert, Sinking;
    ghost var before := a[..i];
    var x := a[i];
    var j := i;
    assert a[..][..i] == before;
    SinkStart(x, before, a[..]);
    while j > 0 && !Leq(a[j - 1], x)
      invariant 0 <= j <= i
      invariant Sinking(x, before, a[..], j)
      invariant forall k :: i < k < a.Length ==> a[k] == old(a[k])
    {
      ghost var was := a[..];
      SinkStep(x, before, was, j);
      a[j] := a[j - 1];
      assert a[..] == was[j := was[j - 1]];
      j := j - 1;
    }
    ghost var was := a[..];
    SinkEnd(x, before, was, j);
    a[j] := x;
    assert a[..] == was[j := x];
    assert a[..i + 1] == a[..][..i + 1];
  }

  // --- without repetition ----------------------------------------------------------

  ghost predicate Strict(s: seq<string>) {
    Ordered(s) && forall i, j :: 0 <= i < j < |s| ==> s[i] != s[j]
  }

  /** Of each run of equal elements, the first. */
  function Deduped(s: seq<string>): (r: seq<string>) {
    if |s| <= 1 then s
    else if s[|s| - 2] == s[|s| - 1] then Deduped(s[..|s| - 1])
    else Deduped(s[..|s| - 1]) + [s[|s| - 1]]
  }

  lemma {:induction false} DedupedStrict(s: seq<string>)
    requires Ordered(s)
    ensures Strict(Deduped(s)) && (forall x :: x in Deduped(s) <==> x in s)
    ensures s != [] ==> Deduped(s) != [] && Deduped(s)[|Deduped(s)| - 1] == s[|s| - 1]
  {
    if |s| > 1 {
      var init, last := s[..|s| - 1], s[|s| - 1];
      DedupedStrict(init);
      var d := Deduped(init);
      assert s == init + [last];
      if s[|s| - 2] != last {
        forall i | 0 <= i < |d|
          ensures Leq(d[i], last) && d[i] != last
        {
          assert d[i] in init;
          BelowLast(s, d[i]);
        }
      }
    }
  }

  lemma BelowLast(s: seq<string>, x: string)
    requires Ordered(s) && |s| > 1 && s[|s| - 2] != s[|s| - 1] && x in s[..|s| - 1]
    ensures Leq(x, s[|s| - 1]) && x != s[|s| - 1]
  {
    var i :| 0 <= i < |s| - 1 && s[i] == x;
    LeqTotal(x, x);
    assert Leq(x, s[|s| - 2]);
    LeqTotal(s[|s| - 2], s[|s| - 1]);
    assert Leq(s[|s| - 2], s[|s| - 1]);
  }

  /** A strictly ordered sequence is determined by which elements it has. */
  lemma StrictUnique(a: seq<string>, b: seq<string>)
    requires Strict(a) && Strict(b) && forall x :: x in a <==> x in b
    ensures a == b
  {
    forall x
      ensures multiset(a)[x] == multiset(b)[x]
    {
      OnceEach(a, x);
      OnceEach(b, x);
    }
    OrderedUnique(a, b);
  }

  lemma {:induction false} OnceEach(s: seq<string>, x: string)
    requires forall i, j :: 0 <= i < j < |s| ==> s[i] != s[j]
    ensures multiset(s)[x] == if x in s then 1 else 0
  {
    if s != [] {
      var init, last := s[..|s| - 1], s[|s| - 1];
      OnceEach(init, x);
      assert s == init + [last];
    }
  }

  /** Sorted and without repetition, a list is the same for every order and repetition of its elements. */
  lemma CanonicalIff(a: seq<string>, b: seq<string>)
    ensures Deduped(Sorted(a)) == Deduped(Sorted(b)) <==> forall x :: x in a <==> x in b
  {
    SortedSorts(a);
    SortedSorts(b);
    DedupedStrict(Sorted(a));
    DedupedStrict(Sorted(b));
    forall x
      ensures x in a <==> x in Deduped(Sorted(a))
      ensures x in b <==> x in Deduped(Sorted(b))
    {
      assert x in a <==> x in multiset(Sorted(a));
      assert x in b <==> x in multiset(Sorted(b));
    }
    if forall x :: x in a <==> x in b {
      StrictUnique(Deduped(Sorted(a)), Deduped(Sorted(b)));
    }
  }

  /** Move the first of each run to the front, in place; `n` is how many there are. */
  method DedupInPlace(a: array<string>) returns (n: nat)
    modifies a
    ensures n <= a.Length && a[..n] == Deduped(old(a[..]))
  {
    n := 0;
    for i := 0 to a.Length
      invariant n <= i && (i > 0 ==> n > 0 && a[n - 1] == old(a[i - 1]))
      invariant a[..n] == Deduped(old(a[..i]))
      invariant a[i..] == old(a[i..])
    {
      assert old(a[..i + 1])[..i] == old(a[..i]);
      assert a[i] == a[i..][0] == old(a[i..])[0];
      assert i > 0 ==> old(a[..i + 1])[i - 1] == old(a[i - 1]);
      if i == 0 || a[i] != a[n - 1] {
        a[n] := a[i];
        n := n + 1;
        assert a[..n] == a[..n - 1] + [old(a[i])];
      }
      assert a[i + 1..] == old(a[i..])[1..];
    }
    assert old(a[..a.Length]) == old(a[..]);
  }

  /** The closure list of an emitted manifest. */
  method Canonical(paths: seq<string>) returns (closure: seq<string>)
    ensures closure == Deduped(Sorted(paths))
    ensures StrictlyAscending(closure) && forall path :: path in closure <==> path in paths
  {
    hide StrictlyAscending, Ascending, Ordered, Strict;
    var a := new string[|paths|](i requires 0 <= i < |paths| => paths[i]);
    assert a[..] == paths;
    SortInPlace(a);
    var n := DedupInPlace(a);
    closure := a[..n];
    SortedSorts(paths);
    DedupedStrict(Sorted(paths));
    OrderedAscends(closure);
    forall path
      ensures path in Sorted(paths) <==> path in paths
    {
      assert path in Sorted(paths) <==> path in multiset(Sorted(paths));
    }
  }
}
