/** Facts about finite sets and index sequences that the other modules count with. */
module Sets {

  /** `e` lists indices below `n` in strictly increasing order. */
  ghost predicate Increasing(e: seq<int>, n: int) {
    && (forall k :: 0 <= k < |e| ==> 0 <= e[k] < n)
    && (forall j, k :: 0 <= j < k < |e| ==> e[j] < e[k])
  }

  /** `e` lists indices below `n` without repetition. */
  ghost predicate Injective(e: seq<int>, n: int) {
    && (forall k :: 0 <= k < |e| ==> 0 <= e[k] < n)
    && (forall j, k :: 0 <= j < |e| && 0 <= k < |e| && e[j] == e[k] ==> j == k)
  }

  ghost function Range(e: seq<int>): set<int> {
    set k | 0 <= k < |e| :: e[k]
  }

  /** The elements of a list. */
  function Elements<T(==)>(xs: seq<T>): set<T> {
    set x | x in xs
  }

  lemma MapMinus<K, V>(m: map<K, V>, a: set<K>, b: set<K>)
    ensures m - a - b == m - (a + b)
  {
  }

  /** Taking one more off the list of what is left. */
  lemma OneLess<T>(all: set<T>, todo: set<T>, x: T)
    requires x in todo
    ensures all - (todo - {x}) == if x in all then (all - todo) + {x} else all - todo
  {
    if x in all {
      assert all - (todo - {x}) == (all - todo) + {x};
    } else {
      assert all - (todo - {x}) == all - todo;
    }
  }

  lemma InRange(e: seq<int>, k: int)
    requires 0 <= k < |e|
    ensures e[k] in Range(e)
  {
  }

  lemma IncreasingIsInjective(e: seq<int>, n: int)
    requires Increasing(e, n)
    ensures Injective(e, n)
  {
    assert forall j, k :: 0 <= j < k < |e| ==> e[j] != e[k];
  }

  lemma RangeOfAppend(e: seq<int>, x: int)
    ensures Range(e + [x]) == Range(e) + {x}
  {
    var f := e + [x];
    InRange(f, |e|);
    forall v
      ensures v in Range(f) <==> v in Range(e) + {x}
    {
      if v in Range(e) {
        var k :| 0 <= k < |e| && e[k] == v;
        InRange(f, k);
        assert f[k] == v;
      }
    }
  }

  ghost function Pick<T>(s: set<T>): (x: T)
    requires s != {}
    ensures x in s
  {
    var x :| x in s;
    x
  }

  ghost function Image(e: seq<int>, s: set<int>): set<int>
    requires forall k :: k in s ==> 0 <= k < |e|
  {
    set k | k in s :: e[k]
  }

  /** An injective listing preserves the size of every set of positions. */
  lemma {:induction false} ImageSize(e: seq<int>, n: int, s: set<int>)
    requires Injective(e, n)
    requires forall k :: k in s ==> 0 <= k < |e|
    ensures |Image(e, s)| == |s|
  {
    if s == {} {
      assert Image(e, s) == {};
    } else {
      var k := Pick(s);
      var rest := s - {k};
      ImageSize(e, n, rest);
      assert Image(e, s) == Image(e, rest) + {e[k]};
      assert e[k] !in Image(e, rest);
    }
  }

  lemma {:induction false} SubsetSize<T>(a: set<T>, b: set<T>)
    requires a <= b
    ensures |a| <= |b|
    ensures |a| == |b| ==> a == b
  {
    assert b == a + (b - a);
    assert |b| == |a| + |b - a|;
    if |a| == |b| {
      assert b - a == {};
    }
  }

  /** A strictly increasing listing is determined by the set it lists. */
  lemma IncreasingLast(e: seq<int>, n: int)
    requires Increasing(e, n) && e != []
    ensures var m := |e| - 1; Increasing(e[..m], n) && Range(e[..m]) == Range(e) - {e[m]} && e[m] in Range(e)
    ensures forall v :: v in Range(e) ==> v <= e[|e| - 1]
  {
    var m := |e| - 1;
    assert e == e[..m] + [e[m]];
    RangeOfAppend(e[..m], e[m]);
    assert e[m] !in Range(e[..m]);
  }

  lemma {:induction false} IncreasingUnique(a: seq<int>, b: seq<int>, n: int)
    requires Increasing(a, n) && Increasing(b, n)
    requires Range(a) == Range(b)
    ensures a == b
  {
    if a == [] {
      if b != [] {
        InRange(b, 0);
      }
    } else if b == [] {
      InRange(a, 0);
    } else {
      hide Range, Increasing;
      IncreasingLast(a, n);
      IncreasingLast(b, n);
      IncreasingUnique(a[..|a| - 1], b[..|b| - 1], n);
      assert a == a[..|a| - 1] + [a[|a| - 1]] && b == b[..|b| - 1] + [b[|b| - 1]];
    }
  }

  /** The positions below `n`. */
  ghost function Below(n: nat): (s: set<int>)
    ensures forall k :: k in s <==> 0 <= k < n
    ensures |s| == n
  {
    if n == 0 then {} else Below(n - 1) + {n - 1}
  }

  /** A listing of `n` distinct positions below `n` reaches every one of them. */
  lemma Surjective(order: seq<int>, n: nat)
    requires |order| == n && Injective(order, n)
    ensures Range(order) == Below(n)
  {
    ImageSize(order, n, Below(n));
    assert Image(order, Below(n)) == Range(order);
    SubsetSize(Range(order), Below(n));
  }

  lemma SourceOf(order: seq<int>, n: nat, i: int) returns (k: int)
    requires |order| == n && Injective(order, n) && 0 <= i < n
    ensures 0 <= k < n && order[k] == i
  {
    Surjective(order, n);
    assert i in Range(order);
    k :| 0 <= k < |order| && order[k] == i;
  }

  /** The positions below `n` that satisfy `keep`, in order. */
  ghost function Select(n: nat, keep: int -> bool): (e: seq<int>)
    ensures Increasing(e, n)
    ensures forall i :: 0 <= i < n ==> (i in Range(e) <==> keep(i))
  {
    if n == 0 then []
    else
      var rest := Select(n - 1, keep);
      var e := if keep(n - 1) then rest + [n - 1] else rest;
      assert forall i :: i in Range(e) <==> i in Range(rest) || (keep(n - 1) && i == n - 1) by {
        forall i
          ensures i in Range(e) <==> i in Range(rest) || (keep(n - 1) && i == n - 1)
        {
          if i in Range(rest) {
            var k :| 0 <= k < |rest| && rest[k] == i;
            InRange(e, k);
          }
          if keep(n - 1) && i == n - 1 {
            InRange(e, |e| - 1);
          }
        }
      }
      e
  }
}
