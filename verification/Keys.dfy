/** Object names: how keys are built, taken apart and classified. */
module Keys {
  import opened Wrappers

  const NARINFO := ".narinfo"
  const JSON := ".json"
  const NAR := "nar/"
  const ROOTS := "roots/"
  const STORE_DIR := "/nix/store"

  predicate HasSuffix(s: string, t: string) {
    |t| <= |s| && s[|s| - |t|..] == t
  }

  function StripSuffix(s: string, t: string): (r: Option<string>)
    ensures r.Some? <==> HasSuffix(s, t)
    ensures r.Some? ==> s == r.value + t
  {
    if HasSuffix(s, t) then Some(s[..|s| - |t|]) else None
  }

  function StripPrefix(s: string, t: string): (r: Option<string>)
    ensures r.Some? <==> t <= s
    ensures r.Some? ==> s == t + r.value
  {
    if t <= s then Some(s[|t|..]) else None
  }

  /** Split at the first `c`; the left part is free of it. */
  function SplitOnce(s: string, c: char): (r: Option<(string, string)>)
    ensures r.Some? <==> c in s
    ensures r.Some? ==> s == r.value.0 + [c] + r.value.1 && c !in r.value.0
    decreases |s|
  {
    if s == [] then None
    else if s[0] == c then Some(([], s[1..]))
    else
      match SplitOnce(s[1..], c)
      case None => None
      case Some(parts) =>
        assert s == [s[0]] + parts.0 + [c] + parts.1;
        Some(([s[0]] + parts.0, parts.1))
  }

  lemma SplitOnceSkip(s: string, c: char)
    requires s != [] && s[0] != c && SplitOnce(s[1..], c).Some?
    ensures var (left, right) := SplitOnce(s[1..], c).value; SplitOnce(s, c) == Some(([s[0]] + left, right))
  {
  }

  lemma {:induction false} SplitOnceAt(left: string, c: char, right: string)
    requires c !in left
    ensures SplitOnce(left + [c] + right, c) == Some((left, right))
  {
    var s := left + [c] + right;
    if left == [] {
      assert s[0] == c && s[1..] == right;
    } else {
      assert s[0] == left[0] && s[1..] == left[1..] + [c] + right;
      SplitOnceAt(left[1..], c, right);
      SplitOnceSkip(s, c);
      hide SplitOnce;
      assert left == [left[0]] + left[1..];
    }
  }

  /** What follows the last `c`. */
  function AfterLast(s: string, c: char): (r: string)
    ensures c !in r
    ensures |r| <= |s|
  {
    if s == [] then []
    else if s[|s| - 1] == c then []
    else AfterLast(s[..|s| - 1], c) + [s[|s| - 1]]
  }

  /** Hash part of a store path: the first 32 characters of its basename. */
  function StoreHashOf(path: string): (h: string)
    ensures '/' !in h && |h| <= 32
  {
    var base := AfterLast(path, '/');
    if |base| < 32 then base else base[..32]
  }

  lemma {:induction false} AfterLastOf(dir: string, c: char, base: string)
    requires c !in base
    ensures AfterLast(dir + [c] + base, c) == base
  {
    var s := dir + [c] + base;
    if base == [] {
      assert s[|s| - 1] == c;
    } else {
      var n := |base| - 1;
      AfterLastOf(dir, c, base[..n]);
      assert s[..|s| - 1] == dir + [c] + base[..n];
    }
  }

  /** Of `dir/base` it is the first 32 characters of `base`, all of it if shorter; without a slash, of the whole. */
  lemma StoreHashOfBase(dir: string, base: string)
    requires '/' !in base
    ensures StoreHashOf(dir + "/" + base) == StoreHashOf(base)
    ensures StoreHashOf(base) == if |base| < 32 then base else base[..32]
  {
    AfterLastOf(dir, '/', base);
    AfterLastAlone(base, '/');
  }

  lemma {:induction false} AfterLastAlone(base: string, c: char)
    requires c !in base
    ensures AfterLast(base, c) == base
  {
    if base != [] {
      AfterLastAlone(base[..|base| - 1], c);
    }
  }

  function InfoKey(hash: string): string {
    hash + NARINFO
  }

  function ManifestKey(flake: string, gen: string): string {
    ROOTS + flake + "/" + gen + JSON
  }

  function ParseManifestKey(key: string): Option<(string, string)> {
    match StripPrefix(key, ROOTS)
    case None => None
    case Some(rest) =>
      match SplitOnce(rest, '/')
      case None => None
      case Some((flake, file)) =>
        match StripSuffix(file, JSON)
        case None => None
        case Some(gen) => Some((flake, gen))
  }

  /** Building a manifest key and parsing it back give the same names, and parsing accepts nothing else. */
  lemma ManifestKeyRoundTrip(flake: string, gen: string, key: string)
    requires '/' !in flake
    ensures ParseManifestKey(key) == Some((flake, gen)) <==> key == ManifestKey(flake, gen)
  {
    var file := gen + JSON;
    var rest := flake + "/" + file;
    SplitOnceAt(flake, '/', file);
    hide SplitOnce;
    assert ManifestKey(flake, gen) == ROOTS + rest;
    assert StripPrefix(ROOTS + rest, ROOTS) == Some(rest);
    assert StripSuffix(file, JSON) == Some(gen) by {
      assert file[..|file| - |JSON|] == gen;
    }
    assert ParseManifestKey(ManifestKey(flake, gen)) == Some((flake, gen));
  }

  /** What the remote sweep takes an object for, by its key. */
  datatype Class = InfoObject(hash: string) | NarObject | RootObject | Foreign

  function Classify(key: string): Class {
    if HasSuffix(key, NARINFO) then
      if '/' in key then Foreign else InfoObject(key[..|key| - |NARINFO|])
    else if NAR <= key then NarObject
    else if ROOTS <= key then RootObject
    else Foreign
  }

  lemma ClassifyInfo(hash: string, key: string)
    requires '/' !in hash
    ensures Classify(key) == InfoObject(hash) <==> key == InfoKey(hash)
  {
    var k := InfoKey(hash);
    assert k[|k| - |NARINFO|..] == NARINFO && k[..|k| - |NARINFO|] == hash;
  }

  // --- the names, letter for letter ------------------------------------------

  predicate EndsInNarinfo(key: string) {
    |key| >= 8 && key[|key| - 8..] == ".narinfo"
  }

  predicate Starts(key: string, front: string) {
    |key| >= |front| && key[..|front|] == front
  }

  /** A slash-free name in `.narinfo` is a narinfo; other names go by their front; the rest is foreign. */
  lemma ClassSpelled(key: string)
    ensures EndsInNarinfo(key) && '/' !in key ==> Classify(key) == InfoObject(key[..|key| - 8])
    ensures EndsInNarinfo(key) && '/' in key ==> Classify(key) == Foreign
    ensures !EndsInNarinfo(key) && Starts(key, "nar/") ==> Classify(key) == NarObject
    ensures !EndsInNarinfo(key) && Starts(key, "roots/") ==> Classify(key) == RootObject
    ensures !EndsInNarinfo(key) && !Starts(key, "nar/") && !Starts(key, "roots/") ==> Classify(key) == Foreign
  {
    assert |NARINFO| == 8;
    if Starts(key, "nar/") {
      assert key[0] == key[..4][0] == 'n';
    }
    if Starts(key, "roots/") {
      assert key[0] == key[..6][0] == 'r';
    }
  }

  lemma NamesSpelled(hash: string, flake: string, gen: string)
    ensures InfoKey(hash) == hash + ".narinfo"
    ensures ManifestKey(flake, gen) == "roots/" + flake + "/" + gen + ".json"
    ensures MarkerName(flake, gen) == flake + "--" + gen
  {
  }

  /** A path component is not empty, has no slash, does not start with a dot and holds no two dots in a row. */
  lemma ComponentSpelled(s: string)
    ensures SafeComponent(s) <==>
      && s != "" && s[0] != '.'
      && (forall k :: 0 <= k < |s| ==> s[k] != '/')
      && (forall k, n :: 0 <= k && n == k + 1 && n < |s| ==> !(s[k] == '.' && s[n] == '.'))
  {
    forall k | 0 <= k && k + 1 < |s| && s[k] == '.' && s[k + 1] == '.'
      ensures Contains(s, "..")
    {
      assert OccursAt(s, "..", k);
    }
    if Contains(s, "..") {
      var i: nat :| i <= |s| && OccursAt(s, "..", i);
      assert s[i..i + 2][0] == s[i] && s[i..i + 2][1] == s[i + 1];
    }
  }

  /** One text holds another exactly when it can be written as something around it. */
  lemma ContainsSpelled(s: string, t: string)
    ensures Contains(s, t) <==> exists a, b :: s == a + t + b
  {
    if Contains(s, t) {
      var i: nat :| i <= |s| && OccursAt(s, t, i);
      assert s == s[..i] + t + s[i + |t|..];
    }
    if a, b :| s == a + t + b {
      assert OccursAt(s, t, |a|);
    }
  }

  predicate OccursAt(s: string, t: string, i: nat) {
    i + |t| <= |s| && s[i..i + |t|] == t
  }

  predicate Contains(s: string, t: string) {
    exists i: nat | i <= |s| :: OccursAt(s, t, i)
  }

  /** Path components that cannot leave the store root. */
  predicate SafeComponent(s: string) {
    s != "" && '/' !in s && !Contains(s, "..") && s[0] != '.'
  }

  lemma SafeNoSlash(s: string)
    requires SafeComponent(s)
    ensures '/' !in s
  {
  }

  /** File name of a state marker. */
  function MarkerName(flake: string, gen: string): string {
    flake + "--" + gen
  }

  /** Flake names on which marker names determine the generation. */
  predicate PlainFlake(flake: string) {
    !Contains(flake, "--") && (flake == "" || flake[|flake| - 1] != '-')
  }

  /** Two flakes sharing a marker name: the longer one runs over the shorter one's separator. */
  lemma LongerNotPlain(f1: string, g1: string, f2: string, g2: string)
    requires MarkerName(f1, g1) == MarkerName(f2, g2) && |f1| < |f2|
    ensures !PlainFlake(f2)
  {
    var s := MarkerName(f1, g1);
    var n := |f1|;
    assert s[n] == '-' && s[n + 1] == '-';
    assert f2 == s[..|f2|];
    if n + 1 < |f2| {
      assert OccursAt(f2, "--", n);
    }
  }

  lemma MarkerInjective(f1: string, g1: string, f2: string, g2: string)
    requires PlainFlake(f1) && PlainFlake(f2)
    ensures MarkerName(f1, g1) == MarkerName(f2, g2) <==> f1 == f2 && g1 == g2
  {
    if MarkerName(f1, g1) == MarkerName(f2, g2) {
      if |f1| < |f2| {
        LongerNotPlain(f1, g1, f2, g2);
      } else if |f2| < |f1| {
        LongerNotPlain(f2, g2, f1, g1);
      }
      var s := MarkerName(f1, g1);
      assert f1 == s[..|f1|] == f2;
      assert g1 == s[|f1| + 2..] == g2;
    }
  }
}
