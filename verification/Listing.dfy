/**
 * `ls`: the retention preview read from manifest headers alone, and when it
 * predicts what a sweep with the same policy keeps.
 */
module Listing {
  import opened Wrappers
  import opened Sets
  import opened Retention
  import opened RetentionLaws
  import opened ManifestHead
  import Json
  import Objects

  /** An object under `roots/`: its key and its text. */
  datatype Root = Root(key: string, body: string)

  /** The timestamp parser. */
  type Clock = string -> Option<Time>

  function Parses(clock: Clock): string -> bool {
    s => clock(s).Some?
  }

  function HeadGen(key: string, h: Head, clock: Clock): Gen {
    Gen(key, h.flake, h.branch, h.attr, match clock(h.timestamp) case Some(t) => t case None => 0)
  }

  /** For its verdict `ls` goes by what the sweep goes by: the header's own fields, and the time its timestamp gives. */
  lemma HeadGenIsToGen(key: string, h: Head, clock: Clock, t: Time, closure: seq<string>)
    requires clock(h.timestamp) == Some(t)
    ensures HeadGen(key, h, clock) == Objects.ToGen(key, Objects.Manifest(h.flake, h.gen, h.branch, h.attr, t, closure))
    ensures
      var g := HeadGen(key, h, clock);
      g.id == key && g.flake == h.flake && g.branch == h.branch && g.attr == h.attr && g.time == t
  {
  }

  function Listed(r: Root, clock: Clock): Option<Head> {
    ListedHead(r.body, Parses(clock))
  }

  function Swept(r: Root, clock: Clock): Option<Head> {
    match ParseManifest(r.body, Parses(clock))
    case Some((h, _)) => Some(h)
    case None => None
  }

  /** The generations `ls` judges, in reading order. */
  function ListedGens(roots: seq<Root>, clock: Clock): seq<Gen> {
    if roots == [] then []
    else
      var last := roots[|roots| - 1];
      ListedGens(roots[..|roots| - 1], clock) + match Listed(last, clock) case Some(h) => [HeadGen(last.key, h, clock)]
        case None => []
  }

  /** The generations the sweep judges, in the same order. */
  function SweptGens(roots: seq<Root>, clock: Clock): seq<Gen> {
    if roots == [] then []
    else
      var last := roots[|roots| - 1];
      SweptGens(roots[..|roots| - 1], clock) + match Swept(last, clock) case Some(h) => [HeadGen(last.key, h, clock)]
        case None => []
  }

  function Garbage(roots: seq<Root>, clock: Clock): seq<string> {
    if roots == [] then []
    else Garbage(roots[..|roots| - 1], clock) + if Listed(roots[|roots| - 1], clock).None? then [roots[|roots| - 1].key]
      else []
  }

  // --- the listing as it is computed -------------------------------------------

  datatype Line = Line(key: string, generation: Option<(Gen, Verdict)>)

  /** One line per manifest header with its verdict, then the garbage. */
  method List(roots: seq<Root>, clock: Clock, policy: Policy, now: Time) returns (lines: seq<Line>)
    ensures
      var gens, garbage := ListedGens(roots, clock), Garbage(roots, clock);
      && |lines| == |gens| + |garbage|
      && (forall i :: 0 <= i < |gens| ==>
        lines[i] == Line(gens[i].id, Some((gens[i], VerdictOf(gens, policy, now, i)))))
      && (forall i :: 0 <= i < |garbage| ==> lines[|gens| + i] == Line(garbage[i], None))
  {
    hide Listed, HeadGen;
    var gens, garbage := [], [];
    for i := 0 to |roots|
      invariant gens == ListedGens(roots[..i], clock) && garbage == Garbage(roots[..i], clock)
    {
      assert roots[..i + 1][..i] == roots[..i];
      match Listed(roots[i], clock) {
        case Some(h) => gens := gens + [HeadGen(roots[i].key, h, clock)];
        case None => garbage := garbage + [roots[i].key];
      }
    }
    assert roots[..|roots|] == roots;
    var verdicts := Verdicts(gens, policy, now);
    lines := seq(|gens|, i requires 0 <= i < |gens| && |verdicts| == |gens| =>
      Line(gens[i].id, Some((gens[i], verdicts[i]))))
      + seq(|garbage|, i requires 0 <= i < |garbage| => Line(garbage[i], None));
  }

  // --- the listing against the sweep ---------------------------------------------

  ghost predicate DistinctRoots(roots: seq<Root>) {
    forall j, k :: 0 <= j < k < |roots| ==> roots[j].key != roots[k].key
  }

  ghost function SweptKeys(roots: seq<Root>, clock: Clock): set<string> {
    set k | 0 <= k < |roots| && Swept(roots[k], clock).Some? :: roots[k].key
  }

  lemma SweptIsListed(r: Root, clock: Clock)
    ensures Swept(r, clock).Some? ==> Listed(r, clock) == Swept(r, clock)
  {
    match Json.Document(r.body)
    case Some(ms) => ListedUnlessClosure(r.body, ms, Parses(clock));
    case None =>
  }

  lemma {:induction false} SweptAreKeyed(roots: seq<Root>, clock: Clock)
    ensures forall k :: 0 <= k < |SweptGens(roots, clock)| ==> SweptGens(roots, clock)[k].id in SweptKeys(roots, clock)
  {
    hide Swept;
    if roots != [] {
      var init := roots[..|roots| - 1];
      SweptAreKeyed(init, clock);
      assert SweptKeys(init, clock) <= SweptKeys(roots, clock);
    }
  }

  ghost function AllKeys(roots: seq<Root>): set<string> {
    set k | 0 <= k < |roots| :: roots[k].key
  }

  lemma {:induction false} ListedAreKeyed(roots: seq<Root>, clock: Clock)
    ensures forall k :: 0 <= k < |ListedGens(roots, clock)| ==> ListedGens(roots, clock)[k].id in AllKeys(roots)
  {
    hide Listed;
    if roots != [] {
      var init := roots[..|roots| - 1];
      ListedAreKeyed(init, clock);
      assert AllKeys(init) <= AllKeys(roots);
      assert roots[|roots| - 1].key in AllKeys(roots);
    }
  }

  lemma EmbedsMore(sub: seq<Gen>, full: seq<Gen>, e: seq<int>, g: Gen)
    requires Embeds(sub, full, e)
    ensures Embeds(sub, full + [g], e) && Embeds(sub + [g], full + [g], e + [|full|])
    ensures |full| !in Range(e) && Range(e + [|full|]) == Range(e) + {|full|}
  {
    RangeOfAppend(e, |full|);
  }

  /** The positions picked are those of the swept keys. */
  ghost predicate Marks(e: seq<int>, gens: seq<Gen>, keys: set<string>) {
    forall i :: 0 <= i < |gens| ==> (i in Range(e) <==> gens[i].id in keys)
  }

  /** The sweep judges a subsequence of what `ls` judges: the manifests whose closure is sound as well. */
  lemma {:induction false} SweptWithinListed(roots: seq<Root>, clock: Clock) returns (e: seq<int>)
    requires DistinctRoots(roots)
    ensures Embeds(SweptGens(roots, clock), ListedGens(roots, clock), e)
    ensures Marks(e, ListedGens(roots, clock), SweptKeys(roots, clock))
  {
    hide Listed, Swept, HeadGen, Embeds, Range, SweptKeys;
    if roots == [] {
      e := [];
      NoneListed(roots, clock);
    } else {
      var init, last := roots[..|roots| - 1], roots[|roots| - 1];
      e := SweptWithinListed(init, clock);
      SweptIsListed(last, clock);
      KeysGrow(roots, clock);
      var ls := ListedGens(init, clock);
      GensGrow(roots, clock);
      if h :| Listed(last, clock) == Some(h) {
        EmbedsMore(SweptGens(init, clock), ls, e, HeadGen(last.key, h, clock));
        HeadGenKey(last.key, h, clock);
        MarksMore(e, ls, SweptKeys(init, clock), HeadGen(last.key, h, clock));
        if Swept(last, clock).Some? {
          e := e + [|ls|];
        }
      }
    }
  }

  lemma GensGrow(roots: seq<Root>, clock: Clock)
    requires roots != []
    ensures
      var init, last := roots[..|roots| - 1], roots[|roots| - 1];
      && ListedGens(roots, clock) == (match Listed(last, clock)
        case Some(h) => ListedGens(init, clock) + [HeadGen(last.key, h, clock)] case None => ListedGens(init, clock))
      && SweptGens(roots, clock) == (match Swept(last, clock)
        case Some(h) => SweptGens(init, clock) + [HeadGen(last.key, h, clock)] case None => SweptGens(init, clock))
  {
  }

  lemma NoneListed(roots: seq<Root>, clock: Clock)
    requires roots == []
    ensures Embeds(SweptGens(roots, clock), ListedGens(roots, clock), [])
  {
  }

  lemma HeadGenKey(key: string, h: Head, clock: Clock)
    ensures HeadGen(key, h, clock).id == key
  {
  }

  lemma MarksMore(e: seq<int>, gens: seq<Gen>, keys: set<string>, g: Gen)
    requires Marks(e, gens, keys) && g.id !in keys && (forall i :: 0 <= i < |gens| ==> gens[i].id != g.id)
    requires |gens| !in Range(e) && Range(e + [|gens|]) == Range(e) + {|gens|}
    ensures Marks(e, gens + [g], keys) && Marks(e + [|gens|], gens + [g], keys + {g.id})
  {
    hide Range;
  }

  lemma KeysGrow(roots: seq<Root>, clock: Clock)
    requires roots != [] && DistinctRoots(roots)
    ensures
      var init, last := roots[..|roots| - 1], roots[|roots| - 1];
      && SweptKeys(roots, clock) == SweptKeys(init, clock) + (if Swept(last, clock).Some? then {last.key} else {})
      && last.key !in SweptKeys(init, clock)
      && forall k :: 0 <= k < |ListedGens(init, clock)| ==> ListedGens(init, clock)[k].id != last.key
  {
    hide Listed, Swept;
    ListedAreKeyed(roots[..|roots| - 1], clock);
  }

  /**
   * Reading headers alone, `ls` shows as kept exactly what a sweep with the same
   * policy, time and reading order keeps, if and only if none of the manifests
   * shown as kept is one whose closure the sweep rejects.
   */
  lemma ListingPredictsIff(roots: seq<Root>, clock: Clock, p: Policy, now: Time)
    requires DistinctRoots(roots)
    ensures
      var ls, swept := ListedGens(roots, clock), SweptGens(roots, clock);
      Retain(ls, p, now) == Retain(swept, p, now) <==>
      forall i :: 0 <= i < |ls| && Keeps(ls, p, now, i) ==> ls[i].id in SweptKeys(roots, clock)
  {
    hide ListedGens, SweptGens, Keeps, Embeds;
    var ls, swept := ListedGens(roots, clock), SweptGens(roots, clock);
    var e := SweptWithinListed(roots, clock);
    SweptAreKeyed(roots, clock);
    if forall i :: 0 <= i < |ls| && Keeps(ls, p, now, i) ==> ls[i].id in SweptKeys(roots, clock) {
      Stability(swept, ls, e, p, now);
    }
    if Retain(ls, p, now) == Retain(swept, p, now) {
      forall i | 0 <= i < |ls| && Keeps(ls, p, now, i)
        ensures ls[i].id in SweptKeys(roots, clock)
      {
        assert ls[i].id in Retain(swept, p, now);
      }
    }
  }
}
