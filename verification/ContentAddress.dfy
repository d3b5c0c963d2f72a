/**
 * Content addresses: recomputing a store path from a narinfo's CA field, what a
 * match proves about the narinfo, and accepting one by path or by signature.
 */
module ContentAddress {
  import opened Wrappers
  import opened NarInfo
  import Json
  import Keys
  import Nix32
  import opened Sorting

  // --- the path a content address gives ----------------------------------------------

  type Digest = d: seq<bv8> | |d| == 32 witness seq(32, _ => 0)

  /** The hash function, SHA-256 in the source. */
  type Hash = string -> Digest

  function Octets(digest: seq<bv8>): (r: seq<Nix32.Byte>)
    ensures |r| == |digest|
  {
    seq(|digest|, i requires 0 <= i < |digest| => digest[i] as int)
  }

  function Hex(bytes: seq<Nix32.Byte>): (s: string)
    ensures |s| == 2 * |bytes|
  {
    if bytes == [] then []
    else [Json.HexDigit(bytes[0] / 16), Json.HexDigit(bytes[0] % 16)] + Hex(bytes[1..])
  }

  function RefText(refs: seq<string>): string {
    if refs == [] then "" else ":" + ((Keys.STORE_DIR + "/" + refs[0]) + RefText(refs[1..]))
  }

  function SelfMark(self: bool): string {
    if self then ":self" else ""
  }

  function Describe(ty: string, hash: seq<Nix32.Byte>, name: string): string {
    ty + (":sha256:" + Hex(hash) + (":" + Keys.STORE_DIR + ":" + name))
  }

  function MakeStorePath(descriptor: string, name: string, sha: Hash): string {
    Keys.STORE_DIR + "/" + (Nix32.Encode(Octets(Nix32.Folded(sha(descriptor)))) + ("-" + name))
  }

  function HashLength(algo: string): Option<nat> {
    if algo == "md5" then Some(16)
    else if algo == "sha1" then Some(20)
    else if algo == "sha256" then Some(32)
    else if algo == "sha512" then Some(64)
    else None
  }

  /** The content addresses kasha models: a text, a tree hashed as a NAR, any other fixed output. */
  datatype Claim =
    | Text(hash: string)
    | Tree(hash: string)
    | Output(recursive: bool, algo: string, hash: string)

  function ClaimText(c: Claim): string {
    match c
    case Text(h) => "text:sha256:" + h
    case Tree(h) => "fixed:" + ("r:" + ("sha256" + [':'] + h))
    case Output(recursive, algo, h) => "fixed:" + ((if recursive then "r:" else "") + (algo + [':'] + h))
  }

  function FixedClaim(recursive: bool, body: string): (r: Option<Claim>)
    ensures r.Some? ==> ClaimText(r.value) == "fixed:" + ((if recursive then "r:" else "") + body)
    ensures r.Some? ==> !r.value.Text?
    ensures r.Some? && r.value.Output? ==> ':' !in r.value.algo && !(r.value.recursive && r.value.algo == "sha256")
  {
    match Keys.SplitOnce(body, ':')
    case None => None
    case Some((algo, h)) => if recursive && algo == "sha256" then Some(Tree(h)) else Some(Output(recursive, algo, h))
  }

  function ClaimOf(ca: string): Option<Claim> {
    match Keys.StripPrefix(ca, "text:sha256:")
    case Some(h) => Some(Text(h))
    case None =>
      match Keys.StripPrefix(ca, "fixed:r:")
      case Some(body) => FixedClaim(true, body)
      case None =>
        match Keys.StripPrefix(ca, "fixed:")
        case Some(body) => FixedClaim(false, body)
        case None => None
  }

  /** A claim is its text. */
  lemma ClaimBack(ca: string)
    requires ClaimOf(ca).Some?
    ensures ClaimText(ClaimOf(ca).value) == ca
    ensures var c := ClaimOf(ca).value; c.Output? ==> ':' !in c.algo && !(c.recursive && c.algo == "sha256")
  {
    hide FixedClaim, ClaimText;
    if "text:sha256:" <= ca {
      TextBack(ca);
    } else if "fixed:r:" <= ca {
      assert ca == "fixed:" + ("r:" + ca[8..]);
    } else {
      assert ca == "fixed:" + ("" + ca[6..]);
    }
  }

  const TREE := "fixed:r:sha256:"

  lemma TreeText(h: string)
    ensures ClaimText(Tree(h)) == TREE + h
  {
    assert "fixed:" + ("r:" + ("sha256" + [':'])) == TREE;
  }

  lemma TextBack(ca: string)
    requires "text:sha256:" <= ca
    ensures ClaimOf(ca).Some? && ClaimText(ClaimOf(ca).value) == ca && ClaimOf(ca).value.Text?
  {
  }

  function ClaimHash(c: Claim): Option<seq<Nix32.Byte>> {
    match c
    case Output(_, algo, h) => (match HashLength(algo) case Some(len) => Nix32.Decode(h, len) case None => None)
    case _ => Nix32.Decode(c.hash, 32)
  }

  function Base(n: Info): Option<string> {
    match Keys.StripPrefix(n.storePath, Keys.STORE_DIR + "/")
    case Some(base) => if |base| < 33 then None else Some(base)
    case None => None
  }

  /** References other than the path itself. */
  function Others(refs: seq<string>, base: string): (r: seq<string>)
    ensures |r| <= |refs|
    ensures |r| == |refs| <==> base !in refs
    ensures forall x :: x in r ==> x in refs && x != base
  {
    if refs == [] then []
    else
      var init, last := refs[..|refs| - 1], refs[|refs| - 1];
      assert refs == init + [last];
      Others(init, base) + if last == base then [] else [last]
  }

  /** What the fixed outputs that are no trees hash first. */
  function Inner(recursive: bool, algo: string, hash: seq<Nix32.Byte>): string {
    "fixed:out:" + ((if recursive then "r:" else "") + (algo + [':'] + (Hex(hash) + ":")))
  }

  /** The type part of the descriptor; None where the claim contradicts the other fields. */
  function TypePart(c: Claim, n: Info, base: string): Option<string> {
    var refs := Sorted(Others(n.references, base));
    var self := base in n.references;
    match c
    case Text(_) => if self then None else Some("text" + RefText(refs))
    case Tree(h) => if n.narHash == "sha256:" + h then Some("source" + (RefText(refs) + if self then ":self" else ""))
      else None
    case Output(_, _, _) => if n.references == [] then Some("output:out") else None
  }

  function HashPart(c: Claim, hash: seq<Nix32.Byte>, sha: Hash): seq<Nix32.Byte> {
    match c
    case Output(recursive, algo, _) => Octets(sha(Inner(recursive, algo, hash)))
    case _ => hash
  }

  function Descriptor(n: Info, sha: Hash): Option<string> {
    match (n.ca, Base(n))
    case (Some(ca), Some(base)) =>
      (match ClaimOf(ca)
       case None => None
       case Some(c) =>
         match (TypePart(c, n, base), ClaimHash(c))
         case (Some(ty), Some(hash)) => Some(Describe(ty, HashPart(c, hash, sha), base[33..]))
         case _ => None)
    case _ => None
  }

  /** The store path the content address gives; None fails closed. */
  function CaStorePath(n: Info, sha: Hash): Option<string> {
    match Descriptor(n, sha)
    case Some(descriptor) => Some(MakeStorePath(descriptor, Base(n).value[33..], sha))
    case None => None
  }

  /** The content address reproduces the narinfo's own store path. */
  predicate CaHolds(n: Info, sha: Hash) {
    CaStorePath(n, sha) == Some(n.storePath)
  }

  // --- unique decoding -------------------------------------------------------------------

  lemma {:induction false} HexInjective(a: seq<Nix32.Byte>, b: seq<Nix32.Byte>)
    requires |a| == |b| && Hex(a) == Hex(b)
    ensures a == b
  {
    if a != [] {
      var p, q := Hex(a), Hex(b);
      assert p[0] == q[0] && p[1] == q[1] && p[2..] == Hex(a[1..]) && q[2..] == Hex(b[1..]);
      HexDigitInjective(a[0] / 16, b[0] / 16);
      HexDigitInjective(a[0] % 16, b[0] % 16);
      HexInjective(a[1..], b[1..]);
      assert a == [a[0]] + a[1..] && b == [b[0]] + b[1..];
    }
  }

  lemma HexDigitInjective(a: nat, b: nat)
    requires a < 16 && b < 16 && Json.HexDigit(a) == Json.HexDigit(b)
    ensures a == b
  {
  }

  lemma OctetsInjective(a: seq<bv8>, b: seq<bv8>)
    requires Octets(a) == Octets(b)
    ensures a == b
  {
    assert |Octets(a)| == |Octets(b)|;
    forall i | 0 <= i < |a|
      ensures a[i] == b[i]
    {
      assert Octets(a)[i] == a[i] as int && Octets(b)[i] == b[i] as int;
      OctetInjective(a[i], b[i]);
    }
  }

  lemma OctetInjective(a: bv8, b: bv8)
    requires a as int == b as int
    ensures a == b
  {
    assert (a as int) as bv8 == a && (b as int) as bv8 == b;
  }

  lemma PathInjective(d: string, e: string, name: string, sha: Hash)
    requires MakeStorePath(d, name, sha) == MakeStorePath(e, name, sha)
    ensures Nix32.Folded(sha(d)) == Nix32.Folded(sha(e))
  {
    var x, y := Octets(Nix32.Folded(sha(d))), Octets(Nix32.Folded(sha(e)));
    SameEnds(Keys.STORE_DIR + "/", Nix32.Encode(x), Nix32.Encode(y), "-" + name);
    Nix32.EncodeInjective(x, y);
    OctetsInjective(Nix32.Folded(sha(d)), Nix32.Folded(sha(e)));
  }

  lemma SameEnds(front: string, x: string, y: string, back: string)
    requires front + (x + back) == front + (y + back)
    ensures x == y
  {
    var s, t := front + (x + back), front + (y + back);
    assert |x| == |y|;
    assert x == s[|front|..][..|x|] && y == t[|front|..][..|y|];
  }

  lemma DescribeInjective(ty1: string, h1: seq<Nix32.Byte>, ty2: string, h2: seq<Nix32.Byte>, name: string)
    requires |h1| == |h2| && Describe(ty1, h1, name) == Describe(ty2, h2, name)
    ensures ty1 == ty2 && h1 == h2
  {
    var back := ":" + Keys.STORE_DIR + ":" + name;
    var x, y := ":sha256:" + Hex(h1) + back, ":sha256:" + Hex(h2) + back;
    assert |x| == |y|;
    assert ty1 == (ty1 + x)[..|ty1|] && ty2 == (ty2 + y)[..|ty2|];
    assert x == (ty1 + x)[|ty1|..] && y == (ty2 + y)[|ty2|..];
    assert Hex(h1) == x[8..8 + |Hex(h1)|] && Hex(h2) == y[8..8 + |Hex(h2)|];
    HexInjective(h1, h2);
  }

  predicate Plain(refs: seq<string>) {
    forall k :: 0 <= k < |refs| ==> ':' !in refs[k]
  }

  lemma RefTextCons(refs: seq<string>, u: string)
    requires refs != []
    ensures RefText(refs) + u == ":" + ((Keys.STORE_DIR + "/" + refs[0]) + (RefText(refs[1..]) + u))
  {
    var x, rest := Keys.STORE_DIR + "/" + refs[0], RefText(refs[1..]);
    Json.Concat(":", x + rest, u);
    Json.Concat(x, rest, u);
  }

  lemma RefTextEnds(refs: seq<string>, s: bool)
    ensures var r := RefText(refs) + SelfMark(s);
      (r == "" || r[0] == ':') && (refs == [] ==> r == SelfMark(s)) && (refs != [] ==> |r| > 1 && r[1] == '/')
  {
    if refs != [] {
      RefTextCons(refs, SelfMark(s));
    }
  }

  /** References and the self mark behind them are read back in one way. */
  lemma {:induction false} RefTextInjective(a: seq<string>, s: bool, b: seq<string>, t: bool)
    requires Plain(a) && Plain(b)
    requires RefText(a) + SelfMark(s) == RefText(b) + SelfMark(t)
    ensures a == b && s == t
  {
    hide RefText;
    RefTextEnds(a, s);
    RefTextEnds(b, t);
    if a != [] && b != [] {
      var x, y := Keys.STORE_DIR + "/" + a[0], Keys.STORE_DIR + "/" + b[0];
      var p, q := RefText(a[1..]) + SelfMark(s), RefText(b[1..]) + SelfMark(t);
      RefTextEnds(a[1..], s);
      RefTextEnds(b[1..], t);
      RefTextCons(a, SelfMark(s));
      RefTextCons(b, SelfMark(t));
      assert x + p == (RefText(a) + SelfMark(s))[1..];
      assert y + q == (RefText(b) + SelfMark(t))[1..];
      TokenEqual(x, p, y, q, ':');
      assert a[0] == x[|Keys.STORE_DIR| + 1..] == b[0];
      RefTextInjective(a[1..], s, b[1..], t);
      assert a == [a[0]] + a[1..] && b == [b[0]] + b[1..];
    }
  }

  lemma AlgoLetters(algo: string)
    requires HashLength(algo).Some?
    ensures algo != "" && algo[0] != 'r' && ':' !in algo
  {
  }

  lemma InnerInjective(r1: bool, a1: string, h1: seq<Nix32.Byte>, r2: bool, a2: string, h2: seq<Nix32.Byte>)
    requires HashLength(a1) == Some(|h1|) && HashLength(a2) == Some(|h2|)
    requires Inner(r1, a1, h1) == Inner(r2, a2, h2)
    ensures r1 == r2 && a1 == a2 && h1 == h2
  {
    AlgoLetters(a1);
    AlgoLetters(a2);
    hide HashLength, Hex;
    var x, y := a1 + [':'] + (Hex(h1) + ":"), a2 + [':'] + (Hex(h2) + ":");
    var p, q := (if r1 then "r:" else "") + x, (if r2 then "r:" else "") + y;
    assert p == Inner(r1, a1, h1)[10..] && q == Inner(r2, a2, h2)[10..];
    assert p[0] == if r1 then 'r' else a1[0];
    assert q[0] == if r2 then 'r' else a2[0];
    assert r1 == r2;
    var k := if r1 then 2 else 0;
    assert x == p[k..] && y == q[k..];
    SplitEqual(a1, Hex(h1) + ":", a2, Hex(h2) + ":", ':');
    assert Hex(h1) == (Hex(h1) + ":")[..|Hex(h1)|] && Hex(h2) == (Hex(h2) + ":")[..|Hex(h2)|];
    HexInjective(h1, h2);
  }

  // --- what a content address binds ----------------------------------------------------------

  /** The texts a narinfo makes the check hash. */
  function Hashed(n: Info, sha: Hash): set<string> {
    match (n.ca, Descriptor(n, sha))
    case (Some(ca), Some(descriptor)) =>
      (match ClaimOf(ca)
       case Some(Output(recursive, algo, h)) =>
         (match ClaimHash(Output(recursive, algo, h)) case Some(hash) => {descriptor, Inner(recursive, algo, hash)}
           case None => {descriptor})
       case _ => {descriptor})
    case _ => {}
  }

  /** No two of these texts fold to the same digest. */
  ghost predicate NoCollision(a: set<string>, b: set<string>, sha: Hash) {
    forall x, y | x in a && y in b && Nix32.Folded(sha(x)) == Nix32.Folded(sha(y)) :: x == y
  }

  /** The CA text, the references apart from their order and repeated self, and a tree's NAR hash. */
  ghost predicate SameContent(m: Info, n: Info, base: string) {
    && m.ca == n.ca
    && multiset(Others(m.references, base)) == multiset(Others(n.references, base))
    && (base in m.references <==> base in n.references)
    && (m.ca.Some? && TREE <= m.ca.value ==> m.narHash == n.narHash)
  }

  lemma DecodedText(c: Claim)
    requires ClaimHash(c).Some?
    ensures c.hash == Nix32.Encode(ClaimHash(c).value)
    ensures |ClaimHash(c).value| == if c.Output? then HashLength(c.algo).value else 32
  {
    Nix32.EncodeDecode(c.hash, if c.Output? then HashLength(c.algo).value else 32);
  }

  lemma OthersPlain(refs: seq<string>, base: string)
    requires Plain(refs)
    ensures Plain(Sorted(Others(refs, base)))
  {
    var others := Others(refs, base);
    SortedSorts(others);
    forall k | 0 <= k < |Sorted(others)|
      ensures ':' !in Sorted(others)[k]
    {
      assert Sorted(others)[k] in multiset(others);
      assert Sorted(others)[k] in others;
    }
  }

  /** Equal type parts come from claims of one kind; of plain references, from the same ones. */
  lemma TypePartBinds(c: Claim, m: Info, d: Claim, n: Info, base: string)
    requires TypePart(c, m, base).Some? && TypePart(c, m, base) == TypePart(d, n, base)
    ensures (c.Text? <==> d.Text?) && (c.Tree? <==> d.Tree?)
    ensures Plain(m.references) && Plain(n.references) ==>
      && multiset(Others(m.references, base)) == multiset(Others(n.references, base))
      && (base in m.references <==> base in n.references)
  {
    hide RefText, Sorted, Leq, Others;
    var s, t := TypePart(c, m, base).value, TypePart(d, n, base).value;
    assert s[0] == if c.Text? then 't' else if c.Tree? then 's' else 'o';
    assert t[0] == if d.Text? then 't' else if d.Tree? then 's' else 'o';
    if Plain(m.references) && Plain(n.references) {
      var p, q := Sorted(Others(m.references, base)), Sorted(Others(n.references, base));
      OthersPlain(m.references, base);
      OthersPlain(n.references, base);
      SortedIff(Others(m.references, base), Others(n.references, base));
      if c.Text? {
        assert s[4..] == RefText(p) + SelfMark(false) && t[4..] == RefText(q) + SelfMark(false);
        RefTextInjective(p, false, q, false);
      } else if c.Tree? {
        assert s[6..] == RefText(p) + SelfMark(base in m.references);
        assert t[6..] == RefText(q) + SelfMark(base in n.references);
        RefTextInjective(p, base in m.references, q, base in n.references);
      }
    }
  }

  /** Equal hash parts come from the same hash, for outputs by way of the inner digest. */
  lemma HashPartBinds(c: Claim, d: Claim, sha: Hash)
    requires ClaimHash(c).Some? && ClaimHash(d).Some?
    requires (c.Text? <==> d.Text?) && (c.Tree? <==> d.Tree?)
    requires HashPart(c, ClaimHash(c).value, sha) == HashPart(d, ClaimHash(d).value, sha)
    requires c.Output? && d.Output? ==>
      var x, y := Inner(c.recursive, c.algo, ClaimHash(c).value), Inner(d.recursive, d.algo, ClaimHash(d).value);
      Nix32.Folded(sha(x)) == Nix32.Folded(sha(y)) ==> x == y
    ensures c == d
  {
    DecodedText(c);
    DecodedText(d);
    if c.Output? {
      var g, h := ClaimHash(c).value, ClaimHash(d).value;
      OctetsInjective(sha(Inner(c.recursive, c.algo, g)), sha(Inner(d.recursive, d.algo, h)));
      InnerInjective(c.recursive, c.algo, g, d.recursive, d.algo, h);
    }
  }

  /** What a computed descriptor is made of. */
  lemma Parts(n: Info, sha: Hash) returns (base: string, c: Claim, hash: seq<Nix32.Byte>, ty: string)
    requires Descriptor(n, sha).Some?
    ensures Base(n) == Some(base) && n.ca.Some? && ClaimOf(n.ca.value) == Some(c)
    ensures TypePart(c, n, base) == Some(ty) && ClaimHash(c) == Some(hash)
    ensures Descriptor(n, sha) == Some(Describe(ty, HashPart(c, hash, sha), base[33..]))
    ensures Descriptor(n, sha).value in Hashed(n, sha)
    ensures c.Output? ==> Inner(c.recursive, c.algo, hash) in Hashed(n, sha)
    ensures |HashPart(c, hash, sha)| == 32
  {
    hide Nix32.Decode, Octets, Inner, Describe, TypePart;
    base := Base(n).value;
    c := ClaimOf(n.ca.value).value;
    hash := ClaimHash(c).value;
    ty := TypePart(c, n, base).value;
    DecodedText(c);
  }

  lemma TreeClaim(ca: string)
    requires TREE <= ca
    ensures ClaimOf(ca) == Some(Tree(ca[|TREE|..]))
  {
    var h := ca[|TREE|..];
    assert TREE == "fixed:r:" + ("sha256" + [':']);
    assert ca == "fixed:r:" + ("sha256" + [':'] + h);
    Keys.SplitOnceAt("sha256", ':', h);
    assert ca[0] == 'f';
  }

  lemma TreeNarHash(c: Claim, n: Info, base: string)
    requires TypePart(c, n, base).Some? && c.Tree?
    ensures n.narHash == "sha256:" + c.hash
  {
  }

  /** The CA text, and what the descriptor says of the references and a tree's NAR hash. */
  ghost predicate SameClaim(m: Info, n: Info, base: string) {
    && m.ca == n.ca && m.ca.Some? && ClaimOf(m.ca.value).Some?
    && var c := ClaimOf(m.ca.value).value; TypePart(c, m, base) == TypePart(c, n, base)
  }

  /**
   * Two narinfos of one store path that both pass the content-address check say
   * the same about the content, unless they exhibit a collision of the digest:
   * the same claim, text for text. Where the references of one hold no colon, those
   * of the other are the same references exactly when they hold none either.
   */
  lemma ContentBound(m: Info, n: Info, sha: Hash)
    requires m.storePath == n.storePath && CaHolds(m, sha) && CaHolds(n, sha)
    requires NoCollision(Hashed(m, sha), Hashed(n, sha), sha)
    ensures SameClaim(m, n, Base(m).value)
    ensures m.ca.Some? && TREE <= m.ca.value ==> m.narHash == n.narHash
    ensures Plain(m.references) ==> (SameContent(m, n, Base(m).value) <==> Plain(n.references))
  {
    hide ClaimOf, ClaimHash, TypePart, HashPart, Descriptor, Hashed, Describe, MakeStorePath, Others, Inner,
      Nix32.Folded;
    var base, c, g, s := Parts(m, sha);
    var base', d, h, t := Parts(n, sha);
    assert base' == base;
    PathInjective(Descriptor(m, sha).value, Descriptor(n, sha).value, base[33..], sha);
    DescribeInjective(s, HashPart(c, g, sha), t, HashPart(d, h, sha), base[33..]);
    TypePartBinds(c, m, d, n, base);
    HashPartBinds(c, d, sha);
    ClaimBack(m.ca.value);
    ClaimBack(n.ca.value);
    if TREE <= m.ca.value {
      TreeClaim(m.ca.value);
      TreeNarHash(c, m, base);
      TreeNarHash(d, n, base);
    }
    if Plain(m.references) && SameContent(m, n, base) {
      PlainFromOthers(m.references, n.references, base);
    }
  }

  lemma PlainFromOthers(p: seq<string>, q: seq<string>, base: string)
    requires Plain(p) && multiset(Others(p, base)) == multiset(Others(q, base)) && (base in p <==> base in q)
    ensures Plain(q)
  {
    forall k | 0 <= k < |q|
      ensures ':' !in q[k]
    {
      if q[k] != base {
        OthersHolds(q, base, q[k]);
        assert q[k] in multiset(Others(q, base));
        assert q[k] in Others(p, base);
      }
      assert q[k] in q;
      var j :| 0 <= j < |p| && p[j] == q[k];
    }
  }

  lemma {:induction false} OthersHolds(refs: seq<string>, base: string, r: string)
    requires r in refs && r != base
    ensures r in Others(refs, base)
  {
    var n := |refs| - 1;
    if r != refs[n] {
      assert r in refs[..n];
      OthersHolds(refs[..n], base, r);
    }
  }

  lemma SameClaimHolds(m: Info, n: Info, sha: Hash)
    requires m.storePath == n.storePath && CaHolds(m, sha) && SameClaim(m, n, Base(m).value)
    ensures CaHolds(n, sha)
  {
    hide ClaimOf, ClaimHash, TypePart, HashPart, Describe, MakeStorePath, Others;
    BaseOnly(m, n);
  }

  /** Beside one narinfo that passes, another of its path passes exactly when it makes the same claim. */
  lemma ContentIff(m: Info, n: Info, sha: Hash)
    requires m.storePath == n.storePath && CaHolds(m, sha)
    requires NoCollision(Hashed(m, sha), Hashed(n, sha), sha)
    ensures CaHolds(n, sha) <==> SameClaim(m, n, Base(m).value)
  {
    hide Hashed, SameClaim, TypePart, ClaimOf, ClaimHash, Describe, MakeStorePath;
    if CaHolds(n, sha) {
      ContentBound(m, n, sha);
    } else if SameClaim(m, n, Base(m).value) {
      SameClaimHolds(m, n, sha);
    }
  }

  lemma TypePartDecides(c: Claim, m: Info, n: Info, base: string)
    requires m.ca.Some? && ClaimOf(m.ca.value) == Some(c) && SameContent(m, n, base)
    ensures TypePart(c, m, base) == TypePart(c, n, base)
  {
    hide ClaimOf, RefText, Sorted;
    SortedIff(Others(m.references, base), Others(n.references, base));
    SameSize(Others(m.references, base), Others(n.references, base));
    NoReferences(m.references, base);
    NoReferences(n.references, base);
    ClaimBack(m.ca.value);
    if c.Tree? {
      TreeText(c.hash);
    }
  }

  /** Conversely, the check looks at nothing else: narinfos that agree on these pass or fail together. */
  lemma ContentDecides(m: Info, n: Info, sha: Hash)
    requires m.storePath == n.storePath && Base(m).Some?
    requires SameContent(m, n, Base(m).value)
    ensures CaHolds(m, sha) <==> CaHolds(n, sha)
  {
    hide ClaimOf, ClaimHash, TypePart, HashPart, Describe, MakeStorePath, Others;
    if m.ca.Some? && ClaimOf(m.ca.value).Some? {
      TypePartDecides(ClaimOf(m.ca.value).value, m, n, Base(m).value);
    }
  }

  lemma NoReferences(refs: seq<string>, base: string)
    ensures refs == [] <==> Others(refs, base) == [] && base !in refs
  {
  }

  /** Without the condition on names it does not bind: a colon in a reference reads as two references. */
  lemma ColonAmbiguous(n: Info, base: string, r: string, q: string, sha: Hash)
    requires n.ca.Some? && "text:sha256:" <= n.ca.value && Base(n) == Some(base)
    requires Leq(r, q) && base !in {r, q, r + ":" + Keys.STORE_DIR + "/" + q}
    ensures
      var two, one := n.(references := [r, q]), n.(references := [r + ":" + Keys.STORE_DIR + "/" + q]);
      CaStorePath(two, sha) == CaStorePath(one, sha) && !SameContent(two, one, base)
  {
    hide ClaimOf, ClaimHash, HashPart, Describe, MakeStorePath, Base, TypePart, Others, Nix32.Folded;
    var joined := r + ":" + Keys.STORE_DIR + "/" + q;
    var two, one := n.(references := [r, q]), n.(references := [joined]);
    TextBack(n.ca.value);
    ColonTypePart(ClaimOf(n.ca.value).value, n, base, r, q);
    BaseOnly(two, one);
    BaseOnly(two, n);
    assert |multiset(Others(two.references, base))| == 2 && |multiset(Others(one.references, base))| == 1;
  }

  lemma ColonTypePart(c: Claim, n: Info, base: string, r: string, q: string)
    requires c.Text? && Leq(r, q)
    requires base !in {r, q, r + ":" + Keys.STORE_DIR + "/" + q}
    ensures
      var two, one := n.(references := [r, q]), n.(references := [r + ":" + Keys.STORE_DIR + "/" + q]);
      TypePart(c, two, base) == TypePart(c, one, base)
    ensures |Others([r, q], base)| == 2 && |Others([r + ":" + Keys.STORE_DIR + "/" + q], base)| == 1
  {
    hide RefText, Leq;
    var joined := r + ":" + Keys.STORE_DIR + "/" + q;
    TwoOthers(r, q, base);
    assert [joined][..0] == [];
    assert Others([joined], base) == [joined] == Sorted([joined]);
    ColonRefText(r, q);
  }

  lemma ColonRefText(r: string, q: string)
    ensures RefText([r, q]) == RefText([r + ":" + Keys.STORE_DIR + "/" + q])
  {
    var joined := r + ":" + Keys.STORE_DIR + "/" + q;
    assert [r, q][1..] == [q] && [q][1..] == [] && [joined][1..] == [];
    assert RefText([q]) == ":" + Keys.STORE_DIR + "/" + q;
    assert RefText([joined]) == ":" + Keys.STORE_DIR + "/" + joined;
  }

  lemma BaseOnly(m: Info, n: Info)
    requires m.storePath == n.storePath
    ensures Base(m) == Base(n)
  {
  }

  lemma TwoOthers(r: string, q: string, base: string)
    requires Leq(r, q) && r != base && q != base
    ensures Others([r, q], base) == [r, q] == Sorted([r, q])
  {
    assert [r, q][..1] == [r] && [r][..0] == [];
    assert Sorted([r]) == [r] && Others([r], base) == [r];
  }

  // --- the path, letter for letter ------------------------------------------------------------

  lemma {:induction false} HexSpelled(bytes: seq<Nix32.Byte>, k: nat)
    requires k < |bytes|
    ensures Hex(bytes)[2 * k] == "0123456789abcdef"[bytes[k] / 16]
    ensures Hex(bytes)[2 * k + 1] == "0123456789abcdef"[bytes[k] % 16]
  {
    if k == 0 {
      DigitSpelled(bytes[0] / 16);
      DigitSpelled(bytes[0] % 16);
    } else {
      HexSpelled(bytes[1..], k - 1);
      HexRest(bytes);
      assert Hex(bytes)[2 * k] == Hex(bytes)[2..][2 * (k - 1)];
      assert Hex(bytes)[2 * k + 1] == Hex(bytes)[2..][2 * (k - 1) + 1];
    }
  }

  lemma HexRest(bytes: seq<Nix32.Byte>)
    requires bytes != []
    ensures Hex(bytes)[2..] == Hex(bytes[1..])
  {
  }

  lemma DigitSpelled(d: nat)
    requires d < 16
    ensures Json.HexDigit(d) == "0123456789abcdef"[d]
  {
  }

  lemma RefTextSpelled(first: string, rest: seq<string>)
    ensures RefText([]) == "" && RefText([first] + rest) == ":/nix/store/" + first + RefText(rest)
  {
    assert ([first] + rest)[1..] == rest;
    assert ":" + ((Keys.STORE_DIR + "/" + first) + RefText(rest)) == ":/nix/store/" + first + RefText(rest);
  }

  /** The references apart from the path itself, in ascending order. */
  ghost predicate SortedRest(sorted: seq<string>, refs: seq<string>, base: string) {
    Ascending(sorted) && multiset(sorted) == multiset(refs)[base := 0]
  }

  lemma {:induction false} OthersCount(refs: seq<string>, base: string)
    ensures multiset(Others(refs, base)) == multiset(refs)[base := 0]
  {
    if refs != [] {
      var init, last := refs[..|refs| - 1], refs[|refs| - 1];
      OthersCount(init, base);
      assert refs == init + [last];
    }
  }

  lemma SortedRestIs(sorted: seq<string>, refs: seq<string>, base: string)
    requires SortedRest(sorted, refs, base)
    ensures sorted == Sorted(Others(refs, base))
  {
    hide Ordered, Ascending, Others, Sorted;
    OthersCount(refs, base);
    SortedSorts(Others(refs, base));
    OrderedAscends(sorted);
    OrderedUnique(sorted, Sorted(Others(refs, base)));
  }

  /** The path a type part and a hash give. */
  function PathFor(ty: string, hash: seq<Nix32.Byte>, name: string, sha: Hash): string {
    "/nix/store/" + Nix32.Encode(Octets(Nix32.Folded(sha(ty + ":sha256:" + Hex(hash) + ":/nix/store:" + name))))
    + "-" + name
  }

  lemma PathForIs(ty: string, hash: seq<Nix32.Byte>, name: string, sha: Hash)
    ensures MakeStorePath(Describe(ty, hash, name), name, sha) == PathFor(ty, hash, name, sha)
  {
    hide Nix32.Encode, Nix32.Folded, Hex, Octets;
    assert Describe(ty, hash, name) == ty + ":sha256:" + Hex(hash) + ":/nix/store:" + name;
  }

  ghost predicate InStore(n: Info, base: string) {
    n.storePath == "/nix/store/" + base && |base| >= 33
  }

  lemma BaseSpelled(n: Info, base: string)
    ensures InStore(n, base) <==> Base(n) == Some(base)
  {
    assert Keys.STORE_DIR + "/" == "/nix/store/";
  }

  /** A text: the sorted references, no self reference, and the 32 bytes its hash spells. */
  lemma TextPath(n: Info, base: string, sorted: seq<string>, h: string, sha: Hash)
    requires InStore(n, base) && SortedRest(sorted, n.references, base)
    requires n.ca == Some("text:sha256:" + h)
    ensures CaStorePath(n, sha) ==
      if base in n.references || Nix32.Decode(h, 32).None? then None
      else Some(PathFor("text" + RefText(sorted), Nix32.Decode(h, 32).value, base[33..], sha))
  {
    hide Nix32.Decode, Others, RefText, MakeStorePath, Describe, PathFor, Base, SortedRest, Sorted;
    BaseSpelled(n, base);
    SortedRestIs(sorted, n.references, base);
    var ca := n.ca.value;
    assert ClaimOf(ca) == Some(Text(h)) by {
      assert ca[|"text:sha256:"|..] == h;
    }
    if base !in n.references && Nix32.Decode(h, 32).Some? {
      PathForIs("text" + RefText(sorted), Nix32.Decode(h, 32).value, base[33..], sha);
    }
  }

  /** A tree: its NAR hash must be the same text, and a self reference is marked behind the others. */
  lemma TreePath(n: Info, base: string, sorted: seq<string>, h: string, sha: Hash)
    requires InStore(n, base) && SortedRest(sorted, n.references, base)
    requires n.ca == Some("fixed:r:sha256:" + h)
    ensures CaStorePath(n, sha) ==
      if n.narHash != "sha256:" + h || Nix32.Decode(h, 32).None? then None
      else Some(PathFor("source" + RefText(sorted) + (if base in n.references then ":self" else ""),
        Nix32.Decode(h, 32).value, base[33..], sha))
  {
    hide Nix32.Decode, Others, RefText, MakeStorePath, Describe, PathFor, Base, SortedRest, Sorted;
    BaseSpelled(n, base);
    SortedRestIs(sorted, n.references, base);
    TreeClaimed(h);
    if n.narHash == "sha256:" + h && Nix32.Decode(h, 32).Some? {
      var mark := if base in n.references then ":self" else "";
      assert "source" + (RefText(sorted) + mark) == "source" + RefText(sorted) + mark;
      PathForIs("source" + RefText(sorted) + mark, Nix32.Decode(h, 32).value, base[33..], sha);
    }
  }

  lemma TreeClaimed(h: string)
    ensures ClaimOf("fixed:r:sha256:" + h) == Some(Tree(h))
  {
    var ca := "fixed:r:sha256:" + h;
    assert ca[0] == 'f' && ca[8..] == "sha256" + [':'] + h;
    Keys.SplitOnceAt("sha256", ':', h);
  }

  /** The names and lengths of the hashes. */
  ghost predicate HashKind(algo: string, len: nat) {
    || (algo == "md5" && len == 16)
    || (algo == "sha1" && len == 20)
    || (algo == "sha256" && len == 32)
    || (algo == "sha512" && len == 64)
  }

  /** Any other fixed output: no references, and the hash of a text that names mode, algorithm and hash. */
  lemma OutputPath(n: Info, base: string, recursive: bool, algo: string, len: nat, h: string, sha: Hash)
    requires InStore(n, base) && HashKind(algo, len) && !(recursive && algo == "sha256")
    requires n.ca == Some("fixed:" + (if recursive then "r:" else "") + algo + ":" + h)
    ensures CaStorePath(n, sha) ==
      if n.references != [] || Nix32.Decode(h, len).None? then None
      else
        var mode := if recursive then "r:" else "";
        var inner := sha("fixed:out:" + mode + algo + ":" + Hex(Nix32.Decode(h, len).value) + ":");
        Some(PathFor("output:out", Octets(inner), base[33..], sha))
  {
    hide Nix32.Decode, Others, MakeStorePath, Describe, PathFor, Base, Sorted, Hex;
    BaseSpelled(n, base);
    OutputClaim(recursive, algo, len, h);
    assert HashLength(algo) == Some(len);
    if n.references == [] && Nix32.Decode(h, len).Some? {
      var hash := Nix32.Decode(h, len).value;
      InnerSpelled(recursive, algo, hash);
      PathForIs("output:out", Octets(sha(Inner(recursive, algo, hash))), base[33..], sha);
    }
  }

  lemma InnerSpelled(recursive: bool, algo: string, hash: seq<Nix32.Byte>)
    ensures Inner(recursive, algo, hash) ==
      "fixed:out:" + (if recursive then "r:" else "") + algo + ":" + Hex(hash) + ":"
  {
    hide Hex;
    var mode := if recursive then "r:" else "";
    assert "fixed:out:" + (mode + (algo + [':'] + (Hex(hash) + ":"))) ==
      "fixed:out:" + mode + algo + ":" + Hex(hash) + ":";
  }

  lemma OutputClaim(recursive: bool, algo: string, len: nat, h: string)
    requires HashKind(algo, len) && !(recursive && algo == "sha256")
    ensures ClaimOf("fixed:" + (if recursive then "r:" else "") + algo + ":" + h) == Some(Output(recursive, algo, h))
  {
    Keys.SplitOnceAt(algo, ':', h);
    var body := algo + [':'] + h;
    if recursive {
      assert "fixed:" + "r:" + algo + ":" + h == "fixed:r:" + body;
      RecursiveClaim(body);
    } else {
      assert "fixed:" + "" + algo + ":" + h == "fixed:" + body;
      FlatClaim(body);
    }
  }

  lemma RecursiveClaim(body: string)
    ensures ClaimOf("fixed:r:" + body) == FixedClaim(true, body)
  {
    var ca := "fixed:r:" + body;
    assert ca[0] == 'f' && ca[8..] == body;
  }

  lemma FlatClaim(body: string)
    requires body != "" && body[0] != 'r'
    ensures ClaimOf("fixed:" + body) == FixedClaim(false, body)
  {
    hide FixedClaim;
    var ca := "fixed:" + body;
    assert ca[0] == 'f' && ca[6..] == body && ca[6] == body[0];
    assert "fixed:r:"[6] == 'r';
  }

  /** Nothing else gives a path. */
  lemma AddressForms(n: Info, sha: Hash)
    requires CaStorePath(n, sha).Some?
    ensures exists base :: InStore(n, base)
    ensures n.ca.Some? && Formed(n.ca.value)
  {
    hide Nix32.Decode, Others, RefText, MakeStorePath, Describe, Sorted, HashPart;
    BaseSpelled(n, Base(n).value);
    var ca := n.ca.value;
    ClaimBack(ca);
    var c := ClaimOf(ca).value;
    FormedBack(c, ca);
  }

  ghost predicate Formed(ca: string) {
    || "text:sha256:" <= ca
    || "fixed:r:sha256:" <= ca
    || (exists algo, len :: HashKind(algo, len) && ("fixed:" + algo + ":" <= ca || "fixed:r:" + algo + ":" <= ca))
  }

  lemma FormedBack(c: Claim, ca: string)
    requires ClaimText(c) == ca && (c.Output? ==> HashLength(c.algo).Some?)
    ensures Formed(ca)
  {
    match c
    case Text(h) => assert ca == "text:sha256:" + h;
    case Tree(h) => TreeText(h);
    case Output(recursive, algo, h) =>
      KindOf(algo);
      OutputFormed(recursive, algo, h, HashLength(algo).value);
  }

  lemma KindOf(algo: string)
    requires HashLength(algo).Some?
    ensures HashKind(algo, HashLength(algo).value)
  {
  }

  lemma OutputFormed(recursive: bool, algo: string, h: string, len: nat)
    requires HashKind(algo, len)
    ensures Formed("fixed:" + ((if recursive then "r:" else "") + (algo + [':'] + h)))
  {
    hide HashKind;
    if recursive {
      FixedText("r:", algo, h);
      assert "fixed:" + "r:" + algo + ":" + h == ("fixed:r:" + algo + ":") + h;
    } else {
      FixedText("", algo, h);
      assert "fixed:" + "" + algo + ":" + h == ("fixed:" + algo + ":") + h;
    }
  }

  lemma FixedText(mode: string, algo: string, h: string)
    ensures "fixed:" + (mode + (algo + [':'] + h)) == "fixed:" + mode + algo + ":" + h
  {
  }

  // --- acceptance -------------------------------------------------------------------------------

  datatype PubKey = PubKey(name: string, key: string)

  /** `checks(key, message, signature)` is the signature scheme. */
  predicate Signed(sig: string, message: string, keys: seq<PubKey>, checks: (PubKey, string, string) -> bool) {
    match Keys.SplitOnce(sig, ':')
    case None => false
    case Some((name, text)) => exists k :: 0 <= k < |keys| && keys[k].name == name && checks(keys[k], message, text)
  }

  predicate Verify(n: Info, keys: seq<PubKey>, sha: Hash, checks: (PubKey, string, string) -> bool) {
    CaHolds(n, sha) || exists i :: 0 <= i < |n.sigs| && Signed(n.sigs[i], Fingerprint(n), keys, checks)
  }

  /** A signature counts when a key of the name before its first colon checks the text behind it. */
  lemma SignedSpelled(sig: string, name: string, text: string, message: string, keys: seq<PubKey>,
    checks: (PubKey, string, string) -> bool)
    requires ':' !in name
    ensures sig == name + ":" + text ==>
      (Signed(sig, message, keys, checks) <==>
        exists key :: key in keys && key.name == name && checks(key, message, text))
    ensures ':' !in sig ==> !Signed(sig, message, keys, checks)
  {
    if sig == name + ":" + text {
      Keys.SplitOnceAt(name, ':', text);
      assert sig == name + [':'] + text;
    }
  }

  /** Accepted: by the path its content address gives, or by a signature over its fingerprint. */
  lemma VerifySpelled(n: Info, keys: seq<PubKey>, sha: Hash, checks: (PubKey, string, string) -> bool)
    ensures Verify(n, keys, sha, checks) <==>
      CaStorePath(n, sha) == Some(n.storePath)
      || exists sig :: sig in n.sigs && Signed(sig, Fingerprint(n), keys, checks)
  {
    hide CaStorePath, Fingerprint, Signed;
  }

  /** The holder of each key has signed only these narinfos, and signatures cannot be made otherwise. */
  ghost predicate Unforgeable(keys: seq<PubKey>, checks: (PubKey, string, string) -> bool,
    signed: PubKey -> set<Info>) {
    forall k, message, text | 0 <= k < |keys| && checks(keys[k], message, text) ::
      exists m :: m in signed(keys[k]) && Fingerprint(m) == message
  }

  /**
   * An accepted narinfo, whatever its names, is content-addressed or has the
   * fingerprint of a narinfo a trusted key has signed. If that one is clean, the
   * accepted one is for its path, hash and size, and lists its references exactly
   * when none it lists holds a separator.
   */
  lemma AcceptedIsBound(n: Info, keys: seq<PubKey>, sha: Hash, checks: (PubKey, string, string) -> bool,
    signed: PubKey -> set<Info>)
    requires Unforgeable(keys, checks, signed)
    requires Verify(n, keys, sha, checks)
    ensures CaHolds(n, sha) || exists k, m :: 0 <= k < |keys| && m in signed(keys[k]) && StatesFactsOf(n, m)
  {
    hide CaHolds, Fingerprint, StatesFactsOf;
    if !CaHolds(n, sha) {
      var i :| 0 <= i < |n.sigs| && Signed(n.sigs[i], Fingerprint(n), keys, checks);
      var (name, text) := Keys.SplitOnce(n.sigs[i], ':').value;
      var k :| 0 <= k < |keys| && keys[k].name == name && checks(keys[k], Fingerprint(n), text);
      var m :| m in signed(keys[k]) && Fingerprint(m) == Fingerprint(n);
      SharedFingerprint(n, m);
      assert m in signed(keys[k]) && StatesFactsOf(n, m);
    }
  }

  lemma SharedFingerprint(n: Info, m: Info)
    requires Fingerprint(n) == Fingerprint(m)
    ensures StatesFactsOf(n, m)
  {
    hide Fingerprint, JoinRefs;
    if Clean(m) {
      SignedBinds(m, n);
    }
  }

  /** It has the fingerprint of `m`, and what follows from that if `m` is clean. */
  ghost predicate StatesFactsOf(n: Info, m: Info) {
    && Fingerprint(n) == Fingerprint(m)
    && (Clean(m) ==>
          && n.storePath == m.storePath && n.narHash == m.narHash && n.narSize == m.narSize
          && (n.references == m.references <==> NoBetween(n.references)))
  }

  /**
   * The references are not bound as a list: whoever passes on a signed narinfo may
   * run two of them together, and it is still accepted.
   */
  lemma RunTogether(m: Info, r: string, q: string, keys: seq<PubKey>, sha: Hash,
    checks: (PubKey, string, string) -> bool)
    requires m.references == [r, q]
    requires exists i :: 0 <= i < |m.sigs| && Signed(m.sigs[i], Fingerprint(m), keys, checks)
    ensures
      var n := m.(references := [r + "," + Keys.STORE_DIR + "/" + q]);
      Verify(n, keys, sha, checks) && n.references != m.references
  {
    hide CaHolds, Fingerprint;
    CommaAmbiguous(m, r, q);
    assert m.(references := [r, q]) == m;
    var n := m.(references := [r + "," + Keys.STORE_DIR + "/" + q]);
    assert Fingerprint(n) == Fingerprint(m) && n.sigs == m.sigs;
  }
}
