/** Stored objects, as the parsers see them. */
module Objects {
  import opened Wrappers
  import opened Keys
  import opened Retention

  /** A parsed and validated v3 manifest. */
  datatype Manifest =
    Manifest(flake: string, gen: string, branch: string, attr: string, time: Time, closure: seq<string>)

  /** The two narinfo fields the stores go by. */
  datatype Info = Info(storePath: string, url: string)

  /**
   * An object body: its bytes, and what reading it as text, as a manifest and as
   * a narinfo gives. The parsers themselves are not part of this module.
   */
  datatype Body = Body(bytes: seq<bv8>, utf8: bool, manifest: Option<Manifest>, info: Option<Info>)

  datatype Object = Object(body: Body, time: Time)

  type Bucket = map<string, Object>

  function ToGen(id: string, m: Manifest): Gen {
    Gen(id, m.flake, m.branch, m.attr, m.time)
  }

  /** What retention goes by is the manifest's own. */
  lemma GenOfManifest(id: string, m: Manifest)
    ensures
      var g := ToGen(id, m);
      g.id == id && g.flake == m.flake && g.branch == m.branch && g.attr == m.attr && g.time == m.time
  {
  }

  function Hashes(m: Manifest): set<string> {
    set path | path in m.closure :: StoreHashOf(path)
  }

  predicate IsManifest(b: Bucket, key: string) {
    key in b && b[key].body.manifest.Some?
  }

  /** The NAR URL a readable narinfo object of this hash names. */
  function UrlIn(b: Bucket, hash: string): Option<string> {
    var key := InfoKey(hash);
    if key in b && b[key].body.utf8 && b[key].body.info.Some? then Some(b[key].body.info.value.url) else None
  }

  /** A client can fetch this hash: the narinfo reads, and the NAR it names is there. */
  predicate Servable(b: Bucket, hash: string) {
    UrlIn(b, hash).Some? && UrlIn(b, hash).value in b
  }

  /** Servable, field by field. */
  lemma ServableSpelled(b: Bucket, hash: string)
    ensures Servable(b, hash) <==>
      var key := hash + ".narinfo";
      key in b && b[key].body.utf8 && b[key].body.info.Some? && b[key].body.info.value.url in b
  {
  }

  /** A manifest's hashes are the first 32 characters of what its paths hold behind their last slash. */
  lemma HashesSpelled(m: Manifest, h: string)
    ensures h in Hashes(m) <==> exists path :: path in m.closure && HashPart(path, h)
  {
    forall path
      ensures HashPart(path, h) <==> StoreHashOf(path) == h
    {
      HashPartIs(path, h);
    }
  }

  ghost predicate HashPart(path: string, h: string) {
    exists base :: LastPart(path, base) && h == base[..if |base| < 32 then |base| else 32]
  }

  ghost predicate LastPart(path: string, base: string) {
    '/' !in base && (path == base || exists dir :: path == dir + "/" + base)
  }

  lemma HashPartIs(path: string, h: string)
    ensures HashPart(path, h) <==> StoreHashOf(path) == h
  {
    hide StoreHashOf;
    var own := PartOf(path);
    forall base | LastPart(path, base)
      ensures StoreHashOf(path) == base[..if |base| < 32 then |base| else 32]
    {
      StoreHashOfBase("", base);
      if path != base {
        var dir :| path == dir + "/" + base;
        StoreHashOfBase(dir, base);
      }
      assert |base| < 32 ==> base[..|base|] == base;
    }
  }

  lemma PartOf(path: string) returns (base: string)
    ensures LastPart(path, base)
  {
    var i := |path|;
    while i > 0 && path[i - 1] != '/'
      invariant 0 <= i <= |path|
      invariant '/' !in path[i..]
    {
      assert path[i - 1..] == [path[i - 1]] + path[i..];
      i := i - 1;
    }
    base := path[i..];
    if i > 0 {
      assert path == path[..i - 1] + "/" + base;
    }
  }
}
