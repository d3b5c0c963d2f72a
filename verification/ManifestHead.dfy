/**
 * A manifest's header, read from the first bytes of its JSON text: what the
 * shortcut finds against what the full parse finds.
 */
module ManifestHead {
  import opened Wrappers
  import opened Json
  import Keys

  // --- the header ----------------------------------------------------------------

  /** A manifest's fields minus `closure`. */
  datatype Head = Head(version: nat, flake: string, gen: string, branch: string, attr: string, timestamp: string)

  const HEAD_FIELDS := {"version", "flake", "gen", "branch", "attr", "timestamp"}

  /** The values under a field name, in order. */
  function Values(ms: seq<Member>, key: string): seq<Value> {
    if ms == [] then []
    else (if ms[0].key == key then [ms[0].value] else []) + Values(ms[1..], key)
  }

  function Text(ms: seq<Member>, key: string): Option<string> {
    var vs := Values(ms, key);
    if |vs| == 1 && vs[0].Str? then Some(vs[0].text) else None
  }

  /** Each field exactly once and of its type; other fields do not matter. */
  function HeadOf(ms: seq<Member>): Option<Head> {
    var vs := Values(ms, "version");
    if |vs| != 1 || !vs[0].Num? || vs[0].n >= 0x1_0000_0000 then None
    else
      match (Text(ms, "flake"), Text(ms, "gen"), Text(ms, "branch"), Text(ms, "attr"), Text(ms, "timestamp"))
      case (Some(flake), Some(gen), Some(branch), Some(attr), Some(timestamp)) =>
        Some(Head(vs[0].n, flake, gen, branch, attr, timestamp))
      case _ => None
  }

  predicate Filled(h: Head) {
    h.flake != "" && h.gen != "" && h.branch != "" && h.attr != ""
  }

  /** `timeOk` says which timestamps parse. */
  function Valid(h: Option<Head>, timeOk: string -> bool): Option<Head> {
    match h
    case Some(head) => if head.version == 3 && Filled(head) && timeOk(head.timestamp) then h else None
    case None => None
  }

  function ParseHead(s: string): Option<Head> {
    match Document(s)
    case Some(ms) => HeadOf(ms)
    case None => None
  }

  const CUT := ",\"closure\""

  predicate CutAt(s: string, i: nat) {
    i + |CUT| <= |s| && s[i..i + |CUT|] == CUT
  }

  /** The first position at or after `i` where the cut mark stands. */
  function FindCut(s: string, i: nat): (r: Option<nat>)
    requires i <= |s|
    ensures r.Some? ==> i <= r.value && CutAt(s, r.value) && forall j: nat :: i <= j < r.value ==> !CutAt(s, j)
    ensures r.None? ==> forall j: nat :: i <= j ==> !CutAt(s, j)
    decreases |s| - i
  {
    if CutAt(s, i) then Some(i)
    else if i == |s| then None
    else FindCut(s, i + 1)
  }

  /** The header up to the cut mark, closed where the mark stood. */
  function CutHead(s: string): Option<Head> {
    match FindCut(s, 0)
    case Some(i) => ParseHead(s[..i] + "}")
    case None => None
  }

  function FromPrefix(s: string, timeOk: string -> bool): Option<Head> {
    Valid(if CutHead(s).Some? then CutHead(s) else ParseHead(s), timeOk)
  }

  // --- any field order ---------------------------------------------------------

  /** No header field occurs twice. */
  predicate Once(ms: seq<Member>) {
    forall key | key in HEAD_FIELDS :: |Values(ms, key)| <= 1
  }

  lemma ValuesCons(ms: seq<Member>, key: string)
    requires ms != []
    ensures Values(ms, key) == (if ms[0].key == key then [ms[0].value] else []) + Values(ms[1..], key)
  {
  }

  lemma {:induction false} ValuesJoin(ms: seq<Member>, ns: seq<Member>, key: string)
    ensures Values(ms + ns, key) == Values(ms, key) + Values(ns, key)
  {
    if ms == [] {
      assert ms + ns == ns;
    } else {
      hide *;
      ValuesJoin(ms[1..], ns, key);
      ValuesCons(ms, key);
      ValuesCons(ms + ns, key);
      assert (ms + ns)[1..] == ms[1..] + ns;
      Regroup(if ms[0].key == key then [ms[0].value] else [], Values(ms[1..], key), Values(ns, key));
    }
  }

  /** A header is determined by the values under its six names. */
  lemma HeadOfValues(ms: seq<Member>, ns: seq<Member>)
    requires forall key | key in HEAD_FIELDS :: Values(ms, key) == Values(ns, key)
    ensures HeadOf(ms) == HeadOf(ns)
  {
    assert forall key | key in HEAD_FIELDS :: Text(ms, key) == Text(ns, key);
  }

  lemma HeadOfOnce(ms: seq<Member>, key: string)
    requires HeadOf(ms).Some? && key in HEAD_FIELDS
    ensures |Values(ms, key)| == 1
  {
  }

  /** What more fields follow a complete header do not matter, as long as none repeats. */
  lemma HeadOfMore(ms: seq<Member>, ns: seq<Member>)
    requires HeadOf(ms).Some? && Once(ms + ns)
    ensures HeadOf(ms + ns) == HeadOf(ms)
  {
    hide HeadOf, Values;
    forall key | key in HEAD_FIELDS
      ensures Values(ms + ns, key) == Values(ms, key)
    {
      ValuesJoin(ms, ns, key);
      HeadOfOnce(ms, key);
    }
    HeadOfValues(ms + ns, ms);
  }

  /** Behind its opening brace a document has a member or the closing brace. */
  lemma NoLeadingComma(s: string)
    requires Document(s).Some?
    ensures Skip(s, 0) < |s| && !Is(s, Skip(s, Skip(s, 0) + 1), ',')
  {
    hide Document;
    DocumentObject(s);
    var j := Skip(s, Skip(s, 0) + 1);
    assert Is(s, j, ',') ==> MemberAt(s, j) == None;
  }

  lemma DocumentObject(s: string)
    requires Document(s).Some?
    ensures ObjectAt(s, Skip(s, 0)).Some? && ObjectAt(s, Skip(s, 0)).value.0 == Document(s).value
    ensures Is(s, Skip(s, 0), '{') && Skip(s, ObjectAt(s, Skip(s, 0)).value.1) == |s|
  {
    hide Members;
  }

  /** A document that ends with its closing brace has no blanks behind it. */
  lemma ClosedObject(s: string)
    requires Document(s).Some? && s != "" && s[|s| - 1] == '}'
    ensures ObjectAt(s, Skip(s, 0)) == Some((Document(s).value, |s|))
  {
    hide Document, ObjectAt;
    DocumentObject(s);
    var last := |s| - 1;
    assert !IsBlank(s[last]);
  }

  lemma CutAgrees(s: string, i: nat)
    requires i <= |s|
    ensures Agree(s[..i] + "}", s, i)
  {
    assert (s[..i] + "}")[..i] == s[..i];
  }

  lemma NotAtCut(s: string, t: string, k: nat, i: nat)
    requires k <= i && Agree(t, s, i) && Is(s, i, ',') && Is(t, i, '}')
    requires !Is(s, Skip(s, k), ',')
    ensures Skip(t, k) < i
  {
    assert !IsBlank(t[i]);
    if Skip(t, k) == i {
      SkipSame(t, s, k);
    }
  }

  /** Where the members of a cut text start, those of the whole start too. */
  lemma CutStart(s: string, i: nat) returns (j: nat)
    requires Document(s).Some? && Is(s, i, ',') && Document(s[..i] + "}").Some?
    ensures
      var t := s[..i] + "}";
      && j < i && Agree(t, s, i)
      && Members(t, j) == Some((Document(t).value, i + 1))
      && Members(s, j).Some? && Members(s, j).value.0 == Document(s).value
  {
    hide Document, ObjectAt, Members, MemberAt, Agree, Skip;
    var t := s[..i] + "}";
    assert t[i] == '}';
    CutAgrees(s, i);
    DocumentObject(s);
    DocumentObject(t);
    ClosedObject(t);
    NoLeadingComma(s);
    SkipWithin(t, s, 0, i);
    var k := Skip(t, 0);
    j := Skip(t, k + 1);
    NotAtCut(s, t, k + 1, i);
    SkipWithin(t, s, k + 1, i);
    ObjectMembers(t, k);
    ObjectMembers(s, k);
  }

  lemma ObjectMembers(s: string, k: nat)
    requires k <= |s| && ObjectAt(s, k).Some?
    ensures Is(s, k, '{') && (!Is(s, Skip(s, k + 1), '}') ==> ObjectAt(s, k) == Members(s, Skip(s, k + 1)))
    ensures Is(s, Skip(s, k + 1), '}') ==> ObjectAt(s, k).value.1 == Skip(s, k + 1) + 1
  {
    hide Members;
  }

  /** A cut text that reads as an object holds the first members of the whole. */
  lemma CutMembers(s: string, i: nat) returns (ns: seq<Member>)
    requires Document(s).Some? && Is(s, i, ',') && Document(s[..i] + "}").Some?
    ensures Document(s).value == Document(s[..i] + "}").value + ns
  {
    hide Document, Members, Agree;
    var j := CutStart(s, i);
    ns := MembersGoOn(s[..i] + "}", s, j);
  }

  /** Where the cut text yields a header, the fields before the cut hold each of its names once. */
  lemma CutFields(s: string, k: nat) returns (ps: seq<Member>, ns: seq<Member>)
    requires Document(s).Some? && k <= |s| && CutHead(s[..k]).Some?
    ensures Document(s) == Some(ps + ns) && HeadOf(ps) == CutHead(s[..k])
  {
    var p := s[..k];
    var i := FindCut(p, 0).value;
    assert CutAt(p, i) && CUT[0] == ',';
    assert p[i] == p[i..i + |CUT|][0];
    assert p[..i] == s[..i];
    ns := CutMembers(s, i);
    ps := Document(s[..i] + "}").value;
  }

  /** A cut mark found in a prefix is the one found in the whole. */
  lemma CutOfPrefix(s: string, k: nat)
    requires k <= |s| && FindCut(s[..k], 0).Some?
    ensures CutHead(s[..k]) == CutHead(s)
  {
    var p := s[..k];
    var i := FindCut(p, 0).value;
    assert p[i..i + |CUT|] == s[i..i + |CUT|];
    forall j: nat | j < i
      ensures !CutAt(s, j)
    {
      assert !CutAt(p, j);
      assert j + |CUT| <= k ==> p[j..j + |CUT|] == s[j..j + |CUT|];
    }
    FindCutIs(s, i);
    assert p[..i] == s[..i];
  }

  /** A complete header repeats no field. */
  lemma HeadOnce(ms: seq<Member>)
    requires HeadOf(ms).Some?
    ensures Once(ms)
  {
    hide HeadOf, Values;
    forall key | key in HEAD_FIELDS
      ensures |Values(ms, key)| <= 1
    {
      HeadOfOnce(ms, key);
    }
  }

  /** On a whole object in which nothing repeats, in whatever order, the shortcut is the full parse. */
  lemma WholeOnce(s: string, ms: seq<Member>, timeOk: string -> bool)
    requires Document(s) == Some(ms) && Once(ms)
    ensures FromPrefix(s, timeOk) == Valid(HeadOf(ms), timeOk)
  {
    hide HeadOf, Once, Document;
    if CutHead(s).Some? {
      assert s[..|s|] == s;
      var ps, ns := CutFields(s, |s|);
      HeadOfMore(ps, ns);
    }
  }

  /** A prefix that is itself a document, in which no cut mark helps, still says what the whole does. */
  lemma WholePrefix(s: string, k: nat, timeOk: string -> bool)
    requires Document(s).Some? && k <= |s| && CutHead(s[..k]).None? && ParseHead(s[..k]).Some?
    ensures FromPrefix(s[..k], timeOk) == FromPrefix(s, timeOk)
  {
    hide CutHead, HeadOf, Once;
    PrefixDocument(s, k);
    HeadOnce(Document(s).value);
    WholeOnce(s, Document(s).value, timeOk);
  }

  /**
   * Whatever prefix of an object the reader is given, whatever order its fields
   * have and whatever repeats, it finds what it would find in the whole, or
   * nothing; and where no header field repeats that is the header of the full parse.
   */
  lemma PrefixSound(s: string, ms: seq<Member>, k: nat, timeOk: string -> bool)
    requires Document(s) == Some(ms) && k <= |s|
    ensures
      var r := FromPrefix(s[..k], timeOk);
      r == FromPrefix(s, timeOk) || (r == None && k < |s|)
    ensures CutHead(s[..k]).Some? ==> FromPrefix(s[..k], timeOk) == FromPrefix(s, timeOk)
    ensures Once(ms) ==> FromPrefix(s, timeOk) == Valid(HeadOf(ms), timeOk)
  {
    hide HeadOf, Once, Document, CutHead;
    if Once(ms) {
      WholeOnce(s, ms, timeOk);
    }
    if CutHead(s[..k]).Some? {
      HasCut(s[..k]);
      CutOfPrefix(s, k);
    } else if ParseHead(s[..k]).Some? {
      WholePrefix(s, k, timeOk);
    } else if k == |s| {
      assert s[..k] == s;
    }
  }

  lemma HasCut(s: string)
    requires CutHead(s).Some?
    ensures FindCut(s, 0).Some?
  {
  }

  /**
   * On a whole object the shortcut and the full parse agree, in any field order,
   * exactly unless a header field is repeated and the text before `closure` is
   * acceptable by itself: then the reader misses the repetition.
   */
  lemma WholeExactIff(s: string, ms: seq<Member>, timeOk: string -> bool)
    requires Document(s) == Some(ms)
    ensures
      FromPrefix(s, timeOk) == Valid(HeadOf(ms), timeOk) <==>
      Once(ms) || Valid(CutHead(s), timeOk) == None
  {
    if Once(ms) {
      WholeOnce(s, ms, timeOk);
    } else {
      RepeatedHead(ms);
    }
  }

  lemma RepeatedHead(ms: seq<Member>)
    requires !Once(ms)
    ensures HeadOf(ms) == None
  {
    var key :| key in HEAD_FIELDS && |Values(ms, key)| > 1;
    if HeadOf(ms).Some? {
      HeadOfOnce(ms, key);
    }
  }

  /** Such an object exists: an emitted manifest followed by a second `flake`. */
  lemma RepeatedFieldMissed(h: Head, closure: seq<string>, again: string)
    requires h.version < 0x1_0000_0000
    ensures
      var ms := Emitted(h, closure) + [Member("flake", Str(again))];
      CutHead(Print(ms)) == Some(h) && HeadOf(ms) == None
  {
    var last := [Member("flake", Str(again))];
    var ms := Emitted(h, closure) + last;
    var s := Print(ms);
    EmittedTwice(h, closure, again);
    RepeatedHead(ms);
    EmittedHead(h, closure);
    DocumentOf(HeadMembers(h));
    assert ms == HeadMembers(h) + (Closure(closure) + last);
    HeadLeads(h);
    PrintedCut(HeadMembers(h), Closure(closure) + last);
  }

  lemma EmittedTwice(h: Head, closure: seq<string>, again: string)
    ensures !Once(Emitted(h, closure) + [Member("flake", Str(again))])
  {
    var last := [Member("flake", Str(again))];
    HeadValues(h);
    EmittedValues(h, closure, "flake");
    ValuesJoin(Emitted(h, closure), last, "flake");
    assert |Values(last, "flake")| == 1;
    assert "flake" in HEAD_FIELDS;
  }

  // --- emitted manifests -----------------------------------------------------------

  function HeadMembers(h: Head): seq<Member> {
    [Member("version", Num(h.version)), Member("flake", Str(h.flake)), Member("gen", Str(h.gen)),
     Member("branch", Str(h.branch)), Member("attr", Str(h.attr)), Member("timestamp", Str(h.timestamp))]
  }

  function Closure(closure: seq<string>): seq<Member> {
    [Member("closure", List(Strings(closure)))]
  }

  function Strings(texts: seq<string>): seq<Value> {
    if texts == [] then [] else [Str(texts[0])] + Strings(texts[1..])
  }

  /** The fields in the order `emit` writes them. */
  function Emitted(h: Head, closure: seq<string>): seq<Member> {
    HeadMembers(h) + Closure(closure)
  }

  lemma {:induction false} ValuesAbsent(ms: seq<Member>, key: string)
    requires forall k :: 0 <= k < |ms| ==> ms[k].key != key
    ensures Values(ms, key) == []
  {
    if ms != [] {
      ValuesAbsent(ms[1..], key);
    }
  }

  lemma ValuesAt(ms: seq<Member>, k: nat)
    requires k < |ms| && forall j :: 0 <= j < |ms| && j != k ==> ms[j].key != ms[k].key
    ensures Values(ms, ms[k].key) == [ms[k].value]
  {
    hide *;
    var key := ms[k].key;
    ValuesAbsent(ms[..k], key);
    ValuesAbsent(ms[k..][1..], key);
    ValuesCons(ms[k..], key);
    ValuesJoin(ms[..k], ms[k..], key);
    assert ms == ms[..k] + ms[k..];
  }

  lemma HeadValues(h: Head)
    ensures Values(HeadMembers(h), "version") == [Num(h.version)]
    ensures Values(HeadMembers(h), "flake") == [Str(h.flake)]
    ensures Values(HeadMembers(h), "gen") == [Str(h.gen)]
    ensures Values(HeadMembers(h), "branch") == [Str(h.branch)]
    ensures Values(HeadMembers(h), "attr") == [Str(h.attr)]
    ensures Values(HeadMembers(h), "timestamp") == [Str(h.timestamp)]
    ensures Values(HeadMembers(h), "closure") == []
  {
    var ms := HeadMembers(h);
    ValuesAt(ms, 0);
    ValuesAt(ms, 1);
    ValuesAt(ms, 2);
    ValuesAt(ms, 3);
    ValuesAt(ms, 4);
    ValuesAt(ms, 5);
    assert "version"[0] != "closure"[0];
    ValuesAbsent(ms, "closure");
  }

  lemma EmittedValues(h: Head, closure: seq<string>, key: string)
    ensures Values(Emitted(h, closure), key) ==
      Values(HeadMembers(h), key) + if key == "closure" then [List(Strings(closure))] else []
  {
    ValuesJoin(HeadMembers(h), Closure(closure), key);
  }

  lemma EmittedHead(h: Head, closure: seq<string>)
    ensures HeadOf(HeadMembers(h)) == HeadOf(Emitted(h, closure)) == if h.version < 0x1_0000_0000 then Some(h) else None
    ensures Once(Emitted(h, closure))
    ensures Values(Emitted(h, closure), "closure") == [List(Strings(closure))]
  {
    hide Strings, Values, HeadMembers;
    HeadValues(h);
    EmittedValues(h, closure, "closure");
    assert "closure" !in HEAD_FIELDS;
    forall key | key in HEAD_FIELDS
      ensures Values(Emitted(h, closure), key) == Values(HeadMembers(h), key)
    {
      EmittedValues(h, closure, key);
    }
    HeadOfValues(HeadMembers(h), Emitted(h, closure));
  }

  // --- where a cut mark can stand ------------------------------------------------------

  predicate Scalar(v: Value) {
    !v.List? && !v.Object?
  }

  /** Fields that may stand before `closure`: any names but that one, and no lists or objects. */
  predicate Leading(ms: seq<Member>) {
    forall k :: 0 <= k < |ms| ==> ms[k].key != "closure" && Scalar(ms[k].value)
  }

  /** The text of the first fields, opening brace included. */
  function Opening(ms: seq<Member>): string
    requires ms != []
  {
    "{" + PrintMembers(ms)
  }

  /** No cut mark begins before position `n`. */
  ghost predicate NoCutBefore(s: string, n: nat) {
    forall i: nat | i < n :: !CutAt(s, i)
  }

  lemma CutLetters(s: string, i: nat)
    requires CutAt(s, i)
    ensures i + |CUT| <= |s| && s[i] == ',' && s[i + 1] == '"' && s[i + 2] == 'c'
  {
    var w := s[i..i + |CUT|];
    assert w[0] == s[i] && w[1] == s[i + 1] && w[2] == s[i + 2];
  }

  /** A mark in the second of two texts. */
  lemma CutShift(a: string, b: string, i: nat)
    requires |a| <= i
    ensures CutAt(a + b, i) <==> CutAt(b, i - |a|)
  {
    assert i + |CUT| <= |a + b| ==> (a + b)[i..i + |CUT|] == b[i - |a|..i - |a| + |CUT|];
  }

  lemma NoCutJoin(a: string, b: string, n: nat)
    requires NoCutBefore(a + b, |a|) && NoCutBefore(b, n)
    ensures NoCutBefore(a + b, |a| + n)
  {
    hide CutAt;
    forall i: nat | i < |a| + n
      ensures !CutAt(a + b, i)
    {
      if |a| <= i {
        CutShift(a, b, i);
      }
    }
  }

  /** In escaped text every quote follows a backslash. */
  ghost predicate QuotesEscaped(s: string) {
    forall j :: 0 <= j < |s| && s[j] == '"' ==> 0 < j && s[j - 1] == '\\'
  }

  lemma EscapeCharQuotes(c: char)
    ensures QuotesEscaped(EscapeChar(c))
  {
    if c as int < 32 {
      assert HexDigit(c as int / 16) != '"' && HexDigit(c as int % 16) != '"';
    }
  }

  lemma {:induction false} EscapeQuotes(s: string)
    ensures QuotesEscaped(Escape(s))
  {
    if s != [] {
      EscapeQuotes(s[1..]);
      EscapeCharQuotes(s[0]);
      var e, rest := EscapeChar(s[0]), Escape(s[1..]);
      forall j | 0 <= j < |e + rest| && (e + rest)[j] == '"'
        ensures 0 < j && (e + rest)[j - 1] == '\\'
      {
        if j >= |e| {
          assert rest[j - |e|] == '"';
        }
      }
    }
  }

  /** A mark cannot begin inside a string: its quote would close the string, and a `c` follows. */
  lemma QuoteNoCut(v: string, rest: string)
    requires rest == "" || rest[0] != 'c'
    ensures NoCutBefore(Quote(v) + rest, |Quote(v)|)
  {
    hide CutAt;
    EscapeQuotes(v);
    var e, s := Escape(v), Quote(v) + rest;
    assert forall j :: 0 <= j < |e| ==> s[j + 1] == e[j];
    assert s[0] == '"' && s[|e| + 1] == '"';
    forall i: nat | i < |Quote(v)|
      ensures !CutAt(s, i)
    {
      if CutAt(s, i) {
        CutLetters(s, i);
      }
    }
  }

  /** Nor inside a number or a word, which hold no comma. */
  lemma PlainNoCut(v: string, rest: string)
    requires ',' !in v
    ensures NoCutBefore(v + rest, |v|)
  {
    hide CutAt;
    var s := v + rest;
    forall i: nat | i < |v|
      ensures !CutAt(s, i)
    {
      if CutAt(s, i) {
        CutLetters(s, i);
      }
    }
  }

  lemma ScalarNoCut(v: Value, rest: string)
    requires Scalar(v) && (rest == "" || rest[0] != 'c')
    ensures NoCutBefore(PrintValue(v) + rest, |PrintValue(v)|)
  {
    hide NoCutBefore, Quote, Decimal;
    match v
    case Str(text) => QuoteNoCut(text, rest);
    case Num(n) =>
      DecimalDigits(n);
      PlainNoCut(Decimal(n), rest);
    case _ => PlainNoCut(PrintValue(v), rest);
  }

  lemma MemberNoCut(m: Member, rest: string)
    requires Scalar(m.value) && (rest == "" || rest[0] != 'c')
    ensures NoCutBefore(PrintMember(m) + rest, |PrintMember(m)|)
  {
    hide NoCutBefore, Quote, PrintValue;
    var key, v := Quote(m.key), PrintValue(m.value);
    Concat(":", v, rest);
    Concat(key, ":" + v, rest);
    QuoteNoCut(m.key, ":" + (v + rest));
    PlainNoCut(":", v + rest);
    ScalarNoCut(m.value, rest);
    NoCutJoin(":", v + rest, |v|);
    NoCutJoin(key, ":" + (v + rest), 1 + |v|);
  }

  predicate Letters(s: string) {
    forall k :: 0 <= k < |s| ==> 'a' <= s[k] <= 'z'
  }

  lemma {:induction false} QuotePlain(s: string)
    requires Letters(s)
    ensures Escape(s) == s && Quote(s) == "\"" + s + "\""
  {
    if s != [] {
      QuotePlain(s[1..]);
      assert s == [s[0]] + s[1..];
    }
  }

  lemma ClosureQuoted()
    ensures CUT == "," + Quote("closure")
  {
    hide Quote, Escape;
    QuotePlain("closure");
  }

  lemma QuoteInjective(v: string, w: string)
    requires Quote(v) == Quote(w)
    ensures v == w
  {
    hide Quote, At, String;
    AtSlice(Quote(v), 0, Quote(v));
    assert Quote(v)[0..] == Quote(v);
    StringOf(Quote(v), 0, v);
    StringOf(Quote(v), 0, w);
  }

  /** Where plain letters close with a quote, escaped text that starts like them ends there too. */
  lemma EscapedStarts(e: string, word: string, rest: string)
    requires QuotesEscaped(e) && Letters(word)
    requires word + "\"" <= e + ("\"" + rest)
    ensures e == word
  {
    var s, n := e + ("\"" + rest), |word|;
    assert forall j :: 0 <= j < n ==> s[j] == (word + "\"")[j] == word[j];
    assert s[n] == (word + "\"")[n];
    assert s[|e|] == '"';
    assert n <= |e|;
    forall j | 0 <= j < n
      ensures e[j] == word[j]
    {
      assert s[j] == e[j];
    }
    assert n > 0 ==> e[n - 1] == word[n - 1];
    assert e == word;
  }

  /** A quoted text that starts as a quoted word does is that word. */
  lemma QuoteStarts(v: string, word: string, rest: string)
    requires Letters(word) && Quote(word) <= Quote(v) + rest
    ensures v == word
  {
    EscapeQuotes(v);
    QuotePlain(word);
    QuoteTail(v, rest);
    QuoteTail(word, "");
    hide Escape, Letters, QuotesEscaped;
    assert Escape(word) + "\"" <= Escape(v) + ("\"" + rest);
    EscapedStarts(Escape(v), word, rest);
    QuoteInjective(v, word);
  }

  lemma QuoteTail(v: string, rest: string)
    ensures (Quote(v) + rest)[1..] == Escape(v) + ("\"" + rest)
  {
    hide Escape;
    Concat(Escape(v), "\"", rest);
  }

  /** A mark at the comma before a field is that of a field `closure`. */
  lemma CutOpens(ms: seq<Member>, rest: string)
    requires ms != [] && CutAt("," + (PrintMembers(ms) + rest), 0)
    ensures ms[0].key == "closure"
  {
    hide PrintMembers, Quote, PrintValue, CUT;
    ClosureQuoted();
    PrintMembersCons(ms);
    var s := PrintMembers(ms) + rest;
    var t := s[|Quote(ms[0].key)|..];
    assert s == Quote(ms[0].key) + t;
    assert Quote("closure") == ("," + s)[1..|CUT|];
    QuoteStarts(ms[0].key, "closure", t);
  }

  lemma CommaNoCut(ms: seq<Member>, rest: string)
    requires ms != [] && ms[0].key != "closure"
    ensures NoCutBefore("," + (PrintMembers(ms) + rest), 1)
  {
    hide CutAt, PrintMembers;
    forall i: nat | i < 1
      ensures !CutAt("," + (PrintMembers(ms) + rest), i)
    {
      if CutAt("," + (PrintMembers(ms) + rest), 0) {
        CutOpens(ms, rest);
      }
    }
  }

  /**
   * `,"closure"` can begin neither inside the fields before `closure`, whatever
   * their names and texts, nor across their ends.
   */
  lemma {:induction false} MembersCutFree(ms: seq<Member>, rest: string)
    requires ms != [] && Leading(ms) && (rest == "" || rest[0] != 'c')
    ensures NoCutBefore(PrintMembers(ms) + rest, |PrintMembers(ms)|)
  {
    hide NoCutBefore, PrintMember;
    PrintMembersCons(ms);
    if |ms| == 1 {
      MemberNoCut(ms[0], rest);
    } else {
      var p, q := PrintMember(ms[0]), PrintMembers(ms[1..]);
      Concat(",", q, rest);
      Concat(p, "," + q, rest);
      MembersCutFree(ms[1..], rest);
      CommaNoCut(ms[1..], rest);
      NoCutJoin(",", q + rest, |q|);
      MemberNoCut(ms[0], "," + (q + rest));
      NoCutJoin(p, "," + (q + rest), 1 + |q|);
    }
  }

  lemma OpeningCutFree(ms: seq<Member>, rest: string)
    requires ms != [] && Leading(ms) && (rest == "" || rest[0] != 'c')
    ensures NoCutBefore(Opening(ms) + rest, |Opening(ms)|)
  {
    hide NoCutBefore, PrintMembers;
    MembersCutFree(ms, rest);
    Concat("{", PrintMembers(ms), rest);
    PlainNoCut("{", PrintMembers(ms) + rest);
    NoCutJoin("{", PrintMembers(ms) + rest, |PrintMembers(ms)|);
  }

  lemma {:induction false} PrintMembersJoin(ms: seq<Member>, ns: seq<Member>)
    requires ms != [] && ns != []
    ensures PrintMembers(ms + ns) == PrintMembers(ms) + ("," + PrintMembers(ns))
  {
    hide *;
    var p, after := PrintMember(ms[0]), "," + PrintMembers(ns);
    PrintMembersCons(ms);
    PrintMembersCons(ms + ns);
    if |ms| == 1 {
      assert (ms + ns)[1..] == ns;
    } else {
      PrintMembersJoin(ms[1..], ns);
      assert (ms + ns)[1..] == ms[1..] + ns;
      Concat(",", PrintMembers(ms[1..]), after);
      Concat(p, "," + PrintMembers(ms[1..]), after);
    }
  }

  /** A document is its first fields and what follows them. */
  lemma PrintedSplit(ps: seq<Member>, rest: seq<Member>)
    requires ps != []
    ensures Print(ps + rest) == Opening(ps) + ((if rest == [] then "" else "," + PrintMembers(rest)) + "}")
    ensures Opening(ps) + "}" == Print(ps)
  {
    hide PrintMembers;
    var q := PrintMembers(ps);
    var after := if rest == [] then "" else "," + PrintMembers(rest);
    if rest == [] {
      assert ps + rest == ps;
      assert q + after == q;
    } else {
      PrintMembersJoin(ps, rest);
    }
    Concat("{", q, "}");
    Concat(q, after, "}");
    Concat("{", q, after + "}");
  }

  lemma ClosureFirst(rest: seq<Member>)
    requires rest != [] && rest[0].key == "closure"
    ensures CUT <= "," + PrintMembers(rest)
  {
    hide PrintMembers, Quote, PrintValue, CUT;
    ClosureQuoted();
    PrintMembersCons(rest);
    var q := Quote("closure");
    assert q <= PrintMember(rest[0]) <= PrintMembers(rest);
  }

  lemma CutFits(s: string, i: nat)
    requires CutAt(s, i)
    ensures i + |CUT| <= |s|
  {
  }

  lemma FindCutIs(s: string, n: nat)
    requires NoCutBefore(s, n)
    ensures n <= |s| && CutAt(s, n) ==> FindCut(s, 0) == Some(n)
    ensures |s| < n + |CUT| ==> FindCut(s, 0) == None
  {
    hide CutAt, FindCut, CUT;
    var r := FindCut(s, 0);
    if r.Some? {
      CutFits(s, r.value);
    }
  }

  /** Fields that may precede `closure`, then `closure` and anything, or nothing. */
  predicate CutDocument(ps: seq<Member>, rest: seq<Member>) {
    ps != [] && Leading(ps) && (rest == [] || rest[0].key == "closure")
  }

  /** In such a document the first cut mark is the one that ends the leading fields. */
  lemma WholeCut(ps: seq<Member>, rest: seq<Member>)
    requires CutDocument(ps, rest)
    ensures
      var s, n := Print(ps + rest), |Opening(ps)|;
      && n <= |s| && s[..n] == Opening(ps) && NoCutBefore(s, n)
      && (if rest == [] then |s| < n + |CUT| else CutAt(s, n))
  {
    hide PrintMembers, NoCutBefore, CUT;
    PrintedSplit(ps, rest);
    var more := (if rest == [] then "" else "," + PrintMembers(rest)) + "}";
    OpeningCutFree(ps, more);
    CutShift(Opening(ps), more, |Opening(ps)|);
    ClosureQuoted();
    if rest != [] {
      ClosureFirst(rest);
      assert CUT <= more;
      assert CutAt(more, 0);
    } else {
      assert more == "}";
    }
  }

  /** And so it is in every prefix that holds it; a shorter one has none. */
  lemma FirstCut(ps: seq<Member>, rest: seq<Member>, k: nat)
    requires CutDocument(ps, rest) && k <= |Print(ps + rest)|
    ensures
      var n := |Opening(ps)|;
      var p := Print(ps + rest)[..k];
      && FindCut(p, 0) == (if rest != [] && n + |CUT| <= k then Some(n) else None)
      && (n <= k ==> p[..n] + "}" == Print(ps))
      && (rest != [] ==> n + |CUT| <= |Print(ps + rest)|)
  {
    hide PrintMembers, Opening, Print, FindCut;
    WholeCut(ps, rest);
    PrintedSplit(ps, rest);
    var s, n := Print(ps + rest), |Opening(ps)|;
    var p := s[..k];
    forall i: nat | i < n
      ensures !CutAt(p, i)
    {
      assert !CutAt(s, i);
      assert i + |CUT| <= k ==> p[i..i + |CUT|] == s[i..i + |CUT|];
    }
    if n <= k {
      assert p[..n] == s[..n];
    }
    if n + |CUT| <= k {
      assert p[n..n + |CUT|] == s[n..n + |CUT|];
    }
    FindCutIs(p, n);
  }

  lemma PrintedCut(ps: seq<Member>, rest: seq<Member>)
    requires CutDocument(ps, rest)
    ensures CutHead(Print(ps + rest)) == if rest == [] then None else HeadOf(ps)
  {
    hide HeadOf, Print, Document, FindCut, Opening;
    var s := Print(ps + rest);
    assert s[..|s|] == s;
    FirstCut(ps, rest, |s|);
    DocumentOf(ps);
  }

  /**
   * What the reader gets from any prefix of such a document: the leading fields'
   * header once the prefix reaches the mark, if they make one; else nothing, unless
   * it has the whole.
   */
  lemma PrintedPrefix(ps: seq<Member>, rest: seq<Member>, k: nat, timeOk: string -> bool)
    requires CutDocument(ps, rest) && k <= |Print(ps + rest)|
    ensures
      FromPrefix(Print(ps + rest)[..k], timeOk) ==
      if rest != [] && |Opening(ps)| + |CUT| <= k && HeadOf(ps).Some? then Valid(HeadOf(ps), timeOk)
      else if k == |Print(ps + rest)| then Valid(HeadOf(ps + rest), timeOk)
      else None
  {
    hide HeadOf, Print, Document, FindCut, Opening, Valid;
    var s := Print(ps + rest);
    FirstCut(ps, rest, k);
    DocumentOf(ps);
    DocumentOf(ps + rest);
    if k < |s| {
      ShortPrefix(ps + rest, k);
    } else {
      assert s[..k] == s;
    }
    assert Valid(None, timeOk) == None by {
      NoneValid(timeOk);
    }
  }

  lemma NoneValid(timeOk: string -> bool)
    ensures Valid(None, timeOk) == None
  {
  }

  /**
   * On such a document the reader and the full parse differ exactly when some
   * header field repeats in it and the fields before `closure` make an acceptable
   * header by themselves.
   */
  lemma PrintedExactIff(ps: seq<Member>, rest: seq<Member>, timeOk: string -> bool)
    requires CutDocument(ps, rest)
    ensures
      FromPrefix(Print(ps + rest), timeOk) == Valid(HeadOf(ps + rest), timeOk) <==>
      Once(ps + rest) || Valid(HeadOf(ps), timeOk) == None
  {
    hide HeadOf, Print, Once, CutHead;
    DocumentOf(ps + rest);
    WholeExactIff(Print(ps + rest), ps + rest, timeOk);
    PrintedCut(ps, rest);
    if rest == [] {
      assert ps + rest == ps;
      if Valid(HeadOf(ps), timeOk).Some? {
        HeadOnce(ps);
      }
    }
  }

  lemma HeadLeads(h: Head)
    ensures HeadMembers(h) != [] && Leading(HeadMembers(h))
  {
    assert "version"[0] != "closure"[0];
  }

  /** The text of an emitted header, opening brace included. */
  function HeadText(h: Head): string {
    Opening(HeadMembers(h))
  }

  /**
   * From any prefix that reaches the closure the reader gets the same header as
   * from the whole manifest; from any shorter one it gets nothing.
   */
  lemma PrefixAgrees(h: Head, closure: seq<string>, k: nat, timeOk: string -> bool)
    requires k <= |Print(Emitted(h, closure))|
    ensures
      FromPrefix(Print(Emitted(h, closure))[..k], timeOk) ==
      if |HeadText(h)| + |CUT| <= k then Valid(HeadOf(Emitted(h, closure)), timeOk) else None
  {
    hide HeadOf, HeadMembers, Print, Opening, Once;
    EmittedHead(h, closure);
    HeadLeads(h);
    PrintedPrefix(HeadMembers(h), Closure(closure), k, timeOk);
    FirstCut(HeadMembers(h), Closure(closure), k);
    NoneValid(timeOk);
  }

  /** A printed object ends where its text ends, so no shorter prefix of it is a document. */
  lemma ShortPrefix(ms: seq<Member>, k: nat)
    requires k < |Print(ms)|
    ensures Document(Print(ms)[..k]) == None
  {
    hide Print;
    DocumentOf(ms);
    if Document(Print(ms)[..k]).Some? {
      PrefixDocument(Print(ms), k);
    }
  }

  // --- `ls` against the sweep --------------------------------------------------------

  const HEAD_BYTES: nat := 1024

  /** What `ls` shows for an object: its first bytes, and the whole only when those are not enough. */
  function ListedHead(body: string, timeOk: string -> bool): Option<Head> {
    if |body| < HEAD_BYTES then FromPrefix(body, timeOk)
    else
      match FromPrefix(body[..HEAD_BYTES], timeOk)
      case Some(h) => Some(h)
      case None => FromPrefix(body, timeOk)
  }

  /** The texts of a list that holds nothing else. */
  function Texts(items: seq<Value>): Option<seq<string>> {
    if items == [] then Some([])
    else
      match Texts(items[1..])
      case Some(rest) => if items[0].Str? then Some([items[0].text] + rest) else None
      case None => None
  }

  function ClosureOf(ms: seq<Member>): Option<seq<string>> {
    var vs := Values(ms, "closure");
    if |vs| == 1 && vs[0].List? then Texts(vs[0].items) else None
  }

  lemma {:induction false} TextsOfStrings(texts: seq<string>)
    ensures Texts(Strings(texts)) == Some(texts)
  {
    if texts != [] {
      TextsOfStrings(texts[1..]);
      assert Strings(texts)[1..] == Strings(texts[1..]);
      assert texts == [texts[0]] + texts[1..];
    }
  }

  /** The manifest as the sweep reads it: header, closure, and both checked. */
  function ParseManifest(body: string, timeOk: string -> bool): Option<(Head, seq<string>)> {
    match Document(body)
    case None => None
    case Some(ms) =>
      match (Valid(HeadOf(ms), timeOk), ClosureOf(ms))
      case (Some(h), Some(closure)) => if ClosureOk(closure) then Some((h, closure)) else None
      case _ => None
  }

  /** What `emit` writes the sweep reads back. */
  lemma ManifestRoundTrip(h: Head, closure: seq<string>, timeOk: string -> bool)
    requires h.version == 3 && Filled(h) && timeOk(h.timestamp) && ClosureOk(closure)
    ensures ParseManifest(Print(Emitted(h, closure)), timeOk) == Some((h, closure))
  {
    DocumentOf(Emitted(h, closure));
    EmittedHead(h, closure);
    TextsOfStrings(closure);
  }

  predicate ClosureOk(closure: seq<string>) {
    closure != [] && forall k :: 0 <= k < |closure| ==> Keys.STORE_DIR <= closure[k]
  }

  // --- the manifest, field by field ---------------------------------------------------

  /** The member under this name, and the only one. */
  ghost predicate OnlyOne(ms: seq<Member>, key: string, v: Value) {
    exists i :: 0 <= i < |ms| && ms[i] == Member(key, v) && forall j :: 0 <= j < |ms| && ms[j].key == key ==> j == i
  }

  /** What an accepted header says, and what an accepted manifest says besides. */
  ghost predicate SaysHead(ms: seq<Member>, h: Head) {
    && OnlyOne(ms, "version", Num(h.version))
    && OnlyOne(ms, "flake", Str(h.flake))
    && OnlyOne(ms, "gen", Str(h.gen))
    && OnlyOne(ms, "branch", Str(h.branch))
    && OnlyOne(ms, "attr", Str(h.attr))
    && OnlyOne(ms, "timestamp", Str(h.timestamp))
  }

  ghost predicate HeadGood(h: Head, timeOk: string -> bool) {
    h.version == 3 && |h.flake| > 0 && |h.gen| > 0 && |h.branch| > 0 && |h.attr| > 0 && timeOk(h.timestamp)
  }

  ghost predicate SaysClosure(ms: seq<Member>, closure: seq<string>) {
    exists items :: OnlyOne(ms, "closure", List(items)) && |items| == |closure|
      && forall k :: 0 <= k < |items| ==> items[k] == Str(closure[k])
  }

  ghost predicate ClosureGood(closure: seq<string>) {
    |closure| > 0 && forall path :: path in closure ==> "/nix/store" <= path
  }

  lemma {:induction false} OnlyValue(ms: seq<Member>, key: string, v: Value)
    ensures Values(ms, key) == [v] <==> OnlyOne(ms, key, v)
    ensures Values(ms, key) == [] <==> forall j :: 0 <= j < |ms| ==> ms[j].key != key
  {
    if ms != [] {
      OnlyValue(ms[1..], key, v);
      hide Values;
      ValuesCons(ms, key);
      OnlyOneCons(ms, key, v);
      OneThenNone(ms[0].value, Values(ms[1..], key), v);
      hide OnlyOne;
      assert forall j :: 1 <= j < |ms| ==> ms[j] == ms[1..][j - 1];
    }
  }

  lemma OneThenNone(first: Value, rest: seq<Value>, v: Value)
    ensures [first] + rest == [v] <==> first == v && rest == []
    ensures [] + rest == rest
  {
    if [first] + rest == [v] {
      assert |[first] + rest| == 1 && ([first] + rest)[0] == first;
    }
  }

  lemma OnlyOneCons(ms: seq<Member>, key: string, v: Value)
    requires ms != []
    ensures OnlyOne(ms, key, v) <==>
      if ms[0].key == key then ms[0].value == v && forall j :: 0 <= j < |ms[1..]| ==> ms[1..][j].key != key
      else OnlyOne(ms[1..], key, v)
  {
    assert forall j :: 1 <= j < |ms| ==> ms[j] == ms[1..][j - 1];
  }

  lemma {:induction false} TextsSpelled(items: seq<Value>, texts: seq<string>)
    ensures Texts(items) == Some(texts) <==>
      |items| == |texts| && forall k :: 0 <= k < |items| ==> items[k] == Str(texts[k])
  {
    if items != [] && texts != [] {
      TextsSpelled(items[1..], texts[1..]);
      assert texts == [texts[0]] + texts[1..];
      assert forall k :: 1 <= k < |items| ==> items[k] == items[1..][k - 1];
      assert forall k :: 1 <= k < |texts| ==> texts[k] == texts[1..][k - 1];
    }
  }

  lemma OnlyText(ms: seq<Member>, key: string, text: string)
    ensures Text(ms, key) == Some(text) <==> OnlyOne(ms, key, Str(text))
  {
    hide OnlyOne, Values;
    OnlyValue(ms, key, Str(text));
  }

  lemma HeadSpelled(ms: seq<Member>, h: Head)
    ensures HeadOf(ms) == Some(h) <==> h.version <= 4294967295 && SaysHead(ms, h)
  {
    hide OnlyOne, Values, Text;
    OnlyValue(ms, "version", Num(h.version));
    OnlyText(ms, "flake", h.flake);
    OnlyText(ms, "gen", h.gen);
    OnlyText(ms, "branch", h.branch);
    OnlyText(ms, "attr", h.attr);
    OnlyText(ms, "timestamp", h.timestamp);
  }

  /** The shortcut's answer, where no header field repeats, is the header the document says, if it is good. */
  lemma ListedSpelled(s: string, ms: seq<Member>, h: Head, timeOk: string -> bool)
    requires Document(s) == Some(ms) && Once(ms)
    ensures ListedHead(s, timeOk) == Some(h) <==> SaysHead(ms, h) && HeadGood(h, timeOk)
  {
    hide ListedHead, HeadOf, Once, SaysHead;
    ListedHeadExact(s, ms, timeOk);
    HeadSpelled(ms, h);
  }

  /** The sweep takes a text for this manifest exactly when its document says so and all of it is good. */
  lemma ManifestSpelled(s: string, h: Head, closure: seq<string>, timeOk: string -> bool)
    ensures ParseManifest(s, timeOk) == Some((h, closure)) <==>
      Document(s).Some? && SaysHead(Document(s).value, h) && HeadGood(h, timeOk)
      && SaysClosure(Document(s).value, closure) && ClosureGood(closure)
  {
    hide HeadOf, SaysHead, SaysClosure, ClosureGood, ClosureOk, ClosureOf, Document;
    if Document(s).Some? {
      var ms := Document(s).value;
      HeadSpelled(ms, h);
      ClosureSpelled(ms, closure);
      ClosureGoodIff(closure);
    }
  }

  lemma ClosureSpelled(ms: seq<Member>, closure: seq<string>)
    ensures ClosureOf(ms) == Some(closure) <==> SaysClosure(ms, closure)
  {
    hide OnlyOne, Values, Texts;
    forall items
      ensures Values(ms, "closure") == [List(items)] <==> OnlyOne(ms, "closure", List(items))
      ensures Texts(items) == Some(closure) <==>
        |items| == |closure| && forall k :: 0 <= k < |items| ==> items[k] == Str(closure[k])
    {
      OnlyValue(ms, "closure", List(items));
      TextsSpelled(items, closure);
    }
  }

  lemma ClosureGoodIff(closure: seq<string>)
    ensures ClosureOk(closure) <==> ClosureGood(closure)
  {
    if ClosureGood(closure) {
      assert forall k :: 0 <= k < |closure| ==> closure[k] in closure;
    }
  }

  /**
   * Reading ahead saves the full read and never changes the answer, in whatever
   * order the fields stand and whichever repeat; where no header field does, the
   * answer is that of the full parse.
   */
  lemma ListedHeadExact(s: string, ms: seq<Member>, timeOk: string -> bool)
    requires Document(s) == Some(ms)
    ensures ListedHead(s, timeOk) == FromPrefix(s, timeOk)
    ensures Once(ms) ==> ListedHead(s, timeOk) == Valid(HeadOf(ms), timeOk)
  {
    hide FromPrefix, HeadOf, Once, Document;
    PrefixSound(s, ms, |s|, timeOk);
    assert s[..|s|] == s;
    if HEAD_BYTES <= |s| {
      PrefixSound(s, ms, HEAD_BYTES, timeOk);
    }
  }

  /**
   * `ls` shows a verdict for every manifest the sweep accepts, with the same
   * header, and among documents beyond these for exactly those whose only faults
   * are the closure or a header field that repeats.
   */
  lemma ListedUnlessClosure(s: string, ms: seq<Member>, timeOk: string -> bool)
    requires Document(s) == Some(ms)
    ensures
      var listed := ListedHead(s, timeOk);
      var swept := ParseManifest(s, timeOk);
      var closure := ClosureOf(ms);
      && (swept.Some? ==> listed == Some(swept.value.0))
      && (swept.Some? <==> listed.Some? && Once(ms) && closure.Some? && ClosureOk(closure.value))
  {
    hide ListedHead, HeadOf, Once, Document, ClosureOf, ClosureOk;
    ListedHeadExact(s, ms, timeOk);
    if HeadOf(ms).Some? {
      HeadOnce(ms);
    }
  }
}
