/** Narinfo text: reading it, and the string its signatures cover. */
module NarInfo {
  import opened Wrappers
  import Json
  import Keys

  /** The fields kasha needs from a narinfo. */
  datatype Info = Info(
    storePath: string, url: string, narHash: string, narSize: nat,
    references: seq<string>, sigs: seq<string>, ca: Option<string>)

  // --- lines -------------------------------------------------------------------

  /** Split at the first colon that a blank follows. */
  function SplitLine(line: string): (r: Option<(string, string)>)
    ensures r.Some? ==> line == r.value.0 + ": " + r.value.1
  {
    if |line| < 2 then None
    else if line[..2] == ": " then Some(("", line[2..]))
    else
      match SplitLine(line[1..])
      case None => None
      case Some((k, v)) =>
        assert line == [line[0]] + (k + ": " + v);
        Some(([line[0]] + k, v))
  }

  predicate Blank(c: char) {
    || '\t' <= c <= '\r' || c == ' ' || c == '\U{85}' || c == '\U{A0}' || c == '\U{1680}'
    || '\U{2000}' <= c <= '\U{200A}' || c == '\U{2028}' || c == '\U{2029}'
    || c == '\U{202F}' || c == '\U{205F}' || c == '\U{3000}'
  }

  predicate AllBlank(s: string) {
    forall k :: 0 <= k < |s| ==> Blank(s[k])
  }

  /** The words between blanks. */
  function Words(s: string): seq<string> {
    WordsFrom(s, "")
  }

  function WordsFrom(s: string, word: string): seq<string> {
    if s == "" then (if word == "" then [] else [word])
    else if Blank(s[0]) then (if word == "" then [] else [word]) + WordsFrom(s[1..], "")
    else WordsFrom(s[1..], word + [s[0]])
  }

  /** An unsigned 64-bit number: digits behind an optional plus sign. */
  function ParseSize(s: string): Option<nat> {
    var digits := if s != "" && s[0] == '+' then s[1..] else s;
    var (n, end) := Json.Digits(digits, 0, 0);
    if digits != "" && end == |digits| && n < 0x1_0000_0000_0000_0000 then Some(n) else None
  }

  /** A line the reader cannot use: neither a field nor blank, or a size that is no number. */
  predicate Malformed(line: string) {
    match SplitLine(line)
    case None => !AllBlank(line)
    case Some((k, v)) => k == "NarSize" && ParseSize(v) == None
  }

  function ValueIn(line: string, key: string): seq<string> {
    match SplitLine(line)
    case Some((k, v)) => if k == key then [v] else []
    case None => []
  }

  /** The values of a field, in order. */
  function Fields(lines: seq<string>, key: string): seq<string> {
    if lines == [] then []
    else Fields(lines[..|lines| - 1], key) + ValueIn(lines[|lines| - 1], key)
  }

  function Last(values: seq<string>): Option<string> {
    if values == [] then None else Some(values[|values| - 1])
  }

  /** What has been read of each field: of a repeated one the last line counts, signatures add up. */
  datatype Draft = Draft(
    storePath: Option<string>, url: Option<string>, narHash: Option<string>, narSize: Option<nat>,
    references: seq<string>, sigs: seq<string>, ca: Option<string>)

  function Gathered(lines: seq<string>): Draft {
    Draft(Last(Fields(lines, "StorePath")), Last(Fields(lines, "URL")), Last(Fields(lines, "NarHash")),
          match Last(Fields(lines, "NarSize")) case Some(v) => ParseSize(v) case None => None,
          match Last(Fields(lines, "References")) case Some(v) => Words(v) case None => [],
          Fields(lines, "Sig"), Last(Fields(lines, "CA")))
  }

  predicate Broken(lines: seq<string>) {
    exists k :: 0 <= k < |lines| && Malformed(lines[k])
  }

  /** What a narinfo says. */
  function Meaning(lines: seq<string>): Result<Info> {
    if Broken(lines) then Err
    else
      var d := Gathered(lines);
      match (d.storePath, d.url, d.narHash, d.narSize)
      case (Some(path), Some(url), Some(hash), Some(size)) =>
        if Keys.STORE_DIR <= path then Ok(Info(path, url, hash, size, d.references, d.sigs, d.ca)) else Err
      case _ => Err
  }

  function Noted(d: Draft, line: string): Draft {
    match SplitLine(line)
    case None => d
    case Some((k, v)) =>
      if k == "StorePath" then d.(storePath := Some(v))
      else if k == "URL" then d.(url := Some(v))
      else if k == "NarHash" then d.(narHash := Some(v))
      else if k == "NarSize" then d.(narSize := ParseSize(v))
      else if k == "References" then d.(references := Words(v))
      else if k == "Sig" then d.(sigs := d.sigs + [v])
      else if k == "CA" then d.(ca := Some(v))
      else d
  }

  lemma FieldsMore(lines: seq<string>, line: string, key: string)
    ensures Fields(lines + [line], key) == Fields(lines, key) + ValueIn(line, key)
  {
    assert (lines + [line])[..|lines|] == lines;
  }

  lemma LastMore(lines: seq<string>, line: string, key: string)
    ensures Last(Fields(lines + [line], key)) ==
      match SplitLine(line)
      case Some((k, v)) => if k == key then Some(v) else Last(Fields(lines, key))
      case None => Last(Fields(lines, key))
  {
    hide Fields, SplitLine;
    FieldsMore(lines, line, key);
  }

  lemma GatheredMore(lines: seq<string>, line: string)
    ensures Gathered(lines + [line]) == Noted(Gathered(lines), line)
  {
    hide Fields, Last, ParseSize, Words, SplitLine;
    FieldsMore(lines, line, "Sig");
    LastMore(lines, line, "StorePath");
    LastMore(lines, line, "URL");
    LastMore(lines, line, "NarHash");
    LastMore(lines, line, "NarSize");
    LastMore(lines, line, "References");
    LastMore(lines, line, "CA");
  }

  lemma BrokenMore(lines: seq<string>, line: string)
    ensures Broken(lines + [line]) <==> Broken(lines) || Malformed(line)
  {
    hide Malformed;
    var more := lines + [line];
    assert more[|lines|] == line;
    assert forall k :: 0 <= k < |lines| ==> more[k] == lines[k];
  }

  /** One pass over the lines, overwriting as it goes, against what the text means. */
  method Parse(lines: seq<string>) returns (r: Result<Info>)
    ensures r == Meaning(lines)
    ensures r.Ok? ==> Says(lines, r.value) && PlainNames(r.value.references)
    ensures r.Err? ==> forall n :: !Says(lines, n)
  {
    MeaningIsSaid(lines);
    hide Gathered, Words, ParseSize, SplitLine, Says, PlainNames;
    var storePath: Option<string>, url: Option<string>, narHash: Option<string> := None, None, None;
    var narSize: Option<nat>, references: seq<string>, sigs: seq<string>, ca: Option<string> := None, [], [], None;
    NothingGathered();
    for i := 0 to |lines|
      invariant !Broken(lines[..i])
      invariant Draft(storePath, url, narHash, narSize, references, sigs, ca) == Gathered(lines[..i])
    {
      var line := lines[i];
      GatheredMore(lines[..i], line);
      BrokenMore(lines[..i], line);
      assert lines[..i + 1] == lines[..i] + [line];
      match SplitLine(line) {
        case None =>
          if !AllBlank(line) {
            return Err;
          }
        case Some((k, v)) =>
          match k {
            case "StorePath" => storePath := Some(v);
            case "URL" => url := Some(v);
            case "NarHash" => narHash := Some(v);
            case "NarSize" =>
              narSize := ParseSize(v);
              if narSize.None? {
                return Err;
              }
            case "References" => references := Words(v);
            case "Sig" => sigs := sigs + [v];
            case "CA" => ca := Some(v);
            case _ =>
          }
      }
    }
    assert lines[..|lines|] == lines;
    if storePath.None? || !(Keys.STORE_DIR <= storePath.value) || url.None? || narHash.None? || narSize.None? {
      return Err;
    }
    return Ok(Info(storePath.value, url.value, narHash.value, narSize.value, references, sigs, ca));
  }

  lemma NothingGathered()
    ensures Gathered([]) == Draft(None, None, None, None, [], [], None)
  {
  }

  lemma {:induction false} SplitLineAt(key: string, value: string)
    requires ':' !in key
    ensures SplitLine(key + ": " + value) == Some((key, value))
  {
    var line := key + ": " + value;
    if key == "" {
      assert line[..2] == ": " && line[2..] == value;
    } else {
      SplitLineAt(key[1..], value);
      assert line[1..] == key[1..] + ": " + value;
      assert line[..2][0] == key[0];
      assert key == [key[0]] + key[1..];
    }
  }

  /** Signing a narinfo once more adds the signature and changes nothing else. */
  lemma SignatureAdded(lines: seq<string>, sig: string)
    ensures
      match Meaning(lines)
      case Ok(n) => Meaning(lines + ["Sig: " + sig]) == Ok(n.(sigs := n.sigs + [sig]))
      case Err => Meaning(lines + ["Sig: " + sig]) == Err
  {
    hide Gathered, Broken, SplitLine;
    SplitLineAt("Sig", sig);
    assert "Sig: " + sig == "Sig" + ": " + sig;
    GatheredMore(lines, "Sig: " + sig);
    BrokenMore(lines, "Sig: " + sig);
  }

  // --- lines and words, character by character -----------------------------------

  /** The characters of Unicode's White_Space property, and no other. */
  lemma BlankSpelled(c: char)
    ensures Blank(c) <==>
      c as int in {0x9, 0xA, 0xB, 0xC, 0xD, 0x20, 0x85, 0xA0, 0x1680, 0x2028, 0x2029, 0x202F, 0x205F, 0x3000}
      || 0x2000 <= c as int <= 0x200A
  {
  }

  /** A line is split at the first colon that a space follows; without one it is not split. */
  lemma {:induction false} SplitSpelled(line: string)
    ensures SplitLine(line) == None <==> forall i, j :: 0 <= i && j == i + 1 && j < |line| ==>
      !(line[i] == ':' && line[j] == ' ')
    ensures SplitLine(line).Some? ==>
      var (k, v) := SplitLine(line).value;
      && line == k + ": " + v
      && forall i, j :: 0 <= i < |k| && j == i + 1 ==> !(line[i] == ':' && line[j] == ' ')
  {
    if |line| >= 2 {
      assert line[..2] == [line[0]] + [line[1]];
      if line[..2] != ": " {
        var rest := line[1..];
        SplitSpelled(rest);
        assert forall i :: 0 <= i < |rest| ==> rest[i] == line[i + 1];
        if SplitLine(line).Some? {
          var (k, v) := SplitLine(rest).value;
          forall i, j | 0 <= i < |[line[0]] + k| && j == i + 1
            ensures !(line[i] == ':' && line[j] == ' ')
          {
            if i > 0 {
              assert rest[i - 1] == line[i] && rest[j - 1] == line[j];
            }
          }
        } else {
          forall i, j | 0 <= i && j == i + 1 && j < |line|
            ensures !(line[i] == ':' && line[j] == ' ')
          {
            if i > 0 {
              assert rest[i - 1] == line[i] && rest[j - 1] == line[j];
            }
          }
        }
      }
    }
  }

  predicate BlankFree(s: string) {
    forall k :: 0 <= k < |s| ==> !Blank(s[k])
  }

  /** Words with blanks around them: between two words there is at least one. */
  ghost predicate WellSpaced(words: seq<string>, gaps: seq<string>) {
    && |gaps| == |words| + 1
    && (forall k :: 0 <= k < |gaps| ==> AllBlank(gaps[k]))
    && (forall k :: 0 < k < |words| ==> gaps[k] != "")
    && (forall k :: 0 <= k < |words| ==> words[k] != "" && BlankFree(words[k]))
  }

  function Spread(words: seq<string>, gaps: seq<string>): string
    requires |gaps| == |words| + 1
  {
    if words == [] then gaps[0] else gaps[0] + (words[0] + Spread(words[1..], gaps[1..]))
  }

  lemma {:induction false} OverWord(w: string, rest: string, word: string)
    requires BlankFree(w)
    ensures WordsFrom(w + rest, word) == WordsFrom(rest, word + w)
  {
    if w == "" {
      assert w + rest == rest && word + w == word;
    } else {
      OverWord(w[1..], rest, word + [w[0]]);
      assert (w + rest)[1..] == w[1..] + rest;
      assert word + [w[0]] + w[1..] == word + w;
    }
  }

  lemma {:induction false} OverGap(g: string, rest: string, word: string)
    requires AllBlank(g)
    ensures word == "" ==> WordsFrom(g + rest, word) == WordsFrom(rest, "")
    ensures g != "" && word != "" ==> WordsFrom(g + rest, word) == [word] + WordsFrom(rest, "")
  {
    if g == "" {
      assert g + rest == rest;
    } else {
      OverGap(g[1..], rest, "");
      assert (g + rest)[1..] == g[1..] + rest;
      assert (g + rest)[0] == g[0];
    }
  }

  /** Whatever blanks stand between and around them, the words are read back. */
  lemma {:induction false} WordsOfSpread(words: seq<string>, gaps: seq<string>)
    requires WellSpaced(words, gaps)
    ensures Words(Spread(words, gaps)) == words
  {
    if words == [] {
      OverGap(gaps[0], "", "");
      assert gaps[0] + "" == gaps[0];
    } else {
      var rest := Spread(words[1..], gaps[1..]);
      OverGap(gaps[0], words[0] + rest, "");
      OverWord(words[0], rest, "");
      assert "" + words[0] == words[0];
      hide BlankFree, AllBlank;
      assert WellSpaced(words[1..], gaps[1..]);
      WordsOfSpread(words[1..], gaps[1..]);
      WordEnds(words, gaps);
      assert words == [words[0]] + words[1..];
    }
  }

  /** A word ends at the blank behind it, or with the text. */
  lemma WordEnds(words: seq<string>, gaps: seq<string>)
    requires WellSpaced(words, gaps) && words != []
    ensures
      var rest := Spread(words[1..], gaps[1..]);
      WordsFrom(rest, words[0]) == [words[0]] + WordsFrom(rest, "")
  {
    hide BlankFree, Blank;
    if |words| == 1 {
      LastGap(gaps[1], words[0]);
    } else {
      OverGap(gaps[1], words[1] + Spread(words[2..], gaps[2..]), words[0]);
      OverGap(gaps[1], words[1] + Spread(words[2..], gaps[2..]), "");
      assert words[1..][1..] == words[2..] && gaps[1..][1..] == gaps[2..];
    }
  }

  lemma LastGap(g: string, word: string)
    requires AllBlank(g) && word != ""
    ensures WordsFrom(g, word) == [word] + WordsFrom(g, "")
  {
    assert g + "" == g;
    OverGap(g, "", word);
    OverGap(g, "", "");
  }

  /** And every text is its words with blanks around them. */
  lemma {:induction false} TextIsSpread(s: string, word: string) returns (gaps: seq<string>)
    requires BlankFree(word)
    ensures |gaps| == |WordsFrom(s, word)| + 1 && WellSpaced(WordsFrom(s, word), gaps)
    ensures Spread(WordsFrom(s, word), gaps) == word + s
    ensures word != "" ==> gaps[0] == ""
    decreases |s|
  {
    hide BlankFree, AllBlank, Blank, Spread, WellSpaced;
    if s == "" {
      gaps := NothingLeft(word);
      assert word + s == word;
    } else if Blank(s[0]) {
      NoGap();
      var tail := TextIsSpread(s[1..], "");
      var words := WordsFrom(s[1..], "");
      assert "" + s[1..] == s[1..] && s == [s[0]] + s[1..];
      gaps := GapBefore(words, tail, s[0], s[1..]);
      if word != "" {
        gaps := WordBefore(words, gaps, word, s);
      } else {
        assert [] + words == words && word + s == s;
      }
    } else {
      FreeMore(word, s[0]);
      gaps := TextIsSpread(s[1..], word + [s[0]]);
      assert word + [s[0]] + s[1..] == word + s;
    }
  }

  lemma FreeMore(word: string, c: char)
    requires BlankFree(word) && !Blank(c)
    ensures BlankFree(word + [c])
  {
  }

  lemma NothingLeft(word: string) returns (gaps: seq<string>)
    requires BlankFree(word)
    ensures |gaps| == |WordsFrom("", word)| + 1 && WellSpaced(WordsFrom("", word), gaps)
    ensures Spread(WordsFrom("", word), gaps) == word
    ensures word != "" ==> gaps[0] == ""
  {
    NoGap();
    if word == "" {
      gaps := [""];
    } else {
      gaps := ["", ""];
      assert [word][1..] == [] && gaps[1..] == [""];
      assert word + "" == word;
    }
  }

  lemma GapBefore(words: seq<string>, tail: seq<string>, c: char, s: string) returns (gaps: seq<string>)
    requires |tail| == |words| + 1 && WellSpaced(words, tail) && Spread(words, tail) == s && Blank(c)
    ensures |gaps| == |words| + 1 && WellSpaced(words, gaps) && Spread(words, gaps) == [c] + s && gaps[0] != ""
  {
    gaps := [[c] + tail[0]] + tail[1..];
    assert gaps[1..] == tail[1..];
  }

  lemma WordBefore(words: seq<string>, tail: seq<string>, word: string, s: string) returns (gaps: seq<string>)
    requires |tail| == |words| + 1 && WellSpaced(words, tail) && Spread(words, tail) == s && tail[0] != ""
    requires word != "" && BlankFree(word)
    ensures |gaps| == |words| + 2 && WellSpaced([word] + words, gaps)
    ensures Spread([word] + words, gaps) == word + s && gaps[0] == ""
  {
    hide BlankFree, AllBlank;
    NoGap();
    gaps := [""] + tail;
    assert gaps[1..] == tail && ([word] + words)[1..] == words;
  }

  lemma NoGap()
    ensures AllBlank("") && BlankFree("")
  {
  }

  /** The words of a text are exactly those it is made of by putting blanks around and between them. */
  lemma WordsIff(s: string, words: seq<string>)
    ensures Words(s) == words <==> exists gaps :: WellSpaced(words, gaps) && Spread(words, gaps) == s
  {
    hide WordsFrom, BlankFree, AllBlank;
    if gaps :| WellSpaced(words, gaps) && Spread(words, gaps) == s {
      WordsOfSpread(words, gaps);
    }
    if Words(s) == words {
      NoGap();
      var gaps := TextIsSpread(s, "");
      assert "" + s == s;
    }
  }

  // --- what is read, line by line ----------------------------------------------------

  /** Of the lines that begin so, the last one goes on with `v`. */
  ghost predicate Said(lines: seq<string>, start: string, v: string) {
    exists i :: 0 <= i < |lines| && lines[i] == start + v && NoneAfter(lines, i, start)
  }

  predicate NoneAfter(lines: seq<string>, i: nat, start: string) {
    forall j :: i < j < |lines| ==> !(start <= lines[j])
  }

  /** No line begins so. */
  predicate Unsaid(lines: seq<string>, start: string) {
    forall i :: 0 <= i < |lines| ==> !(start <= lines[i])
  }

  /** What the `Sig` lines go on with, in order. */
  function SigTexts(lines: seq<string>): seq<string> {
    if lines == [] then []
    else (if "Sig: " <= lines[0] then [lines[0][5..]] else []) + SigTexts(lines[1..])
  }

  predicate Numeral(s: string) {
    s != "" && forall k :: 0 <= k < |s| ==> 48 <= s[k] as int <= 57
  }

  /** Digits, a plus sign before them or not, for a number of 64 bits. */
  predicate SizeText(s: string, n: nat) {
    var digits := if "+" <= s then s[1..] else s;
    Numeral(digits) && n == Json.Numeric(digits) && n <= 18446744073709551615
  }

  /** No colon with a space behind it, and more than white space; or a size that is no number. */
  ghost predicate BadLine(line: string) {
    || (!Keys.Contains(line, ": ") && !AllBlank(line))
    || ("NarSize: " <= line && forall n: nat :: !SizeText(line[9..], n))
  }

  ghost predicate SaysSize(lines: seq<string>, n: nat) {
    exists text :: Said(lines, "NarSize: ", text) && SizeText(text, n)
  }

  ghost predicate SaysReferences(lines: seq<string>, references: seq<string>) {
    || (references == [] && Unsaid(lines, "References: "))
    || (exists text :: Said(lines, "References: ", text) && MadeOf(text, references))
  }

  /** The text is these words with blanks around them and between any two. */
  ghost predicate MadeOf(text: string, words: seq<string>) {
    exists gaps :: WellSpaced(words, gaps) && Spread(words, gaps) == text
  }

  ghost predicate SaysAddress(lines: seq<string>, ca: Option<string>) {
    match ca
    case Some(text) => Said(lines, "CA: ", text)
    case None => Unsaid(lines, "CA: ")
  }

  /** The lines of a narinfo, in any order and among any others, that say all this. */
  ghost predicate Says(lines: seq<string>, n: Info) {
    && (forall k :: 0 <= k < |lines| ==> !BadLine(lines[k]))
    && "/nix/store" <= n.storePath
    && Said(lines, "StorePath: ", n.storePath)
    && Said(lines, "URL: ", n.url)
    && Said(lines, "NarHash: ", n.narHash)
    && SaysSize(lines, n.narSize)
    && SaysReferences(lines, n.references)
    && n.sigs == SigTexts(lines)
    && SaysAddress(lines, n.ca)
  }

  lemma StartsWith(start: string, line: string)
    requires start <= line
    ensures line == start + line[|start|..]
  {
  }

  /** A line has a field's value when it begins with its name, a colon and a space. */
  lemma ValueSpelled(line: string, key: string)
    requires ':' !in key
    ensures ValueIn(line, key) == if key + ": " <= line then [line[|key| + 2..]] else []
  {
    hide SplitLine;
    if key + ": " <= line {
      SplitLineAt(key, line[|key| + 2..]);
      StartsWith(key + ": ", line);
    }
  }

  lemma SaidMore(lines: seq<string>, line: string, start: string, v: string)
    ensures Said(lines + [line], start, v) <==>
      if start <= line then line == start + v else Said(lines, start, v)
    ensures Unsaid(lines + [line], start) <==> !(start <= line) && Unsaid(lines, start)
  {
    var more := lines + [line];
    assert more[|lines|] == line && NoneAfter(more, |lines|, start);
    assert forall i :: 0 <= i < |lines| ==> more[i] == lines[i];
    forall i: nat | i < |lines|
      ensures NoneAfter(more, i, start) <==> !(start <= line) && NoneAfter(lines, i, start)
    {
    }
    if !(start <= line) && Said(lines, start, v) {
      var i: nat :| i < |lines| && lines[i] == start + v && NoneAfter(lines, i, start);
      assert more[i] == start + v;
    }
  }

  lemma {:induction false} LastSpelled(lines: seq<string>, key: string, v: string)
    requires ':' !in key
    ensures Last(Fields(lines, key)) == Some(v) <==> Said(lines, key + ": ", v)
    ensures Last(Fields(lines, key)) == None <==> Unsaid(lines, key + ": ")
  {
    hide Said, Unsaid, ValueIn;
    if lines == [] {
      SaidNothing(key + ": ", v);
    } else {
      var front, line := lines[..|lines| - 1], lines[|lines| - 1];
      assert lines == front + [line];
      LastSpelled(front, key, v);
      ValueSpelled(line, key);
      SaidMore(front, line, key + ": ", v);
      if key + ": " <= line {
        StartsWith(key + ": ", line);
      }
    }
  }

  lemma SaidNothing(start: string, v: string)
    ensures !Said([], start, v) && Unsaid([], start)
  {
  }

  lemma {:induction false} SigTextsMore(lines: seq<string>, line: string)
    ensures SigTexts(lines + [line]) == SigTexts(lines) + if "Sig: " <= line then [line[5..]] else []
  {
    if lines != [] {
      SigTextsMore(lines[1..], line);
      assert (lines + [line])[1..] == lines[1..] + [line];
    } else {
      assert SigTexts([]) == [] && (lines + [line])[1..] == [];
    }
  }

  lemma {:induction false} SigsSpelled(lines: seq<string>)
    ensures Fields(lines, "Sig") == SigTexts(lines)
  {
    if lines != [] {
      var front, line := lines[..|lines| - 1], lines[|lines| - 1];
      assert lines == front + [line];
      SigsSpelled(front);
      ValueSpelled(line, "Sig");
      SigTextsMore(front, line);
    }
  }

  lemma {:induction false} DigitsNumber(s: string, i: nat)
    requires i <= |s| && Json.Numeric(s[..i]) >= 0
    ensures
      var (n, end) := Json.Digits(s, i, Json.Numeric(s[..i]));
      n == Json.Numeric(s[..end])
    decreases |s| - i
  {
    if i < |s| && Json.IsDigit(s[i]) {
      assert s[..i + 1][..i] == s[..i];
      DigitsNumber(s, i + 1);
    }
  }

  lemma SizeSpelled(s: string, n: nat)
    ensures ParseSize(s) == Some(n) <==> SizeText(s, n)
  {
    var digits := if s != "" && s[0] == '+' then s[1..] else s;
    DigitsNumber(digits, 0);
    assert digits[..|digits|] == digits;
  }

  lemma BadSpelled(line: string)
    ensures Malformed(line) <==> BadLine(line)
  {
    hide AllBlank, ParseSize, SizeText, Keys.Contains;
    SplitSpelled(line);
    PairContained(line);
    ValueSpelled(line, "NarSize");
    if "NarSize: " <= line {
      var text := line[9..];
      if ParseSize(text).Some? {
        SizeSpelled(text, ParseSize(text).value);
      } else {
        forall n: nat
          ensures !SizeText(text, n)
        {
          SizeSpelled(text, n);
        }
      }
    }
  }

  lemma ReferencesSpelled(lines: seq<string>, references: seq<string>)
    ensures Gathered(lines).references == references <==> SaysReferences(lines, references)
  {
    hide Fields, Words, Said, Unsaid, MadeOf, ParseSize, Last;
    var last := Last(Fields(lines, "References"));
    LastSpelled(lines, "References", "");
    assert "References" + ": " == "References: ";
    forall text: string
      ensures last == Some(text) <==> Said(lines, "References: ", text)
      ensures Words(text) == references <==> MadeOf(text, references)
    {
      LastSpelled(lines, "References", text);
      WordsMadeOf(text, references);
    }
  }

  lemma WordsMadeOf(text: string, words: seq<string>)
    ensures Words(text) == words <==> MadeOf(text, words)
  {
    WordsIff(text, words);
  }

  lemma SizeSaid(lines: seq<string>, n: nat)
    ensures Gathered(lines).narSize == Some(n) <==> SaysSize(lines, n)
  {
    hide Fields, Words, Said, SizeText, ParseSize, Last;
    var last := Last(Fields(lines, "NarSize"));
    assert "NarSize" + ": " == "NarSize: ";
    forall text: string
      ensures last == Some(text) <==> Said(lines, "NarSize: ", text)
      ensures ParseSize(text) == Some(n) <==> SizeText(text, n)
    {
      LastSpelled(lines, "NarSize", text);
      SizeSpelled(text, n);
    }
  }

  lemma AddressSpelled(lines: seq<string>, ca: Option<string>)
    ensures Gathered(lines).ca == ca <==> SaysAddress(lines, ca)
  {
    hide Fields, Words, Said, Unsaid, ParseSize;
    LastSpelled(lines, "CA", match ca case Some(text) => text case None => "");
    assert "CA" + ": " == "CA: ";
  }

  lemma TextsSpelled(lines: seq<string>, v: string)
    ensures Gathered(lines).storePath == Some(v) <==> Said(lines, "StorePath: ", v)
    ensures Gathered(lines).url == Some(v) <==> Said(lines, "URL: ", v)
    ensures Gathered(lines).narHash == Some(v) <==> Said(lines, "NarHash: ", v)
  {
    hide Fields, Words, Said, Last, ParseSize;
    LastSpelled(lines, "StorePath", v);
    LastSpelled(lines, "URL", v);
    LastSpelled(lines, "NarHash", v);
    assert "StorePath" + ": " == "StorePath: " && "URL" + ": " == "URL: " && "NarHash" + ": " == "NarHash: ";
  }

  lemma BrokenSpelled(lines: seq<string>)
    ensures !Broken(lines) <==> forall k :: 0 <= k < |lines| ==> !BadLine(lines[k])
  {
    hide Malformed, BadLine;
    forall k | 0 <= k < |lines|
      ensures Malformed(lines[k]) <==> BadLine(lines[k])
    {
      BadSpelled(lines[k]);
    }
  }

  /** A narinfo is read as `n` exactly when its lines say so. */
  lemma MeaningSpelled(lines: seq<string>, n: Info)
    ensures Meaning(lines) == Ok(n) <==> Says(lines, n)
  {
    hide Gathered, Broken, Said, BadLine, SaysSize, SaysReferences, SaysAddress, Fields;
    BrokenSpelled(lines);
    TextsSpelled(lines, n.storePath);
    TextsSpelled(lines, n.url);
    TextsSpelled(lines, n.narHash);
    SizeSaid(lines, n.narSize);
    ReferencesSpelled(lines, n.references);
    SigsGathered(lines);
    AddressSpelled(lines, n.ca);
  }

  predicate PlainNames(names: seq<string>) {
    forall k :: 0 <= k < |names| ==> names[k] != "" && BlankFree(names[k])
  }

  lemma MeaningIsSaid(lines: seq<string>)
    ensures
      match Meaning(lines)
      case Ok(n) => Says(lines, n) && PlainNames(n.references)
      case Err => forall n :: !Says(lines, n)
  {
    hide Meaning, Says;
    forall n
      ensures Meaning(lines) == Ok(n) <==> Says(lines, n)
      ensures Says(lines, n) ==> PlainNames(n.references)
    {
      MeaningSpelled(lines, n);
      if Says(lines, n) {
        SaidPlain(lines, n);
      }
    }
  }

  lemma SaidPlain(lines: seq<string>, n: Info)
    requires Says(lines, n)
    ensures PlainNames(n.references)
  {
    hide Said, Unsaid, BlankFree, BadLine;
  }

  lemma SigsGathered(lines: seq<string>)
    ensures Gathered(lines).sigs == SigTexts(lines)
  {
    SigsSpelled(lines);
  }

  lemma PairContained(line: string)
    ensures Keys.Contains(line, ": ") <==> SplitLine(line).Some?
  {
    hide Keys.Contains, SplitLine;
    SplitSpelled(line);
    Keys.ContainsSpelled(line, ": ");
    if a, b :| line == a + ": " + b {
      assert line[|a|] == ':' && line[|a| + 1] == ' ';
    }
  }
  // --- one more line -------------------------------------------------------------------

  /** References read as the words of the line, whatever white space stands around and between them. */
  lemma ReferencesAdded(lines: seq<string>, words: seq<string>, gaps: seq<string>)
    requires |gaps| == |words| + 1 && WellSpaced(words, gaps)
    ensures
      match Meaning(lines)
      case Ok(n) => Meaning(lines + ["References: " + Spread(words, gaps)]) == Ok(n.(references := words))
      case Err => Meaning(lines + ["References: " + Spread(words, gaps)]) == Err
  {
    hide Gathered, Broken, SplitLine, WellSpaced, Spread, Words;
    var text := Spread(words, gaps);
    WordsOfSpread(words, gaps);
    LineSplit("References", text);
    assert "References" + ": " == "References: ";
    GatheredMore(lines, "References: " + text);
    BrokenMore(lines, "References: " + text);
  }

  lemma LineSplit(key: string, value: string)
    requires ':' !in key
    ensures SplitLine((key + ": ") + value) == Some((key, value))
  {
    hide SplitLine;
    SplitLineAt(key, value);
  }

  /** Of a repeated field the last line counts, and no line changes what another field says. */
  lemma FieldAdded(lines: seq<string>, n: Info, text: string)
    requires Meaning(lines) == Ok(n)
    ensures Meaning(lines + ["StorePath: " + text]) ==
      if "/nix/store" <= text then Ok(n.(storePath := text)) else Err
    ensures Meaning(lines + ["URL: " + text]) == Ok(n.(url := text))
    ensures Meaning(lines + ["NarHash: " + text]) == Ok(n.(narHash := text))
    ensures Meaning(lines + ["CA: " + text]) == Ok(n.(ca := Some(text)))
  {
    hide Gathered, Broken, SplitLine, Words, ParseSize, SizeText;
    LineSplit("StorePath", text);
    LineSplit("URL", text);
    LineSplit("NarHash", text);
    LineSplit("CA", text);
    Appended(lines, "StorePath: " + text);
    Appended(lines, "URL: " + text);
    Appended(lines, "NarHash: " + text);
    Appended(lines, "CA: " + text);
    assert "StorePath" + ": " == "StorePath: " && "URL" + ": " == "URL: ";
    assert "NarHash" + ": " == "NarHash: " && "CA" + ": " == "CA: ";
  }

  lemma Appended(lines: seq<string>, line: string)
    ensures Gathered(lines + [line]) == Noted(Gathered(lines), line)
    ensures Broken(lines + [line]) <==> Broken(lines) || Malformed(line)
  {
    GatheredMore(lines, line);
    BrokenMore(lines, line);
  }

  lemma SizeAdded(lines: seq<string>, n: Info, text: string)
    requires Meaning(lines) == Ok(n)
    ensures forall size: nat :: SizeText(text, size) ==>
      Meaning(lines + ["NarSize: " + text]) == Ok(n.(narSize := size))
    ensures (forall size: nat :: !SizeText(text, size)) ==> Meaning(lines + ["NarSize: " + text]) == Err
  {
    hide Gathered, Broken, SplitLine, ParseSize, SizeText;
    LineSplit("NarSize", text);
    assert "NarSize" + ": " == "NarSize: ";
    Appended(lines, "NarSize: " + text);
    forall size: nat
      ensures ParseSize(text) == Some(size) <==> SizeText(text, size)
    {
      SizeSpelled(text, size);
    }
  }

  // --- what a signature covers -------------------------------------------------

  function JoinRefs(refs: seq<string>): string {
    if refs == [] then ""
    else Keys.STORE_DIR + "/" + refs[0] + if |refs| == 1 then "" else "," + JoinRefs(refs[1..])
  }

  function Fingerprint(n: Info): string {
    "1;" + (n.storePath + ";" + (n.narHash + ";" + (Json.Decimal(n.narSize) + ";" + JoinRefs(n.references))))
  }

  /** The four facts between semicolons, */
  lemma FingerprintSpelled(n: Info)
    ensures Fingerprint(n) ==
      "1;" + n.storePath + ";" + n.narHash + ";" + Json.Decimal(n.narSize) + ";" + JoinRefs(n.references)
  {
    hide Json.Decimal, JoinRefs;
    Flat(n.storePath, n.narHash, Json.Decimal(n.narSize), JoinRefs(n.references));
  }

  lemma Flat(a: string, b: string, c: string, d: string)
    ensures "1;" + (a + ";" + (b + ";" + (c + ";" + d))) == "1;" + a + ";" + b + ";" + c + ";" + d
  {
    var x := c + ";" + d;
    var y := b + ";" + x;
    assert "1;" + a + ";" + b + ";" + c + ";" + d == "1;" + a + ";" + b + ";" + x;
    assert "1;" + a + ";" + b + ";" + x == "1;" + a + ";" + y;
    assert "1;" + (a + ";" + y) == "1;" + a + ";" + y;
  }

  /** the size in decimal digits without a zero in front, */
  lemma SizePrinted(n: nat)
    ensures
      var size := Json.Decimal(n);
      Numeral(size) && Json.Numeric(size) == n && (|size| > 1 ==> size[0] != '0')
  {
    hide Json.Decimal, Json.Numeric;
    var size := Json.Decimal(n);
    Json.DecimalDigits(n);
    DigitsRead(size, n);
  }

  lemma DigitsRead(size: string, n: nat)
    requires size == Json.Decimal(n)
    ensures Json.Numeric(size) == n
  {
    hide Json.Decimal, Json.Digits;
    Json.AtSlice(size, 0, size);
    AllOf(size);
    Json.DigitsOf(size, 0, n);
    DigitsNumber(size, 0);
    DigitsEnd(size, n);
  }

  lemma AllOf(s: string)
    ensures s[..|s|] == s && s[..0] == "" && Json.Numeric("") == 0
  {
  }

  lemma DigitsEnd(s: string, n: nat)
    ensures Json.Digits(s, |s|, n) == (n, |s|)
  {
  }

  /** and the references as full paths with commas between. */
  lemma JoinRefsSpelled(first: string, rest: seq<string>)
    ensures JoinRefs([]) == "" && JoinRefs([first]) == "/nix/store/" + first
    ensures rest != [] ==> JoinRefs([first] + rest) == "/nix/store/" + first + "," + JoinRefs(rest)
  {
    var all := [first] + rest;
    assert all[1..] == rest;
    assert Keys.STORE_DIR + "/" == "/nix/store/";
    if rest != [] {
      assert JoinRefs(all) == "/nix/store/" + first + ("," + JoinRefs(rest));
    }
  }

  /** What stands between two references. */
  const BETWEEN := "," + Keys.STORE_DIR + "/"

  predicate NoBetween(refs: seq<string>) {
    forall k :: 0 <= k < |refs| ==> !Keys.Contains(refs[k], BETWEEN)
  }

  /** Names that cannot be taken for the separators; a lone comma in a reference is no harm. */
  predicate Separable(n: Info) {
    ';' !in n.storePath && ';' !in n.narHash && NoBetween(n.references)
  }

  predicate SameFacts(a: Info, b: Info) {
    a.storePath == b.storePath && a.narHash == b.narHash && a.narSize == b.narSize && a.references == b.references
  }

  lemma SplitEqual(a: string, x: string, b: string, y: string, c: char)
    requires c !in a && c !in b && a + [c] + x == b + [c] + y
    ensures a == b && x == y
  {
    Keys.SplitOnceAt(a, c, x);
    Keys.SplitOnceAt(b, c, y);
  }

  lemma DecimalInjective(a: nat, b: nat)
    requires Json.Decimal(a) == Json.Decimal(b)
    ensures a == b
  {
    var s := Json.Decimal(a);
    Json.AtSlice(s, 0, s);
    Json.DigitsOf(s, 0, a);
    Json.DigitsOf(s, 0, b);
  }

  lemma DecimalPlain(n: nat)
    ensures ';' !in Json.Decimal(n)
  {
    Json.DecimalDigits(n);
  }

  lemma FirstToken(x: string, s: string, c: char)
    requires c !in x && (s == "" || s[0] == c)
    ensures Keys.SplitOnce(x + s + [c], c) == Some((x, if s == "" then "" else s[1..] + [c]))
  {
    if s == "" {
      assert x + s + [c] == x + [c] + "";
      Keys.SplitOnceAt(x, c, "");
    } else {
      assert x + s + [c] == x + [c] + (s[1..] + [c]);
      Keys.SplitOnceAt(x, c, s[1..] + [c]);
    }
  }

  /** Two texts cut at their first separator, if they have one, are the same when their parts are. */
  lemma TokenEqual(x: string, s: string, y: string, t: string, c: char)
    requires c !in x && c !in y && x + s == y + t
    requires (s == "" || s[0] == c) && (t == "" || t[0] == c)
    ensures x == y && s == t
  {
    FirstToken(x, s, c);
    FirstToken(y, t, c);
    assert s == (x + s)[|x|..] && t == (y + t)[|y|..];
  }

  function AfterRef(refs: seq<string>): string {
    if |refs| <= 1 then "" else BETWEEN + JoinRefs(refs[1..])[|Keys.STORE_DIR| + 1..]
  }

  lemma JoinRefsCons(refs: seq<string>)
    requires refs != []
    ensures JoinRefs(refs) == (Keys.STORE_DIR + "/") + (refs[0] + AfterRef(refs))
    ensures |JoinRefs(refs)| > |Keys.STORE_DIR|
  {
    if |refs| > 1 {
      var rest := JoinRefs(refs[1..]);
      assert rest == Keys.STORE_DIR + "/" + refs[1] + if |refs| == 2 then "" else "," + JoinRefs(refs[1..][1..]);
      assert BETWEEN + rest[|Keys.STORE_DIR| + 1..] == "," + rest;
    }
  }

  /** Separators do not overlap: a separator's comma is its first character. */
  lemma NoOverlap(s: string, i: nat, j: nat)
    requires Keys.OccursAt(s, BETWEEN, i) && Keys.OccursAt(s, BETWEEN, j) && i < j
    ensures i + |BETWEEN| <= j
  {
    assert s[j] == s[j..j + |BETWEEN|][0] == ',';
    assert forall k :: 1 <= k < |BETWEEN| ==> BETWEEN[k] != ',';
    forall k | i < k < i + |BETWEEN|
      ensures s[k] != ','
    {
      assert s[k] == s[i..i + |BETWEEN|][k - i];
    }
  }

  /** So none can begin in one text and end in what follows it. */
  lemma NoStraddle(x: string, s: string, y: string, t: string)
    requires x + s == y + t && !Keys.Contains(y, BETWEEN)
    requires (s == "" || BETWEEN <= s) && (t == "" || BETWEEN <= t)
    ensures |y| <= |x|
  {
    if |x| < |y| {
      var all := x + s;
      assert all[|x|..|x| + |BETWEEN|] == BETWEEN;
      assert t != "" ==> all[|y|..|y| + |BETWEEN|] == BETWEEN;
      if t != "" {
        NoOverlap(all, |x|, |y|);
      }
      assert y == all[..|y|];
      assert Keys.OccursAt(y, BETWEEN, |x|);
    }
  }

  lemma {:induction false} JoinRefsInjective(a: seq<string>, b: seq<string>)
    requires NoBetween(a) && NoBetween(b)
    requires JoinRefs(a) == JoinRefs(b)
    ensures a == b
  {
    hide Keys.Contains;
    if a != [] && b != [] {
      JoinRefsCons(a);
      JoinRefsCons(b);
      var s, t := AfterRef(a), AfterRef(b);
      assert a[0] + s == JoinRefs(a)[|Keys.STORE_DIR| + 1..] == b[0] + t;
      NoStraddle(a[0], s, b[0], t);
      NoStraddle(b[0], t, a[0], s);
      assert a[0] == (a[0] + s)[..|a[0]|] == b[0];
      assert s == (a[0] + s)[|a[0]|..] == t;
      if |a| > 1 {
        RestsEqual(a, b);
        JoinRefsInjective(a[1..], b[1..]);
      }
      assert a == [a[0]] + a[1..] && b == [b[0]] + b[1..];
    } else if a != [] {
      JoinRefsCons(a);
    } else if b != [] {
      JoinRefsCons(b);
    }
  }

  lemma RestsEqual(a: seq<string>, b: seq<string>)
    requires |a| > 1 && b != [] && AfterRef(a) == AfterRef(b)
    ensures |b| > 1 && JoinRefs(a[1..]) == JoinRefs(b[1..])
  {
    JoinRefsCons(a[1..]);
    if |b| > 1 {
      JoinRefsCons(b[1..]);
      var p := Keys.STORE_DIR + "/";
      assert AfterRef(a)[|BETWEEN|..] == JoinRefs(a[1..])[|p|..];
      assert AfterRef(b)[|BETWEEN|..] == JoinRefs(b[1..])[|p|..];
      assert JoinRefs(a[1..]) == p + JoinRefs(a[1..])[|p|..];
      assert JoinRefs(b[1..]) == p + JoinRefs(b[1..])[|p|..];
    }
  }

  function AfterPath(n: Info): string {
    n.narHash + ";" + (Json.Decimal(n.narSize) + ";" + JoinRefs(n.references))
  }

  /** Where no path or hash holds a semicolon the text gives back all it was made of. */
  lemma PartsEqual(a: Info, b: Info)
    requires ';' !in a.storePath && ';' !in a.narHash && ';' !in b.storePath && ';' !in b.narHash
    requires Fingerprint(a) == Fingerprint(b)
    ensures a.storePath == b.storePath && a.narHash == b.narHash && a.narSize == b.narSize
    ensures JoinRefs(a.references) == JoinRefs(b.references)
  {
    hide JoinRefs, Json.Decimal;
    var x, y := AfterPath(a), AfterPath(b);
    assert a.storePath + ";" + x == Fingerprint(a)[2..] && b.storePath + ";" + y == Fingerprint(b)[2..];
    SplitEqual(a.storePath, x, b.storePath, y, ';');
    var p, q := Json.Decimal(a.narSize), Json.Decimal(b.narSize);
    SplitEqual(a.narHash, p + ";" + JoinRefs(a.references), b.narHash, q + ";" + JoinRefs(b.references), ';');
    DecimalPlain(a.narSize);
    DecimalPlain(b.narSize);
    SplitEqual(p, JoinRefs(a.references), q, JoinRefs(b.references), ';');
    DecimalInjective(a.narSize, b.narSize);
  }

  /** A signature binds all four facts: no two readings of one fingerprint. */
  lemma FingerprintInjective(a: Info, b: Info)
    requires Separable(a) && Separable(b)
    ensures Fingerprint(a) == Fingerprint(b) <==> SameFacts(a, b)
  {
    hide JoinRefs, NoBetween;
    if Fingerprint(a) == Fingerprint(b) {
      PartsEqual(a, b);
      JoinRefsInjective(a.references, b.references);
    }
  }

  // --- what a signature says to whoever reads another narinfo ------------------------

  /** How many semicolons a text holds. */
  function Semicolons(s: string): nat {
    multiset(s)[';']
  }

  lemma NoSemicolons(s: string)
    ensures Semicolons(s) == 0 <==> ';' !in s
  {
    assert ';' in multiset(s) <==> ';' in s;
  }

  lemma SemicolonsJoin(a: string, b: string)
    ensures Semicolons(a + b) == Semicolons(a) + Semicolons(b)
    ensures Semicolons(";" + b) == 1 + Semicolons(b)
  {
    assert multiset(";" + b) == multiset(";") + multiset(b);
  }

  lemma FingerprintSemicolons(n: Info)
    ensures Semicolons(Fingerprint(n)) ==
      4 + Semicolons(n.storePath) + Semicolons(n.narHash) + Semicolons(JoinRefs(n.references))
  {
    hide Semicolons, JoinRefs, Json.Decimal;
    var d, r := Json.Decimal(n.narSize), JoinRefs(n.references);
    DecimalPlain(n.narSize);
    NoSemicolons(d);
    NoSemicolons("1");
    SemicolonsJoin(d, ";" + r);
    SemicolonsJoin("", r);
    var x := d + (";" + r);
    SemicolonsJoin(n.narHash, ";" + x);
    SemicolonsJoin("", x);
    var y := n.narHash + (";" + x);
    SemicolonsJoin(n.storePath, ";" + y);
    SemicolonsJoin("", y);
    var z := n.storePath + (";" + y);
    SemicolonsJoin("1", ";" + z);
    SemicolonsJoin("", z);
    assert Fingerprint(n) == "1" + (";" + z) by {
      assert d + ";" + r == x;
      assert n.narHash + ";" + x == y;
      assert n.storePath + ";" + y == z;
    }
  }

  predicate NoSemicolonIn(refs: seq<string>) {
    forall k :: 0 <= k < |refs| ==> ';' !in refs[k]
  }

  lemma {:induction false} JoinRefsPlain(refs: seq<string>)
    requires NoSemicolonIn(refs)
    ensures ';' !in JoinRefs(refs)
  {
    if refs != [] {
      JoinRefsPlain(refs[1..]);
    }
  }

  /** What a signer has to see to: no separator of the fingerprint inside any of its names. */
  predicate Clean(m: Info) {
    ';' !in m.storePath && ';' !in m.narHash && NoSemicolonIn(m.references) && NoBetween(m.references)
  }

  /** A text that has as many semicolons as fields ends has none inside its fields. */
  lemma NoneInside(m: Info, n: Info)
    requires ';' !in m.storePath && ';' !in m.narHash && NoSemicolonIn(m.references)
    requires Fingerprint(n) == Fingerprint(m)
    ensures ';' !in n.storePath && ';' !in n.narHash
  {
    hide Fingerprint, JoinRefs, Semicolons;
    JoinRefsPlain(m.references);
    NoSemicolons(m.storePath);
    NoSemicolons(m.narHash);
    NoSemicolons(JoinRefs(m.references));
    FingerprintSemicolons(m);
    FingerprintSemicolons(n);
    NoSemicolons(n.storePath);
    NoSemicolons(n.narHash);
  }

  /**
   * Whatever narinfo shares the fingerprint of a clean one, however its names are
   * made: it is for the same path, hash and size, its references are the same text,
   * and they are the same references exactly when none of them holds a separator.
   */
  lemma SignedBinds(m: Info, n: Info)
    requires Clean(m)
    ensures Fingerprint(n) == Fingerprint(m) <==>
      n.storePath == m.storePath && n.narHash == m.narHash && n.narSize == m.narSize
      && JoinRefs(n.references) == JoinRefs(m.references)
    ensures Fingerprint(n) == Fingerprint(m) ==> (n.references == m.references <==> NoBetween(n.references))
  {
    hide JoinRefs, NoBetween, NoSemicolonIn;
    if Fingerprint(n) == Fingerprint(m) {
      NoneInside(m, n);
      PartsEqual(n, m);
      if NoBetween(n.references) {
        JoinRefsInjective(n.references, m.references);
      }
    }
  }

  /** Without such names it does not: a separator in a reference reads as two references. */
  lemma CommaAmbiguous(n: Info, r: string, q: string)
    ensures
      var two, one := n.(references := [r, q]), n.(references := [r + "," + Keys.STORE_DIR + "/" + q]);
      Fingerprint(two) == Fingerprint(one) && !SameFacts(two, one)
  {
    var joined := r + "," + Keys.STORE_DIR + "/" + q;
    assert [r, q][1..] == [q];
    assert JoinRefs([r, q]) == Keys.STORE_DIR + "/" + r + ("," + (Keys.STORE_DIR + "/" + q));
    assert JoinRefs([joined]) == Keys.STORE_DIR + "/" + joined;
    assert JoinRefs([r, q]) == JoinRefs([joined]);
  }
}
