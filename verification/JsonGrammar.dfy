/**
 * JSON text by its grammar: which stretch of a text spells which value. The reader
 * in `Json` accepts exactly what the grammar does.
 */
module JsonGrammar {
  import opened Wrappers
  import opened Json

  // --- the grammar -------------------------------------------------------------

  /** Nothing but blanks: tab, line feed, carriage return, space. */
  predicate Gap(s: string, i: nat, j: nat) {
    i <= j <= |s| && forall k :: i <= k < j ==> s[k] as int in {9, 10, 13, 32}
  }

  /** `c` stands behind these blanks, at `j`. */
  predicate Mark(s: string, i: nat, j: nat, c: char) {
    Gap(s, i, j) && j < |s| && s[j] == c
  }

  /** The letters that may follow a backslash, and what each then means. */
  predicate Escaped(e: char, c: char) {
    || (e in "\"\\/" && c == e)
    || (e == 'b' && c as int == 8)
    || (e == 't' && c as int == 9)
    || (e == 'n' && c as int == 10)
    || (e == 'f' && c as int == 12)
    || (e == 'r' && c as int == 13)
  }

  /** Four hexadecimal digits and the character they number. */
  ghost predicate Numbered(s: string, i: nat, c: char) {
    i + 4 <= |s|
    && exists p: nat, q: nat, r: nat, t: nat :: HexRow(s, i, p, q, r, t) && c as int == ((p * 16 + q) * 16 + r) * 16 + t
  }

  predicate HexRow(s: string, i: nat, p: nat, q: nat, r: nat, t: nat) {
    i + 4 <= |s| && HexFor(s[i], p) && HexFor(s[i + 1], q) && HexFor(s[i + 2], r) && HexFor(s[i + 3], t)
  }

  /** One character of a string: itself, or one of the two kinds of escape. */
  ghost predicate CharIn(s: string, i: nat, j: nat, c: char) {
    && i < j <= |s|
    && if s[i] == '\\' then
         (j == i + 2 && Escaped(s[i + 1], c)) || (j == i + 6 && s[i + 1] == 'u' && Numbered(s, i + 2, c))
       else j == i + 1 && s[i] == c && c != '"' && c as int >= 32
  }

  ghost predicate TextIn(s: string, i: nat, j: nat, text: string)
    decreases |text|
  {
    if text == "" then i == j <= |s|
    else exists m: nat :: CharIn(s, i, m, text[0]) && TextIn(s, m, j, text[1..])
  }

  ghost predicate StringIn(s: string, i: nat, j: nat, text: string) {
    i + 2 <= j <= |s| && s[i] == '"' && s[j - 1] == '"' && TextIn(s, i + 1, j - 1, text)
  }

  /** A row of digits without a zero in front, up to where no digit follows. */
  ghost predicate NumeralIn(s: string, i: nat, j: nat, n: nat) {
    && i < j <= |s| && (forall k :: i <= k < j ==> 48 <= s[k] as int <= 57)
    && (j < |s| ==> !(48 <= s[j] as int <= 57))
    && (s[i] == '0' ==> j == i + 1)
    && n == Numeric(s[i..j])
  }

  ghost predicate WordIn(s: string, i: nat, j: nat, word: string) {
    i <= j <= |s| && s[i..j] == word
  }

  ghost predicate ValueIn(s: string, i: nat, j: nat, v: Value)
    decreases v, 0
  {
    match v
    case Num(n) => NumeralIn(s, i, j, n)
    case Str(text) => StringIn(s, i, j, text)
    case Bool(b) => WordIn(s, i, j, if b then "true" else "false")
    case Null => WordIn(s, i, j, "null")
    case List(items) => i < |s| && s[i] == '[' && ItemsIn(s, i + 1, j, items)
    case Object(ms) => ObjectIn(s, i, j, ms)
  }

  /** What stands behind the opening bracket, the closing one included. */
  ghost predicate ItemsIn(s: string, i: nat, j: nat, items: seq<Value>)
    decreases items, 2
  {
    if items == [] then j > 0 && Mark(s, i, j - 1, ']')
    else exists m: nat :: Gap(s, i, m) && ItemIn(s, m, j, items)
  }

  /** An item, and behind it a comma and the others, or the closing bracket. */
  ghost predicate ItemIn(s: string, i: nat, j: nat, items: seq<Value>)
    requires items != []
    decreases items, 1
  {
    exists end: nat, m: nat :: ValueIn(s, i, end, items[0]) && AfterItem(s, end, m, j, items)
  }

  ghost predicate AfterItem(s: string, end: nat, m: nat, j: nat, items: seq<Value>)
    requires items != []
    decreases items, 0
  {
    if |items| == 1 then Mark(s, end, m, ']') && j == m + 1
    else Mark(s, end, m, ',') && ItemsIn(s, m + 1, j, items[1..])
  }

  ghost predicate ObjectIn(s: string, i: nat, j: nat, ms: seq<Member>)
    decreases ms, 3
  {
    i < |s| && s[i] == '{' && MembersIn(s, i + 1, j, ms)
  }

  ghost predicate MembersIn(s: string, i: nat, j: nat, ms: seq<Member>)
    decreases ms, 2
  {
    if ms == [] then j > 0 && Mark(s, i, j - 1, '}')
    else exists m: nat :: Gap(s, i, m) && MemberList(s, m, j, ms)
  }

  ghost predicate MemberList(s: string, i: nat, j: nat, ms: seq<Member>)
    requires ms != []
    decreases ms, 1
  {
    exists end: nat, m: nat :: MemberIn(s, i, end, ms[0]) && AfterMember(s, end, m, j, ms)
  }

  ghost predicate AfterMember(s: string, end: nat, m: nat, j: nat, ms: seq<Member>)
    requires ms != []
    decreases ms, 0
  {
    if |ms| == 1 then Mark(s, end, m, '}') && j == m + 1
    else Mark(s, end, m, ',') && MembersIn(s, m + 1, j, ms[1..])
  }

  /** A name, a colon, a value. */
  ghost predicate MemberIn(s: string, i: nat, j: nat, m: Member)
    decreases m
  {
    exists end: nat, c: nat, v: nat ::
      StringIn(s, i, end, m.key) && Mark(s, end, c, ':') && Gap(s, c + 1, v) && ValueIn(s, v, j, m.value)
  }

  /** One object with blanks around it is the whole text. */
  ghost predicate DocumentIn(s: string, ms: seq<Member>) {
    exists i: nat, j: nat :: Gap(s, 0, i) && ObjectIn(s, i, j, ms) && Gap(s, j, |s|)
  }

  // --- blanks, strings and numbers -----------------------------------------------

  lemma {:induction false} SkipIs(s: string, i: nat, j: nat)
    requires i <= j <= |s|
    ensures Skip(s, i) == j <==> Gap(s, i, j) && (j < |s| ==> !IsBlank(s[j]))
    decreases j - i
  {
    if i < j && IsBlank(s[i]) {
      SkipIs(s, i + 1, j);
    }
  }

  lemma MarkIs(s: string, i: nat, c: char)
    requires i <= |s| && !IsBlank(c)
    ensures forall j :: Mark(s, i, j, c) <==> Skip(s, i) == j && Is(s, j, c)
  {
    forall j: nat
      ensures Mark(s, i, j, c) <==> Skip(s, i) == j && Is(s, j, c)
    {
      if i <= j <= |s| {
        SkipIs(s, i, j);
      }
    }
  }

  lemma SkipGap(s: string, i: nat)
    requires i <= |s|
    ensures Gap(s, i, Skip(s, i))
  {
  }

  lemma EscapeIs(s: string, i: nat, j: nat, c: char)
    requires i < |s| && s[i] == '\\'
    ensures CharIn(s, i, j, c) <==> Unescape(s, i + 1) == Some((c, j))
  {
    if i + 1 < |s| {
      if s[i + 1] == 'u' {
        NumberedIs(s, i + 2, c);
      } else {
        EscapesSpelled(s, i + 1);
      }
    }
  }

  lemma NumberedIs(s: string, i: nat, c: char)
    ensures Numbered(s, i, c) <==> i + 4 <= |s| && CodeUnit(s[i..i + 4]) == Some(c)
  {
    hide HexRow, CodeUnit;
    if i + 4 <= |s| && CodeUnit(s[i..i + 4]) == Some(c) {
      UnitNumbered(s, i, c);
    } else if Numbered(s, i, c) {
      var p: nat, q: nat, r: nat, t: nat :|
        HexRow(s, i, p, q, r, t) && c as int == ((p * 16 + q) * 16 + r) * 16 + t;
      RowUnit(s, i, p, q, r, t);
      CharCode(c);
    }
  }

  lemma UnitNumbered(s: string, i: nat, c: char)
    requires i + 4 <= |s| && CodeUnit(s[i..i + 4]) == Some(c)
    ensures Numbered(s, i, c)
  {
    hide HexRow, CodeUnit;
    var p, q, r, t := UnitRow(s, i);
    RowUnit(s, i, p, q, r, t);
    var n := ((p * 16 + q) * 16 + r) * 16 + t;
    assert HexRow(s, i, p, q, r, t) && c as int == n;
  }

  lemma CharCode(c: char)
    ensures !(0xD800 <= c as int < 0xE000) && (c as int) as char == c
  {
  }

  lemma RowUnit(s: string, i: nat, p: nat, q: nat, r: nat, t: nat)
    requires HexRow(s, i, p, q, r, t)
    ensures
      var n := ((p * 16 + q) * 16 + r) * 16 + t;
      && i + 4 <= |s| && n < 0x10000
      && CodeUnit(s[i..i + 4]) == if 0xD800 <= n < 0xE000 then None else Some(n as char)
  {
    HexSpelled(s[i], p);
    HexSpelled(s[i + 1], q);
    HexSpelled(s[i + 2], r);
    HexSpelled(s[i + 3], t);
    hide HexFor, HexValue;
  }

  lemma UnitRow(s: string, i: nat) returns (p: nat, q: nat, r: nat, t: nat)
    requires i + 4 <= |s| && CodeUnit(s[i..i + 4]).Some?
    ensures HexRow(s, i, p, q, r, t)
  {
    hide HexFor, HexValue;
    p, q := HexValue(s[i]).value, HexValue(s[i + 1]).value;
    r, t := HexValue(s[i + 2]).value, HexValue(s[i + 3]).value;
    HexSpelled(s[i], p);
    HexSpelled(s[i + 1], q);
    HexSpelled(s[i + 2], r);
    HexSpelled(s[i + 3], t);
  }

  /** One character as the reader takes it. */
  lemma CharIs(s: string, i: nat, j: nat, c: char)
    requires i < |s| && s[i] != '"'
    ensures CharIn(s, i, j, c) <==>
      s[i] as int >= 32 && (if s[i] == '\\' then Unescape(s, i + 1) else Some((s[i], i + 1))) == Some((c, j))
  {
    if s[i] == '\\' {
      EscapeIs(s, i, j, c);
    }
  }

  lemma BodyStep(s: string, i: nat)
    requires i <= |s|
    ensures StringBody(s, i) ==
      if i == |s| then None
      else if s[i] == '"' then Some(([], i + 1))
      else if s[i] as int < 32 then None
      else
        match if s[i] == '\\' then Unescape(s, i + 1) else Some((s[i], i + 1))
        case None => None
        case Some((c, j)) =>
          match StringBody(s, j)
          case None => None
          case Some((rest, k)) => Some(([c] + rest, k))
  {
  }

  lemma NoQuote(s: string, i: nat, j: nat, c: char)
    requires CharIn(s, i, j, c)
    ensures i < |s| && s[i] != '"' && j <= |s|
  {
  }

  lemma {:induction false} BodySound(s: string, i: nat)
    requires i <= |s| && StringBody(s, i).Some?
    ensures var (text, j) := StringBody(s, i).value; s[j - 1] == '"' && TextIn(s, i, j - 1, text)
    decreases |s| - i
  {
    BodyStep(s, i);
    if s[i] != '"' {
      var (text, j) := StringBody(s, i).value;
      var (c, m) := (if s[i] == '\\' then Unescape(s, i + 1) else Some((s[i], i + 1))).value;
      hide StringBody, Unescape, CharIn;
      CharIs(s, i, m, c);
      BodySound(s, m);
      var (rest, k) := StringBody(s, m).value;
      assert text == [c] + rest && text[0] == c && text[1..] == rest;
    }
  }

  lemma {:induction false} BodyComplete(s: string, i: nat, j: nat, text: string)
    requires TextIn(s, i, j, text) && j < |s| && s[j] == '"'
    ensures i <= |s| && StringBody(s, i) == Some((text, j + 1))
    decreases |text|
  {
    if text == "" {
      BodyStep(s, i);
    } else {
      var m: nat :| CharIn(s, i, m, text[0]) && TextIn(s, m, j, text[1..]);
      NoQuote(s, i, m, text[0]);
      CharIs(s, i, m, text[0]);
      BodyComplete(s, m, j, text[1..]);
      hide StringBody, Unescape, CharIn, TextIn;
      BodyStep(s, i);
      assert [text[0]] + text[1..] == text;
    }
  }

  lemma StringIs(s: string, i: nat, j: nat, text: string)
    requires i <= |s|
    ensures StringIn(s, i, j, text) <==> String(s, i) == Some((text, j))
  {
    hide StringBody, TextIn;
    if StringIn(s, i, j, text) {
      BodyComplete(s, i + 1, j - 1, text);
    } else if String(s, i) == Some((text, j)) {
      BodySound(s, i + 1);
    }
  }

  lemma {:induction false} DigitsNumeric(s: string, i: nat, j: nat)
    requires i <= j <= |s| && Numeric(s[i..j]) >= 0
    ensures
      var (n, end) := Digits(s, j, Numeric(s[i..j]));
      n == Numeric(s[i..end])
    decreases |s| - j
  {
    if j < |s| && IsDigit(s[j]) {
      assert s[i..j + 1][..j - i] == s[i..j];
      DigitsNumeric(s, i, j + 1);
    }
  }

  lemma NumeralIs(s: string, i: nat, j: nat, n: nat)
    requires i <= |s|
    ensures NumeralIn(s, i, j, n) <==> Number(s, i) == Some((n, j))
  {
    assert s[i..i] == "";
    DigitsNumeric(s, i, i);
    hide Numeric;
  }

  // --- values ----------------------------------------------------------------------

  lemma WordIs(s: string, i: nat, j: nat, word: string)
    ensures WordIn(s, i, j, word) <==> LiteralAt(s, i, word) && j == i + |word|
  {
  }

  /** What a value begins with: each kind with characters of its own, none of them a blank or a closing bracket. */
  lemma ValueBegins(s: string, i: nat, j: nat, v: Value)
    requires ValueIn(s, i, j, v)
    ensures i < |s| && !IsBlank(s[i]) && s[i] != ']' && s[i] != '}'
    ensures (v.Str? <==> s[i] == '"') && (v.List? <==> s[i] == '[') && (v.Object? <==> s[i] == '{')
      && (v.Num? <==> IsDigit(s[i])) && (v.Bool? ==> s[i] == if v.b then 't' else 'f') && (v.Null? ==> s[i] == 'n')
  {
    match v {
      case Bool(b) => assert s[i..j][0] == s[i];
      case Null => assert s[i..j][0] == s[i];
      case _ =>
    }
  }

  lemma {:induction false} ValueSound(s: string, i: nat)
    requires i <= |s| && ValueAt(s, i).Some?
    ensures var (v, j) := ValueAt(s, i).value; ValueIn(s, i, j, v)
    decreases |s| - i, 2
  {
    hide String, ListAt, ObjectAt, Number, StringIn, NumeralIn, ItemsIn, ObjectIn, WordIn, LiteralAt;
    var (v, j) := ValueAt(s, i).value;
    match v
    case Str(text) => StringIs(s, i, j, text);
    case List(items) => ListSound(s, i);
    case Object(ms) => ObjectSound(s, i);
    case Num(n) => NumeralIs(s, i, j, n);
    case Bool(b) => WordIs(s, i, j, if b then "true" else "false");
    case Null => WordIs(s, i, j, "null");
  }

  lemma {:induction false} ListSound(s: string, i: nat)
    requires i <= |s| && ListAt(s, i).Some?
    ensures var (items, j) := ListAt(s, i).value; i < |s| && s[i] == '[' && ItemsIn(s, i + 1, j, items)
    decreases |s| - i, 1
  {
    hide Items, ItemIn, Skip;
    MarkIs(s, i + 1, ']');
    var m := Skip(s, i + 1);
    if !Is(s, m, ']') {
      SkipGap(s, i + 1);
      ItemSound(s, m);
    }
  }

  lemma {:induction false} ItemSound(s: string, i: nat)
    requires i <= |s| && Items(s, i).Some?
    ensures var (items, j) := Items(s, i).value; items != [] && ItemIn(s, i, j, items)
    decreases |s| - i, 3
  {
    hide ValueAt, ValueIn, Skip, ItemsIn, ItemIn, Mark, Gap;
    ValueSound(s, i);
    var (item, end) := ValueAt(s, i).value;
    var m := Skip(s, end);
    MarkIs(s, end, ']');
    MarkIs(s, end, ',');
    if Is(s, m, ',') {
      var n := Skip(s, m + 1);
      SkipGap(s, m + 1);
      ItemSound(s, n);
      var (rest, j) := Items(s, n).value;
      hide Items;
      ItemsMore(s, m + 1, n, j, rest);
      ItemFirst(s, i, end, m, j, item, rest);
    } else {
      ItemLast(s, i, end, m, item);
    }
  }

  lemma ItemsMore(s: string, i: nat, m: nat, j: nat, items: seq<Value>)
    requires items != [] && Gap(s, i, m) && ItemIn(s, m, j, items)
    ensures ItemsIn(s, i, j, items)
  {
    hide ItemIn, Gap;
  }

  lemma ItemLast(s: string, i: nat, end: nat, m: nat, item: Value)
    requires ValueIn(s, i, end, item) && Mark(s, end, m, ']')
    ensures ItemIn(s, i, m + 1, [item])
  {
    hide ValueIn, ItemsIn, Mark;
    assert AfterItem(s, end, m, m + 1, [item]);
  }

  lemma ItemFirst(s: string, i: nat, end: nat, m: nat, j: nat, item: Value, rest: seq<Value>)
    requires ValueIn(s, i, end, item) && Mark(s, end, m, ',') && rest != [] && ItemsIn(s, m + 1, j, rest)
    ensures ItemIn(s, i, j, [item] + rest)
  {
    hide ValueIn, ItemsIn, Mark;
    var items := [item] + rest;
    assert items[1..] == rest && items[0] == item;
    assert AfterItem(s, end, m, j, items);
  }

  lemma {:induction false} ObjectSound(s: string, i: nat)
    requires i <= |s| && ObjectAt(s, i).Some?
    ensures var (ms, j) := ObjectAt(s, i).value; ObjectIn(s, i, j, ms)
    decreases |s| - i, 1
  {
    hide Members, MemberList, Skip;
    MarkIs(s, i + 1, '}');
    var m := Skip(s, i + 1);
    if !Is(s, m, '}') {
      SkipGap(s, i + 1);
      MemberListSound(s, m);
    }
  }

  lemma {:induction false} MemberListSound(s: string, i: nat)
    requires i <= |s| && Members(s, i).Some?
    ensures var (ms, j) := Members(s, i).value; ms != [] && MemberList(s, i, j, ms)
    decreases |s| - i, 4
  {
    hide MemberAt, MemberIn, Skip, MembersIn, MemberList;
    MemberSound(s, i);
    var (first, end) := MemberAt(s, i).value;
    var m := Skip(s, end);
    MarkIs(s, end, '}');
    MarkIs(s, end, ',');
    if Is(s, m, ',') {
      var n := Skip(s, m + 1);
      SkipGap(s, m + 1);
      MemberListSound(s, n);
      var (rest, j) := Members(s, n).value;
      hide Members;
      MembersMore(s, m + 1, n, j, rest);
      MemberFirst(s, i, end, m, j, first, rest);
    } else {
      MemberLast(s, i, end, m, first);
    }
  }

  lemma MembersMore(s: string, i: nat, m: nat, j: nat, ms: seq<Member>)
    requires ms != [] && Gap(s, i, m) && MemberList(s, m, j, ms)
    ensures MembersIn(s, i, j, ms)
  {
    hide MemberList, Gap;
  }

  lemma MemberLast(s: string, i: nat, end: nat, m: nat, first: Member)
    requires MemberIn(s, i, end, first) && Mark(s, end, m, '}')
    ensures MemberList(s, i, m + 1, [first])
  {
    hide MemberIn, MembersIn, Mark;
    assert AfterMember(s, end, m, m + 1, [first]);
  }

  lemma MemberFirst(s: string, i: nat, end: nat, m: nat, j: nat, first: Member, rest: seq<Member>)
    requires MemberIn(s, i, end, first) && Mark(s, end, m, ',') && rest != [] && MembersIn(s, m + 1, j, rest)
    ensures MemberList(s, i, j, [first] + rest)
  {
    hide MemberIn, MembersIn, Mark;
    var ms := [first] + rest;
    assert ms[1..] == rest && ms[0] == first;
    assert AfterMember(s, end, m, j, ms);
  }

  lemma {:induction false} MemberSound(s: string, i: nat)
    requires i <= |s| && MemberAt(s, i).Some?
    ensures var (m, j) := MemberAt(s, i).value; MemberIn(s, i, j, m)
    decreases |s| - i, 3
  {
    hide String, ValueAt, ValueIn, StringIn, Skip, Gap;
    var (key, end) := String(s, i).value;
    StringIs(s, i, end, key);
    MarkIs(s, end, ':');
    var c := Skip(s, end);
    SkipGap(s, c + 1);
    ValueSound(s, Skip(s, c + 1));
  }

  // --- and back ------------------------------------------------------------------------

  lemma {:induction false} ValueComplete(s: string, i: nat, j: nat, v: Value)
    requires ValueIn(s, i, j, v)
    ensures i <= |s| && ValueAt(s, i) == Some((v, j))
    decreases v, 0
  {
    ValueBegins(s, i, j, v);
    WordLetters(s, i);
    hide String, ListAt, ObjectAt, Number, StringIn, NumeralIn, ItemsIn, ObjectIn, WordIn, LiteralAt, IsDigit;
    match v
    case Str(text) => StringIs(s, i, j, text);
    case List(items) => ListComplete(s, i, j, items);
    case Object(ms) => ObjectComplete(s, i, j, ms);
    case Num(n) =>
      DigitIsNoLetter(s[i]);
      NumeralIs(s, i, j, n);
    case Bool(b) => WordIs(s, i, j, if b then "true" else "false");
    case Null => WordIs(s, i, j, "null");
  }

  lemma DigitIsNoLetter(c: char)
    requires IsDigit(c)
    ensures c !in {'t', 'f', 'n'}
  {
  }

  lemma {:induction false} ListComplete(s: string, i: nat, j: nat, items: seq<Value>)
    requires i < |s| && s[i] == '[' && ItemsIn(s, i + 1, j, items)
    ensures ListAt(s, i) == Some((items, j))
    decreases items, 2
  {
    hide Items, ItemIn, Skip;
    MarkIs(s, i + 1, ']');
    if items != [] {
      var m: nat :| Gap(s, i + 1, m) && ItemIn(s, m, j, items);
      ItemBegins(s, m, j, items);
      SkipIs(s, i + 1, m);
      ItemComplete(s, m, j, items);
    }
  }

  lemma ItemBegins(s: string, i: nat, j: nat, items: seq<Value>)
    requires items != [] && ItemIn(s, i, j, items)
    ensures i < |s| && !IsBlank(s[i]) && s[i] != ']'
  {
    hide ValueIn, ItemsIn, Mark;
    var end: nat, m: nat :| ValueIn(s, i, end, items[0]);
    ValueBegins(s, i, end, items[0]);
  }

  lemma {:induction false} ItemComplete(s: string, i: nat, j: nat, items: seq<Value>)
    requires items != [] && ItemIn(s, i, j, items)
    ensures i <= |s| && Items(s, i) == Some((items, j))
    decreases items, 1
  {
    hide ValueAt, ValueIn, Skip, ItemsIn, Mark;
    var end: nat, m: nat :| ValueIn(s, i, end, items[0]) && AfterItem(s, end, m, j, items);
    ValueComplete(s, i, end, items[0]);
    MarkWithin(s, end, m);
    MarkIs(s, end, ']');
    MarkIs(s, end, ',');
    hide ItemIn;
    assert items == [items[0]] + items[1..];
    if |items| > 1 {
      var n := NextItem(s, m + 1, j, items[1..]);
      ItemComplete(s, n, j, items[1..]);
    } else {
      assert items == [items[0]];
    }
  }

  lemma MarkWithin(s: string, i: nat, j: nat)
    ensures forall c :: Mark(s, i, j, c) ==> i <= j < |s| && s[j] == c
  {
  }

  lemma NextItem(s: string, i: nat, j: nat, items: seq<Value>) returns (m: nat)
    requires items != [] && ItemsIn(s, i, j, items)
    ensures i <= |s| && m == Skip(s, i) && ItemIn(s, m, j, items)
  {
    hide ItemIn;
    m :| Gap(s, i, m) && ItemIn(s, m, j, items);
    ItemBegins(s, m, j, items);
    SkipIs(s, i, m);
  }

  lemma {:induction false} ObjectComplete(s: string, i: nat, j: nat, ms: seq<Member>)
    requires ObjectIn(s, i, j, ms)
    ensures i <= |s| && ObjectAt(s, i) == Some((ms, j))
    decreases ms, 2
  {
    hide Members, MemberList, Skip;
    MarkIs(s, i + 1, '}');
    if ms != [] {
      var m := NextMember(s, i + 1, j, ms);
      MemberListComplete(s, m, j, ms);
    }
  }

  lemma NextMember(s: string, i: nat, j: nat, ms: seq<Member>) returns (m: nat)
    requires ms != [] && MembersIn(s, i, j, ms)
    ensures i <= |s| && m == Skip(s, i) && MemberList(s, m, j, ms) && m < |s| && s[m] == '"'
  {
    hide MemberList;
    m :| Gap(s, i, m) && MemberList(s, m, j, ms);
    MemberListBegins(s, m, j, ms);
    SkipIs(s, i, m);
  }

  lemma MemberListBegins(s: string, i: nat, j: nat, ms: seq<Member>)
    requires ms != [] && MemberList(s, i, j, ms)
    ensures i < |s| && s[i] == '"'
  {
    hide ValueIn, MembersIn, Mark, TextIn, Gap;
    var end: nat, m: nat :| MemberIn(s, i, end, ms[0]);
  }

  lemma {:induction false} MemberListComplete(s: string, i: nat, j: nat, ms: seq<Member>)
    requires ms != [] && MemberList(s, i, j, ms)
    ensures i <= |s| && Members(s, i) == Some((ms, j))
    decreases ms, 1
  {
    hide MemberAt, MemberIn, Skip, MembersIn, Mark;
    var end: nat, m: nat :| MemberIn(s, i, end, ms[0]) && AfterMember(s, end, m, j, ms);
    MemberComplete(s, i, end, ms[0]);
    MarkWithin(s, end, m);
    MarkIs(s, end, '}');
    MarkIs(s, end, ',');
    hide MemberList;
    assert ms == [ms[0]] + ms[1..];
    if |ms| > 1 {
      var n := NextMember(s, m + 1, j, ms[1..]);
      MemberListComplete(s, n, j, ms[1..]);
    } else {
      assert ms == [ms[0]];
    }
  }

  lemma {:induction false} MemberComplete(s: string, i: nat, j: nat, m: Member)
    requires MemberIn(s, i, j, m)
    ensures i <= |s| && MemberAt(s, i) == Some((m, j))
    decreases m
  {
    hide String, ValueAt, ValueIn, StringIn, Skip, Mark;
    var end: nat, c: nat, v: nat :|
      StringIn(s, i, end, m.key) && Mark(s, end, c, ':') && Gap(s, c + 1, v) && ValueIn(s, v, j, m.value);
    StringWithin(s, i, end, m.key);
    StringIs(s, i, end, m.key);
    MarkWithin(s, end, c);
    MarkIs(s, end, ':');
    ValueBegins(s, v, j, m.value);
    SkipIs(s, c + 1, v);
    ValueComplete(s, v, j, m.value);
  }

  lemma StringWithin(s: string, i: nat, j: nat, text: string)
    requires StringIn(s, i, j, text)
    ensures i < j <= |s|
  {
  }

  /** The reader takes a text for these members exactly when the grammar does. */
  lemma DocumentIs(s: string, ms: seq<Member>)
    ensures Document(s) == Some(ms) <==> DocumentIn(s, ms)
  {
    hide ObjectIn, ObjectAt, Skip;
    if i: nat, j: nat :| Gap(s, 0, i) && ObjectIn(s, i, j, ms) && Gap(s, j, |s|) {
      ObjectComplete(s, i, j, ms);
      ObjectBegins(s, i, j, ms);
      SkipIs(s, 0, i);
      SkipIs(s, j, |s|);
    }
    if Document(s) == Some(ms) {
      var i := Skip(s, 0);
      SkipGap(s, 0);
      ObjectSound(s, i);
      SkipGap(s, ObjectAt(s, i).value.1);
    }
  }

  lemma ObjectBegins(s: string, i: nat, j: nat, ms: seq<Member>)
    requires ObjectIn(s, i, j, ms)
    ensures i < |s| && !IsBlank(s[i])
  {
    hide MembersIn;
  }
}
