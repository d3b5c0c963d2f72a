/**
 * JSON text: objects of numbers, strings, booleans, null, lists and objects, with
 * blanks anywhere between tokens, strings escaped as in section 7 of RFC 8259.
 */
module Json {
  import opened Wrappers

  datatype Value =
    | Num(n: nat)
    | Str(text: string)
    | Bool(b: bool)
    | Null
    | List(items: seq<Value>)
    | Object(members: seq<Member>)

  datatype Member = Member(key: string, value: Value)

  // --- printing ------------------------------------------------------------

  function HexDigit(n: nat): char
    requires n < 16
  {
    if n < 10 then '0' + n as char else 'a' + (n - 10) as char
  }

  function EscapeChar(c: char): string {
    if c == '"' then "\\\""
    else if c == '\\' then "\\\\"
    else if c == '\n' then "\\n"
    else if c == '\r' then "\\r"
    else if c == '\t' then "\\t"
    else if c as int == 8 then "\\b"
    else if c as int == 12 then "\\f"
    else if c as int < 32 then "\\u00" + [HexDigit(c as int / 16), HexDigit(c as int % 16)]
    else [c]
  }

  /** Which characters are printed as escapes, and as which. */
  lemma EscapeSpelled(c: char)
    ensures
      var code := c as int;
      EscapeChar(c) ==
        if code in {34, 92} then ['\\', c]
        else if code in {8, 9, 10, 12, 13} then ['\\', "btn.fr"[code - 8]]
        else if code < 32 then "\\u00" + ["01"[code / 16], "0123456789abcdef"[code % 16]]
        else [c]
  {
  }

  function Escape(s: string): string {
    if s == [] then [] else EscapeChar(s[0]) + Escape(s[1..])
  }

  function Quote(s: string): string {
    "\"" + (Escape(s) + "\"")
  }

  function Decimal(n: nat): string {
    (if n < 10 then [] else Decimal(n / 10)) + [HexDigit(n % 10)]
  }

  function PrintItems(items: seq<Value>): string
    requires items != []
    decreases items
  {
    PrintValue(items[0]) + (if |items| == 1 then "]" else "," + PrintItems(items[1..]))
  }

  /** Text without blanks, as the library prints it. */
  function PrintValue(v: Value): string
    decreases v
  {
    match v
    case Num(n) => Decimal(n)
    case Str(text) => Quote(text)
    case Bool(b) => if b then "true" else "false"
    case Null => "null"
    case List(items) => "[" + (if items == [] then "]" else PrintItems(items))
    case Object(members) => "{" + ((if members == [] then "" else PrintMembers(members)) + "}")
  }

  function PrintMember(m: Member): string
    decreases m
  {
    Quote(m.key) + (":" + PrintValue(m.value))
  }

  function PrintMembers(ms: seq<Member>): string
    requires ms != []
    decreases ms
  {
    if |ms| == 1 then PrintMember(ms[0])
    else PrintMember(ms[0]) + ("," + PrintMembers(ms[1..]))
  }

  function Print(ms: seq<Member>): string {
    PrintValue(Object(ms))
  }

  // --- reading ---------------------------------------------------------------

  /** What was read, and the position behind it. */
  type Read<T> = Option<(T, nat)>

  predicate IsDigit(c: char) {
    '0' <= c <= '9'
  }

  predicate IsBlank(c: char) {
    c == ' ' || c == '\n' || c == '\r' || c == '\t'
  }

  /** The first position from `i` on that holds no blank. */
  function Skip(s: string, i: nat): (r: nat)
    requires i <= |s|
    ensures i <= r <= |s| && (r < |s| ==> !IsBlank(s[r]))
    ensures forall k :: i <= k < r ==> IsBlank(s[k])
    decreases |s| - i
  {
    if i < |s| && IsBlank(s[i]) then Skip(s, i + 1) else i
  }

  predicate Is(s: string, i: nat, c: char) {
    i < |s| && s[i] == c
  }

  function Digits(s: string, i: nat, acc: nat): (r: (nat, nat))
    requires i <= |s|
    ensures i <= r.1 <= |s| && (r.1 < |s| ==> !IsDigit(s[r.1]))
    ensures forall k :: i <= k < r.1 ==> IsDigit(s[k])
    decreases |s| - i
  {
    if i < |s| && IsDigit(s[i]) then Digits(s, i + 1, 10 * acc + (s[i] as int - '0' as int)) else (acc, i)
  }

  /** A number has no leading zero. */
  function Number(s: string, i: nat): (r: Read<nat>)
    requires i <= |s|
    ensures r.Some? ==> i < r.value.1 <= |s|
  {
    if i == |s| || !IsDigit(s[i]) then None
    else if s[i] == '0' && i + 1 < |s| && IsDigit(s[i + 1]) then None
    else Some(Digits(s, i, 0))
  }

  /** The number a row of digits stands for, the first digit counting most. */
  function Numeric(s: string): int {
    if s == "" then 0 else 10 * Numeric(s[..|s| - 1]) + (s[|s| - 1] as int - 48)
  }

  function HexValue(c: char): Option<nat> {
    if '0' <= c <= '9' then Some(c as int - '0' as int)
    else if 'a' <= c <= 'f' then Some(c as int - 'a' as int + 10)
    else if 'A' <= c <= 'F' then Some(c as int - 'A' as int + 10)
    else None
  }

  function CodeUnit(s: string): Option<char>
    requires |s| == 4
  {
    match (HexValue(s[0]), HexValue(s[1]), HexValue(s[2]), HexValue(s[3]))
    case (Some(a), Some(b), Some(c), Some(d)) =>
      var n := 4096 * a + 256 * b + 16 * c + d;
      if n < 0xD800 || (0xE000 <= n < 0x10000) then Some(n as char) else None
    case _ => None
  }

  /** What follows a backslash. */
  function Unescape(s: string, i: nat): (r: Read<char>)
    requires i <= |s|
    ensures r.Some? ==> i < r.value.1 <= |s|
  {
    if i == |s| then None
    else if s[i] == '"' || s[i] == '\\' || s[i] == '/' then Some((s[i], i + 1))
    else if s[i] == 'n' then Some(('\n', i + 1))
    else if s[i] == 'r' then Some(('\r', i + 1))
    else if s[i] == 't' then Some(('\t', i + 1))
    else if s[i] == 'b' then Some((8 as char, i + 1))
    else if s[i] == 'f' then Some((12 as char, i + 1))
    else if s[i] == 'u' && i + 5 <= |s| then
      match CodeUnit(s[i + 1..i + 5])
      case Some(c) => Some((c, i + 5))
      case None => None
    else None
  }

  /** Space, tab, line feed and carriage return. */
  lemma BlanksSpelled(c: char)
    ensures IsBlank(c) <==> c as int in {9, 10, 13, 32}
  {
  }

  /** The hexadecimal digit of this value, in either case. */
  predicate HexFor(c: char, n: nat) {
    n < 16 && c in ["0123456789abcdef"[n], "0123456789ABCDEF"[n]]
  }

  lemma HexSpelled(c: char, n: nat)
    ensures HexValue(c) == Some(n) <==> HexFor(c, n)
  {
  }

  /** The two-character escapes and what they stand for. */
  lemma EscapesSpelled(s: string, i: nat)
    requires i < |s| && s[i] != 'u'
    ensures
      match s[i]
      case '"' => Unescape(s, i) == Some((34 as char, i + 1))
      case '\\' => Unescape(s, i) == Some((92 as char, i + 1))
      case '/' => Unescape(s, i) == Some((47 as char, i + 1))
      case 'b' => Unescape(s, i) == Some((8 as char, i + 1))
      case 'f' => Unescape(s, i) == Some((12 as char, i + 1))
      case 'n' => Unescape(s, i) == Some((10 as char, i + 1))
      case 'r' => Unescape(s, i) == Some((13 as char, i + 1))
      case 't' => Unescape(s, i) == Some((9 as char, i + 1))
      case _ => Unescape(s, i) == None
  {
  }

  /** And the escape by number: four hexadecimal digits of a character that is no surrogate. */
  lemma NumberedEscape(s: string, i: nat, a: nat, b: nat, c: nat, d: nat)
    requires i + 5 <= |s| && s[i] == 'u'
    requires HexFor(s[i + 1], a) && HexFor(s[i + 2], b) && HexFor(s[i + 3], c) && HexFor(s[i + 4], d)
    ensures
      var n := ((a * 16 + b) * 16 + c) * 16 + d;
      Unescape(s, i) == if 0xD800 <= n <= 0xDFFF then None else Some((n as char, i + 5))
  {
    HexSpelled(s[i + 1], a);
    HexSpelled(s[i + 2], b);
    HexSpelled(s[i + 3], c);
    HexSpelled(s[i + 4], d);
    hide HexFor, HexValue;
    var digits := s[i + 1..i + 5];
    assert digits[0] == s[i + 1] && digits[1] == s[i + 2] && digits[2] == s[i + 3] && digits[3] == s[i + 4];
  }

  /** A string after its opening quote. */
  function StringBody(s: string, i: nat): (r: Read<string>)
    requires i <= |s|
    ensures r.Some? ==> i < r.value.1 <= |s|
    decreases |s| - i
  {
    if i == |s| then None
    else if s[i] == '"' then Some(([], i + 1))
    else if s[i] as int < 32 then None
    else
      var first := if s[i] == '\\' then Unescape(s, i + 1) else Some((s[i], i + 1));
      match first
      case None => None
      case Some((c, j)) =>
        match StringBody(s, j)
        case None => None
        case Some((rest, k)) => Some(([c] + rest, k))
  }

  function String(s: string, i: nat): (r: Read<string>)
    requires i <= |s|
    ensures r.Some? ==> i < r.value.1 <= |s|
  {
    if Is(s, i, '"') then StringBody(s, i + 1) else None
  }

  predicate LiteralAt(s: string, i: nat, t: string) {
    i + |t| <= |s| && s[i..i + |t|] == t
  }

  /** The rest of a list that has an item at `i`, and its closing bracket. */
  function Items(s: string, i: nat): (r: Read<seq<Value>>)
    requires i <= |s|
    ensures r.Some? ==> i < r.value.1 <= |s|
    decreases |s| - i, 2
  {
    match ValueAt(s, i)
    case None => None
    case Some((item, end)) =>
      var j := Skip(s, end);
      if Is(s, j, ']') then Some(([item], j + 1))
      else if Is(s, j, ',') then
        match Items(s, Skip(s, j + 1))
        case None => None
        case Some((items, k)) => Some(([item] + items, k))
      else None
  }

  function ListAt(s: string, i: nat): (r: Read<seq<Value>>)
    requires i <= |s|
    ensures r.Some? ==> i < r.value.1 <= |s|
    decreases |s| - i, 0
  {
    if !Is(s, i, '[') then None
    else
      var j := Skip(s, i + 1);
      if Is(s, j, ']') then Some(([], j + 1)) else Items(s, j)
  }

  function ValueAt(s: string, i: nat): (r: Read<Value>)
    requires i <= |s|
    ensures r.Some? ==> i < r.value.1 <= |s|
    decreases |s| - i, 1
  {
    if Is(s, i, '"') then
      match String(s, i)
      case None => None
      case Some((text, j)) => Some((Str(text), j))
    else if Is(s, i, '[') then
      match ListAt(s, i)
      case None => None
      case Some((items, j)) => Some((List(items), j))
    else if Is(s, i, '{') then
      match ObjectAt(s, i)
      case None => None
      case Some((members, j)) => Some((Object(members), j))
    else if LiteralAt(s, i, "true") then Some((Bool(true), i + 4))
    else if LiteralAt(s, i, "false") then Some((Bool(false), i + 5))
    else if LiteralAt(s, i, "null") then Some((Null, i + 4))
    else
      match Number(s, i)
      case None => None
      case Some((n, j)) => Some((Num(n), j))
  }

  function MemberAt(s: string, i: nat): (r: Read<Member>)
    requires i <= |s|
    ensures r.Some? ==> i < r.value.1 <= |s|
    decreases |s| - i, 0
  {
    match String(s, i)
    case None => None
    case Some((key, end)) =>
      var j := Skip(s, end);
      if !Is(s, j, ':') then None
      else
        match ValueAt(s, Skip(s, j + 1))
        case None => None
        case Some((v, k)) => Some((Member(key, v), k))
  }

  /** The rest of an object that has a member at `i`, and its closing brace. */
  function Members(s: string, i: nat): (r: Read<seq<Member>>)
    requires i <= |s|
    ensures r.Some? ==> i + 1 < r.value.1 <= |s|
    decreases |s| - i, 1
  {
    match MemberAt(s, i)
    case None => None
    case Some((m, end)) =>
      var j := Skip(s, end);
      if Is(s, j, '}') then Some(([m], j + 1))
      else if Is(s, j, ',') then
        match Members(s, Skip(s, j + 1))
        case None => None
        case Some((ms, k)) => Some(([m] + ms, k))
      else None
  }

  function ObjectAt(s: string, i: nat): (r: Read<seq<Member>>)
    requires i <= |s|
    ensures r.Some? ==> i < r.value.1 <= |s|
    decreases |s| - i, 0
  {
    if !Is(s, i, '{') then None
    else
      var j := Skip(s, i + 1);
      if Is(s, j, '}') then Some(([], j + 1)) else Members(s, j)
  }

  /** One object and nothing but blanks around it. */
  function Document(s: string): Option<seq<Member>> {
    match ObjectAt(s, Skip(s, 0))
    case Some((ms, end)) => if Skip(s, end) == |s| then Some(ms) else None
    case None => None
  }

  // --- reading what was printed ------------------------------------------------

  /** `t` stands at position `i`. */
  ghost predicate At(s: string, i: nat, t: string): (r: bool)
    ensures r ==> i + |t| <= |s|
    decreases |t|
  {
    if t == "" then i <= |s| else i < |s| && s[i] == t[0] && At(s, i + 1, t[1..])
  }

  lemma {:induction false} AtSplit(s: string, i: nat, a: string, b: string)
    requires At(s, i, a + b)
    ensures At(s, i, a) && At(s, i + |a|, b)
    decreases |a|
  {
    if a == "" {
      assert a + b == b;
    } else {
      assert (a + b)[1..] == a[1..] + b;
      AtSplit(s, i + 1, a[1..], b);
    }
  }

  lemma AtHead(s: string, i: nat, c: char, b: string)
    requires At(s, i, [c] + b)
    ensures Is(s, i, c) && At(s, i + 1, b)
  {
    assert ([c] + b)[1..] == b;
  }

  lemma AtOne(s: string, i: nat, t: string)
    requires At(s, i, t) && |t| == 1
    ensures Is(s, i, t[0])
  {
  }

  lemma {:induction false} AtSlice(s: string, i: nat, t: string)
    ensures At(s, i, t) <==> i + |t| <= |s| && s[i..i + |t|] == t
    decreases |t|
  {
    if t != "" {
      AtSlice(s, i + 1, t[1..]);
      if i + |t| <= |s| {
        assert s[i..i + |t|] == [s[i]] + s[i + 1..i + |t|];
        assert t == [t[0]] + t[1..];
      }
    }
  }

  lemma Concat(a: string, b: string, c: string)
    ensures (a + b) + c == a + (b + c)
  {
  }

  lemma UnescapeOf(s: string, i: nat, c: char)
    requires At(s, i, EscapeChar(c)) && EscapeChar(c) != [c]
    ensures Is(s, i, '\\') && Unescape(s, i + 1) == Some((c, i + |EscapeChar(c)|))
  {
    var e := EscapeChar(c);
    assert e == ['\\'] + e[1..];
    AtHead(s, i, '\\', e[1..]);
    if |e| == 6 {
      AtSlice(s, i, e);
      var hi, lo := c as int / 16, c as int % 16;
      var four := s[i + 2..i + 6];
      assert four == s[i..i + 6][2..] == e[2..] == ['0', '0', HexDigit(hi), HexDigit(lo)];
      assert HexValue(HexDigit(hi)) == Some(hi) && HexValue(HexDigit(lo)) == Some(lo);
      assert CodeUnit(four) == Some(c);
    }
  }

  lemma CharOf(s: string, i: nat, c: char)
    requires At(s, i, EscapeChar(c)) && StringBody(s, i + |EscapeChar(c)|).Some?
    ensures
      var (rest, end) := StringBody(s, i + |EscapeChar(c)|).value;
      StringBody(s, i) == Some(([c] + rest, end))
  {
    if EscapeChar(c) != [c] {
      UnescapeOf(s, i, c);
    }
  }

  lemma EscapeCons(v: string)
    requires v != []
    ensures Escape(v) == EscapeChar(v[0]) + Escape(v[1..])
  {
  }

  lemma EmptyBodyOf(s: string, i: nat, v: string)
    requires v == "" && At(s, i, Escape(v) + "\"")
    ensures StringBody(s, i) == Some((v, i + |Escape(v)| + 1))
  {
    AtHead(s, i, '"', "");
  }

  lemma {:induction false} StringBodyOf(s: string, i: nat, v: string)
    requires At(s, i, Escape(v) + "\"")
    ensures StringBody(s, i) == Some((v, i + |Escape(v)| + 1))
    decreases |v|
  {
    hide *;
    if v == [] {
      EmptyBodyOf(s, i, v);
    } else {
      var e, rest := EscapeChar(v[0]), Escape(v[1..]);
      EscapeCons(v);
      Concat(e, rest, "\"");
      AtSplit(s, i, e, rest + "\"");
      StringBodyOf(s, i + |e|, v[1..]);
      CharOf(s, i, v[0]);
      assert v == [v[0]] + v[1..];
    }
  }

  lemma StringOf(s: string, i: nat, v: string)
    requires At(s, i, Quote(v))
    ensures String(s, i) == Some((v, i + |Quote(v)|))
  {
    AtHead(s, i, '"', Escape(v) + "\"");
    StringBodyOf(s, i + 1, v);
  }

  /** `Digits` reads a printed number and goes on behind it. */
  lemma {:induction false} DigitsOf(s: string, i: nat, n: nat)
    requires At(s, i, Decimal(n))
    ensures Digits(s, i, 0) == Digits(s, i + |Decimal(n)|, n)
    decreases n
  {
    var d := HexDigit(n % 10);
    assert d as int - '0' as int == n % 10;
    if n >= 10 {
      var front := Decimal(n / 10);
      AtSplit(s, i, front, [d]);
      DigitsOf(s, i, n / 10);
    }
  }

  lemma {:induction false} DecimalDigits(n: nat)
    ensures Decimal(n) != "" && forall k :: 0 <= k < |Decimal(n)| ==> IsDigit(Decimal(n)[k])
    ensures |Decimal(n)| > 1 ==> Decimal(n)[0] != '0'
  {
    if n >= 10 {
      DecimalDigits(n / 10);
    }
  }

  lemma NumberOf(s: string, i: nat, n: nat)
    requires At(s, i, Decimal(n))
    requires i + |Decimal(n)| == |s| || !IsDigit(s[i + |Decimal(n)|])
    ensures Number(s, i) == Some((n, i + |Decimal(n)|))
  {
    DecimalDigits(n);
    DigitsOf(s, i, n);
  }

  lemma PrintItemsCons(items: seq<Value>)
    requires items != []
    ensures PrintItems(items) == PrintValue(items[0]) + if |items| == 1 then "]" else "," + PrintItems(items[1..])
  {
  }

  lemma {:induction false} ItemsOf(s: string, i: nat, items: seq<Value>)
    requires items != [] && At(s, i, PrintItems(items))
    ensures Items(s, i) == Some((items, i + |PrintItems(items)|))
    decreases items, 1
  {
    hide *;
    var end := FirstItemOf(s, i, items);
    if |items| == 1 {
      ItemsLast(s, i, items);
    } else {
      ValueStart(s, end + 1, items[1..][0]);
      ItemsOf(s, end + 1, items[1..]);
      ItemsCons(s, i, items);
    }
  }

  lemma ItemsLast(s: string, i: nat, items: seq<Value>)
    requires |items| == 1 && i < |s| && ValueAt(s, i).Some? && ValueAt(s, i).value.0 == items[0]
    requires Is(s, ValueAt(s, i).value.1, ']')
    ensures Items(s, i) == Some((items, ValueAt(s, i).value.1 + 1))
  {
    hide ValueAt;
    assert items == [items[0]];
  }

  lemma ItemsCons(s: string, i: nat, items: seq<Value>)
    requires items != [] && i < |s| && ValueAt(s, i).Some? && ValueAt(s, i).value.0 == items[0]
    requires var j := ValueAt(s, i).value.1;
      Is(s, j, ',') && j + 1 < |s| && !IsBlank(s[j + 1]) && Items(s, j + 1).Some?
      && Items(s, j + 1).value.0 == items[1..]
    ensures Items(s, i) == Some((items, Items(s, ValueAt(s, i).value.1 + 1).value.1))
  {
    hide ValueAt;
    assert items == [items[0]] + items[1..];
  }

  lemma FirstItemOf(s: string, i: nat, items: seq<Value>) returns (end: nat)
    requires items != [] && At(s, i, PrintItems(items))
    ensures ValueAt(s, i) == Some((items[0], end))
    ensures |items| == 1 ==> Is(s, end, ']') && end + 1 == i + |PrintItems(items)|
    ensures |items| > 1 ==>
      && Is(s, end, ',') && At(s, end + 1, PrintItems(items[1..])) && At(s, end + 1, PrintValue(items[1]))
      && end + 1 + |PrintItems(items[1..])| == i + |PrintItems(items)|
    decreases items, 0
  {
    hide PrintValue, PrintItems, ValueAt, At;
    PrintItemsCons(items);
    var p := PrintValue(items[0]);
    AtSplit(s, i, p, if |items| == 1 then "]" else "," + PrintItems(items[1..]));
    end := i + |p|;
    if |items| == 1 {
      AtOne(s, end, "]");
    } else {
      AtHead(s, end, ',', PrintItems(items[1..]));
      PrintItemsCons(items[1..]);
      AtSplit(s, end + 1, PrintValue(items[1]), if |items| == 2 then "]" else "," + PrintItems(items[1..][1..]));
    }
    ValueOf(s, i, items[0]);
  }

  /** A printed value starts with a character that tells its kind and is no blank. */
  lemma ValueStart(s: string, i: nat, v: Value)
    requires At(s, i, PrintValue(v))
    ensures i < |s| && !IsBlank(s[i]) && s[i] != ']' && s[i] != '}'
    ensures (v.Str? <==> s[i] == '"') && (v.List? <==> s[i] == '[') && (v.Object? <==> s[i] == '{')
      && (v.Num? <==> IsDigit(s[i]))
  {
    if v.Num? {
      DecimalDigits(v.n);
    }
  }

  lemma ListOf(s: string, i: nat, items: seq<Value>)
    requires At(s, i, PrintValue(List(items)))
    ensures ListAt(s, i) == Some((items, i + |PrintValue(List(items))|))
    decreases items, 2
  {
    hide ValueAt, Items, PrintItems;
    var body := if items == [] then "]" else PrintItems(items);
    AtHead(s, i, '[', body);
    if items == [] {
      AtOne(s, i + 1, "]");
    } else {
      FirstValueStart(s, i + 1, items);
      ItemsOf(s, i + 1, items);
    }
  }

  lemma FirstValueStart(s: string, i: nat, items: seq<Value>)
    requires items != [] && At(s, i, PrintItems(items))
    ensures i < |s| && !IsBlank(s[i]) && s[i] != ']'
  {
    hide PrintValue, At;
    PrintItemsCons(items);
    AtSplit(s, i, PrintValue(items[0]), if |items| == 1 then "]" else "," + PrintItems(items[1..]));
    ValueStart(s, i, items[0]);
  }

  lemma WordOf(s: string, i: nat, v: Value)
    requires (v.Bool? || v.Null?) && At(s, i, PrintValue(v))
    ensures ValueAt(s, i) == Some((v, i + |PrintValue(v)|))
  {
    hide Number, At;
    AtSlice(s, i, PrintValue(v));
    ValueStart(s, i, v);
    WordLetters(s, i);
    AtLetter(s, i, PrintValue(v));
  }

  lemma AtLetter(s: string, i: nat, t: string)
    requires LiteralAt(s, i, t) && t != ""
    ensures i < |s| && s[i] == t[0]
  {
    assert s[i..i + |t|][0] == t[0];
  }

  lemma WordLetters(s: string, i: nat)
    requires i < |s|
    ensures LiteralAt(s, i, "true") ==> s[i] == 't'
    ensures LiteralAt(s, i, "false") ==> s[i] == 'f'
    ensures LiteralAt(s, i, "null") ==> s[i] == 'n'
  {
    hide LiteralAt;
    if LiteralAt(s, i, "true") {
      AtLetter(s, i, "true");
    }
    if LiteralAt(s, i, "false") {
      AtLetter(s, i, "false");
    }
    if LiteralAt(s, i, "null") {
      AtLetter(s, i, "null");
    }
  }

  lemma {:induction false} ValueOf(s: string, i: nat, v: Value)
    requires At(s, i, PrintValue(v))
    requires i + |PrintValue(v)| == |s| || !IsDigit(s[i + |PrintValue(v)|])
    ensures ValueAt(s, i) == Some((v, i + |PrintValue(v)|))
    decreases v
  {
    hide At, ListAt, ObjectAt, String, Number;
    ValueStart(s, i, v);
    match v {
      case Num(n) =>
        WordLetters(s, i);
        NumberOf(s, i, n);
      case Str(text) => StringOf(s, i, text);
      case List(items) => ListOf(s, i, items);
      case Object(members) => ObjectOf(s, i, members);
      case _ => WordOf(s, i, v);
    }
  }

  lemma MemberOf(s: string, i: nat, m: Member)
    requires At(s, i, PrintMember(m))
    requires i + |PrintMember(m)| == |s| || !IsDigit(s[i + |PrintMember(m)|])
    ensures MemberAt(s, i) == Some((m, i + |PrintMember(m)|))
    decreases m
  {
    hide PrintValue, Quote, At, String, ValueAt;
    var q, v := Quote(m.key), PrintValue(m.value);
    var j := i + |q|;
    AtSplit(s, i, q, ":" + v);
    AtHead(s, j, ':', v);
    StringOf(s, i, m.key);
    ValueStart(s, j + 1, m.value);
    ValueOf(s, j + 1, m.value);
  }

  lemma PrintMembersCons(ms: seq<Member>)
    requires ms != []
    ensures PrintMembers(ms) == PrintMember(ms[0]) + if |ms| == 1 then "" else "," + PrintMembers(ms[1..])
  {
  }

  lemma MemberStart(s: string, i: nat, m: Member)
    requires At(s, i, PrintMember(m))
    ensures Is(s, i, '"')
  {
    AtSplit(s, i, Quote(m.key), ":" + PrintValue(m.value));
    AtHead(s, i, '"', Escape(m.key) + "\"");
  }

  lemma {:induction false} MembersOf(s: string, i: nat, ms: seq<Member>)
    requires ms != [] && At(s, i, PrintMembers(ms) + "}")
    ensures Members(s, i) == Some((ms, i + |PrintMembers(ms)| + 1))
    decreases ms, 1
  {
    hide *;
    var end := FirstMemberOf(s, i, ms);
    if |ms| == 1 {
      MembersLast(s, i, ms);
    } else {
      MembersOf(s, end + 1, ms[1..]);
      MembersCons(s, i, ms);
    }
  }

  lemma FirstMemberOf(s: string, i: nat, ms: seq<Member>) returns (end: nat)
    requires ms != [] && At(s, i, PrintMembers(ms) + "}")
    ensures MemberAt(s, i) == Some((ms[0], end))
    ensures |ms| == 1 ==> Is(s, end, '}') && end == i + |PrintMembers(ms)|
    ensures |ms| > 1 ==>
      && Is(s, end, ',') && Is(s, end + 1, '"') && At(s, end + 1, PrintMembers(ms[1..]) + "}")
      && end + 1 + |PrintMembers(ms[1..])| == i + |PrintMembers(ms)|
    decreases ms, 0
  {
    hide PrintMembers, PrintMember, MemberAt, At;
    PrintMembersCons(ms);
    var p := PrintMember(ms[0]);
    end := i + |p|;
    if |ms| == 1 {
      assert p + "" == p;
      AtSplit(s, i, p, "}");
      AtOne(s, end, "}");
    } else {
      AtList(s, i, p, PrintMembers(ms[1..]));
      FirstQuote(s, end + 1, ms[1..]);
    }
    MemberOf(s, i, ms[0]);
  }

  lemma FirstQuote(s: string, i: nat, ms: seq<Member>)
    requires ms != [] && At(s, i, PrintMembers(ms) + "}")
    ensures Is(s, i, '"')
  {
    hide PrintMember, At;
    PrintMembersCons(ms);
    var more := if |ms| == 1 then "" else "," + PrintMembers(ms[1..]);
    Concat(PrintMember(ms[0]), more, "}");
    AtSplit(s, i, PrintMember(ms[0]), more + "}");
    MemberStart(s, i, ms[0]);
  }

  lemma MembersLast(s: string, i: nat, ms: seq<Member>)
    requires |ms| == 1 && i < |s| && MemberAt(s, i).Some? && MemberAt(s, i).value.0 == ms[0]
    requires Is(s, MemberAt(s, i).value.1, '}')
    ensures Members(s, i) == Some((ms, MemberAt(s, i).value.1 + 1))
  {
    hide MemberAt;
    assert ms == [ms[0]];
  }

  lemma MembersCons(s: string, i: nat, ms: seq<Member>)
    requires ms != [] && i < |s| && MemberAt(s, i).Some? && MemberAt(s, i).value.0 == ms[0]
    requires var j := MemberAt(s, i).value.1;
      Is(s, j, ',') && Is(s, j + 1, '"') && Members(s, j + 1).Some? && Members(s, j + 1).value.0 == ms[1..]
    ensures Members(s, i) == Some((ms, Members(s, MemberAt(s, i).value.1 + 1).value.1))
  {
    hide MemberAt;
    assert ms == [ms[0]] + ms[1..];
  }

  lemma AtList(s: string, i: nat, p: string, more: string)
    requires At(s, i, p + ("," + more) + "}")
    ensures At(s, i, p) && Is(s, i + |p|, ',') && At(s, i + |p| + 1, more + "}")
  {
    Concat(p, "," + more, "}");
    Concat(",", more, "}");
    AtSplit(s, i, p, "," + (more + "}"));
    AtHead(s, i + |p|, ',', more + "}");
  }

  lemma ObjectOf(s: string, i: nat, ms: seq<Member>)
    requires At(s, i, Print(ms))
    ensures ObjectAt(s, i) == Some((ms, i + |Print(ms)|))
    decreases ms, 2
  {
    hide Members, PrintMembers, At;
    AtHead(s, i, '{', (if ms == [] then "" else PrintMembers(ms)) + "}");
    if ms == [] {
      assert "" + "}" == "}";
      AtOne(s, i + 1, "}");
    } else {
      FirstQuote(s, i + 1, ms);
      MembersOf(s, i + 1, ms);
    }
  }

  /** Every object printed is read back as it was. */
  lemma DocumentOf(ms: seq<Member>)
    ensures Document(Print(ms)) == Some(ms)
    ensures ObjectAt(Print(ms), 0) == Some((ms, |Print(ms)|)) && Skip(Print(ms), 0) == 0
  {
    hide At;
    var s := Print(ms);
    AtSlice(s, 0, s);
    ObjectOf(s, 0, ms);
  }

  // --- a reader depends on what it has read, and on one character more ----------

  ghost predicate Agree(s: string, t: string, n: nat) {
    n <= |s| && n <= |t| && s[..n] == t[..n]
  }

  lemma AgreeAt(s: string, t: string, n: nat, i: nat)
    requires Agree(s, t, n) && i < n
    ensures i < |s| && i < |t| && s[i] == t[i]
  {
    assert s[..n][i] == t[..n][i];
  }

  lemma AgreeLess(s: string, t: string, n: nat, m: nat)
    requires Agree(s, t, n) && m <= n
    ensures Agree(s, t, m)
  {
    assert s[..m] == s[..n][..m] && t[..m] == t[..n][..m];
  }

  lemma UnescapeSame(s: string, t: string, i: nat)
    requires i <= |s| && Unescape(s, i).Some? && Agree(s, t, Unescape(s, i).value.1)
    ensures Unescape(t, i) == Unescape(s, i)
  {
    var n := Unescape(s, i).value.1;
    AgreeAt(s, t, n, i);
    if s[i] == 'u' {
      assert s[i + 1..i + 5] == s[..n][i + 1..] && t[i + 1..i + 5] == t[..n][i + 1..];
    }
  }

  lemma {:induction false} StringBodySame(s: string, t: string, i: nat)
    requires i <= |s| && StringBody(s, i).Some? && Agree(s, t, StringBody(s, i).value.1)
    ensures StringBody(t, i) == StringBody(s, i)
    decreases |s| - i
  {
    var n := StringBody(s, i).value.1;
    AgreeAt(s, t, n, i);
    if s[i] != '"' {
      var j := if s[i] == '\\' then Unescape(s, i + 1).value.1 else i + 1;
      AgreeLess(s, t, n, j);
      if s[i] == '\\' {
        UnescapeSame(s, t, i + 1);
      }
      StringBodySame(s, t, j);
    }
  }

  lemma StringSame(s: string, t: string, i: nat)
    requires i <= |s| && String(s, i).Some? && Agree(s, t, String(s, i).value.1)
    ensures String(t, i) == String(s, i)
  {
    AgreeAt(s, t, String(s, i).value.1, i);
    StringBodySame(s, t, i + 1);
  }

  lemma {:induction false} DigitsSame(s: string, t: string, i: nat, acc: nat)
    requires i <= |s| && i <= |t|
    requires var n := Digits(s, i, acc).1; Agree(s, t, n) && (n < |t| ==> !IsDigit(t[n]))
    ensures Digits(t, i, acc) == Digits(s, i, acc)
    decreases |s| - i
  {
    if i < |s| && IsDigit(s[i]) {
      AgreeAt(s, t, Digits(s, i, acc).1, i);
      DigitsSame(s, t, i + 1, 10 * acc + (s[i] as int - '0' as int));
    }
  }

  lemma NumberSame(s: string, t: string, i: nat)
    requires i <= |s| && Number(s, i).Some?
    requires var n := Number(s, i).value.1; Agree(s, t, n) && (n < |t| ==> !IsDigit(t[n]))
    ensures Number(t, i) == Number(s, i)
  {
    var n := Number(s, i).value.1;
    AgreeAt(s, t, n, i);
    if i + 1 < n {
      AgreeAt(s, t, n, i + 1);
    }
    DigitsSame(s, t, i, 0);
  }

  lemma {:induction false} SkipSame(s: string, t: string, i: nat)
    requires i <= |s| && i <= |t|
    requires var j := Skip(s, i); Agree(s, t, j) && (j < |t| ==> !IsBlank(t[j]))
    ensures Skip(t, i) == Skip(s, i)
    decreases |s| - i
  {
    if i < Skip(s, i) {
      AgreeAt(s, t, Skip(s, i), i);
      SkipSame(s, t, i + 1);
    }
  }

  /** The same when more than the blanks agrees. */
  lemma SkipWithin(s: string, t: string, i: nat, n: nat)
    requires i <= |s| && Agree(s, t, n) && Skip(s, i) < n
    ensures Skip(s, i) < |t| && Skip(t, i) == Skip(s, i) && s[Skip(s, i)] == t[Skip(s, i)]
  {
    AgreeLess(s, t, n, Skip(s, i));
    AgreeAt(s, t, n, Skip(s, i));
    SkipSame(s, t, i);
  }

  lemma LiteralSame(s: string, t: string, i: nat, n: nat, w: string)
    requires Agree(s, t, n) && i < n && w != ""
    ensures LiteralAt(s, i, w) && i + |w| <= n ==> LiteralAt(t, i, w)
    ensures s[i] != w[0] ==> !LiteralAt(s, i, w) && !LiteralAt(t, i, w)
  {
    AgreeAt(s, t, n, i);
    if i + |w| <= n {
      assert s[i..i + |w|] == s[..n][i..i + |w|] && t[i..i + |w|] == t[..n][i..i + |w|];
    }
    assert i + |w| <= |s| ==> s[i..i + |w|][0] == s[i];
    assert i + |w| <= |t| ==> t[i..i + |w|][0] == t[i];
  }

  /** Behind a value inside a list or object both texts go on alike, and with no digit. */
  lemma Behind(s: string, t: string, end: nat, n: nat)
    requires end <= |s| && Agree(s, t, n) && Skip(s, end) < n && !IsDigit(s[Skip(s, end)])
    ensures Agree(s, t, end) && end < |t| && !IsDigit(t[end])
    ensures end <= |t|
    ensures Skip(s, end) < |t| && Skip(t, end) == Skip(s, end) && t[Skip(s, end)] == s[Skip(s, end)]
  {
    AgreeLess(s, t, n, end);
    AgreeAt(s, t, n, end);
    SkipWithin(s, t, end, n);
  }

  /** Where the list goes on behind its first item. */
  lemma ItemsFirst(s: string, i: nat)
    requires i <= |s| && Items(s, i).Some?
    ensures ValueAt(s, i).Some?
    ensures
      var j := Skip(s, ValueAt(s, i).value.1);
      && j < Items(s, i).value.1 && j < |s| && (s[j] == ']' || s[j] == ',')
      && (s[j] == ',' ==> var k := Skip(s, j + 1);
        k < Items(s, i).value.1 && Items(s, k).Some? && Items(s, k).value.1 == Items(s, i).value.1)
  {
    hide ValueAt;
  }

  lemma ItemsAlike(s: string, t: string, i: nat)
    requires i <= |s| && i <= |t| && Items(s, i).Some? && ValueAt(t, i) == ValueAt(s, i) && ValueAt(s, i).Some?
    requires
      var end := ValueAt(s, i).value.1;
      var j := Skip(s, end);
      && end <= |t| && Skip(t, end) == j && j < |t| && j < |s| && t[j] == s[j]
      && (s[j] == ',' ==> var k := Skip(s, j + 1); Skip(t, j + 1) == k && k <= |t| && Items(t, k) == Items(s, k))
    ensures Items(t, i) == Items(s, i)
  {
    hide ValueAt, Skip;
  }

  lemma {:induction false} ItemsSame(s: string, t: string, i: nat)
    requires i <= |s| && Items(s, i).Some? && Agree(s, t, Items(s, i).value.1)
    ensures Items(t, i) == Items(s, i)
    decreases |s| - i, 2
  {
    hide *;
    ItemsFirst(s, i);
    var n, end := Items(s, i).value.1, ValueAt(s, i).value.1;
    var j := Skip(s, end);
    NoDigit(s[j]);
    Behind(s, t, end, n);
    ValueSame(s, t, i);
    if s[j] == ',' {
      SkipWithin(s, t, j + 1, n);
      ItemsSame(s, t, Skip(s, j + 1));
    }
    ItemsAlike(s, t, i);
  }

  lemma NoDigit(c: char)
    requires c in {',', ']', '}'}
    ensures !IsDigit(c)
  {
  }

  lemma ListSame(s: string, t: string, i: nat)
    requires i <= |s| && ListAt(s, i).Some? && Agree(s, t, ListAt(s, i).value.1)
    ensures ListAt(t, i) == ListAt(s, i)
    decreases |s| - i, 0
  {
    hide Items, Agree;
    var n := ListAt(s, i).value.1;
    AgreeAt(s, t, n, i);
    SkipWithin(s, t, i + 1, n);
    var j := Skip(s, i + 1);
    if s[j] != ']' {
      ItemsSame(s, t, j);
    }
  }

  lemma {:induction false} ValueSame(s: string, t: string, i: nat)
    requires i <= |s| && ValueAt(s, i).Some?
    requires var n := ValueAt(s, i).value.1; Agree(s, t, n) && (n < |t| ==> !IsDigit(t[n]))
    ensures ValueAt(t, i) == ValueAt(s, i)
    decreases |s| - i, 1
  {
    hide Agree, LiteralAt, ListAt, ObjectAt, String, Number;
    var n := ValueAt(s, i).value.1;
    AgreeAt(s, t, n, i);
    if s[i] == '"' {
      StringSame(s, t, i);
    } else if s[i] == '[' {
      ListSame(s, t, i);
    } else if s[i] == '{' {
      ObjectSame(s, t, i);
    } else {
      WordSame(s, t, i);
    }
  }

  lemma WordSame(s: string, t: string, i: nat)
    requires i < |s| && ValueAt(s, i).Some? && s[i] !in {'"', '[', '{'}
    requires var n := ValueAt(s, i).value.1; Agree(s, t, n) && (n < |t| ==> !IsDigit(t[n]))
    ensures ValueAt(t, i) == ValueAt(s, i)
  {
    hide Agree, LiteralAt, Number;
    var n := ValueAt(s, i).value.1;
    AgreeAt(s, t, n, i);
    LiteralSame(s, t, i, n, "true");
    LiteralSame(s, t, i, n, "false");
    LiteralSame(s, t, i, n, "null");
    WordLetters(s, i);
    if ValueAt(s, i).value.0.Num? {
      NumberStart(s, i);
      NumberSame(s, t, i);
    }
  }

  lemma NumberStart(s: string, i: nat)
    requires i <= |s| && Number(s, i).Some?
    ensures i < |s| && IsDigit(s[i])
  {
  }

  lemma MemberSame(s: string, t: string, i: nat)
    requires i <= |s| && MemberAt(s, i).Some?
    requires var n := MemberAt(s, i).value.1; Agree(s, t, n) && (n < |t| ==> !IsDigit(t[n]))
    ensures MemberAt(t, i) == MemberAt(s, i)
    decreases |s| - i, 0
  {
    hide Agree, String, ValueAt;
    var n := MemberAt(s, i).value.1;
    var end := String(s, i).value.1;
    var j := Skip(s, end);
    AgreeLess(s, t, n, end);
    StringSame(s, t, i);
    SkipWithin(s, t, end, n);
    SkipWithin(s, t, j + 1, n);
    ValueSame(s, t, Skip(s, j + 1));
  }

  /** Where the object goes on behind its first member. */
  lemma MembersFirst(s: string, i: nat)
    requires i <= |s| && Members(s, i).Some?
    ensures MemberAt(s, i).Some?
    ensures
      var j := Skip(s, MemberAt(s, i).value.1);
      && j < Members(s, i).value.1 && j < |s| && (s[j] == '}' || s[j] == ',')
      && (j == Members(s, i).value.1 - 1 ==> Members(s, i).value.0 == [MemberAt(s, i).value.0])
      && (s[j] == ',' ==> var k := Skip(s, j + 1);
        k < Members(s, i).value.1 && Members(s, k).Some? && Members(s, k).value.1 == Members(s, i).value.1)
  {
    hide MemberAt;
  }

  lemma MembersAlike(s: string, t: string, i: nat)
    requires i <= |s| && i <= |t| && Members(s, i).Some? && MemberAt(t, i) == MemberAt(s, i) && MemberAt(s, i).Some?
    requires
      var end := MemberAt(s, i).value.1;
      var j := Skip(s, end);
      && end <= |t| && Skip(t, end) == j && j < |t| && j < |s| && t[j] == s[j]
      && (s[j] == ',' ==> var k := Skip(s, j + 1); Skip(t, j + 1) == k && k <= |t| && Members(t, k) == Members(s, k))
    ensures Members(t, i) == Members(s, i)
  {
    hide MemberAt, Skip;
  }

  lemma {:induction false} MembersSame(s: string, t: string, i: nat)
    requires i <= |s| && Members(s, i).Some? && Agree(s, t, Members(s, i).value.1)
    ensures Members(t, i) == Members(s, i)
    decreases |s| - i, 1
  {
    hide *;
    MembersFirst(s, i);
    var n, end := Members(s, i).value.1, MemberAt(s, i).value.1;
    var j := Skip(s, end);
    NoDigit(s[j]);
    Behind(s, t, end, n);
    MemberSame(s, t, i);
    if s[j] == ',' {
      SkipWithin(s, t, j + 1, n);
      MembersSame(s, t, Skip(s, j + 1));
    }
    MembersAlike(s, t, i);
  }

  lemma ObjectSame(s: string, t: string, i: nat)
    requires i <= |s| && ObjectAt(s, i).Some? && Agree(s, t, ObjectAt(s, i).value.1)
    ensures ObjectAt(t, i) == ObjectAt(s, i)
    decreases |s| - i, 0
  {
    hide Members, Agree;
    var n := ObjectAt(s, i).value.1;
    AgreeAt(s, t, n, i);
    SkipWithin(s, t, i + 1, n);
    var j := Skip(s, i + 1);
    if s[j] != '}' {
      MembersSame(s, t, j);
    }
  }

  /**
   * Where one text closes the object and the other goes on with a comma, the
   * members read so far are the same.
   */
  lemma {:induction false} MembersGoOn(s: string, t: string, i: nat) returns (more: seq<Member>)
    requires i <= |s| && Members(s, i).Some?
    requires var n := Members(s, i).value.1; Agree(s, t, n - 1) && Is(t, n - 1, ',')
    requires i <= |t| && Members(t, i).Some?
    ensures Members(t, i).value.0 == Members(s, i).value.0 + more
    decreases |s| - i
  {
    hide *;
    var n := Members(s, i).value.1;
    MembersFirst(s, i);
    var m := MemberAt(s, i).value.0;
    var j := Skip(s, MemberAt(s, i).value.1);
    SameFirst(s, t, i, n);
    MembersNext(t, i);
    if j < n - 1 {
      MembersNext(s, i);
      var k := Skip(s, j + 1);
      SkipWithin(s, t, j + 1, n - 1);
      more := MembersGoOn(s, t, k);
      Regroup([m], Members(s, k).value.0, more);
    } else {
      more := Members(t, Skip(t, j + 1)).value.0;
    }
  }

  lemma Regroup<T>(a: seq<T>, b: seq<T>, c: seq<T>)
    ensures a + (b + c) == (a + b) + c
  {
  }

  lemma MembersNext(s: string, i: nat)
    requires i <= |s| && Members(s, i).Some?
    requires var j := Skip(s, MemberAt(s, i).value.1); j < Members(s, i).value.1 - 1 || Is(s, j, ',')
    ensures
      var j := Skip(s, MemberAt(s, i).value.1);
      && Is(s, j, ',') && Members(s, Skip(s, j + 1)).Some?
      && Members(s, i).value == ([MemberAt(s, i).value.0] + Members(s, Skip(s, j + 1)).value.0,
        Members(s, Skip(s, j + 1)).value.1)
  {
    hide MemberAt;
  }

  lemma SameFirst(s: string, t: string, i: nat, n: nat)
    requires i <= |s| && Members(s, i).Some? && n == Members(s, i).value.1
    requires Agree(s, t, n - 1) && Is(t, n - 1, ',')
    ensures MemberAt(t, i) == MemberAt(s, i)
    ensures var j := Skip(s, MemberAt(s, i).value.1); Skip(t, MemberAt(s, i).value.1) == j && Is(t, j, ',')
  {
    hide MemberAt, Agree, Skip;
    var end := MemberAt(s, i).value.1;
    var j := Skip(s, end);
    if j < n - 1 {
      Behind(s, t, end, n - 1);
    } else {
      AgreeLess(s, t, n - 1, end);
      SkipSame(s, t, end);
      if end < j {
        AgreeAt(s, t, n - 1, end);
      }
    }
    MemberSame(s, t, i);
  }

  /** Of two documents one of which starts the other, both say the same. */
  lemma PrefixDocument(s: string, k: nat)
    requires Document(s).Some? && k <= |s| && Document(s[..k]).Some?
    ensures Document(s[..k]) == Document(s)
    ensures Skip(s[..k], 0) == Skip(s, 0) && ObjectAt(s[..k], Skip(s, 0)) == ObjectAt(s, Skip(s, 0))
  {
    hide ObjectAt, Agree;
    var p := s[..k];
    PrefixAgrees(s, k);
    ObjectStart(p);
    SkipWithin(p, s, 0, k);
    AgreeLess(p, s, k, ObjectAt(p, Skip(p, 0)).value.1);
    ObjectSame(p, s, Skip(p, 0));
  }

  lemma PrefixAgrees(s: string, k: nat)
    requires k <= |s|
    ensures Agree(s[..k], s, k)
  {
  }

  lemma ObjectStart(s: string)
    requires Document(s).Some?
    ensures Is(s, Skip(s, 0), '{')
  {
  }
}
