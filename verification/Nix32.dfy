/**
 * Nix's base32, bit by bit: bytes and symbols both give their bits least
 * significant first, and the text is written back to front.
 */
module Nix32 {
  import opened Wrappers

  type Byte = n: nat | n < 256

  type Symbol = n: nat | n < 32

  // --- bits ------------------------------------------------------------------

  function Pow2(w: nat): (p: nat)
    ensures p > 0
  {
    if w == 0 then 1 else 2 * Pow2(w - 1)
  }

  /** The `w` lowest bits, lowest first. */
  function ToBits(n: nat, w: nat): (bits: seq<bool>)
    ensures |bits| == w
  {
    if w == 0 then [] else [n % 2 == 1] + ToBits(n / 2, w - 1)
  }

  function FromBits(bits: seq<bool>): (n: nat)
    ensures n < Pow2(|bits|)
  {
    if bits == [] then 0 else (if bits[0] then 1 else 0) + 2 * FromBits(bits[1..])
  }

  lemma {:induction false} FromToBits(n: nat, w: nat)
    requires n < Pow2(w)
    ensures FromBits(ToBits(n, w)) == n
  {
    if w > 0 {
      FromToBits(n / 2, w - 1);
      assert ToBits(n, w)[1..] == ToBits(n / 2, w - 1);
    }
  }

  lemma {:induction false} ToFromBits(bits: seq<bool>)
    ensures ToBits(FromBits(bits), |bits|) == bits
  {
    if bits != [] {
      ToFromBits(bits[1..]);
      assert bits == [bits[0]] + bits[1..];
    }
  }

  predicate Zeros(bits: seq<bool>) {
    forall k :: 0 <= k < |bits| ==> !bits[k]
  }

  lemma {:induction false} FromBitsPadded(bits: seq<bool>, pad: seq<bool>)
    requires Zeros(pad)
    ensures FromBits(bits + pad) == FromBits(bits)
    decreases |bits| + |pad|
  {
    if bits == [] {
      assert bits + pad == pad;
      if pad != [] {
        FromBitsPadded([], pad[1..]);
        assert [] + pad[1..] == pad[1..];
      }
    } else {
      assert (bits + pad)[1..] == bits[1..] + pad;
      FromBitsPadded(bits[1..], pad);
    }
  }

  /** How long a row of `k` units of `w` bits is. */
  function Width(k: nat, w: nat): (n: nat) {
    if k == 0 then 0 else w + Width(k - 1, w)
  }

  lemma {:induction false} WidthIs(k: nat)
    ensures Width(k, 5) == 5 * k && Width(k, 8) == 8 * k
  {
    if k > 0 {
      WidthIs(k - 1);
    }
  }

  /** Units of `w` bits as one row of bits. */
  function Stream(units: seq<nat>, w: nat): (bits: seq<bool>)
    ensures |bits| == Width(|units|, w)
  {
    if units == [] then [] else ToBits(units[0], w) + Stream(units[1..], w)
  }

  /** A row of bits cut into units; the last one may be short, its missing high bits count as zero. */
  function Chunk(bits: seq<bool>, w: nat): (units: seq<nat>)
    requires w > 0
    ensures forall k :: 0 <= k < |units| ==> units[k] < Pow2(w)
    decreases |bits|
  {
    if bits == [] then []
    else if |bits| < w then
      Pow2Grows(|bits|, w);
      [FromBits(bits)]
    else [FromBits(bits[..w])] + Chunk(bits[w..], w)
  }

  lemma {:induction false} Pow2Grows(v: nat, w: nat)
    requires v <= w
    ensures Pow2(v) <= Pow2(w)
    decreases w - v
  {
    if v < w {
      Pow2Grows(v, w - 1);
    }
  }

  /** Full units come back as they were. */
  lemma {:induction false} ChunkStream(units: seq<nat>, w: nat)
    requires w > 0 && forall k :: 0 <= k < |units| ==> units[k] < Pow2(w)
    ensures Chunk(Stream(units, w), w) == units
  {
    if units != [] {
      ChunkStream(units[1..], w);
      FromToBits(units[0], w);
      StreamFirst(units, w);
      var bits := Stream(units, w);
      ChunkFirst(bits, w);
      hide Stream, Chunk, ToBits, FromBits;
      assert bits[..w] == ToBits(units[0], w) && bits[w..] == Stream(units[1..], w);
    }
  }

  lemma StreamFirst(units: seq<nat>, w: nat)
    requires units != []
    ensures Stream(units, w) == ToBits(units[0], w) + Stream(units[1..], w)
    ensures Width(|units|, w) == w + Width(|units| - 1, w)
    ensures units == [units[0]] + units[1..]
  {
    hide ToBits;
    assert |units[1..]| == |units| - 1;
  }

  lemma ChunkFirst(bits: seq<bool>, w: nat)
    requires 0 < w <= |bits|
    ensures Chunk(bits, w) == [FromBits(bits[..w])] + Chunk(bits[w..], w)
  {
    hide FromBits;
  }

  /** Cutting keeps every bit and adds fewer than `w` zeros. */
  lemma {:induction false} StreamChunk(bits: seq<bool>, w: nat)
    requires w > 0
    ensures
      var s := Stream(Chunk(bits, w), w);
      |bits| <= |s| < |bits| + w && s[..|bits|] == bits && Zeros(s[|bits|..])
    decreases |bits|
  {
    if |bits| >= w {
      ChunkFirst(bits, w);
      StreamChunk(bits[w..], w);
      ToFromBits(bits[..w]);
      StreamFirst(Chunk(bits, w), w);
      hide Stream, Chunk, ToBits, FromBits, Zeros;
      var rest := Stream(Chunk(bits[w..], w), w);
      assert Chunk(bits, w)[1..] == Chunk(bits[w..], w);
      Rejoined(bits, Stream(Chunk(bits, w), w), rest, w);
    } else if bits != [] {
      StreamShort(bits, w);
    }
  }

  lemma StreamShort(bits: seq<bool>, w: nat)
    requires 0 < |bits| < w
    ensures Stream(Chunk(bits, w), w) == bits + seq(w - |bits|, _ => false)
  {
    hide FromBits, ToBits;
    var pad := seq(w - |bits|, _ => false);
    FromBitsPadded(bits, pad);
    ToFromBits(bits + pad);
    assert Chunk(bits, w) == [FromBits(bits)];
    StreamFirst([FromBits(bits)], w);
    assert [FromBits(bits)][1..] == [];
  }

  lemma Rejoined(bits: seq<bool>, s: seq<bool>, rest: seq<bool>, w: nat)
    requires w <= |bits| && s == bits[..w] + rest
    requires |bits[w..]| <= |rest| < |bits[w..]| + w
    requires rest[..|bits[w..]|] == bits[w..] && Zeros(rest[|bits[w..]|..])
    ensures |bits| <= |s| < |bits| + w && s[..|bits|] == bits && Zeros(s[|bits|..])
  {
    assert bits == bits[..w] + bits[w..];
    assert s[|bits|..] == rest[|bits| - w..];
  }

  lemma ChunkOne(unit: nat, w: nat, n: nat)
    requires 0 < n < w && unit < Pow2(w) && Zeros(ToBits(unit, w)[n..])
    ensures Chunk(ToBits(unit, w)[..n], w) == [unit]
  {
    var bits := ToBits(unit, w);
    FromToBits(unit, w);
    FromBitsPadded(bits[..n], bits[n..]);
    assert bits == bits[..n] + bits[n..];
  }

  lemma TwoUnits(w: nat, k: nat)
    requires k >= 2
    ensures Width(k, w) >= 2 * w
  {
    assert Width(k, w) == w + (w + Width(k - 2, w));
  }

  lemma AtMostOne(w: nat, k: nat)
    requires w > 0 && Width(k, w) < 2 * w
    ensures k <= 1
  {
    if k >= 2 {
      TwoUnits(w, k);
    }
  }

  /** A short end of zeros can be left off without changing the units. */
  lemma {:induction false} ChunkShort(units: seq<nat>, w: nat, n: nat)
    requires w > 0 && forall k :: 0 <= k < |units| ==> units[k] < Pow2(w)
    requires n <= Width(|units|, w) < n + w && Zeros(Stream(units, w)[n..])
    ensures Chunk(Stream(units, w)[..n], w) == units
  {
    hide Zeros, ToBits, FromBits, Pow2;
    if units != [] {
      StreamFirst(units, w);
      var bits, head, rest := Stream(units, w), ToBits(units[0], w), Stream(units[1..], w);
      if n < w {
        AtMostOne(w, |units|);
        hide Stream, Chunk, Width;
        assert units[1..] == [];
        StreamNone(w);
        assert bits == head;
        ChunkOne(units[0], w, n);
      } else {
        hide Stream, Width;
        FromToBits(units[0], w);
        assert bits[n..] == rest[n - w..];
        ChunkShort(units[1..], w, n - w);
        ChunkFirst(bits[..n], w);
        hide Chunk;
        assert bits[..n][..w] == head && bits[..n][w..] == rest[..n - w];
      }
    }
  }

  lemma StreamNone(w: nat)
    ensures Stream([], w) == []
  {
  }

  // --- the alphabet ------------------------------------------------------------

  const ALPHABET := "0123456789abcdfghijklmnpqrsvwxyz"

  function Letter(n: Symbol): char {
    if n < 10 then '0' + n as char
    else if n < 14 then 'a' + (n - 10) as char
    else if n < 23 then 'f' + (n - 14) as char
    else if n < 27 then 'p' + (n - 23) as char
    else 'v' + (n - 27) as char
  }

  function Index(c: char): Option<Symbol> {
    if '0' <= c <= '9' then Some(c as int - '0' as int)
    else if 'a' <= c <= 'd' then Some(c as int - 'a' as int + 10)
    else if 'f' <= c <= 'n' then Some(c as int - 'f' as int + 14)
    else if 'p' <= c <= 's' then Some(c as int - 'p' as int + 23)
    else if 'v' <= c <= 'z' then Some(c as int - 'v' as int + 27)
    else None
  }

  lemma AlphabetLetters(n: Symbol)
    ensures |ALPHABET| == 32 && Letter(n) == ALPHABET[n]
    ensures Index(Letter(n)) == Some(n)
  {
  }

  /** The letters of `symbols`, last symbol first. */
  function Letters(symbols: seq<nat>): (s: string)
    requires forall k :: 0 <= k < |symbols| ==> symbols[k] < 32
    ensures |s| == |symbols|
  {
    if symbols == [] then [] else Letters(symbols[1..]) + [Letter(symbols[0])]
  }

  function Symbols(s: string): (r: Option<seq<nat>>)
    ensures r.Some? ==> |r.value| == |s| && forall k :: 0 <= k < |s| ==> r.value[k] < 32
  {
    if s == [] then Some([])
    else
      match (Index(s[|s| - 1]), Symbols(s[..|s| - 1]))
      case (Some(n), Some(rest)) => Some([n] + rest)
      case _ => None
  }

  lemma {:induction false} SymbolsOfLetters(symbols: seq<nat>)
    requires forall k :: 0 <= k < |symbols| ==> symbols[k] < 32
    ensures Symbols(Letters(symbols)) == Some(symbols)
  {
    if symbols != [] {
      var s := Letters(symbols);
      SymbolsOfLetters(symbols[1..]);
      AlphabetLetters(symbols[0]);
      assert s[..|s| - 1] == Letters(symbols[1..]);
      assert symbols == [symbols[0]] + symbols[1..];
    }
  }

  lemma {:induction false} LettersOfSymbols(s: string)
    requires Symbols(s).Some?
    ensures Letters(Symbols(s).value) == s
  {
    if s != [] {
      LettersOfSymbols(s[..|s| - 1]);
      assert Symbols(s).value[1..] == Symbols(s[..|s| - 1]).value;
      assert s == s[..|s| - 1] + [s[|s| - 1]];
    }
  }

  // --- the codec -----------------------------------------------------------------

  function Encode(bytes: seq<Byte>): string {
    assert Pow2(5) == 32;
    Letters(Chunk(Stream(bytes, 8), 5))
  }

  /** Bits past the last whole byte must be fewer than a symbol's, and zero. */
  function DecodeBits(bits: seq<bool>): Option<seq<Byte>> {
    var n := 8 * (|bits| / 8);
    if |bits| - n >= 5 || !Zeros(bits[n..]) then None
    else
      assert Pow2(8) == 256;
      Some(Chunk(bits[..n], 8))
  }

  function Decode(s: string, len: nat): Option<seq<Byte>> {
    match Symbols(s)
    case None => None
    case Some(symbols) =>
      match DecodeBits(Stream(symbols, 5))
      case None => None
      case Some(bytes) => if |bytes| == len then Some(bytes) else None
  }

  /** Decoding undoes encoding. */
  lemma DecodeEncode(bytes: seq<Byte>)
    ensures Decode(Encode(bytes), |bytes|) == Some(bytes)
  {
    hide Stream, Chunk, Letters, Symbols, DecodeBits, Width;
    Powers();
    hide Pow2;
    var bits := Stream(bytes, 8);
    var symbols := Chunk(bits, 5);
    SymbolsOfLetters(symbols);
    StreamChunk(bits, 5);
    ChunkStream(bytes, 8);
    WidthIs(|bytes|);
    DecodeWhole(bits, Stream(symbols, 5), |bytes|);
  }

  lemma Powers()
    ensures Pow2(5) == 32 && Pow2(8) == 256
  {
  }

  /** Whole bytes and fewer than five zeros behind them decode to those bytes. */
  lemma DecodeWhole(bits: seq<bool>, s: seq<bool>, n: nat)
    requires |bits| == 8 * n && |bits| <= |s| < |bits| + 5
    requires s[..|bits|] == bits && Zeros(s[|bits|..])
    ensures DecodeBits(s) == Some(Chunk(bits, 8))
  {
    hide Zeros, Chunk;
    assert |s| / 8 == n;
  }

  /** Every accepted text is the encoding of what it decodes to, so no two texts decode to the same bytes. */
  lemma EncodeDecode(s: string, len: nat)
    requires Decode(s, len).Some?
    ensures |Decode(s, len).value| == len && Encode(Decode(s, len).value) == s
  {
    hide Stream, Chunk, Letters, Symbols, DecodeBits, Width;
    Powers();
    hide Pow2;
    var symbols := Symbols(s).value;
    LettersOfSymbols(s);
    var n := DecodedBits(Stream(symbols, 5));
    ChunkShort(symbols, 5, n);
  }

  lemma DecodedBits(bits: seq<bool>) returns (n: nat)
    requires DecodeBits(bits).Some?
    ensures n <= |bits| < n + 5 && Zeros(bits[n..])
    ensures Stream(DecodeBits(bits).value, 8) == bits[..n]
  {
    n := 8 * (|bits| / 8);
    StreamBytes(bits[..n], |bits| / 8);
  }

  lemma StreamBytes(bits: seq<bool>, n: nat)
    requires |bits| == 8 * n
    ensures Stream(Chunk(bits, 8), 8) == bits
  {
    hide Stream, Chunk, Width;
    var s := Stream(Chunk(bits, 8), 8);
    StreamChunk(bits, 8);
    WidthIs(|Chunk(bits, 8)|);
    assert s == s[..|bits|];
  }

  /** Whether a text is accepted at all is decided by its letters, its length and its last bits. */
  lemma DecodesIff(s: string, len: nat)
    ensures Decode(s, len).Some? <==> exists bytes: seq<Byte> :: |bytes| == len && s == Encode(bytes)
  {
    if Decode(s, len).Some? {
      EncodeDecode(s, len);
    }
    forall bytes: seq<Byte> | |bytes| == len && s == Encode(bytes)
      ensures Decode(s, len).Some?
    {
      DecodeEncode(bytes);
    }
  }

  lemma EncodeInjective(a: seq<Byte>, b: seq<Byte>)
    requires |a| == |b| && Encode(a) == Encode(b)
    ensures a == b
  {
    DecodeEncode(a);
    DecodeEncode(b);
  }

  // --- the text as a number --------------------------------------------------------

  /** The number a row of bytes is, the first byte counting least. */
  function Little(bytes: seq<nat>): nat {
    if bytes == [] then 0 else bytes[0] + 256 * Little(bytes[1..])
  }

  /** The letters Nix writes, in the order of their values: no e, o, t or u. */
  predicate LetterFor(c: char, n: nat) {
    n < 32 && "0123456789abcdfghijklmnpqrsvwxyz"[n] == c
  }

  /** The text is the number `n` in base 32, its first letter counting most. */
  ghost predicate Base32(s: string, n: nat) {
    if s == "" then n == 0 else LetterFor(s[|s| - 1], n % 32) && Base32(s[..|s| - 1], n / 32)
  }

  /** `k` symbols of `w` bits, first lowest, hold at most `w * k` bits. */
  function Sum(units: seq<nat>, w: nat): nat {
    if units == [] then 0 else units[0] + Pow2(w) * Sum(units[1..], w)
  }

  lemma {:induction false} FromBitsJoin(a: seq<bool>, b: seq<bool>)
    ensures FromBits(a + b) == FromBits(a) + Pow2(|a|) * FromBits(b)
  {
    if a == [] {
      assert a + b == b;
    } else {
      assert (a + b)[1..] == a[1..] + b;
      FromBitsJoin(a[1..], b);
      hide FromBits, Pow2;
      FromBitsFirst(a);
      FromBitsFirst(a + b);
      assert (a + b)[0] == a[0];
      Doubled(Pow2(|a| - 1), Pow2(|a|), FromBits(b));
    }
  }

  lemma FromBitsFirst(bits: seq<bool>)
    requires bits != []
    ensures FromBits(bits) == (if bits[0] then 1 else 0) + 2 * FromBits(bits[1..])
    ensures Pow2(|bits|) == 2 * Pow2(|bits| - 1)
  {
  }

  lemma Doubled(p: nat, q: nat, n: nat)
    requires q == 2 * p
    ensures q * n == 2 * (p * n)
  {
  }

  /** A row of bits is the number its units make, */
  lemma {:induction false} StreamSum(units: seq<nat>, w: nat)
    requires forall k :: 0 <= k < |units| ==> units[k] < Pow2(w)
    ensures FromBits(Stream(units, w)) == Sum(units, w)
  {
    if units != [] {
      StreamSum(units[1..], w);
      FromToBits(units[0], w);
      FromBitsJoin(ToBits(units[0], w), Stream(units[1..], w));
    }
  }

  /** and cutting it into other units makes the same number. */
  lemma {:induction false} ChunkSum(bits: seq<bool>, w: nat)
    requires w > 0
    ensures Sum(Chunk(bits, w), w) == FromBits(bits)
    decreases |bits|
  {
    if bits == [] {
    } else if |bits| < w {
      assert Chunk(bits, w)[1..] == [];
      NothingMore(Pow2(w));
    } else {
      ChunkSum(bits[w..], w);
      assert Chunk(bits, w)[1..] == Chunk(bits[w..], w);
      FromBitsJoin(bits[..w], bits[w..]);
      assert bits == bits[..w] + bits[w..];
    }
  }

  lemma NothingMore(p: nat)
    ensures p * 0 == 0
  {
  }

  lemma {:induction false} LittleSum(bytes: seq<nat>)
    ensures Sum(bytes, 8) == Little(bytes)
  {
    Powers();
    if bytes != [] {
      LittleSum(bytes[1..]);
    }
  }

  lemma {:induction false} LettersNumber(symbols: seq<nat>)
    requires forall k :: 0 <= k < |symbols| ==> symbols[k] < 32
    ensures Base32(Letters(symbols), Sum(symbols, 5))
  {
    if symbols != [] {
      var s, n := Letters(symbols), Sum(symbols, 5);
      LettersNumber(symbols[1..]);
      LetterSpelled(symbols[0]);
      assert s == Letters(symbols[1..]) + [Letter(symbols[0])];
      SumFirst(symbols);
      hide Letters, Letter, LetterFor, Sum;
      assert s[|s| - 1] == Letter(symbols[0]) && s[..|s| - 1] == Letters(symbols[1..]);
    }
  }

  lemma LetterSpelled(n: Symbol)
    ensures LetterFor(Letter(n), n)
  {
    AlphabetLetters(n);
  }

  lemma SumFirst(symbols: seq<nat>)
    requires symbols != [] && symbols[0] < 32
    ensures Sum(symbols, 5) % 32 == symbols[0] && Sum(symbols, 5) / 32 == Sum(symbols[1..], 5)
  {
    Powers();
  }

  /**
   * The text of `n` bytes is the number they are, least byte first, written in base
   * 32 with its highest digit first, in as many letters as `8 n` bits need.
   */
  lemma EncodeSpelled(bytes: seq<Byte>)
    ensures Base32(Encode(bytes), Little(bytes))
    ensures 8 * |bytes| <= 5 * |Encode(bytes)| < 8 * |bytes| + 5
  {
    hide Base32, Little, Sum, Stream, Letters, Chunk;
    Powers();
    var bits := Stream(bytes, 8);
    StreamChunk(bits, 5);
    WidthIs(|Chunk(bits, 5)|);
    StreamSum(bytes, 8);
    ChunkSum(bits, 5);
    LittleSum(bytes);
    LettersNumber(Chunk(bits, 5));
    WidthIs(|bytes|);
  }

  // --- the XOR fold ----------------------------------------------------------------

  /** A 32-byte digest laid over itself at distance 20. */
  function Folded(digest: seq<bv8>): (r: seq<bv8>)
    requires |digest| == 32
    ensures |r| == 20
  {
    seq(20, i requires 0 <= i < 20 => if i < 12 then digest[i] ^ digest[i + 20] else digest[i])
  }

  lemma FoldSpelled(digest: seq<bv8>, j: nat)
    requires |digest| == 32 && j < 20
    ensures Folded(digest)[j] == digest[j] ^ if j + 20 < 32 then digest[j + 20] else 0
  {
    XorZero(digest[j]);
  }

  /** What byte `j` of the fold holds after the first `i` bytes of the digest. */
  function PartFolded(digest: seq<bv8>, i: nat, j: nat): bv8
    requires |digest| == 32 && j < 20
  {
    if i <= j then 0
    else if i <= j + 20 || j >= 12 then digest[j]
    else digest[j] ^ digest[j + 20]
  }

  lemma FoldStep(digest: seq<bv8>, i: nat, j: nat)
    requires |digest| == 32 && i < 32 && j < 20
    ensures PartFolded(digest, i + 1, j) == if j == i % 20 then PartFolded(digest, i, j) ^ digest[i]
      else PartFolded(digest, i, j)
  {
    var at := if i < 20 then i else i - 20;
    assert i % 20 == at;
    if j == at && i < 20 {
      XorZero(digest[i]);
      assert PartFolded(digest, i, j) == 0 && PartFolded(digest, i + 1, j) == digest[i];
    }
  }

  lemma XorZero(b: bv8)
    ensures 0 ^ b == b && b ^ 0 == b
  {
  }

  method Fold(digest: seq<bv8>) returns (r: seq<bv8>)
    requires |digest| == 32
    ensures r == Folded(digest)
  {
    hide PartFolded;
    var folded := new bv8[20](_ => 0);
    FoldStart(digest);
    for i := 0 to |digest|
      invariant forall j :: 0 <= j < 20 ==> folded[j] == PartFolded(digest, i, j)
    {
      forall j | 0 <= j < 20
        ensures PartFolded(digest, i + 1, j) == if j == i % 20 then PartFolded(digest, i, j) ^ digest[i]
          else PartFolded(digest, i, j)
      {
        FoldStep(digest, i, j);
      }
      folded[i % 20] := folded[i % 20] ^ digest[i];
    }
    r := folded[..];
    FoldEnd(digest, r);
  }

  lemma FoldStart(digest: seq<bv8>)
    requires |digest| == 32
    ensures forall j :: 0 <= j < 20 ==> PartFolded(digest, 0, j) == 0
  {
  }

  lemma FoldEnd(digest: seq<bv8>, r: seq<bv8>)
    requires |digest| == 32 && |r| == 20 && forall j :: 0 <= j < 20 ==> r[j] == PartFolded(digest, 32, j)
    ensures r == Folded(digest)
  {
    forall j | 0 <= j < 20
      ensures r[j] == Folded(digest)[j]
    {
      assert r[j] == PartFolded(digest, 32, j);
    }
  }
}
