/** The encoders of a signed Aliyun request: percent-encoding, the canonical query, and Base64. Texts are given by their bytes. */
module Encoders {
  import opened Wrappers
  import opened Ordering
  import opened Text

  predicate IsBytes(s: string) { forall i :: 0 <= i < |s| ==> s[i] as int < 256 }

  /** A byte string: one character per byte. */
  type Bytes = s: string | IsBytes(s) witness ""

  // ----- percent-encoding (RFC 3986, sections 2.1 and 2.3) -----

  predicate Unreserved(c: char) {
    'A' <= c <= 'Z' || 'a' <= c <= 'z' || '0' <= c <= '9' || c == '-' || c == '_' || c == '.' || c == '~'
  }

  function HexDigit(n: int): (c: char)
    requires 0 <= n < 16
    ensures Unreserved(c) && HexValue(c) == Some(n)
  {
    if n < 10 then '0' + n as char else 'A' + (n - 10) as char
  }

  function HexValue(c: char): Option<int> {
    if '0' <= c <= '9' then Some(c as int - '0' as int)
    else if 'A' <= c <= 'F' then Some(c as int - 'A' as int + 10)
    else None
  }

  function EncodeByte(c: char): string
    requires c as int < 256
  {
    if Unreserved(c) then [c] else ['%', HexDigit(c as int / 16), HexDigit(c as int % 16)]
  }

  function PercentEncode(s: Bytes): string {
    if s == [] then [] else PercentEncode(s[..|s| - 1]) + EncodeByte(s[|s| - 1])
  }

  method Rfc3986Encode(value: Bytes) returns (out: string)
    ensures out == PercentEncode(value)
  {
    out := "";
    for i := 0 to |value|
      invariant out == PercentEncode(value[..i])
    {
      assert value[..i + 1][..i] == value[..i];
      var byte := value[i];
      if Unreserved(byte) {
        out := out + [byte];
      } else {
        out := out + ['%', HexDigit(byte as int / 16), HexDigit(byte as int % 16)];
      }
    }
    assert value[..|value|] == value;
  }

  /** Reads percent-encoded text back; nothing for a character or an escape that is not one. */
  function PercentDecode(s: string): Option<Bytes>
    decreases |s|
  {
    if s == [] then Some([])
    else if Unreserved(s[0]) then
      match PercentDecode(s[1..]) case None => None case Some(rest) => Some([s[0]] + rest)
    else if s[0] == '%' && |s| >= 3 then
      match (HexValue(s[1]), HexValue(s[2]), PercentDecode(s[3..]))
      case (Some(high), Some(low), Some(rest)) => Some([(high * 16 + low) as char] + rest)
      case _ => None
    else None
  }

  lemma DecodeOneByte(c: char, rest: string)
    requires c as int < 256
    ensures PercentDecode(EncodeByte(c) + rest)
         == Before([c], PercentDecode(rest))
  {
    var s := EncodeByte(c) + rest;
    if Unreserved(c) {
      assert s[0] == c && s[1..] == rest;
    } else {
      assert s[0] == '%' && s[1] == HexDigit(c as int / 16) && s[2] == HexDigit(c as int % 16) && s[3..] == rest;
    }
  }

  /** Bytes read before some further text, put in front of what that text decodes to. */
  function Before(bytes: Bytes, rest: Option<Bytes>): Option<Bytes> {
    match rest case None => None case Some(more) => Some(bytes + more)
  }

  lemma BeforeTwice(a: Bytes, b: Bytes, rest: Option<Bytes>)
    ensures Before(a, Before(b, rest)) == Before(a + b, rest) && Before([], rest) == rest
  {
    if rest.Some? {
      assert a + (b + rest.value) == a + b + rest.value && [] + rest.value == rest.value;
    }
  }

  lemma {:induction false} DecodeEncodedPrefix(s: Bytes, rest: string)
    ensures PercentDecode(PercentEncode(s) + rest) == Before(s, PercentDecode(rest))
  {
    hide PercentDecode, EncodeByte, Before;
    if s == [] {
      assert PercentEncode(s) + rest == rest;
      BeforeTwice([], [], PercentDecode(rest));
    } else {
      var front: Bytes, last := s[..|s| - 1], s[|s| - 1];
      assert PercentEncode(s) + rest == PercentEncode(front) + (EncodeByte(last) + rest);
      DecodeEncodedPrefix(front, EncodeByte(last) + rest);
      DecodeOneByte(last, rest);
      BeforeTwice(front, [last], PercentDecode(rest));
      assert front + [last] == s;
    }
  }

  /** Percent-encoding loses nothing, and its output is free of the characters that separate parameters. */
  lemma PercentRoundTrip(s: Bytes)
    ensures PercentDecode(PercentEncode(s)) == Some(s)
    ensures '=' !in PercentEncode(s) && '&' !in PercentEncode(s)
  {
    hide PercentEncode, EncodeByte;
    DecodeEncodedPrefix(s, []);
    assert PercentEncode(s) + [] == PercentEncode(s) && s + [] == s;
    OnlySafe(s);
  }

  lemma {:induction false} OnlySafe(s: Bytes)
    ensures forall c :: c in PercentEncode(s) ==> Unreserved(c) || c == '%'
  {
    if s != [] {
      OnlySafe(s[..|s| - 1]);
    }
  }

  // ----- the canonical query -----

  function Pair(key: Bytes, value: Bytes): string { PercentEncode(key) + "=" + PercentEncode(value) }

  function Keys(params: map<Bytes, Bytes>): (keys: seq<Bytes>)
    ensures |keys| == |params.Keys| && forall k :: k in keys <==> k in params
  {
    BytesOrder();
    Listing(params.Keys, BytesLess)
  }

  predicate BytesLess(a: Bytes, b: Bytes) { TextLess(a, b) }

  lemma BytesOrder()
    ensures StrictTotal(BytesLess)
  {
    forall a: Bytes, b: Bytes ensures !BytesLess(a, a) && (a != b ==> BytesLess(a, b) || BytesLess(b, a)) {
      TextTotal(a, b);
    }
    forall a: Bytes, b: Bytes, c: Bytes | BytesLess(a, b) && BytesLess(b, c) ensures BytesLess(a, c) {
      TextTransitive(a, b, c);
    }
  }

  function Pairs(params: map<Bytes, Bytes>, keys: seq<Bytes>): (pairs: seq<string>)
    requires forall k :: k in keys ==> k in params
    ensures |pairs| == |keys| && forall i :: 0 <= i < |keys| ==> keys[i] in params && pairs[i] == Pair(keys[i], params[keys[i]])
  {
    if keys == [] then [] else Pairs(params, keys[..|keys| - 1]) + [Pair(keys[|keys| - 1], params[keys[|keys| - 1]])]
  }

  /** `key=value` pairs in key order, joined by `&`. */
  function CanonicalQuery(params: map<Bytes, Bytes>): string {
    var pairs := Pairs(params, Keys(params));
    if pairs == [] then "" else Join(pairs, '&')
  }

  function DecodePair(s: string): Option<(Bytes, Bytes)> {
    match SplitOnce(s, '=')
    case None => None
    case Some((key, value)) =>
      match (PercentDecode(key), PercentDecode(value))
      case (Some(k), Some(v)) => Some((k, v))
      case _ => None
  }

  function DecodePairs(parts: seq<string>): Option<map<Bytes, Bytes>> {
    if parts == [] then Some(map[])
    else
      match (DecodePairs(parts[..|parts| - 1]), DecodePair(parts[|parts| - 1]))
      case (Some(m), Some((k, v))) => Some(m[k := v])
      case _ => None
  }

  function DecodeQuery(s: string): Option<map<Bytes, Bytes>> {
    if s == "" then Some(map[]) else DecodePairs(Split(s, '&'))
  }

  lemma DecodeOnePair(key: Bytes, value: Bytes)
    ensures DecodePair(Pair(key, value)) == Some((key, value)) && '&' !in Pair(key, value) && Pair(key, value) != ""
  {
    hide PercentEncode, PercentDecode;
    PercentRoundTrip(key);
    PercentRoundTrip(value);
    SplitOnceAt(PercentEncode(key), '=', PercentEncode(value));
  }

  function Restricted(params: map<Bytes, Bytes>, keys: seq<Bytes>): map<Bytes, Bytes> {
    map k | k in params && k in keys :: params[k]
  }

  lemma {:induction false} DecodeAllPairs(params: map<Bytes, Bytes>, keys: seq<Bytes>)
    requires forall k :: k in keys ==> k in params
    ensures DecodePairs(Pairs(params, keys)) == Some(Restricted(params, keys))
  {
    hide Pair, DecodePair;
    if keys != [] {
      var front, last := keys[..|keys| - 1], keys[|keys| - 1];
      assert keys == front + [last];
      DecodeAllPairs(params, front);
      DecodeOnePair(last, params[last]);
      var pairs := Pairs(params, keys);
      assert pairs[..|pairs| - 1] == Pairs(params, front);
      assert Restricted(params, keys) == Restricted(params, front)[last := params[last]];
    }
  }

  lemma NonemptyJoin(parts: seq<string>, c: char)
    requires |parts| >= 1 && parts[0] != ""
    ensures Join(parts, c) != ""
  {
  }

  /** The parameters can be read back from their canonical query. */
  lemma CanonicalQueryRoundTrip(params: map<Bytes, Bytes>)
    ensures DecodeQuery(CanonicalQuery(params)) == Some(params)
  {
    hide Pair, DecodePair, DecodePairs;
    var keys := Keys(params);
    var pairs := Pairs(params, keys);
    DecodeAllPairs(params, keys);
    assert Restricted(params, keys) == params;
    if pairs != [] {
      forall i | 0 <= i < |pairs| ensures '&' !in pairs[i] && pairs[i] != "" {
        DecodeOnePair(keys[i], params[keys[i]]);
      }
      SplitJoin(pairs, '&');
      NonemptyJoin(pairs, '&');
    } else {
      assert params.Keys == {};
    }
  }

  function StringToSign(params: map<Bytes, Bytes>): string {
    var canonical := CanonicalQuery(params);
    QueryIsBytes(params);
    "GET&%2F&" + PercentEncode(canonical)
  }

  lemma {:induction false} EncodedIsBytes(s: Bytes)
    ensures IsBytes(PercentEncode(s))
  {
    OnlySafe(s);
    var out := PercentEncode(s);
    forall i | 0 <= i < |out| ensures out[i] as int < 256 {
      assert out[i] in out;
    }
  }

  lemma {:induction false} JoinIsBytes(parts: seq<string>, c: char)
    requires |parts| >= 1 && c as int < 256 && forall i :: 0 <= i < |parts| ==> IsBytes(parts[i])
    ensures IsBytes(Join(parts, c))
  {
    if |parts| > 1 {
      JoinIsBytes(parts[1..], c);
    }
  }

  lemma PairIsBytes(key: Bytes, value: Bytes)
    ensures IsBytes(Pair(key, value))
  {
    hide PercentEncode;
    EncodedIsBytes(key);
    EncodedIsBytes(value);
  }

  lemma QueryIsBytes(params: map<Bytes, Bytes>)
    ensures IsBytes(CanonicalQuery(params))
  {
    hide PercentEncode, Keys, Pair;
    var keys := Keys(params);
    var pairs := Pairs(params, keys);
    forall i | 0 <= i < |pairs| ensures IsBytes(pairs[i]) {
      PairIsBytes(keys[i], params[keys[i]]);
    }
    if pairs != [] { JoinIsBytes(pairs, '&'); }
  }

  /** Different parameters have different canonical queries, and different strings to sign. */
  lemma SignedTextsDiffer(a: map<Bytes, Bytes>, b: map<Bytes, Bytes>)
    requires a != b
    ensures CanonicalQuery(a) != CanonicalQuery(b) && StringToSign(a) != StringToSign(b)
  {
    hide CanonicalQuery, DecodeQuery, PercentEncode;
    CanonicalQueryRoundTrip(a);
    CanonicalQueryRoundTrip(b);
    QueryIsBytes(a);
    QueryIsBytes(b);
    PercentRoundTrip(CanonicalQuery(a));
    PercentRoundTrip(CanonicalQuery(b));
    var head := "GET&%2F&";
    assert StringToSign(a)[|head|..] == PercentEncode(CanonicalQuery(a));
    assert StringToSign(b)[|head|..] == PercentEncode(CanonicalQuery(b));
  }

  // ----- Base64 (RFC 4648, section 4) -----

  /** The alphabet: upper case, lower case, digits, `+` and `/`. */
  function Symbol(v: int): (c: char)
    requires 0 <= v < 64
    ensures SymbolValue(c) == Some(v)
  {
    if v < 26 then 'A' + v as char
    else if v < 52 then 'a' + (v - 26) as char
    else if v < 62 then '0' + (v - 52) as char
    else if v == 62 then '+'
    else '/'
  }

  function SymbolValue(c: char): Option<int> {
    if 'A' <= c <= 'Z' then Some(c as int - 'A' as int)
    else if 'a' <= c <= 'z' then Some(c as int - 'a' as int + 26)
    else if '0' <= c <= '9' then Some(c as int - '0' as int + 52)
    else if c == '+' then Some(62)
    else if c == '/' then Some(63)
    else None
  }

  function ByteAt(s: Bytes, i: nat): int { if i < |s| then s[i] as int else 0 }

  /** Four symbols for a chunk of one to three bytes; missing bytes count as zero and are marked by `=`. */
  function EncodeChunk(chunk: Bytes): (r: string)
    requires 1 <= |chunk| <= 3
    ensures |r| == 4
  {
    var n := ByteAt(chunk, 0) * 65_536 + ByteAt(chunk, 1) * 256 + ByteAt(chunk, 2);
    [Symbol(n / 262_144 % 64), Symbol(n / 4_096 % 64),
     if |chunk| > 1 then Symbol(n / 64 % 64) else '=',
     if |chunk| > 2 then Symbol(n % 64) else '=']
  }

  function Base64(s: Bytes): string
    decreases |s|
  {
    if s == [] then []
    else if |s| <= 3 then EncodeChunk(s)
    else EncodeChunk(s[..3]) + Base64(s[3..])
  }

  method Base64Encode(bytes: Bytes) returns (out: string)
    ensures out == Base64(bytes)
  {
    hide EncodeChunk;
    out := "";
    var at := 0;
    while at < |bytes|
      invariant 0 <= at <= |bytes|
      invariant out + Base64(bytes[at..]) == Base64(bytes)
    {
      var chunk := if at + 3 <= |bytes| then bytes[at..at + 3] else bytes[at..];
      ChunkFirst(bytes[at..]);
      assert chunk == bytes[at..][..|chunk|] && bytes[at..][|chunk|..] == bytes[at + |chunk|..];
      out := out + EncodeChunk(chunk);
      at := at + |chunk|;
    }
    assert out + [] == out;
  }

  lemma ChunkFirst(s: Bytes)
    requires s != []
    ensures var k := if |s| < 3 then |s| else 3; Base64(s) == EncodeChunk(s[..k]) + Base64(s[k..])
  {
    hide EncodeChunk;
    if |s| <= 3 {
      assert s[..|s|] == s && EncodeChunk(s) + [] == EncodeChunk(s);
    }
  }

  /** The bytes of four symbols; padding is one or two `=` at the end, over zero bits. */
  function DecodeChunk(s: string): Option<Bytes>
    requires |s| == 4
  {
    match (SymbolValue(s[0]), SymbolValue(s[1]))
    case (Some(a), Some(b)) =>
      if s[2] == '=' && s[3] == '=' then
        if b % 16 == 0 then Some([(a * 4 + b / 16) as char]) else None
      else
        (match SymbolValue(s[2])
         case None => None
         case Some(c) =>
           if s[3] == '=' then
             if c % 4 == 0 then Some([(a * 4 + b / 16) as char, (b % 16 * 16 + c / 4) as char]) else None
           else
             match SymbolValue(s[3])
             case None => None
             case Some(d) => Some([(a * 4 + b / 16) as char, (b % 16 * 16 + c / 4) as char, (c % 4 * 64 + d) as char]))
    case _ => None
  }

  /** Chunks of four; only the last may be padded. */
  function DecodeBase64(s: string): Option<Bytes>
    decreases |s|
  {
    if s == [] then Some([])
    else if |s| < 4 || (s[3] == '=' && |s| > 4) then None
    else
      match (DecodeChunk(s[..4]), DecodeBase64(s[4..]))
      case (Some(bytes), Some(rest)) => Some(bytes + rest)
      case _ => None
  }

  lemma FirstSymbol(a: int, b: int, c: int)
    requires 0 <= a < 256 && 0 <= b < 256 && 0 <= c < 256
    ensures (a * 65_536 + b * 256 + c) / 262_144 % 64 == a / 4
  {
    var low := a % 4 * 65_536 + b * 256 + c;
    assert a * 65_536 + b * 256 + c == 262_144 * (a / 4) + low && 0 <= low < 262_144;
  }

  lemma SecondSymbol(a: int, b: int, c: int)
    requires 0 <= a < 256 && 0 <= b < 256 && 0 <= c < 256
    ensures (a * 65_536 + b * 256 + c) / 4_096 % 64 == a % 4 * 16 + b / 16
  {
    var low, q := b % 16 * 256 + c, a % 4 * 16 + b / 16;
    assert a * 65_536 + b * 256 + c == 4_096 * (64 * (a / 4) + q) + low && 0 <= low < 4_096;
    assert (a * 65_536 + b * 256 + c) / 4_096 == 64 * (a / 4) + q && 0 <= q < 64;
  }

  lemma ThirdSymbol(a: int, b: int, c: int)
    requires 0 <= a < 256 && 0 <= b < 256 && 0 <= c < 256
    ensures (a * 65_536 + b * 256 + c) / 64 % 64 == b % 16 * 4 + c / 64
  {
    var low, q := c % 64, b % 16 * 4 + c / 64;
    assert a * 65_536 + b * 256 + c == 64 * (64 * (a * 16 + b / 16) + q) + low && 0 <= low < 64;
    assert (a * 65_536 + b * 256 + c) / 64 == 64 * (a * 16 + b / 16) + q && 0 <= q < 64;
  }

  lemma FourthSymbol(a: int, b: int, c: int)
    requires 0 <= a < 256 && 0 <= b < 256 && 0 <= c < 256
    ensures (a * 65_536 + b * 256 + c) % 64 == c % 64
  {
    assert a * 65_536 + b * 256 + c == 64 * (a * 1_024 + b * 4 + c / 64) + c % 64;
  }

  /** The four symbols of a chunk, by the bits of its bytes. */
  lemma ChunkSymbols(chunk: Bytes)
    requires 1 <= |chunk| <= 3
    ensures var (a, b, c) := (ByteAt(chunk, 0), ByteAt(chunk, 1), ByteAt(chunk, 2));
            && 0 <= a < 256 && 0 <= b < 256 && 0 <= c < 256
            && EncodeChunk(chunk) == [Symbol(a / 4), Symbol(a % 4 * 16 + b / 16),
                                      if |chunk| > 1 then Symbol(b % 16 * 4 + c / 64) else '=',
                                      if |chunk| > 2 then Symbol(c % 64) else '=']
  {
    hide Symbol;
    var a, b, c := ByteAt(chunk, 0), ByteAt(chunk, 1), ByteAt(chunk, 2);
    FirstSymbol(a, b, c);
    SecondSymbol(a, b, c);
    ThirdSymbol(a, b, c);
    FourthSymbol(a, b, c);
  }

  lemma ChunkRoundTrip(chunk: Bytes)
    requires 1 <= |chunk| <= 3
    ensures DecodeChunk(EncodeChunk(chunk)) == Some(chunk)
    ensures EncodeChunk(chunk)[3] == '=' <==> |chunk| < 3
  {
    hide Symbol, EncodeChunk;
    ChunkSymbols(chunk);
    assert SymbolValue('=') == None;
    hide SymbolValue;
    var a, b, c := ByteAt(chunk, 0), ByteAt(chunk, 1), ByteAt(chunk, 2);
    assert a / 4 * 4 + (a % 4 * 16 + b / 16) / 16 == a;
    assert chunk[0] == a as char;
    if |chunk| == 1 {
      assert chunk == [chunk[0]];
    } else {
      assert (a % 4 * 16 + b / 16) % 16 * 16 + (b % 16 * 4 + c / 64) / 4 == b;
      assert chunk[1] == b as char;
      if |chunk| == 2 {
        assert chunk == [chunk[0], chunk[1]];
      } else {
        assert (b % 16 * 4 + c / 64) % 4 * 64 + c % 64 == c;
        assert chunk == [chunk[0], chunk[1], chunk[2]];
      }
    }
  }

  /** Decoding peels one chunk off, if that chunk is whole or the last. */
  lemma DecodeStep(four: string, more: string, chunk: Bytes, rest: Bytes)
    requires |four| == 4 && (four[3] == '=' ==> more == [])
    requires DecodeChunk(four) == Some(chunk) && DecodeBase64(more) == Some(rest)
    ensures DecodeBase64(four + more) == Some(chunk + rest)
  {
    hide DecodeChunk;
    var s := four + more;
    assert s[..4] == four && s[4..] == more && s[3] == four[3];
  }

  lemma NothingToEncode()
    ensures Base64([]) == [] && DecodeBase64([]) == Some([])
  {
  }

  lemma {:induction false} Base64Length(s: Bytes)
    ensures |Base64(s)| == 4 * ((|s| + 2) / 3)
    decreases |s|
  {
    hide EncodeChunk, Base64;
    NothingToEncode();
    if s != [] {
      ChunkFirst(s);
      Base64Length(s[if |s| < 3 then |s| else 3..]);
    }
  }

  /** The alphabet of RFC 4648, section 4: A to Z, a to z, 0 to 9, `+` and `/` in turn. */
  lemma Base64Alphabet(v: int)
    requires 0 <= v < 63
    ensures Symbol(0) == 'A' && Symbol(26) == 'a' && Symbol(52) == '0' && Symbol(62) == '+' && Symbol(63) == '/'
    ensures v !in {25, 51, 61, 62} ==> Symbol(v + 1) as int == Symbol(v) as int + 1
  {
  }

  /** Base64 is undone by decoding for every byte string, and its length is four times the number of chunks. */
  lemma {:induction false} Base64RoundTrip(s: Bytes)
    ensures DecodeBase64(Base64(s)) == Some(s)
    ensures |Base64(s)| == 4 * ((|s| + 2) / 3)
    decreases |s|
  {
    hide EncodeChunk, DecodeChunk, DecodeBase64, Base64, ByteAt;
    NothingToEncode();
    Base64Length(s);
    if s != [] {
      var k := if |s| < 3 then |s| else 3;
      var chunk: Bytes, rest: Bytes := s[..k], s[k..];
      Base64RoundTrip(rest);
      ChunkFirst(s);
      ChunkRoundTrip(chunk);
      assert EncodeChunk(chunk)[3] == '=' ==> rest == [];
      DecodeStep(EncodeChunk(chunk), Base64(rest), chunk, rest);
      assert chunk + rest == s;
    }
  }

  // ----- what the encodings look like -----

  lemma {:induction false} PercentConcat(a: Bytes, b: Bytes)
    ensures IsBytes(a + b) && PercentEncode(a + b) == PercentEncode(a) + PercentEncode(b)
  {
    hide EncodeByte;
    if b == [] {
      assert a + b == a;
    } else {
      var front, last := b[..|b| - 1], b[|b| - 1];
      assert (a + b)[..|a + b| - 1] == a + front && (a + b)[|a + b| - 1] == last;
      PercentConcat(a, front);
    }
  }

  const HEX_DIGITS := "0123456789ABCDEF"

  /** Letters, digits, `-`, `_`, `.` and `~` stand for themselves, and every other byte is `%` and two capital hexadecimal digits. */
  lemma PercentOne(c: char)
    requires c as int < 256
    ensures var plain := 65 <= c as int <= 90 || 97 <= c as int <= 122 || 48 <= c as int <= 57 || c in {'-', '_', '.', '~'};
            PercentEncode([c]) == if plain then [c] else ['%', HEX_DIGITS[c as int / 16], HEX_DIGITS[c as int % 16]]
  {
    assert [c][..0] == [] && [c][0] == c;
    HexMeans(c as int / 16);
    HexMeans(c as int % 16);
    hide HexDigit, HEX_DIGITS;
    assert PercentEncode([]) == [];
    assert PercentEncode([c]) == [] + EncodeByte(c);
  }

  lemma HexMeans(n: int)
    requires 0 <= n < 16
    ensures HexDigit(n) == HEX_DIGITS[n]
  {
  }

  /** The parts of a canonical query are its parameters, each once and in ascending order of their keys. */
  lemma QueryMeans(params: map<Bytes, Bytes>) returns (keys: seq<Bytes>)
    ensures |keys| == |params| && (forall k :: k in keys <==> k in params)
    ensures forall i, j :: 0 <= i < j < |keys| ==> TextLess(keys[i], keys[j])
    ensures params == map[] ==> CanonicalQuery(params) == ""
    ensures params != map[] ==>
      var parts := Split(CanonicalQuery(params), '&');
      |parts| == |keys| && forall i :: 0 <= i < |keys| ==> keys[i] in params && parts[i] == PercentEncode(keys[i]) + "=" + PercentEncode(params[keys[i]])
  {
    hide PercentEncode, TextLess;
    keys := KeysAscend(params);
    assert |params.Keys| == |params|;
    var pairs := Pairs(params, keys);
    if params == map[] {
      assert params.Keys == {} && keys == [];
    } else {
      var k :| k in params;
      assert k in keys;
      forall i | 0 <= i < |pairs| ensures '&' !in pairs[i] {
        DecodeOnePair(keys[i], params[keys[i]]);
      }
      SplitJoin(pairs, '&');
    }
  }

  lemma KeysAscend(params: map<Bytes, Bytes>) returns (keys: seq<Bytes>)
    ensures keys == Keys(params) && forall i, j :: 0 <= i < j < |keys| ==> TextLess(keys[i], keys[j])
  {
    BytesOrder();
    keys := Keys(params);
    assert Ascending(Listing(params.Keys, BytesLess), BytesLess);
    hide TextLess;
  }

  /** The text to sign is the method, the encoded root path and the encoded canonical query. */
  lemma SignedParts(params: map<Bytes, Bytes>)
    ensures IsBytes(CanonicalQuery(params)) && Split(StringToSign(params), '&') == ["GET", "%2F", PercentEncode(CanonicalQuery(params))]
    ensures PercentDecode("%2F") == Some("/")
  {
    QueryIsBytes(params);
    hide CanonicalQuery;
    var last := PercentEncode(CanonicalQuery(params));
    PercentRoundTrip(CanonicalQuery(params));
    assert StringToSign(params) == "GET" + "&" + ("%2F" + "&" + last);
    hide PercentEncode, PercentDecode;
    SplitAt("GET", '&', "%2F" + "&" + last);
    SplitAt("%2F", '&', last);
    SplitWhole(last, '&');
    RootPath();
  }

  lemma RootPath()
    ensures PercentDecode("%2F") == Some("/")
  {
    PercentOne('/');
    assert PercentEncode("/") == "%2F";
    PercentRoundTrip("/");
  }
}
