/**
 * `encodeURIComponent` and `decodeURIComponent` (the ECMAScript Encode and Decode
 * operations with an empty reserved set), and the per-segment encoding of a path
 * that the transfer, PROPFIND and MKCOL requests use: percent-encoding as in
 * section 2.1 of RFC 3986, over the UTF-8 octets of each character.
 */
module Uri {
  import opened Results
  import opened Js

  type Byte = b: int | 0 <= b < 256

  /** The characters `encodeURIComponent` leaves as they are. */
  predicate IsUnescaped(c: char) {
    ('A' <= c <= 'Z') || ('a' <= c <= 'z') || ('0' <= c <= '9')
    || c == '-' || c == '_' || c == '.' || c == '!' || c == '~' || c == '*' || c == '\'' || c == '(' || c == ')'
  }

  /** The upper-case hexadecimal digit for `d`. */
  function HexDigit(d: nat): (c: char)
    requires d < 16
  {
    if d < 10 then (('0' as int) + d) as char else (('A' as int) + d - 10) as char
  }

  /** The value of a hexadecimal digit of either case. */
  function HexValue(c: char): (r: Option<nat>)
    ensures r.Some? ==> r.value < 16
  {
    if '0' <= c <= '9' then Some((c as int) - ('0' as int))
    else if 'A' <= c <= 'F' then Some((c as int) - ('A' as int) + 10)
    else if 'a' <= c <= 'f' then Some((c as int) - ('a' as int) + 10)
    else None
  }

  lemma HexRoundTrip(d: nat)
    requires d < 16
    ensures HexValue(HexDigit(d)) == Some(d)
  {
  }

  // ---------------------------------------------------------------------------
  // UTF-8

  /** The UTF-8 octets of a character. */
  function Utf8(c: char): (bytes: seq<Byte>)
    ensures 1 <= |bytes| <= 4
  {
    var cp := c as int;
    if cp < 0x80 then [cp]
    else if cp < 0x800 then [0xC0 + cp / 64, 0x80 + cp % 64]
    else if cp < 0x10000 then [0xE0 + cp / 4096, 0x80 + (cp / 64) % 64, 0x80 + cp % 64]
    else [0xF0 + cp / 262144, 0x80 + (cp / 4096) % 64, 0x80 + (cp / 64) % 64, 0x80 + cp % 64]
  }

  /** How many octets a sequence led by `b` has; 0 when `b` cannot lead one. */
  function SequenceLength(b: Byte): nat {
    if b < 0x80 then 1
    else if b < 0xC0 then 0
    else if b < 0xE0 then 2
    else if b < 0xF0 then 3
    else if b < 0xF8 then 4
    else 0
  }

  predicate IsScalar(v: int) { 0 <= v < 0xD800 || 0xE000 <= v <= 0x10FFFF }

  /** The value the payload bits of an octet sequence spell, without any validity check. */
  function Utf8Value(octets: seq<Byte>): int
    requires 1 <= |octets| <= 4
  {
    var o: seq<int> := octets;
    if |o| == 1 then o[0]
    else if |o| == 2 then (o[0] % 32) * 64 + o[1] % 64
    else if |o| == 3 then (o[0] % 16) * 4096 + (o[1] % 64) * 64 + o[2] % 64
    else (o[0] % 8) * 262144 + (o[1] % 64) * 4096 + (o[2] % 64) * 64 + o[3] % 64
  }

  /**
   * The character a valid UTF-8 sequence encodes; None when the octets are not
   * the (shortest) encoding of a Unicode scalar value.
   */
  function Utf8Decode(octets: seq<Byte>): (r: Option<char>)
    requires 1 <= |octets| <= 4
    ensures r.Some? ==> Utf8(r.value) == octets
  {
    var v := Utf8Value(octets);
    if IsScalar(v) && Utf8(v as char) == octets then Some(v as char) else None
  }

  lemma Utf8ValueOfTwo(cp: int)
    requires 0x80 <= cp < 0x800
    ensures ((0xC0 + cp / 64) % 32) * 64 + (0x80 + cp % 64) % 64 == cp
  {
    assert (0xC0 + cp / 64) % 32 == cp / 64;
  }

  lemma Utf8ValueOfThree(cp: int)
    requires 0x800 <= cp < 0x10000
    ensures ((0xE0 + cp / 4096) % 16) * 4096 + ((0x80 + (cp / 64) % 64) % 64) * 64 + (0x80 + cp % 64) % 64 == cp
  {
    assert (0xE0 + cp / 4096) % 16 == cp / 4096;
    LowTwelveBits(cp);
    ContinuationPayload(cp / 64);
    ContinuationPayload(cp);
  }

  lemma Utf8ValueOfFour(cp: int)
    requires 0x10000 <= cp <= 0x10FFFF
    ensures ((0xF0 + cp / 262144) % 8) * 262144 + ((0x80 + (cp / 4096) % 64) % 64) * 4096
            + ((0x80 + (cp / 64) % 64) % 64) * 64 + (0x80 + cp % 64) % 64 == cp
  {
    assert (0xF0 + cp / 262144) % 8 == cp / 262144;
    LowTwelveBits(cp);
    LowEighteenBits(cp);
    ContinuationPayload(cp / 4096);
    ContinuationPayload(cp / 64);
    ContinuationPayload(cp);
  }

  /** A continuation octet `0x80 + x % 64` carries `x % 64`. */
  lemma ContinuationPayload(x: int)
    ensures (0x80 + x % 64) % 64 == x % 64
  {
  }

  lemma LowTwelveBits(cp: int)
    ensures (cp / 64) % 64 * 64 + cp % 64 == cp % 4096
  {
  }

  lemma LowEighteenBits(cp: int)
    ensures (cp / 4096) % 64 * 4096 + cp % 4096 == cp % 262144
  {
    var q, r := cp / 262144, cp % 262144;
    var a, b := r / 4096, r % 4096;
    assert cp == (q * 64 + a) * 4096 + b;
    assert cp / 4096 == q * 64 + a && cp % 4096 == b;
    assert (q * 64 + a) % 64 == a;
  }

  /** Reading the payload bits of a character's encoding gives the character back. */
  lemma Utf8ValueOfUtf8(c: char)
    ensures Utf8Value(Utf8(c)) == c as int
    ensures SequenceLength(Utf8(c)[0]) == |Utf8(c)|
  {
    var cp := c as int;
    if cp < 0x80 {
    } else if cp < 0x800 {
      Utf8ValueOfTwo(cp);
    } else if cp < 0x10000 {
      Utf8ValueOfThree(cp);
    } else {
      Utf8ValueOfFour(cp);
    }
  }

  /** Every character's encoding is accepted by the decoder and decodes to it. */
  lemma Utf8DecodeOfUtf8(c: char)
    ensures Utf8Decode(Utf8(c)) == Some(c)
  {
    Utf8ValueOfUtf8(c);
  }

  // ---------------------------------------------------------------------------
  // encodeURIComponent

  function PercentByte(b: Byte): (r: string)
    ensures |r| == 3
  {
    ['%', HexDigit(b / 16), HexDigit(b % 16)]
  }

  function PercentEncode(bytes: seq<Byte>): (r: string)
    ensures |r| == 3 * |bytes|
  {
    if bytes == [] then [] else PercentByte(bytes[0]) + PercentEncode(bytes[1..])
  }

  function EncodeChar(c: char): string {
    if IsUnescaped(c) then [c] else PercentEncode(Utf8(c))
  }

  /** A string `encodeURIComponent` can return: unescaped characters and `%` only. */
  predicate IsEncoded(r: string) {
    forall i :: 0 <= i < |r| ==> IsUnescaped(r[i]) || r[i] == '%'
  }

  /** `encodeURIComponent(s)`: unescaped characters kept, all others as `%XY` per UTF-8 octet. */
  function EncodeURIComponent(s: string): (r: string)
    ensures IsEncoded(r)
  {
    if s == [] then [] else
      var head := EncodeChar(s[0]);
      assert IsEncoded(head) by {
        if !IsUnescaped(s[0]) { PercentEncodeIsEncoded(Utf8(s[0])); }
      }
      head + EncodeURIComponent(s[1..])
  }

  lemma {:induction false} PercentEncodeIsEncoded(bytes: seq<Byte>)
    ensures IsEncoded(PercentEncode(bytes))
  {
    if bytes != [] {
      PercentEncodeIsEncoded(bytes[1..]);
    }
  }

  // ---------------------------------------------------------------------------
  // decodeURIComponent

  /** The octet written as `%XY` at the front of `s`, if it is one. */
  function ReadByte(s: string): (r: Option<Byte>)
    ensures r.Some? ==> |s| >= 3
  {
    if 2 < |s| && s[0] == '%' then
      match (HexValue(s[1]), HexValue(s[2]))
      case (Some(h), Some(l)) => Some(h * 16 + l)
      case _ => None
    else None
  }

  /** `n` octets written as `%XY` one after another at the front of `s`. */
  function ReadBytes(s: string, n: nat): (r: Option<seq<Byte>>)
    ensures r.Some? ==> |r.value| == n && 3 * n <= |s|
    ensures r.Some? && n > 0 ==> ReadByte(s) == Some(r.value[0])
  {
    if n == 0 then Some([])
    else match ReadByte(s)
      case None => None
      case Some(b) =>
        match ReadBytes(s[3..], n - 1)
        case None => None
        case Some(bs) => Some([b] + bs)
  }

  /**
   * The character at the front of `s` and how many characters spell it: a plain
   * character, or the one to four `%XY` escapes of its UTF-8 octets. None is a
   * URIError: a malformed escape or octets that are not valid UTF-8.
   */
  function DecodeOne(s: string): (r: Option<(char, nat)>)
    requires s != []
    ensures r.Some? ==> 1 <= r.value.1 <= |s|
  {
    if s[0] != '%' then Some((s[0], 1))
    else match ReadByte(s)
      case None => None
      case Some(b) =>
        var n := SequenceLength(b);
        if n == 0 then None
        else if n == 1 then Some((b as char, 3))
        else match ReadBytes(s, n)
          case None => None
          case Some(octets) =>
            match Utf8Decode(octets)
            case None => None
            case Some(c) => Some((c, 3 * n))
  }

  /** `decodeURIComponent(s)`; None when it throws a URIError. */
  function DecodeURIComponent(s: string): (r: Option<string>)
    decreases |s|
  {
    if s == [] then Some([])
    else match DecodeOne(s)
      case None => None
      case Some((c, n)) =>
        match DecodeURIComponent(s[n..])
        case None => None
        case Some(rest) => Some([c] + rest)
  }

  /** A string without `%` decodes to itself. */
  lemma {:induction false} DecodeWithoutPercent(s: string)
    requires forall i :: 0 <= i < |s| ==> s[i] != '%'
    ensures DecodeURIComponent(s) == Some(s)
  {
    if s != [] {
      DecodeWithoutPercent(s[1..]);
      assert [s[0]] + s[1..] == s;
    }
  }

  lemma ReadPercentByte(b: Byte, tail: string)
    ensures ReadByte(PercentByte(b) + tail) == Some(b)
  {
    var s := PercentByte(b) + tail;
    HexRoundTrip(b / 16);
    HexRoundTrip(b % 16);
    assert s[1] == HexDigit(b / 16) && s[2] == HexDigit(b % 16);
  }

  lemma {:induction false} ReadPercentEncoded(bytes: seq<Byte>, tail: string)
    ensures ReadBytes(PercentEncode(bytes) + tail, |bytes|) == Some(bytes)
  {
    if bytes != [] {
      PercentEncodeFront(bytes, tail);
      ReadPercentByte(bytes[0], PercentEncode(bytes[1..]) + tail);
      ReadPercentEncoded(bytes[1..], tail);
      assert [bytes[0]] + bytes[1..] == bytes;
    }
  }

  /** The escapes of a byte sequence are the first byte's escape, then the rest's. */
  lemma PercentEncodeFront(bytes: seq<Byte>, tail: string)
    requires bytes != []
    ensures PercentEncode(bytes) + tail == PercentByte(bytes[0]) + (PercentEncode(bytes[1..]) + tail)
    ensures (PercentEncode(bytes) + tail)[3..] == PercentEncode(bytes[1..]) + tail
  {
    assert PercentEncode(bytes) + tail == PercentByte(bytes[0]) + (PercentEncode(bytes[1..]) + tail);
  }

  /** The escapes of one character decode to that character, whatever follows them. */
  lemma DecodeOneOfEncodeChar(c: char, tail: string)
    ensures DecodeOne(EncodeChar(c) + tail) == Some((c, |EncodeChar(c)|))
  {
    if !IsUnescaped(c) {
      var bytes := Utf8(c);
      var s := PercentEncode(bytes) + tail;
      ReadPercentEncoded(bytes, tail);
      Utf8ValueOfUtf8(c);
      Utf8DecodeOfUtf8(c);
      assert s[0] == '%';
    }
  }

  /** `decodeURIComponent(encodeURIComponent(s)) == s`. */
  lemma {:induction false} DecodeEncode(s: string)
    ensures DecodeURIComponent(EncodeURIComponent(s)) == Some(s)
  {
    if s != [] {
      var head := EncodeChar(s[0]);
      var rest := EncodeURIComponent(s[1..]);
      DecodeOneOfEncodeChar(s[0], rest);
      assert (head + rest)[|head|..] == rest;
      DecodeEncode(s[1..]);
      assert [s[0]] + s[1..] == s;
    }
  }

  /** Encoding is one-to-one: different strings never share an encoding. */
  lemma EncodeInjective(s: string, t: string)
    requires EncodeURIComponent(s) == EncodeURIComponent(t)
    ensures s == t
  {
    DecodeEncode(s);
    DecodeEncode(t);
  }

  // ---------------------------------------------------------------------------
  // Paths

  function EncodeSegments(parts: seq<string>): (r: seq<string>)
    ensures |r| == |parts|
    ensures forall i :: 0 <= i < |parts| ==> r[i] == EncodeURIComponent(parts[i])
  {
    if parts == [] then [] else [EncodeURIComponent(parts[0])] + EncodeSegments(parts[1..])
  }

  /** `p.split('/').map(encodeURIComponent).join('/')`. */
  function EncodePath(p: string): string {
    Join(EncodeSegments(Split(p, "/")), "/")
  }

  lemma EncodedHasNoSlash(r: string)
    requires IsEncoded(r)
    ensures !Contains(r, "/")
  {
    forall i: nat | i + 1 <= |r|
      ensures !OccursAt(r, "/", i)
    {
      assert r[i..i + 1][0] == r[i];
    }
  }

  /**
   * The encoded path has the same `/`-separated segments as the path, each one
   * percent-encoded; no segment gains or loses a `/`.
   */
  lemma EncodePathSegments(p: string)
    ensures Split(EncodePath(p), "/") == EncodeSegments(Split(p, "/"))
  {
    var segs := EncodeSegments(Split(p, "/"));
    forall k | 0 <= k < |segs|
      ensures !Contains(segs[k], "/")
    {
      EncodedHasNoSlash(segs[k]);
    }
    SplitJoin(segs, "/");
  }

  /** Each segment of the encoded path decodes back to the segment of the path. */
  lemma EncodePathDecodes(p: string)
    ensures |Split(EncodePath(p), "/")| == |Split(p, "/")|
    ensures forall k :: 0 <= k < |Split(p, "/")| ==>
      DecodeURIComponent(Split(EncodePath(p), "/")[k]) == Some(Split(p, "/")[k])
  {
    EncodePathSegments(p);
    forall k | 0 <= k < |Split(p, "/")|
      ensures DecodeURIComponent(EncodeURIComponent(Split(p, "/")[k])) == Some(Split(p, "/")[k])
    {
      DecodeEncode(Split(p, "/")[k]);
    }
  }

  /** A path made of unescaped characters and slashes goes out as it is. */
  lemma PlainPathUnchanged(p: string)
    requires forall i :: 0 <= i < |p| ==> IsUnescaped(p[i]) || p[i] == '/'
    ensures EncodePath(p) == p
  {
    var parts := Split(p, "/");
    SplitOfPlain(p);
    forall k | 0 <= k < |parts|
      ensures EncodeURIComponent(parts[k]) == parts[k]
    {
      PlainSegmentUnchanged(parts[k]);
    }
    assert EncodeSegments(parts) == parts;
    JoinSplit(p, "/");
  }

  /** Splitting keeps only characters of the string, minus the separators. */
  lemma {:induction false} SplitOfPlain(p: string)
    requires forall i :: 0 <= i < |p| ==> IsUnescaped(p[i]) || p[i] == '/'
    ensures forall k, i :: 0 <= k < |Split(p, "/")| && 0 <= i < |Split(p, "/")[k]| ==> IsUnescaped(Split(p, "/")[k][i])
    decreases |p|
  {
    IndexOfFirst(p, "/");
    match IndexOf(p, "/")
    case None =>
      forall i | 0 <= i < |p|
        ensures IsUnescaped(p[i])
      {
        assert p[i..i + 1] == [p[i]];
        assert !OccursAt(p, "/", i);
      }
    case Some(j) =>
      forall i | 0 <= i < j
        ensures IsUnescaped(p[i])
      {
        assert p[i..i + 1] == [p[i]];
        assert !OccursAt(p, "/", i);
      }
      SplitOfPlain(p[j + 1..]);
  }

  lemma {:induction false} PlainSegmentUnchanged(s: string)
    requires forall i :: 0 <= i < |s| ==> IsUnescaped(s[i])
    ensures EncodeURIComponent(s) == s
  {
    if s != [] {
      PlainSegmentUnchanged(s[1..]);
      assert [s[0]] + s[1..] == s;
    }
  }
}
