/**
 * The JavaScript built-ins that the sync engine leans on: numbers that may be NaN,
 * `parseInt(s, 10)`, `String(n)`, and the string methods `indexOf`, `startsWith`,
 * `split`, `join` and `replace` with a string pattern.
 */
module Js {
  import opened Results

  /** A JavaScript number, restricted to the integers and NaN. */
  datatype JsNumber = Int(value: int) | NaN

  // ---------------------------------------------------------------------------
  // Decimal digits

  predicate IsDigit(c: char) { '0' <= c <= '9' }

  predicate AllDigits(s: string) { forall i :: 0 <= i < |s| ==> IsDigit(s[i]) }

  function DigitValue(c: char): (d: nat)
    requires IsDigit(c)
    ensures d < 10
  {
    (c as int) - ('0' as int)
  }

  function DigitChar(d: nat): (c: char)
    requires d < 10
    ensures IsDigit(c) && DigitValue(c) == d
  {
    (('0' as int) + d) as char
  }

  /** The value of a string of decimal digits, most significant first. */
  function DigitsValue(s: string): nat
    requires AllDigits(s)
  {
    if s == [] then 0 else DigitsValue(s[..|s| - 1]) * 10 + DigitValue(s[|s| - 1])
  }

  /** The canonical decimal spelling of a natural number: no leading zero. */
  function NatToString(n: nat): (s: string)
    ensures |s| >= 1 && AllDigits(s)
    ensures |s| > 1 ==> s[0] != '0'
  {
    if n < 10 then [DigitChar(n)] else NatToString(n / 10) + [DigitChar(n % 10)]
  }

  /** `String(n)` for a JavaScript number. */
  function NumberToString(n: JsNumber): string {
    match n
    case NaN => "NaN"
    case Int(v) => if v < 0 then "-" + NatToString(-v) else NatToString(v)
  }

  lemma {:induction false} NatToStringValue(n: nat)
    ensures DigitsValue(NatToString(n)) == n
  {
    if n >= 10 {
      var s := NatToString(n);
      NatToStringValue(n / 10);
      assert s[..|s| - 1] == NatToString(n / 10);
    }
  }

  // ---------------------------------------------------------------------------
  // parseInt(s, 10)

  /** The characters `parseInt` skips before the number (ECMAScript StrWhiteSpaceChar). */
  predicate IsJsWhiteSpace(c: char) {
    c == '\t' || c == '\n' || c == '\U{000B}' || c == '\U{000C}' || c == '\r' || c == ' '
    || c == '\U{00A0}' || c == '\U{1680}' || ('\U{2000}' <= c <= '\U{200A}')
    || c == '\U{2028}' || c == '\U{2029}' || c == '\U{202F}' || c == '\U{205F}'
    || c == '\U{3000}' || c == '\U{FEFF}'
  }

  /** `s.trimStart()`, as `parseInt` applies it: a suffix of `s`. */
  function TrimStart(s: string): (r: string)
    ensures |r| <= |s|
  {
    if s != [] && IsJsWhiteSpace(s[0]) then TrimStart(s[1..]) else s
  }

  /** What `TrimStart` drops is white space, and what it keeps does not start with any. */
  lemma {:induction false} TrimStartStripsWhiteSpace(s: string)
    ensures TrimStart(s) == s[|s| - |TrimStart(s)|..]
    ensures TrimStart(s) == [] || !IsJsWhiteSpace(TrimStart(s)[0])
    ensures forall i :: 0 <= i < |s| - |TrimStart(s)| ==> IsJsWhiteSpace(s[i])
  {
    if s != [] && IsJsWhiteSpace(s[0]) {
      TrimStartStripsWhiteSpace(s[1..]);
      forall i | 1 <= i < |s| - |TrimStart(s)|
        ensures IsJsWhiteSpace(s[i])
      {
        assert s[i] == s[1..][i - 1];
      }
    }
  }

  /** The longest prefix of `s` made of decimal digits. */
  function DigitPrefix(s: string): (r: string)
    ensures |r| <= |s|
  {
    if s != [] && IsDigit(s[0]) then [s[0]] + DigitPrefix(s[1..]) else []
  }

  /** `DigitPrefix` is a prefix made of digits, and the character after it is not one. */
  lemma {:induction false} DigitPrefixIsLongest(s: string)
    ensures AllDigits(DigitPrefix(s)) && DigitPrefix(s) <= s
    ensures |DigitPrefix(s)| < |s| ==> !IsDigit(s[|DigitPrefix(s)|])
  {
    if s != [] && IsDigit(s[0]) {
      DigitPrefixIsLongest(s[1..]);
      assert DigitPrefix(s) == [s[0]] + DigitPrefix(s[1..]);
    }
  }

  /**
   * `parseInt(s, 10)`: skip leading white space, read an optional sign and then
   * as many decimal digits as there are; NaN when there is no digit.
   */
  function ParseInt(s: string): JsNumber {
    ParseSigned(TrimStart(s))
  }

  /** `parseInt` past the white space: an optional sign, then the digits. */
  function ParseSigned(t: string): JsNumber {
    if t != [] && t[0] == '-' then Negate(ParseDigits(t[1..]))
    else if t != [] && t[0] == '+' then ParseDigits(t[1..])
    else ParseDigits(t)
  }

  function Negate(n: JsNumber): JsNumber {
    match n
    case Int(v) => Int(-v)
    case NaN => NaN
  }

  /** The value of the leading digits, NaN when there are none. */
  function ParseDigits(body: string): JsNumber {
    var digits := DigitPrefix(body);
    DigitPrefixIsLongest(body);
    if digits == [] then NaN else Int(DigitsValue(digits))
  }

  lemma DigitPrefixOfDigits(s: string, rest: string)
    requires AllDigits(s)
    requires rest == [] || !IsDigit(rest[0])
    ensures DigitPrefix(s + rest) == s
  {
    if s != [] {
      assert (s + rest)[1..] == s[1..] + rest;
      DigitPrefixOfDigits(s[1..], rest);
    }
  }

  lemma TrimStartKeeps(s: string)
    requires s != [] && (IsDigit(s[0]) || s[0] == '-')
    ensures TrimStart(s) == s
  {
  }

  lemma ParseDigitsOfDigits(digits: string, rest: string)
    requires AllDigits(digits) && digits != []
    requires rest == [] || !IsDigit(rest[0])
    ensures ParseDigits(digits + rest) == Int(DigitsValue(digits))
  {
    DigitPrefixOfDigits(digits, rest);
  }

  /** A string that starts with a digit is read without sign handling. */
  lemma ParseIntUnsigned(s: string)
    requires s != [] && IsDigit(s[0])
    ensures ParseInt(s) == ParseDigits(s)
  {
    TrimStartKeeps(s);
  }

  /** A string that starts with `-` reads as the negation of what follows it. */
  lemma ParseIntNegative(u: string)
    ensures ParseInt(['-'] + u) == Negate(ParseDigits(u))
  {
    var t := ['-'] + u;
    assert t[0] == '-' && t[1..] == u;
    TrimStartKeeps(t);
  }

  lemma ParseIntOfDigits(digits: string, rest: string)
    requires AllDigits(digits) && digits != []
    requires rest == [] || !IsDigit(rest[0])
    ensures ParseInt(digits + rest) == Int(DigitsValue(digits))
  {
    assert (digits + rest)[0] == digits[0];
    ParseIntUnsigned(digits + rest);
    ParseDigitsOfDigits(digits, rest);
  }

  lemma ParseIntOfNegativeDigits(digits: string, rest: string)
    requires AllDigits(digits) && digits != []
    requires rest == [] || !IsDigit(rest[0])
    ensures ParseInt(['-'] + (digits + rest)) == Int(-(DigitsValue(digits) as int))
  {
    ParseIntNegative(digits + rest);
    ParseDigitsOfDigits(digits, rest);
  }

  /** A string that starts with neither white space, a sign nor a digit reads as NaN. */
  lemma ParseIntOfNonNumeric(s: string)
    requires s != [] && !IsDigit(s[0]) && !IsJsWhiteSpace(s[0]) && s[0] != '-' && s[0] != '+'
    ensures ParseInt(s) == NaN
  {
    assert TrimStart(s) == s;
    assert ParseSigned(s) == ParseDigits(s);
    assert DigitPrefix(s) == [];
  }

  /** `parseInt` reads back what `String` writes, and stops at the first non-digit. */
  lemma ParseIntOfNumberToString(n: int, rest: string)
    requires rest == [] || !IsDigit(rest[0])
    ensures ParseInt(NumberToString(Int(n)) + rest) == Int(n)
  {
    if n < 0 {
      NegativeSpelling(n, rest);
      ParseIntOfNegativeNat(-n, rest);
    } else {
      ParseIntOfNatToString(n, rest);
    }
  }

  lemma ParseIntOfNegativeNat(v: nat, rest: string)
    requires rest == [] || !IsDigit(rest[0])
    ensures ParseInt(['-'] + (NatToString(v) + rest)) == Int(-(v as int))
  {
    NatToStringValue(v);
    ParseIntOfNegativeDigits(NatToString(v), rest);
  }

  lemma NegativeSpelling(n: int, rest: string)
    requires n < 0
    ensures NumberToString(Int(n)) + rest == ['-'] + (NatToString(-n) + rest)
  {
    assert NumberToString(Int(n)) == ['-'] + NatToString(-n);
  }

  /** The same for a natural number, which `String` writes without a sign. */
  lemma ParseIntOfNatToString(n: nat, rest: string)
    requires rest == [] || !IsDigit(rest[0])
    ensures ParseInt(NatToString(n) + rest) == Int(n)
    ensures ParseInt(NatToString(n)) == Int(n)
  {
    NatToStringValue(n);
    ParseIntOfDigits(NatToString(n), rest);
    ParseIntOfDigits(NatToString(n), []);
    assert NatToString(n) + [] == NatToString(n);
  }

  // ---------------------------------------------------------------------------
  // indexOf, startsWith, split, join, replace

  predicate OccursAt(s: string, pat: string, i: nat) {
    i + |pat| <= |s| && s[i..i + |pat|] == pat
  }

  ghost predicate Contains(s: string, pat: string) {
    exists i: nat :: OccursAt(s, pat, i)
  }

  /** An occurrence past the first position is an occurrence in the tail. */
  lemma OccursInTail(s: string, pat: string)
    requires s != []
    ensures forall j: nat :: 1 <= j ==> (OccursAt(s, pat, j) <==> OccursAt(s[1..], pat, j - 1))
  {
    forall j: nat | 1 <= j
      ensures OccursAt(s, pat, j) <==> OccursAt(s[1..], pat, j - 1)
    {
      if j + |pat| <= |s| {
        assert s[j..j + |pat|] == s[1..][j - 1..j - 1 + |pat|];
      }
    }
  }

  /** `s.indexOf(pat)`: a position at which `pat` occurs (the first, by `IndexOfFirst`). */
  function IndexOf(s: string, pat: string): (r: Option<nat>)
    ensures r.Some? ==> OccursAt(s, pat, r.value)
  {
    if |s| < |pat| then
      None
    else if s[..|pat|] == pat then
      Some(0)
    else
      match IndexOf(s[1..], pat)
      case None => None
      case Some(k) =>
        assert s[k + 1..k + 1 + |pat|] == s[1..][k..k + |pat|];
        Some(k + 1)
  }

  /** `indexOf` finds the first occurrence, and finds none exactly when there is none. */
  lemma {:induction false} IndexOfFirst(s: string, pat: string)
    ensures IndexOf(s, pat).Some? ==> forall j: nat :: j < IndexOf(s, pat).value ==> !OccursAt(s, pat, j)
    ensures IndexOf(s, pat).None? <==> !Contains(s, pat)
  {
    if |s| < |pat| {
    } else if s[..|pat|] == pat {
      assert OccursAt(s, pat, 0);
    } else {
      IndexOfFirst(s[1..], pat);
      OccursInTail(s, pat);
    }
  }

  /** An occurrence with none before it is the one `indexOf` finds. */
  lemma IndexOfIs(s: string, pat: string, k: nat)
    requires OccursAt(s, pat, k)
    requires forall j: nat :: j < k ==> !OccursAt(s, pat, j)
    ensures IndexOf(s, pat) == Some(k)
  {
    IndexOfFirst(s, pat);
  }

  predicate StartsWith(s: string, prefix: string) { prefix <= s }

  /** `s.replace(pat, '')`: remove the first occurrence of `pat`, if any. */
  function RemoveFirst(s: string, pat: string): (r: string)
    ensures !Contains(s, pat) ==> r == s
    ensures Contains(s, pat) ==> |r| == |s| - |pat|
  {
    IndexOfFirst(s, pat);
    match IndexOf(s, pat)
    case None => s
    case Some(i) => s[..i] + s[i + |pat|..]
  }

  /** `s.split(sep)` for a non-empty separator. */
  function Split(s: string, sep: string): (r: seq<string>)
    requires sep != []
    ensures |r| >= 1
    decreases |s|
  {
    match IndexOf(s, sep)
    case None => [s]
    case Some(i) => [s[..i]] + Split(s[i + |sep|..], sep)
  }

  /** No part that `split` returns contains the separator. */
  lemma {:induction false} SplitPartsFree(s: string, sep: string)
    requires sep != []
    ensures forall k :: 0 <= k < |Split(s, sep)| ==> !Contains(Split(s, sep)[k], sep)
    decreases |s|
  {
    IndexOfFirst(s, sep);
    match IndexOf(s, sep)
    case None =>
    case Some(i) =>
      IndexOfInBounds(s, sep, i);
      SplitAt(s, sep, i);
      var head := s[..i];
      assert !Contains(head, sep) by {
        forall j: nat | OccursAt(head, sep, j) ensures false {
          assert head[j..j + |sep|] == s[j..j + |sep|];
          assert OccursAt(s, sep, j);
        }
      }
      SplitPartsFree(s[i + |sep|..], sep);
  }

  /** The first part of a split runs up to the first separator, or to the end. */
  lemma SplitFirstPart(s: string, sep: string)
    requires sep != []
    ensures Split(s, sep)[0] <= s
    ensures |Split(s, sep)[0]| == |s| || OccursAt(s, sep, |Split(s, sep)[0]|)
  {
  }

  /**
   * Past the first separator, found at `i`, the second part of a split runs up to
   * the next separator, or to the end.
   */
  lemma SplitSecondPart(s: string, sep: string, i: nat)
    requires sep != [] && IndexOf(s, sep) == Some(i)
    ensures |Split(s, sep)| >= 2 && Split(s, sep)[1] == Split(s[i + |sep|..], sep)[0]
  {
    IndexOfInBounds(s, sep, i);
    SplitAt(s, sep, i);
    var parts := Split(s[i + |sep|..], sep);
    assert ([s[..i]] + parts)[1] == parts[0];
  }

  /** A separator found at `i` ends within the string. */
  lemma IndexOfInBounds(s: string, sep: string, i: nat)
    requires IndexOf(s, sep) == Some(i)
    ensures i + |sep| <= |s|
  {
  }

  /** Where `indexOf` finds the separator, `split` cuts off the first part. */
  lemma SplitAt(s: string, sep: string, i: nat)
    requires sep != [] && IndexOf(s, sep) == Some(i) && i + |sep| <= |s|
    ensures Split(s, sep) == [s[..i]] + Split(s[i + |sep|..], sep)
  {
  }

  /** `parts.join(sep)`. */
  function Join(parts: seq<string>, sep: string): string {
    if parts == [] then []
    else if |parts| == 1 then parts[0]
    else parts[0] + sep + Join(parts[1..], sep)
  }

  lemma JoinCons(p: string, tail: seq<string>, sep: string)
    requires tail != []
    ensures Join([p] + tail, sep) == p + sep + Join(tail, sep)
  {
    assert ([p] + tail)[1..] == tail;
  }

  /** Joining what `split` returns gives back the original string. */
  lemma {:induction false} JoinSplit(s: string, sep: string)
    requires sep != []
    ensures Join(Split(s, sep), sep) == s
    decreases |s|
  {
    var found := IndexOf(s, sep);
    if found.Some? {
      var i := found.value;
      var rest := s[i + |sep|..];
      JoinSplit(rest, sep);
      JoinCons(s[..i], Split(rest, sep), sep);
      assert s == s[..i] + s[i..i + |sep|] + rest;
    }
  }

  /**
   * With a one-character separator that no part contains, `split` undoes `join`.
   */
  lemma {:induction false} SplitJoin(parts: seq<string>, sep: string)
    requires |sep| == 1 && parts != []
    requires forall k :: 0 <= k < |parts| ==> !Contains(parts[k], sep)
    ensures Split(Join(parts, sep), sep) == parts
  {
    if |parts| == 1 {
      assert Join(parts, sep) == parts[0];
    } else {
      var p := parts[0];
      var tail := Join(parts[1..], sep);
      var s := p + sep + tail;
      assert OccursAt(s, sep, |p|) by { assert s[|p|..|p| + 1] == sep; }
      assert !Contains(p, sep);
      forall j: nat | j < |p| ensures !OccursAt(s, sep, j) {
        assert !OccursAt(p, sep, j);
        assert s[j..j + 1] == p[j..j + 1];
      }
      IndexOfFirst(s, sep);
      assert IndexOf(s, sep) == Some(|p|);
      assert s[..|p|] == p;
      assert s[|p| + 1..] == tail;
      SplitJoin(parts[1..], sep);
    }
  }
}
