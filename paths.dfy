/**
 * Path helpers the sync engine calls. `enforceForwardSlashes` is defined here;
 * `path.join`, `path.posix.join`, `path.basename` and `pretty-bytes` are library
 * code and are given to the engine as functions.
 */
module Paths {
  import opened Js

  /** The library functions the engine formats paths and sizes with. */
  datatype PathOps = PathOps(
    join: (string, string) -> string,       // path.join
    posixJoin: (string, string) -> string,  // path.posix.join
    basename: string -> string,             // path.basename
    prettyBytes: nat -> string              // pretty-bytes
  )

  predicate NoBackslash(s: string) { forall i :: 0 <= i < |s| ==> s[i] != '\\' }

  /** Drops the backslashes at the front of `s`. */
  function DropBackslashes(s: string): (r: string)
    ensures |r| <= |s|
    ensures r == [] || r[0] != '\\'
  {
    if s != [] && s[0] == '\\' then DropBackslashes(s[1..]) else s
  }

  /**
   * `enforceForwardSlashes(p)`: every run of backslashes becomes a single forward
   * slash; everything else is kept.
   */
  function EnforceForwardSlashes(s: string): (r: string)
    ensures NoBackslash(r)
    decreases |s|
  {
    if s == [] then []
    else if s[0] == '\\' then "/" + EnforceForwardSlashes(DropBackslashes(s[1..]))
    else [s[0]] + EnforceForwardSlashes(s[1..])
  }

  /** A path without backslashes is left as it is. */
  lemma {:induction false} NoBackslashUnchanged(s: string)
    requires NoBackslash(s)
    ensures EnforceForwardSlashes(s) == s
    decreases |s|
  {
    if s != [] {
      NoBackslashUnchanged(s[1..]);
    }
  }

  /** Normalising twice is normalising once. */
  lemma EnforceForwardSlashesIdempotent(s: string)
    ensures EnforceForwardSlashes(EnforceForwardSlashes(s)) == EnforceForwardSlashes(s)
  {
    NoBackslashUnchanged(EnforceForwardSlashes(s));
  }

  /** Forward slashes and other characters are kept in place; only backslash runs change. */
  lemma {:induction false} KeepsOtherCharacters(a: string, b: string)
    requires NoBackslash(a)
    ensures EnforceForwardSlashes(a + b) == a + EnforceForwardSlashes(b)
    decreases |a|
  {
    if a != [] {
      assert (a + b)[0] == a[0] != '\\';
      assert (a + b)[1..] == a[1..] + b;
      KeepsOtherCharacters(a[1..], b);
      assert EnforceForwardSlashes(a + b) == [a[0]] + (a[1..] + EnforceForwardSlashes(b));
      assert [a[0]] + a[1..] == a;
    } else {
      assert a + b == b;
    }
  }

  /** A run of one or more backslashes becomes a single forward slash. */
  lemma {:induction false} BackslashRun(n: nat, b: string)
    requires n >= 1 && (b == [] || b[0] != '\\')
    ensures EnforceForwardSlashes(seq(n, _ => '\\') + b) == "/" + EnforceForwardSlashes(b)
  {
    var s := seq(n, _ => '\\') + b;
    DropRun(n - 1, b);
    assert s[1..] == seq(n - 1, _ => '\\') + b;
  }

  lemma {:induction false} DropRun(n: nat, b: string)
    requires b == [] || b[0] != '\\'
    ensures DropBackslashes(seq(n, _ => '\\') + b) == b
  {
    if n > 0 {
      var s := seq(n, _ => '\\') + b;
      assert s[1..] == seq(n - 1, _ => '\\') + b;
      DropRun(n - 1, b);
    }
  }

  /**
   * Segments without backslashes, joined by runs of n >= 1 backslashes, come out
   * joined by single forward slashes: the Windows spellings `a\\b` and `a\\\\b`
   * of the source's tests both become `a/b`.
   */
  lemma {:induction false} BackslashSeparatedSegments(segs: seq<string>, n: nat)
    requires n >= 1 && segs != []
    requires forall k :: 0 <= k < |segs| ==> NoBackslash(segs[k])
    requires forall k :: 1 <= k < |segs| ==> segs[k] != []
    ensures EnforceForwardSlashes(Join(segs, seq(n, _ => '\\'))) == Join(segs, "/")
  {
    var run := seq(n, _ => '\\');
    if |segs| == 1 {
      NoBackslashUnchanged(segs[0]);
    } else {
      var tail := segs[1..];
      var rest := Join(tail, run);
      BackslashSeparatedSegments(tail, n);
      JoinFront(segs, run);
      JoinFront(segs, "/");
      JoinStartsWithHead(tail, run);
      assert rest[0] == tail[0][0] != '\\';
      SegmentThenRun(segs[0], n, rest);
    }
  }

  /** A join of two or more parts is the first part, the separator, then the join of the rest. */
  lemma JoinFront(parts: seq<string>, sep: string)
    requires |parts| >= 2
    ensures Join(parts, sep) == parts[0] + (sep + Join(parts[1..], sep))
  {
    JoinCons(parts[0], parts[1..], sep);
    assert [parts[0]] + parts[1..] == parts;
  }

  /** A segment, a run of backslashes, then what follows: the run becomes one slash. */
  lemma SegmentThenRun(seg: string, n: nat, rest: string)
    requires NoBackslash(seg) && n >= 1 && (rest == [] || rest[0] != '\\')
    ensures EnforceForwardSlashes(seg + (seq(n, _ => '\\') + rest)) == seg + ("/" + EnforceForwardSlashes(rest))
  {
    KeepsOtherCharacters(seg, seq(n, _ => '\\') + rest);
    BackslashRun(n, rest);
  }

  /** A join starts with its first part. */
  lemma JoinStartsWithHead(parts: seq<string>, sep: string)
    requires parts != []
    ensures parts[0] <= Join(parts, sep)
  {
    if |parts| > 1 {
      JoinCons(parts[0], parts[1..], sep);
      assert [parts[0]] + parts[1..] == parts;
    }
  }
}
