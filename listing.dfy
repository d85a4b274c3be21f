/**
 * `filterResponse(dirPath)`: the combinator `listRemote` applies to its two
 * results. It normalises the directory path, drops the directory's own entry
 * from the listing and normalises the file names of the rest. The source
 * rewrites `file.filename` on the entry objects themselves; `FilterFiles` is the
 * same computation on values, and `FilterEntries` the in-place one.
 */
module Listing {
  import opened Js
  import opened Paths

  /** A listed entry: its `filename`, and the rest of its stat as `detail`. */
  datatype Entry<+D> = Entry(filename: string, detail: D)

  /** `{ stat, pathname, files }`, what `listRemote` resolves with. */
  datatype Listed<+S, +D> = Listed(stat: S, pathname: string, files: seq<Entry<D>>)

  function Normalised<D>(e: Entry<D>): Entry<D> {
    e.(filename := EnforceForwardSlashes(e.filename))
  }

  /** The entries other than `pathname` itself, in order, with normalised names. */
  function FilterFiles<D>(pathname: string, files: seq<Entry<D>>): (r: seq<Entry<D>>)
    ensures |r| <= |files|
  {
    if files == [] then []
    else
      var e := Normalised(files[0]);
      var rest := FilterFiles(pathname, files[1..]);
      if e.filename != pathname then [e] + rest else rest
  }

  /** `filterResponse(dirPath)([stat, files])`. */
  function FilterResponse<S, D>(dirPath: string, stat: S, files: seq<Entry<D>>): (r: Listed<S, D>)
    ensures r.stat == stat && NoBackslash(r.pathname)
    ensures forall i :: 0 <= i < |r.files| ==> r.files[i].filename != r.pathname
  {
    var pathname := EnforceForwardSlashes(dirPath);
    FilterFilesDropsSelf(pathname, files);
    Listed(stat, pathname, FilterFiles(pathname, files))
  }

  /** No kept entry is the directory itself, and every kept name is normalised. */
  lemma {:induction false} FilterFilesDropsSelf<D>(pathname: string, files: seq<Entry<D>>)
    ensures forall i :: 0 <= i < |FilterFiles(pathname, files)| ==>
      FilterFiles(pathname, files)[i].filename != pathname && NoBackslash(FilterFiles(pathname, files)[i].filename)
  {
    if files != [] {
      FilterFilesDropsSelf(pathname, files[1..]);
    }
  }

  /** Filtering a concatenation filters each part: the order of the entries is kept. */
  lemma {:induction false} FilterFilesAppend<D>(pathname: string, a: seq<Entry<D>>, b: seq<Entry<D>>)
    ensures FilterFiles(pathname, a + b) == FilterFiles(pathname, a) + FilterFiles(pathname, b)
  {
    if a != [] {
      assert (a + b)[0] == a[0];
      assert (a + b)[1..] == a[1..] + b;
      FilterFilesAppend(pathname, a[1..], b);
    } else {
      assert a + b == b;
    }
  }

  /** One entry is dropped exactly when its normalised name is the directory's; otherwise it is kept, normalised. */
  lemma FilterFilesOne<D>(pathname: string, e: Entry<D>)
    ensures EnforceForwardSlashes(e.filename) == pathname ==> FilterFiles(pathname, [e]) == []
    ensures EnforceForwardSlashes(e.filename) != pathname ==> FilterFiles(pathname, [e]) == [Normalised(e)]
  {
    assert [e][1..] == [];
  }

  /** Every entry other than the directory itself appears, normalised, in the result. */
  lemma {:induction false} FilterFilesKeepsOthers<D>(pathname: string, files: seq<Entry<D>>, j: nat)
    requires j < |files| && EnforceForwardSlashes(files[j].filename) != pathname
    ensures Normalised(files[j]) in FilterFiles(pathname, files)
  {
    if j > 0 {
      assert files[1..][j - 1] == files[j];
      FilterFilesKeepsOthers(pathname, files[1..], j - 1);
    } else {
      assert FilterFiles(pathname, files)[0] == Normalised(files[0]);
    }
  }

  /** Every kept entry is a normalised entry of the listing, with its detail unchanged. */
  lemma {:induction false} FilterFilesOrigin<D>(pathname: string, files: seq<Entry<D>>, i: nat)
    requires i < |FilterFiles(pathname, files)|
    ensures exists j :: 0 <= j < |files| && FilterFiles(pathname, files)[i] == Normalised(files[j])
  {
    var rest := FilterFiles(pathname, files[1..]);
    var r := FilterFiles(pathname, files);
    if r != rest && i == 0 {
      assert r[0] == Normalised(files[0]);
    } else {
      var k := if r == rest then i else i - 1;
      assert r[i] == rest[k];
      FilterFilesOrigin(pathname, files[1..], k);
      var j :| 0 <= j < |files[1..]| && rest[k] == Normalised(files[1..][j]);
      assert files[1..][j] == files[j + 1];
    }
  }

  /** Filtering what was filtered changes nothing. */
  lemma {:induction false} FilterFilesIdempotent<D>(pathname: string, files: seq<Entry<D>>)
    ensures FilterFiles(pathname, FilterFiles(pathname, files)) == FilterFiles(pathname, files)
  {
    if files != [] {
      var e := Normalised(files[0]);
      var rest := FilterFiles(pathname, files[1..]);
      FilterFilesIdempotent(pathname, files[1..]);
      EnforceForwardSlashesIdempotent(files[0].filename);
      if e.filename != pathname {
        assert ([e] + rest)[0] == e && ([e] + rest)[1..] == rest;
        assert Normalised(e) == e;
      }
    }
  }

  /** Filtering one more entry of a listing extends the result by that entry, if it is kept. */
  lemma FilterFilesStep<D>(pathname: string, files: seq<Entry<D>>, i: nat)
    requires i < |files|
    ensures FilterFiles(pathname, files[..i + 1]) == FilterFiles(pathname, files[..i]) +
      (if EnforceForwardSlashes(files[i].filename) != pathname then [Normalised(files[i])] else [])
  {
    assert files[..i + 1] == files[..i] + [files[i]];
    FilterFilesAppend(pathname, files[..i], [files[i]]);
    FilterFilesOne(pathname, files[i]);
  }

  // ---------------------------------------------------------------------------
  // In place

  /** A listed entry object whose `filename` `filterResponse` rewrites. */
  class RemoteEntry<D> {
    var filename: string
    const detail: D

    constructor (filename: string, detail: D)
      ensures this.filename == filename && this.detail == detail
    {
      this.filename := filename;
      this.detail := detail;
    }
  }

  /** A name that is either `raw` or its normal form normalises to the normal form of `raw`. */
  lemma NormalFormOfEither(raw: string, name: string)
    requires name == raw || name == EnforceForwardSlashes(raw)
    ensures EnforceForwardSlashes(name) == EnforceForwardSlashes(raw)
  {
    EnforceForwardSlashesIdempotent(raw);
  }

  /**
   * The first `i` objects of the listing hold normalised names, and every object
   * holds either its name on entry or its normal form.
   */
  ghost predicate NormalisedUpTo<D>(files: seq<RemoteEntry<D>>, before: seq<Entry<D>>, i: nat)
    requires |before| == |files|
    reads set f | f in files
  {
    && (forall j :: 0 <= j < |files| ==>
         files[j].filename == before[j].filename || files[j].filename == EnforceForwardSlashes(before[j].filename))
    && (forall j :: 0 <= j < i && j < |files| ==> files[j].filename == EnforceForwardSlashes(before[j].filename))
  }

  /**
   * `file.filename = enforceForwardSlashes(file.filename)` on the `i`-th object.
   * When the same object also stands earlier or later in the listing, those
   * places see the new name too, which is their normal form as well.
   */
  method NormaliseEntry<D>(files: seq<RemoteEntry<D>>, ghost before: seq<Entry<D>>, i: nat)
    requires |before| == |files| && i < |files|
    requires forall j :: 0 <= j < |files| ==> before[j].detail == files[j].detail
    requires NormalisedUpTo(files, before, i)
    modifies files[i]
    ensures NormalisedUpTo(files, before, i + 1)
    ensures files[i].filename == EnforceForwardSlashes(before[i].filename)
  {
    var f := files[i];
    var name := EnforceForwardSlashes(f.filename);
    forall j | 0 <= j < |files| && files[j] == f
      ensures EnforceForwardSlashes(before[j].filename) == name
    {
      NormalFormOfEither(before[j].filename, f.filename);
      NormalFormOfEither(before[i].filename, f.filename);
    }
    f.filename := name;
  }

  /**
   * `kept` are the objects at positions `at` of the listing, all before `i`,
   * and `expected` is what those positions held on entry, normalised.
   */
  ghost predicate Picks<D>(kept: seq<RemoteEntry<D>>, at: seq<nat>, files: seq<RemoteEntry<D>>,
                           before: seq<Entry<D>>, expected: seq<Entry<D>>, i: nat)
  {
    && |at| == |kept| == |expected|
    && (forall k :: 0 <= k < |at| ==> at[k] < i && at[k] < |files| && at[k] < |before| && kept[k] == files[at[k]])
    && (forall k :: 0 <= k < |at| ==> at[k] < |before| && Normalised(before[at[k]]) == expected[k])
  }

  lemma PicksNext<D>(kept: seq<RemoteEntry<D>>, at: seq<nat>, files: seq<RemoteEntry<D>>,
                     before: seq<Entry<D>>, expected: seq<Entry<D>>, i: nat)
    requires i < |files| == |before| && Picks(kept, at, files, before, expected, i)
    ensures Picks(kept, at, files, before, expected, i + 1)
    ensures Picks(kept + [files[i]], at + [i], files, before, expected + [Normalised(before[i])], i + 1)
  {
  }

  /**
   * The `files.filter` of `filterResponse`, on the entry objects of one listing:
   * every object gets its name normalised in place, and the objects kept are
   * those whose new name is not `pathname`, in order. `before` is what the
   * objects held on entry, so the kept objects hold `FilterFiles(pathname, before)`.
   * An object listed twice is normalised twice, which changes nothing the second time.
   */
  method FilterEntries<D>(pathname: string, files: seq<RemoteEntry<D>>, ghost before: seq<Entry<D>>)
    returns (kept: seq<RemoteEntry<D>>)
    requires |before| == |files|
    requires forall j :: 0 <= j < |files| ==> before[j] == Entry(files[j].filename, files[j].detail)
    modifies files
    ensures forall j :: 0 <= j < |files| ==> files[j].filename == EnforceForwardSlashes(before[j].filename)
    ensures forall f :: f in kept ==> f in files
    ensures |kept| == |FilterFiles(pathname, before)|
    ensures forall k :: 0 <= k < |kept| ==> Entry(kept[k].filename, kept[k].detail) == FilterFiles(pathname, before)[k]
  {
    ghost var at: seq<nat> := [];
    ghost var expected: seq<Entry<D>> := [];
    kept := [];
    var i := 0;
    while i < |files|
      invariant 0 <= i <= |files|
      invariant NormalisedUpTo(files, before, i)
      invariant expected == FilterFiles(pathname, before[..i])
      invariant Picks(kept, at, files, before, expected, i)
    {
      FilterFilesStep(pathname, before, i);
      PicksNext(kept, at, files, before, expected, i);
      NormaliseEntry(files, before, i);
      var f := files[i];
      if f.filename != pathname {
        kept := kept + [f];
        at := at + [i];
        expected := expected + [Normalised(before[i])];
      }
      i := i + 1;
    }
    assert before[..i] == before;
  }
}
