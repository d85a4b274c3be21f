/**
 * What the sync operations promise, proved about the functions of `Sync`: which
 * requests each one makes, which lines it logs, and what it settles with, for
 * every outcome of the requests it meets.
 */
module SyncProperties {
  import opened Results
  import opened Js
  import opened Failures
  import opened ErrorHandler
  import opened RequestHandler
  import opened Uri
  import opened Paths
  import opened Listing
  import opened Transport
  import opened Sync

  // ---------------------------------------------------------------------------
  // The requests of a trace

  /** The requests of a trace, in the order they were made. */
  function Calls(events: seq<Event>): (r: seq<Call>)
    ensures |r| <= |events|
  {
    if events == [] then []
    else (if events[0].Remote? then [events[0].call] else []) + Calls(events[1..])
  }

  lemma {:induction false} CallsAppend(a: seq<Event>, b: seq<Event>)
    ensures Calls(a + b) == Calls(a) + Calls(b)
  {
    if a == [] {
      assert a + b == b;
    } else {
      assert (a + b)[0] == a[0];
      assert (a + b)[1..] == a[1..] + b;
      CallsAppend(a[1..], b);
    }
  }

  lemma CallsOne(e: Event)
    ensures Calls([e]) == if e.Remote? then [e.call] else []
  {
    assert [e][1..] == [];
  }

  lemma CallsTwo(d: Event, e: Event)
    ensures Calls([d, e]) == Calls([d]) + Calls([e])
  {
    assert [d, e] == [d] + [e];
    CallsAppend([d], [e]);
  }

  // ---------------------------------------------------------------------------
  // Retried requests

  /**
   * A retried PROPFIND or MKCOL resolves exactly when its last attempt met a 2xx
   * reply; otherwise it rejects with what the last attempt met: the network
   * error unchanged, or the status and body of the reply.
   */
  lemma RequestRunSettles(c: Config, replies: nat -> RawReply)
    ensures var run := RequestRun(c, replies);
            var last := replies(|run.trace.calls| - 1);
            && (run.result.Ok? <==> last.Reply? && Is2xx(last.status))
            && (last.NetworkError? ==> run.result == Err(last.error))
            && (last.Reply? && !Is2xx(last.status) ==> run.result == Err(HttpError(last.status, last.body)))
  {
    var run := RequestRun(c, replies);
    RequestAttemptClassifies(replies(|run.trace.calls| - 1));
  }

  /**
   * A retried transfer resolves exactly when its last attempt met a 2xx reply and
   * the body went through; a 401, 403 or 404 on the last attempt rejects with the
   * fixed message for it.
   */
  lemma StreamRunSettles(c: Config, direction: Direction, replies: nat -> StreamReply)
    ensures var run := StreamRun(c, direction, replies);
            var last := replies(|run.trace.calls| - 1);
            && (run.result.Ok? <==> last.Replied? && Is2xx(last.status) && last.midTransfer.None?)
            && (last.RequestFailed? ==> run.result == Err(last.error))
            && (last.Replied? && last.status in {401, 403, 404} ==>
                  run.result == Err(HttpError(last.status, LookupStatusCode(last.status).value)))
  {
    var run := StreamRun(c, direction, replies);
    StreamAttemptClassifies(direction, replies(|run.trace.calls| - 1));
  }

  /**
   * A transfer whose first reply is a 401, 403 or 404 is attempted once: the
   * default handler does not retry a client error.
   */
  lemma ClientErrorTransferredOnce(c: Config, direction: Direction, replies: nat -> StreamReply)
    requires replies(0).Replied? && replies(0).status in {401, 403, 404}
    ensures |StreamRun(c, direction, replies).trace.calls| == 1
    ensures StreamRun(c, direction, replies).result ==
      Err(HttpError(replies(0).status, LookupStatusCode(replies(0).status).value))
  {
    var reply := replies(0);
    LookedUpStatusNotRetried(direction, reply.status, reply.bodyMessage, reply.midTransfer);
    StreamAttemptClassifies(direction, reply);
  }

  // ---------------------------------------------------------------------------
  // getFile and putFile

  /**
   * `getFile` makes one GET of the encoded file path. On success it logs one
   * `+ file` line with the local target and the size, and resolves with the size;
   * on failure it logs one `- file` error and one retry command, and rethrows
   * the transfer's error.
   */
  lemma GetFileOutcome(c: Config, file: string, destination: string, size: nat, download: nat -> StreamReply)
    ensures var o := GetFile(c, file, destination, size, download);
            var run := StreamRun(c, Download, download);
            var target := c.ops.join(destination, c.ops.basename(file));
            && Calls(o.events) == [HttpGet(EncodePath(file))]
            && (o.result.Ok? <==> run.result.Ok?)
            && (o.result.Ok? ==>
                  o.result.value == size && o.events[1..] == [Log(Success, FileCopied(target, c.ops.prettyBytes(size)))])
            && (o.result.Err? ==>
                  o.result.error == run.result.error &&
                  o.events[1..] == [Log(Error, FileFailed(target, c.retryCount)),
                                    Log(Info, DownloadCommand(c.tokenFile, file, destination))])
  {
    var o := GetFile(c, file, destination, size, download);
    CallsOne(o.events[0]);
    if o.result.Ok? {
      CallsTwo(o.events[0], o.events[1]);
      CallsOne(o.events[1]);
      assert o.events == [o.events[0], o.events[1]];
    } else {
      assert o.events == [o.events[0]] + [o.events[1], o.events[2]];
      CallsAppend([o.events[0]], [o.events[1], o.events[2]]);
      CallsTwo(o.events[1], o.events[2]);
      CallsOne(o.events[1]);
      CallsOne(o.events[2]);
    }
  }

  /**
   * `putFile` makes one PUT of `<dest>/<basename>`, encoded. On success it logs
   * one `+ file` line and resolves; on failure it logs one `- file` error and one
   * retry command, and rethrows the transfer's error.
   */
  lemma PutFileOutcome(c: Config, file: string, size: nat, dest: string, upload: nat -> StreamReply)
    ensures var o := PutFile(c, file, size, dest, upload);
            var run := StreamRun(c, Upload, upload);
            var target := c.ops.posixJoin(dest, c.ops.basename(file));
            && Calls(o.events) == [HttpPut(EncodePath(dest + "/" + c.ops.basename(file)))]
            && (o.result.Ok? <==> run.result.Ok?)
            && (o.result.Ok? ==> o.events[1..] == [Log(Success, FileCopied(target, c.ops.prettyBytes(size)))])
            && (o.result.Err? ==>
                  o.result.error == run.result.error &&
                  o.events[1..] == [Log(Error, FileFailed(target, c.retryCount)),
                                    Log(Info, UploadCommand(c.tokenFile, file, dest, false))])
  {
    var o := PutFile(c, file, size, dest, upload);
    CallsOne(o.events[0]);
    if o.result.Ok? {
      CallsTwo(o.events[0], o.events[1]);
      CallsOne(o.events[1]);
      assert o.events == [o.events[0], o.events[1]];
    } else {
      assert o.events == [o.events[0]] + [o.events[1], o.events[2]];
      CallsAppend([o.events[0]], [o.events[1], o.events[2]]);
      CallsTwo(o.events[1], o.events[2]);
      CallsOne(o.events[1]);
      CallsOne(o.events[2]);
    }
  }

  /** `get` resolves a file with its size and a directory with nothing, and rejects when they do. */
  lemma GetResolvesWith(c: Config, fileStat: Entry<RemoteStat>, recursive: bool, destination: string)
    ensures fileStat.detail.kind.RemoteFile? ==>
      var o := GetFile(c, fileStat.filename, destination, fileStat.detail.kind.size, fileStat.detail.kind.download);
      Get(c, fileStat, recursive, destination).events == o.events &&
      (Get(c, fileStat, recursive, destination).result.Ok? <==> o.result.Ok?) &&
      (o.result.Ok? ==> Get(c, fileStat, recursive, destination).result.value == Some(fileStat.detail.kind.size))
    ensures fileStat.detail.kind.RemoteDir? ==>
      var o := GetRemoteDirectoryContents(c, fileStat, recursive, destination);
      Get(c, fileStat, recursive, destination).events == o.events &&
      (Get(c, fileStat, recursive, destination).result.Ok? <==> o.result.Ok?) &&
      (o.result.Ok? ==> Get(c, fileStat, recursive, destination).result.value == None)
  {
    if fileStat.detail.kind.RemoteFile? {
      GetFileOutcome(c, fileStat.filename, destination, fileStat.detail.kind.size, fileStat.detail.kind.download);
    }
  }

  // ---------------------------------------------------------------------------
  // propfindDirectory and createRemoteDirectory

  /** `propfindDirectory` makes one PROPFIND of the encoded path and settles as its run does. */
  lemma PropfindOutcome(c: Config, dirname: string, probe: nat -> RawReply)
    ensures Calls(PropfindDirectory(c, dirname, probe).events) == [Propfind(EncodePath(dirname))]
    ensures PropfindDirectory(c, dirname, probe).result == RequestRun(c, probe).result
  {
    CallsOne(PropfindDirectory(c, dirname, probe).events[0]);
  }

  /** The k-th MKCOL line is the one for the k-th attempt's reply. */
  lemma {:induction false} MkcolLogsAt(dirname: string, create: nat -> RawReply, count: nat, k: nat)
    requires k < count
    ensures MkcolLogs(dirname, create, count)[k] == MkcolLog(dirname, create(k))
  {
    if k < count - 1 {
      MkcolLogsAt(dirname, create, count - 1, k);
    }
  }

  /** The MKCOL lines are log lines only: they make no request. */
  lemma {:induction false} MkcolLogsMakeNoCalls(dirname: string, create: nat -> RawReply, count: nat)
    ensures Calls(MkcolLogs(dirname, create, count)) == []
  {
    if count > 0 {
      MkcolLogsMakeNoCalls(dirname, create, count - 1);
      CallsAppend(MkcolLogs(dirname, create, count - 1), [MkcolLog(dirname, create(count - 1))]);
      CallsOne(MkcolLog(dirname, create(count - 1)));
    }
  }

  /**
   * `createRemoteDirectory` makes one MKCOL of the encoded path, retried, and
   * every attempt logs one line: `+ directory` for a 2xx reply, `- directory …
   * FAILED` otherwise. So the last line says how the creation settled.
   */
  lemma CreateRemoteDirectoryOutcome(c: Config, dirname: string, create: nat -> RawReply)
    ensures var o := CreateRemoteDirectory(c, dirname, create);
            var run := RequestRun(c, create);
            && Calls(o.events) == [Mkcol(EncodePath(dirname))]
            && o.result == run.result
            && |o.events| == 1 + |run.trace.calls|
            && (forall k :: 0 <= k < |run.trace.calls| ==> o.events[k + 1] == MkcolLog(dirname, create(k)))
            && (o.result.Ok? ==> o.events[|o.events| - 1] == Log(Success, DirectoryCopied(dirname)))
            && (o.result.Err? ==> o.events[|o.events| - 1].Log? && o.events[|o.events| - 1].level == Error)
  {
    CreateRemoteDirectoryRequests(c, dirname, create);
    CreateRemoteDirectoryLines(c, dirname, create);
    var run := RequestRun(c, create);
    MkcolLogsAt(dirname, create, |run.trace.calls|, |run.trace.calls| - 1);
    RequestRunSettles(c, create);
  }

  lemma CreateRemoteDirectoryRequests(c: Config, dirname: string, create: nat -> RawReply)
    ensures Calls(CreateRemoteDirectory(c, dirname, create).events) == [Mkcol(EncodePath(dirname))]
  {
    var run := RequestRun(c, create);
    var request := Remote(Mkcol(EncodePath(dirname)), run.trace);
    var logs := MkcolLogs(dirname, create, |run.trace.calls|);
    CallsAppend([request], logs);
    CallsOne(request);
    MkcolLogsMakeNoCalls(dirname, create, |run.trace.calls|);
    assert [Mkcol(EncodePath(dirname))] + [] == [Mkcol(EncodePath(dirname))];
  }

  lemma CreateRemoteDirectoryLines(c: Config, dirname: string, create: nat -> RawReply)
    ensures var o := CreateRemoteDirectory(c, dirname, create);
            var run := RequestRun(c, create);
            forall k :: 0 <= k < |run.trace.calls| ==> o.events[k + 1] == MkcolLog(dirname, create(k))
  {
    var run := RequestRun(c, create);
    var request := Remote(Mkcol(EncodePath(dirname)), run.trace);
    var logs := MkcolLogs(dirname, create, |run.trace.calls|);
    forall k | 0 <= k < |run.trace.calls|
      ensures ([request] + logs)[k + 1] == MkcolLog(dirname, create(k))
    {
      MkcolLogsAt(dirname, create, |run.trace.calls|, k);
    }
  }

  // ---------------------------------------------------------------------------
  // The remote folder check

  /**
   * A folder the PROPFIND finds is not created: one request, status `Present`.
   * A PROPFIND failing otherwise than with 404 ends the check with that error,
   * after that one request.
   */
  lemma CheckWithoutCreate(c: Config, folder: string, probe: nat -> RawReply, create: nat -> RawReply)
    requires PropfindDirectory(c, folder, probe).result.Err? ==>
      !HasStatus(PropfindDirectory(c, folder, probe).result.error, 404)
    ensures var found := PropfindDirectory(c, folder, probe);
            var check := CheckRemoteFolder(c, folder, probe, create);
            && Calls(check.events) == [Propfind(EncodePath(folder))]
            && (found.result.Ok? ==> check.status == Present)
            && (found.result.Err? ==> check.status == ProbeFailed(found.result.error))
  {
    var found := PropfindDirectory(c, folder, probe);
    PropfindOutcome(c, folder, probe);
    assert CheckRemoteFolder(c, folder, probe, create).events == found.events + [];
    CallsAppend(found.events, []);
  }

  /**
   * A folder the PROPFIND reports missing (404) is created with one MKCOL; the
   * check ends `Created` when that resolves, `Raced` when it fails with 405 (the
   * folder exists after all, section 9.3.1 of RFC 4918), and with the MKCOL's
   * error otherwise.
   */
  lemma CheckCreatesMissing(c: Config, folder: string, probe: nat -> RawReply, create: nat -> RawReply)
    requires PropfindDirectory(c, folder, probe).result.Err?
    requires HasStatus(PropfindDirectory(c, folder, probe).result.error, 404)
    ensures var made := CreateRemoteDirectory(c, folder, create);
            var check := CheckRemoteFolder(c, folder, probe, create);
            && Calls(check.events) == [Propfind(EncodePath(folder)), Mkcol(EncodePath(folder))]
            && (check.status == Created <==> made.result.Ok?)
            && (check.status == Raced <==> made.result.Err? && HasStatus(made.result.error, 405))
            && (check.status.CreateFailed? <==> made.result.Err? && !HasStatus(made.result.error, 405))
            && (check.status.CreateFailed? ==> check.status.error == made.result.error)
  {
    CheckCreateRequests(c, folder, probe, create);
  }

  /** The requests of a check that creates the folder: its PROPFIND, then its MKCOL. */
  lemma CheckCreateRequests(c: Config, folder: string, probe: nat -> RawReply, create: nat -> RawReply)
    requires PropfindDirectory(c, folder, probe).result.Err?
    requires HasStatus(PropfindDirectory(c, folder, probe).result.error, 404)
    ensures Calls(CheckRemoteFolder(c, folder, probe, create).events) ==
      [Propfind(EncodePath(folder)), Mkcol(EncodePath(folder))]
  {
    var found := PropfindDirectory(c, folder, probe);
    var made := CreateRemoteDirectory(c, folder, create);
    PropfindOutcome(c, folder, probe);
    CreateRemoteDirectoryOutcome(c, folder, create);
    assert CheckRemoteFolder(c, folder, probe, create).events == found.events + made.events;
    CallsAppend(found.events, made.events);
    Pair(Propfind(EncodePath(folder)), Mkcol(EncodePath(folder)));
  }

  lemma Pair<T>(a: T, b: T)
    ensures [a] + [b] == [a, b]
  {
  }

  // ---------------------------------------------------------------------------
  // put

  /**
   * `put` on a directory whose remote folder could not be made sure of rejects,
   * with nothing uploaded: a failed PROPFIND or MKCOL is rethrown, except that a
   * MKCOL failing with 409 (a parent folder is missing, section 9.3.1 of RFC 4918)
   * rejects with an error naming the folder.
   */
  lemma PutRejectsOnFolderFailure(c: Config, fileStat: LocalStat, filename: string, destination: string,
                                  recursive: bool)
    requires fileStat.IsDir?
    requires var folder := c.ops.posixJoin(destination, c.ops.basename(filename));
             var status := CheckRemoteFolder(c, folder, fileStat.probe, fileStat.create).status;
             status.ProbeFailed? || status.CreateFailed?
    ensures var folder := c.ops.posixJoin(destination, c.ops.basename(filename));
            var check := CheckRemoteFolder(c, folder, fileStat.probe, fileStat.create);
            var o := Put(c, fileStat, filename, destination, recursive);
            && o.events == check.events
            && (check.status.CreateFailed? && HasStatus(check.status.error, 409) ==>
                  o.result == Err(NoParentFolder(folder)))
            && (!(check.status.CreateFailed? && HasStatus(check.status.error, 409)) ==>
                  o.result == Err(check.status.error))
  {
    var folder := c.ops.posixJoin(destination, c.ops.basename(filename));
    var check := CheckRemoteFolder(c, folder, fileStat.probe, fileStat.create);
    assert Put(c, fileStat, filename, destination, recursive).events == check.events + [];
  }

  /**
   * `put` on a directory whose remote folder exists or was made goes on with
   * `getLocalDirectoryContents(filename, folder, recursive)` and settles as it
   * does; a 405 from the MKCOL is logged once as information first.
   */
  lemma PutUploadsContents(c: Config, fileStat: LocalStat, filename: string, destination: string, recursive: bool)
    requires fileStat.IsDir?
    requires var folder := c.ops.posixJoin(destination, c.ops.basename(filename));
             var status := CheckRemoteFolder(c, folder, fileStat.probe, fileStat.create).status;
             !(status.ProbeFailed? || status.CreateFailed?)
    ensures var folder := c.ops.posixJoin(destination, c.ops.basename(filename));
            var check := CheckRemoteFolder(c, folder, fileStat.probe, fileStat.create);
            var nested := GetLocalDirectoryContents(c, filename, folder, recursive, fileStat);
            var o := Put(c, fileStat, filename, destination, recursive);
            && o.result == nested.result
            && (check.status.Raced? ==> o.events == check.events + ([Log(Info, FolderExists(folder))] + nested.events))
            && (!check.status.Raced? ==> o.events == check.events + nested.events)
  {
    var folder := c.ops.posixJoin(destination, c.ops.basename(filename));
    var check := CheckRemoteFolder(c, folder, fileStat.probe, fileStat.create);
    var nested := GetLocalDirectoryContents(c, filename, folder, recursive, fileStat);
    if !check.status.Raced? {
      assert ([] + nested.events) == nested.events;
    }
  }

  /** `put` on a file is `putFile` into the destination. */
  lemma PutOfFile(c: Config, fileStat: LocalStat, filename: string, destination: string, recursive: bool)
    requires fileStat.IsFile?
    ensures Put(c, fileStat, filename, destination, recursive) ==
      PutFile(c, filename, fileStat.size, destination, fileStat.upload)
  {
  }

  // ---------------------------------------------------------------------------
  // getLocalDirectoryContents, child by child

  /** An unreadable local directory logs one error and resolves with nothing uploaded. */
  lemma UnreadableDirectorySkipped(c: Config, dirname: string, destDir: string, recursive: bool, dir: LocalStat)
    requires dir.IsDir? && dir.listing.Unreadable?
    ensures GetLocalDirectoryContents(c, dirname, destDir, recursive, dir) ==
      Outcome(Ok(()), [Log(Error, LocalUnreadable(dirname))])
    ensures Calls(GetLocalDirectoryContents(c, dirname, destDir, recursive, dir).events) == []
  {
    CallsOne(Log(Error, LocalUnreadable(dirname)));
  }

  /**
   * A local entry that vanished (ENOENT) logs one error and is skipped; any other
   * stat failure rejects with the TypeError of reading `isFile` of undefined.
   */
  lemma StatFailureOfChild(c: Config, dirname: string, destDir: string, recursive: bool, e: LocalEntry)
    requires e.stat.StatFailed?
    ensures e.stat.error.code == StrCode("ENOENT") ==>
      LocalChild(c, dirname, destDir, recursive, e) == Outcome(Ok(()), [Log(Error, LocalMissing(c.ops.join(dirname, e.name)))])
    ensures e.stat.error.code != StrCode("ENOENT") ==>
      LocalChild(c, dirname, destDir, recursive, e) == Outcome(Err(StatTypeError), [])
  {
  }

  /** A file is uploaded into `destDir`, and its failure is swallowed. */
  lemma FileChildUploaded(c: Config, dirname: string, destDir: string, recursive: bool, e: LocalEntry)
    requires e.stat.IsFile?
    ensures var o := LocalChild(c, dirname, destDir, recursive, e);
            var up := PutFile(c, c.ops.join(dirname, e.name), e.stat.size, destDir, e.stat.upload);
            o.result == Ok(()) && o.events == up.events
  {
  }

  /** Without `recursive`, a subdirectory is passed over: no request, no line. */
  lemma SubdirectoryIgnoredUnlessRecursive(c: Config, dirname: string, destDir: string, e: LocalEntry)
    requires e.stat.IsDir?
    ensures LocalChild(c, dirname, destDir, false, e) == Outcome(Ok(()), [])
  {
  }

  /**
   * With `recursive`, a subdirectory whose remote folder could not be made sure
   * of is skipped with an error and a retry command, and the walk goes on: a
   * failed PROPFIND gives `Unable to find remote directory`, a MKCOL failing with
   * 409 the missing-parents line, any other MKCOL failure the line with its message.
   */
  lemma SubdirectorySkippedOnFolderFailure(c: Config, dirname: string, destDir: string, e: LocalEntry)
    requires e.stat.IsDir?
    requires var status := CheckRemoteFolder(c, c.ops.posixJoin(destDir, e.name), e.stat.probe, e.stat.create).status;
             status.ProbeFailed? || status.CreateFailed?
    ensures var filePath := c.ops.join(dirname, e.name);
            var childDir := c.ops.posixJoin(destDir, e.name);
            var check := CheckRemoteFolder(c, childDir, e.stat.probe, e.stat.create);
            var o := LocalChild(c, dirname, destDir, true, e);
            && o.result == Ok(())
            && (check.status.ProbeFailed? ==>
                  o.events == check.events + [Log(Error, RemoteMissing(childDir)),
                                              Log(Info, UploadCommand(c.tokenFile, filePath, childDir, false))])
            && (check.status.CreateFailed? && HasStatus(check.status.error, 409) ==>
                  o.events == check.events + [Log(Error, ParentsMissing(childDir)),
                                              Log(Info, UploadCommand(c.tokenFile, filePath, childDir, true))])
            && (check.status.CreateFailed? && !HasStatus(check.status.error, 409) ==>
                  o.events == check.events + [Log(Error, CreationFailed(childDir, check.status.error.message)),
                                              Log(Info, UploadCommand(c.tokenFile, filePath, childDir, true))])
  {
    var filePath := c.ops.join(dirname, e.name);
    var childDir := c.ops.posixJoin(destDir, e.name);
    var check := CheckRemoteFolder(c, childDir, e.stat.probe, e.stat.create);
    var rest := SubdirectoryContents(c, filePath, childDir, true, e.stat, check.status);
    assert LocalChild(c, dirname, destDir, true, e) == LocalSubdirectory(c, filePath, childDir, true, e.stat);
    assert rest == Outcome(Ok(()), SubdirectorySkipped(c, filePath, childDir, check.status));
  }

  /**
   * With `recursive`, a subdirectory whose remote folder exists or was made is
   * walked into, and the nested walk's failure is not caught; a 405 from the
   * MKCOL is logged once as information first.
   */
  lemma SubdirectoryWalked(c: Config, dirname: string, destDir: string, e: LocalEntry)
    requires e.stat.IsDir?
    requires var status := CheckRemoteFolder(c, c.ops.posixJoin(destDir, e.name), e.stat.probe, e.stat.create).status;
             !(status.ProbeFailed? || status.CreateFailed?)
    ensures var filePath := c.ops.join(dirname, e.name);
            var childDir := c.ops.posixJoin(destDir, e.name);
            var check := CheckRemoteFolder(c, childDir, e.stat.probe, e.stat.create);
            var nested := GetLocalDirectoryContents(c, filePath, childDir, true, e.stat);
            var o := LocalChild(c, dirname, destDir, true, e);
            && o.result == nested.result
            && (check.status.Raced? ==> o.events == check.events + ([Log(Info, ChildExists(childDir))] + nested.events))
            && (!check.status.Raced? ==> o.events == check.events + nested.events)
  {
    var filePath := c.ops.join(dirname, e.name);
    var childDir := c.ops.posixJoin(destDir, e.name);
    var check := CheckRemoteFolder(c, childDir, e.stat.probe, e.stat.create);
    var nested := GetLocalDirectoryContents(c, filePath, childDir, true, e.stat);
    var rest := SubdirectoryContents(c, filePath, childDir, true, e.stat, check.status);
    assert LocalChild(c, dirname, destDir, true, e) == LocalSubdirectory(c, filePath, childDir, true, e.stat);
    assert rest.result == nested.result;
    if !check.status.Raced? {
      assert rest.events == [] + nested.events == nested.events;
    }
  }

  /** When no entry from the i-th on rejects, the walk over them resolves. */
  lemma {:induction false} WalkResolvesUnlessAChildRejects(c: Config, dirname: string, destDir: string, recursive: bool,
                                                           parent: LocalStat, files: seq<LocalEntry>, i: nat)
    requires i <= |files|
    requires forall k :: 0 <= k < |files| ==> files[k].stat < parent
    requires forall k :: i <= k < |files| ==> LocalChild(c, dirname, destDir, recursive, files[k]).result.Ok?
    ensures LocalChildren(c, dirname, destDir, recursive, parent, files, i).result == Ok(())
    decreases |files| - i
  {
    if i < |files| {
      WalkResolvesUnlessAChildRejects(c, dirname, destDir, recursive, parent, files, i + 1);
      var rest := LocalChildren(c, dirname, destDir, recursive, parent, files, i + 1);
      var step := LocalChild(c, dirname, destDir, recursive, files[i]);
      assert LocalChildren(c, dirname, destDir, recursive, parent, files, i) == Outcome(rest.result, step.events + rest.events);
    }
  }

  /**
   * The first entry that rejects ends the walk with its error, and the entries
   * after it are not visited: the trace holds the events of the entries before
   * it and then its own.
   */
  lemma {:induction false} WalkStopsAtFirstRejection(c: Config, dirname: string, destDir: string, recursive: bool,
                                                     parent: LocalStat, files: seq<LocalEntry>, i: nat, j: nat)
    requires i <= j < |files|
    requires forall k :: 0 <= k < |files| ==> files[k].stat < parent
    requires forall k :: i <= k < j ==> LocalChild(c, dirname, destDir, recursive, files[k]).result.Ok?
    requires LocalChild(c, dirname, destDir, recursive, files[j]).result.Err?
    ensures LocalChildren(c, dirname, destDir, recursive, parent, files, i).result ==
      LocalChild(c, dirname, destDir, recursive, files[j]).result
    ensures LocalChild(c, dirname, destDir, recursive, files[j]).events <=
      LocalChildren(c, dirname, destDir, recursive, parent, files, j).events
    decreases j - i
  {
    if i < j {
      WalkStopsAtFirstRejection(c, dirname, destDir, recursive, parent, files, i + 1, j);
    }
  }

  // ---------------------------------------------------------------------------
  // The only rejection of the local walk

  /**
   * `getLocalDirectoryContents` rejects only with the TypeError of a failed stat
   * (other than ENOENT), met at any depth: every other failure is logged and
   * swallowed where it happens.
   */
  lemma {:induction false} LocalWalkRejectsOnlyOnStat(c: Config, dirname: string, destDir: string, recursive: bool,
                                                      dir: LocalStat)
    requires dir.IsDir?
    ensures GetLocalDirectoryContents(c, dirname, destDir, recursive, dir).result.Err? ==>
      GetLocalDirectoryContents(c, dirname, destDir, recursive, dir).result.error == StatTypeError
    decreases dir, 2
  {
    match dir.listing
    case Unreadable =>
    case Readable(entries) =>
      assert forall k :: 0 <= k < |entries| ==> entries[k] in dir.listing.entries;
      LocalChildrenRejectOnlyOnStat(c, dirname, destDir, recursive, dir, entries, 0);
  }

  lemma {:induction false} LocalChildrenRejectOnlyOnStat(c: Config, dirname: string, destDir: string, recursive: bool,
                                                         parent: LocalStat, files: seq<LocalEntry>, i: nat)
    requires i <= |files|
    requires forall k :: 0 <= k < |files| ==> files[k].stat < parent
    ensures LocalChildren(c, dirname, destDir, recursive, parent, files, i).result.Err? ==>
      LocalChildren(c, dirname, destDir, recursive, parent, files, i).result.error == StatTypeError
    decreases parent, 1, |files| - i
  {
    if i < |files| {
      LocalChildRejectsOnlyOnStat(c, dirname, destDir, recursive, files[i]);
      LocalChildrenRejectOnlyOnStat(c, dirname, destDir, recursive, parent, files, i + 1);
    }
  }

  lemma {:induction false} LocalChildRejectsOnlyOnStat(c: Config, dirname: string, destDir: string, recursive: bool,
                                                       e: LocalEntry)
    ensures LocalChild(c, dirname, destDir, recursive, e).result.Err? ==>
      LocalChild(c, dirname, destDir, recursive, e).result.error == StatTypeError
    decreases e.stat, 5
  {
    if e.stat.IsDir? && recursive {
      SubdirectoryRejectsOnlyOnStat(c, c.ops.join(dirname, e.name), c.ops.posixJoin(destDir, e.name), recursive, e.stat);
    }
  }

  lemma {:induction false} SubdirectoryRejectsOnlyOnStat(c: Config, filePath: string, childDir: string, recursive: bool,
                                                         dir: LocalStat)
    requires dir.IsDir?
    ensures LocalSubdirectory(c, filePath, childDir, recursive, dir).result.Err? ==>
      LocalSubdirectory(c, filePath, childDir, recursive, dir).result.error == StatTypeError
    decreases dir, 4
  {
    var check := CheckRemoteFolder(c, childDir, dir.probe, dir.create);
    if !(check.status.ProbeFailed? || check.status.CreateFailed?) {
      LocalWalkRejectsOnlyOnStat(c, filePath, childDir, recursive, dir);
    }
  }

  /**
   * So `put` of a directory rejects with the folder check's failure, or with the
   * TypeError of a failed stat somewhere below it.
   */
  lemma PutDirectoryRejections(c: Config, fileStat: LocalStat, filename: string, destination: string, recursive: bool)
    requires fileStat.IsDir?
    ensures var folder := c.ops.posixJoin(destination, c.ops.basename(filename));
            var status := CheckRemoteFolder(c, folder, fileStat.probe, fileStat.create).status;
            var o := Put(c, fileStat, filename, destination, recursive);
            o.result.Err? ==>
              if status.ProbeFailed? || status.CreateFailed? then o.result.error == FolderFailure(folder, status)
              else o.result.error == StatTypeError
  {
    var folder := c.ops.posixJoin(destination, c.ops.basename(filename));
    LocalWalkRejectsOnlyOnStat(c, filename, folder, recursive, fileStat);
  }

  // ---------------------------------------------------------------------------
  // getRemoteDirectoryContents

  /** `listRemote` makes its stat and its listing both; a failed stat is the error reported. */
  lemma ListRemoteOutcome(c: Config, path: string, dir: RemoteStat)
    requires dir.kind.RemoteDir?
    ensures var o := ListRemote(c, path, dir);
            var stat := WebdavRun(c, path, dir.kind.stat);
            var list := WebdavRun(c, path, dir.kind.list);
            && Calls(o.events) == [Stat(path), List(path)]
            && (o.result.Ok? <==> stat.result.Ok? && list.result.Ok?)
            && (stat.result.Err? ==> o.result == Err(stat.result.error))
            && (stat.result.Ok? && list.result.Err? ==> o.result == Err(list.result.error))
  {
    var o := ListRemote(c, path, dir);
    CallsTwo(o.events[0], o.events[1]);
    CallsOne(o.events[0]);
    CallsOne(o.events[1]);
    Pair(Stat(path), List(path));
  }

  /**
   * A directory whose listing fails is abandoned: no local copy is made, one
   * `- directory … FAILED, <message>` error and one retry command are logged, no
   * other request is made, and the listing's error is rethrown.
   */
  lemma ListingFailureAbandons(c: Config, dir: Entry<RemoteStat>, recursive: bool, destination: string)
    requires dir.detail.kind.RemoteDir?
    requires ListRemote(c, dir.filename, dir.detail).result.Err?
    ensures var listed := ListRemote(c, dir.filename, dir.detail);
            var e := listed.result.error;
            var dirLocal := c.ops.join(destination, dir.detail.basename);
            var o := GetRemoteDirectoryContents(c, dir, recursive, destination);
            && o.result == Err(e)
            && o.events == listed.events +
                 [Log(Error, DirectoryFailed(dirLocal, Some(e.message))),
                  Log(Info, DownloadCommand(c.tokenFile, c.ops.posixJoin(destination, dir.detail.basename), dirLocal))]
            && Calls(o.events) == [Stat(dir.filename), List(dir.filename)]
            && (forall k :: 0 <= k < |o.events| ==> !o.events[k].EnsureDir?)
  {
    ListingFailureRequests(c, dir, recursive, destination);
    ListingFailureNoLocalCopy(c, dir, recursive, destination);
  }

  lemma ListingFailureRequests(c: Config, dir: Entry<RemoteStat>, recursive: bool, destination: string)
    requires dir.detail.kind.RemoteDir?
    requires ListRemote(c, dir.filename, dir.detail).result.Err?
    ensures Calls(GetRemoteDirectoryContents(c, dir, recursive, destination).events) == [Stat(dir.filename), List(dir.filename)]
  {
    var listed := ListRemote(c, dir.filename, dir.detail);
    var e := listed.result.error;
    var dirLocal := c.ops.join(destination, dir.detail.basename);
    var logs := DirectoryAbandoned(c, destination, dir.detail.basename, dirLocal, e);
    assert GetRemoteDirectoryContents(c, dir, recursive, destination).events == listed.events + logs;
    ListRemoteOutcome(c, dir.filename, dir.detail);
    AbandonedMakesNoCalls(c, destination, dir.detail.basename, dirLocal, e);
    CallsAppend(listed.events, logs);
    assert Calls(listed.events) + [] == Calls(listed.events);
  }

  lemma ListingFailureNoLocalCopy(c: Config, dir: Entry<RemoteStat>, recursive: bool, destination: string)
    requires dir.detail.kind.RemoteDir?
    requires ListRemote(c, dir.filename, dir.detail).result.Err?
    ensures var o := GetRemoteDirectoryContents(c, dir, recursive, destination);
            forall k :: 0 <= k < |o.events| ==> !o.events[k].EnsureDir?
  {
  }

  lemma AbandonedMakesNoCalls(c: Config, destination: string, basename: string, dirLocal: string, e: Failure)
    ensures Calls(DirectoryAbandoned(c, destination, basename, dirLocal, e)) == []
  {
    var logs := DirectoryAbandoned(c, destination, basename, dirLocal, e);
    CallsTwo(logs[0], logs[1]);
    CallsOne(logs[0]);
    CallsOne(logs[1]);
  }

  /**
   * A directory whose listing succeeds and whose local copy is made logs the
   * copy, visits its listed children, and resolves whatever they do.
   */
  lemma ListingSuccessVisitsChildren(c: Config, dir: Entry<RemoteStat>, recursive: bool, destination: string)
    requires dir.detail.kind.RemoteDir? && dir.detail.kind.ensureDir.None?
    requires ListRemote(c, dir.filename, dir.detail).result.Ok?
    ensures var files := FilterFiles(EnforceForwardSlashes(dir.filename), dir.detail.kind.children);
            forall k :: 0 <= k < |files| ==> files[k].detail < dir.detail
    ensures var listed := ListRemote(c, dir.filename, dir.detail);
            var files := FilterFiles(EnforceForwardSlashes(dir.filename), dir.detail.kind.children);
            var dirLocal := c.ops.join(destination, dir.detail.basename);
            var o := GetRemoteDirectoryContents(c, dir, recursive, destination);
            && o.result == Ok(())
            && o.events == listed.events + ([EnsureDir(dirLocal), Log(Success, DirectoryCopied(dirLocal))]
                 + RemoteChildren(c, dir.detail, files, |files|, recursive, dirLocal))
  {
    ListedChildrenSmaller(EnforceForwardSlashes(dir.filename), dir.detail);
  }

  /** A directory download rejects exactly when its own listing or local copy fails. */
  lemma RemoteWalkRejectsOnlyAtTop(c: Config, dir: Entry<RemoteStat>, recursive: bool, destination: string)
    requires dir.detail.kind.RemoteDir?
    ensures GetRemoteDirectoryContents(c, dir, recursive, destination).result.Err? <==>
      ListRemote(c, dir.filename, dir.detail).result.Err? || dir.detail.kind.ensureDir.Some?
  {
  }

  /**
   * Every file child is downloaded into the local copy, even when the children
   * before it failed: its GET is among the requests of the first `n` children.
   */
  lemma {:induction false} FileChildDownloaded(c: Config, parent: RemoteStat, files: seq<Entry<RemoteStat>>,
                                               k: nat, n: nat, recursive: bool, dirLocal: string)
    requires k < n <= |files|
    requires forall j :: 0 <= j < |files| ==> files[j].detail < parent
    requires files[k].detail.kind.RemoteFile?
    ensures HttpGet(EncodePath(files[k].filename)) in Calls(RemoteChildren(c, parent, files, n, recursive, dirLocal))
    decreases n
  {
    if k < n - 1 {
      FileChildDownloaded(c, parent, files, k, n - 1, recursive, dirLocal);
      ChildrenCallsGrow(c, parent, files, n, recursive, dirLocal, HttpGet(EncodePath(files[k].filename)));
    } else {
      LastFileChildDownloaded(c, parent, files, n, recursive, dirLocal);
    }
  }

  /** A request of the first `n - 1` children is a request of the first `n`. */
  lemma ChildrenCallsGrow(c: Config, parent: RemoteStat, files: seq<Entry<RemoteStat>>,
                          n: nat, recursive: bool, dirLocal: string, call: Call)
    requires 0 < n <= |files|
    requires forall j :: 0 <= j < |files| ==> files[j].detail < parent
    requires call in Calls(RemoteChildren(c, parent, files, n - 1, recursive, dirLocal))
    ensures call in Calls(RemoteChildren(c, parent, files, n, recursive, dirLocal))
  {
    var done := RemoteChildren(c, parent, files, n - 1, recursive, dirLocal);
    var child := RemoteChild(c, files[n - 1], recursive, dirLocal);
    assert RemoteChildren(c, parent, files, n, recursive, dirLocal) == done + child;
    CallsAppend(done, child);
  }

  /** The GET of the n-th child, when it is a file, is a request of the first `n` children. */
  lemma LastFileChildDownloaded(c: Config, parent: RemoteStat, files: seq<Entry<RemoteStat>>,
                                n: nat, recursive: bool, dirLocal: string)
    requires 0 < n <= |files|
    requires forall j :: 0 <= j < |files| ==> files[j].detail < parent
    requires files[n - 1].detail.kind.RemoteFile?
    ensures HttpGet(EncodePath(files[n - 1].filename)) in Calls(RemoteChildren(c, parent, files, n, recursive, dirLocal))
  {
    var f := files[n - 1];
    var done := RemoteChildren(c, parent, files, n - 1, recursive, dirLocal);
    var child := GetFile(c, f.filename, dirLocal, f.detail.kind.size, f.detail.kind.download).events;
    assert RemoteChildren(c, parent, files, n, recursive, dirLocal) == done + child;
    CallsAppend(done, child);
    GetFileOutcome(c, f.filename, dirLocal, f.detail.kind.size, f.detail.kind.download);
    assert Calls(done + child) == Calls(done) + [HttpGet(EncodePath(f.filename))];
  }

  /** Every request is a download. */
  predicate OnlyDownloads(calls: seq<Call>) {
    forall j :: 0 <= j < |calls| ==> calls[j].HttpGet?
  }

  lemma OnlyDownloadsAppend(a: seq<Call>, b: seq<Call>)
    requires OnlyDownloads(a) && OnlyDownloads(b)
    ensures OnlyDownloads(a + b)
  {
    forall j | 0 <= j < |a + b|
      ensures (a + b)[j].HttpGet?
    {
      if j < |a| {
        assert (a + b)[j] == a[j];
      } else {
        assert (a + b)[j] == b[j - |a|];
      }
    }
  }

  /** Without `recursive`, the only requests among the children are the downloads of files. */
  lemma {:induction false} NonRecursiveDownloadsFilesOnly(c: Config, parent: RemoteStat, files: seq<Entry<RemoteStat>>,
                                                          n: nat, dirLocal: string)
    requires n <= |files|
    requires forall j :: 0 <= j < |files| ==> files[j].detail < parent
    ensures OnlyDownloads(Calls(RemoteChildren(c, parent, files, n, false, dirLocal)))
  {
    if n > 0 {
      var f := files[n - 1];
      var done := RemoteChildren(c, parent, files, n - 1, false, dirLocal);
      var child := RemoteChild(c, f, false, dirLocal);
      NonRecursiveDownloadsFilesOnly(c, parent, files, n - 1, dirLocal);
      if f.detail.kind.RemoteFile? {
        GetFileOutcome(c, f.filename, dirLocal, f.detail.kind.size, f.detail.kind.download);
      }
      assert OnlyDownloads(Calls(child));
      CallsAppend(done, child);
      OnlyDownloadsAppend(Calls(done), Calls(child));
      assert RemoteChildren(c, parent, files, n, false, dirLocal) == done + child;
    }
  }
}
