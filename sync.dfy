/**
 * The sync operations of the data client, as functions: what each operation
 * resolves or rejects with, and the trace of requests, directory creations and
 * log lines it produces, given the outcome of every request it makes.
 *
 * A remote tree and a local tree are finite datatypes. Each node carries the
 * replies its requests meet: one reply per attempt, so the retry executor may
 * see failures before a success. `DataClient` (in data_client.dfy) performs the
 * same operations step by step and is proved to produce exactly these traces.
 */
module Sync {
  import opened Results
  import opened Js
  import opened Failures
  import opened ErrorHandler
  import opened RequestHandler
  import opened Uri
  import opened Paths
  import opened Listing
  import opened Transport

  /** What `createDataClient` closes over, as far as the sync operations read it. */
  datatype Config = Config(ops: PathOps, tokenFile: string, retryCount: JsNumber)

  /** `retryCount` as `makeRequest` compares it with 0: NaN never is above 0. */
  function Attempts(c: Config): int {
    match c.retryCount
    case Int(n) => n
    case NaN => 0
  }

  /** `retryCount ? ` after ${retryCount} attempts` : ''`. */
  function RetryMessage(retryCount: JsNumber): string {
    if retryCount.Int? && retryCount.value != 0 then " after " + NumberToString(retryCount) + " attempts"
    else ""
  }

  // ---------------------------------------------------------------------------
  // The trace

  datatype Level = Success | Error | Info

  /**
   * A line the client logs, by the template it fills in and the values it fills
   * in; `Text` renders it.
   */
  datatype Line =
    | FileCopied(target: string, size: string)
    | FileFailed(target: string, retryCount: JsNumber)
    | DownloadCommand(tokenFile: string, source: string, folder: string)
    | UploadCommand(tokenFile: string, source: string, folder: string, recursive: bool)
    | DirectoryCopied(dir: string)
    | DirectoryFailed(dir: string, reason: Option<string>)
    | LocalUnreadable(dirname: string)
    | LocalMissing(filePath: string)
    | RemoteMissing(dir: string)
    | ParentsMissing(dir: string)
    | CreationFailed(dir: string, message: string)
    | ChildExists(dir: string)
    | FolderExists(folder: string)

  /** The text of a line, as the template literal of the source writes it. */
  function Text(line: Line): string {
    match line
    case FileCopied(target, size) => "\t+ file: " + target + " - " + size
    case FileFailed(target, retryCount) => "\t- file: " + target + " - FAILED" + RetryMessage(retryCount)
    case DownloadCommand(tokenFile, source, folder) =>
      "Retry command => .gitto._cloud_download --access_token_file \"" + tokenFile
        + "\" --remote_source \"" + source + "\" --local_destination_folder \"" + folder + "\""
    case UploadCommand(tokenFile, source, folder, recursive) =>
      "Retry command => .gitto._cloud_upload --access_token_file \"" + tokenFile
        + "\" --local_source \"" + source + "\" --remote_destination_folder \"" + folder + "\""
        + (if recursive then " --recursive" else "")
    case DirectoryCopied(dir) => "\t+ directory: " + dir + " - --"
    case DirectoryFailed(dir, reason) =>
      "\t- directory: " + dir + " - FAILED" + (if reason.Some? then ", " + reason.value else "")
    case LocalUnreadable(dirname) =>
      "Unable to read local directory at \"" + dirname + "\". Has it been removed? Skipping."
    case LocalMissing(filePath) =>
      "Unable to find local file or directory at \"" + filePath + "\". Has it been removed? Skipping."
    case RemoteMissing(dir) => "Unable to find remote directory " + dir
    case ParentsMissing(dir) =>
      "Unable to create remote directory \"" + dir + "\" and its children as one or more parent folders do not exist"
    case CreationFailed(dir, message) => "Unable to create remote directory \"" + dir + "\" and its children: " + message
    case ChildExists(dir) =>
      "Attempted to create remote directory \"" + dir
        + "\" but it already exists. Check that there are no other uploads to the same directory to avoid overwriting files"
    case FolderExists(folder) =>
      "Attempted to create a remote directory at \"" + folder
        + "\" but it already exists. Check that there are no other uploads to the same directory to avoid overwriting files"
  }

  /** A request, with the path or the percent-encoded URI it names. */
  datatype Call =
    | Stat(path: string)
    | List(path: string)
    | HttpGet(uri: string)
    | HttpPut(uri: string)
    | Propfind(uri: string)
    | Mkcol(uri: string)

  /**
   * One entry of the trace: a request with the retry run it went through, a
   * local directory creation, or a log line.
   */
  datatype Event = Remote(call: Call, run: RetryTrace) | EnsureDir(path: string) | Log(level: Level, line: Line)

  /** What an operation settles with, and what it did on the way. */
  datatype Outcome<+T> = Outcome(result: Result<T, Failure>, events: seq<Event>)

  // ---------------------------------------------------------------------------
  // The trees

  /**
   * A remote resource as the listing describes it: its `basename` and, for a
   * file, its size and the replies to its downloads; for a directory, the replies
   * to its stat and its listing, its raw listing (the directory itself included,
   * names not yet normalised) and whether creating its local copy fails.
   */
  datatype RemoteStat = RemoteStat(basename: string, kind: RemoteKind)

  datatype RemoteKind =
    | RemoteFile(size: nat, download: nat -> StreamReply)
    | RemoteDir(stat: nat -> WebdavReply, list: nat -> WebdavReply,
                children: seq<Entry<RemoteStat>>, ensureDir: Option<Failure>)

  /** A name read from a local directory, and what `stat` gives for it. */
  datatype LocalEntry = LocalEntry(name: string, stat: LocalStat)

  /**
   * A local stat: a file with its size and the replies to its uploads; a
   * directory with its `readdir` result and the replies to the PROPFIND and MKCOL
   * of its remote counterpart; or a failed stat.
   */
  datatype LocalStat =
    | IsFile(size: nat, upload: nat -> StreamReply)
    | IsDir(listing: LocalListing, probe: nat -> RawReply, create: nat -> RawReply)
    | StatFailed(error: Failure)

  datatype LocalListing = Unreadable | Readable(entries: seq<LocalEntry>)

  // ---------------------------------------------------------------------------
  // Retried requests

  /** A webdav client call, retried with the default handler. */
  function WebdavRun(c: Config, path: string, replies: nat -> WebdavReply): Run<()> {
    MakeRequest(k => WebdavAttempt(path, replies(k)), Attempts(c), DefaultErrorHandler)
  }

  /** A `streamFile` call, retried with the default handler. */
  function StreamRun(c: Config, direction: Direction, replies: nat -> StreamReply): Run<()> {
    MakeRequest(k => StreamAttempt(direction, replies(k)), Attempts(c), DefaultErrorHandler)
  }

  /** A PROPFIND or MKCOL `request`, retried with the default handler. */
  function RequestRun(c: Config, replies: nat -> RawReply): Run<()> {
    MakeRequest(k => RequestAttempt(replies(k)), Attempts(c), DefaultErrorHandler)
  }

  // ---------------------------------------------------------------------------
  // Log lines

  function FileDone(c: Config, target: string, size: nat): Event {
    Log(Success, FileCopied(target, c.ops.prettyBytes(size)))
  }

  function FileNotDone(c: Config, target: string): Event {
    Log(Error, FileFailed(target, c.retryCount))
  }

  /** What `stat.isFile()` throws when the stat failed with another code than ENOENT. */
  const StatTypeError := Failure("Cannot read properties of undefined (reading 'isFile')", NoCode, None)

  // ---------------------------------------------------------------------------
  // Single requests

  /**
   * `getFile({ file, destination, stat })`: download `file` into `destination`;
   * on success log the local path and the size and resolve with the size, on
   * failure log the path and a retry command and rethrow.
   */
  function GetFile(c: Config, file: string, destination: string, size: nat,
                   download: nat -> StreamReply): Outcome<nat>
  {
    var run := StreamRun(c, Download, download);
    var target := c.ops.join(destination, c.ops.basename(file));
    var request := Remote(HttpGet(StreamUri(Download, file, destination, c.ops.basename(file))), run.trace);
    match run.result
    case Ok(_) => Outcome(Ok(size), [request, FileDone(c, target, size)])
    case Err(e) => Outcome(Err(e), [request, FileNotDone(c, target), Log(Info, DownloadCommand(c.tokenFile, file, destination))])
  }

  /** `putFile({ file, stat, dest })`: the upload counterpart of `getFile`, resolving with nothing. */
  function PutFile(c: Config, file: string, size: nat, dest: string, upload: nat -> StreamReply): Outcome<()>
  {
    var run := StreamRun(c, Upload, upload);
    var target := c.ops.posixJoin(dest, c.ops.basename(file));
    var request := Remote(HttpPut(StreamUri(Upload, file, dest, c.ops.basename(file))), run.trace);
    match run.result
    case Ok(_) => Outcome(Ok(()), [request, FileDone(c, target, size)])
    case Err(e) => Outcome(Err(e), [request, FileNotDone(c, target), Log(Info, UploadCommand(c.tokenFile, file, dest, false))])
  }

  /** `propfindDirectory(dirname)`: a retried PROPFIND on the encoded path. */
  function PropfindDirectory(c: Config, dirname: string, probe: nat -> RawReply): Outcome<()> {
    var run := RequestRun(c, probe);
    Outcome(run.result, [Remote(Propfind(EncodePath(dirname)), run.trace)])
  }

  /** The line the MKCOL callback logs for one reply. */
  function MkcolLog(dirname: string, reply: RawReply): Event {
    match reply
    case NetworkError(e) => Log(Error, DirectoryFailed(dirname, Some(e.message)))
    case Reply(status, _) =>
      if Is2xx(status) then Log(Success, DirectoryCopied(dirname)) else Log(Error, DirectoryFailed(dirname, None))
  }

  /** The lines of the first `count` MKCOL attempts, in order. */
  function MkcolLogs(dirname: string, create: nat -> RawReply, count: nat): (r: seq<Event>)
    ensures |r| == count
  {
    if count == 0 then [] else MkcolLogs(dirname, create, count - 1) + [MkcolLog(dirname, create(count - 1))]
  }

  /**
   * `createRemoteDirectory(dirname)`: a retried MKCOL on the encoded path; every
   * attempt logs one line. The lines follow the request in the trace.
   */
  function CreateRemoteDirectory(c: Config, dirname: string, create: nat -> RawReply): Outcome<()> {
    var run := RequestRun(c, create);
    Outcome(run.result, [Remote(Mkcol(EncodePath(dirname)), run.trace)] + MkcolLogs(dirname, create, |run.trace.calls|))
  }

  // ---------------------------------------------------------------------------
  // The remote folder check shared by `put` and `getLocalDirectoryContents`

  /**
   * Where the probe-then-create sequence ended: the folder was found, created,
   * found to exist by the MKCOL (405), or the probe (other than 404) or the
   * creation (other than 405) failed.
   */
  datatype FolderCheck = Present | Created | Raced | ProbeFailed(error: Failure) | CreateFailed(error: Failure)

  datatype Checked = Checked(status: FolderCheck, events: seq<Event>)

  /** PROPFIND the folder; on a 404, MKCOL it. */
  function CheckRemoteFolder(c: Config, folder: string, probe: nat -> RawReply, create: nat -> RawReply): Checked {
    var found := PropfindDirectory(c, folder, probe);
    var rest := CreateIfMissing(c, folder, create, found.result);
    Checked(rest.status, found.events + rest.events)
  }

  /** What follows the PROPFIND: nothing unless it failed with a 404, then the MKCOL. */
  function CreateIfMissing(c: Config, folder: string, create: nat -> RawReply, found: Result<(), Failure>): Checked {
    match found
    case Ok(_) => Checked(Present, [])
    case Err(e) =>
      if !HasStatus(e, 404) then Checked(ProbeFailed(e), [])
      else
        var made := CreateRemoteDirectory(c, folder, create);
        match made.result
        case Ok(_) => Checked(Created, made.events)
        case Err(e') => Checked(if HasStatus(e', 405) then Raced else CreateFailed(e'), made.events)
  }

  // ---------------------------------------------------------------------------
  // Download

  /**
   * `listRemote(path)`: a stat and a listing of `path`, both retried, combined by
   * `filterResponse`. Both requests go out; when both fail the stat's error is
   * the one reported.
   */
  function ListRemote(c: Config, path: string, dir: RemoteStat): (o: Outcome<Listed<(), RemoteStat>>)
    requires dir.kind.RemoteDir?
    ensures o.result.Ok? ==> o.result.value.pathname == EnforceForwardSlashes(path)
    ensures o.result.Ok? ==> o.result.value.files == FilterFiles(EnforceForwardSlashes(path), dir.kind.children)
  {
    var stat := WebdavRun(c, path, dir.kind.stat);
    var list := WebdavRun(c, path, dir.kind.list);
    var events := [Remote(Stat(path), stat.trace), Remote(List(path), list.trace)];
    if stat.result.Err? then Outcome(Err(stat.result.error), events)
    else if list.result.Err? then Outcome(Err(list.result.error), events)
    else Outcome(Ok(FilterResponse(path, (), dir.kind.children)), events)
  }

  /** The lines logged when a directory download fails before its children. */
  function DirectoryAbandoned(c: Config, destination: string, basename: string, dirLocal: string, e: Failure): seq<Event> {
    [Log(Error, DirectoryFailed(dirLocal, Some(e.message))),
     Log(Info, DownloadCommand(c.tokenFile, c.ops.posixJoin(destination, basename), dirLocal))]
  }

  /** Every listed child of a directory is smaller than the directory. */
  lemma ListedChildrenSmaller(pathname: string, dir: RemoteStat)
    requires dir.kind.RemoteDir?
    ensures forall k :: 0 <= k < |FilterFiles(pathname, dir.kind.children)| ==>
      FilterFiles(pathname, dir.kind.children)[k].detail < dir
  {
    var files := FilterFiles(pathname, dir.kind.children);
    forall k | 0 <= k < |files|
      ensures files[k].detail < dir
    {
      FilterFilesOrigin(pathname, dir.kind.children, k);
      var j :| 0 <= j < |dir.kind.children| && files[k] == Normalised(dir.kind.children[j]);
      assert dir.kind.children[j] in dir.kind.children;
    }
  }

  /**
   * `getRemoteDirectoryContents({ filename, basename, recursive, destination })`:
   * list the directory, then go on as `ListedContents` says with what the listing
   * settled with.
   */
  function GetRemoteDirectoryContents(c: Config, dir: Entry<RemoteStat>, recursive: bool, destination: string): Outcome<()>
    requires dir.detail.kind.RemoteDir?
    decreases dir.detail, 2
  {
    var listed := ListRemote(c, dir.filename, dir.detail);
    var rest := ListedContents(c, dir, recursive, destination, listed.result);
    Outcome(rest.result, listed.events + rest.events)
  }

  /**
   * What `getRemoteDirectoryContents` does once the listing settled: a failed
   * listing, or a failed creation of the local copy, is logged and rethrown;
   * otherwise the local copy is logged and the children are visited one at a
   * time, their failures swallowed.
   */
  function ListedContents(c: Config, dir: Entry<RemoteStat>, recursive: bool, destination: string,
                          listing: Result<Listed<(), RemoteStat>, Failure>): Outcome<()>
    requires dir.detail.kind.RemoteDir?
    requires listing.Ok? ==> listing.value.files == FilterFiles(EnforceForwardSlashes(dir.filename), dir.detail.kind.children)
    decreases dir.detail, 1
  {
    var dirLocal := c.ops.join(destination, dir.detail.basename);
    match listing
    case Err(e) => Outcome(Err(e), DirectoryAbandoned(c, destination, dir.detail.basename, dirLocal, e))
    case Ok(listed) =>
      match dir.detail.kind.ensureDir
      case Some(e) =>
        Outcome(Err(e), [EnsureDir(dirLocal)] + DirectoryAbandoned(c, destination, dir.detail.basename, dirLocal, e))
      case None =>
        ListedChildrenSmaller(EnforceForwardSlashes(dir.filename), dir.detail);
        Outcome(Ok(()), [EnsureDir(dirLocal), Log(Success, DirectoryCopied(dirLocal))]
                        + RemoteChildren(c, dir.detail, listed.files, |listed.files|, recursive, dirLocal))
  }

  /** The first `n` children, visited in order (`Promise.mapSeries`). */
  function RemoteChildren(c: Config, parent: RemoteStat, files: seq<Entry<RemoteStat>>, n: nat,
                          recursive: bool, dirLocal: string): seq<Event>
    requires n <= |files|
    requires forall k :: 0 <= k < |files| ==> files[k].detail < parent
    decreases parent, 0, n
  {
    if n == 0 then []
    else RemoteChildren(c, parent, files, n - 1, recursive, dirLocal) + RemoteChild(c, files[n - 1], recursive, dirLocal)
  }

  /** One child: a file is downloaded, a directory descended into when `recursive`. */
  function RemoteChild(c: Config, file: Entry<RemoteStat>, recursive: bool, dirLocal: string): seq<Event>
    decreases file.detail, 3
  {
    match file.detail.kind
    case RemoteFile(size, download) => GetFile(c, file.filename, dirLocal, size, download).events
    case RemoteDir(_, _, _, _) =>
      if recursive then GetRemoteDirectoryContents(c, file, recursive, dirLocal).events else []
  }

  /** `get({ fileStat, recursive, destination })`: a file resolves with its size, a directory with nothing. */
  function Get(c: Config, fileStat: Entry<RemoteStat>, recursive: bool, destination: string): Outcome<Option<nat>> {
    match fileStat.detail.kind
    case RemoteFile(size, download) =>
      var o := GetFile(c, fileStat.filename, destination, size, download);
      Outcome(if o.result.Ok? then Ok(Some(o.result.value)) else Err(o.result.error), o.events)
    case RemoteDir(_, _, _, _) =>
      var o := GetRemoteDirectoryContents(c, fileStat, recursive, destination);
      Outcome(if o.result.Ok? then Ok(None) else Err(o.result.error), o.events)
  }

  // ---------------------------------------------------------------------------
  // Upload

  /**
   * `getLocalDirectoryContents(dirname, destDir, recursive)`: an unreadable
   * directory is logged and skipped; otherwise its entries are visited in order.
   */
  function GetLocalDirectoryContents(c: Config, dirname: string, destDir: string, recursive: bool,
                                     dir: LocalStat): Outcome<()>
    requires dir.IsDir?
    decreases dir, 2
  {
    match dir.listing
    case Unreadable => Outcome(Ok(()), [Log(Error, LocalUnreadable(dirname))])
    case Readable(entries) =>
      assert forall k :: 0 <= k < |entries| ==> entries[k] in dir.listing.entries;
      LocalChildren(c, dirname, destDir, recursive, dir, entries, 0)
  }

  /**
   * The entries from the i-th on, in order. An entry that rejects (see
   * `LocalChild`) ends the walk with its error.
   */
  function LocalChildren(c: Config, dirname: string, destDir: string, recursive: bool,
                         parent: LocalStat, files: seq<LocalEntry>, i: nat): Outcome<()>
    requires i <= |files|
    requires forall k :: 0 <= k < |files| ==> files[k].stat < parent
    decreases parent, 1, |files| - i
  {
    if i == |files| then Outcome(Ok(()), [])
    else
      var step := LocalChild(c, dirname, destDir, recursive, files[i]);
      if step.result.Err? then step
      else
        var rest := LocalChildren(c, dirname, destDir, recursive, parent, files, i + 1);
        Outcome(rest.result, step.events + rest.events)
  }

  /**
   * One entry of a local directory: a missing entry is logged and skipped, any
   * other stat failure rejects (the undefined stat is dereferenced), a file is
   * uploaded with its failure swallowed, a directory is handled when `recursive`.
   */
  function LocalChild(c: Config, dirname: string, destDir: string, recursive: bool, e: LocalEntry): Outcome<()>
    decreases e.stat, 5
  {
    var filePath := c.ops.join(dirname, e.name);
    match e.stat
    case StatFailed(err) =>
      if err.code == StrCode("ENOENT") then Outcome(Ok(()), [Log(Error, LocalMissing(filePath))])
      else Outcome(Err(StatTypeError), [])
    case IsFile(size, upload) => Outcome(Ok(()), PutFile(c, filePath, size, destDir, upload).events)
    case IsDir(_, _, _) =>
      if recursive then LocalSubdirectory(c, filePath, c.ops.posixJoin(destDir, e.name), recursive, e.stat)
      else Outcome(Ok(()), [])
  }

  /** The lines logged when the remote folder of a subdirectory could not be made sure of. */
  function SubdirectorySkipped(c: Config, filePath: string, childDir: string, status: FolderCheck): seq<Event>
    requires status.ProbeFailed? || status.CreateFailed?
  {
    match status
    case ProbeFailed(_) =>
      [Log(Error, RemoteMissing(childDir)), Log(Info, UploadCommand(c.tokenFile, filePath, childDir, false))]
    case CreateFailed(e) =>
      [Log(Error, if HasStatus(e, 409) then ParentsMissing(childDir) else CreationFailed(childDir, e.message)),
       Log(Info, UploadCommand(c.tokenFile, filePath, childDir, true))]
  }

  /**
   * A subdirectory met by a recursive upload: make sure its remote folder exists,
   * then go on as `SubdirectoryContents` says.
   */
  function LocalSubdirectory(c: Config, filePath: string, childDir: string, recursive: bool, dir: LocalStat): Outcome<()>
    requires dir.IsDir?
    decreases dir, 4
  {
    var check := CheckRemoteFolder(c, childDir, dir.probe, dir.create);
    var rest := SubdirectoryContents(c, filePath, childDir, recursive, dir, check.status);
    Outcome(rest.result, check.events + rest.events)
  }

  /**
   * What follows the folder check of a subdirectory: a failed probe or creation
   * is logged and skips this subdirectory only; otherwise its contents are
   * uploaded, and a failure of that nested walk is not caught.
   */
  function SubdirectoryContents(c: Config, filePath: string, childDir: string, recursive: bool, dir: LocalStat,
                                status: FolderCheck): Outcome<()>
    requires dir.IsDir?
    decreases dir, 3
  {
    if status.ProbeFailed? || status.CreateFailed? then
      Outcome(Ok(()), SubdirectorySkipped(c, filePath, childDir, status))
    else
      var nested := GetLocalDirectoryContents(c, filePath, childDir, recursive, dir);
      Outcome(nested.result, (if status.Raced? then [Log(Info, ChildExists(childDir))] else []) + nested.events)
  }

  function NoParentFolder(folder: string): Failure {
    PlainError("Unable to create the remote directory \"" + folder + "\" as one or more parent folders do not exist")
  }

  /** What `put` rethrows when the remote folder could not be made sure of. */
  function FolderFailure(folder: string, status: FolderCheck): Failure
    requires status.ProbeFailed? || status.CreateFailed?
  {
    if status.CreateFailed? && HasStatus(status.error, 409) then NoParentFolder(folder) else status.error
  }

  /**
   * `put({ fileStat, filename, destination, recursive })`: a file is uploaded; a
   * directory gets its remote folder made sure of, then goes on as
   * `FolderContents` says.
   */
  function Put(c: Config, fileStat: LocalStat, filename: string, destination: string, recursive: bool): Outcome<()>
    requires !fileStat.StatFailed?
  {
    match fileStat
    case IsFile(size, upload) => PutFile(c, filename, size, destination, upload)
    case IsDir(_, probe, create) =>
      var folder := c.ops.posixJoin(destination, c.ops.basename(filename));
      var check := CheckRemoteFolder(c, folder, probe, create);
      var rest := FolderContents(c, filename, folder, recursive, fileStat, check.status);
      Outcome(rest.result, check.events + rest.events)
  }

  /**
   * What `put` does once the folder check settled: unlike the nested case, a
   * failed probe or creation rejects; otherwise the directory's contents are
   * uploaded.
   */
  function FolderContents(c: Config, filename: string, folder: string, recursive: bool, dir: LocalStat,
                          status: FolderCheck): Outcome<()>
    requires dir.IsDir?
  {
    if status.ProbeFailed? || status.CreateFailed? then Outcome(Err(FolderFailure(folder, status)), [])
    else
      var nested := GetLocalDirectoryContents(c, filename, folder, recursive, dir);
      Outcome(nested.result, (if status.Raced? then [Log(Info, FolderExists(folder))] else []) + nested.events)
  }
}
