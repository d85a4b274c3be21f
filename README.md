# gitto data client, modelled in Dafny

gitto copies files and directory trees between a local disk and a remote
WebDAV store, in both directions. The model covers the helpers under
`src/helpers` that do this work:

- the retry executor `makeRequest` and its backoff tables;
- the default retryability test;
- the validation of the `--retry-count` option;
- the core-service URL builder;
- the data client built by `createDataClient`: the listing filter, the fetch
  options, error formatting, the transfer status checks, the single requests
  (`getFile`, `putFile`, `propfindDirectory`, `createRemoteDirectory`), and the
  two recursive walks (`get` / `getRemoteDirectoryContents` for download, `put`
  / `getLocalDirectoryContents` for upload).

Layout, one module per file:

- `results.dfy`: `Option` and `Result`. A settled promise is `Ok` or `Err`.
- `js.dfy`: the JavaScript built-ins the helpers rely on. Numbers are integers
  or NaN. Also covers `parseInt(s, 10)`, `String(n)`, `indexOf`, `split`, `join`,
  `startsWith` and `replace` of a string.
- `failures.dfy`: the error objects. A message, a `code` (number, string or
  absent) and an optional `response`.
- `calculate_retry_delay.dfy`, `default_error_handler.dfy`,
  `request_handler.dfy`, `core_service.dfy`, `validators.dfy`: one module per
  source file of the same name.
- `paths.dfy`: `enforceForwardSlashes`, plus the path library functions, which
  the engine receives as parameters.
- `uri.dfy`: `encodeURIComponent` and `decodeURIComponent` over UTF-8, and the
  per-segment path encoding of `streamFile`, `propfindDirectory` and
  `createRemoteDirectory`.
- `listing.dfy`: `filterResponse`. It is written twice: as a function on
  values, and as a method that rewrites `filename` on entry objects in place, as
  the source does.
- `transport.dfy`: `formatError`, `lookupStatusCode`, `getWebdavFetchOptions`,
  and how one reply to a transfer, to a PROPFIND/MKCOL, or to a webdav client
  call becomes a resolved or rejected attempt.
- `sync.dfy`: every data-client operation as a function of its inputs. The
  result is the value it settles with, plus the trace of requests, local
  directory creations and log lines it produces. Remote and local trees are
  finite datatypes. Each node carries the reply that each attempt at each of
  its requests meets.
- `data_client.dfy`: the class `DataClient`. Its methods carry out the same
  operations step by step, with loops over the listed entries, and append to a
  `trace` field. Each method is proved to append exactly the events of its
  `Sync` function and to settle with exactly its result.
- `sync_properties.dfy`: what the source promises about those operations, proved
  about the `Sync` functions and therefore about the methods. This covers:
  - which requests are made;
  - what is logged on success and failure;
  - which failures are swallowed and which reject;
  - that a listing failure creates no local directory;
  - that the only way an upload walk rejects is a failed `stat`.

Where the code and the documented design differ, the model follows the code:

- A `stat` failure other than `ENOENT` is not skipped. `stat` stays `undefined`,
  `stat.isFile()` throws, and the walk of that directory rejects
  (`src/helpers/dataClient.js:296-305`).
- The nested `getLocalDirectoryContents` call for a subdirectory is awaited with
  no `catch` (`src/helpers/dataClient.js:353-357`). A rejection from it
  therefore ends the walk of every enclosing directory. It is not swallowed.

## Model

| member | source | states |
|---|---|---|
| RetryDelay.CalculateRetryDelay | src/helpers/calculateRetryDelay.js:1-5 | for 0 to 6 retries the delay is that entry of the table; from 6 on it is the last entry, 6400 |
| RetryDelay.CalculateInverseRetryDelay | src/helpers/calculateRetryDelay.js:7-11 | at or below 0 the delay is 6400; otherwise it is that entry of the inverse table |
| RetryDelay.InverseDelayLookup | src/helpers/calculateRetryDelay.js:7-11 | the lookup yields a delay exactly when the index is at most 6; past the end it is undefined |
| RetryDelay.TablesShape | src/helpers/calculateRetryDelay.js:1 | seven entries, starting at 100, each double the one before, strictly increasing |
| RetryDelay.InverseIsReverse | src/helpers/calculateRetryDelay.js:1-7 | the inverse table is the forward table reversed, entry by entry |
| RetryDelay.RetryDelayMonotone | src/helpers/calculateRetryDelay.js:3-5 | more retries never give a shorter delay |
| RetryDelay.InverseRetryDelayAntitone | src/helpers/calculateRetryDelay.js:9-11 | more attempts remaining never give a longer delay |
| RetryDelay.InverseMirrorsForward | src/helpers/calculateRetryDelay.js:3-11 | with r attempts left the inverse delay equals the forward delay of attempt 6 - r |
| ErrorHandler.NumericCodeRetryable | src/helpers/defaultErrorHandler.js:5-7 | a numeric code is retryable if and only if it is at least 500 |
| ErrorHandler.ClientErrorsNotRetryable | src/helpers/defaultErrorHandler.js:5-7 | no 4xx status is retried |
| ErrorHandler.SystemCodeRetryable | src/helpers/defaultErrorHandler.js:10-22 | a string code is retryable if and only if it is ETIMEDOUT, ECONNABORTED, ECONNRESET or EPIPE |
| ErrorHandler.OtherErrorsNotRetryable | src/helpers/defaultErrorHandler.js:24 | an error with no code, or with a NaN code, is not retried |
| ErrorHandler.OnlyCodeMatters | src/helpers/defaultErrorHandler.js:3-25 | two errors with the same code get the same verdict, whatever their message or response |
| RequestHandler.MakeRequestFrom | src/helpers/requestHandler.js:5-22 | a run makes between 1 and max(attemptsRemaining, 0) + 1 calls and waits once before each retry; the callback is consulted at most once per call; the run settles with the outcome of its last call |
| RequestHandler.CountdownTrace | src/helpers/requestHandler.js:11-16 | the i-th call sees attemptsRemaining - i, and the i-th retry waits the inverse delay for attemptsRemaining - 1 - i |
| RequestHandler.FailuresRetried | src/helpers/requestHandler.js:10-17 | every call but the last failed, and the callback approved its retry |
| RequestHandler.CallbackSawFailures | src/helpers/requestHandler.js:11 | the callback was given exactly the failures of the calls, in order |
| RequestHandler.EndTrace | src/helpers/requestHandler.js:11-18 | the callback is asked about the final failure if and only if the run rejected with attempts left, and then it refused |
| RequestHandler.FirstCallSucceeds | src/helpers/requestHandler.js:8-9 | a first call that resolves is returned after one call, with no callback and no delay |
| RequestHandler.FailuresThenSuccess | src/helpers/requestHandler.js:8-21 | k approved failures then a success, with k no more than the attempts: k + 1 calls, k callback calls, the k expected delays, and the success value |
| RequestHandler.AlwaysFailing | src/helpers/requestHandler.js:10-18 | when every failure is approved, attemptsRemaining + 1 calls are made and the last failure is rethrown unchanged |
| RequestHandler.CallbackRefuses | src/helpers/requestHandler.js:11-18 | a first failure that the callback refuses is rethrown after one call |
| RequestHandler.NoAttemptsLeft | src/helpers/requestHandler.js:11-18 | with no attempts left a failure is rethrown at once, and the callback is never asked |
| RequestHandler.DelaysFromTable | src/helpers/requestHandler.js:12-13 | starting from at most 7 attempts, every delay is an entry of the inverse table and no call sees a negative count |
| CoreService.Url | src/helpers/coreService.js:16 | the URL ends in `/v1` |
| CoreService.SchemeKept | src/helpers/coreService.js:3-5 | an `http://` or `https://` account keeps its scheme, and the URL starts with it |
| CoreService.BareHost | src/helpers/coreService.js:3-16 | an account without a scheme becomes `https://<subdomain>.<account>/v1` |
| CoreService.HostBetweenSeparators | src/helpers/coreService.js:7-9 | with a scheme, the host is the text between the first and the second `://`, and anything after that is dropped |
| CoreService.SubdomainChoice | src/helpers/coreService.js:11-14 | the subdomain is `core` if and only if the host starts with `local`, and `core-service` otherwise |
| CoreService.UpperCaseSchemeIsBareHost | src/helpers/coreService.js:3 | the scheme test is case-sensitive, so an account starting `HTTP://` is treated as a bare host |
| Validators.ValidateRetryCountAsWritten | src/helpers/validators.js:26-45 | the check as written: it rejects only with the not-a-number message or the out-of-range message |
| Validators.ValidateRetryCount | src/helpers/validators.js:26-45 | the corrected check: a value it resolves with is an integer from 0 to 5 |
| Validators.TrueMeansThree | src/helpers/validators.js:28-30 | `true` resolves 3 |
| Validators.UndefinedMeansZero | src/helpers/validators.js:26 | an omitted count, and an explicit 0, both resolve 0 |
| Validators.NumbersInRange | src/helpers/validators.js:40-44 | a number resolves unchanged if it lies in [0, 5] and is rejected as out of range otherwise |
| Validators.DigitStrings | src/helpers/validators.js:32-34 | a string of decimal digits is checked like the number it spells |
| Validators.TestedStrings | src/helpers/validators.js:32-44 | `'3'` resolves 3, and `'7'` is out of range |
| Validators.NonNumbersRejected | src/helpers/validators.js:36-38 | `false`, `null` and an object are rejected as not a number |
| Validators.NonNumericStringResolvesNaN | src/helpers/validators.js:32-44 | as written, a string with no leading digit resolves NaN; the corrected check rejects it |
| Validators.CorrectionOnlyRejectsNaN | src/helpers/validators.js:36-44 | the correction changes only the NaN case |
| Js.ParseIntOfNatToString | src/helpers/dataClient.js:45-46 | `parseInt` reads back the canonical decimal spelling, and stops at the first non-digit |
| Js.ParseIntOfNonNumeric | src/helpers/validators.js:33 | a string starting with neither white space, a sign nor a digit parses as NaN |
| Js.JoinSplit | src/helpers/dataClient.js:124 | joining the parts of a split gives back the string |
| Js.SplitJoin | src/helpers/dataClient.js:124 | with a one-character separator that no part contains, splitting the join gives back the parts |
| Paths.EnforceForwardSlashes | test/src/helpers/enforceForwardSlashes.spec.js:3-11 | the result holds no backslash |
| Paths.NoBackslashUnchanged | test/src/helpers/enforceForwardSlashes.spec.js:3-11 | a path with no backslash is unchanged |
| Paths.EnforceForwardSlashesIdempotent | test/src/helpers/enforceForwardSlashes.spec.js:3-11 | normalising twice is the same as normalising once |
| Paths.KeepsOtherCharacters | test/src/helpers/enforceForwardSlashes.spec.js:3-11 | a prefix with no backslash is kept as it is |
| Paths.BackslashSeparatedSegments | test/src/helpers/enforceForwardSlashes.spec.js:4-10 | segments joined by runs of one or more backslashes come out joined by single `/` |
| Uri.EncodeURIComponent | src/helpers/dataClient.js:124 | the result holds only unescaped characters and `%` |
| Uri.Utf8DecodeOfUtf8 | src/helpers/dataClient.js:124 | every character's UTF-8 octets decode back to that character |
| Uri.DecodeEncode | src/helpers/dataClient.js:91 | `decodeURIComponent(encodeURIComponent(s)) == s` |
| Uri.EncodeInjective | src/helpers/dataClient.js:124 | different names never share an encoding |
| Uri.DecodeWithoutPercent | src/helpers/dataClient.js:91 | a path without `%` decodes to itself |
| Uri.EncodePathSegments | src/helpers/dataClient.js:124 | the encoded path has the same `/`-separated segments as the path, each one encoded |
| Uri.EncodePathDecodes | src/helpers/dataClient.js:263 | each segment of an encoded path decodes back to the original segment |
| Uri.PlainPathUnchanged | src/helpers/dataClient.js:406 | a path made of unescaped characters and `/` goes out unchanged |
| Listing.FilterResponse | src/helpers/dataClient.js:20-30 | the stat is passed through, the pathname holds no backslash, and no kept entry is the directory itself |
| Listing.FilterFilesDropsSelf | src/helpers/dataClient.js:25-28 | every kept entry has a normalised name that differs from the directory's |
| Listing.FilterFilesKeepsOthers | src/helpers/dataClient.js:25-28 | every entry other than the directory itself is kept, normalised |
| Listing.FilterFilesOrigin | src/helpers/dataClient.js:25-28 | every kept entry is a listed entry, normalised, with its other fields unchanged |
| Listing.FilterFilesAppend | src/helpers/dataClient.js:25 | filtering keeps the order of the listing |
| Listing.FilterFilesOne | src/helpers/dataClient.js:26-27 | one entry is dropped if and only if its normalised name is the directory's |
| Listing.FilterFilesIdempotent | src/helpers/dataClient.js:20-30 | filtering a filtered listing changes nothing |
| Listing.NormaliseEntry | src/helpers/dataClient.js:26 | rewrites the i-th object's name to its normal form, and every other object keeps its name or its normal form |
| Listing.FilterEntries | src/helpers/dataClient.js:25-28 | normalises every object's name in place; the objects kept, in order, hold exactly `FilterFiles` of the listing as it was on entry |
| Transport.FormatError | src/helpers/dataClient.js:43-52 | the message is kept, and the code is the status set in `response` |
| Transport.FormatErrorCanonical | src/helpers/dataClient.js:43-52 | `Invalid response: <n> <text>` gives code and status n, and data `<text>` |
| Transport.FormatErrorDiscardsSystemCode | src/helpers/dataClient.js:44-49 | a system error's message gives a NaN code, so the error is never retried |
| Transport.LookupStatusCode | src/helpers/dataClient.js:54-58 | a fixed message exists if and only if the status is 401, 403 or 404 |
| Transport.StreamAttemptClassifies | src/helpers/dataClient.js:128-150 | a transfer resolves if and only if a 2xx response arrives and its body goes through; a non-2xx status rejects with that code, using the fixed message for 401/403/404 and the body's message otherwise; a failure during the transfer gets the direction prefix |
| Transport.LookedUpStatusNotRetried | src/helpers/dataClient.js:132-136 | a 401, 403 or 404 reply is never retried |
| Transport.RequestAttemptClassifies | src/helpers/dataClient.js:267-277 | a PROPFIND/MKCOL resolves if and only if the reply is 2xx; otherwise it rejects with the status as code and the body as message, or passes the request error through |
| Transport.WebdavAttempt | src/helpers/dataClient.js:91 | a path that cannot be decoded rejects with a URIError before any request; a client rejection is passed through `formatError` |
| Transport.UndecodablePathNotRetried | src/helpers/dataClient.js:91 | the URIError of an undecodable path is never retried |
| Transport.EncodedPathGoesOut | src/helpers/dataClient.js:102-105 | a webdav call on an encoded path always reaches the client |
| Transport.Merge | src/helpers/dataClient.js:40 | the merged headers are the union of both, and the later value wins for a shared key |
| Transport.FetchOptionsHeaders | src/helpers/dataClient.js:32-41 | every fetch carries `authorization` and `Depth`, defaulting to the bearer token and 1; the caller's headers win |
| Transport.StatAsksDepthZero | src/helpers/dataClient.js:83-91 | a stat always asks Depth 0, with the bearer token unless its options replace it; a plain listing asks Depth 1 |
| Sync.ListRemote | src/helpers/dataClient.js:97-111 | a resolved listing has the normalised pathname, and the filtered children of the directory |
| SyncProperties.RequestRunSettles | src/helpers/dataClient.js:258-280 | a retried PROPFIND or MKCOL resolves if and only if its last reply is 2xx; otherwise it rejects with that reply's error, or with its status and body |
| SyncProperties.StreamRunSettles | src/helpers/dataClient.js:170-183 | a retried transfer resolves if and only if its last reply is a complete 2xx transfer; a request error passes through; 401/403/404 reject with the fixed message |
| SyncProperties.ClientErrorTransferredOnce | src/helpers/dataClient.js:132-136 | a first reply of 401, 403 or 404 ends the transfer after one call, with the fixed message |
| SyncProperties.GetFileOutcome | src/helpers/dataClient.js:170-191 | one GET of the encoded path; on success, the size and one success line; on failure, the same error, a failure line and a download retry command |
| SyncProperties.PutFileOutcome | src/helpers/dataClient.js:237-257 | one PUT of the encoded `<dest>/<basename>`; on success, a success line; on failure, the same error, a failure line and an upload retry command |
| SyncProperties.GetResolvesWith | src/helpers/dataClient.js:155-169 | a file is fetched with `getFile` and resolves with its size; a directory is walked and resolves with nothing; the trace is that of the operation chosen |
| SyncProperties.PropfindOutcome | src/helpers/dataClient.js:258-280 | one PROPFIND of the encoded path, settling as its retry run |
| SyncProperties.CreateRemoteDirectoryOutcome | src/helpers/dataClient.js:401-423 | one MKCOL of the encoded path, one log line per attempt, the last line a success if and only if the creation resolved |
| SyncProperties.CheckWithoutCreate | src/helpers/dataClient.js:371-381 | when the PROPFIND does not fail with 404, no MKCOL is sent; the folder is present, or the probe failed with that error |
| SyncProperties.CheckCreatesMissing | src/helpers/dataClient.js:383-396 | after a 404, an MKCOL follows; the folder is created, raced (405) or failed, each exactly when the MKCOL settles that way |
| SyncProperties.PutOfFile | src/helpers/dataClient.js:362-367 | `put` of a file is `putFile` |
| SyncProperties.PutRejectsOnFolderFailure | src/helpers/dataClient.js:375-394 | when the folder cannot be made sure of, `put` rejects; a 409 becomes the missing-parent error, and other errors are rethrown; nothing is uploaded |
| SyncProperties.PutUploadsContents | src/helpers/dataClient.js:383-398 | otherwise `put` settles as the walk of the directory, with an info line first when the folder raced into existence |
| SyncProperties.PutDirectoryRejections | src/helpers/dataClient.js:361-400 | a directory `put` rejects only with the folder failure, or with the TypeError of a failed `stat` |
| SyncProperties.UnreadableDirectorySkipped | src/helpers/dataClient.js:285-291 | an unreadable directory logs one line, resolves, and sends nothing |
| SyncProperties.StatFailureOfChild | src/helpers/dataClient.js:296-305 | an ENOENT entry is logged and skipped; any other failed `stat` rejects with the TypeError |
| SyncProperties.FileChildUploaded | src/helpers/dataClient.js:305-314 | a file entry is uploaded with `putFile`, and its failure is swallowed |
| SyncProperties.SubdirectoryIgnoredUnlessRecursive | src/helpers/dataClient.js:315 | without `recursive` a subdirectory is passed over, and nothing happens |
| SyncProperties.SubdirectorySkippedOnFolderFailure | src/helpers/dataClient.js:318-349 | when a subdirectory's folder cannot be made sure of, the failure is logged with a retry command (with `--recursive` after a creation failure), and the subdirectory is skipped without rejecting |
| SyncProperties.SubdirectoryWalked | src/helpers/dataClient.js:333-357 | otherwise the subdirectory is walked, and its result is not caught |
| SyncProperties.WalkResolvesUnlessAChildRejects | src/helpers/dataClient.js:293-359 | when no entry rejects, the walk resolves |
| SyncProperties.WalkStopsAtFirstRejection | src/helpers/dataClient.js:293-359 | the walk rejects with the first rejecting entry's error, and that entry's events are in the trace |
| SyncProperties.LocalWalkRejectsOnlyOnStat | src/helpers/dataClient.js:281-360 | an upload walk rejects only with the TypeError of a failed `stat`, however deep |
| SyncProperties.ListRemoteOutcome | src/helpers/dataClient.js:97-111 | a stat and a listing are both sent; the result resolves if and only if both do, and otherwise carries the stat's error first, then the listing's |
| SyncProperties.ListingFailureAbandons | src/helpers/dataClient.js:198-235 | a failed listing is rethrown after an error line and a download retry command; only the stat and the listing are sent, and no local directory is created |
| SyncProperties.ListingFailureRequests | src/helpers/dataClient.js:202 | after a failed listing, the only requests are the stat and the listing |
| SyncProperties.ListingFailureNoLocalCopy | src/helpers/dataClient.js:202-204 | after a failed listing, no local directory is created |
| SyncProperties.ListingSuccessVisitsChildren | src/helpers/dataClient.js:202-230 | after a listing succeeds, the local directory is created and logged, then each filtered child is visited in order, and the walk resolves |
| SyncProperties.RemoteWalkRejectsOnlyAtTop | src/helpers/dataClient.js:198-235 | a download walk rejects if and only if its own listing, or its own local directory, fails; failures of its children are swallowed |
| SyncProperties.FileChildDownloaded | src/helpers/dataClient.js:207-218 | every listed file child is downloaded with a GET of its encoded name |
| SyncProperties.NonRecursiveDownloadsFilesOnly | src/helpers/dataClient.js:219-229 | without `recursive`, the children produce downloads only, with no nested listing |
| DataClients.DataClient.constructor | src/helpers/dataClient.js:60-81 | a new client has an empty trace |
| DataClients.DataClient.GetFile | src/helpers/dataClient.js:170-191 | appends exactly the events of `Sync.GetFile` and settles with its result |
| DataClients.DataClient.PutFile | src/helpers/dataClient.js:237-257 | the same, for `Sync.PutFile` |
| DataClients.DataClient.PropfindDirectory | src/helpers/dataClient.js:258-280 | the same, for `Sync.PropfindDirectory` |
| DataClients.DataClient.CreateRemoteDirectory | src/helpers/dataClient.js:401-423 | appends the MKCOL and then, in a loop, the line each attempt logged; equal to `Sync.CreateRemoteDirectory` |
| DataClients.DataClient.CheckRemoteFolder | src/helpers/dataClient.js:371-396 | the probe, then the creation if needed; equal to `Sync.CheckRemoteFolder` |
| DataClients.DataClient.CreateIfMissing | src/helpers/dataClient.js:375-396 | the `folderExists` flag and the two catch blocks; equal to `Sync.CreateIfMissing` |
| DataClients.DataClient.ListRemote | src/helpers/dataClient.js:97-111 | equal to `Sync.ListRemote` |
| DataClients.DataClient.GetRemoteDirectoryContents | src/helpers/dataClient.js:192-236 | equal to `Sync.GetRemoteDirectoryContents`, through the recursion |
| DataClients.DataClient.DownloadListed | src/helpers/dataClient.js:202-235 | equal to `Sync.ListedContents` |
| DataClients.DataClient.DownloadChildren | src/helpers/dataClient.js:207-230 | the loop over the children appends exactly `Sync.RemoteChildren` |
| DataClients.DataClient.DownloadChild | src/helpers/dataClient.js:208-229 | equal to `Sync.RemoteChild`, with the child's failure swallowed |
| DataClients.DataClient.Get | src/helpers/dataClient.js:155-169 | equal to `Sync.Get` |
| DataClients.DataClient.GetLocalDirectoryContents | src/helpers/dataClient.js:281-292 | equal to `Sync.GetLocalDirectoryContents` |
| DataClients.DataClient.UploadEntries | src/helpers/dataClient.js:293-359 | the loop over the entries stops at the first rejection; equal to `Sync.LocalChildren` |
| DataClients.DataClient.UploadEntry | src/helpers/dataClient.js:294-358 | equal to `Sync.LocalChild` |
| DataClients.DataClient.UploadSubdirectory | src/helpers/dataClient.js:315-357 | equal to `Sync.LocalSubdirectory` |
| DataClients.DataClient.UploadSubdirectoryContents | src/helpers/dataClient.js:333-357 | equal to `Sync.SubdirectoryContents` |
| DataClients.DataClient.Put | src/helpers/dataClient.js:361-400 | equal to `Sync.Put` |
| DataClients.DataClient.PutFolderContents | src/helpers/dataClient.js:383-398 | equal to `Sync.FolderContents` |

## Left out

- File I/O, the network and the clock: every reply, `readdir` listing and
  `stat` result is a parameter, given per attempt as a function of the attempt
  number. `Promise.delay` is recorded as the delay it would wait, not waited.
- Concurrency: `Promise.all` in `listRemote` is modelled with both requests sent
  in order, stat first.
- Sync.ListRemote: when both the stat and the listing fail, the model reports the
  stat's error. The source reports whichever rejection comes first in time.
- Transport.FormatError: returns the updated error as a new value. The source
  sets `response` and `code` on the error object in place. No other reference to
  that object is read afterwards.
- Transport.StreamAttempt: a non-2xx response with no parsed body (lines
  137-141) is folded into the `bodyMessage` parameter. How the body is read is
  not modelled, and neither is the file stream's own error event, which is
  folded into `RequestFailed`.
- The webdav library: `client.stat` and `client.getDirectoryContents` are
  replies, and `createClient.setFetchMethod` is modelled only through the
  options it builds.
- The `request.defaults` options (base URL, `strictSSL`, cookie jar,
  `Authorization` header) are not modelled.
- `path.join`, `path.posix.join`, `path.basename` and `pretty-bytes` are
  library code. They are parameters (`Paths.PathOps`).
- `src/helpers/enforceForwardSlashes.js` is not part of this model.
  `Paths.EnforceForwardSlashes` is defined from its tests: each run of
  backslashes becomes one `/`.
- `src/helpers/log.js` is not part of this model. Log lines are `Sync.Line`
  values with their level, and `Sync.Text` gives the text each one renders.
- Sync.CreateRemoteDirectory: the per-attempt MKCOL lines are placed after the
  request event in the trace, not interleaved with the retries.
- JavaScript numbers are integers or NaN. Fractions, infinities and the 2^53
  precision limit are not modelled. `parseInt` yields an unbounded integer.
- A file's size is a natural number. The `stat.size || 0` default for a missing
  size is not modelled.
- Sync.GetRemoteDirectoryContents and Sync.GetLocalDirectoryContents resolve
  with nothing. The source resolves with the array `Promise.mapSeries` builds,
  which no caller reads.
- The text of the TypeError thrown by `stat.isFile()` on an
  undefined stat depends on the runtime. The model uses one fixed message.
- The error objects of `standard-http-error` are modelled only by their code and
  message.
- `required`, `validateLogfile` and `parseAccessTokenFile` in
  `src/helpers/validators.js` are outside the modelled core, as are
  `createDataClient`'s `req` property and `index.js`.
- DataClients.DataClient.Put: requires a stat that succeeded, because `put` is
  handed the result of a `stat` its caller already made.

## Findings

| source | as written | input that shows it | evidently intended | confidence | as-written member | corrected member |
|---|---|---|---|---|---|---|
| src/helpers/validators.js:32-38 | a string is passed through `parseInt`, and lodash `isNumber` is true for NaN, so a non-numeric string passes both checks (NaN compares false with 0 and with 5) and resolves NaN | `validateRetryCount('three')` resolves NaN; the test at test/src/helpers/validators.spec.js:68-74 expects the rejection 'Retry count must be a number' | a value that does not read as a number is rejected as not a number | not executed | Validators.ValidateRetryCountAsWritten, Validators.NonNumericStringResolvesNaN | Validators.ValidateRetryCount, Validators.CorrectionOnlyRejectsNaN |
