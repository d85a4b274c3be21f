/**
 * The decision logic around each remote call of the data client: how a webdav
 * failure is reformatted, how a transfer reply or a PROPFIND/MKCOL reply becomes
 * a resolved or rejected attempt, and the headers every webdav fetch carries.
 * One reply is one attempt; the retry executor decides whether another follows.
 */
module Transport {
  import opened Results
  import opened Js
  import opened Failures
  import opened ErrorHandler
  import opened RequestHandler
  import opened Uri

  // ---------------------------------------------------------------------------
  // formatError

  const InvalidResponse := "Invalid response: "

  /**
   * `formatError(err)`: reads `"Invalid response: <status> <text>"`, and sets the
   * code and `response = { status, data }` from it; the message is kept. The
   * caller sees it as a rejection with the same error.
   */
  function FormatError(err: Failure): (r: Failure)
    ensures r.message == err.message
    ensures r.response.Some? && r.code == NumCode(r.response.value.status)
  {
    var temp := RemoveFirst(err.message, InvalidResponse);
    var status := ParseInt(Split(temp, " ")[0]);
    var data := RemoveFirst(temp, NumberToString(status) + " ");
    Failure(err.message, NumCode(status), Some(Response(status, data)))
  }

  /** Removing a prefix leaves what follows it. */
  lemma RemoveFirstPrefix(s: string, pat: string)
    requires pat <= s
    ensures RemoveFirst(s, pat) == s[|pat|..]
  {
    assert s[..|pat|] == pat;
    assert IndexOf(s, pat) == Some(0);
    assert s[..0] + s[|pat|..] == s[|pat|..];
  }

  /** Digits are followed by the first space: the status is the first part of the split. */
  lemma StatusIsFirstPart(digits: string, text: string)
    requires AllDigits(digits) && digits != []
    ensures Split(digits + " " + text, " ")[0] == digits
  {
    var s := digits + " " + text;
    assert OccursAt(s, " ", |digits|) by {
      assert s[|digits|..|digits| + 1] == " ";
    }
    forall j: nat | j < |digits|
      ensures !OccursAt(s, " ", j)
    {
      assert s[j..j + 1][0] == s[j] == digits[j];
    }
    IndexOfIs(s, " ", |digits|);
    assert s[..|digits|] == digits;
  }

  /**
   * A message of the form `Invalid response: <n> <text>`, with `n` written in
   * canonical decimal, gives code and status `n` and data `text`.
   */
  lemma FormatErrorCanonical(n: nat, text: string, code: Code, response: Option<Response>)
    ensures var msg := InvalidResponse + NatToString(n) + " " + text;
      FormatError(Failure(msg, code, response)) == Failure(msg, NumCode(Int(n)), Some(Response(Int(n), text)))
  {
    MessageParts(NatToString(n), text);
    CanonicalRest(NatToString(n) + " " + text);
    CanonicalStatus(n, text);
    CanonicalData(n, text);
  }

  lemma MessageParts(digits: string, text: string)
    ensures InvalidResponse + digits + " " + text == InvalidResponse + (digits + " " + text)
  {
  }

  lemma CanonicalRest(temp: string)
    ensures RemoveFirst(InvalidResponse + temp, InvalidResponse) == temp
  {
    RemoveFirstPrefix(InvalidResponse + temp, InvalidResponse);
    assert (InvalidResponse + temp)[|InvalidResponse|..] == temp;
  }

  lemma CanonicalStatus(n: nat, text: string)
    ensures ParseInt(Split(NatToString(n) + " " + text, " ")[0]) == Int(n)
  {
    StatusIsFirstPart(NatToString(n), text);
    ParseIntOfNatToString(n, []);
  }

  lemma CanonicalData(n: nat, text: string)
    ensures RemoveFirst(NatToString(n) + " " + text, NumberToString(Int(n)) + " ") == text
  {
    var digits := NatToString(n);
    RemoveFirstPrefix(digits + " " + text, digits + " ");
    assert (digits + " " + text)[|digits + " "|..] == text;
  }

  /**
   * A failure that is not an HTTP status line (a system error such as a reset
   * connection, whose message starts with a letter) gets a NaN code, which the
   * default handler never retries: formatting discards the original code.
   */
  lemma FormatErrorDiscardsSystemCode(err: Failure)
    requires err.message != [] && !IsDigit(err.message[0]) && !IsJsWhiteSpace(err.message[0])
    requires err.message[0] != '-' && err.message[0] != '+'
    requires !Contains(err.message, InvalidResponse)
    ensures FormatError(err).code == NumCode(NaN)
    ensures !DefaultErrorHandler(FormatError(err))
  {
    var msg := err.message;
    var part := Split(msg, " ")[0];
    SplitFirstPart(msg, " ");
    assert msg[0..1] == [msg[0]];
    assert part != [];
    assert part[0] == msg[0];
    ParseIntOfNonNumeric(part);
  }

  // ---------------------------------------------------------------------------
  // Status lines

  /** Success in the sense of section 15.3 of RFC 9110: a 2xx status. */
  predicate Is2xx(status: int) { 200 <= status <= 299 }

  /** `lookupStatusCode`: fixed messages for 404, 401 and 403, nothing for the rest. */
  function LookupStatusCode(status: int): (r: Option<string>)
    ensures r.Some? <==> status in {401, 403, 404}
  {
    if status == 404 then Some("Remote resource not found.")
    else if status == 401 then Some("Failed to authenticate. Please check your access token.")
    else if status == 403 then Some("You do not have permission to access the requested resource. Please contact your administrator.")
    else None
  }

  // ---------------------------------------------------------------------------
  // streamFile

  datatype Direction = Upload | Download

  /**
   * What one transfer request met: the request failed before a response (or the
   * local stream failed), or a response came with a status, the body's message,
   * and possibly an error while the body was being transferred.
   */
  datatype StreamReply =
    | RequestFailed(error: Failure)
    | Replied(status: int, bodyMessage: string, midTransfer: Option<Failure>)

  function TransferPrefix(direction: Direction): string {
    match direction
    case Upload => "Error on Upload: "
    case Download => "Error on Download: "
  }

  /** One `streamFile` call, given what its request met. */
  function StreamAttempt(direction: Direction, reply: StreamReply): Attempt<()> {
    match reply
    case RequestFailed(e) => Rejected(e)
    case Replied(status, bodyMessage, midTransfer) =>
      if !Is2xx(status) then
        match LookupStatusCode(status)
        case Some(message) => Rejected(HttpError(status, message))
        case None => Rejected(HttpError(status, bodyMessage))
      else
        match midTransfer
        case None => Resolved(())
        case Some(e) => Rejected(e.(message := TransferPrefix(direction) + e.message))
  }

  /**
   * A transfer resolves exactly when a 2xx response arrived and the body went
   * through; a non-2xx status rejects with that status as code, with the fixed
   * message for 401, 403 and 404 and the body's message otherwise; a failure
   * during the transfer keeps its code and gets a prefix naming the direction.
   */
  lemma StreamAttemptClassifies(direction: Direction, reply: StreamReply)
    ensures StreamAttempt(direction, reply).Resolved? <==>
      reply.Replied? && Is2xx(reply.status) && reply.midTransfer.None?
    ensures reply.RequestFailed? ==> StreamAttempt(direction, reply) == Rejected(reply.error)
    ensures reply.Replied? && !Is2xx(reply.status) ==>
      StreamAttempt(direction, reply).Rejected? &&
      StreamAttempt(direction, reply).failure.code == NumCode(Int(reply.status)) &&
      StreamAttempt(direction, reply).failure.message ==
        (if reply.status in {401, 403, 404} then LookupStatusCode(reply.status).value else reply.bodyMessage)
    ensures reply.Replied? && Is2xx(reply.status) && reply.midTransfer.Some? ==>
      StreamAttempt(direction, reply).Rejected? &&
      StreamAttempt(direction, reply).failure.code == reply.midTransfer.value.code &&
      StreamAttempt(direction, reply).failure.message ==
        TransferPrefix(direction) + reply.midTransfer.value.message
  {
    match reply
    case RequestFailed(_) =>
    case Replied(status, _, _) =>
      if !Is2xx(status) {
        assert LookupStatusCode(status).Some? <==> status in {401, 403, 404};
      }
  }

  /** 401, 403 and 404 replies are never retried: they are client errors. */
  lemma LookedUpStatusNotRetried(direction: Direction, status: int, bodyMessage: string, mid: Option<Failure>)
    requires status in {401, 403, 404}
    ensures !DefaultErrorHandler(StreamAttempt(direction, Replied(status, bodyMessage, mid)).failure)
  {
  }

  /**
   * The request path of a transfer: `<destination>/<basename>` when uploading,
   * the remote file path when downloading; each `/`-separated segment is then
   * percent-encoded.
   */
  function StreamUri(direction: Direction, filePath: string, destination: string, basename: string): string {
    match direction
    case Upload => EncodePath(destination + "/" + basename)
    case Download => EncodePath(filePath)
  }

  // ---------------------------------------------------------------------------
  // PROPFIND and MKCOL through `request`

  /** What a `request` call with a callback met: an error, or a response with its body. */
  datatype RawReply = NetworkError(error: Failure) | Reply(status: int, body: string)

  /**
   * The callback shared by `propfindDirectory` and `createRemoteDirectory`: an
   * error is passed on unchanged, a 2xx response resolves, any other response
   * rejects with its status and body.
   */
  function RequestAttempt(reply: RawReply): Attempt<()> {
    match reply
    case NetworkError(e) => Rejected(e)
    case Reply(status, body) => if Is2xx(status) then Resolved(()) else Rejected(HttpError(status, body))
  }

  /** A request resolves exactly on a 2xx reply; a failure carries the status as its code. */
  lemma RequestAttemptClassifies(reply: RawReply)
    ensures RequestAttempt(reply).Resolved? <==> reply.Reply? && Is2xx(reply.status)
    ensures reply.NetworkError? ==> RequestAttempt(reply) == Rejected(reply.error)
    ensures reply.Reply? && !Is2xx(reply.status) ==>
      RequestAttempt(reply).failure.code == NumCode(Int(reply.status)) &&
      RequestAttempt(reply).failure.message == reply.body
  {
  }

  // ---------------------------------------------------------------------------
  // webdav client calls

  /** What one webdav client call met: success, or the client's rejection. */
  datatype WebdavReply = WebdavOk | WebdavFailed(raw: Failure)

  /** The error `decodeURIComponent` throws on a malformed escape. */
  const UriError := Failure("URI malformed", NoCode, None)

  /**
   * One `client.stat` / `client.getDirectoryContents` call: the path is decoded
   * first (a malformed one throws before any request), and a rejection is passed
   * through `formatError`.
   */
  function WebdavAttempt(path: string, reply: WebdavReply): (r: Attempt<()>)
    ensures DecodeURIComponent(path).None? ==> r == Rejected(UriError)
    ensures r.Rejected? && DecodeURIComponent(path).Some? ==> r.failure.response.Some?
  {
    match DecodeURIComponent(path)
    case None => Rejected(UriError)
    case Some(_) =>
      match reply
      case WebdavOk => Resolved(())
      case WebdavFailed(raw) => Rejected(FormatError(raw))
  }

  /** A path that cannot be decoded is never retried: the URIError has no code. */
  lemma UndecodablePathNotRetried(path: string, reply: WebdavReply)
    requires DecodeURIComponent(path).None?
    ensures !DefaultErrorHandler(WebdavAttempt(path, reply).failure)
  {
  }

  /** An encoded path always decodes, so a webdav call on one always goes out. */
  lemma EncodedPathGoesOut(s: string, reply: WebdavReply)
    ensures reply.WebdavOk? ==> WebdavAttempt(EncodeURIComponent(s), reply) == Resolved(())
    ensures reply.WebdavFailed? ==> WebdavAttempt(EncodeURIComponent(s), reply) == Rejected(FormatError(reply.raw))
  {
    DecodeEncode(s);
  }

  // ---------------------------------------------------------------------------
  // Fetch options

  /** Request options: a header map and the other fields, values as sent. */
  datatype FetchOptions = FetchOptions(headers: map<string, string>, fields: map<string, string>)

  /** lodash `merge` on two option objects: later keys win, headers merged key by key. */
  function Merge(a: FetchOptions, b: FetchOptions): (r: FetchOptions)
    ensures r.headers.Keys == a.headers.Keys + b.headers.Keys
    ensures forall k :: k in b.headers ==> r.headers[k] == b.headers[k]
    ensures forall k :: k in a.headers && k !in b.headers ==> r.headers[k] == a.headers[k]
  {
    FetchOptions(a.headers + b.headers, a.fields + b.fields)
  }

  const NoOptions := FetchOptions(map[], map[])

  function OrNone(options: Option<FetchOptions>): FetchOptions {
    match options
    case None => NoOptions
    case Some(o) => o
  }

  /** `getWebdavFetchOptions(token, options)`: a bearer token and `Depth: 1`, overridden by `options`. */
  function GetWebdavFetchOptions(token: string, options: Option<FetchOptions>): FetchOptions {
    var auth := FetchOptions(map["authorization" := "Bearer " + token, "Depth" := "1"], map[]);
    Merge(Merge(NoOptions, auth), OrNone(options))
  }

  /** The options `statRemote` hands the client: the caller's, with `Depth: 0`. */
  function StatOptions(options: Option<FetchOptions>): FetchOptions {
    Merge(Merge(NoOptions, OrNone(options)), FetchOptions(map["Depth" := "0"], map[]))
  }

  /**
   * Every webdav fetch carries the bearer token and a Depth header; the caller's
   * headers win, so the token and the default Depth of 1 hold unless overridden.
   */
  lemma FetchOptionsHeaders(token: string, options: Option<FetchOptions>)
    ensures "authorization" in GetWebdavFetchOptions(token, options).headers
    ensures "Depth" in GetWebdavFetchOptions(token, options).headers
    ensures "authorization" !in OrNone(options).headers ==>
      GetWebdavFetchOptions(token, options).headers["authorization"] == "Bearer " + token
    ensures "Depth" !in OrNone(options).headers ==> GetWebdavFetchOptions(token, options).headers["Depth"] == "1"
    ensures forall k :: k in OrNone(options).headers ==>
      GetWebdavFetchOptions(token, options).headers[k] == OrNone(options).headers[k]
  {
  }

  /**
   * A stat asks for the resource alone (a PROPFIND with Depth 0, section 10.2 of
   * RFC 4918) whatever options it is given, with the bearer token unless the
   * options replace it; a listing without options asks for Depth 1.
   */
  lemma StatAsksDepthZero(token: string, options: Option<FetchOptions>)
    ensures GetWebdavFetchOptions(token, Some(StatOptions(options))).headers["Depth"] == "0"
    ensures "authorization" !in OrNone(options).headers ==>
      GetWebdavFetchOptions(token, Some(StatOptions(options))).headers["authorization"] == "Bearer " + token
    ensures GetWebdavFetchOptions(token, None).headers["Depth"] == "1"
  {
    FetchOptionsHeaders(token, Some(StatOptions(options)));
  }
}
