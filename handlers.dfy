/**
 * The decisions of the two request handlers built by GetHandlers in
 * request-handlers.go: getS3File (status, headers and body of a download) and
 * getS3FileInfo (the same status and headers without opening the object).
 * The storage client's answers are inputs; streaming the body is left to the
 * consumer of the range reader (RangeReading.ReadAll).
 */
module Handlers {
  import opened Common
  import opened Storage
  import opened RangeReading
  import opened RangeHeader

  /** The answer of StatObject: the object's size, or a failure. */
  datatype StatOutcome = Stat(size: int) | StatFailed

  /** The answer of GetObject: a read handle, or a failure. */
  datatype OpenOutcome = Opened(handle: ObjectHandle) | OpenFailed

  /**
   * The storage client's GetObject for the requested object: its answer is
   * fixed, and `opens` counts the calls.
   */
  class ObjectStore {
    const answer: OpenOutcome
    ghost var opens: nat

    constructor (answer: OpenOutcome)
      ensures this.answer == answer && opens == 0
    {
      this.answer := answer;
      opens := 0;
    }

    /** GetObject: asks the backend for a read handle. */
    method GetObject() returns (o: OpenOutcome)
      modifies this`opens
      ensures o == answer && opens == old(opens) + 1
    {
      o := answer;
      opens := opens + 1;
    }
  }

  /** Why a request failed; the message text is not modelled. */
  datatype Failure = StatError | OpenError | BadRange(rangeError: RangeError)

  /** What the response body is: an error message, the whole object, a range of it, or nothing. */
  datatype Body = ErrorText(cause: Failure) | WholeObject | RangeOf(start: int, end: int) | NoBody

  /** Status code, the headers the handlers set, and the body. */
  datatype Response = Response(
    status: int,
    contentType: Option<string>,
    acceptRanges: Option<string>,
    disposition: Option<string>,
    contentLength: Option<int>,
    body: Body)

  const StatusOK := 200
  const StatusPartialContent := 206
  const StatusBadRequest := 400
  const StatusInternalServerError := 500

  /** The content type c.Data sets on every error response. */
  const ErrorContentType := "application/text/plain"

  predicate NoSlash(s: string)
  {
    forall i :: 0 <= i < |s| ==> s[i] != '/'
  }

  /** strings.Split(s, "/"): the pieces between slashes; one piece exactly when s has no '/'. */
  function SplitSlash(s: string): (parts: seq<string>)
    ensures |parts| >= 1
    ensures |parts| == 1 <==> NoSlash(s)
  {
    if s == [] then [[]]
    else
      var rest := SplitSlash(s[1..]);
      if s[0] == '/' then [[]] + rest else [[s[0]] + rest[0]] + rest[1..]
  }

  /** Where the file name of a path starts: just after its last '/', or 0. */
  function SegmentStart(path: string): (k: nat)
    ensures k <= |path|
    ensures forall i :: k <= i < |path| ==> path[i] != '/'
    ensures k > 0 ==> path[k - 1] == '/'
  {
    if path == [] then 0
    else if path[|path| - 1] == '/' then |path|
    else SegmentStart(path[..|path| - 1])
  }

  /**
   * The file name of a path: the text after its last '/', all of it when it
   * has none, and empty when it ends in '/'.
   */
  function LastSegment(path: string): (name: string)
    ensures NoSlash(name) && |name| <= |path|
    ensures name == path[|path| - |name|..]
    ensures NoSlash(path) ==> name == path
    ensures |path| > 0 && path[|path| - 1] == '/' ==> name == []
  {
    path[SegmentStart(path)..]
  }

  /** The file name starts right after a '/' unless it is the whole path. */
  lemma LastSegmentAfterSlash(path: string)
    ensures var name := LastSegment(path);
      |name| < |path| ==> path[|path| - |name| - 1] == '/'
  {
  }

  /** Only one position satisfies SegmentStart's contract. */
  lemma SegmentStartUnique(path: string, k: nat)
    requires k <= |path|
    requires forall i :: k <= i < |path| ==> path[i] != '/'
    requires k > 0 ==> path[k - 1] == '/'
    ensures SegmentStart(path) == k
  {
    var m := SegmentStart(path);
    assert m > 0 ==> path[m - 1] == '/';
  }

  /** The last piece strings.Split gives is the path's file name. */
  lemma {:induction false} SplitLast(path: string)
    ensures var parts := SplitSlash(path); parts[|parts| - 1] == LastSegment(path)
  {
    if path != [] {
      var c, t := path[0], path[1..];
      var rest := SplitSlash(t);
      SplitLast(t);
      var st := SegmentStart(t);
      if c == '/' || !NoSlash(t) {
        if !NoSlash(t) {
          assert st > 0;
        }
        SegmentStartUnique(path, 1 + st);
        assert path[1 + st..] == t[st..];
      } else {
        SegmentStartUnique(path, 0);
        assert SplitSlash(path) == [[c] + rest[0]] + rest[1..];
        assert path == [c] + t;
      }
    }
  }

  /** c.Data(status, "application/text/plain", message). */
  function ErrorResponse(status: int, cause: Failure): (r: Response)
    ensures r.status == status && r.body == ErrorText(cause) && r.contentType == Some(ErrorContentType)
    ensures r.acceptRanges == None && r.disposition == None && r.contentLength == None
  {
    Response(status, Some(ErrorContentType), None, None, None, ErrorText(cause))
  }

  /**
   * Everything both handlers do once the object's size is known: parse the
   * range, then set Accept-Ranges, Content-Disposition, Content-Length and the
   * status; `withBody` says whether the object is sent.
   */
  function RangedResponse(path: string, header: string, size: int, withBody: bool): (r: Response)
    ensures r.status in {StatusOK, StatusPartialContent, StatusBadRequest}
    // success exactly when the range is accepted; a rejected range is a 400 error reply
    ensures r.status in {StatusOK, StatusPartialContent} <==> ParseRangeHeader(header, size).err.None?
    ensures r.status == StatusBadRequest ==>
      ParseRangeHeader(header, size).err.Some? &&
      r == ErrorResponse(StatusBadRequest, BadRange(ParseRangeHeader(header, size).err.value))
    // a success announces byte ranges and names the file after the path's last '/'
    ensures r.status != StatusBadRequest ==>
      r.contentType == None && r.acceptRanges == Some("bytes") &&
      r.disposition == Some("attachment; filename=" + LastSegment(path))
    // no Range header: 200 with the object's size; and 200 only then
    ensures header == "" ==> r.status == StatusOK && r.contentLength == Some(size)
    ensures r.status == StatusOK ==> header == ""
    // 206: the accepted range, inside the object, with its byte count
    ensures r.status == StatusPartialContent ==>
      var rng := ParseRangeHeader(header, size).rng;
      rng.enabled && 0 <= rng.start <= rng.end < size &&
      r.contentLength == Some(rng.end - rng.start + 1) && 1 <= r.contentLength.value <= size &&
      (withBody ==> r.body == RangeOf(rng.start, rng.end))
    ensures withBody && r.status == StatusOK ==> r.body == WholeObject
    // without a body no object bytes are sent
    ensures !withBody ==> !r.body.WholeObject? && !r.body.RangeOf?
  {
    var parsed := ParseRangeHeader(header, size);
    if parsed.err.Some? then ErrorResponse(StatusBadRequest, BadRange(parsed.err.value))
    else
      var disposition := Some("attachment; filename=" + LastSegment(path));
      var rng := parsed.rng;
      if !rng.enabled then
        Response(StatusOK, None, Some("bytes"), disposition, Some(size),
                 if withBody then WholeObject else NoBody)
      else
        Response(StatusPartialContent, None, Some("bytes"), disposition, Some(rng.end - rng.start + 1),
                 if withBody then RangeOf(rng.start, rng.end) else NoBody)
  }

  /** The response of getS3File, given whether StatObject and GetObject succeeded. */
  function FileResponse(path: string, header: string, stat: StatOutcome, openOk: bool): (r: Response)
    ensures r.status in {StatusOK, StatusPartialContent, StatusBadRequest, StatusInternalServerError}
    // backend failures: 500 with the cause as body, no range headers
    ensures r.status == StatusInternalServerError <==> stat.StatFailed? || !openOk
    ensures stat.StatFailed? ==> r == ErrorResponse(StatusInternalServerError, StatError)
    ensures stat.Stat? && !openOk ==> r == ErrorResponse(StatusInternalServerError, OpenError)
    // a rejected range: 400 with the parser's error
    ensures r.status == StatusBadRequest <==> stat.Stat? && openOk && ParseRangeHeader(header, stat.size).err.Some?
    ensures r.status == StatusBadRequest ==>
      stat.Stat? && ParseRangeHeader(header, stat.size).err.Some? &&
      r == ErrorResponse(StatusBadRequest, BadRange(ParseRangeHeader(header, stat.size).err.value))
    // every success announces byte ranges and names the file
    ensures r.status in {StatusOK, StatusPartialContent} <==>
      r.acceptRanges == Some("bytes") && r.disposition == Some("attachment; filename=" + LastSegment(path))
    // no Range header: 200 with the whole object
    ensures stat.Stat? && openOk && header == "" ==>
      r.status == StatusOK && r.contentLength == Some(stat.size) && r.body == WholeObject
    ensures r.status == StatusOK ==> header == ""
    // a valid range: 206, the range's bytes, and their count as Content-Length
    ensures r.status == StatusPartialContent ==>
      stat.Stat? && openOk && r.body.RangeOf? && 0 <= r.body.start <= r.body.end < stat.size &&
      ParseRangeHeader(header, stat.size) == Parsed(Range(true, r.body.start, r.body.end), None) &&
      r.contentLength == Some(r.body.end - r.body.start + 1) &&
      1 <= r.contentLength.value <= stat.size
  {
    match stat
    case StatFailed => ErrorResponse(StatusInternalServerError, StatError)
    case Stat(size) =>
      if !openOk then ErrorResponse(StatusInternalServerError, OpenError)
      else RangedResponse(path, header, size, true)
  }

  /** The response of getS3FileInfo: the object is never opened and no body is sent. */
  function InfoResponse(path: string, header: string, stat: StatOutcome): (r: Response)
    ensures !r.body.WholeObject? && !r.body.RangeOf?
    ensures r.status == StatusInternalServerError <==> stat.StatFailed?
  {
    match stat
    case StatFailed => ErrorResponse(StatusInternalServerError, StatError)
    case Stat(size) => RangedResponse(path, header, size, false)
  }

  /**
   * getS3FileInfo answers with the status and headers getS3File gives when the
   * object opens, and the same error bodies, but sends no object bytes.
   */
  lemma InfoMatchesFile(path: string, header: string, stat: StatOutcome)
    ensures var f := FileResponse(path, header, stat, true);
      InfoResponse(path, header, stat) == f.(body := if f.body.ErrorText? then f.body else NoBody)
  {
  }

  /**
   * getS3File: GetObject is asked for a handle only after a successful stat,
   * and a handle it returns is closed on every path (the deferred Close).
   */
  method GetS3File(path: string, header: string, stat: StatOutcome, store: ObjectStore) returns (resp: Response)
    modifies store`opens
    modifies if store.answer.Opened? then {store.answer.handle} else {}
    ensures resp == FileResponse(path, header, stat, store.answer.Opened?)
    ensures store.opens == old(store.opens) + (if stat.Stat? then 1 else 0)
    ensures stat.Stat? && store.answer.Opened? ==> store.answer.handle.closed
    ensures stat.StatFailed? && store.answer.Opened? ==> store.answer.handle.closed == old(store.answer.handle.closed)
  {
    if stat.StatFailed? {
      resp := ErrorResponse(StatusInternalServerError, StatError);
      return;
    }
    var open := store.GetObject();
    if open.OpenFailed? {
      resp := ErrorResponse(StatusInternalServerError, OpenError);
      return;
    }
    var handle := open.handle;
    var parsed := ParseRangeHeader(header, stat.size);
    if parsed.err.Some? {
      resp := ErrorResponse(StatusBadRequest, BadRange(parsed.err.value));
      var _ := handle.Close();
      return;
    }
    var segments := SplitSlash(path);
    SplitLast(path);
    var disposition := "attachment; filename=" + segments[|segments| - 1];
    var status, length, body;
    if !parsed.rng.enabled {
      status, length, body := StatusOK, stat.size, WholeObject;
    } else {
      status, length := StatusPartialContent, parsed.rng.end - parsed.rng.start + 1;
      body := RangeOf(parsed.rng.start, parsed.rng.end);
    }
    resp := Response(status, None, Some("bytes"), Some(disposition), Some(length), body);
    var _ := handle.Close();
  }

  /** getS3FileInfo: the same steps without GetObject and without a body. */
  method GetS3FileInfo(path: string, header: string, stat: StatOutcome) returns (resp: Response)
    ensures resp == InfoResponse(path, header, stat)
  {
    if stat.StatFailed? {
      resp := ErrorResponse(StatusInternalServerError, StatError);
      return;
    }
    var parsed := ParseRangeHeader(header, stat.size);
    if parsed.err.Some? {
      resp := ErrorResponse(StatusBadRequest, BadRange(parsed.err.value));
      return;
    }
    var segments := SplitSlash(path);
    SplitLast(path);
    var disposition := "attachment; filename=" + segments[|segments| - 1];
    if !parsed.rng.enabled {
      resp := Response(StatusOK, None, Some("bytes"), Some(disposition), Some(stat.size), NoBody);
    } else {
      resp := Response(StatusPartialContent, None, Some("bytes"), Some(disposition),
                       Some(parsed.rng.end - parsed.rng.start + 1), NoBody);
    }
  }
}
