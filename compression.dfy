/** The response-compression middleware of packages/trs/src/lib/compression.js.

    `compression(options)` returns a handler; for a request it accepts, the handler replaces
    `writeHead`, `write`, `end` and `on` of the response with the members of `Interceptor`
    below. The underlying response is `Response`, a recorder of what reaches the socket; the
    zlib stream is `Encoder`, a sink that records what it is given and whether it is paused. */
module Compression {
  import opened Strings

  datatype Encoding = Br | Gzip

  /** The `Content-Encoding` token of an encoding. */
  function Token(e: Encoding): string {
    match e
    case Br => "br"
    case Gzip => "gzip"
  }

  /** The options of `compression(...)` (compression.js:19-25); object-valued `brotli` or
      `gzip` options (zlib parameters) are not modelled. */
  datatype Config = Config(threshold: int, level: int, brotli: bool, gzip: bool)

  const DefaultConfig: Config := Config(1024, -1, false, true)

  /** A header value as stored by `setHeader`. */
  datatype HeaderValue = HNum(n: int) | HText(s: string)

  /** Headers keyed by lower-case name, as Node stores them. */
  type Headers = map<string, HeaderValue>

  /** A body chunk: a Buffer, a string (encoded as UTF-8), or `null`/`undefined`. */
  datatype Chunk = Bytes(bytes: seq<byte>) | Text(text: string) | NoChunk

  /** The arguments of `end`: none, only a callback, or a chunk first. */
  datatype EndArg = NoArgs | CallbackOnly | WithChunk(chunk: Chunk)

  /** A listener: one registered by the user, or one of the three the interceptor installs. */
  datatype Listener = UserListener(id: int) | ResumeEncoder | PipeToResponse | EndResponse

  /** What reaches the real response. `WriteHeadOp` carries the headers as sent. */
  datatype Op =
    | WriteHeadOp(status: int, headers: Headers)
    | WriteOp(chunk: Chunk)
    | EndOp(arg: EndArg)
    | AttachOp(event: string, listener: Listener)

  datatype EncoderOp = EncWrite(chunk: Chunk) | EncEnd(arg: EndArg) | EncOn(event: string, listener: Listener)

  /** `getChunkSize(chunk, enc)` (compression.js:7) for UTF-8 text: a falsy chunk counts 0. */
  function ChunkSize(c: Chunk): nat {
    match c
    case Bytes(b) => |b|
    case Text(t) => Utf8Length(t)
    case NoChunk => 0
  }

  /** A text chunk counts the bytes of its UTF-8 encoding, at least one per character. */
  lemma ChunkSizeIsByteLength(t: string)
    ensures ChunkSize(Text(t)) == |Utf8Encode(t)| >= |t|
  {
    Utf8LengthIsEncodedSize(t);
  }

  function Lookup(headers: Headers, key: string): Option<HeaderValue> {
    if key in headers then Some(headers[key]) else None
  }

  /** The header names the interceptor reads and writes. */
  const ContentType: string := "Content-Type"
  const ContentLength: string := "Content-Length"
  const ContentEncoding: string := "Content-Encoding"

  /** The underlying `http.ServerResponse`, reduced to its headers, its status code and the
      operations that reach the socket, in order. */
  class Response {
    var statusCode: int
    var headers: Headers
    var log: seq<Op>
    /** The emitter's listener list for `drain`, in attachment order. */
    var drainListeners: seq<Listener>

    constructor ()
      ensures statusCode == 200 && headers == map[] && log == [] && drainListeners == []
    {
      statusCode := 200;
      headers := map[];
      log := [];
      drainListeners := [];
    }

    method SetHeader(name: string, value: HeaderValue)
      modifies this
      ensures headers == old(headers)[ToLowerAscii(name) := value]
      ensures statusCode == old(statusCode) && log == old(log)
      ensures drainListeners == old(drainListeners)
    {
      headers := headers[ToLowerAscii(name) := value];
    }

    method RemoveHeader(name: string)
      modifies this
      ensures headers == old(headers) - {ToLowerAscii(name)}
      ensures statusCode == old(statusCode) && log == old(log)
      ensures drainListeners == old(drainListeners)
    {
      headers := headers - {ToLowerAscii(name)};
    }

    function GetHeader(name: string): Option<HeaderValue>
      reads this
    {
      Lookup(headers, ToLowerAscii(name))
    }

    /** `setHeader` of each entry, in order. */
    method SetHeaders(entries: seq<(string, HeaderValue)>)
      modifies this
      ensures headers == SetAll(old(headers), entries)
      ensures statusCode == old(statusCode) && log == old(log)
      ensures drainListeners == old(drainListeners)
    {
      for k := 0 to |entries|
        invariant headers == SetAll(old(headers), entries[..k])
        invariant statusCode == old(statusCode) && log == old(log) && drainListeners == old(drainListeners)
      {
        SetHeader(entries[k].0, entries[k].1);
        assert entries[..k + 1] == entries[..k] + [entries[k]];
        SetAllAppend(old(headers), entries[..k], entries[k]);
      }
      assert entries[..|entries|] == entries;
    }

    method SetStatusCode(code: int)
      modifies this
      ensures statusCode == code && headers == old(headers) && log == old(log)
      ensures drainListeners == old(drainListeners)
    {
      statusCode := code;
    }

    /** The original `writeHead`, `write`, `end` and `on`. */
    method RawWriteHead(status: int)
      modifies this
      ensures log == old(log) + [WriteHeadOp(status, headers)]
      ensures statusCode == old(statusCode) && headers == old(headers)
      ensures drainListeners == old(drainListeners)
    {
      log := log + [WriteHeadOp(status, headers)];
    }

    method RawWrite(chunk: Chunk)
      modifies this
      ensures log == old(log) + [WriteOp(chunk)]
      ensures statusCode == old(statusCode) && headers == old(headers)
      ensures drainListeners == old(drainListeners)
    {
      log := log + [WriteOp(chunk)];
    }

    method RawEnd(arg: EndArg)
      modifies this
      ensures log == old(log) + [EndOp(arg)]
      ensures statusCode == old(statusCode) && headers == old(headers)
      ensures drainListeners == old(drainListeners)
    {
      log := log + [EndOp(arg)];
    }

    method RawOn(event: string, listener: Listener)
      modifies this
      ensures log == old(log) + [AttachOp(event, listener)]
      ensures statusCode == old(statusCode) && headers == old(headers)
      ensures drainListeners == old(drainListeners) + (if event == "drain" then [listener] else [])
    {
      log := log + [AttachOp(event, listener)];
      if event == "drain" {
        drainListeners := drainListeners + [listener];
      }
    }

    /** The original `on` for each queued listener, in order. */
    method RawOnEach(pending: seq<(string, Listener)>)
      modifies this
      ensures log == old(log) + AttachAll(pending)
      ensures statusCode == old(statusCode) && headers == old(headers)
      ensures drainListeners == old(drainListeners) + DrainsOf(pending)
    {
      ghost var log0, drains0 := log, drainListeners;
      for k := 0 to |pending|
        invariant log == log0 + AttachAll(pending[..k])
        invariant statusCode == old(statusCode) && headers == old(headers)
        invariant drainListeners == drains0 + DrainsOf(pending[..k])
      {
        var x := pending[k];
        QueueStep(pending, k);
        ConcatAssoc(log0, AttachAll(pending[..k]), [AttachOp(x.0, x.1)]);
        ConcatAssoc(drains0, DrainsOf(pending[..k]), if x.0 == "drain" then [x.1] else []);
        RawOn(x.0, x.1);
      }
      assert pending[..|pending|] == pending;
    }
  }

  /** The zlib stream: Brotli with a quality and a size hint, or Gzip with a level. */
  class Encoder {
    const kind: Encoding
    const level: int
    const sizeHint: Option<int>
    var paused: bool
    var log: seq<EncoderOp>
    /** The emitter's listener list for `drain`, in registration order. */
    var drainListeners: seq<Listener>

    constructor (kind: Encoding, level: int, sizeHint: Option<int>)
      ensures this.kind == kind && this.level == level && this.sizeHint == sizeHint
      ensures !paused && log == [] && drainListeners == []
    {
      this.kind := kind;
      this.level := level;
      this.sizeHint := sizeHint;
      paused := false;
      log := [];
      drainListeners := [];
    }

    method Write(chunk: Chunk)
      modifies this
      ensures log == old(log) + [EncWrite(chunk)] && paused == old(paused)
      ensures drainListeners == old(drainListeners)
    {
      log := log + [EncWrite(chunk)];
    }

    method End(arg: EndArg)
      modifies this
      ensures log == old(log) + [EncEnd(arg)] && paused == old(paused)
      ensures drainListeners == old(drainListeners)
    {
      log := log + [EncEnd(arg)];
    }

    method On(event: string, listener: Listener)
      modifies this
      ensures log == old(log) + [EncOn(event, listener)] && paused == old(paused)
      ensures drainListeners == old(drainListeners) + (if event == "drain" then [listener] else [])
    {
      log := log + [EncOn(event, listener)];
      if event == "drain" {
        drainListeners := drainListeners + [listener];
      }
    }

    /** `on` for each queued listener, in order. */
    method OnEach(pending: seq<(string, Listener)>)
      modifies this
      ensures log == old(log) + OnAll(pending) && paused == old(paused)
      ensures drainListeners == old(drainListeners) + DrainsOf(pending)
    {
      ghost var log0, drains0 := log, drainListeners;
      for k := 0 to |pending|
        invariant log == log0 + OnAll(pending[..k]) && paused == old(paused)
        invariant drainListeners == drains0 + DrainsOf(pending[..k])
      {
        var x := pending[k];
        QueueStep(pending, k);
        ConcatAssoc(log0, OnAll(pending[..k]), [EncOn(x.0, x.1)]);
        ConcatAssoc(drains0, DrainsOf(pending[..k]), if x.0 == "drain" then [x.1] else []);
        On(x.0, x.1);
      }
      assert pending[..|pending|] == pending;
    }

    method Pause()
      modifies this
      ensures paused && log == old(log) && drainListeners == old(drainListeners)
    {
      paused := true;
    }

    method Resume()
      modifies this
      ensures !paused && log == old(log) && drainListeners == old(drainListeners)
    {
      paused := false;
    }
  }

  /** JavaScript truthiness of a header value (`undefined` is None). */
  predicate Truthy(h: Option<HeaderValue>) {
    match h
    case None => false
    case Some(HNum(n)) => n != 0
    case Some(HText(s)) => s != ""
  }

  /** `Math.trunc(value)`: the integral number a header value reads as, None for NaN. */
  function HeaderNumber(h: Option<HeaderValue>): Option<int> {
    match h
    case None => None
    case Some(HNum(n)) => Some(n)
    case Some(HText(s)) => ParseDecimal(s)
  }

  /** compression.js:49: a truthy `Content-Length` replaces the counted size. */
  function StartSize(contentLength: Option<HeaderValue>, counted: int): int {
    var v := HeaderNumber(contentLength);
    if v.Some? && v.value != 0 then v.value else counted
  }

  /** `String(value)` of a header value. */
  function HeaderText(h: HeaderValue): string {
    match h
    case HNum(n) => IntToString(n)
    case HText(s) => s
  }

  /** A character of the subject matches a pattern letter under `/iu`: ASCII case-insensitively,
      and U+017F (LATIN SMALL LETTER LONG S) also matches `s` by simple case folding. */
  predicate CharMatchesI(c: char, p: char) {
    LowerAscii(c) == p || (p == 's' && c == '\U{017F}')
  }

  predicate MatchesAtI(s: string, i: nat, p: string) {
    i + |p| <= |s| && forall k | 0 <= k < |p| :: CharMatchesI(s[i + k], p[k])
  }

  /** A case-insensitive occurrence of `p` in `s`. */
  predicate ContainsI(s: string, p: string) {
    exists j | 0 <= j <= |s| :: MatchesAtI(s, j, p)
  }

  /** The alternatives of the default MIME pattern (compression.js:3). */
  const MimeText: string := "text"
  const MimeJavascript: string := "javascript"
  const MimeJson: string := "/json"
  const MimeXml: string := "xml"

  /** The content type assumed when none is set (compression.js:50). */
  const DefaultContentType: string := "text/plain"

  /** `/text|javascript|\/json|xml/iu.test(s)` (compression.js:3). */
  predicate MimeMatches(s: string) {
    ContainsI(s, MimeText) || ContainsI(s, MimeJavascript) || ContainsI(s, MimeJson) || ContainsI(s, MimeXml)
  }

  /** compression.js:50: the content type, `text/plain` when unset or falsy, is compressible. */
  predicate Compressible(contentType: Option<HeaderValue>) {
    MimeMatches(if Truthy(contentType) then HeaderText(contentType.value) else DefaultContentType)
  }

  /** A missing or empty content type reads as `text/plain`, which is compressible. */
  lemma DefaultTypeIsCompressible()
    ensures Compressible(None) && Compressible(Some(HText(""))) && Compressible(Some(HNum(0)))
  {
    assert MatchesAtI(DefaultContentType, 0, MimeText);
  }

  /** The test ignores ASCII case, and under `/iu` the long s (U+017F) stands for `s`: a type
      holding one of the four alternatives, its letters in any such case, is compressible. */
  lemma MimeMatchIgnoresCase(s: string, j: nat, p: string)
    requires p == MimeText || p == MimeJavascript || p == MimeJson || p == MimeXml
    requires j + |p| <= |s|
    requires forall k | 0 <= k < |p| :: LowerAscii(s[j + k]) == p[k] || (p[k] == 's' && s[j + k] == '\U{017F}')
    ensures MimeMatches(s)
  {
    assert MatchesAtI(s, j, p);
  }

  /** compression.js:54: the decision taken once, at the first `write` or `end`. */
  predicate ShouldCompress(cfg: Config, headers: Headers, counted: int) {
    Compressible(Lookup(headers, ToLowerAscii(ContentType)))
    && !Truthy(Lookup(headers, ToLowerAscii(ContentEncoding)))
    && StartSize(Lookup(headers, ToLowerAscii(ContentLength)), counted) >= cfg.threshold
  }

  /** The headers as sent when compressing (compression.js:55-56). */
  function CompressedHeaders(headers: Headers, e: Encoding): Headers {
    headers[ToLowerAscii(ContentEncoding) := HText(Token(e))] - {ToLowerAscii(ContentLength)}
  }

  /** compression.js:80: `pendingStatus || res.statusCode`. */
  function HeadStatus(pendingStatus: Option<int>, statusCode: int): int {
    if pendingStatus.Some? && pendingStatus.value != 0 then pendingStatus.value else statusCode
  }

  function AttachAll(pending: seq<(string, Listener)>): (r: seq<Op>)
    ensures |r| == |pending| && AllAttach(r)
    ensures forall i | 0 <= i < |pending| :: r[i] == AttachOp(pending[i].0, pending[i].1)
  {
    if pending == [] then [] else [AttachOp(pending[0].0, pending[0].1)] + AttachAll(pending[1..])
  }

  function OnAll(pending: seq<(string, Listener)>): (r: seq<EncoderOp>)
    ensures |r| == |pending|
    ensures forall i | 0 <= i < |pending| :: r[i] == EncOn(pending[i].0, pending[i].1)
  {
    if pending == [] then [] else [EncOn(pending[0].0, pending[0].1)] + OnAll(pending[1..])
  }

  /** The encoder's first listeners: its output goes to the response and its end ends it
      (compression.js:71,73), then the queued `drain` listeners (compression.js:74). */
  function EncoderSetup(pending: seq<(string, Listener)>): seq<EncoderOp> {
    [EncOn("data", PipeToResponse), EncOn("end", EndResponse)] + OnAll(pending)
  }

  /** The interceptor of one response (compression.js:37-120). Its fields are the closure
      variables `compress`, `pendingStatus`, `pendingListeners`, `started` and `size`;
      `headAt` is the position of the one `writeHead` in the response log. */
  class Interceptor {
    const cfg: Config
    const encoding: Encoding
    const res: Response
    var compress: Encoder?
    var pendingStatus: Option<int>
    var pendingListeners: Option<seq<(string, Listener)>>
    var started: bool
    var size: int
    ghost var headAt: nat
    /** The `drain` listeners the response had before the interceptor was installed. */
    ghost const baseDrain: seq<Listener>
    /** Every `drain` listener registered through the intercepted `on`, in order. */
    ghost var userDrain: seq<Listener>

    /** Before the decision the response has seen only listener attachments and the queue
        holds only `drain` listeners. After it, the header went out exactly once, before any
        body operation; compressing keeps the queue (not nulled by the source), passing
        through has nulled it. The user's `drain` listeners are queued before the decision;
        after it they are on the encoder when compressing, where the response holds only the
        resuming listener, and on the response when passing through. */
    ghost predicate Valid()
      reads this, res, compress
    {
      && (pendingListeners.Some? ==> AllDrain(pendingListeners.value))
      && (!started ==> compress == null && pendingListeners.Some? && AllAttach(res.log))
      && (started ==> HeadOnceAt(res.log, headAt))
      && (started ==> (compress == null <==> pendingListeners.None?))
      && (compress != null ==> compress.kind == encoding)
      && (!started ==> DrainsOf(pendingListeners.value) == userDrain && res.drainListeners == baseDrain)
      && (started && compress == null ==> res.drainListeners == baseDrain + userDrain)
      && (compress != null ==> res.drainListeners == baseDrain + [ResumeEncoder] && compress.drainListeners == userDrain)
    }

    /** The closure set up for an accepted request (compression.js:37-45). */
    constructor (cfg: Config, encoding: Encoding, res: Response)
      requires AllAttach(res.log)
      ensures Valid()
      ensures this.cfg == cfg && this.encoding == encoding && this.res == res
      ensures compress == null && pendingStatus == None && pendingListeners == Some([])
      ensures !started && size == 0
      ensures baseDrain == res.drainListeners && userDrain == []
    {
      this.cfg := cfg;
      this.encoding := encoding;
      this.res := res;
      compress := null;
      pendingStatus := None;
      pendingListeners := Some([]);
      started := false;
      size := 0;
      headAt := 0;
      baseDrain := res.drainListeners;
      userDrain := [];
    }

    /** `start()` (compression.js:47-81). */
    method Start()
      requires Valid() && !started
      modifies this, res
      ensures Valid() && started
      ensures size == StartSize(old(res.GetHeader(ContentLength)), old(size))
      ensures pendingStatus == old(pendingStatus) && res.statusCode == old(res.statusCode)
      ensures userDrain == old(userDrain)
      ensures compress != null <==> ShouldCompress(cfg, old(res.headers), old(size))
      ensures compress != null ==>
        && fresh(compress) && compress.kind == encoding && compress.level == cfg.level
        && compress.sizeHint == (if encoding == Br then Some(size) else None)
        && !compress.paused && compress.log == EncoderSetup(old(pendingListeners).value)
        && pendingListeners == old(pendingListeners)
        && res.headers == CompressedHeaders(old(res.headers), encoding)
        && res.log == old(res.log) + [AttachOp("drain", ResumeEncoder), WriteHeadOp(HeadStatus(old(pendingStatus), old(res.statusCode)), res.headers)]
      ensures compress == null ==>
        && pendingListeners == None && res.headers == old(res.headers)
        && res.log == old(res.log) + AttachAll(old(pendingListeners).value) + [WriteHeadOp(HeadStatus(old(pendingStatus), old(res.statusCode)), res.headers)]
    {
      var contentLength := res.GetHeader(ContentLength);
      var newSize := StartSize(contentLength, size);
      var compressible := Compressible(res.GetHeader(ContentType));
      var cleartext := !Truthy(res.GetHeader(ContentEncoding));
      if compressible && cleartext && newSize >= cfg.threshold {
        StartCompressing(newSize);
      } else {
        StartPassingThrough(newSize);
      }
    }

    /** `start()` when compressing (compression.js:48-49, 55-74, 80). */
    method StartCompressing(newSize: int)
      requires Valid() && !started
      modifies this, res
      ensures Valid() && started && size == newSize
      ensures pendingStatus == old(pendingStatus) && res.statusCode == old(res.statusCode)
      ensures userDrain == old(userDrain) && pendingListeners == old(pendingListeners)
      ensures compress != null && fresh(compress) && compress.kind == encoding && compress.level == cfg.level
      ensures compress.sizeHint == (if encoding == Br then Some(newSize) else None)
      ensures !compress.paused && compress.log == EncoderSetup(old(pendingListeners).value)
      ensures res.headers == CompressedHeaders(old(res.headers), encoding)
      ensures res.log == old(res.log) + [AttachOp("drain", ResumeEncoder), WriteHeadOp(HeadStatus(old(pendingStatus), old(res.statusCode)), res.headers)]
    {
      started := true;
      size := newSize;
      compress := BeginCompression(res, encoding, cfg.level, if encoding == Br then Some(size) else None, pendingListeners.value);
      SendHead();
    }

    /** `start()` when passing through (compression.js:48-49, 76-77, 80). */
    method StartPassingThrough(newSize: int)
      requires Valid() && !started
      modifies this, res
      ensures Valid() && started && size == newSize && compress == null && pendingListeners == None
      ensures pendingStatus == old(pendingStatus) && res.statusCode == old(res.statusCode)
      ensures userDrain == old(userDrain) && res.headers == old(res.headers)
      ensures res.log == old(res.log) + AttachAll(old(pendingListeners).value) + [WriteHeadOp(HeadStatus(old(pendingStatus), old(res.statusCode)), res.headers)]
    {
      started := true;
      size := newSize;
      var listeners := pendingListeners.value;
      pendingListeners := None;
      PassThrough(res, listeners);
      SendHead();
    }

    /** compression.js:80: the one `writeHead`, after the listeners are in place. */
    method SendHead()
      requires started && compress != null ==> compress.kind == encoding
      requires pendingListeners.Some? ==> AllDrain(pendingListeners.value)
      requires compress == null <==> pendingListeners.None?
      requires AllAttach(res.log)
      requires compress == null ==> res.drainListeners == baseDrain + userDrain
      requires compress != null ==> res.drainListeners == baseDrain + [ResumeEncoder] && compress.drainListeners == userDrain
      requires started
      modifies this`headAt, res
      ensures Valid()
      ensures res.log == old(res.log) + [WriteHeadOp(HeadStatus(pendingStatus, res.statusCode), res.headers)]
      ensures res.headers == old(res.headers) && res.statusCode == old(res.statusCode)
    {
      headAt := |res.log|;
      var head := WriteHeadOp(HeadStatus(pendingStatus, res.statusCode), res.headers);
      HeadAfterAttaches(res.log, head);
      res.RawWriteHead(HeadStatus(pendingStatus, res.statusCode));
    }

    /** The intercepted `writeHead(status, reason, headers)` (compression.js:83-91): the
        headers are set on the response, the status is kept for later, nothing is sent.
        Once `start` has sent the header, the first `setHeader` throws
        ERR_HTTP_HEADERS_SENT (`thrown`), and nothing changes. */
    method WriteHead(status: Option<int>, reason: HeadArg, headers: HeadArg) returns (thrown: bool)
      requires Valid()
      modifies res, this
      ensures Valid()
      ensures thrown <==> started && HeaderEntries(HeadersArgument(reason, headers)) != []
      ensures pendingStatus == (if thrown then old(pendingStatus) else status)
      ensures res.headers == (if thrown then old(res.headers) else SetAll(old(res.headers), HeaderEntries(HeadersArgument(reason, headers))))
      ensures res.log == old(res.log) && res.statusCode == old(res.statusCode)
      ensures compress == old(compress) && pendingListeners == old(pendingListeners)
      ensures started == old(started) && size == old(size) && headAt == old(headAt)
      ensures userDrain == old(userDrain)
    {
      var entries := HeaderEntries(HeadersArgument(reason, headers));
      if started && entries != [] {
        return true;
      }
      res.SetHeaders(entries);
      pendingStatus := status;
      return false;
    }

    /** The intercepted `write(chunk)` (compression.js:94-100). */
    method Write(chunk: Chunk)
      requires Valid()
      modifies this, res, compress
      ensures Valid() && started
      ensures pendingStatus == old(pendingStatus) && res.statusCode == old(res.statusCode)
      ensures userDrain == old(userDrain)
      ensures old(started) ==>
        && size == old(size) + ChunkSize(chunk) && compress == old(compress)
        && pendingListeners == old(pendingListeners) && res.headers == old(res.headers)
      ensures old(started) && compress == null ==> res.log == old(res.log) + [WriteOp(chunk)]
      ensures old(started) && compress != null ==>
        res.log == old(res.log) && compress.log == old(compress.log) + [EncWrite(chunk)]
        && compress.paused == old(compress.paused)
      ensures !old(started) ==>
        && size == StartSize(old(res.GetHeader(ContentLength)), old(size) + ChunkSize(chunk))
        && (compress != null <==> ShouldCompress(cfg, old(res.headers), old(size) + ChunkSize(chunk)))
      ensures !old(started) && compress != null ==>
        && fresh(compress) && compress.kind == encoding && compress.level == cfg.level
        && compress.sizeHint == (if encoding == Br then Some(size) else None) && !compress.paused
        && compress.log == EncoderSetup(old(pendingListeners).value) + [EncWrite(chunk)]
        && res.headers == CompressedHeaders(old(res.headers), encoding)
        && res.log == old(res.log) + [AttachOp("drain", ResumeEncoder), WriteHeadOp(HeadStatus(old(pendingStatus), old(res.statusCode)), res.headers)]
      ensures !old(started) && compress == null ==>
        && res.headers == old(res.headers)
        && res.log == old(res.log) + AttachAll(old(pendingListeners).value)
                      + [WriteHeadOp(HeadStatus(old(pendingStatus), old(res.statusCode)), res.headers), WriteOp(chunk)]
    {
      size := size + ChunkSize(chunk);
      if !started {
        StartAndForward(WriteOp(chunk), EncWrite(chunk));
      } else {
        Forward(WriteOp(chunk), EncWrite(chunk));
      }
    }

    /** The intercepted `end(...)` (compression.js:103-112). */
    method End(arg: EndArg)
      requires Valid()
      modifies this, res, compress
      ensures Valid() && started
      ensures pendingStatus == old(pendingStatus) && res.statusCode == old(res.statusCode)
      ensures userDrain == old(userDrain)
      ensures old(started) ==>
        && size == old(size) + EndSize(arg) && compress == old(compress)
        && pendingListeners == old(pendingListeners) && res.headers == old(res.headers)
      ensures old(started) && compress == null ==> res.log == old(res.log) + [EndOp(arg)]
      ensures old(started) && compress != null ==>
        res.log == old(res.log) && compress.log == old(compress.log) + [EncEnd(arg)]
        && compress.paused == old(compress.paused)
      ensures !old(started) ==>
        && size == StartSize(old(res.GetHeader(ContentLength)), old(size) + EndSize(arg))
        && (compress != null <==> ShouldCompress(cfg, old(res.headers), old(size) + EndSize(arg)))
      ensures !old(started) && compress != null ==>
        && fresh(compress) && compress.kind == encoding && compress.level == cfg.level
        && compress.sizeHint == (if encoding == Br then Some(size) else None) && !compress.paused
        && compress.log == EncoderSetup(old(pendingListeners).value) + [EncEnd(arg)]
        && res.headers == CompressedHeaders(old(res.headers), encoding)
        && res.log == old(res.log) + [AttachOp("drain", ResumeEncoder), WriteHeadOp(HeadStatus(old(pendingStatus), old(res.statusCode)), res.headers)]
      ensures !old(started) && compress == null ==>
        && res.headers == old(res.headers)
        && res.log == old(res.log) + AttachAll(old(pendingListeners).value)
                      + [WriteHeadOp(HeadStatus(old(pendingStatus), old(res.statusCode)), res.headers), EndOp(arg)]
    {
      size := size + EndSize(arg);
      if !started {
        StartAndForward(EndOp(arg), EncEnd(arg));
      } else {
        Forward(EndOp(arg), EncEnd(arg));
      }
    }

    /** The first `write` or `end`: `start()`, then the call goes on as after the decision
        (compression.js:95-99, 107-111). */
    method StartAndForward(op: Op, encOp: EncoderOp)
      requires Valid() && !started
      requires (op.WriteOp? && encOp == EncWrite(op.chunk)) || (op.EndOp? && encOp == EncEnd(op.arg))
      modifies this, res
      ensures Valid() && started
      ensures pendingStatus == old(pendingStatus) && res.statusCode == old(res.statusCode)
      ensures userDrain == old(userDrain)
      ensures size == StartSize(old(res.GetHeader(ContentLength)), old(size))
      ensures compress != null <==> ShouldCompress(cfg, old(res.headers), old(size))
      ensures compress != null ==>
        && fresh(compress) && compress.kind == encoding && compress.level == cfg.level
        && compress.sizeHint == (if encoding == Br then Some(size) else None) && !compress.paused
        && compress.log == EncoderSetup(old(pendingListeners).value) + [encOp]
        && res.headers == CompressedHeaders(old(res.headers), encoding)
        && res.log == old(res.log) + [AttachOp("drain", ResumeEncoder), WriteHeadOp(HeadStatus(old(pendingStatus), old(res.statusCode)), res.headers)]
      ensures compress == null ==>
        && res.headers == old(res.headers)
        && res.log == old(res.log) + AttachAll(old(pendingListeners).value)
                      + [WriteHeadOp(HeadStatus(old(pendingStatus), old(res.statusCode)), res.headers), op]
    {
      Start();
      Forward(op, encOp);
    }

    /** A `write` or `end` once the decision is made: to the encoder when compressing
        (compression.js:99, 111), to the original method otherwise (compression.js:97, 109). */
    method Forward(op: Op, encOp: EncoderOp)
      requires Valid() && started
      requires (op.WriteOp? && encOp == EncWrite(op.chunk)) || (op.EndOp? && encOp == EncEnd(op.arg))
      modifies res, compress
      ensures Valid() && res.headers == old(res.headers) && res.statusCode == old(res.statusCode)
      ensures compress == null ==> res.log == old(res.log) + [op]
      ensures compress != null ==>
        res.log == old(res.log) && compress.log == old(compress.log) + [encOp]
        && compress.paused == old(compress.paused)
    {
      if compress == null {
        AppendKeepsHead(res.log, headAt, op);
        if op.WriteOp? {
          res.RawWrite(op.chunk);
        } else {
          res.RawEnd(op.arg);
        }
      } else {
        if op.WriteOp? {
          compress.Write(op.chunk);
        } else {
          compress.End(op.arg);
        }
      }
    }

    /** The intercepted `on(type, listener)` (compression.js:114-120). */
    method On(event: string, id: int)
      requires Valid()
      modifies this, res, compress
      ensures Valid()
      ensures started == old(started) && size == old(size) && compress == old(compress)
      ensures pendingStatus == old(pendingStatus) && res.headers == old(res.headers)
      ensures userDrain == old(userDrain) + (if event == "drain" then [UserListener(id)] else [])
      ensures old(pendingListeners).None? || event != "drain" ==>
        res.log == old(res.log) + [AttachOp(event, UserListener(id))] && pendingListeners == old(pendingListeners)
      ensures old(pendingListeners).Some? && event == "drain" && compress != null ==>
        res.log == old(res.log) && compress.log == old(compress.log) + [EncOn(event, UserListener(id))]
        && pendingListeners == old(pendingListeners)
      ensures old(pendingListeners).Some? && event == "drain" && compress == null ==>
        res.log == old(res.log) && pendingListeners == Some(old(pendingListeners).value + [(event, UserListener(id))])
      ensures compress != null ==> compress.paused == old(compress.paused)
    {
      userDrain := userDrain + (if event == "drain" then [UserListener(id)] else []);
      if pendingListeners.None? || event != "drain" {
        if started {
          AppendKeepsHead(res.log, headAt, AttachOp(event, UserListener(id)));
        }
        res.RawOn(event, UserListener(id));
      } else if compress != null {
        compress.On(event, UserListener(id));
      } else {
        DrainsOfPush(pendingListeners.value, (event, UserListener(id)));
        pendingListeners := Some(pendingListeners.value + [(event, UserListener(id))]);
      }
    }

    /** The encoder emitted `data` (compression.js:71): the chunk goes to the response, and
        `accepted` is what the response's `write` returned; `false` pauses the encoder. */
    method OnEncoderData(chunk: Chunk, accepted: bool)
      requires Valid() && compress != null
      modifies res, compress
      ensures Valid()
      ensures res.log == old(res.log) + [WriteOp(chunk)] && res.headers == old(res.headers)
      ensures compress.paused == (old(compress.paused) || !accepted) && compress.log == old(compress.log)
    {
      AppendKeepsHead(res.log, headAt, WriteOp(chunk));
      res.RawWrite(chunk);
      if !accepted {
        compress.Pause();
      }
    }

    /** The response emitted `drain`: its `drain` listeners run in the order attached. While
        compressing that is only the one installed at compression.js:72, which resumes the
        encoder; otherwise it is the user's listeners, queued ones first, then later ones. */
    method OnResponseDrain() returns (invoked: seq<Listener>)
      requires Valid()
      modifies compress
      ensures Valid()
      ensures !started ==> invoked == baseDrain
      ensures started && compress == null ==> invoked == baseDrain + userDrain
      ensures compress != null ==> invoked == baseDrain + [ResumeEncoder]
      ensures compress != null ==> !compress.paused && compress.log == old(compress.log)
    {
      invoked := res.drainListeners;
      if compress != null {
        compress.Resume();
      }
    }

    /** The encoder emitted `drain`: every `drain` listener the user registered runs on it,
        in registration order, those queued before the decision first (compression.js:74)
        and those added later after them (compression.js:116). */
    method OnEncoderDrain() returns (invoked: seq<Listener>)
      requires Valid() && compress != null
      ensures invoked == userDrain
    {
      invoked := compress.drainListeners;
    }

    /** The encoder emitted `end` (compression.js:73): the response is ended. */
    method OnEncoderEnd()
      requires Valid() && compress != null
      modifies res
      ensures Valid()
      ensures res.log == old(res.log) + [EndOp(NoArgs)] && res.headers == old(res.headers)
    {
      AppendKeepsHead(res.log, headAt, EndOp(NoArgs));
      res.RawEnd(NoArgs);
    }
  }

  /** The compressing branch of `start()` (compression.js:55-74): the headers are rewritten,
      the encoder is created with its listeners, and the response gets the `drain` listener
      that resumes it. */
  method BeginCompression(res: Response, encoding: Encoding, level: int, sizeHint: Option<int>, listeners: seq<(string, Listener)>)
    returns (enc: Encoder)
    requires AllAttach(res.log)
    modifies res
    ensures fresh(enc) && enc.kind == encoding && enc.level == level && enc.sizeHint == sizeHint
    ensures !enc.paused && enc.log == EncoderSetup(listeners)
    ensures res.headers == CompressedHeaders(old(res.headers), encoding) && res.statusCode == old(res.statusCode)
    ensures res.log == old(res.log) + [AttachOp("drain", ResumeEncoder)] && AllAttach(res.log)
    ensures res.drainListeners == old(res.drainListeners) + [ResumeEncoder]
    ensures enc.drainListeners == DrainsOf(listeners)
  {
    res.SetHeader(ContentEncoding, HText(Token(encoding)));
    res.RemoveHeader(ContentLength);
    assert res.headers == CompressedHeaders(old(res.headers), encoding);
    enc := NewEncoder(encoding, level, sizeHint, listeners);
    res.RawOn("drain", ResumeEncoder);
    AllAttachAppend(old(res.log), [AttachOp("drain", ResumeEncoder)]);
  }

  /** The passing-through branch of `start()` (compression.js:76-77): the queued listeners
      are attached to the response, in order. */
  method PassThrough(res: Response, listeners: seq<(string, Listener)>)
    requires AllAttach(res.log) && AllDrain(listeners)
    modifies res
    ensures res.headers == old(res.headers) && res.statusCode == old(res.statusCode)
    ensures res.log == old(res.log) + AttachAll(listeners) && AllAttach(res.log)
    ensures res.drainListeners == old(res.drainListeners) + DrainsOf(listeners)
  {
    res.RawOnEach(listeners);
    AllAttachAppend(old(res.log), AttachAll(listeners));
  }

  /** The stream of compression.js:59-67 with its listeners of compression.js:71-74: the
      Brotli stream gets the quality and the size hint, the Gzip stream the level. */
  method NewEncoder(kind: Encoding, level: int, sizeHint: Option<int>, pending: seq<(string, Listener)>)
    returns (enc: Encoder)
    ensures fresh(enc) && enc.kind == kind && enc.level == level && enc.sizeHint == sizeHint
    ensures !enc.paused && enc.log == EncoderSetup(pending) && enc.drainListeners == DrainsOf(pending)
  {
    enc := new Encoder(kind, level, sizeHint);
    enc.On("data", PipeToResponse);
    enc.On("end", EndResponse);
    enc.OnEach(pending);
  }

  predicate AllDrain(pending: seq<(string, Listener)>) {
    forall i | 0 <= i < |pending| :: pending[i].0 == "drain"
  }

  /** Only listener attachments. */
  predicate AllAttach(log: seq<Op>) {
    forall i | 0 <= i < |log| :: log[i].AttachOp?
  }

  /** The one `writeHead` of the log is at `k`, and only attachments precede it. */
  predicate HeadOnceAt(log: seq<Op>, k: nat) {
    && k < |log| && log[k].WriteHeadOp?
    && (forall i | 0 <= i < |log| && i != k :: !log[i].WriteHeadOp?)
    && AllAttach(log[..k])
  }

  lemma AllAttachAppend(a: seq<Op>, b: seq<Op>)
    requires AllAttach(a) && AllAttach(b)
    ensures AllAttach(a + b)
  {
  }

  lemma HeadAfterAttaches(pre: seq<Op>, h: Op)
    requires AllAttach(pre) && h.WriteHeadOp?
    ensures HeadOnceAt(pre + [h], |pre|)
  {
    assert (pre + [h])[..|pre|] == pre;
  }

  lemma AppendKeepsHead(log: seq<Op>, k: nat, op: Op)
    requires HeadOnceAt(log, k) && !op.WriteHeadOp?
    ensures HeadOnceAt(log + [op], k)
  {
    assert (log + [op])[..k] == log[..k];
  }

  lemma AttachAllAppend(p: seq<(string, Listener)>, x: (string, Listener))
    ensures AttachAll(p + [x]) == AttachAll(p) + [AttachOp(x.0, x.1)]
  {
  }

  lemma OnAllAppend(p: seq<(string, Listener)>, x: (string, Listener))
    ensures OnAll(p + [x]) == OnAll(p) + [EncOn(x.0, x.1)]
  {
  }

  /** The `drain` listeners of a queue of registrations, in order. */
  function DrainsOf(p: seq<(string, Listener)>): seq<Listener> {
    if p == [] then []
    else DrainsOf(p[..|p| - 1]) + (if p[|p| - 1].0 == "drain" then [p[|p| - 1].1] else [])
  }

  lemma DrainsOfPush(p: seq<(string, Listener)>, x: (string, Listener))
    ensures DrainsOf(p + [x]) == DrainsOf(p) + (if x.0 == "drain" then [x.1] else [])
  {
    assert (p + [x])[..|p|] == p;
  }

  /** One more registration of a queue, for the loops over it. */
  lemma QueueStep(p: seq<(string, Listener)>, k: nat)
    requires k < |p|
    ensures AttachAll(p[..k + 1]) == AttachAll(p[..k]) + [AttachOp(p[k].0, p[k].1)]
    ensures OnAll(p[..k + 1]) == OnAll(p[..k]) + [EncOn(p[k].0, p[k].1)]
    ensures DrainsOf(p[..k + 1]) == DrainsOf(p[..k]) + (if p[k].0 == "drain" then [p[k].1] else [])
  {
    assert p[..k + 1] == p[..k] + [p[k]];
    AttachAllAppend(p[..k], p[k]);
    OnAllAppend(p[..k], p[k]);
    DrainsOfPush(p[..k], p[k]);
  }

  /** The size an `end` call adds: only a first argument that is not a function counts. */
  function EndSize(arg: EndArg): nat {
    match arg
    case WithChunk(c) => ChunkSize(c)
    case _ => 0
  }

  /** An argument of `writeHead` after the status: absent (`undefined`), a string, an object
      with its own enumerable entries in enumeration order, or another value (a number,
      `null`, a boolean), over which `for...in` enumerates nothing. */
  datatype HeadArg = Absent | ReasonText(s: string) | HeaderObject(entries: seq<(string, HeaderValue)>) | OtherValue

  /** compression.js:85: when `reason` is not a string the two arguments swap. */
  function HeadersArgument(reason: HeadArg, headers: HeadArg): HeadArg {
    if reason.ReasonText? then headers else reason
  }

  /** compression.js:87: `for (const i in headers)` when `headers` is truthy; over a string,
      the keys are the indices and the values the characters. */
  function HeaderEntries(h: HeadArg): (r: seq<(string, HeaderValue)>)
    ensures h.ReasonText? ==> |r| == |h.s| && forall i | 0 <= i < |h.s| :: r[i] == (NatToString(i), HText([h.s[i]]))
  {
    match h
    case HeaderObject(entries) => entries
    case ReasonText(s) => seq(|s|, i requires 0 <= i < |s| => (NatToString(i), HText([s[i]])))
    case _ => []
  }

  /** `setHeader` of each entry in order. */
  function SetAll(headers: Headers, entries: seq<(string, HeaderValue)>): Headers {
    if entries == [] then headers
    else SetAll(headers, entries[..|entries| - 1])[ToLowerAscii(entries[|entries| - 1].0) := entries[|entries| - 1].1]
  }

  lemma SetAllAppend(headers: Headers, p: seq<(string, HeaderValue)>, x: (string, HeaderValue))
    ensures SetAll(headers, p + [x]) == SetAll(headers, p)[ToLowerAscii(x.0) := x.1]
  {
    assert (p + [x])[..|p + [x]| - 1] == p;
  }

  /** After all entries are set, a header that no entry names (in any letter case) keeps its
      value or its absence. */
  lemma {:induction false} SetAllUntouched(headers: Headers, entries: seq<(string, HeaderValue)>, key: string)
    requires forall i | 0 <= i < |entries| :: ToLowerAscii(entries[i].0) != key
    ensures Lookup(SetAll(headers, entries), key) == Lookup(headers, key)
  {
    if entries != [] {
      SetAllUntouched(headers, entries[..|entries| - 1], key);
    }
  }

  /** A header named by some entry holds the value of the last entry naming it. */
  lemma {:induction false} SetAllLastWins(headers: Headers, entries: seq<(string, HeaderValue)>, j: nat, key: string)
    requires j < |entries| && ToLowerAscii(entries[j].0) == key
    requires forall i | j < i < |entries| :: ToLowerAscii(entries[i].0) != key
    ensures Lookup(SetAll(headers, entries), key) == Some(entries[j].1)
  {
    if j < |entries| - 1 {
      SetAllLastWins(headers, entries[..|entries| - 1], j, key);
    }
  }

  /** A word character of `\b` without the `i` flag: `[A-Za-z0-9_]`. */
  predicate IsWordChar(c: char) {
    ('a' <= c <= 'z') || ('A' <= c <= 'Z') || ('0' <= c <= '9') || c == '_'
  }

  /** `\bw\b` matches at index `i` (for a word `w` of word characters). */
  predicate WordAt(s: string, i: nat, w: string) {
    MatchesAt(s, i, w)
    && (i == 0 || !IsWordChar(s[i - 1]))
    && (i + |w| == |s| || !IsWordChar(s[i + |w|]))
  }

  predicate HasWord(s: string, w: string) {
    exists i | 0 <= i <= |s| :: WordAt(s, i, w)
  }

  /** The regular-expression search, from index `i` on. */
  function FindWord(s: string, w: string, i: nat): (r: bool)
    requires i <= |s|
    ensures r <==> exists j | i <= j <= |s| :: WordAt(s, j, w)
    decreases |s| - i
  {
    if WordAt(s, i, w) then true
    else if i == |s| then false
    else
      FindWord(s, w, i + 1)
  }

  /** compression.js:32: Brotli when enabled and the accept text names `br` as a word,
      otherwise Gzip when enabled and it names `gzip`, otherwise nothing. */
  function SelectEncoding(cfg: Config, accept: string): Option<Encoding> {
    if cfg.brotli && FindWord(accept, "br", 0) then Some(Br)
    else if cfg.gzip && FindWord(accept, "gzip", 0) then Some(Gzip)
    else None
  }

  lemma SelectEncodingIff(cfg: Config, accept: string)
    ensures SelectEncoding(cfg, accept) == Some(Br) <==> cfg.brotli && HasWord(accept, "br")
    ensures SelectEncoding(cfg, accept) == Some(Gzip)
        <==> !(cfg.brotli && HasWord(accept, "br")) && cfg.gzip && HasWord(accept, "gzip")
    ensures SelectEncoding(cfg, accept) == None
        <==> !(cfg.brotli && HasWord(accept, "br")) && !(cfg.gzip && HasWord(accept, "gzip"))
  {
  }

  /** A word cannot occur in a text that lacks one of its letters. */
  lemma NoWordWithoutLetter(s: string, w: string, k: nat)
    requires k < |w| && w[k] !in s
    ensures !HasWord(s, w)
  {
    forall i | 0 <= i <= |s| && WordAt(s, i, w)
      ensures false
    {
    }
  }

  /** compression.js:31 as written: a template literal whose text is the code itself. */
  const AcceptLiteral: string := "String(req.headers['accept-encoding'])"

  /** `String(req.headers['accept-encoding'])`, as the line evidently means it; an absent
      header reads as `undefined`. */
  function AcceptValue(header: Option<string>): string {
    match header
    case Some(v) => v
    case None => "undefined"
  }

  /** compression.js:35: HEAD requests and requests without an encoding are not wrapped. */
  function WrapDecision(cfg: Config, requestMethod: string, accept: string): (r: Option<Encoding>)
    ensures r.Some? ==> requestMethod != "HEAD" && r == SelectEncoding(cfg, accept)
    ensures r.None? ==> requestMethod == "HEAD" || SelectEncoding(cfg, accept).None?
  {
    if requestMethod == "HEAD" then None else SelectEncoding(cfg, accept)
  }

  /** The literal holds no `b`, so it never names `br`. */
  lemma AcceptLiteralNamesNoBrotli()
    ensures !HasWord(AcceptLiteral, "br")
  {
    assert 'b' !in AcceptLiteral;
    NoWordWithoutLetter(AcceptLiteral, "br", 0);
  }

  /** The literal holds no `z`, so it never names `gzip`. */
  lemma AcceptLiteralNamesNoGzip()
    ensures !HasWord(AcceptLiteral, "gzip")
  {
    assert 'z' !in AcceptLiteral;
    NoWordWithoutLetter(AcceptLiteral, "gzip", 1);
  }

  /** The handler as written wraps no response, whatever the options and the request. */
  lemma AsWrittenNeverWraps(cfg: Config, requestMethod: string)
    ensures WrapDecision(cfg, requestMethod, AcceptLiteral) == None
  {
    AcceptLiteralNamesNoBrotli();
    AcceptLiteralNamesNoGzip();
    SelectEncodingIff(cfg, AcceptLiteral);
  }

  /** A browser's `Accept-Encoding: gzip, deflate` on a GET with the default options: the
      reading the line intends selects Gzip, the line as written selects nothing. */
  lemma AcceptLiteralCounterexample()
    ensures WrapDecision(DefaultConfig, "GET", AcceptValue(Some("gzip, deflate"))) == Some(Gzip)
    ensures WrapDecision(DefaultConfig, "GET", AcceptLiteral) == None
  {
    var s := "gzip, deflate";
    assert s[0..4] == "gzip" && s[4] == ',';
    assert WordAt(s, 0, "gzip");
    AsWrittenNeverWraps(DefaultConfig, "GET");
  }

  /** The handler returned by `compression(cfg)` for a request method and the accept text the
      handler computed (compression.js:30-35,122): a request that is not HEAD and names an
      enabled encoding gets a fresh interceptor, any other keeps its response as it is (null);
      `next()` is called either way. */
  method Handle(cfg: Config, requestMethod: string, accept: string, res: Response)
    returns (wrapper: Interceptor?)
    requires AllAttach(res.log)
    ensures wrapper == null <==> WrapDecision(cfg, requestMethod, accept).None?
    ensures wrapper != null ==>
      && fresh(wrapper) && wrapper.Valid() && wrapper.res == res && wrapper.cfg == cfg
      && Some(wrapper.encoding) == WrapDecision(cfg, requestMethod, accept)
      && !wrapper.started && wrapper.size == 0 && wrapper.compress == null
      && wrapper.pendingListeners == Some([]) && wrapper.pendingStatus == None
      && wrapper.userDrain == []
  {
    var encoding := WrapDecision(cfg, requestMethod, accept);
    if encoding.None? {
      return null;
    }
    wrapper := new Interceptor(cfg, encoding.value, res);
  }

  /** The handler as written: it tests the literal text, so no response is ever wrapped. */
  method MiddlewareAsWritten(cfg: Config, requestMethod: string, res: Response)
    returns (wrapper: Interceptor?)
    requires AllAttach(res.log)
    ensures wrapper == null
  {
    AsWrittenNeverWraps(cfg, requestMethod);
    wrapper := Handle(cfg, requestMethod, AcceptLiteral, res);
  }

  /** The handler with the accept text read from the request's `Accept-Encoding` header. */
  method Middleware(cfg: Config, requestMethod: string, acceptHeader: Option<string>, res: Response)
    returns (wrapper: Interceptor?)
    requires AllAttach(res.log)
    ensures wrapper == null <==> WrapDecision(cfg, requestMethod, AcceptValue(acceptHeader)).None?
    ensures wrapper != null ==>
      && fresh(wrapper) && wrapper.Valid() && wrapper.encoding == WrapDecision(cfg, requestMethod, AcceptValue(acceptHeader)).value
  {
    wrapper := Handle(cfg, requestMethod, AcceptValue(acceptHeader), res);
  }
}
