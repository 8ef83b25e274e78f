/** The built-in request handlers: `try_serve_from_fs` and the two routes
    that fall back to an embedded asset, `handle_root` and
    `handle_favicon_ico`. The embedded page and icon are parameters
    (their compiled-in contents are not part of this model). */
module Handlers {
  import opened Types
  import opened Text
  import opened ContentType
  import opened Resolver
  import opened Streamer

  /** What a handler sees of the static-asset subsystem: whether it is
      enabled in the build, whether `ensure_fs_mounted` succeeds, the mount
      point, the full paths present when resolving, and the files that can
      be opened when streaming (a file may vanish in between). */
  datatype FsEnv = FsEnv(
    enabled: bool,
    mountOk: bool,
    base: string,
    atResolve: set<string>,
    atOpen: map<string, bytes>)

  /** Everything a handler sent, in order, and the code it returned. */
  datatype Reply = Reply(sent: seq<Response>, rc: Err)

  /** `try_serve_from_fs`: serve the request URI from the volume, returning
      the response it streamed (if any) and the code. */
  function TryServeFromFs(uri: string, fs: FsEnv, rcs: seq<Err>): (out: (Option<Response>, Err))
    ensures out.0.None? ==> out.1 in {NotSupported, HttpdInvalidReq, NotFound}
    ensures !fs.enabled ==> out == (None, NotSupported)
    ensures fs.enabled && uri == [] ==> out == (None, HttpdInvalidReq)
    ensures fs.enabled && uri != [] && !fs.mountOk ==> out == (None, NotSupported)
    ensures fs.enabled && uri != [] && fs.mountOk ==>
              (out.0.Some? <==> ResolveFsPath(Some(uri), fs.base, fs.atResolve).found)
    ensures fs.enabled && uri != [] && fs.mountOk && !ResolveFsPath(Some(uri), fs.base, fs.atResolve).found ==>
              out == (None, NotFound)
    ensures fs.enabled && uri != [] && fs.mountOk && ResolveFsPath(Some(uri), fs.base, fs.atResolve).found ==>
              var r := ResolveFsPath(Some(uri), fs.base, fs.atResolve);
              var file := if r.fullPath in fs.atOpen then Some(fs.atOpen[r.fullPath]) else None;
              out == (Some(StreamOutcome(file, r.ctype, r.isGz, rcs).0), StreamOutcome(file, r.ctype, r.isGz, rcs).1)
    ensures out.0.Some? ==> out.0.value.ctype == ResolveFsPath(Some(uri), fs.base, fs.atResolve).ctype
                            || out.0.value.status == "500 Internal Server Error"
  {
    if !fs.enabled then (None, NotSupported)
    else if uri == [] then (None, HttpdInvalidReq)
    else if !fs.mountOk then (None, NotSupported)
    else
      var r := ResolveFsPath(Some(uri), fs.base, fs.atResolve);
      if !r.found then (None, NotFound)
      else
        var file := if r.fullPath in fs.atOpen then Some(fs.atOpen[r.fullPath]) else None;
        var (resp, rc) := StreamOutcome(file, r.ctype, r.isGz, rcs);
        (Some(resp), rc)
  }

  /** What a built-in route does after trying the volume. */
  datatype Fallback = Served | Embedded | ServerError

  /** Success is final; "not found" and "not supported" fall back to the
      embedded asset; any other code is answered with a 500. */
  function FallbackFor(rc: Err): (f: Fallback)
    ensures f == Served <==> rc == Ok
    ensures f == Embedded <==> rc == NotFound || rc == NotSupported
    ensures f == ServerError <==> rc !in {Ok, NotFound, NotSupported}
  {
    if rc == Ok then Served
    else if rc != NotFound && rc != NotSupported then ServerError
    else Embedded
  }

  const InternalErrorBody: string := "Internal file server error\n"

  /** The 500 a built-in route sends when the volume failed. */
  function InternalError(): Response
  {
    SendText([], 500, PlainText, Ascii(InternalErrorBody))
  }

  /** `send_template` with the no-cache headers, as `handle_root` uses it. */
  function EmbeddedPage(page: bytes): Response
  {
    SendText(NoCacheHeaders, 200, Html, page)
  }

  /** The embedded icon as `handle_favicon_ico` sends it. */
  function EmbeddedIcon(icon: bytes): Response
  {
    Response(DefaultStatus, Icon, NoCacheHeaders, [icon], true)
  }

  /** What a built-in route sends after trying the volume: the volume's
      response if there was one, then what `FallbackFor` prescribes.
      `replyRc` is the engine's result for the fallback send. */
  function ReplyAfter(tried: (Option<Response>, Err), embedded: Response, replyRc: Err): Reply
  {
    var (resp, rc) := tried;
    var streamed := if resp.Some? then [resp.value] else [];
    match FallbackFor(rc)
    case Served => Reply(streamed, Ok)
    case ServerError => Reply(streamed + [InternalError()], replyRc)
    case Embedded => Reply(streamed + [embedded], replyRc)
  }

  /** A built-in route: try the volume, then act on `FallbackFor`. */
  function HandleBuiltin(uri: string, fs: FsEnv, rcs: seq<Err>, embedded: Response, replyRc: Err): Reply
  {
    ReplyAfter(TryServeFromFs(uri, fs, rcs), embedded, replyRc)
  }

  /** `handle_root`, registered for "/", "/index.html" and "/index.htm". */
  function HandleRoot(uri: string, fs: FsEnv, rcs: seq<Err>, page: bytes, replyRc: Err): Reply
  {
    HandleBuiltin(uri, fs, rcs, EmbeddedPage(page), replyRc)
  }

  /** `handle_favicon_ico`, registered for "/favicon.ico". */
  function HandleFavicon(uri: string, fs: FsEnv, rcs: seq<Err>, icon: bytes, replyRc: Err): Reply
  {
    HandleBuiltin(uri, fs, rcs, EmbeddedIcon(icon), replyRc)
  }

  /** With the static-asset subsystem disabled, the root route always sends
      the embedded page unchanged, with the HTML type and no-cache headers,
      and nothing else. */
  lemma RootWithoutVolumeServesEmbeddedPage(uri: string, fs: FsEnv, rcs: seq<Err>, page: bytes, replyRc: Err)
    requires !fs.enabled
    ensures var reply := HandleRoot(uri, fs, rcs, page, replyRc);
            && |reply.sent| == 1
            && reply.sent[0].body == [page]
            && reply.sent[0].status == "200 OK"
            && reply.sent[0].ctype == Html
            && reply.sent[0].headers == NoCacheHeaders
            && reply.rc == replyRc
  {
  }

  /** An asset missing from the volume is answered with the embedded
      fallback alone; nothing is streamed. */
  lemma MissingAssetFallsBack(uri: string, fs: FsEnv, rcs: seq<Err>, embedded: Response, replyRc: Err)
    requires fs.enabled && fs.mountOk && uri != []
    requires !ResolveFsPath(Some(uri), fs.base, fs.atResolve).found
    ensures HandleBuiltin(uri, fs, rcs, embedded, replyRc) == Reply([embedded], replyRc)
  {
  }

  /** A volume that fails to mount is treated like a disabled one. */
  lemma MountFailureFallsBack(uri: string, fs: FsEnv, rcs: seq<Err>, embedded: Response, replyRc: Err)
    requires fs.enabled && !fs.mountOk && uri != []
    ensures HandleBuiltin(uri, fs, rcs, embedded, replyRc) == Reply([embedded], replyRc)
  {
  }

  /** A reply whose first send is followed by what `FallbackFor(rc)`
      prescribes for that send's return code `rc`: nothing when it was
      accepted, the embedded asset when the engine refused it with "not
      found" or "not supported", and the handler's own 500 on any other
      refusal. */
  predicate ThenFallback(reply: Reply, rc: Err, embedded: Response, replyRc: Err)
  {
    && |reply.sent| >= 1
    && (rc == Ok ==> reply == Reply([reply.sent[0]], Ok))
    && (rc !in {Ok, NotFound, NotSupported} ==>
          reply == Reply([reply.sent[0], InternalError()], replyRc))
    && (rc in {NotFound, NotSupported} ==>
          reply == Reply([reply.sent[0], embedded], replyRc))
  }

  /** The reply after the streamer could not open the file: the streamer's
      500 with its own body, then the fallback for that send. */
  predicate OpenFailedReply(reply: Reply, rcs: seq<Err>, embedded: Response, replyRc: Err)
  {
    && ThenFallback(reply, RcAt(rcs, 0), embedded, replyRc)
    && reply.sent[0].status == "500 Internal Server Error"
    && reply.sent[0].body == [Ascii(OpenFailedBody)]
  }

  /** Whenever the volume produced a response, a built-in route sends that
      response first and then exactly what `FallbackFor` prescribes for
      the code that came with it. */
  lemma StreamedThenFallback(tried: (Option<Response>, Err), embedded: Response, replyRc: Err)
    requires tried.0.Some?
    ensures var reply := ReplyAfter(tried, embedded, replyRc);
            ThenFallback(reply, tried.1, embedded, replyRc) && reply.sent[0] == tried.0.value
  {
    var reply := ReplyAfter(tried, embedded, replyRc);
    match FallbackFor(tried.1)
    case Served => assert reply == Reply([tried.0.value], Ok);
    case ServerError => assert reply == Reply([tried.0.value, InternalError()], replyRc);
    case Embedded => assert reply == Reply([tried.0.value, embedded], replyRc);
  }

  /** A resolvable asset that is still present and accepted by the engine is
      streamed in full. The handler returns success when the terminating
      chunk was accepted; when the engine refused it with "not found" or
      "not supported", the embedded asset follows the stream; on any other
      refusal a 500 follows it. */
  lemma ResolvedAssetIsStreamed(uri: string, fs: FsEnv, rcs: seq<Err>, embedded: Response, replyRc: Err)
    requires fs.enabled && fs.mountOk && uri != []
    requires var r := ResolveFsPath(Some(uri), fs.base, fs.atResolve);
             && r.found && r.fullPath in fs.atOpen
             && forall i :: 0 <= i < |Chunks(fs.atOpen[r.fullPath])| ==> RcAt(rcs, i) == Ok
    ensures var r := ResolveFsPath(Some(uri), fs.base, fs.atResolve);
            var data := fs.atOpen[r.fullPath];
            var reply := HandleBuiltin(uri, fs, rcs, embedded, replyRc);
            && ThenFallback(reply, RcAt(rcs, |Chunks(data)|), embedded, replyRc)
            && Flatten(reply.sent[0].body) == data
            && reply.sent[0].ctype == r.ctype
            && reply.sent[0].finished
  {
    var r := ResolveFsPath(Some(uri), fs.base, fs.atResolve);
    var data := fs.atOpen[r.fullPath];
    StreamDeliversFile(data, r.ctype, r.isGz, rcs);
    var so := StreamOutcome(Some(data), r.ctype, r.isGz, rcs);
    assert TryServeFromFs(uri, fs, rcs) == (Some(so.0), so.1);
    StreamedThenFallback(TryServeFromFs(uri, fs, rcs), embedded, replyRc);
  }

  /** An asset that resolved but can no longer be opened is answered with
      the streamer's 500. The handler returns success when that send was
      accepted; when the engine refused it with "not found" or "not
      supported", the embedded asset follows it; on any other refusal the
      handler adds its own 500. */
  lemma VanishedAssetIsServerError(uri: string, fs: FsEnv, rcs: seq<Err>, embedded: Response, replyRc: Err)
    requires fs.enabled && fs.mountOk && uri != []
    requires var r := ResolveFsPath(Some(uri), fs.base, fs.atResolve);
             r.found && r.fullPath !in fs.atOpen
    ensures OpenFailedReply(HandleBuiltin(uri, fs, rcs, embedded, replyRc), rcs, embedded, replyRc)
  {
    var r := ResolveFsPath(Some(uri), fs.base, fs.atResolve);
    OpenFailureIsServerError(r.ctype, r.isGz, rcs);
    var so := StreamOutcome(None, r.ctype, r.isGz, rcs);
    assert TryServeFromFs(uri, fs, rcs) == (Some(so.0), so.1);
    StreamedThenFallback(TryServeFromFs(uri, fs, rcs), embedded, replyRc);
  }

  /** An empty request URI is an invalid request, which the built-in routes
      answer with a 500. */
  lemma EmptyUriIsServerError(fs: FsEnv, rcs: seq<Err>, embedded: Response, replyRc: Err)
    requires fs.enabled
    ensures HandleBuiltin([], fs, rcs, embedded, replyRc) == Reply([InternalError()], replyRc)
  {
  }
}
