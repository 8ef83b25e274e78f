/** Responses and the asset streamer `send_file_stream`: a resolved file is
    sent to the engine in chunks of at most 1024 bytes, followed by a
    zero-length chunk that ends the response. The engine's result for each
    send is an input (a script of results, see `Types.RcAt`). */
module Streamer {
  import opened Types
  import opened Text
  import opened Status
  import opened ContentType

  /** The size of the read buffer, and so of every full chunk. */
  const ChunkSize: nat := 1024

  datatype Header = Header(name: string, value: string)

  /** What the component hands the engine for one request: the status line
      (the engine sends "200 OK" unless told otherwise), the content type,
      the extra headers, the body transmissions in order, and whether the
      response was completed (a whole-body send, or the terminating
      zero-length chunk of a chunked one). */
  datatype Response = Response(
    status: string,
    ctype: string,
    headers: seq<Header>,
    body: seq<bytes>,
    finished: bool)

  /** `set_no_cache_headers`. */
  const NoCacheHeaders: seq<Header> := [
    Header("Cache-Control", "no-cache, no-store, must-revalidate"),
    Header("Pragma", "no-cache"),
    Header("Expires", "0"),
    Header("Vary", "Accept-Encoding")
  ]

  const GzipHeader: Header := Header("Content-Encoding", "gzip")

  /** The status the engine sends when none was set. */
  const DefaultStatus: string := "200 OK"

  /** `send_text`: a complete response with the table's status line, sent
      in one transmission after the given headers. */
  function SendText(headers: seq<Header>, code: int, ctype: string, body: bytes): Response
  {
    Response(StatusFor(code), ctype, headers, [body], true)
  }

  /** Joins transmissions back into the bytes they carry. */
  function Flatten(parts: seq<bytes>): bytes
  {
    if parts == [] then [] else parts[0] + Flatten(parts[1..])
  }

  /** The chunks `send_file_stream` reads from a file, one per full or
      final partial buffer. */
  function Chunks(data: bytes): seq<bytes>
    decreases |data|
  {
    if |data| == 0 then []
    else if |data| <= ChunkSize then [data]
    else [data[..ChunkSize]] + Chunks(data[ChunkSize..])
  }

  /** The chunks join back into the file; each holds 1 to `ChunkSize` bytes
      and all but the last are full. */
  lemma {:induction false} ChunksReassemble(data: bytes)
    ensures Flatten(Chunks(data)) == data
    ensures forall i :: 0 <= i < |Chunks(data)| ==> 1 <= |Chunks(data)[i]| <= ChunkSize
    ensures forall i :: 0 <= i < |Chunks(data)| - 1 ==> |Chunks(data)[i]| == ChunkSize
    decreases |data|
  {
    if |data| > ChunkSize {
      var rest := Chunks(data[ChunkSize..]);
      ChunksReassemble(data[ChunkSize..]);
      assert data == data[..ChunkSize] + data[ChunkSize..];
      assert Chunks(data) == [data[..ChunkSize]] + rest;
      assert forall i :: 1 <= i < |rest| + 1 ==> Chunks(data)[i] == rest[i - 1];
      assert Chunks(data)[1..] == rest;
    }
  }

  /** The next read at offset `off` returns the next chunk. */
  lemma ChunksFrom(data: bytes, off: nat, n: nat)
    requires off < |data| && n == if |data| - off < ChunkSize then |data| - off else ChunkSize
    ensures Chunks(data[off..]) == [data[off..off + n]] + Chunks(data[off + n..])
  {
    var d := data[off..];
    if |d| > ChunkSize {
      assert d[ChunkSize..] == data[off + ChunkSize..];
      assert d[..ChunkSize] == data[off..off + ChunkSize];
    } else {
      assert data[off..off + n] == d;
      assert data[off + n..] == [];
    }
  }

  /** The headers of a streamed file: the gzip encoding exactly when the
      compressed variant was chosen, then the no-cache set. */
  function StreamHeaders(isGz: bool): seq<Header>
  {
    (if isGz then [GzipHeader] else []) + NoCacheHeaders
  }

  const OpenFailedBody: string := "File open failed\n"

  /** The response and return code of `send_file_stream` for a file that
      could not be opened (`None`) or has the given contents: every chunk is
      sent until the engine rejects one, whose code is returned without a
      terminator; otherwise the terminator's code is returned. */
  function StreamOutcome(file: Option<bytes>, ctype: string, isGz: bool, rcs: seq<Err>): (Response, Err)
  {
    match file
    case None =>
      (SendText([], 500, PlainText, Ascii(OpenFailedBody)), RcAt(rcs, 0))
    case Some(data) =>
      var cs := Chunks(data);
      var k := FirstFailure(rcs, |cs|);
      if k < |cs| then
        (Response(DefaultStatus, ctype, StreamHeaders(isGz), cs[..k + 1], false), RcAt(rcs, k))
      else
        (Response(DefaultStatus, ctype, StreamHeaders(isGz), cs, true), RcAt(rcs, |cs|))
  }

  /** The read-and-send loop of `send_file_stream`: read up to `ChunkSize`
      bytes, send them if there are any, stop after a short read or a
      rejected send. Returns the chunks sent, the code and whether the
      terminating chunk was sent. */
  method SendChunks(data: bytes, rcs: seq<Err>) returns (sent: seq<bytes>, rc: Err, finished: bool)
    ensures var cs := Chunks(data);
            var k := FirstFailure(rcs, |cs|);
            && (k < |cs| ==> sent == cs[..k + 1] && !finished && rc == RcAt(rcs, k))
            && (k == |cs| ==> sent == cs && finished && rc == RcAt(rcs, |cs|))
  {
    var off := 0;
    sent := [];
    while true
      invariant 0 <= off <= |data|
      invariant sent + Chunks(data[off..]) == Chunks(data)
      invariant forall i :: 0 <= i < |sent| ==> RcAt(rcs, i) == Ok
      decreases |data| - off
    {
      var n := if |data| - off < ChunkSize then |data| - off else ChunkSize;
      if n > 0 {
        ChunksFrom(data, off, n);
        var chunk := data[off..off + n];
        assert (sent + [chunk]) + Chunks(data[off + n..]) == sent + ([chunk] + Chunks(data[off + n..]));
        sent := sent + [chunk];
        var r := RcAt(rcs, |sent| - 1);
        if r != Ok {
          assert sent == Chunks(data)[..|sent|];
          FirstFailureIs(rcs, |Chunks(data)|, |sent| - 1);
          return sent, r, false;
        }
      }
      off := off + n;
      if n < ChunkSize {
        break;
      }
    }
    assert data[off..] == [];
    assert sent == Chunks(data);
    FirstFailureIs(rcs, |sent|, |sent|);
    return sent, RcAt(rcs, |sent|), true;
  }

  /** `send_file_stream`: a file that cannot be opened gets a 500 text
      response; otherwise its chunks are streamed with its type and
      headers. */
  method SendFileStream(file: Option<bytes>, ctype: string, isGz: bool, rcs: seq<Err>)
    returns (resp: Response, rc: Err)
    ensures (resp, rc) == StreamOutcome(file, ctype, isGz, rcs)
  {
    if file.None? {
      return SendText([], 500, PlainText, Ascii(OpenFailedBody)), RcAt(rcs, 0);
    }
    var sent, r, finished := SendChunks(file.value, rcs);
    return Response(DefaultStatus, ctype, StreamHeaders(isGz), sent, finished), r;
  }

  /** When the engine accepts every chunk, the body carries exactly the file
      in chunks of 1 to `ChunkSize` bytes and the stream is terminated; the
      code is the terminator's. */
  lemma StreamDeliversFile(data: bytes, ctype: string, isGz: bool, rcs: seq<Err>)
    requires forall i :: 0 <= i < |Chunks(data)| ==> RcAt(rcs, i) == Ok
    ensures var (resp, rc) := StreamOutcome(Some(data), ctype, isGz, rcs);
            && resp.finished
            && Flatten(resp.body) == data
            && (forall i :: 0 <= i < |resp.body| ==> 1 <= |resp.body[i]| <= ChunkSize)
            && resp.ctype == ctype
            && rc == RcAt(rcs, |Chunks(data)|)
  {
    FirstFailureIs(rcs, |Chunks(data)|, |Chunks(data)|);
    ChunksReassemble(data);
  }

  /** A rejected chunk ends the stream: the chunks up to and including it
      were sent, no terminator follows, and its code is returned. */
  lemma StreamStopsAtRejectedChunk(data: bytes, ctype: string, isGz: bool, rcs: seq<Err>, k: nat)
    requires k < |Chunks(data)| && RcAt(rcs, k) != Ok
    requires forall i :: 0 <= i < k ==> RcAt(rcs, i) == Ok
    ensures var (resp, rc) := StreamOutcome(Some(data), ctype, isGz, rcs);
            && !resp.finished
            && resp.body == Chunks(data)[..k + 1]
            && rc == RcAt(rcs, k) && rc != Ok
  {
    FirstFailureIs(rcs, |Chunks(data)|, k);
  }

  /** A streamed file declares gzip encoding exactly when the compressed
      variant is sent, and always carries the no-cache headers. */
  lemma StreamHeadersMatchEncoding(data: bytes, ctype: string, isGz: bool, rcs: seq<Err>)
    ensures var resp := StreamOutcome(Some(data), ctype, isGz, rcs).0;
            && (GzipHeader in resp.headers <==> isGz)
            && resp.headers[|resp.headers| - |NoCacheHeaders|..] == NoCacheHeaders
  {
    var resp := StreamOutcome(Some(data), ctype, isGz, rcs).0;
    assert resp.headers == StreamHeaders(isGz);
    assert GzipHeader !in NoCacheHeaders;
  }

  /** A file that vanished between resolution and open is answered with a
      500 and a short text, not streamed. */
  lemma OpenFailureIsServerError(ctype: string, isGz: bool, rcs: seq<Err>)
    ensures var (resp, rc) := StreamOutcome(None, ctype, isGz, rcs);
            && resp.status == "500 Internal Server Error"
            && resp.ctype == PlainText
            && resp.body == [Ascii(OpenFailedBody)]
            && rc == RcAt(rcs, 0)
  {
  }

  /** An empty file sends no data chunk, only the terminator. */
  lemma EmptyFileSendsOnlyTerminator(ctype: string, isGz: bool, rcs: seq<Err>)
    ensures var (resp, rc) := StreamOutcome(Some([]), ctype, isGz, rcs);
            resp.body == [] && resp.finished && rc == RcAt(rcs, 0)
  {
  }
}
