/** The response writers: the compressing writer over the logging writer over the connection. */
module ResponseWriter {
  import opened Wrappers
  import opened Metrics
  import opened Http
  import opened Seqs

  /**
   compress/gzip, kept abstract: all bytes emitted after some writes, and after closing. How much is
   held back until later is up to the compressor.
   */
  datatype Gzip = Gzip(
    out: seq<seq<byte>> -> seq<byte>, closed: seq<seq<byte>> -> seq<byte>, gunzip: seq<byte> -> Option<seq<byte>>)
  {
    ghost predicate Lawful() {
      && out([]) == []
      && (forall ws: seq<seq<byte>>, p: seq<byte> :: out(ws) <= out(ws + [p]))
      && (forall ws: seq<seq<byte>> :: out(ws) <= closed(ws))
      && (forall ws: seq<seq<byte>> :: gunzip(closed(ws)) == Some(Flatten(ws)))
    }
  }

  predicate IsCompressible(ct: string) {
    var t := Trim(Lower(ct));
    "application/json" <= t || "text/html" <= t
  }

  predicate ShouldCompress(h: Headers) {
    var ce := Trim(Lower(Get(h, CONTENT_ENCODING)));
    && (ce == "" || ce == "identity")
    && Get(h, CONTENT_RANGE) == ""
    && IsCompressible(Get(h, CONTENT_TYPE))
  }

  function Compressed(h: Headers): Headers {
    Del(Add(Set(h, CONTENT_ENCODING, "gzip"), VARY, "Accept-Encoding"), CONTENT_LENGTH)
  }

  /** net/http sends such a status at once, and the response's own header still has to follow. */
  predicate Informational(code: nat) {
    100 <= code < 200 && code != 101
  }

  /** A response with such a status has no body; writes to it fail. */
  predicate Bodiless(code: nat) {
    code == 101 || code == 204 || code == 304
  }

  /** Any other code makes net/http panic. */
  predicate IsStatus(code: nat) {
    100 <= code <= 999
  }

  /** net/http's own writer over a connection that takes at most `room` bytes of body, if that is bounded. */
  class Wire {
    var header: Headers
    var interim: seq<nat>
    var sent: Option<(nat, Headers)>
    var headerCalls: nat
    var body: seq<byte>
    const room: Option<nat>

    constructor (header: Headers, room: Option<nat>)
      ensures this.header == header && this.room == room
      ensures interim == [] && sent == None && headerCalls == 0 && body == []
    {
      this.header, this.room := header, room;
      interim, sent, headerCalls, body := [], None, 0, [];
    }

    method WriteHeader(code: nat)
      requires IsStatus(code)
      modifies this
      ensures headerCalls == old(headerCalls) + 1 && body == old(body) && header == old(header)
      ensures interim == old(interim) + if old(sent).None? && Informational(code) then [code] else []
      ensures sent == if old(sent).None? && !Informational(code) then Some((code, header)) else old(sent)
    {
      headerCalls := headerCalls + 1;
      if sent.Some? {
        return;
      }
      if Informational(code) {
        interim := interim + [code];
      } else {
        sent := Some((code, header));
      }
    }

    method Write(p: seq<byte>) returns (n: nat)
      requires Fits(room, body)
      modifies this`body, this`sent
      ensures sent == if old(sent).None? then Some((200, header)) else old(sent)
      ensures body == (if Bodiless(sent.value.0) then old(body) else Cap(room, old(body) + p)) &&
          n == |body| - |old(body)|
    {
      if sent.None? {
        sent := Some((200, header));
      }
      if Bodiless(sent.value.0) {
        return 0;
      }
      n := if room.None? || |body| + |p| <= room.value then |p| else room.value - |body|;
      body := body + p[..n];
      assert body == Cap(room, old(body) + p);
    }

    /** The handler has returned. */
    method Finish()
      modifies this`sent
      ensures sent == if old(sent).None? then Some((200, header)) else old(sent)
    {
      if sent.None? {
        sent := Some((200, header));
      }
    }
  }

  predicate Fits(room: Option<nat>, body: seq<byte>) {
    room.None? || |body| <= room.value
  }

  /** What of an intended body gets through. */
  function Cap(room: Option<nat>, body: seq<byte>): seq<byte> {
    if Fits(room, body) then body else body[..room.value]
  }

  lemma CapAppend(room: Option<nat>, a: seq<byte>, b: seq<byte>)
    ensures Cap(room, Cap(room, a) + b) == Cap(room, a + b)
    ensures Fits(room, Cap(room, a))
  {
  }

  class LoggingWriter {
    const inner: Wire
    var status: nat
    var bytes: nat
    var wroteHeader: bool

    constructor (inner: Wire)
      ensures this.inner == inner && status == 200 && bytes == 0 && !wroteHeader
    {
      this.inner := inner;
      status, bytes, wroteHeader := 200, 0, false;
    }

    /** What is logged is what reached the wire, except that after an informational status a 200 follows unlogged. */
    ghost predicate Valid()
      reads this, inner
    {
      && inner.headerCalls == (if wroteHeader then 1 else 0)
      && (wroteHeader ==> IsStatus(status))
      && (!wroteHeader ==> status == 200 && inner.body == [])
      && inner.interim == (if wroteHeader && Informational(status) then [status] else [])
      && (inner.sent.Some? ==> wroteHeader && inner.sent.value.0 == WireStatus(status))
      && (wroteHeader && !Informational(status) ==> inner.sent.Some?)
      && bytes == |inner.body|
      && Fits(inner.room, inner.body)
    }

    method WriteHeader(code: nat)
      requires Valid() && IsStatus(code)
      modifies this, inner
      ensures Valid() && wroteHeader
      ensures status == if old(wroteHeader) then old(status) else code
      ensures inner.body == old(inner.body) && inner.header == old(inner.header)
      ensures inner.sent == if old(wroteHeader) || Informational(code) then old(inner.sent) else Some((code,
          inner.header))
    {
      if wroteHeader {
        return;
      }
      status := code;
      wroteHeader := true;
      inner.WriteHeader(code);
    }

    method Write(p: seq<byte>) returns (n: nat)
      requires Valid()
      modifies this, inner
      ensures Valid() && wroteHeader && inner.sent.Some? && inner.header == old(inner.header)
      ensures status == if old(wroteHeader) then old(status) else 200
      ensures n == |inner.body| - |old(inner.body)|
      ensures inner.body == if Bodiless(status) then old(inner.body) else Cap(inner.room, old(inner.body) + p)
      ensures inner.sent == if old(inner.sent).None? then Some((200, inner.header)) else old(inner.sent)
    {
      if !wroteHeader {
        WriteHeader(200);
      }
      CapAppend(inner.room, inner.body + p, []);
      assert inner.body + p + [] == inner.body + p;
      n := inner.Write(p);
      bytes := bytes + n;
    }
  }

  /** The status of the response after `code` was asked for. */
  function WireStatus(code: nat): nat {
    if Informational(code) then 200 else code
  }

  datatype Call = WriteHeader(code: nat) | Write(p: seq<byte>)

  /** The bodies written by some calls. */
  function Writes(calls: seq<Call>): seq<seq<byte>> {
    if calls == [] then []
    else Writes(calls[..|calls| - 1]) + if calls[|calls| - 1].Write? then [calls[|calls| - 1].p] else []
  }

  /** The status a handler means: of its first call, if that sets one; 200 otherwise. */
  function Effective(calls: seq<Call>): nat
    requires calls != []
  {
    if calls[0].WriteHeader? && calls[0].code != 0 then calls[0].code else 200
  }

  function SentHeaders(h: Headers): Headers {
    if ShouldCompress(h) then Compressed(h) else h
  }

  /** The bytes handed to the logging writer after these writes and no Close. */
  function Handed(z: Gzip, h: Headers, ws: seq<seq<byte>>): seq<byte> {
    if ShouldCompress(h) then z.out(ws) else Flatten(ws)
  }

  /** What gets through of a body under a status. */
  function Through(status: nat, room: Option<nat>, body: seq<byte>): seq<byte> {
    if Bodiless(status) then [] else Cap(room, body)
  }

  class GzipWriter {
    const inner: LoggingWriter
    const z: Gzip
    var statusCode: nat
    var wroteHeader: bool
    var headerSent: bool
    /** The compressor's input so far, once compression is on. */
    var gz: Option<seq<seq<byte>>>

    constructor (inner: LoggingWriter, z: Gzip)
      ensures this.inner == inner && this.z == z
      ensures statusCode == 0 && !wroteHeader && !headerSent && gz == None
    {
      this.inner, this.z := inner, z;
      statusCode, wroteHeader, headerSent, gz := 0, false, false, None;
    }

    /** The state after `calls`, all made with the handler's headers `h`. */
    ghost predicate After(h: Headers, calls: seq<Call>)
      reads this, inner, inner.inner
    {
      if Writes(calls) != [] then Sending(h, Effective(calls), Writes(calls))
      else
        && inner.Valid() && !inner.wroteHeader && !headerSent
        && gz == None && inner.inner.header == h
        && wroteHeader == (calls != [])
        && (calls != [] ==> statusCode == Effective(calls))
    }

    /** The header has been sent with `status`, and `ws` handed on. */
    ghost predicate Sending(h: Headers, status: nat, ws: seq<seq<byte>>)
      reads this, inner, inner.inner
    {
      && headerSent && Passed(h, status, Handed(z, h, ws))
      && gz == (if ShouldCompress(h) then Some(ws) else None)
    }

    /** The logging writer has got `status` and all of `bytes`. */
    ghost predicate Passed(h: Headers, status: nat, bytes: seq<byte>)
      reads this, inner, inner.inner
    {
      var w := inner.inner;
      && inner.Valid() && inner.wroteHeader && inner.status == status
      && w.header == SentHeaders(h) && (w.sent.Some? ==> w.sent.value.1 == SentHeaders(h))
      && w.body == Through(status, w.room, bytes)
    }

    method WriteHeader(code: nat, ghost h: Headers, ghost calls: seq<Call>)
      requires After(h, calls)
      modifies this
      ensures After(h, calls + [Call.WriteHeader(code)])
    {
      WritesSnoc(calls, Call.WriteHeader(code));
      assert Writes(calls + [Call.WriteHeader(code)]) == Writes(calls);
      assert calls != [] ==> (calls + [Call.WriteHeader(code)])[0] == calls[0];
      assert Writes([]) == [];
      if wroteHeader {
        return;
      }
      wroteHeader := true;
      statusCode := if code == 0 then 200 else code;
    }

    method EnableCompression()
      modifies this`gz, inner.inner`header
      ensures gz == Some([]) && inner.inner.header == Compressed(old(inner.inner.header))
    {
      inner.inner.header := Set(inner.inner.header, CONTENT_ENCODING, "gzip");
      inner.inner.header := Add(inner.inner.header, VARY, "Accept-Encoding");
      inner.inner.header := Del(inner.inner.header, CONTENT_LENGTH);
      gz := Some([]);
    }

    /** Compression is turned on if it is off and the headers call for it now. */
    method Decide()
      modifies this`gz, inner.inner`header
      ensures old(gz).None? && ShouldCompress(old(inner.inner.header)) ==>
        gz == Some([]) && inner.inner.header == Compressed(old(inner.inner.header))
      ensures old(gz).Some? || !ShouldCompress(old(inner.inner.header)) ==>
        gz == old(gz) && inner.inner.header == old(inner.inner.header)
    {
      if gz.None? && ShouldCompress(inner.inner.header) {
        EnableCompression();
      }
    }

    /** What the first Write does before any byte: decide on compression, then send the header. */
    method Begin(ghost h: Headers, ghost calls: seq<Call>)
      requires z.Lawful() && After(h, calls) && (calls != [] ==> IsStatus(Effective(calls)))
      modifies this, inner, inner.inner
      ensures Sending(h, if calls == [] then 200 else Effective(calls), Writes(calls))
    {
      NeverTwice(h);
      ghost var ws := Writes(calls);
      assert ws == [] ==> Flatten(ws) == [] && z.out(ws) == [];
      assert calls == [] ==> ws == [];
      Decide();
      if !headerSent {
        if !wroteHeader {
          statusCode := 200;
        }
        inner.WriteHeader(statusCode);
        headerSent := true;
      }
    }

    method Write(p: seq<byte>, ghost h: Headers, ghost calls: seq<Call>)
      requires z.Lawful() && After(h, calls) && IsStatus(Effective(calls + [Call.Write(p)]))
      modifies this, inner, inner.inner
      ensures After(h, calls + [Call.Write(p)])
    {
      WritesSnoc(calls, Call.Write(p));
      assert (calls + [Call.Write(p)])[0] == if calls == [] then Call.Write(p) else calls[0];
      Begin(h, calls);
      Emit(p, h, Effective(calls + [Call.Write(p)]), Writes(calls));
    }

    /** Feeds the compressor, or passes the bytes on. */
    method Emit(p: seq<byte>, ghost h: Headers, ghost status: nat, ghost ws: seq<seq<byte>>)
      requires z.Lawful() && Sending(h, status, ws)
      modifies this, inner, inner.inner
      ensures Sending(h, status, ws + [p])
    {
      if gz.Some? {
        Feed(z.out(gz.value), z.out(gz.value + [p]), h, status);
        gz := Some(gz.value + [p]);
      } else {
        FlattenSnoc(ws, p);
        Pass(p, h, status, Flatten(ws));
      }
    }

    /** Hands one more piece to the logging writer. */
    method Pass(p: seq<byte>, ghost h: Headers, ghost status: nat, ghost before: seq<byte>)
      requires Passed(h, status, before)
      modifies inner, inner.inner
      ensures Passed(h, status, before + p)
    {
      CapAppend(inner.inner.room, before, p);
      var _ := inner.Write(p);
    }

    /** Passes on what the compressor emits when its total output grows from `before` to `after`. */
    method Feed(before: seq<byte>, after: seq<byte>, ghost h: Headers, ghost status: nat)
      requires before <= after && Passed(h, status, before)
      modifies inner, inner.inner
      ensures Passed(h, status, after)
    {
      var chunk := after[|before|..];
      assert before + chunk == after;
      if chunk != [] {
        Pass(chunk, h, status, before);
      }
    }

    method Close(ghost h: Headers, ghost calls: seq<Call>)
      requires z.Lawful() && After(h, calls) && (calls != [] ==> IsStatus(Effective(calls)))
      modifies this, inner, inner.inner
      ensures calls == [] ==> inner.Valid() && !inner.wroteHeader && inner.inner.header == h
      ensures calls != [] ==> Passed(h, Effective(calls), Intended(z, h, calls))
    {
      NeverTwice(h);
      CompressesExactlyWhen(h);
      ghost var ws := Writes(calls);
      assert ws == [] ==> Flatten(ws) == [] && z.out(ws) == [];
      if !headerSent && wroteHeader {
        Decide();
        inner.WriteHeader(statusCode);
        headerSent := true;
      }
      if gz.Some? {
        Feed(z.out(gz.value), z.closed(gz.value), h, Effective(calls));
      }
    }
  }

  /**
   The response is one the source compresses: neither encoded nor a range, and JSON or HTML. Texts are
   compared up to case and outer blanks.
   */
  ghost predicate Ordinary(h: Headers) {
    && (Blank(Get(h, "Content-Encoding")) || Says(Get(h, "Content-Encoding"), "identity"))
    && Get(h, "Content-Range") == ""
    && (Begins(Get(h, "Content-Type"), "application/json") || Begins(Get(h, "Content-Type"), "text/html"))
  }

  lemma CompressesExactlyWhen(h: Headers)
    ensures ShouldCompress(h) <==> Ordinary(h)
  {
    BlankIs(Get(h, CONTENT_ENCODING));
    SaysIs(Get(h, CONTENT_ENCODING), "identity");
    BeginsIs(Get(h, CONTENT_TYPE), "application/json");
    BeginsIs(Get(h, CONTENT_TYPE), "text/html");
  }

  /** `sent` is `h` with the labels a gzipped body needs. */
  predicate LabelledGzip(h: Headers, sent: Headers) {
    && "Content-Encoding" in sent && sent["Content-Encoding"] == ["gzip"]
    && "Content-Length" !in sent
    && "Vary" in sent && sent["Vary"] == (if "Vary" in h then h["Vary"] else []) + ["Accept-Encoding"]
    && sent.Keys == h.Keys - {"Content-Length"} + {"Content-Encoding", "Vary"}
    && forall name :: name in h && name !in {"Content-Encoding", "Content-Length", "Vary"} ==> sent[name] == h[name]
  }

  lemma CompressedIsLabelled(h: Headers)
    ensures LabelledGzip(h, Compressed(h))
  {
    assert |"Vary"| == 4 && |"Content-Encoding"| == 16 && |"Content-Length"| == 14;
  }

  /** The whole body a handler means: its writes, or their gzip. */
  ghost function Intended(z: Gzip, h: Headers, calls: seq<Call>): seq<byte> {
    if calls == [] then []
    else if Ordinary(h) then z.closed(Writes(calls)) else Flatten(Writes(calls))
  }

  /** The writes are the bodies of the Write calls, in order. */
  lemma {:induction false} WritesAre(a: seq<Call>, b: seq<Call>, p: seq<byte>, code: nat)
    ensures Writes(a + b) == Writes(a) + Writes(b)
    ensures Writes([Call.Write(p)]) == [p] && Writes([Call.WriteHeader(code)]) == []
  {
    var w, c := [Call.Write(p)], [Call.WriteHeader(code)];
    assert w[..0] == [] && c[..0] == [];
    if b == [] {
      assert a + b == a;
    } else {
      var n := |b| - 1;
      WritesAre(a, b[..n], p, code);
      assert a + b == (a + b[..n]) + [b[n]] && b == b[..n] + [b[n]];
      WritesSnoc(a + b[..n], b[n]);
      WritesSnoc(b[..n], b[n]);
    }
  }

  lemma WritesSnoc(calls: seq<Call>, c: Call)
    ensures Writes(calls + [c]) == Writes(calls) + if c.Write? then [c.p] else []
  {
  }

  /** Once compression is on, the headers say so and it is not started again. */
  lemma NeverTwice(h: Headers)
    ensures !ShouldCompress(Compressed(h))
  {
  }

  /**
   Response transparency. For any calls made with the headers unchanged from the first one, followed by
   Close, the logging and the real writer get one header, with the status of the handler's first call, or
   200. The response has that status, exactly unless it is informational: then it has 200, and only the log
   does not say so. An ordinary response is gzipped and labelled so, any other goes out as it is; the body is
   the concatenated writes, or their gzip, exactly unless the status allows none (or there is none to send).
   The log's byte count is the wire's; on a connection that breaks, a prefix gets through.
   */
  method Serve(z: Gzip, h: Headers, room: Option<nat>, calls: seq<Call>) returns (w: Wire, log: LoggingWriter)
    requires z.Lawful() && (calls != [] ==> IsStatus(Effective(calls)))
    ensures fresh(w) && fresh(log) && w.sent.Some?
    ensures log.bytes == |w.body| && w.headerCalls == if calls == [] then 0 else 1
    ensures log.status == if calls != [] && calls[0].WriteHeader? && calls[0].code != 0 then calls[0].code else 200
    ensures 100 <= log.status < 200 && log.status != 101 ==> w.interim == [log.status] && w.sent.value.0 == 200
    ensures !(100 <= log.status < 200 && log.status != 101) ==> w.interim == [] && w.sent.value.0 == log.status
    ensures calls != [] && Ordinary(h) ==> LabelledGzip(h, w.sent.value.1)
    ensures calls == [] || !Ordinary(h) ==> w.sent.value.1 == h
    ensures w.sent.value.0 in {101, 204, 304} ==> w.body == []
    ensures w.sent.value.0 !in {101, 204, 304} ==>
      var body := Intended(z, h, calls);
      w.body == if room.Some? && room.value < |body| then body[..room.value] else body
    ensures calls != [] && Ordinary(h) && room.None? && w.sent.value.0 !in {101, 204, 304} ==>
      z.gunzip(w.body) == Some(Flatten(Writes(calls)))
  {
    w := new Wire(h, room);
    log := new LoggingWriter(w);
    var gw := new GzipWriter(log, z);
    assert Writes([]) == [];
    Play(gw, h, calls);
    gw.Close(h, calls);
    w.Finish();
    CompressesExactlyWhen(h);
    CompressedIsLabelled(h);
  }

  method Make(gw: GzipWriter, c: Call, ghost h: Headers, ghost before: seq<Call>)
    requires gw.z.Lawful() && gw.After(h, before) && IsStatus(Effective(before + [c]))
    modifies gw, gw.inner, gw.inner.inner
    ensures gw.After(h, before + [c])
  {
    match c {
      case WriteHeader(code) => gw.WriteHeader(code, h, before);
      case Write(p) => gw.Write(p, h, before);
    }
  }

  /** Makes the calls one after another. */
  method Play(gw: GzipWriter, ghost h: Headers, calls: seq<Call>)
    requires gw.z.Lawful() && gw.After(h, []) && (calls != [] ==> IsStatus(Effective(calls)))
    modifies gw, gw.inner, gw.inner.inner
    ensures gw.After(h, calls)
  {
    var i := 0;
    while i < |calls|
      invariant i <= |calls|
      invariant gw.After(h, calls[..i])
    {
      assert calls[..i + 1] == calls[..i] + [calls[i]] && calls[..i + 1][0] == calls[0];
      Make(gw, calls[i], h, calls[..i]);
      i := i + 1;
    }
    assert calls[..i] == calls;
  }
}
