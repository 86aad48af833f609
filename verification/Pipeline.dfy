/** A request's way from the agent's JSON to the handler: sign, gzip, encrypt; decrypt, gunzip, verify. */
module Pipeline {
  import opened Wrappers
  import opened Metrics
  import opened Http
  import opened Crypto

  const CONTENT_ENCRYPTION := "Content-Encryption"
  const AESRSA := "aesrsa"
  const HASH_HEADER := "HashSHA256"

  /** gzip, HMAC-SHA256 and base64, kept abstract. */
  datatype Codecs = Codecs(
    gzip: seq<byte> -> seq<byte>,
    gunzip: seq<byte> -> Option<seq<byte>>,
    hmac: (string, seq<byte>) -> seq<byte>,
    base64: seq<byte> -> string,
    unbase64: string -> Option<seq<byte>>)
  {
    /** gzip is deterministic and undone by gunzip; base64 text of a digest decodes back and has no outer blanks. */
    ghost predicate Lawful() {
      && (forall b: seq<byte> :: gunzip(gzip(b)) == Some(b))
      && (forall b: seq<byte> :: unbase64(base64(b)) == Some(b))
      && (forall key: string, b: seq<byte> ::
            var text := base64(hmac(key, b)); text != "" && !IsSpace(text[0]) && !IsSpace(text[|text| - 1]))
    }
  }

  datatype Request = Request(headers: Headers, body: seq<byte>)

  datatype Response<T> = Pass(value: T) | Refuse(status: nat, message: string)

  /** Key material drawn for one encryption. */
  datatype Coins = Coins(aesKey: seq<byte>, nonce: seq<byte>, r: nat) {
    predicate Valid() {
      |aesKey| == KEY_SIZE && |nonce| == NONCE_SIZE
    }
  }

  // ---- Agent ----

  const BASE_HEADERS: Headers := map[CONTENT_TYPE := ["application/json"], "Accept-Encoding" := ["gzip"]]

  function Signed(z: Codecs, secret: string, gz: seq<byte>): Headers {
    if Trim(secret) == "" then BASE_HEADERS else Set(BASE_HEADERS, HASH_HEADER, z.base64(z.hmac(Trim(secret), gz)))
  }

  /** The request an agent sends for a compressed body, unless encryption fails. */
  function AgentRequest(z: Codecs, c: Primitives, secret: string, gz: seq<byte>, pub: Option<nat>,
      coins: Coins): Option<Request> {
    if pub.None? then Some(Request(Set(Signed(z, secret, gz), CONTENT_ENCODING, "gzip"), gz))
    else
      var enc := EncryptSpec(c, pub, gz, coins.aesKey, coins.nonce, coins.r);
      if enc.None? then None else Some(Request(Set(Signed(z, secret, gz), CONTENT_ENCRYPTION, AESRSA), enc.value))
  }

  /** postGzippedJSON up to the network: the signature is taken before encrypting. */
  method PostGzippedJSON(z: Codecs, c: Primitives, secret: string, gz: seq<byte>, pub: Option<nat>, coins: Coins)
    returns (req: Option<Request>)
    requires coins.Valid()
    ensures req == AgentRequest(z, c, secret, gz, pub, coins)
  {
    var body := gz;
    var headers := BASE_HEADERS;
    var key := Trim(secret);
    if key != "" {
      headers := Set(headers, HASH_HEADER, z.base64(z.hmac(key, gz)));
    }
    if pub.Some? {
      var enc := Encrypt(c, pub, gz, coins.aesKey, coins.nonce, coins.r);
      if enc.None? {
        return None;
      }
      body := enc.value;
      headers := Set(headers, CONTENT_ENCRYPTION, AESRSA);
    } else {
      headers := Set(headers, CONTENT_ENCODING, "gzip");
    }
    return Some(Request(headers, body));
  }

  // ---- Server ----

  /** DecryptRequest: only requests marked as encrypted are touched, and only by a server holding a key. */
  function DecryptRequest(c: Primitives, priv: Option<nat>, req: Request): Response<Request> {
    if priv.None? || Get(req.headers, CONTENT_ENCRYPTION) != AESRSA then Pass(req)
    else
      var plain := DecryptSpec(c, priv, req.body);
      if plain.None? then Refuse(400, "failed to decrypt body")
      else Pass(Request(Set(Del(req.headers, CONTENT_ENCRYPTION), CONTENT_ENCODING, "gzip"), plain.value))
  }

  method DecryptMiddleware(c: Primitives, priv: Option<nat>, req: Request) returns (next: Response<Request>)
    ensures next == DecryptRequest(c, priv, req)
  {
    if priv.None? || Get(req.headers, CONTENT_ENCRYPTION) != AESRSA {
      return Pass(req);
    }
    var plain := Decrypt(c, priv, req.body);
    if plain.None? {
      return Refuse(400, "failed to decrypt body");
    }
    var headers := req.headers;
    headers := Del(headers, CONTENT_ENCRYPTION);
    headers := Set(headers, CONTENT_ENCODING, "gzip");
    return Pass(Request(headers, plain.value));
  }

  function DecompressRequest(z: Codecs, req: Request): Response<Request> {
    var enc := Trim(Lower(Get(req.headers, CONTENT_ENCODING)));
    if enc == "" || enc == "identity" then Pass(req)
    else if enc != "gzip" then Refuse(415, "unsupported Content-Encoding")
    else
      var plain := z.gunzip(req.body);
      if plain.None? then Refuse(400, "invalid gzip body")
      else Pass(Request(Del(req.headers, CONTENT_ENCODING), plain.value))
  }

  /** verifyRequestBodyHashSHA256: a signature over the body or over its gzip is accepted; none, or no key, passes. */
  predicate Verifies(z: Codecs, secret: string, req: Request) {
    var key, raw := Trim(secret), Trim(Get(req.headers, HASH_HEADER));
    key == "" || raw == "" ||
    (z.unbase64(raw).Some? &&
      (z.unbase64(raw).value == z.hmac(key, req.body) || z.unbase64(raw).value == z.hmac(key, z.gzip(req.body))))
  }

  /** What the handler reads, or the refusal the client gets. */
  function Receive(z: Codecs, c: Primitives, priv: Option<nat>, secret: string, req: Request): Response<seq<byte>> {
    var decrypted := DecryptRequest(c, priv, req);
    if decrypted.Refuse? then Refuse(decrypted.status, decrypted.message)
    else
      var plain := DecompressRequest(z, decrypted.value);
      if plain.Refuse? then Refuse(plain.status, plain.message)
      else if !Verifies(z, secret, plain.value) then Refuse(400, "hash mismatch")
      else Pass(plain.value.body)
  }

  /** A request without a signature, and any request to a server without a secret, is accepted. */
  lemma UnsignedVerifies(z: Codecs, secret: string, req: Request)
    ensures Blank(secret) || Blank(Get(req.headers, "HashSHA256")) ==> Verifies(z, secret, req)
  {
    BlankIs(secret);
    BlankIs(Get(req.headers, HASH_HEADER));
  }

  /** What is no base64 text, or decodes to neither digest, is refused by a server with a secret. */
  lemma ForgedRefused(z: Codecs, secret: string, req: Request)
    requires !Blank(secret) && !Blank(Get(req.headers, "HashSHA256"))
    ensures Verifies(z, secret, req) <==>
      exists digest: seq<byte> ::
        && z.unbase64(Trim(Get(req.headers, "HashSHA256"))) == Some(digest)
        && (digest == z.hmac(Trim(secret), req.body) || digest == z.hmac(Trim(secret), z.gzip(req.body)))
  {
    BlankIs(secret);
    BlankIs(Get(req.headers, HASH_HEADER));
  }

  /** How each declared encoding of a request body fares. */
  lemma DecompressCases(z: Codecs, req: Request)
    ensures
      var (enc, next) := (Get(req.headers, "Content-Encoding"), DecompressRequest(z, req));
      if Blank(enc) || Says(enc, "identity") then next == Pass(req)
      else if Says(enc, "gzip") then
        if z.gunzip(req.body).Some?
        then next == Pass(Request(req.headers - {"Content-Encoding"}, z.gunzip(req.body).value))
        else next.Refuse? && next.status == 400
      else next.Refuse? && next.status == 415
  {
    BlankIs(Get(req.headers, CONTENT_ENCODING));
    SaysIs(Get(req.headers, CONTENT_ENCODING), "identity");
    SaysIs(Get(req.headers, CONTENT_ENCODING), "gzip");
  }

  /** How a request fares with the decrypting stage. */
  lemma DecryptCases(c: Primitives, priv: Option<nat>, req: Request)
    ensures
      var (next, marked) := (DecryptRequest(c, priv, req), Get(req.headers, "Content-Encryption") == "aesrsa");
      if priv.None? || !marked then next == Pass(req)
      else if DecryptSpec(c, priv, req.body).None? then next.Refuse? && next.status == 400
      else
        && next.Pass? && next.value.body == DecryptSpec(c, priv, req.body).value
        && next.value.headers == (req.headers - {"Content-Encryption"})["Content-Encoding" := ["gzip"]]
  {
  }

  /** The request on the wire: what is signed is the compressed body, and what is sent says how to read it. */
  lemma RequestIs(z: Codecs, c: Primitives, secret: string, gz: seq<byte>, pub: Option<nat>, coins: Coins)
    ensures pub.None? ==> AgentRequest(z, c, secret, gz, pub, coins).Some?
    ensures pub.Some? ==>
      (AgentRequest(z, c, secret, gz, pub, coins).Some? <==>
       EncryptSpec(c, pub, gz, coins.aesKey, coins.nonce, coins.r).Some?)
    ensures AgentRequest(z, c, secret, gz, pub, coins).Some? ==>
      var (h, body) := (AgentRequest(z, c, secret, gz, pub, coins).value.headers, AgentRequest(z, c, secret, gz, pub,
          coins).value.body);
      && Get(h, "Content-Type") == "application/json" && Get(h, "Accept-Encoding") == "gzip"
      && (if Blank(secret) then "HashSHA256" !in h
          else "HashSHA256" in h && h["HashSHA256"] == [z.base64(z.hmac(Trim(secret), gz))])
      && (pub.None? ==> body == gz && Get(h, "Content-Encoding") == "gzip" && "Content-Encryption" !in h)
      && (pub.Some? ==> Get(h, "Content-Encryption") == "aesrsa" && "Content-Encoding" !in h)
  {
    HeaderNames();
    BlankIs(secret);
    assert |"HashSHA256"| == 10 && |"Content-Encoding"| == 16 && |"Content-Encryption"| == 18;
    assert |"Content-Type"| == 12 && |"Accept-Encoding"| == 15;
  }

  /**
   The agent's own signature over the gzip of a body verifies under an equal trimmed secret, and if either is
   blank.
   */
  lemma SignatureVerifies(z: Codecs, secret: string, other: string, req: Request)
    requires z.Lawful() && (Trim(other) == Trim(secret) || Blank(other) || Blank(secret))
    requires Get(req.headers, HASH_HEADER) == Get(Signed(z, secret, z.gzip(req.body)), HASH_HEADER)
    ensures Verifies(z, other, req)
  {
    BlankIs(secret);
    BlankIs(other);
    HeaderNames();
    if Blank(secret) {
      UnsignedVerifies(z, other, req);
    }
  }

  method VerifyRequestBodyHash(z: Codecs, secret: string, req: Request) returns (err: Option<string>)
    ensures err.None? <==> Verifies(z, secret, req)
  {
    var key := Trim(secret);
    if key == "" {
      return None;
    }
    var raw := Trim(Get(req.headers, HASH_HEADER));
    if raw == "" {
      return None;
    }
    var got := z.unbase64(raw);
    if got.None? {
      return Some("invalid HashSHA256");
    }
    if got.value == z.hmac(key, req.body) {
      return None;
    }
    if got.value == z.hmac(key, z.gzip(req.body)) {
      return None;
    }
    return Some("hash mismatch");
  }

  /**
   If the body of a request and its gzip do not collide with the signed bytes under the shared key, a request
   carrying the agent's signature over `json` is accepted exactly when its body is that JSON or the gzip of it.
   */
  lemma SignedBodyIs(z: Codecs, secret: string, json: seq<byte>, req: Request)
    requires z.Lawful() && Trim(secret) != ""
    requires forall b :: b in {req.body, z.gzip(req.body)} ==>
      z.hmac(Trim(secret), b) == z.hmac(Trim(secret), z.gzip(json)) ==> b == z.gzip(json)
    requires Get(req.headers, HASH_HEADER) == Get(Signed(z, secret, z.gzip(json)), HASH_HEADER)
    ensures Verifies(z, secret, req) <==> req.body == json || req.body == z.gzip(json)
  {
  }

  lemma HeaderNames()
    ensures HASH_HEADER !in BASE_HEADERS && CONTENT_ENCODING !in BASE_HEADERS && CONTENT_ENCRYPTION !in BASE_HEADERS
    ensures CONTENT_ENCODING != HASH_HEADER && CONTENT_ENCODING != CONTENT_ENCRYPTION &&
        HASH_HEADER != CONTENT_ENCRYPTION
  {
  }

  /** What comes out of the decryption stage is the compressed body, marked as such, signature kept. */
  lemma DecryptStage(z: Codecs, c: Primitives, secret: string, gz: seq<byte>, pub: Option<nat>, priv: Option<nat>,
      coins: Coins)
    requires coins.Valid() && AgentRequest(z, c, secret, gz, pub, coins).Some?
    requires pub.Some? ==> priv.Some? && c.Matching(pub.value, priv.value)
    ensures DecryptRequest(c, priv, AgentRequest(z, c, secret, gz, pub, coins).value)
         == Pass(Request(Set(Signed(z, secret, gz), CONTENT_ENCODING, "gzip"), gz))
  {
    HeaderNames();
    var req := AgentRequest(z, c, secret, gz, pub, coins).value;
    if pub.Some? {
      DecryptEncrypt(c, pub.value, priv.value, gz, coins.aesKey, coins.nonce, coins.r);
      assert Del(req.headers, CONTENT_ENCRYPTION) == Signed(z, secret, gz);
    }
  }

  /** What comes out of the decompression stage is the plain body without its encoding header. */
  lemma DecompressStage(z: Codecs, headers: Headers, json: seq<byte>)
    requires z.Lawful()
    ensures DecompressRequest(z, Request(Set(headers, CONTENT_ENCODING, "gzip"), z.gzip(json)))
         == Pass(Request(Del(Set(headers, CONTENT_ENCODING, "gzip"), CONTENT_ENCODING), json))
  {
  }

  /**
   Round trip: for every body, encrypted or not, signed or not, whatever request the agent builds,
   a server with the matching key hands exactly that body on, if the trimmed secrets are equal or either is blank.
   */
  lemma RequestRoundTrip(z: Codecs, c: Primitives, json: seq<byte>, agentSecret: string, serverSecret: string,
                         pub: Option<nat>, priv: Option<nat>, coins: Coins)
    requires z.Lawful() && coins.Valid() && AgentRequest(z, c, agentSecret, z.gzip(json), pub, coins).Some?
    requires pub.Some? ==> priv.Some? && c.Matching(pub.value, priv.value)
    requires Trim(serverSecret) == Trim(agentSecret) || Blank(serverSecret) || Blank(agentSecret)
    ensures
      Receive(z, c, priv, serverSecret, AgentRequest(z, c, agentSecret, z.gzip(json), pub, coins).value) == Pass(json)
  {
    var gz := z.gzip(json);
    DecryptStage(z, c, agentSecret, gz, pub, priv, coins);
    var headers := Signed(z, agentSecret, gz);
    DecompressStage(z, headers, json);
    var plain := Request(Del(Set(headers, CONTENT_ENCODING, "gzip"), CONTENT_ENCODING), json);
    HeaderNames();
    assert Get(plain.headers, HASH_HEADER) == Get(headers, HASH_HEADER);
    SignatureVerifies(z, agentSecret, serverSecret, plain);
  }
}
