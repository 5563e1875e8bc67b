/** The decision logic of AssetTrack's HTTP middleware. A request and a
    response writer are objects holding a header map; a middleware that
    hands the request on reports it by returning `callsNext`. */
module Middleware {
  import opened Text
  import opened Http

  /** A header map from canonical name to its value (one value per name).
      Go's `Header.Get` and `Header.Set` reduce a name to its canonical form
      (first letter and each letter after a hyphen upper case, the rest
      lower case) before using it, and the server stores incoming headers
      under that form; so every name below is written already canonical:
      "X-Real-IP" is looked up as "X-Real-Ip", "X-XSS-Protection" is set
      as "X-Xss-Protection". */
  type Header = map<string, string>

  /** `http.Header.Get`: the value under `name`, or "" when there is none. */
  function HeaderGet(h: Header, name: string): (v: string)
    ensures name in h ==> v == h[name]
    ensures name !in h ==> v == ""
  {
    if name in h then h[name] else ""
  }

  const MethodOptions := "OPTIONS"

  class Request {
    var Method: string
    var Header: Header
    var RemoteAddr: string

    constructor (m: string, h: Header, addr: string)
      ensures Method == m && Header == h && RemoteAddr == addr
    {
      Method := m;
      Header := h;
      RemoteAddr := addr;
    }
  }

  /** The underlying `http.ResponseWriter`: its header map and the status
      codes written to it, in order. */
  class ResponseWriter {
    var Header: Header
    var written: seq<int>

    constructor ()
      ensures Header == map[] && written == []
    {
      Header := map[];
      written := [];
    }

    method WriteHeader(code: int)
      modifies this
      ensures written == old(written) + [code] && Header == old(Header)
    {
      written := written + [code];
    }
  }

  /** Logger's wrapper around a writer, remembering the status written
      through it. `codes` is the history of codes it has been given. */
  class StatusRecorder {
    const inner: ResponseWriter
    var status: int
    ghost var codes: seq<int>

    /** The status the recorder reports is 200 until a code is written, and
        the last code written afterwards. */
    ghost predicate Valid()
      reads this
    {
      status == if codes == [] then StatusOK else codes[|codes| - 1]
    }

    constructor (w: ResponseWriter)
      ensures inner == w && codes == [] && Valid()
      ensures status == StatusOK
    {
      inner := w;
      status := StatusOK;
      codes := [];
    }

    /** Records `code` and forwards it to the wrapped writer. */
    method WriteHeader(code: int)
      requires Valid()
      modifies this, inner
      ensures Valid() && codes == old(codes) + [code]
      ensures status == code
      ensures inner.written == old(inner.written) + [code] && inner.Header == old(inner.Header)
    {
      status := code;
      codes := codes + [code];
      inner.WriteHeader(code);
    }
  }

  /** The context key `GetRequestID` reads, and any other key. */
  datatype ContextKey = RequestIDKey | OtherKey(name: string)

  /** A context value: an `int64`, or a value of some other type. */
  datatype ContextValue = Int64Value(n: Int64) | OtherValue(text: string)

  /** `context.WithValue`: the new context answers `v` for `k`. */
  function WithValue(ctx: map<ContextKey, ContextValue>, k: ContextKey, v: ContextValue): (ctx': map<ContextKey, ContextValue>)
    ensures k in ctx' && ctx'[k] == v
    ensures forall j :: j != k ==> (j in ctx' <==> j in ctx) && (j in ctx ==> ctx'[j] == ctx[j])
  {
    ctx[k := v]
  }

  /** The request ID held in the context, or 0 when the context holds no
      `int64` under the request-ID key. */
  function GetRequestID(ctx: map<ContextKey, ContextValue>): (id: Int64)
    ensures RequestIDKey in ctx && ctx[RequestIDKey].Int64Value? ==> id == ctx[RequestIDKey].n
    ensures !(RequestIDKey in ctx && ctx[RequestIDKey].Int64Value?) ==> id == 0
  {
    if RequestIDKey in ctx && ctx[RequestIDKey].Int64Value? then ctx[RequestIDKey].n else 0
  }

  /** An ID stored under the key reads back; a value stored under another
      key, or of another type, leaves the answer as it was or 0. */
  lemma RequestIDRoundTrip(ctx: map<ContextKey, ContextValue>, v: Int64, other: ContextKey, text: string)
    requires other != RequestIDKey
    ensures GetRequestID(WithValue(ctx, RequestIDKey, Int64Value(v))) == v
    ensures GetRequestID(WithValue(ctx, other, Int64Value(v))) == GetRequestID(ctx)
    ensures GetRequestID(WithValue(ctx, RequestIDKey, OtherValue(text))) == 0
    ensures RequestIDKey !in ctx ==> GetRequestID(ctx) == 0
  {
  }

  /** The client address RealIP settles on: a non-empty X-Forwarded-For,
      else a non-empty X-Real-IP, else the connection's own address. */
  function ClientAddress(h: Header, remoteAddr: string): string {
    var xff := HeaderGet(h, "X-Forwarded-For");
    var xrip := HeaderGet(h, "X-Real-Ip");
    if xff != "" then xff else if xrip != "" then xrip else remoteAddr
  }

  /** Overwrites the request's remote address from the proxy headers, then
      hands the request on. */
  method RealIP(r: Request) returns (callsNext: bool)
    modifies r
    ensures r.RemoteAddr == ClientAddress(r.Header, old(r.RemoteAddr))
    ensures r.Header == old(r.Header) && r.Method == old(r.Method)
    ensures callsNext
  {
    var xff := HeaderGet(r.Header, "X-Forwarded-For");
    if xff != "" {
      r.RemoteAddr := xff;
    } else {
      var xrip := HeaderGet(r.Header, "X-Real-Ip");
      if xrip != "" {
        r.RemoteAddr := xrip;
      }
    }
    callsNext := true;
  }

  /** X-Forwarded-For takes precedence over X-Real-IP; with neither the
      address is kept; and applying the rule twice changes nothing more. */
  lemma ClientAddressPrecedence(h: Header, addr: string)
    ensures HeaderGet(h, "X-Forwarded-For") != "" ==> ClientAddress(h, addr) == h["X-Forwarded-For"]
    ensures HeaderGet(h, "X-Forwarded-For") == "" && HeaderGet(h, "X-Real-Ip") != "" ==>
      ClientAddress(h, addr) == h["X-Real-Ip"]
    ensures HeaderGet(h, "X-Forwarded-For") == "" && HeaderGet(h, "X-Real-Ip") == "" ==>
      ClientAddress(h, addr) == addr
    ensures ClientAddress(h, ClientAddress(h, addr)) == ClientAddress(h, addr)
  {
  }

  /** Some entry of the allow-list is "*" or the origin itself. */
  predicate OriginAllowed(allowedOrigins: seq<string>, origin: string) {
    exists i :: 0 <= i < |allowedOrigins| && (allowedOrigins[i] == "*" || allowedOrigins[i] == origin)
  }

  /** CORS's scan of the allow-list, stopping at the first match. */
  method CheckOrigin(allowedOrigins: seq<string>, origin: string) returns (allowed: bool)
    ensures allowed <==> OriginAllowed(allowedOrigins, origin)
  {
    allowed := false;
    var i := 0;
    while i < |allowedOrigins|
      invariant 0 <= i <= |allowedOrigins|
      invariant !allowed
      invariant forall j :: 0 <= j < i ==> allowedOrigins[j] != "*" && allowedOrigins[j] != origin
    {
      var o := allowedOrigins[i];
      if o == "*" || o == origin {
        allowed := true;
        break;
      }
      i := i + 1;
    }
  }

  /** The header map after CORS has allowed `origin`. */
  function CorsHeaders(h: Header, origin: string): Header {
    h["Access-Control-Allow-Origin" := origin]
     ["Access-Control-Allow-Methods" := "GET, POST, PUT, DELETE, OPTIONS"]
     ["Access-Control-Allow-Headers" := "Content-Type, Authorization"]
     ["Access-Control-Max-Age" := "86400"]
  }

  /** The CORS middleware: sets the four CORS headers, echoing the request's
      Origin, when the origin is allowed, and none otherwise; answers every
      OPTIONS request with 204 itself and hands every other one on. */
  method Cors(allowedOrigins: seq<string>, w: ResponseWriter, r: Request) returns (callsNext: bool)
    modifies w
    ensures OriginAllowed(allowedOrigins, HeaderGet(r.Header, "Origin")) ==>
      w.Header == CorsHeaders(old(w.Header), HeaderGet(r.Header, "Origin"))
    ensures !OriginAllowed(allowedOrigins, HeaderGet(r.Header, "Origin")) ==> w.Header == old(w.Header)
    ensures r.Method == MethodOptions ==> !callsNext && w.written == old(w.written) + [StatusNoContent]
    ensures r.Method != MethodOptions ==> callsNext && w.written == old(w.written)
  {
    var origin := HeaderGet(r.Header, "Origin");
    var allowed := CheckOrigin(allowedOrigins, origin);
    if allowed {
      w.Header := w.Header["Access-Control-Allow-Origin" := origin];
      w.Header := w.Header["Access-Control-Allow-Methods" := "GET, POST, PUT, DELETE, OPTIONS"];
      w.Header := w.Header["Access-Control-Allow-Headers" := "Content-Type, Authorization"];
      w.Header := w.Header["Access-Control-Max-Age" := "86400"];
    }
    if r.Method == MethodOptions {
      w.WriteHeader(StatusNoContent);
      return false;
    }
    return true;
  }

  /** The allowed origin is echoed, never replaced by "*", and the other
      CORS headers carry their fixed values; no other header changes. */
  lemma CorsHeadersEcho(h: Header, origin: string)
    ensures CorsHeaders(h, origin)["Access-Control-Allow-Origin"] == origin
    ensures CorsHeaders(h, origin)["Access-Control-Max-Age"] == "86400"
    ensures forall k :: k !in CorsNames ==>
      (k in CorsHeaders(h, origin) <==> k in h) && (k in h ==> CorsHeaders(h, origin)[k] == h[k])
  {
  }

  const CorsNames := {"Access-Control-Allow-Origin", "Access-Control-Allow-Methods",
                      "Access-Control-Allow-Headers", "Access-Control-Max-Age"}

  const SecureNames := {"X-Content-Type-Options", "X-Frame-Options", "X-Xss-Protection", "Referrer-Policy"}

  /** Sets the four security headers, then hands the request on. */
  method SecureHeaders(w: ResponseWriter) returns (callsNext: bool)
    modifies w
    ensures w.Header.Keys == old(w.Header).Keys + SecureNames
    ensures w.Header["X-Content-Type-Options"] == "nosniff"
    ensures w.Header["X-Frame-Options"] == "DENY"
    ensures w.Header["X-Xss-Protection"] == "1; mode=block"
    ensures w.Header["Referrer-Policy"] == "strict-origin-when-cross-origin"
    ensures forall k :: k in old(w.Header) && k !in SecureNames ==> w.Header[k] == old(w.Header)[k]
    ensures w.written == old(w.written) && callsNext
  {
    w.Header := w.Header["X-Content-Type-Options" := "nosniff"];
    w.Header := w.Header["X-Frame-Options" := "DENY"];
    w.Header := w.Header["X-Xss-Protection" := "1; mode=block"];
    w.Header := w.Header["Referrer-Policy" := "strict-origin-when-cross-origin"];
    callsNext := true;
  }

  /** Sets Content-Type, then hands the request on. */
  method ContentType(contentType: string, w: ResponseWriter) returns (callsNext: bool)
    modifies w
    ensures w.Header == old(w.Header)["Content-Type" := contentType]
    ensures w.written == old(w.written) && callsNext
  {
    w.Header := w.Header["Content-Type" := contentType];
    callsNext := true;
  }
}
