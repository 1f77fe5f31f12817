/** The front end's server addresses (src/config.js): the HTTP base, optionally taken
    from the `wq` query parameter, and the WebSocket base derived from it. The URL
    parser is an input: it yields the origin of a string, or nothing when `new URL`
    would throw. */
module Config {
  import opened Common

  const DefaultApiBase: string := "http://localhost:8000"

  /** `sanitizedBase`: the default without a (non-empty) override or when the trimmed
      override does not parse, else the parsed origin. */
  function SanitizedBase(wq: Option<string>, parseOrigin: string -> Option<string>): (r: string)
    ensures !Truthy(wq) ==> r == DefaultApiBase
    ensures Truthy(wq) && parseOrigin(Trim(wq.value)).None? ==> r == DefaultApiBase
    ensures Truthy(wq) && parseOrigin(Trim(wq.value)).Some? ==> r == parseOrigin(Trim(wq.value)).value
  {
    if !Truthy(wq) then DefaultApiBase
    else match parseOrigin(Trim(wq.value))
      case None => DefaultApiBase
      case Some(origin) => origin
  }

  /** `WS_BASE_URL`: the first `https` becomes `wss` when the base starts with `https`,
      otherwise the first `http` becomes `ws`. */
  function WsBase(base: string): string {
    if StartsWith(base, "https") then ReplaceFirst(base, "https", "wss")
    else ReplaceFirst(base, "http", "ws")
  }

  /** The scheme rewrite: `https…` becomes `wss…`, `http…` becomes `ws…`, and the rest
      of the base is kept. */
  lemma WsBaseScheme(base: string)
    ensures StartsWith(base, "https") ==> WsBase(base) == "wss" + base[5..]
    ensures StartsWith(base, "http") && !StartsWith(base, "https") ==> WsBase(base) == "ws" + base[4..]
    ensures !Contains(base, "http") ==> WsBase(base) == base
  {
    if StartsWith(base, "https") {
      ReplaceFirstAtStart(base, "https", "wss");
    } else if StartsWith(base, "http") {
      ReplaceFirstAtStart(base, "http", "ws");
    } else {
      ReplaceFirstFrame(base, "http", "ws");
    }
  }

  /** Without an override the WebSocket base is `ws://localhost:8000`. */
  lemma DefaultWsBase(parseOrigin: string -> Option<string>)
    ensures WsBase(SanitizedBase(None, parseOrigin)) == "ws://localhost:8000"
  {
    var b := SanitizedBase(None, parseOrigin);
    assert b == DefaultApiBase;
    assert b[4] == ':';
    assert StartsWith(b, "http") && !StartsWith(b, "https");
    WsBaseScheme(b);
    assert WsBase(b) == "ws" + b[4..];
  }
}
