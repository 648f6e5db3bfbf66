/**
 * The `origin` callback the Express server hands to the `cors` package: requests
 * without an Origin pass, otherwise the origin must equal a whitelist entry exactly.
 */
module ServerCors {
  import opened Wrappers

  const DEFAULT_FRONTEND := "https://balajib3006.vercel.app"
  const LOCALHOST := "http://localhost:3000"

  /** `process.env.FRONTEND_URL || 'https://balajib3006.vercel.app'`. */
  function FrontendUrl(env: Option<string>): (r: string)
    ensures env.Some? && env.value != "" ==> r == env.value
    ensures env.None? || env.value == "" ==> r == DEFAULT_FRONTEND
  {
    if env.Some? && env.value != "" then env.value else DEFAULT_FRONTEND
  }

  /** `whitelist`: the two fixed origins and the frontend URL. */
  function Whitelist(env: Option<string>): (w: seq<string>)
    ensures |w| == 3 && LOCALHOST in w && DEFAULT_FRONTEND in w && FrontendUrl(env) in w
  {
    [LOCALHOST, DEFAULT_FRONTEND, FrontendUrl(env)]
  }

  /** What the callback passes on: `callback(null, true)` or `callback(err)` with a status. */
  datatype Decision = Allow | Reject(status: int, message: string)

  /** `corsOptions.origin`. */
  function CheckOrigin(origin: Option<string>, env: Option<string>): (d: Decision)
    ensures d == Allow <==> origin.None? || origin.value == "" || origin.value in Whitelist(env)
    ensures d.Reject? ==> d.status == 403 && d.message == "Not allowed by CORS"
  {
    if origin.None? || origin.value == "" then Allow
    else if origin.value in Whitelist(env) then Allow
    else Reject(403, "Not allowed by CORS")
  }

  /** A present origin passes exactly when it is one of the three whitelist strings, character for character. */
  lemma AllowedIffListed(o: string, env: Option<string>)
    requires o != ""
    ensures CheckOrigin(Some(o), env) == Allow <==> o == LOCALHOST || o == DEFAULT_FRONTEND || o == FrontendUrl(env)
  {
  }

  /** With the default frontend URL, an origin that merely starts with it is refused: matching is not by prefix. */
  lemma NoPrefixMatch(suffix: string)
    requires suffix != ""
    ensures CheckOrigin(Some(DEFAULT_FRONTEND + suffix), None).Reject?
  {
    var o := DEFAULT_FRONTEND + suffix;
    assert |o| > |DEFAULT_FRONTEND| && |o| > |LOCALHOST|;
  }
}
