/**
 * The edge gate that runs before every route (`src/middleware.ts`): static
 * assets pass, CORS preflights are answered, order reads are public, and every
 * other `/api/` call needs an allowlisted origin (when keys are waived for
 * it) or a matching API or app key.
 */
module Gate {
  import opened Maybe
  import opened Text
  import opened Js

  /** The environment variables the gate reads at start-up; `None` is unset. */
  datatype Env = Env(
    allowedOrigins: Option<string>,
    requireKeysForWhitelist: Option<string>,
    bmtApiKey: Option<string>,
    internalAppKey: Option<string>)

  datatype Config = Config(
    allowed: seq<string>,
    requireKeys: bool,
    apiKey: Option<string>,
    appKey: Option<string>)

  /** `env || ""` for an environment variable. */
  function OrEmpty(v: Option<string>): string {
    if v.Some? then v.value else ""
  }

  /** Every part trimmed, the ones left empty dropped, order kept. */
  function NonEmptyTrimmed(parts: seq<string>): (r: seq<string>)
    ensures forall i :: 0 <= i < |r| ==> r[i] != [] && !IsSpace(r[i][0]) && !IsSpace(r[i][|r[i]| - 1])
  {
    if parts == [] then []
    else
      var t := Trim(parts[0]);
      TrimIsSlice(parts[0]);
      var rest := NonEmptyTrimmed(parts[1..]);
      if t == [] then rest else [t] + rest
  }

  /** Every entry is some part, trimmed. */
  lemma {:induction false} NonEmptyTrimmedSound(parts: seq<string>)
    ensures forall x :: x in NonEmptyTrimmed(parts) ==> exists p :: p in parts && Trim(p) == x
  {
    if parts != [] {
      NonEmptyTrimmedSound(parts[1..]);
      forall x | x in NonEmptyTrimmed(parts) ensures exists p :: p in parts && Trim(p) == x {
        if x != Trim(parts[0]) {
          assert x in NonEmptyTrimmed(parts[1..]);
          var p :| p in parts[1..] && Trim(p) == x;
          assert p in parts;
        }
      }
    }
  }

  /** Every part that is not blank is an entry, trimmed. */
  lemma {:induction false} NonEmptyTrimmedComplete(parts: seq<string>)
    ensures forall p :: p in parts && Trim(p) != [] ==> Trim(p) in NonEmptyTrimmed(parts)
  {
    if parts != [] {
      NonEmptyTrimmedComplete(parts[1..]);
      forall p | p in parts && Trim(p) != [] ensures Trim(p) in NonEmptyTrimmed(parts) {
        if p != parts[0] {
          assert p in parts[1..];
        }
      }
    }
  }

  /** Trimming never brings in a character the part did not hold. */
  lemma {:induction false} NonEmptyTrimmedAvoids(parts: seq<string>, c: char)
    requires forall i :: 0 <= i < |parts| ==> c !in parts[i]
    ensures forall i :: 0 <= i < |NonEmptyTrimmed(parts)| ==> c !in NonEmptyTrimmed(parts)[i]
  {
    if parts != [] {
      TrimIsSlice(parts[0]);
      assert c !in parts[0];
      assert forall i :: 0 <= i < |parts[1..]| ==> parts[1..][i] == parts[i + 1];
      NonEmptyTrimmedAvoids(parts[1..], c);
    }
  }

  /** `ALLOWED_ORIGINS`: the comma-separated list, trimmed, without empty entries. */
  function AllowedOrigins(v: Option<string>): (r: seq<string>)
    ensures forall i :: 0 <= i < |r| ==> r[i] != [] && !IsSpace(r[i][0]) && !IsSpace(r[i][|r[i]| - 1])
    ensures forall i :: 0 <= i < |r| ==> ',' !in r[i]
  {
    var parts := Split(OrEmpty(v), ',');
    NonEmptyTrimmedAvoids(parts, ',');
    NonEmptyTrimmed(parts)
  }

  /** An unset (or empty) allowlist variable allows no origin. */
  lemma UnsetAllowlistIsEmpty(v: Option<string>)
    requires v.None? || v == Some("")
    ensures AllowedOrigins(v) == []
  {
    assert OrEmpty(v) == "";
    assert Split("", ',') == [""];
    TrimIsSlice("");
  }

  /** Every non-blank comma-separated entry, trimmed, is allowed. */
  lemma ListedEntryAllowed(v: string, i: nat)
    requires i < |Split(v, ',')| && Trim(Split(v, ',')[i]) != []
    ensures Trim(Split(v, ',')[i]) in AllowedOrigins(Some(v))
  {
    NonEmptyTrimmedComplete(Split(v, ','));
  }

  /** Every allowed origin is a comma-separated entry of the variable, trimmed. */
  lemma AllowedEntryListed(v: Option<string>, x: string)
    requires x in AllowedOrigins(v)
    ensures exists p :: p in Split(OrEmpty(v), ',') && Trim(p) == x
  {
    NonEmptyTrimmedSound(Split(OrEmpty(v), ','));
  }

  /** `REQUIRE_KEYS_FOR_WHITELIST`: waived only by a value that lower-cases to `false`. */
  function RequireKeys(v: Option<string>): (r: bool)
    ensures !r <==> v.Some? && Lower(v.value) == "false"
  {
    var text := if v.Some? then v.value else "true";
    assert Lower("true")[0] == 't';
    Lower(text) != "false"
  }

  function LoadConfig(env: Env): Config {
    Config(AllowedOrigins(env.allowedOrigins), RequireKeys(env.requireKeysForWhitelist),
           env.bmtApiKey, env.internalAppKey)
  }

  /** The request carries a non-empty origin that is on the allowlist. */
  predicate OriginAllowed(cfg: Config, origin: Option<string>) {
    origin.Some? && origin.value != [] && origin.value in cfg.allowed
  }

  /** The `Access-Control-Allow-Origin` value: the request's origin when allowlisted, else `*`. */
  function AllowOrigin(cfg: Config, origin: Option<string>): (r: string)
    ensures r == "*" || (origin.Some? && r == origin.value)
    ensures OriginAllowed(cfg, origin) ==> origin.Some? && r == origin.value
    ensures !OriginAllowed(cfg, origin) ==> r == "*"
  {
    if origin.Some? && origin.value != [] && origin.value in cfg.allowed then origin.value else "*"
  }

  /**
   * The allow-origin read from the environment: the request's origin comes
   * back exactly when it is non-empty and is some comma-separated entry of
   * the allowlist variable, trimmed; every other origin gets `*`.
   */
  lemma AllowOriginFromEnv(env: Env, origin: string)
    ensures origin != [] && (exists p :: p in Split(OrEmpty(env.allowedOrigins), ',') && Trim(p) == origin) ==>
      AllowOrigin(LoadConfig(env), Some(origin)) == origin
    ensures !(origin != [] && exists p :: p in Split(OrEmpty(env.allowedOrigins), ',') && Trim(p) == origin) ==>
      AllowOrigin(LoadConfig(env), Some(origin)) == "*"
  {
    NonEmptyTrimmedSound(Split(OrEmpty(env.allowedOrigins), ','));
    NonEmptyTrimmedComplete(Split(OrEmpty(env.allowedOrigins), ','));
  }

  /** An origin with surrounding whitespace is never echoed back from a parsed allowlist. */
  lemma PaddedOriginNotEchoed(env: Env, origin: string)
    requires origin != [] && (IsSpace(origin[0]) || IsSpace(origin[|origin| - 1]))
    ensures AllowOrigin(LoadConfig(env), Some(origin)) == "*"
  {
  }

  /** `withCors`: the allow-origin choice and the fixed CORS headers. */
  function CorsHeaders(cfg: Config, origin: Option<string>): (h: seq<(string, string)>)
    ensures |h| == 5 && h[0] == (AllowOriginHeader, AllowOrigin(cfg, origin))
    ensures h[1..] == FixedCorsHeaders
  {
    [(AllowOriginHeader, AllowOrigin(cfg, origin))] + FixedCorsHeaders
  }

  const AllowOriginHeader := "Access-Control-Allow-Origin"

  /** The headers `withCors` sets the same way on every response. */
  const FixedCorsHeaders: seq<(string, string)> := [
    ("Vary", "Origin"),
    ("Access-Control-Allow-Headers",
     "Origin, X-Requested-With, Content-Type, Accept, Authorization, x-api-key, x-app-key"),
    ("Access-Control-Allow-Methods", "GET, POST, PUT, PATCH, DELETE, OPTIONS"),
    ("Access-Control-Max-Age", "600") ]

  /** What the gate sees of a request; a header is `None` when absent. */
  datatype Request = Request(
    pathname: string,
    verb: string,
    origin: Option<string>,
    apiKeyHeader: Option<string>,
    appKeyHeader: Option<string>)

  /** The request goes on to its route, or the gate answers it. */
  datatype Response =
    | Forward(headers: seq<(string, string)>)
    | Answer(status: nat, body: Json, headers: seq<(string, string)>)

  /** A key header matches when both it and the configured key are non-empty and equal. */
  predicate KeyMatches(header: Option<string>, configured: Option<string>) {
    header.Some? && header.value != [] && configured.Some? && configured.value != []
    && header.value == configured.value
  }

  predicate HasValidKey(cfg: Config, req: Request) {
    KeyMatches(req.apiKeyHeader, cfg.apiKey) || KeyMatches(req.appKeyHeader, cfg.appKey)
  }

  const UnauthorizedBody: Json :=
    Obj([Prop("success", Bool(false)), Prop("error", Str("UNAUTHORIZED")), Prop("message", Str("Unauthorized"))])

  predicate IsStatic(path: string) {
    StartsWith(path, "/_next") || StartsWith(path, "/favicon")
  }

  predicate IsApi(path: string) {
    StartsWith(path, "/api/")
  }

  predicate IsOrderRead(req: Request) {
    StartsWith(req.pathname, "/api/v1/orders/") && req.verb == "GET"
  }

  /**
   * The gate in front of every route: static assets and pages pass untouched,
   * preflights are answered, and API calls need a valid key unless the
   * order read is open or keys are waived for allowlisted origins.
   */
  function Middleware(cfg: Config, req: Request): (r: Response)
    ensures r.Answer? ==> IsApi(req.pathname) && r.status in {204, 401}
    ensures r.Answer? && r.status == 401 ==> !HasValidKey(cfg, req) && r.body == UnauthorizedBody
    ensures r.headers == [] <==> !IsApi(req.pathname)
    ensures r.headers != [] ==> r.headers == CorsHeaders(cfg, req.origin)
  {
    var path := req.pathname;
    if IsStatic(path) then
      StaticIsNotApi(path);
      Forward([])
    else if IsApi(path) && req.verb == "OPTIONS" then
      Answer(204, Null, CorsHeaders(cfg, req.origin))
    else if IsOrderRead(req) then
      assert IsApi(path) by { PrefixOfPrefix(path, "/api/", "/api/v1/orders/"); }
      Forward(CorsHeaders(cfg, req.origin))
    else if IsApi(path) then
      if OriginAllowed(cfg, req.origin) && !cfg.requireKeys then Forward(CorsHeaders(cfg, req.origin))
      else if HasValidKey(cfg, req) then Forward(CorsHeaders(cfg, req.origin))
      else Answer(401, UnauthorizedBody, CorsHeaders(cfg, req.origin))
    else
      Forward([])
  }

  lemma PrefixOfPrefix(s: string, p: string, q: string)
    requires StartsWith(s, q) && |p| <= |q| && q[..|p|] == p
    ensures StartsWith(s, p)
  {
    assert s[..|p|] == s[..|q|][..|p|];
  }

  /** Static asset paths and API paths never overlap. */
  lemma StaticIsNotApi(path: string)
    requires IsStatic(path)
    ensures !IsApi(path)
  {
    if StartsWith(path, "/_next") {
      assert path[1] == "/_next"[1];
    } else {
      assert path[1] == "/favicon"[1];
    }
  }

  // ---------------------------------------------------------------------
  // The decision table

  /** Static assets and every path outside `/api/` pass with no CORS headers. */
  lemma NonApiPasses(cfg: Config, req: Request)
    requires !IsApi(req.pathname)
    ensures Middleware(cfg, req) == Forward([])
  {
    if !IsStatic(req.pathname) && IsOrderRead(req) {
      PrefixOfPrefix(req.pathname, "/api/", "/api/v1/orders/");
    }
  }

  /** A preflight on any API path is answered 204, whatever keys it carries. */
  lemma PreflightAnswered(cfg: Config, req: Request)
    requires IsApi(req.pathname) && req.verb == "OPTIONS"
    ensures Middleware(cfg, req) == Answer(204, Null, CorsHeaders(cfg, req.origin))
  {
    if IsStatic(req.pathname) {
      StaticIsNotApi(req.pathname);
    }
  }

  /** Reading an order needs no key. */
  lemma OrderReadPasses(cfg: Config, req: Request)
    requires IsOrderRead(req)
    ensures Middleware(cfg, req) == Forward(CorsHeaders(cfg, req.origin))
  {
    PrefixOfPrefix(req.pathname, "/api/", "/api/v1/orders/");
    if IsStatic(req.pathname) {
      StaticIsNotApi(req.pathname);
    }
  }

  /**
   * Any other API call passes iff its origin is allowlisted with keys waived,
   * or it carries a valid key; otherwise it is refused with 401.
   */
  lemma ApiCallGated(cfg: Config, req: Request)
    requires IsApi(req.pathname) && req.verb != "OPTIONS" && !IsOrderRead(req)
    ensures Middleware(cfg, req).Forward? <==>
      (OriginAllowed(cfg, req.origin) && !cfg.requireKeys) || HasValidKey(cfg, req)
    ensures Middleware(cfg, req).Answer? ==>
      Middleware(cfg, req) == Answer(401, UnauthorizedBody, CorsHeaders(cfg, req.origin))
  {
    if IsStatic(req.pathname) {
      StaticIsNotApi(req.pathname);
    }
  }

  /** With neither key configured (or both empty) no request holds a valid key. */
  lemma NoKeysConfigured(env: Env, req: Request)
    requires OrEmpty(env.bmtApiKey) == "" && OrEmpty(env.internalAppKey) == ""
    ensures !HasValidKey(LoadConfig(env), req)
  {
  }

  /** Keys are waived for allowlisted origins only when the flag says exactly `false`, in any case. */
  lemma WaiverNeedsFalse(env: Env)
    ensures !LoadConfig(env).requireKeys <==>
      env.requireKeysForWhitelist.Some? && Lower(env.requireKeysForWhitelist.value) == "false"
  {
  }
}
