/**
 * The Mobile Legends account lookup of api/cekml.js: a primary provider
 * (Gempay) and a fallback (APIGames) tried in that order, each turning its
 * HTTP outcome into a found/not-found record, behind an HTTP handler that
 * checks the API key and the `uid`/`zone` parameters and shapes the reply.
 *
 * The network, the environment and the MD5 digest are parameters: `net`
 * answers each outbound request, and every function returns, beside its
 * value, the requests it issued, so "no call is made" can be stated.
 */
module CekMl {
  import opened Wrappers
  import opened Text
  import opened Js
  import opened Query

  /** A hexadecimal MD5 digest (RFC 1321): always 32 characters. */
  type Digest = s: string | |s| == 32 witness "00000000000000000000000000000000"

  /** The three environment variables, read once at start-up; unset reads as "". */
  datatype Env = Env(gempayApiKey: string, apigamesMerchantId: string, apigamesSecretKey: string)

  /** The two outbound requests, with the data each one carries. */
  datatype Request =
      /** POST to the Gempay endpoint, `X-API-KEY` header, form body `uid=..&zone=..`. */
    | GempayCheck(apiKey: string, uid: string, zone: string)
      /** GET `/merchant/<id>/cek-username/mobilelegend?user_id=..&signature=..`. */
    | ApigamesCheck(merchantId: string, userId: string, signature: string)

  /** A response body: valid JSON, or text that `JSON.parse` rejects. */
  datatype Body = Parsed(value: JsValue) | Unparsable(text: string)

  /** What `fetch` gave: an exception before a full response, or a status and a body. */
  datatype Reply = TransportFailure(message: string) | Response(status: int, body: Body)

  /** The record `safeFetchJson` resolves to. */
  datatype FetchResult = FetchResult(ok: bool, status: int, json: JsValue)

  /** `{ok:true, nickname, region, provider}` or `{ok:false, error, raw?}`. */
  datatype ProviderResult =
    | Found(nickname: JsValue, region: JsValue, provider: string)
    | NotFound(error: JsValue, raw: Option<JsValue>)

  /** A value together with the outbound requests made to compute it, in order. */
  datatype Traced<T> = Traced(value: T, calls: seq<Request>)

  /**
   * `safeFetchJson`: never fails; a transport exception becomes status 0 with
   * the message under `error`, and a body that is not JSON is kept under `raw`.
   */
  function SafeFetchJson(r: Reply): (f: FetchResult)
    ensures f.ok <==> r.Response? && 200 <= r.status <= 299
    ensures f.status == (if r.Response? then r.status else 0)
    ensures r.TransportFailure? ==> f.json == Obj(map["error" := Str(r.message)])
    ensures r.Response? && r.body.Unparsable? ==> f.json == Obj(map["raw" := Str(r.body.text)])
    ensures r.Response? && r.body.Parsed? ==> f.json == r.body.value
  {
    match r
    case TransportFailure(message) => FetchResult(false, 0, Obj(map["error" := Str(message)]))
    case Response(status, body) =>
      var json := match body
        case Parsed(v) => v
        case Unparsable(text) => Obj(map["raw" := Str(text)]);
      FetchResult(200 <= status <= 299, status, json)
  }

  /** `apigamesSignature`: empty exactly when either credential is missing. */
  function ApigamesSignature(env: Env, md5: string -> Digest): (sig: string)
    ensures sig == "" <==> env.apigamesMerchantId == "" || env.apigamesSecretKey == ""
    ensures sig != "" ==> sig == md5(env.apigamesMerchantId + env.apigamesSecretKey)
  {
    if env.apigamesMerchantId == "" || env.apigamesSecretKey == "" then ""
    else md5(env.apigamesMerchantId + env.apigamesSecretKey)
  }

  /** How `checkViaGempay` reads a fetched reply. */
  function ClassifyGempay(f: FetchResult): (r: ProviderResult)
    ensures r.Found? <==> f.ok && Truthy(Get(f.json, "success"))
    ensures !f.ok ==> r.NotFound? && r.error == Str("Gempay HTTP " + DecimalString(f.status))
    ensures f.ok && r.NotFound? && Truthy(Get(f.json, "message")) ==> r.error == Get(f.json, "message")
    ensures f.ok && r.NotFound? && !Truthy(Get(f.json, "message")) ==> r.error == Str("Gempay: invalid")
    ensures r.NotFound? ==> Truthy(r.error) && r.raw == Some(f.json)
    ensures r.Found? ==> r.provider == "gempay" && Truthy(r.region)
    ensures r.Found? && !Truthy(Get(f.json, "region")) ==> r.region == Str("Unknown")
    ensures r.Found? && Truthy(Get(f.json, "region")) ==> r.region == Get(f.json, "region")
    ensures r.Found? ==> r.nickname == (if Truthy(Get(f.json, "username")) then Get(f.json, "username") else Str(""))
  {
    if !f.ok then NotFound(Str("Gempay HTTP " + DecimalString(f.status)), Some(f.json))
    else if !Truthy(Get(f.json, "success")) then
      NotFound(Or(Get(f.json, "message"), Str("Gempay: invalid")), Some(f.json))
    else
      Found(Or(Get(f.json, "username"), Str("")), Or(Get(f.json, "region"), Str("Unknown")), "gempay")
  }

  /** `checkViaGempay`: no key, no request; otherwise exactly one request. */
  function CheckViaGempay(env: Env, net: Request -> Reply, uid: string, zone: string): (t: Traced<ProviderResult>)
    ensures env.gempayApiKey == "" ==> t == Traced(NotFound(Str("GEMPAY_API_KEY not set"), None), [])
    ensures env.gempayApiKey != "" ==>
      t.calls == [GempayCheck(env.gempayApiKey, uid, zone)] && t.value == ClassifyGempay(SafeFetchJson(net(t.calls[0])))
    ensures t.value.NotFound? ==> Truthy(t.value.error)
  {
    if env.gempayApiKey == "" then Traced(NotFound(Str("GEMPAY_API_KEY not set"), None), [])
    else
      var request := GempayCheck(env.gempayApiKey, uid, zone);
      Traced(ClassifyGempay(SafeFetchJson(net(request))), [request])
  }

  /** How `checkViaApigames` reads a fetched reply. */
  function ClassifyApigames(f: FetchResult): (r: ProviderResult)
    ensures r.Found? <==> f.ok && Truthy(Get(Get(f.json, "data"), "is_valid"))
    ensures !f.ok ==> r.NotFound? && r.error == Str("APIGames HTTP " + DecimalString(f.status))
    ensures f.ok && r.NotFound? && Truthy(Get(f.json, "message")) ==> r.error == Get(f.json, "message")
    ensures f.ok && r.NotFound? && !Truthy(Get(f.json, "message")) ==> r.error == Str("Not found")
    ensures r.NotFound? ==> Truthy(r.error) && r.raw == Some(f.json)
    ensures r.Found? ==> r.provider == "apigames" && r.region == Str("Unknown")
    ensures r.Found? ==>
      r.nickname == (if Truthy(Get(Get(f.json, "data"), "username")) then Get(Get(f.json, "data"), "username") else Str(""))
  {
    if !f.ok then NotFound(Str("APIGames HTTP " + DecimalString(f.status)), Some(f.json))
    else if !Truthy(Get(Get(f.json, "data"), "is_valid")) then
      NotFound(Or(Get(f.json, "message"), Str("Not found")), Some(f.json))
    else
      Found(Or(Get(Get(f.json, "data"), "username"), Str("")), Str("Unknown"), "apigames")
  }

  /** `checkViaApigames`: no signature, no request; otherwise exactly one request. */
  function CheckViaApigames(env: Env, md5: string -> Digest, net: Request -> Reply, uid: string): (t: Traced<ProviderResult>)
    ensures ApigamesSignature(env, md5) == "" ==> t == Traced(NotFound(Str("APIGames ENV not set"), None), [])
    ensures ApigamesSignature(env, md5) != "" ==>
      t.calls == [ApigamesCheck(env.apigamesMerchantId, uid, ApigamesSignature(env, md5))]
      && t.value == ClassifyApigames(SafeFetchJson(net(t.calls[0])))
    ensures t.value.NotFound? ==> Truthy(t.value.error)
  {
    var sig := ApigamesSignature(env, md5);
    if sig == "" then Traced(NotFound(Str("APIGames ENV not set"), None), [])
    else
      var request := ApigamesCheck(env.apigamesMerchantId, uid, sig);
      Traced(ClassifyApigames(SafeFetchJson(net(request))), [request])
  }

  /**
   * `checkML`: Gempay first; its success is returned as it is and APIGames is
   * not asked; otherwise APIGames' outcome decides, and when both fail the
   * error is APIGames' own (it is never falsy, so the `a.error` and
   * "Lookup failed" defaults are never used).
   */
  function CheckML(env: Env, md5: string -> Digest, net: Request -> Reply, uid: string, zone: string): (t: Traced<ProviderResult>)
    ensures var a := CheckViaGempay(env, net, uid, zone);
      a.value.Found? ==> t == a
    ensures var a := CheckViaGempay(env, net, uid, zone);
      var b := CheckViaApigames(env, md5, net, uid);
      a.value.NotFound? ==>
        && t.calls == a.calls + b.calls
        && (b.value.Found? ==> t.value == b.value)
        && (b.value.NotFound? ==> t.value == NotFound(b.value.error, None))
  {
    var a := CheckViaGempay(env, net, uid, zone);
    if a.value.Found? then a
    else
      var b := CheckViaApigames(env, md5, net, uid);
      if b.value.Found? then Traced(b.value, a.calls + b.calls)
      else Traced(NotFound(Or(b.value.error, Or(a.value.error, Str("Lookup failed"))), None), a.calls + b.calls)
  }

  /** At most one request per provider, Gempay's first, and a failure never carries a provider. */
  lemma CheckMLCalls(env: Env, md5: string -> Digest, net: Request -> Reply, uid: string, zone: string)
    ensures var t := CheckML(env, md5, net, uid, zone);
      && |t.calls| <= 2
      && (forall i :: 0 <= i < |t.calls| && t.calls[i].GempayCheck? ==> i == 0)
      && (forall i :: 0 <= i < |t.calls| && t.calls[i].ApigamesCheck? ==> i == |t.calls| - 1)
      && (t.value.Found? ==> t.value.provider == "gempay" || t.value.provider == "apigames")
      && (t.value.NotFound? ==> Truthy(t.value.error))
  {
  }

  /** A Gempay success short-circuits: the reply is Gempay's and APIGames is never contacted. */
  lemma GempaySuccessSkipsFallback(env: Env, md5: string -> Digest, net: Request -> Reply, uid: string, zone: string)
    requires CheckViaGempay(env, net, uid, zone).value.Found?
    ensures var t := CheckML(env, md5, net, uid, zone);
      t.value.provider == "gempay" && forall c :: c in t.calls ==> c.GempayCheck?
  {
  }

  /** With neither provider configured, the lookup fails without any request. */
  lemma UnconfiguredMakesNoRequest(env: Env, md5: string -> Digest, net: Request -> Reply, uid: string, zone: string)
    requires env.gempayApiKey == "" && env.apigamesMerchantId == ""
    ensures CheckML(env, md5, net, uid, zone) == Traced(NotFound(Str("APIGames ENV not set"), None), [])
  {
  }

  /** The query parameters `run` reads. */
  datatype CekQuery = CekQuery(apikey: Option<string>, uid: Option<string>, zone: Option<string>)

  /** The JSON object `run` replies with; `status` is true only for `LookupFound`. */
  datatype CekReply =
    | Rejected(error: JsValue)
    | LookupFailed(id: string, zone: string, nickname: JsValue, region: JsValue, provider: string, error: JsValue)
    | LookupFound(id: string, zone: string, nickname: JsValue, region: JsValue, provider: string)
  {
    predicate Status() { LookupFound? }
  }

  /**
   * `run`: the API key is checked first, then `uid` and `zone`; only then is
   * the lookup made, with the trimmed values, while the reply echoes the
   * values as they were given.  A failed lookup carries no provider, so the
   * failure reply always names "none".
   */
  function Run(q: CekQuery, allowList: Option<seq<string>>, env: Env, md5: string -> Digest, net: Request -> Reply): (t: Traced<CekReply>)
    ensures !ApiKeyAccepted(q.apikey, allowList) ==> t == Traced(Rejected(Str("Invalid API key")), [])
    ensures ApiKeyAccepted(q.apikey, allowList) && !(Present(q.uid) && Present(q.zone)) ==>
      t == Traced(Rejected(Str("uid dan zone wajib")), [])
    ensures ApiKeyAccepted(q.apikey, allowList) && Present(q.uid) && Present(q.zone) ==> !t.value.Rejected?
    ensures !t.value.Rejected? ==>
      && Present(q.uid) && Present(q.zone)
      && t.value.id == q.uid.value && t.value.zone == q.zone.value
      && t.calls == CheckML(env, md5, net, Trim(q.uid.value), Trim(q.zone.value)).calls
    ensures t.value.LookupFailed? ==>
      && t.value.nickname == Str("") && t.value.region == Str("Unknown")
      && t.value.provider == "none" && Truthy(t.value.error)
    ensures !t.value.Rejected? ==>
      var r := CheckML(env, md5, net, Trim(q.uid.value), Trim(q.zone.value)).value;
      && (t.value.LookupFound? <==> r.Found?)
      && (r.Found? ==> t.value.nickname == r.nickname && t.value.region == Or(r.region, Str("Unknown"))
                       && t.value.provider == r.provider)
      && (r.NotFound? ==> t.value.error == Or(r.error, Str("Lookup failed")))
    ensures t.value.LookupFound? ==>
      Truthy(t.value.region) && (t.value.provider == "gempay" || t.value.provider == "apigames")
  {
    if !ApiKeyAccepted(q.apikey, allowList) then Traced(Rejected(Str("Invalid API key")), [])
    else if !Present(q.uid) || !Present(q.zone) then Traced(Rejected(Str("uid dan zone wajib")), [])
    else
      var uid := q.uid.value;
      var zone := q.zone.value;
      var result := CheckML(env, md5, net, Trim(uid), Trim(zone));
      CheckMLCalls(env, md5, net, Trim(uid), Trim(zone));
      match result.value
      case NotFound(error, _) =>
        // the failure record has no `provider` field, so `result.provider || "none"` is "none"
        Traced(LookupFailed(uid, zone, Str(""), Str("Unknown"), "none", Or(error, Str("Lookup failed"))), result.calls)
      case Found(nickname, region, provider) =>
        Traced(LookupFound(uid, zone, nickname, Or(region, Str("Unknown")), provider), result.calls)
  }

  /**
   * Both providers failing gives the failure reply with APIGames' error: the
   * reply is decided by the last provider tried, not the first.
   */
  lemma BothFailReportsFallbackError(q: CekQuery, allowList: Option<seq<string>>, env: Env, md5: string -> Digest, net: Request -> Reply)
    requires ApiKeyAccepted(q.apikey, allowList) && Present(q.uid) && Present(q.zone)
    requires CheckViaGempay(env, net, Trim(q.uid.value), Trim(q.zone.value)).value.NotFound?
    requires CheckViaApigames(env, md5, net, Trim(q.uid.value)).value.NotFound?
    ensures Run(q, allowList, env, md5, net).value
         == LookupFailed(q.uid.value, q.zone.value, Str(""), Str("Unknown"), "none",
                         CheckViaApigames(env, md5, net, Trim(q.uid.value)).value.error)
  {
  }

  /**
   * A `uid` of white space only passes the `!uid` check (a non-empty string
   * is truthy), and the lookup is then made with the empty, trimmed id.
   */
  lemma BlankUidIsLookedUp(q: CekQuery, allowList: Option<seq<string>>, env: Env, md5: string -> Digest, net: Request -> Reply)
    requires ApiKeyAccepted(q.apikey, allowList) && Present(q.zone)
    requires Present(q.uid) && AllWhiteSpace(q.uid.value) && env.gempayApiKey != ""
    ensures Run(q, allowList, env, md5, net).calls[0] == GempayCheck(env.gempayApiKey, "", Trim(q.zone.value))
    ensures !Run(q, allowList, env, md5, net).value.Rejected?
  {
    TrimEmptyIff(q.uid.value);
  }
}
