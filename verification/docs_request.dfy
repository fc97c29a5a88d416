/**
 * Sending a request from the documentation page (`updateRequestUrl` and
 * `executeRequest` in src/script.js) without the DOM: the URL shown above
 * an endpoint's form is rebuilt from the form's text inputs over the
 * default query captured the first time, and the reply of the request is
 * classified by its content type.
 */
module DocsRequest {
  import opened Wrappers
  import opened Text
  import opened Js
  import opened FormUrlEncoded

  /** A text input of an endpoint's form. */
  datatype TextInput = TextInput(name: string, value: string, required: bool)

  /** What the URL display keeps in its `dataset`: the base URL ("" until captured) and the default query. */
  datatype Cache = Cache(baseUrl: string, defaultQuery: string)

  /**
   * The capture step: with no base URL yet, the displayed text is trimmed
   * and cut at '?'; the first piece is the base URL and the second (or "")
   * the default query.  Once a base URL is held, nothing is re-read.
   */
  function Captured(text: string, cache: Cache): Cache {
    if cache.baseUrl != "" then cache
    else
      var parts := Split(Trim(text), '?');
      Cache(parts[0], if |parts| >= 2 then parts[1] else "")
  }

  /**
   * A capture holds a base URL and a default query without '?', and the
   * trimmed text starts with the base URL followed by '?' and the default
   * query (when that is not empty).
   */
  lemma CaptureReadsText(text: string, defaultQuery: string)
    ensures var c := Captured(text, Cache("", defaultQuery));
      && '?' !in c.baseUrl && '?' !in c.defaultQuery
      && StartsWith(Trim(text), c.baseUrl)
      && (c.defaultQuery != "" ==> StartsWith(Trim(text), c.baseUrl + "?" + c.defaultQuery))
  {
    var parts := Split(Trim(text), '?');
    assert '?' !in parts[0];
    assert |parts| >= 2 ==> '?' !in parts[1];
    JoinStartsWithPieces(parts, '?');
  }

  /** A join begins with its first piece, and with the first two and the separator between them. */
  lemma {:induction false} JoinStartsWithPieces(parts: seq<string>, c: char)
    requires |parts| >= 1
    ensures StartsWith(Join(parts, c), parts[0])
    ensures |parts| >= 2 ==> StartsWith(Join(parts, c), parts[0] + [c] + parts[1])
  {
    if |parts| >= 2 {
      var rest := Join(parts[1..], c);
      JoinStartsWithPieces(parts[1..], c);
      var s := parts[0] + [c] + rest;
      assert Join(parts, c) == s;
      assert rest[..|parts[1]|] == parts[1];
      assert s[..|parts[0]|] == parts[0];
      assert s[..|parts[0]| + 1 + |parts[1]|] == parts[0] + [c] + parts[1];
    }
  }

  /** The default query with every input set, in form order, to its trimmed value. */
  function Applied(pairs: seq<Pair>, inputs: seq<TextInput>): seq<Pair>
    decreases |inputs|
  {
    if inputs == [] then pairs
    else
      var last := inputs[|inputs| - 1];
      Set(Applied(pairs, inputs[..|inputs| - 1]), last.name, Trim(last.value))
  }

  /** Setting one more input sets it on top of the others. */
  lemma AppliedSnoc(pairs: seq<Pair>, inputs: seq<TextInput>, x: TextInput)
    ensures Applied(pairs, inputs + [x]) == Set(Applied(pairs, inputs), x.name, Trim(x.value))
  {
    assert (inputs + [x])[..|inputs|] == inputs;
  }

  /** A required input that is empty once trimmed. */
  predicate MissingValue(input: TextInput) {
    input.required && Trim(input.value) == ""
  }

  /** Some required input is empty once trimmed, read from the last input back. */
  predicate HasErrors(inputs: seq<TextInput>)
    decreases |inputs|
  {
    inputs != [] && (HasErrors(inputs[..|inputs| - 1]) || MissingValue(inputs[|inputs| - 1]))
  }

  /** The error flag is raised exactly when some required input is blank. */
  lemma {:induction false} HasErrorsIff(inputs: seq<TextInput>)
    ensures HasErrors(inputs) <==> exists k :: 0 <= k < |inputs| && MissingValue(inputs[k])
    decreases |inputs|
  {
    if inputs != [] {
      var init := inputs[..|inputs| - 1];
      HasErrorsIff(init);
      if exists k :: 0 <= k < |init| && MissingValue(init[k]) {
        var k :| 0 <= k < |init| && MissingValue(init[k]);
        assert inputs[k] == init[k];
      }
      if exists k :: 0 <= k < |inputs| && MissingValue(inputs[k]) {
        var k :| 0 <= k < |inputs| && MissingValue(inputs[k]);
        if k < |init| {
          assert init[k] == inputs[k];
        }
      }
    }
  }

  /** The URL for a captured cache: base URL, '?', and the query with the inputs set. */
  function RequestUrl(cache: Cache, inputs: seq<TextInput>): string {
    cache.baseUrl + "?" + Serialize(Applied(Parse(cache.defaultQuery), inputs))
  }

  /**
   * The `forEach` over the form's text inputs: each is set, trimmed, on the
   * default query, and a required one left blank raises the error flag.
   */
  method ApplyInputs(defaults: seq<Pair>, inputs: seq<TextInput>) returns (params: seq<Pair>, hasErrors: bool)
    ensures params == Applied(defaults, inputs)
    ensures hasErrors <==> HasErrors(inputs)
  {
    hasErrors := false;
    params := defaults;
    for i := 0 to |inputs|
      invariant params == Applied(defaults, inputs[..i])
      invariant hasErrors <==> HasErrors(inputs[..i])
    {
      var input := inputs[i];
      assert Applied(defaults, inputs[..i + 1]) == Set(Applied(defaults, inputs[..i]), input.name, Trim(input.value)) by {
        assert inputs[..i + 1] == inputs[..i] + [input];
        AppliedSnoc(defaults, inputs[..i], input);
      }
      assert inputs[..i + 1][..i] == inputs[..i];
      var value := Trim(input.value);
      if input.required && value == "" {
        hasErrors := true;
      }
      params := Set(params, input.name, value);
    }
    assert inputs[..|inputs|] == inputs;
  }

  /** The URL display above a form: its text, and the two `dataset` entries it caches. */
  class UrlDisplay {
    var text: string
    var baseUrl: string
    var defaultQuery: string

    /** A display showing the endpoint's sample URL, with nothing cached yet. */
    constructor (text: string)
      ensures this.text == text && baseUrl == "" && defaultQuery == ""
    {
      this.text := text;
      baseUrl := "";
      defaultQuery := "";
    }

    /** The first-call capture of `updateRequestUrl`: the `dataset` entries are filled only while the base URL is unset. */
    method Capture()
      modifies this
      ensures Cache(baseUrl, defaultQuery) == Captured(old(text), Cache(old(baseUrl), old(defaultQuery)))
      ensures text == old(text)
    {
      if baseUrl == "" {
        var parts := Split(Trim(text), '?');
        baseUrl := parts[0];
        defaultQuery := if |parts| >= 2 then parts[1] else "";
      }
    }

    /**
     * The body of `updateRequestUrl` once the form and the display exist:
     * capture on the first call, then set each input in turn and show the
     * resulting URL.
     */
    method Refresh(inputs: seq<TextInput>) returns (url: string, hasErrors: bool)
      modifies this
      ensures Cache(baseUrl, defaultQuery) == Captured(old(text), Cache(old(baseUrl), old(defaultQuery)))
      ensures url == RequestUrl(Cache(baseUrl, defaultQuery), inputs)
      ensures text == url
      ensures hasErrors <==> HasErrors(inputs)
    {
      Capture();
      var params;
      params, hasErrors := ApplyInputs(Parse(defaultQuery), inputs);
      url := baseUrl + "?" + Serialize(params);
      text := url;
    }
  }

  /**
   * `updateRequestUrl`: with no form or no display the result is an empty
   * URL without errors and nothing changes; otherwise the display is
   * refreshed.
   */
  method UpdateRequestUrl(form: Option<seq<TextInput>>, display: UrlDisplay?) returns (url: string, hasErrors: bool)
    modifies display
    ensures form.None? || display == null ==> url == "" && !hasErrors
    ensures form.None? && display != null ==> unchanged(display)
    ensures form.Some? && display != null ==>
      && url == display.text
      && Cache(display.baseUrl, display.defaultQuery)
         == Captured(old(display.text), Cache(old(display.baseUrl), old(display.defaultQuery)))
      && url == RequestUrl(Captured(old(display.text), Cache(old(display.baseUrl), old(display.defaultQuery))), form.value)
      && (hasErrors <==> HasErrors(form.value))
  {
    if form.None? || display == null {
      return "", false;
    }
    url, hasErrors := display.Refresh(form.value);
  }

  // ----- what the rebuilt URL promises -----

  /** The position of the last input named `n`, or -1. */
  function LastInputNamed(inputs: seq<TextInput>, n: string): (i: int)
    ensures -1 <= i < |inputs|
    ensures i >= 0 ==> inputs[i].name == n
    ensures forall k :: 0 <= k < |inputs| && k > i ==> inputs[k].name != n
    decreases |inputs|
  {
    if inputs == [] then -1
    else if inputs[|inputs| - 1].name == n then |inputs| - 1
    else LastInputNamed(inputs[..|inputs| - 1], n)
  }

  /**
   * In the rebuilt query every input's name has exactly one value, the
   * trimmed value of the last input of that name; every other name keeps
   * the values of the default query.
   */
  lemma {:induction false} AppliedValues(pairs: seq<Pair>, inputs: seq<TextInput>, n: string)
    ensures var i := LastInputNamed(inputs, n);
      ValuesOf(Applied(pairs, inputs), n) == if i < 0 then ValuesOf(pairs, n) else [Trim(inputs[i].value)]
    decreases |inputs|
  {
    if inputs != [] {
      var init, last := inputs[..|inputs| - 1], inputs[|inputs| - 1];
      AppliedValues(pairs, init, n);
      SetValues(Applied(pairs, init), last.name, Trim(last.value), n);
    }
  }

  /**
   * Once a base URL is captured, later refreshes read nothing more from the
   * display, so the same inputs always give the same URL.
   */
  lemma CaptureHappensOnce(text0: string, text1: string, cache: Cache, inputs: seq<TextInput>)
    requires Captured(text0, cache).baseUrl != ""
    ensures Captured(text1, Captured(text0, cache)) == Captured(text0, cache)
    ensures RequestUrl(Captured(text1, Captured(text0, cache)), inputs) == RequestUrl(Captured(text0, cache), inputs)
  {
  }

  /**
   * An empty base URL (a display text that starts with '?') is never held,
   * so the next refresh captures again, from the URL the previous one showed.
   */
  lemma EmptyBaseIsRecaptured(text: string, cache: Cache)
    requires cache.baseUrl == "" && Trim(text) != [] && Trim(text)[0] == '?'
    ensures Captured(text, cache).baseUrl == ""
  {
    var t := Trim(text);
    assert t == [] + ['?'] + t[1..];
    IndexOfAfterFree([], '?', t[1..]);
  }

  // ----- executeRequest -----

  /** How a successful reply is shown. */
  datatype ContentKind = ImageContent | AudioContent | VideoContent | JsonContent | TextContent | OtherContent

  /**
   * The dispatch on the `content-type` header, tried in this order: a type
   * starting with "image/", then one containing "audio/", "video/",
   * "application/json" or "text/", then anything else.
   */
  function ContentKindOf(contentType: string): (k: ContentKind)
    ensures k == ImageContent <==> StartsWith(contentType, "image/")
    ensures k == AudioContent <==> !StartsWith(contentType, "image/") && Contains(contentType, "audio/")
    ensures k == VideoContent <==>
      !StartsWith(contentType, "image/") && !Contains(contentType, "audio/") && Contains(contentType, "video/")
    ensures k == JsonContent <==>
      && !StartsWith(contentType, "image/") && !Contains(contentType, "audio/") && !Contains(contentType, "video/")
      && Contains(contentType, "application/json")
    ensures k == TextContent <==>
      && !StartsWith(contentType, "image/") && !Contains(contentType, "audio/") && !Contains(contentType, "video/")
      && !Contains(contentType, "application/json") && Contains(contentType, "text/")
    ensures k == OtherContent <==>
      && !StartsWith(contentType, "image/") && !Contains(contentType, "audio/") && !Contains(contentType, "video/")
      && !Contains(contentType, "application/json") && !Contains(contentType, "text/")
  {
    if StartsWith(contentType, "image/") then ImageContent
    else if Contains(contentType, "audio/") then AudioContent
    else if Contains(contentType, "video/") then VideoContent
    else if Contains(contentType, "application/json") then JsonContent
    else if Contains(contentType, "text/") then TextContent
    else OtherContent
  }

  /** What `response.json()` gives: a value, or the parse error's message. */
  datatype JsonBody = JsonValue(value: JsValue) | JsonSyntaxError(message: string)

  /** What `fetch(url, ...)` gave. */
  datatype FetchOutcome =
    | NetworkFailure(message: string)
    | Received(ok: bool, status: int, statusText: string, contentType: Option<string>, body: JsonBody)

  /** What the response panel ends up showing. */
  datatype RequestView =
    | MissingParameters               // a toast; no request is sent
    | Failed(message: string)         // the error panel with this message
    | Shown(kind: ContentKind, status: int)

  /** `error.message || 'Unknown error occurred'`. */
  function ErrorMessage(message: string): (m: string)
    ensures m != ""
    ensures message != "" ==> m == message
    ensures message == "" ==> m == "Unknown error occurred"
  {
    if message != "" then message else "Unknown error occurred"
  }

  /** `data && typeof data === 'object' && data.error`: an object with a truthy `error`. */
  predicate IsApiError(data: JsValue) {
    data.Obj? && Truthy(Get(data, "error"))
  }

  /**
   * `executeRequest` after the URL is rebuilt: missing parameters stop it;
   * a network failure or a non-2xx status is an error; a JSON reply whose
   * body carries a truthy `error` is an error too; anything else is shown
   * according to its content type.
   */
  function ExecuteRequest(hasErrors: bool, outcome: FetchOutcome): (view: RequestView)
    ensures view == MissingParameters <==> hasErrors
    ensures !hasErrors && outcome.NetworkFailure? ==> view == Failed(ErrorMessage(outcome.message))
    ensures !hasErrors && outcome.Received? && !outcome.ok ==>
      view == Failed("HTTP " + DecimalString(outcome.status) + ": " + outcome.statusText)
    ensures (&& !hasErrors && outcome.Received? && outcome.ok
             && ContentKindOf(outcome.contentType.GetOr("")) == JsonContent && outcome.body.JsonSyntaxError?) ==>
      view == Failed(ErrorMessage(outcome.body.message))
    ensures view.Shown? ==>
      && outcome.Received? && outcome.ok
      && view.kind == ContentKindOf(outcome.contentType.GetOr("")) && view.status == outcome.status
  {
    if hasErrors then MissingParameters
    else
      match outcome
      case NetworkFailure(m) => Failed(ErrorMessage(m))
      case Received(ok, status, statusText, contentType, body) =>
        if !ok then Failed(ErrorMessage("HTTP " + DecimalString(status) + ": " + statusText))
        else
          var kind := ContentKindOf(contentType.GetOr(""));
          if kind != JsonContent then Shown(kind, status)
          else
            match body
            case JsonSyntaxError(m) => Failed(ErrorMessage(m))
            case JsonValue(data) =>
              if IsApiError(data) then Failed(ErrorMessage("API Error: " + ToJsString(Get(data, "error"))))
              else Shown(kind, status)
  }

  /**
   * A successful JSON reply fails exactly when its body is an object with a
   * truthy `error`, and the message then carries that error's text.
   */
  lemma JsonErrorFieldFails(status: int, statusText: string, contentType: string, data: JsValue)
    requires ContentKindOf(contentType) == JsonContent
    ensures ExecuteRequest(false, Received(true, status, statusText, Some(contentType), JsonValue(data))).Failed?
        <==> data.Obj? && "error" in data.props && Truthy(data.props["error"])
    ensures IsApiError(data) ==>
      ExecuteRequest(false, Received(true, status, statusText, Some(contentType), JsonValue(data)))
        == Failed("API Error: " + ToJsString(data.props["error"]))
  {
  }

  /** Only a JSON reply has its body read: for every other kind the body makes no difference. */
  lemma OnlyJsonBodyIsRead(status: int, statusText: string, contentType: Option<string>, b1: JsonBody, b2: JsonBody)
    requires ContentKindOf(contentType.GetOr("")) != JsonContent
    ensures ExecuteRequest(false, Received(true, status, statusText, contentType, b1))
         == ExecuteRequest(false, Received(true, status, statusText, contentType, b2))
         == Shown(ContentKindOf(contentType.GetOr("")), status)
  {
  }

  /** A failure always has a message. */
  lemma FailuresAreExplained(hasErrors: bool, outcome: FetchOutcome)
    ensures ExecuteRequest(hasErrors, outcome).Failed? ==> ExecuteRequest(hasErrors, outcome).message != ""
  {
  }
}
