/**
 * The parameter form of an endpoint on the documentation page
 * (`extractParameters`, `getParamType` and `getParamDescription` in
 * src/script.js): the query string of the endpoint's sample path is read,
 * and every parameter left blank or holding the placeholder "YOUR_API_KEY"
 * becomes a required field with a type label and a description.
 */
module DocsParams {
  import opened Wrappers
  import opened Text
  import opened Seqs
  import opened FormUrlEncoded

  /** One field of the form. */
  datatype Param = Param(name: string, required: bool, paramType: string, description: string)

  // ----- the type and description labels -----

  const ParamTypes: map<string, string> := map[
    "apikey" := "string", "url" := "string", "question" := "string", "query" := "string",
    "prompt" := "string", "format" := "string", "quality" := "string", "size" := "string",
    "limit" := "number"]

  const ParamDescriptions: map<string, string> := map[
    "apikey" := "Your API key for authentication",
    "url" := "URL of the content to download/process",
    "question" := "Question or message to ask the AI",
    "query" := "Search query or keywords",
    "prompt" := "Text description for image generation",
    "format" := "Output format (mp4, mp3, jpg, png)",
    "quality" := "Video quality (360p, 720p, 1080p)",
    "size" := "Image dimensions (512x512, 1024x1024)",
    "limit" := "Number of results to return"]

  /** The type label: "number" for `limit` only, "string" for every other name. */
  function ParamType(name: string): (t: string)
    ensures name == "limit" ==> t == "number"
    ensures name != "limit" ==> t == "string"
  {
    if name in ParamTypes then ParamTypes[name] else "string"
  }

  /** The description: the table's text for a known name, the name itself otherwise. */
  function ParamDescription(name: string): (d: string)
    ensures name !in ParamDescriptions ==> d == name
    ensures name in ParamDescriptions ==> d != "" && d != name
  {
    if name in ParamDescriptions then ParamDescriptions[name] else name
  }

  // ----- the labels as the page computes them -----

  /**
   * The names every plain object inherits from `Object.prototype`: reading
   * one of them from an object literal that lacks it gives a method (or,
   * for `__proto__`, the prototype object itself), never `undefined`.
   */
  const ObjectPrototypeMembers: set<string> := {
    "constructor", "__defineGetter__", "__defineSetter__", "hasOwnProperty",
    "__lookupGetter__", "__lookupSetter__", "isPrototypeOf", "propertyIsEnumerable",
    "toString", "valueOf", "__proto__", "toLocaleString"}

  /** What `table[key]` reads on an object literal. */
  datatype PropertyRead = Own(text: string) | Inherited(member: string) | Absent

  function ReadProperty(table: map<string, string>, key: string): (r: PropertyRead)
    ensures r.Absent? <==> key !in table && key !in ObjectPrototypeMembers
    ensures r.Own? <==> key in table
  {
    if key in table then Own(table[key])
    else if key in ObjectPrototypeMembers then Inherited(key)
    else Absent
  }

  /** A label as the page shows it: a text, or an inherited method or object. */
  datatype Label = Plain(text: string) | PrototypeMember(member: string)

  /** `table[name] || fallback`: an inherited member is truthy and is returned as it is. */
  function LabelAsWritten(table: map<string, string>, name: string, fallback: string): (l: Label)
    ensures l.PrototypeMember? <==> name !in table && name in ObjectPrototypeMembers
    ensures l.PrototypeMember? ==> l.member == name
    ensures name in table && table[name] != "" ==> l == Plain(table[name])
    ensures l.Plain? && (name !in table || table[name] == "") ==> l.text == fallback
  {
    match ReadProperty(table, name)
    case Own(t) => if t != "" then Plain(t) else Plain(fallback)
    case Inherited(m) => PrototypeMember(m)
    case Absent => Plain(fallback)
  }

  /** `getParamType` as the page has it. */
  function ParamTypeAsWritten(name: string): (l: Label)
    ensures l.PrototypeMember? <==> name !in ParamTypes && name in ObjectPrototypeMembers
    ensures l.Plain? ==> l.text == ParamType(name)
  {
    LabelAsWritten(ParamTypes, name, "string")
  }

  /** `getParamDescription` as the page has it. */
  function ParamDescriptionAsWritten(name: string): (l: Label)
    ensures l.PrototypeMember? <==> name !in ParamDescriptions && name in ObjectPrototypeMembers
    ensures l.Plain? ==> l.text == ParamDescription(name)
  {
    LabelAsWritten(ParamDescriptions, name, name)
  }

  /**
   * A query parameter named `constructor` (or any other `Object.prototype`
   * member) is labelled with an inherited method instead of "string" and
   * described by it instead of by its name.
   */
  lemma PrototypeNameLabelsWrongly()
    ensures ParamTypeAsWritten("constructor") == PrototypeMember("constructor")
    ensures ParamType("constructor") == "string"
    ensures ParamDescriptionAsWritten("constructor") == PrototypeMember("constructor")
    ensures ParamDescription("constructor") == "constructor"
  {
    assert "constructor" !in ParamTypes && "constructor" !in ParamDescriptions;
  }

  /** Away from those names the page's lookups give exactly the intended labels. */
  lemma AsWrittenAgrees(name: string)
    requires name !in ObjectPrototypeMembers
    ensures ParamTypeAsWritten(name) == Plain(ParamType(name))
    ensures ParamDescriptionAsWritten(name) == Plain(ParamDescription(name))
  {
  }

  // ----- extractParameters -----

  /** A value the sample path leaves to the user. */
  predicate IsPlaceholder(value: string) {
    value == "" || value == "YOUR_API_KEY"
  }

  /** The form field of a parameter the user has to fill in. */
  function RequiredParam(name: string): Param {
    Param(name, true, ParamType(name), ParamDescription(name))
  }

  /** The step of the loop: a placeholder pair becomes a required field, any other pair none. */
  function ParamOf(p: Pair): Option<Param> {
    if IsPlaceholder(p.value) then Some(RequiredParam(p.name)) else None
  }

  /** The fields for a parsed query, in query order. */
  function RequiredParams(pairs: seq<Pair>): seq<Param> {
    FilterMap(pairs, ParamOf)
  }

  /** `path.split('?')[1]`: the text between the first and the second '?', if the path has a '?'. */
  function QueryOfPath(path: string): Option<string> {
    var parts := Split(path, '?');
    if |parts| >= 2 then Some(parts[1]) else None
  }

  /** The fields of a sample path: none without a path or without a non-empty query. */
  function ParamsOfPath(path: Option<string>): seq<Param> {
    if path.None? || path.value == "" then []
    else
      match QueryOfPath(path.value)
      case None => []
      case Some(q) => if q == "" then [] else RequiredParams(Parse(q))
  }

  /** `extractParameters`: a path with a non-empty query gets one field per placeholder in it. */
  method ExtractParameters(path: Option<string>) returns (params: seq<Param>)
    ensures params == ParamsOfPath(path)
  {
    params := [];
    if path.None? || path.value == "" {
      return;
    }
    var queryString := QueryOfPath(path.value);
    if queryString.None? || queryString.value == "" {
      return;
    }
    params := PushRequired(Parse(queryString.value));
  }

  /** The loop of `extractParameters` over the parsed pairs: one field pushed per placeholder, in order. */
  method PushRequired(urlParams: seq<Pair>) returns (params: seq<Param>)
    ensures params == RequiredParams(urlParams)
  {
    params := [];
    for i := 0 to |urlParams|
      invariant params == RequiredParams(urlParams[..i])
    {
      var pair := urlParams[i];
      assert urlParams[..i + 1] == urlParams[..i] + [pair];
      FilterMapSnoc(urlParams[..i], pair, ParamOf);
      if pair.value == "" || pair.value == "YOUR_API_KEY" {
        params := params + [Param(pair.name, true, ParamType(pair.name), ParamDescription(pair.name))];
      }
    }
    assert urlParams[..|urlParams|] == urlParams;
  }

  /** A path without '?' has no parameters. */
  lemma NoQueryNoParams(path: string)
    requires '?' !in path
    ensures ParamsOfPath(Some(path)) == []
  {
    assert IndexOf(path, '?') < 0;
  }

  /**
   * Only the text between the first and the second '?' is read: whatever
   * follows a second '?' is ignored.
   */
  lemma OnlyFirstQueryIsRead(before: string, query: string, rest: string)
    requires '?' !in before && '?' !in query
    requires rest == [] || rest[0] == '?'
    ensures ParamsOfPath(Some(before + "?" + query + rest)) == RequiredParams(Parse(query))
  {
    var path := before + "?" + query + rest;
    assert path == before + ['?'] + (query + rest);
    SplitAfterFree(before, '?', query + rest);
    FirstPieceOf(query, '?', rest);
    assert QueryOfPath(path) == Some(query);
    if query == "" {
      assert Split(query, '&') == [""];
    }
  }

  /** Splitting at a separator that the first part lacks cuts that part off first. */
  lemma SplitAfterFree(a: string, c: char, b: string)
    requires c !in a
    ensures Split(a + [c] + b, c) == [a] + Split(b, c)
  {
    var s := a + [c] + b;
    IndexOfAfterFree(a, c, b);
    assert s[..|a|] == a && s[|a| + 1..] == b;
  }

  /** The first piece of a split runs up to the separator that starts the rest. */
  lemma FirstPieceOf(a: string, c: char, rest: string)
    requires c !in a
    requires rest == [] || rest[0] == c
    ensures Split(a + rest, c)[0] == a
  {
    if rest == [] {
      assert a + rest == a;
      assert IndexOf(a, c) < 0;
    } else {
      assert a + rest == a + [c] + rest[1..];
      SplitAfterFree(a, c, rest[1..]);
    }
  }

  /**
   * A field is produced exactly for the names whose value in the query is
   * blank or the placeholder, and it is a required field with that name's
   * labels.
   */
  lemma RequiredParamsIff(pairs: seq<Pair>, p: Param)
    ensures p in RequiredParams(pairs) <==>
      p == RequiredParam(p.name) && exists j :: 0 <= j < |pairs| && pairs[j].name == p.name && IsPlaceholder(pairs[j].value)
  {
    FilterMapMembership(pairs, ParamOf, p);
    if p == RequiredParam(p.name) && exists j :: 0 <= j < |pairs| && pairs[j].name == p.name && IsPlaceholder(pairs[j].value) {
      var j :| 0 <= j < |pairs| && pairs[j].name == p.name && IsPlaceholder(pairs[j].value);
      assert ParamOf(pairs[j]) == Some(p);
    }
  }

  /** The fields come in the order of the query: a query split in two gives its fields piece by piece. */
  lemma RequiredParamsKeepOrder(a: seq<Pair>, b: seq<Pair>)
    ensures RequiredParams(a + b) == RequiredParams(a) + RequiredParams(b)
  {
    FilterMapConcat(a, b, ParamOf);
  }
}
