# A Dafny model of the lookup, HD and docs-page logic of restapi-dndoffc

This project models three pieces of the REST API site in Dafny 4.11 and proves
properties of them.

- **api/cekml.js**, the Mobile Legends account lookup. Gempay is asked first
  and APIGames second. Each provider's HTTP outcome becomes a found or
  not-found record. An HTTP handler checks the API key, then `uid` and `zone`,
  and shapes the JSON reply. The network, the three environment variables and
  the MD5 digest are parameters. Every function also returns the outbound
  requests it made, so "no request is made" and "APIGames is not asked" are
  stated and proved.
- **api/hd.js**, the HD enhancer's planning: Node's POSIX `path.extname`,
  `parseInt`, the scale clamp, the mode, the image/video decision, the input
  and output extensions, the reply's MIME type and the exact ffmpeg argument
  list. The handler `run` is a method that follows the source step by step.
  The download result, the temporary directory, whether ffmpeg succeeds on a
  given argument list and whether the output file can be read back are its
  parameters.
- **src/script.js**, the documentation page without the DOM:
  - the search filter of `handleSearch`, as two loop methods proved against a
    filter function;
  - `extractParameters` over a simplified form-urlencoded parser (WHATWG URL
    Standard, section 5.1, without percent-encoding);
  - the type and description labels;
  - `updateRequestUrl`, a class holding the display text and its cached base
    URL and default query, with the required-field check and the `set` loop;
  - the content-type dispatch and error handling of `executeRequest`.

Modules:

| file | module | contents |
|---|---|---|
| wrappers.dfy | `Wrappers` | `Option` |
| text.dfy | `Text` | ASCII `toLowerCase`, `trim`, `includes`, `startsWith`, `indexOf`, `lastIndexOf`, `split`/`join` |
| seqs.dfy | `Seqs` | `FilterMap`, the "walk and push" pattern, with its order and membership laws |
| js.dfy | `Js` | JSON values, truthiness, `\|\|`, `?.`, `parseInt`, `String(n)` |
| query.dfy | `Query` | query-parameter presence and the API-key gate shared by both endpoints |
| cekml.dfy | `CekMl` | api/cekml.js |
| hd.dfy | `Hd` | api/hd.js |
| form_urlencoded.dfy | `FormUrlEncoded` | the `URLSearchParams` list: parse, `set`, `getAll`, `toString` |
| docs_search.dfy | `DocsSearch` | `handleSearch` |
| docs_params.dfy | `DocsParams` | `extractParameters`, `getParamType`, `getParamDescription` |
| docs_request.dfy | `DocsRequest` | `updateRequestUrl`, `executeRequest` |

Where the code and the documented behaviour differ, the model follows
the code:

- A failed lookup reply always names provider "none". The failure record
  built by `checkML` has no `provider` field (api/cekml.js:96, 124).
- The reply echoes `uid` and `zone` as given, while the lookup uses the
  trimmed values (api/cekml.js:115-121).
- A `uid` of white space only passes the `!uid` check and is looked up as ""
  (`CekMl.BlankUidIsLookedUp`).
- `path.extname` keeps a URL's query string on the extension. So
  `https://x/a.mp4?t=1` is not recognised as a video by its extension
  (`Hd.QueryStringHidesExtension`).

## Model

| member | source | states |
|---|---|---|
| CekMl.SafeFetchJson | api/cekml.js:29-39 | `ok` is exactly a 2xx response. A transport failure gives status 0 and exactly `{ error: message }`. A body that is not JSON gives exactly `{ raw: text }`, and a JSON body is passed on unchanged. |
| CekMl.ApigamesSignature | api/cekml.js:24-27 | The signature is empty exactly when the merchant id or the secret is empty. Otherwise it is the MD5 of the two concatenated. |
| CekMl.ClassifyGempay | api/cekml.js:54-62 | Found exactly on a 2xx reply with a truthy `success`. A non-2xx reply gives "Gempay HTTP <status>". A failed check gives `message` or "Gempay: invalid", always truthy, with `raw`. A success has nickname `username` or "", region `region` or "Unknown", and provider "gempay". |
| CekMl.CheckViaGempay | api/cekml.js:41-63 | No key means no request and "GEMPAY_API_KEY not set". Otherwise exactly one POST carrying the key, `uid` and `zone` is made and its reply is classified. |
| CekMl.ClassifyApigames | api/cekml.js:74-84 | Found exactly on a 2xx reply with a truthy `data.is_valid`. A non-2xx reply gives "APIGames HTTP <status>". A failed check gives `message` or "Not found". A success has region "Unknown" and provider "apigames". |
| CekMl.CheckViaApigames | api/cekml.js:65-85 | No signature means no request and "APIGames ENV not set". Otherwise exactly one GET with the merchant id, the uid and the signature is made and its reply is classified. |
| CekMl.CheckML | api/cekml.js:87-97 | A Gempay success is returned as it is. Otherwise APIGames' outcome is returned, with the requests of both in order, and a double failure carries APIGames' error. |
| CekMl.CheckMLCalls | api/cekml.js:87-97 | At most two requests are made, a Gempay request can only be first and an APIGames request only last. A success names one of the two providers, and a failure always has a truthy error. |
| CekMl.GempaySuccessSkipsFallback | api/cekml.js:89-90 | After a Gempay success the provider is "gempay" and no APIGames request is made. |
| CekMl.UnconfiguredMakesNoRequest | api/cekml.js:41-67 | With neither provider configured the lookup fails with "APIGames ENV not set" and makes no request. |
| CekMl.Run | api/cekml.js:105-137 | The API key is checked before `uid`/`zone`, and each rejection makes no request. A request with an accepted key, a `uid` and a `zone` is never rejected. A lookup uses the trimmed values and echoes the given ones. A failure reply has nickname "", region "Unknown", provider "none" and a truthy error. The reply is found exactly when `checkML` on the trimmed values finds the account. A success carries its nickname, its region or "Unknown", and its provider. A failure carries its error or "Lookup failed". |
| CekMl.BothFailReportsFallbackError | api/cekml.js:87-126 | When both providers fail, the reply carries APIGames' error, not Gempay's and not "Lookup failed". |
| CekMl.BlankUidIsLookedUp | api/cekml.js:111-115 | Any `uid` of white space only (with a valid key and a zone) passes validation. With a Gempay key configured, the first request is a Gempay check of the empty id. |
| Hd.StripTrailingSlashes | api/hd.js:20 | The result is a prefix of the path and does not end in '/'. Every character dropped is a '/'. |
| Hd.LastSegment | api/hd.js:20 | The result is a suffix of the path without '/', and it is the whole path or follows a '/'. |
| Hd.SegmentExtension | api/hd.js:20 | The extension of a name is empty or is the name's suffix from its last dot. It is empty exactly for ".." or a name with no dot after its first character. |
| Hd.Extname | api/hd.js:20 | The extension is empty or starts with its only dot and holds no '/'. It is the extension of the last segment once trailing slashes are dropped. |
| Hd.ExtnameOfPlainName | api/hd.js:20 | A last segment with no dot has no extension. |
| Hd.ExtnameIgnoresTrailingSlash | api/hd.js:20 | A trailing '/' does not change the extension. |
| Hd.ExtnameOfParent | api/hd.js:20 | A path ending in ".." has no extension. |
| Hd.IsLikelyImageByExt | api/hd.js:19-22 | The image test holds for a lowercased extension in the image list. `Hd.ImageFileIsImage` proves it for every `dir/stem.ext` with such an extension. |
| Hd.ImageFileIsImage | api/hd.js:19-22 | A file named with an image extension, in any letter case, is a likely image and is treated as an image unless video is requested. |
| Hd.IsLikelyVideoByExt | api/hd.js:23-26 | The video test holds for a lowercased extension in the video list. `Hd.VideoFileIsVideo` proves it for every `dir/stem.ext` with such an extension. |
| Hd.LikelyKindsExclusive | api/hd.js:19-26 | No URL is both a likely image and a likely video. |
| Hd.ExtnameOfFile | api/hd.js:24 | For `dir/stem.ext` with a non-empty stem, `path.extname` is `.ext`. |
| Hd.ExtnameOfDotFile | api/hd.js:37-38 | A name whose only dot leads it has no extension, so `extFromMime("", url)` gives ".bin". |
| Hd.VideoFileIsVideo | api/hd.js:123-126 | A file named with a video extension, in any letter case, is a likely video and is a video when no type is given. |
| Hd.QueryStringHidesExtension | api/hd.js:123-127 | A query string after the extension makes the URL neither a likely video nor a likely image, so it is treated as an image. |
| Hd.NoKnownExtensionHasQueryMark | api/hd.js:19-26 | None of the eight known extensions contains '?'. |
| Hd.ExtFromMime | api/hd.js:27-39 | The result starts with a dot. A non-empty MIME type is tested in order: "png" gives ".png", then "jpeg" or "jpg" gives ".jpg", then "webp", "mp4", "quicktime" (".mov") and "x-matroska" (".mkv"). A MIME type that is empty or matches none of them falls back to the lowercased URL extension, or ".bin" when there is none. |
| Hd.MimeFromExt | api/hd.js:40-46 | Video, and only video, gives "video/mp4". An image gives image/png exactly for ".png" and image/webp exactly for ".webp" in any case, and image/jpeg otherwise. |
| Hd.SafeInt | api/hd.js:47-50 | The value is `parseInt` of the text (of "undefined" when missing) when that is finite, and the default otherwise. |
| Hd.MissingScaleIsDefault | api/hd.js:47-50 | A missing value reads as "undefined", which parses to NaN, so the default is used and the scale is 2. |
| Hd.EffectiveScale | api/hd.js:47-119 | The scale is in [1, 4]. It is 2 when `parseInt` is not finite, and the parsed value clamped to [1, 4] otherwise. |
| Hd.EffectiveScaleOfDigit | api/hd.js:119 | A scale of "1" to "4" is used as that number. |
| Hd.HugeScaleFallsBackToDefault | api/hd.js:47-50 | A digit string beyond the double range parses to Infinity, so the scale is the default 2, not 4. |
| Hd.ModeOf | api/hd.js:120 | The mode is quality exactly when the query value is "quality". |
| Hd.KindOf | api/hd.js:123-127 | The kind is video exactly when `type` is "video", or `type` is not "image" and the URL has a video extension. Every other case is an image. |
| Hd.OutExt | api/hd.js:140 | ".mp4" exactly for video. ".png" exactly for an image whose input extension is ".png". ".jpg" otherwise. |
| Hd.ScaleFactor | api/hd.js:66 | The factor is at least 1 and equals any scale that is at least 1. A scale of 0 gives 2 and a negative scale gives 1. |
| Hd.FilterChainScale | api/hd.js:69-85 | The filter chain starts with "scale=iw*" followed by the factor, which `parseInt` reads back. |
| Hd.EnhanceArgs | api/hd.js:65-103 | Image arguments are exactly `-y -i in -vf vf out`. Video arguments are exactly the 18 of `-y -i in -vf vf -c:v libx264 -preset P -crf C -pix_fmt yuv420p -c:a aac -b:a 128k out`, with P/C "medium"/"19" for quality and "veryfast"/"22" for fast. |
| Hd.Run | api/hd.js:111-178 | The API key is checked, then `url`, then the download, and each has its error reply. The reply's MIME type follows the kind and the output extension and is video/mp4, image/png or image/jpeg. `used_ffmpeg` is whether ffmpeg succeeded on exactly the planned arguments. The output file is returned when readable, otherwise the input. The note is empty exactly when both succeeded and names the first failure otherwise. |
| Js.Or | api/cekml.js:55-60 | `a \|\| b` is `a` when `a` is truthy and `b` otherwise, so it is truthy whenever `b` is. |
| Js.ParseIntSkipsSign | api/hd.js:48 | `parseInt` of a text with no leading white space reads the digits after one optional sign, negated after '-'. |
| Js.ParseIntDecimal | api/hd.js:48 | `parseInt` reads back the decimal text of any integer a double holds finitely, whatever non-digit text follows. |
| Text.TrimEmptyIff | src/script.js:294-297 | A string trims to "" exactly when all its characters are ECMAScript white space. |
| Text.TrimStartSpec | src/script.js:294 | Trimming the start keeps a suffix that starts with no white space and drops only white space. |
| Text.TrimEndSpec | src/script.js:501 | Trimming the end keeps a prefix that ends with no white space and drops only white space. |
| Text.Split | src/script.js:491 | `split` gives at least one piece, no piece holds the separator, and joining the pieces gives the string back. |
| Text.SplitJoin | src/script.js:491 | Splitting a join of separator-free pieces gives the pieces back. |
| Seqs.FilterMapConcat | src/script.js:310-336 | The walk-and-push pattern keeps order: filtering a concatenation concatenates the filtered parts. |
| Seqs.FilterMapMembership | src/script.js:406-415 | A value is pushed exactly when some element maps to it. |
| FormUrlEncoded.ParsedPairsAreSeparatorFree | src/script.js:404 | Every pair read has a name without '=' or '&' and a value without '&'. |
| FormUrlEncoded.SerializeEmptyIff | src/script.js:511 | The written query is empty exactly when there are no pairs. |
| FormUrlEncoded.SetKeepsPlace | src/script.js:508 | `set` puts the new pair where the first pair of that name was, or at the end. The pairs of all other names stay unchanged and in order. |
| FormUrlEncoded.PairOf | src/script.js:404 | An empty piece gives no pair. Otherwise the name runs up to the first '=' and the value is the rest, or "" with no '='. |
| FormUrlEncoded.ParseSerialize | src/script.js:496-511 | Reading back a written list gives the list, when no name or value holds a separator and the first name does not start with '?'. Empty names are allowed. |
| FormUrlEncoded.SetValues | src/script.js:508 | After `set(name, value)`, `name` has exactly the one value and every other name keeps its values in order. |
| FormUrlEncoded.FirstNamed | src/script.js:508 | The position found is that of the first pair with the name, or -1 when there is none. |
| DocsSearch.KeepMatchingItems | src/script.js:313-328 | The inner loop pushes exactly the matching present items, in order. |
| DocsSearch.KeepMatchingCategories | src/script.js:310-336 | The outer loop pushes exactly the filtered categories, in order. |
| DocsSearch.HandleSearch | src/script.js:293-348 | The view is the one the search function describes: everything, the filtered list, or "no results". |
| DocsSearch.BlankTermShowsEverything | src/script.js:294-303 | A term that is white space once lowercased shows the loaded categories unchanged. |
| DocsSearch.KeptItemIff | src/script.js:315-328 | An item is kept exactly when it is present and the term occurs in its name, description, path, method or category name. |
| DocsSearch.CategoryNameMatchKeepsAll | src/script.js:323 | When the category name matches, every present item of it is kept. |
| DocsSearch.CategoryStepSpec | src/script.js:311-335 | A category is kept exactly when it has items and one matches. It keeps its other fields, and its items are replaced by the matching ones. |
| DocsSearch.FilteredCategoriesMatch | src/script.js:310-336 | Every category in the result has a non-empty item list whose items all match. |
| DocsSearch.FilterKeepsOrder | src/script.js:310-336 | Categories keep their order: the filter distributes over concatenation. |
| DocsSearch.NoResultsIff | src/script.js:297-343 | "No results" is shown exactly when the term is not blank and no category keeps an item. |
| DocsSearch.Entries | src/script.js:331-334 | The copied item list has the kept items, one present entry each, in order. |
| DocsParams.ParamType | src/script.js:423-436 | The type is "number" for `limit` and "string" for every other name. |
| DocsParams.ParamDescription | src/script.js:438-451 | A known name gets its non-empty table text, and any other name gets itself. |
| DocsParams.ReadProperty | src/script.js:435-450 | A lookup is absent exactly for a name that is neither in the table nor an `Object.prototype` member. |
| DocsParams.PrototypeNameLabelsWrongly | src/script.js:435-450 | The code as written labels `constructor` with an inherited method, where "string" and the name itself are intended. |
| DocsParams.ParamTypeAsWritten | src/script.js:435 | The type as written is an inherited member exactly for an `Object.prototype` name outside the type table. Otherwise it is the intended type. |
| DocsParams.ParamDescriptionAsWritten | src/script.js:450 | The description as written is an inherited member exactly for an `Object.prototype` name outside the description table. Otherwise it is the intended description. |
| DocsParams.AsWrittenAgrees | src/script.js:423-451 | For names that are not `Object.prototype` members, the lookups as written agree with the intended labels. |
| DocsParams.ExtractParameters | src/script.js:395-421 | The fields are those of the path's query: none without a path or a non-empty query. |
| DocsParams.PushRequired | src/script.js:406-415 | The `for...of` loop pushes one required field per placeholder pair, in query order. |
| DocsParams.NoQueryNoParams | src/script.js:399-401 | A path without '?' has no fields. |
| DocsParams.OnlyFirstQueryIsRead | src/script.js:399 | Only the text between the first and the second '?' is read. |
| DocsParams.RequiredParamsIff | src/script.js:406-414 | A field is produced exactly for a name whose value is '' or 'YOUR_API_KEY', and it is required, with that name's labels. |
| DocsParams.RequiredParamsKeepOrder | src/script.js:406-415 | Fields come in query order. |
| DocsRequest.CaptureReadsText | src/script.js:489-494 | The captured base URL and default query hold no '?'. The trimmed text starts with the base URL, followed by '?' and the default query when that is not empty. |
| DocsRequest.HasErrorsIff | src/script.js:505-507 | The error flag is raised exactly when some required input is empty once trimmed. |
| DocsRequest.ApplyInputs | src/script.js:498-509 | The loop sets each input's trimmed value in order and raises the flag exactly as `HasErrors` says. |
| DocsRequest.UrlDisplay.Capture | src/script.js:489-494 | The cache is filled from the trimmed text only while no base URL is held, and the text is kept. |
| DocsRequest.UrlDisplay.Refresh | src/script.js:488-514 | After capture, the URL is the base URL, '?' and the default query with the inputs set, and the display shows it. |
| DocsRequest.UpdateRequestUrl | src/script.js:481-515 | No form or no display gives an empty URL without errors and changes nothing. Otherwise the cache is captured as in `Captured`, and the URL and the flag are those of the refreshed display. |
| DocsRequest.AppliedValues | src/script.js:498-511 | In the rebuilt query, an input's name has exactly the trimmed value of its last input, and other names keep their default values. |
| DocsRequest.CaptureHappensOnce | src/script.js:489-496 | Once a base URL is held, later calls read nothing from the display, so the same inputs give the same URL. |
| DocsRequest.EmptyBaseIsRecaptured | src/script.js:489-492 | A display text starting with '?' captures an empty base URL, so the next call captures again. |
| DocsRequest.ContentKindOf | src/script.js:571-625 | The kind is decided in this order: prefix "image/", then contains "audio/", "video/", "application/json", "text/", then anything else. Each kind, text and other included, holds exactly when the earlier tests fail and its own holds. |
| DocsRequest.ErrorMessage | src/script.js:632 | The message shown is never empty. It is the error's message when that is non-empty, and "Unknown error occurred" otherwise. |
| DocsRequest.ExecuteRequest | src/script.js:517-646 | Missing parameters stop the request exactly when the error flag is raised. A network failure shows its message. A non-2xx reply shows "HTTP <status>: <text>". A 2xx JSON reply whose body does not parse shows the parse error's message. Anything shown is a 2xx reply, with its status and the kind of its content type. |
| DocsRequest.JsonErrorFieldFails | src/script.js:601-606 | A 2xx JSON reply fails exactly when its body is an object with a truthy `error`, and the message is "API Error: " and that error's text. |
| DocsRequest.OnlyJsonBodyIsRead | src/script.js:571-625 | For non-JSON kinds the body makes no difference to what is shown. |
| DocsRequest.FailuresAreExplained | src/script.js:522-632 | Every failure has a non-empty message. |

## Left out

- Network I/O (`fetch` in api/cekml.js and src/script.js, `global.getBuffer` in api/hd.js): the replies are parameters.
- MD5 (RFC 1321): a parameter returning 32 characters.
- ffmpeg, `mkdtemp`, file writes, copies, reads and deletes, and base64 encoding: whether ffmpeg succeeds on an argument list and whether the output file reads back are parameters. `Hd.Run` does not model a failure to read the input file at api/hd.js:164, which would end the request with an exception.
- The DOM, HTML templating, toasts, status and timing text, clipboard, timers, the active-user counter and `escapeHtml`. This includes the "Response elements not found" stop at src/script.js:532-535 and the `blob()`/`text()` reads of the body, which are taken to succeed.
- Process-wide state: `global.apikey`, the loaded categories and the environment variables are parameters.
- Unicode `toLowerCase`: only the ASCII letters are lowered.
- Percent-encoding and decoding, and '+' as space, in `URLSearchParams`: pairs are split on '&' and the first '='. `encodeURIComponent` in the APIGames URL is not modelled. The request carries the raw values.
- `String(uid)` for an array-valued query parameter (`?uid=a&uid=b`): query values are modelled as strings.
- JSON numbers are kept to integers. `Hd.SafeInt` does not model the rounding of a long digit string to a double, which `Math.min(4, ·)` makes irrelevant. Negative zero is read as 0.
- `path.join` normalisation: the temporary directory comes from `mkdtemp` and is taken as already normal.
- `DocsRequest.ExecuteRequest` covers the outcome only (missing parameters, the error message, or the kind shown with its status). It does not cover what is rendered.
- The `try`/`catch` around `URLSearchParams` in `extractParameters`: parsing a string never throws.

## Findings

| source | as written | input that shows it | evidently intended | confidence | as-written member | corrected member |
|---|---|---|---|---|---|---|
| src/script.js:423-451 | `types[paramName] \|\| 'string'` and `descriptions[paramName] \|\| paramName` read object literals, which inherit the `Object.prototype` members | a sample path `/x?constructor=` gives a field whose type and description are the inherited `Object` constructor function | type "string" and description "constructor" for any name outside the tables | high, not executed | DocsParams.PrototypeNameLabelsWrongly | DocsParams.ParamType |

`DocsParams.ParamTypeAsWritten` and `DocsParams.ParamDescriptionAsWritten`
model the lookups as written. `DocsParams.ParamType` and
`DocsParams.ParamDescription` are the corrected definitions, and the form
fields use them. `DocsParams.AsWrittenAgrees` shows that the two agree away
from the `Object.prototype` names.
