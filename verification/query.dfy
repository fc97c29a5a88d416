/**
 * The request gate both endpoints open with: a query parameter is present
 * when it is a non-empty string, and the API key must be present and listed
 * in the process-wide allow-list (`global.apikey`, which may be unset).
 */
module Query {
  import opened Wrappers

  /** `!!v` for a query parameter: given and not "". */
  predicate Present(v: Option<string>) {
    v.Some? && v.value != ""
  }

  /** `apikey && global.apikey?.includes(apikey)`. */
  predicate ApiKeyAccepted(apikey: Option<string>, allowList: Option<seq<string>>) {
    Present(apikey) && allowList.Some? && apikey.value in allowList.value
  }
}
