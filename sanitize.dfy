/** The second definition of `sanitizeURLPathPrefix`, written out again in its own file. */
module Sanitize {
  import UrlPath

  /** `sanitizeURLPathPrefix` as this file defines it: an optional '/', the prefix, an optional '/'. */
  function SanitizeURLPathPrefix(urlPathPrefix: string): (r: string)
    ensures urlPathPrefix == "" ==> r == "/"
    ensures UrlPath.StartsWithSlash(r) && UrlPath.EndsWithSlash(r)
    ensures r == urlPathPrefix || r == "/" + urlPathPrefix || r == urlPathPrefix + "/" || r == "/" + urlPathPrefix + "/"
    ensures |r| <= |urlPathPrefix| + 2
  {
    var p := if |urlPathPrefix| == 0 then "/" else urlPathPrefix;
    var p' := if p[0] != '/' then "/" + p else p;
    if p'[|p'| - 1] != '/' then p' + "/" else p'
  }

  lemma SanitizeIdempotent(urlPathPrefix: string)
    ensures SanitizeURLPathPrefix(SanitizeURLPathPrefix(urlPathPrefix)) == SanitizeURLPathPrefix(urlPathPrefix)
  {
  }

  /** The two definitions of the same Go function agree on every input. */
  lemma AgreesWithUrlPath(urlPathPrefix: string)
    ensures SanitizeURLPathPrefix(urlPathPrefix) == UrlPath.SanitizeURLPathPrefix(urlPathPrefix)
  {
  }
}
