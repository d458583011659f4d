/** The URL-path helpers shared by the backends: prefix sanitising and the
    extraction of the content path that follows the prefix. */
module UrlPath {

  predicate StartsWithSlash(s: string) { s != "" && s[0] == '/' }

  predicate EndsWithSlash(s: string) { s != "" && s[|s| - 1] == '/' }

  /** `sanitizeURLPathPrefix`: each rewrite reads an index that the previous one made safe. */
  function SanitizeURLPathPrefix(urlPathPrefix: string): (r: string)
    ensures StartsWithSlash(r) && EndsWithSlash(r)
    ensures urlPathPrefix == "" ==> r == "/"
    ensures r == (if StartsWithSlash(urlPathPrefix) then "" else "/") + urlPathPrefix
                 + (if urlPathPrefix == "" || EndsWithSlash(urlPathPrefix) then "" else "/")
    ensures |urlPathPrefix| <= |r| <= |urlPathPrefix| + 2
  {
    var p := if |urlPathPrefix| == 0 then "/" else urlPathPrefix;
    var p' := if p[0] != '/' then "/" + p else p;
    if p'[|p'| - 1] != '/' then p' + "/" else p'
  }

  /** A prefix that already starts and ends with '/' is kept as it is, so sanitising twice changes nothing. */
  lemma SanitizeIdempotent(urlPathPrefix: string)
    ensures StartsWithSlash(urlPathPrefix) && EndsWithSlash(urlPathPrefix) ==> SanitizeURLPathPrefix(urlPathPrefix) == urlPathPrefix
    ensures SanitizeURLPathPrefix(SanitizeURLPathPrefix(urlPathPrefix)) == SanitizeURLPathPrefix(urlPathPrefix)
  {
  }

  /** What follows the first `urlPathPrefixLen` characters of the path, or "" when the path is
      no longer than that. Go counts bytes here; the two agree on ASCII paths. */
  function Remainder(urlPath: string, urlPathPrefixLen: int): (rest: string)
    requires urlPathPrefixLen >= 0
    ensures |urlPath| > urlPathPrefixLen ==> urlPath[..urlPathPrefixLen] + rest == urlPath
    ensures |urlPath| <= urlPathPrefixLen ==> rest == ""
  {
    if |urlPath| > urlPathPrefixLen then urlPath[urlPathPrefixLen..] else ""
  }

  /** `extractTargetContentPath`: the remainder after the prefix, or the default
      content path when that remainder is "" or "/". */
  function ExtractTargetContentPath(urlPath: string, urlPathPrefixLen: int, defaultContentPath: string): (target: string)
    requires urlPathPrefixLen >= 0
    ensures target == defaultContentPath || (|urlPath| > urlPathPrefixLen && urlPath[..urlPathPrefixLen] + target == urlPath)
    ensures (|urlPath| <= urlPathPrefixLen || urlPath == urlPath[..urlPathPrefixLen] + "/") ==> target == defaultContentPath
    ensures (|urlPath| > urlPathPrefixLen && urlPath != urlPath[..urlPathPrefixLen] + "/") ==> target == urlPath[urlPathPrefixLen..]
  {
    var rest := Remainder(urlPath, urlPathPrefixLen);
    if rest == "/" || rest == "" then defaultContentPath else rest
  }
}
