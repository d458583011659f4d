/** The backend that serves a zip archive by handing rewritten requests to an archive
    content server, until it is closed. */
module ZipArchive {
  import opened Wrappers
  import opened HttpServeFile
  import UrlPath
  import FileSystem

  /** The archive content server this backend delegates to. How it finds entries in the
      archive is its own business; here it records the requests it receives and whether
      it has been closed, and its `Close` fails with `closeError` if that is set. */
  class ZipArchiveContentServer {
    const zipFilePath: string
    const zipPathPrefix: string
    const zipDefaultContentPath: string
    const closeError: Option<Error>
    var received: seq<Request>
    var closed: bool

    constructor (zipFilePath: string, zipPathPrefix: string, zipDefaultContentPath: string, closeError: Option<Error>)
      ensures this.zipFilePath == zipFilePath && this.zipPathPrefix == zipPathPrefix
      ensures this.zipDefaultContentPath == zipDefaultContentPath && this.closeError == closeError
      ensures received == [] && !closed
    {
      this.zipFilePath := zipFilePath;
      this.zipPathPrefix := zipPathPrefix;
      this.zipDefaultContentPath := zipDefaultContentPath;
      this.closeError := closeError;
      received := [];
      closed := false;
    }

    method ServeHTTP(r: Request)
      modifies this
      ensures received == old(received) + [r] && closed == old(closed)
    {
      received := received + [r];
    }

    method Close() returns (err: Option<Error>)
      modifies this
      ensures closed && err == closeError && received == old(received)
    {
      closed := true;
      err := closeError;
    }
  }

  /** The forwarded path: the target with exactly one '/' put in front when it has none. */
  function ForwardedPath(targetFileName: string): (path: string)
    requires targetFileName != ""
    ensures UrlPath.StartsWithSlash(path)
    ensures path == targetFileName || path == "/" + targetFileName
    ensures UrlPath.StartsWithSlash(targetFileName) <==> path == targetFileName
  {
    if targetFileName[0] != '/' then "/" + targetFileName else targetFileName
  }

  /** Rewriting a forwarded path again changes nothing. */
  lemma ForwardedPathIdempotent(targetFileName: string)
    requires targetFileName != ""
    ensures ForwardedPath(ForwardedPath(targetFileName)) == ForwardedPath(targetFileName)
  {
  }

  /** `ServeZipArchive.ServeHTTP`, as a decision. A closed archive answers 502 before any
      path logic; otherwise the target is resolved with the same inverted substitution test
      as the file-system backend, an empty target is 404, and anything else is forwarded in
      a copy of the request that differs only in its URL path, which starts with '/'. */
  function Decide(open: bool, urlPathPrefixLen: int, r: Request, defaultFileName: string, targetFileName: string): (o: Outcome)
    requires urlPathPrefixLen >= 1
    ensures !open ==> o == BadGateway
    ensures open ==> var name := FileSystem.TargetFileName(urlPathPrefixLen, r.url.path, defaultFileName, targetFileName);
      && (o == NotFound <==> name == "")
      && (name != "" ==> o.Forward? && o.request.url.path == ForwardedPath(name))
    ensures o.BadGateway? || o.NotFound? || o.Forward?
    ensures o.Forward? ==> UrlPath.StartsWithSlash(o.request.url.path)
    ensures o.Forward? ==> o.request.verb == r.verb && o.request.header == r.header && o.request.url.(path := r.url.path) == r.url
  {
    if !open then BadGateway
    else
      var name := FileSystem.TargetFileName(urlPathPrefixLen, r.url.path, defaultFileName, targetFileName);
      if name == "" then NotFound
      else Forward(r.(url := r.url.(path := ForwardedPath(name))))
  }

  /** `ServeZipArchive`: the prefix length and the archive content server, `null` once closed. */
  class ServeZipArchive {
    const urlPathPrefixLen: int
    var zipContentServer: ZipArchiveContentServer?

    predicate Valid()
    {
      urlPathPrefixLen >= 1
    }

    constructor (urlPathPrefixLen: int, zipContentServer: ZipArchiveContentServer)
      requires urlPathPrefixLen >= 1
      ensures Valid()
      ensures this.urlPathPrefixLen == urlPathPrefixLen && this.zipContentServer == zipContentServer
    {
      this.urlPathPrefixLen := urlPathPrefixLen;
      this.zipContentServer := zipContentServer;
    }

    /** Answers as `Decide` says and hands a forwarded request to the archive content
        server; the caller's request, a value, is never changed. */
    method ServeHTTP(r: Request, defaultFileName: string, targetFileName: string) returns (o: Outcome)
      requires Valid()
      modifies zipContentServer
      ensures o == Decide(zipContentServer != null, urlPathPrefixLen, r, defaultFileName, targetFileName)
      ensures zipContentServer != null && o.Forward? ==>
        zipContentServer.received == old(zipContentServer.received) + [o.request] && zipContentServer.closed == old(zipContentServer.closed)
      ensures zipContentServer != null && !o.Forward? ==> unchanged(zipContentServer)
    {
      if zipContentServer == null {
        return BadGateway;
      }
      var name := targetFileName;
      if name == "" {
        if |r.url.path| > urlPathPrefixLen {
          name := r.url.path[urlPathPrefixLen..];
        }
        if (name == "/") == (name == "") {
          name := defaultFileName;
        }
      }
      if name == "" {
        return NotFound;
      }
      if name[0] != '/' {
        name := "/" + name;
      }
      var r2 := r.(url := r.url.(path := name));
      zipContentServer.ServeHTTP(r2);
      o := Forward(r2);
    }

    /** The first call closes the archive content server and drops it; later calls do nothing. */
    method Close() returns (err: Option<Error>)
      modifies this, zipContentServer
      ensures zipContentServer == null
      ensures old(zipContentServer) == null ==> err == None
      ensures old(zipContentServer) != null ==>
        err == old(zipContentServer).closeError && old(zipContentServer).closed
        && old(zipContentServer).received == old(zipContentServer.received)
    {
      if zipContentServer == null {
        return None;
      }
      err := zipContentServer.Close();
      zipContentServer := null;
    }
  }

  /** `NewServeZipArchiveWithPrefixLength`. An empty archive path is refused before the archive
      content server is built, so its failure `openError` is never consulted; a prefix length
      below 1 becomes 1. The server's `Close` failure is given as `closeError`. */
  method NewServeZipArchiveWithPrefixLength(urlPathPrefixLen: int, zipFilePath: string, zipPathPrefix: string, zipDefaultContentPath: string,
                                            openError: Option<Error>, closeError: Option<Error>)
    returns (s: ServeZipArchive?, err: Option<Error>)
    ensures zipFilePath == "" ==> s == null && err == Some(EmptyContentStoragePath)
    ensures zipFilePath != "" && openError.Some? ==> s == null && err == openError
    ensures zipFilePath != "" && openError.None? ==>
      && err == None && s != null && fresh(s) && s.Valid()
      && s.urlPathPrefixLen == (if urlPathPrefixLen < 1 then 1 else urlPathPrefixLen)
      && s.zipContentServer != null && fresh(s.zipContentServer)
      && s.zipContentServer.zipFilePath == zipFilePath && s.zipContentServer.zipPathPrefix == zipPathPrefix
      && s.zipContentServer.zipDefaultContentPath == zipDefaultContentPath && s.zipContentServer.closeError == closeError
      && s.zipContentServer.received == [] && !s.zipContentServer.closed
  {
    if zipFilePath == "" {
      return null, Some(EmptyContentStoragePath);
    }
    if openError.Some? {
      return null, openError;
    }
    var server := new ZipArchiveContentServer(zipFilePath, zipPathPrefix, zipDefaultContentPath, closeError);
    var len := if urlPathPrefixLen < 1 then 1 else urlPathPrefixLen;
    s := new ServeZipArchive(len, server);
    err := None;
  }

  /** `NewServeZipArchiveWithPrefix`: strips the sanitised prefix. */
  method NewServeZipArchiveWithPrefix(urlPathPrefix: string, zipFilePath: string, zipPathPrefix: string, zipDefaultContentPath: string,
                                      openError: Option<Error>, closeError: Option<Error>)
    returns (s: ServeZipArchive?, err: Option<Error>)
    ensures zipFilePath == "" ==> s == null && err == Some(EmptyContentStoragePath)
    ensures zipFilePath != "" && openError.Some? ==> s == null && err == openError
    ensures zipFilePath != "" && openError.None? ==>
      && err == None && s != null && fresh(s) && s.Valid()
      && s.urlPathPrefixLen == |UrlPath.SanitizeURLPathPrefix(urlPathPrefix)|
      && s.zipContentServer != null && fresh(s.zipContentServer)
      && s.zipContentServer.zipFilePath == zipFilePath && s.zipContentServer.zipPathPrefix == zipPathPrefix
      && s.zipContentServer.zipDefaultContentPath == zipDefaultContentPath && s.zipContentServer.closeError == closeError
      && s.zipContentServer.received == [] && !s.zipContentServer.closed
    ensures s != null ==> |urlPathPrefix| <= s.urlPathPrefixLen <= |urlPathPrefix| + 2
    ensures s != null && UrlPath.StartsWithSlash(urlPathPrefix) && UrlPath.EndsWithSlash(urlPathPrefix) ==> s.urlPathPrefixLen == |urlPathPrefix|
    ensures s == null <==> err.Some?
  {
    var sanitized := UrlPath.SanitizeURLPathPrefix(urlPathPrefix);
    s, err := NewServeZipArchiveWithPrefixLength(|sanitized|, zipFilePath, zipPathPrefix, zipDefaultContentPath, openError, closeError);
  }

  /** `NewServeZipArchive`: strips only the leading '/'. */
  method NewServeZipArchive(zipFilePath: string, zipPathPrefix: string, zipDefaultContentPath: string,
                            openError: Option<Error>, closeError: Option<Error>)
    returns (s: ServeZipArchive?, err: Option<Error>)
    ensures zipFilePath == "" ==> s == null && err == Some(EmptyContentStoragePath)
    ensures zipFilePath != "" && openError.Some? ==> s == null && err == openError
    ensures zipFilePath != "" && openError.None? ==>
      && err == None && s != null && fresh(s) && s.Valid()
      && s.urlPathPrefixLen == 1
      && s.zipContentServer != null && fresh(s.zipContentServer)
      && s.zipContentServer.zipFilePath == zipFilePath && s.zipContentServer.zipPathPrefix == zipPathPrefix
      && s.zipContentServer.zipDefaultContentPath == zipDefaultContentPath && s.zipContentServer.closeError == closeError
      && s.zipContentServer.received == [] && !s.zipContentServer.closed
    ensures s == null <==> err.Some?
  {
    s, err := NewServeZipArchiveWithPrefixLength(1, zipFilePath, zipPathPrefix, zipDefaultContentPath, openError, closeError);
  }

  // ---------------------------------------------------------------------------
  // What a request and a close do

  /** A request for the bare prefix has remainder "", which the inverted test keeps, so it gets 404. */
  lemma BarePrefixIsNotFound(urlPathPrefixLen: int, r: Request, defaultFileName: string)
    requires urlPathPrefixLen >= 1 && |r.url.path| <= urlPathPrefixLen
    ensures Decide(true, urlPathPrefixLen, r, defaultFileName, "") == NotFound
  {
  }

  /** Every remainder other than "" and "/" is replaced by the default name: the archive
      content server is asked for the default whatever name the request carried. */
  lemma EveryNameForwardsDefault(urlPathPrefixLen: int, r: Request, defaultFileName: string)
    requires urlPathPrefixLen >= 1 && defaultFileName != ""
    requires UrlPath.Remainder(r.url.path, urlPathPrefixLen) !in {"", "/"}
    ensures Decide(true, urlPathPrefixLen, r, defaultFileName, "") == Forward(r.(url := r.url.(path := ForwardedPath(defaultFileName))))
  {
  }

  /** "/content/sub/page.html" under the prefix "/content/" reaches the archive content server
      as "/index.html", not as "/sub/page.html". */
  lemma SubPageForwardsDefault(r: Request)
    requires r.url.path == "/content/sub/page.html"
    ensures Decide(true, 9, r, "index.html", "") == Forward(r.(url := r.url.(path := "/index.html")))
  {
    assert UrlPath.Remainder(r.url.path, 9) == "sub/page.html";
  }

  /** A request served before and after closing: after `Close` the same request gets 502,
      a second `Close` returns no error, and the archive content server was closed once. */
  method CloseThenServe(r: Request, defaultFileName: string, targetFileName: string, closeError: Option<Error>)
    returns (before: Outcome, first: Option<Error>, second: Option<Error>, after: Outcome)
    ensures before == Decide(true, 9, r, defaultFileName, targetFileName)
    ensures first == closeError && second == None
    ensures after == BadGateway && StatusWritten(after) == Some(502)
  {
    var server := new ZipArchiveContentServer("site.zip", "assets", "index.html", closeError);
    var s := new ServeZipArchive(9, server);
    before := s.ServeHTTP(r, defaultFileName, targetFileName);
    first := s.Close();
    assert server.closed;
    second := s.Close();
    after := s.ServeHTTP(r, defaultFileName, targetFileName);
  }
}
