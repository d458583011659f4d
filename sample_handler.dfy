/** The sample program's request router: requests under "/content/" go to the content
    server, one fixed path is served from a configured target, everything else is 404. */
module SampleHandler {
  import opened Wrappers
  import opened HttpServeFile
  import GoPath

  const ContentURLPathPrefix: string := "/content/"
  const ContentTargetFileName: string := ContentURLPathPrefix + "target"
  const DefaultFileName: string := "index.html"

  /** Where a request goes: to the content server with a default and a target name, or to a 404. */
  datatype Dispatch = ToContentServer(defaultFileName: string, targetFileName: string) | RespondNotFound

  /** The content server behind the handler, any of the backends. Here it records the calls
      it receives and how often it was closed; its `Close` fails with `closeError` if set. */
  class ContentServer {
    const closeError: Option<Error>
    var received: seq<(Request, string, string)>
    var closeCalls: nat

    constructor (closeError: Option<Error>)
      ensures this.closeError == closeError && received == [] && closeCalls == 0
    {
      this.closeError := closeError;
      received := [];
      closeCalls := 0;
    }

    method ServeHTTP(r: Request, defaultFileName: string, targetFileName: string)
      modifies this
      ensures received == old(received) + [(r, defaultFileName, targetFileName)] && closeCalls == old(closeCalls)
    {
      received := received + [(r, defaultFileName, targetFileName)];
    }

    method Close() returns (err: Option<Error>)
      modifies this
      ensures closeCalls == old(closeCalls) + 1 && err == closeError && received == old(received)
    {
      closeCalls := closeCalls + 1;
      err := closeError;
    }
  }

  /** The routing decision of `sampleHandler.ServeHTTP`. Because the exact target path itself
      lies under the content prefix, a request reaches the content server exactly when its
      path has that prefix; the configured target is passed only for the exact path. */
  function Route(urlPath: string, targetContentRelPath: string): (d: Dispatch)
    ensures d.ToContentServer? <==> GoPath.HasPrefix(urlPath, ContentURLPathPrefix)
    ensures d.ToContentServer? ==> d.defaultFileName == DefaultFileName
    ensures d.ToContentServer? && urlPath == ContentTargetFileName ==> d.targetFileName == targetContentRelPath
    ensures d.ToContentServer? && urlPath != ContentTargetFileName ==> d.targetFileName == ""
  {
    if urlPath == ContentTargetFileName then ToContentServer(DefaultFileName, targetContentRelPath)
    else if GoPath.HasPrefix(urlPath, ContentURLPathPrefix) then ToContentServer(DefaultFileName, "")
    else RespondNotFound
  }

  /** The exact target path also has the content prefix, so testing it first is what lets the
      configured target through: with the tests swapped it would never be used. */
  lemma {:induction false} TargetPathHasContentPrefix()
    ensures GoPath.HasPrefix(ContentTargetFileName, ContentURLPathPrefix)
    ensures ContentTargetFileName != ContentURLPathPrefix
  {
    assert ContentTargetFileName[..|ContentURLPathPrefix|] == ContentURLPathPrefix;
  }

  /** `sampleHandler`: the content server, `null` once closed, and the configured target. */
  class SampleHandler {
    var contentServer: ContentServer?
    const targetContentRelPath: string

    constructor (contentServer: ContentServer?, targetContentRelPath: string)
      ensures this.contentServer == contentServer && this.targetContentRelPath == targetContentRelPath
    {
      this.contentServer := contentServer;
      this.targetContentRelPath := targetContentRelPath;
    }

    /** Routes as `Route` says. The handler calls its content server without checking it, so a
        server must be present for paths under the content prefix; every other path is a 404
        that never touches the server, which may then be `null`. */
    method ServeHTTP(req: Request) returns (d: Dispatch)
      requires contentServer != null || !GoPath.HasPrefix(req.url.path, ContentURLPathPrefix)
      modifies contentServer
      ensures d == Route(req.url.path, targetContentRelPath)
      ensures d.ToContentServer? ==>
        contentServer.received == old(contentServer.received) + [(req, d.defaultFileName, d.targetFileName)]
        && contentServer.closeCalls == old(contentServer.closeCalls)
      ensures d.RespondNotFound? && contentServer != null ==> unchanged(contentServer)
    {
      TargetPathHasContentPrefix();
      if req.url.path == ContentTargetFileName {
        contentServer.ServeHTTP(req, DefaultFileName, targetContentRelPath);
        return ToContentServer(DefaultFileName, targetContentRelPath);
      } else if GoPath.HasPrefix(req.url.path, ContentURLPathPrefix) {
        contentServer.ServeHTTP(req, DefaultFileName, "");
        return ToContentServer(DefaultFileName, "");
      }
      d := RespondNotFound;
    }

    /** The first call closes the content server and drops it; later calls do nothing. */
    method Close() returns (err: Option<Error>)
      modifies this, contentServer
      ensures contentServer == null
      ensures old(contentServer) == null ==> err == None
      ensures old(contentServer) != null ==>
        err == old(contentServer).closeError && old(contentServer).closeCalls == old(contentServer.closeCalls) + 1
        && old(contentServer).received == old(contentServer.received)
    {
      if contentServer == null {
        return None;
      }
      err := contentServer.Close();
      contentServer := null;
    }
  }

  /** After `Close` the handler has no content server, and a request outside the content
      prefix (such as "/favicon.ico") is still answered with 404. */
  method ServeAfterClose(closeError: Option<Error>, req: Request) returns (err: Option<Error>, d: Dispatch)
    requires !GoPath.HasPrefix(req.url.path, ContentURLPathPrefix)
    ensures err == closeError && d == RespondNotFound
  {
    var server := new ContentServer(closeError);
    var h := new SampleHandler(server, "target.html");
    err := h.Close();
    d := h.ServeHTTP(req);
  }

  /** Closing the handler twice closes its content server once and reports its error once. */
  method CloseTwice(closeError: Option<Error>) returns (first: Option<Error>, second: Option<Error>, closeCalls: nat)
    ensures first == closeError && second == None && closeCalls == 1
  {
    var server := new ContentServer(closeError);
    var h := new SampleHandler(server, "target.html");
    first := h.Close();
    second := h.Close();
    closeCalls := server.closeCalls;
  }
}
