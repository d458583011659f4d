/** The backend that serves files from a directory of the local file system. */
module FileSystem {
  import opened Wrappers
  import opened GoPath
  import opened HttpServeFile
  import UrlPath

  /** `ServeFileSystem`: the length of the URL prefix to strip and the content folder. */
  datatype ServeFileSystem = ServeFileSystem(urlPathPrefixLen: int, contentFolderPath: string)
  {
    /** What every constructor establishes: a prefix length of at least 1 and a clean absolute folder. */
    predicate Valid()
    {
      urlPathPrefixLen >= 1 && IsCleanAbs(contentFolderPath)
    }
  }

  predicate IsAbsolute(p: string) { p != "" && p[0] == '/' }

  /** `filepath.Abs`: a rooted path is cleaned; a relative one is joined onto the working
      directory, whose lookup is an outside call given here as `cwd` (`None` when it fails). */
  function Abs(path: string, cwd: Option<string>): (r: Result<string, Error>)
    requires path != ""
    requires cwd.Some? ==> IsAbsolute(cwd.value)
    ensures r.Success? ==> IsCleanAbs(r.value)
    ensures IsAbsolute(path) ==> r == Success(Clean(path))
    ensures !IsAbsolute(path) && cwd.Some? ==> r == Success(Join(cwd.value, path))
    ensures r.Failure? <==> !IsAbsolute(path) && cwd.None?
  {
    if path[0] == '/' then
      CleanIdempotent(path);
      Success(Clean(path))
    else
      match cwd
      case None => Failure(WorkingDirectoryUnavailable)
      case Some(wd) =>
        CleanIdempotent(wd + "/" + path);
        Success(Join(wd, path))
  }

  /** `NewServeFileSystemWithPrefixLength`: an empty folder is refused before anything else;
      a prefix length below 1 is raised to 1, not refused. */
  function NewServeFileSystemWithPrefixLength(urlPathPrefixLen: int, contentFolderPath: string, cwd: Option<string>): (r: Result<ServeFileSystem, Error>)
    requires cwd.Some? ==> IsAbsolute(cwd.value)
    ensures contentFolderPath == "" <==> r == Failure(EmptyContentStoragePath)
    ensures r.Failure? <==> contentFolderPath == "" || (!IsAbsolute(contentFolderPath) && cwd.None?)
    ensures r.Success? ==> r.value.Valid()
    ensures r.Success? ==> r.value.urlPathPrefixLen == if urlPathPrefixLen < 1 then 1 else urlPathPrefixLen
    ensures r.Success? && IsAbsolute(contentFolderPath) ==> r.value.contentFolderPath == Clean(contentFolderPath)
    ensures r.Success? && !IsAbsolute(contentFolderPath) && cwd.Some? ==> r.value.contentFolderPath == Join(cwd.value, contentFolderPath)
  {
    if contentFolderPath == "" then Failure(EmptyContentStoragePath)
    else
      match Abs(contentFolderPath, cwd)
      case Failure(e) => Failure(e)
      case Success(folder) =>
        var len := if urlPathPrefixLen < 1 then 1 else urlPathPrefixLen;
        Success(ServeFileSystem(len, folder))
  }

  /** `NewServeFileSystemWithPrefix`: strips exactly the sanitised prefix, whose length is the
      given prefix's length plus the slashes sanitising adds. */
  function NewServeFileSystemWithPrefix(urlPathPrefix: string, contentFolderPath: string, cwd: Option<string>): (r: Result<ServeFileSystem, Error>)
    requires cwd.Some? ==> IsAbsolute(cwd.value)
    ensures contentFolderPath == "" <==> r == Failure(EmptyContentStoragePath)
    ensures r.Failure? <==> contentFolderPath == "" || (!IsAbsolute(contentFolderPath) && cwd.None?)
    ensures r.Success? ==> r.value.Valid()
    ensures r.Success? ==> r.value.urlPathPrefixLen == |UrlPath.SanitizeURLPathPrefix(urlPathPrefix)|
    ensures r.Success? ==> |urlPathPrefix| <= r.value.urlPathPrefixLen <= |urlPathPrefix| + 2
    ensures r.Success? && IsAbsolute(contentFolderPath) ==> r.value.contentFolderPath == Clean(contentFolderPath)
    ensures r.Success? && !IsAbsolute(contentFolderPath) && cwd.Some? ==> r.value.contentFolderPath == Join(cwd.value, contentFolderPath)
    ensures (r.Success? && UrlPath.StartsWithSlash(urlPathPrefix) && UrlPath.EndsWithSlash(urlPathPrefix))
            ==> r.value.urlPathPrefixLen == |urlPathPrefix|
  {
    var sanitized := UrlPath.SanitizeURLPathPrefix(urlPathPrefix);
    NewServeFileSystemWithPrefixLength(|sanitized|, contentFolderPath, cwd)
  }

  /** `NewServeFileSystem`: strips only the leading '/'. */
  function NewServeFileSystem(contentFolderPath: string, cwd: Option<string>): (r: Result<ServeFileSystem, Error>)
    requires cwd.Some? ==> IsAbsolute(cwd.value)
    ensures contentFolderPath == "" <==> r == Failure(EmptyContentStoragePath)
    ensures r.Failure? <==> contentFolderPath == "" || (!IsAbsolute(contentFolderPath) && cwd.None?)
    ensures r.Success? ==> r.value.Valid() && r.value.urlPathPrefixLen == 1
    ensures r.Success? && IsAbsolute(contentFolderPath) ==> r.value.contentFolderPath == Clean(contentFolderPath)
    ensures r.Success? && !IsAbsolute(contentFolderPath) && cwd.Some? ==> r.value.contentFolderPath == Join(cwd.value, contentFolderPath)
  {
    NewServeFileSystemWithPrefixLength(1, contentFolderPath, cwd)
  }

  /** The file name a request resolves to, with the substitution test as this backend writes
      it, `(name == "/") == (name == "")`: an explicit target is used as it is; otherwise the
      remainder after the prefix is kept when it is "" or "/", and every other remainder
      is replaced by the default file name. */
  function TargetFileName(urlPathPrefixLen: int, urlPath: string, defaultFileName: string, targetFileName: string): (name: string)
    requires urlPathPrefixLen >= 1
    ensures targetFileName != "" ==> name == targetFileName
    ensures targetFileName == "" ==>
      var rest := UrlPath.Remainder(urlPath, urlPathPrefixLen);
      name == if rest == "" || rest == "/" then rest else defaultFileName
  {
    if targetFileName != "" then targetFileName
    else
      var name := UrlPath.Remainder(urlPath, urlPathPrefixLen);
      if (name == "/") == (name == "") then defaultFileName else name
  }

  /** The path a request is served from: the target joined onto the content folder, which
      is always a clean absolute path, whatever the target holds. */
  function TargetFilePath(s: ServeFileSystem, r: Request, defaultFileName: string, targetFileName: string): (p: string)
    requires s.Valid()
    ensures IsCleanAbs(p)
  {
    Join(s.contentFolderPath, TargetFileName(s.urlPathPrefixLen, r.url.path, defaultFileName, targetFileName))
  }

  /** The guard: a textual prefix test of the joined path against the folder, nothing more.
      Whatever follows the folder's text passes, with or without a '/' after it. */
  predicate PassesGuard(s: ServeFileSystem, targetFilePath: string)
    ensures PassesGuard(s, targetFilePath) <==> exists rest :: targetFilePath == s.contentFolderPath + rest
  {
    HasPrefix(targetFilePath, s.contentFolderPath)
  }

  /** `ServeFileSystem.ServeHTTP`, as a decision: the guard, then stat, then open. */
  function Decide(s: ServeFileSystem, store: Store, r: Request, defaultFileName: string, targetFileName: string): (o: Outcome)
    requires s.Valid()
    ensures var p := TargetFilePath(s, r, defaultFileName, targetFileName);
      && (!PassesGuard(s, p) ==> o == NotFound)
      && (PassesGuard(s, p) && Stat(store, p).Failure? ==> o == InternalError)
      && (o == NotFound <==> !PassesGuard(s, p) || (Stat(store, p).Success? && store[p].kind.Directory?))
      && (o == InternalError <==> PassesGuard(s, p) && (Stat(store, p).Failure? || (store[p].kind.RegularFile? && Open(store, p).Failure?)))
      && (o.Serve? <==> PassesGuard(s, p) && Stat(store, p).Success? && store[p].kind.RegularFile? && Open(store, p).Success?)
      && (o.Serve? ==> o.name == p && HasPrefix(o.name, s.contentFolderPath) && o.modTime == store[p].modTime)
  {
    var targetFilePath := TargetFilePath(s, r, defaultFileName, targetFileName);
    if !PassesGuard(s, targetFilePath) then NotFound
    else match Stat(store, targetFilePath)
      case Failure(_) => InternalError
      case Success(info) =>
        if info.isDir then NotFound
        else match Open(store, targetFilePath)
          case Failure(_) => InternalError
          case Success(_) => Serve(targetFilePath, info.modTime)
  }

  /** `ServeFileSystem.ServeHTTP` with its calls on the file system: the guard rejects before
      any call; every call is on the guarded path; an opened file is closed last (the deferred close). */
  method ServeHTTP(s: ServeFileSystem, store: Store, r: Request, defaultFileName: string, targetFileName: string)
    returns (o: Outcome, effects: seq<Effect>)
    requires s.Valid()
    ensures o == Decide(s, store, r, defaultFileName, targetFileName)
    ensures var p := TargetFilePath(s, r, defaultFileName, targetFileName);
      && (effects == [] <==> !PassesGuard(s, p))
      && (forall e :: e in effects ==> e.path == p)
    ensures o.Serve? ==> effects == [StatPath(o.name), OpenPath(o.name), CloseHandle(o.name)]
    ensures var p := TargetFilePath(s, r, defaultFileName, targetFileName);
      && (PassesGuard(s, p) && Stat(store, p).Failure? ==> effects == [StatPath(p)])
      && (PassesGuard(s, p) && Stat(store, p).Success? && store[p].kind.Directory? ==> effects == [StatPath(p)])
      && (PassesGuard(s, p) && Stat(store, p).Success? && !store[p].kind.Directory? && Open(store, p).Failure?
          ==> effects == [StatPath(p), OpenPath(p)])
      && (PassesGuard(s, p) && Stat(store, p).Success? && !store[p].kind.Directory? && Open(store, p).Success?
          ==> effects == [StatPath(p), OpenPath(p), CloseHandle(p)])
  {
    effects := [];
    var name := targetFileName;
    if name == "" {
      if |r.url.path| > s.urlPathPrefixLen {
        name := r.url.path[s.urlPathPrefixLen..];
      }
      if (name == "/") == (name == "") {
        name := defaultFileName;
      }
    }
    var targetFilePath := Join(s.contentFolderPath, name);
    assert targetFilePath == TargetFilePath(s, r, defaultFileName, targetFileName);
    if !HasPrefix(targetFilePath, s.contentFolderPath) {
      return NotFound, effects;
    }
    var info := Stat(store, targetFilePath);
    effects := effects + [StatPath(targetFilePath)];
    if info.Failure? {
      return InternalError, effects;
    }
    if info.value.isDir {
      return NotFound, effects;
    }
    var fp := Open(store, targetFilePath);
    effects := effects + [OpenPath(targetFilePath)];
    if fp.Failure? {
      return InternalError, effects;
    }
    o := Serve(targetFilePath, info.value.modTime);
    effects := effects + [CloseHandle(targetFilePath)];
  }

  /** `ServeFileSystem.Close`: nothing is held, so nothing can fail. */
  function Close(s: ServeFileSystem): (err: Option<Error>)
    ensures err == None
  {
    None
  }

  // ---------------------------------------------------------------------------
  // What the resolution and the guard do

  /** Every remainder other than "" and "/" resolves to the default file: the name in the
      request is never looked at, so two such requests get the same answer. */
  lemma RequestedNameIsIgnored(s: ServeFileSystem, store: Store, r1: Request, r2: Request, defaultFileName: string)
    requires s.Valid()
    requires UrlPath.Remainder(r1.url.path, s.urlPathPrefixLen) !in {"", "/"}
    requires UrlPath.Remainder(r2.url.path, s.urlPathPrefixLen) !in {"", "/"}
    ensures Decide(s, store, r1, defaultFileName, "") == Decide(s, store, r2, defaultFileName, "")
    ensures TargetFileName(s.urlPathPrefixLen, r1.url.path, defaultFileName, "") == defaultFileName
  {
  }

  /** A request for the bare prefix (remainder "") or the prefix and "/" keeps that remainder
      and is looked up at the content folder itself, which, being a directory, answers 404. */
  lemma BarePrefixLooksUpFolder(s: ServeFileSystem, store: Store, r: Request, defaultFileName: string)
    requires s.Valid()
    requires UrlPath.Remainder(r.url.path, s.urlPathPrefixLen) in {"", "/"}
    ensures TargetFilePath(s, r, defaultFileName, "") == s.contentFolderPath
    ensures (s.contentFolderPath in store && store[s.contentFolderPath].kind.Directory? && store[s.contentFolderPath].statErr.None?)
            ==> Decide(s, store, r, defaultFileName, "") == NotFound
  {
    var rest := UrlPath.Remainder(r.url.path, s.urlPathPrefixLen);
    if rest == "" {
      assert Split(rest) == [""];
    } else {
      SplitConcat("", "");
      assert "" + "/" + "" == rest;
      assert Split(rest) == ["", ""];
    }
    assert Names(Split(rest)) == [];
    JoinWithoutNamesIsRoot(s.contentFolderPath, rest);
  }

  /** A target with no ".." segment always passes the guard, and its path lies inside the
      content folder as a directory (not merely as a string prefix). */
  lemma OrdinaryTargetPassesGuard(s: ServeFileSystem, r: Request, defaultFileName: string, targetFileName: string)
    requires s.Valid()
    requires ".." !in Split(TargetFileName(s.urlPathPrefixLen, r.url.path, defaultFileName, targetFileName))
    ensures var p := TargetFilePath(s, r, defaultFileName, targetFileName);
      PassesGuard(s, p) && (p == s.contentFolderPath || HasPrefix(p, if s.contentFolderPath == "/" then "/" else s.contentFolderPath + "/"))
  {
    JoinWithoutDotDotStaysInside(s.contentFolderPath, TargetFileName(s.urlPathPrefixLen, r.url.path, defaultFileName, targetFileName));
  }

  /** The guard never looks at the store: a rejected request is 404 whatever the store holds,
      so what exists outside the folder cannot be told apart. */
  lemma RejectionIgnoresStore(s: ServeFileSystem, store1: Store, store2: Store, r: Request, defaultFileName: string, targetFileName: string)
    requires s.Valid()
    requires !PassesGuard(s, TargetFilePath(s, r, defaultFileName, targetFileName))
    ensures Decide(s, store1, r, defaultFileName, targetFileName) == Decide(s, store2, r, defaultFileName, targetFileName) == NotFound
  {
  }

  // ---------------------------------------------------------------------------
  // Requests that leave the folder

  /** Rooted cleaning of "/a/b/../c/d" keeps a, c and d. */
  lemma SiblingReduceOf(a: string, b: string, c: string, d: string)
    requires IsName(a) && IsName(b) && IsName(c) && IsName(d)
    ensures Reduce(["", a, b, "..", c, d], [], true) == [a, c, d]
  {
    assert ["", a, b, "..", c, d][1..] == [a, b, "..", c, d];
    assert [a, b, "..", c, d][1..] == [b, "..", c, d];
    assert [b, "..", c, d][1..] == ["..", c, d];
    assert ["..", c, d][1..] == [c, d];
    assert [c, d][1..] == [d];
    assert [a, b][..1] == [a];
    assert Step([a, b], "..", true) == [a];
    assert Step([], a, true) == [a] && Step([a], b, true) == [a, b] && Step([a], c, true) == [a, c] && Step([a, c], d, true) == [a, c, d];
    assert Reduce([d], [a, c], true) == [a, c, d];
    assert Reduce([c, d], [a], true) == [a, c, d];
    assert Reduce(["..", c, d], [a, b], true) == [a, c, d];
    assert Reduce([b, "..", c, d], [a], true) == [a, c, d];
    assert Reduce([a, b, "..", c, d], [], true) == [a, c, d];
  }

  /** Rooted cleaning of "/a/b/../../c/d" climbs to the root and keeps c and d. */
  lemma TraversalReduceOf(a: string, b: string, c: string, d: string)
    requires IsName(a) && IsName(b) && IsName(c) && IsName(d)
    ensures Reduce(["", a, b, "..", "..", c, d], [], true) == [c, d]
  {
    assert ["", a, b, "..", "..", c, d][1..] == [a, b, "..", "..", c, d];
    assert [a, b, "..", "..", c, d][1..] == [b, "..", "..", c, d];
    assert [b, "..", "..", c, d][1..] == ["..", "..", c, d];
    assert ["..", "..", c, d][1..] == ["..", c, d];
    assert ["..", c, d][1..] == [c, d];
    assert [c, d][1..] == [d];
    assert [a, b][..1] == [a];
    assert Step([a, b], "..", true) == [a];
    assert Step([a], "..", true) == [];
    assert Step([], a, true) == [a] && Step([a], b, true) == [a, b] && Step([], c, true) == [c] && Step([c], d, true) == [c, d];
    assert Reduce([d], [c], true) == [c, d];
    assert Reduce([c, d], [], true) == [c, d];
    assert Reduce(["..", c, d], [a], true) == [c, d];
    assert Reduce(["..", "..", c, d], [a, b], true) == [c, d];
    assert Reduce([b, "..", "..", c, d], [a], true) == [c, d];
    assert Reduce([a, b, "..", "..", c, d], [], true) == [c, d];
  }

  /** The segments of "/a/b" + "/" + "../c/d". */
  lemma SiblingSegs(a: string, b: string, c: string, d: string)
    ensures JoinSegs(["", a, b, "..", c, d]) == ("/" + a + "/" + b) + "/" + ("../" + c + "/" + d)
  {
    var segs := ["", a, b, "..", c, d];
    var t3 := ".." + "/" + c + "/" + d;
    JoinThree("..", c, d);
    assert segs[3..] == ["..", c, d];
    var t2 := b + "/" + t3;
    assert JoinSegs(segs[2..]) == t2 by {
      assert segs[2..][1..] == segs[3..];
    }
    var t1 := a + "/" + t2;
    assert JoinSegs(segs[1..]) == t1 by {
      assert segs[1..][1..] == segs[2..];
    }
    assert JoinSegs(segs) == "" + "/" + t1;
    assert "" + "/" + t1 == ("/" + a + "/" + b) + "/" + ("../" + c + "/" + d);
  }

  /** The segments of "/a/b" + "/" + "../../c/d". */
  lemma TraversalSegs(a: string, b: string, c: string, d: string)
    ensures JoinSegs(["", a, b, "..", "..", c, d]) == ("/" + a + "/" + b) + "/" + ("../../" + c + "/" + d)
  {
    var segs := ["", a, b, "..", "..", c, d];
    var t4 := ".." + "/" + c + "/" + d;
    JoinThree("..", c, d);
    assert segs[4..] == ["..", c, d];
    var t3 := ".." + "/" + t4;
    assert JoinSegs(segs[3..]) == t3 by {
      assert segs[3..][1..] == segs[4..];
    }
    var t2 := b + "/" + t3;
    assert JoinSegs(segs[2..]) == t2 by {
      assert segs[2..][1..] == segs[3..];
    }
    var t1 := a + "/" + t2;
    assert JoinSegs(segs[1..]) == t1 by {
      assert segs[1..][1..] == segs[2..];
    }
    assert JoinSegs(segs) == "" + "/" + t1;
    assert "" + "/" + t1 == ("/" + a + "/" + b) + "/" + ("../../" + c + "/" + d);
  }

  /** Joining "../c/d" onto "/a/b" climbs one level: the result is "/a/c/d". */
  lemma SiblingJoinOf(a: string, b: string, c: string, d: string)
    requires IsName(a) && IsName(b) && IsName(c) && IsName(d)
    requires '/' !in a && '/' !in b && '/' !in c && '/' !in d
    ensures Join("/" + a + "/" + b, "../" + c + "/" + d) == "/" + a + "/" + c + "/" + d
  {
    var segs := ["", a, b, "..", c, d];
    var p := ("/" + a + "/" + b) + "/" + ("../" + c + "/" + d);
    SiblingSegs(a, b, c, d);
    SplitJoinSegs(segs);
    SiblingReduceOf(a, b, c, d);
    assert p[0] == '/';
    CleanRootedBySegments(p, segs);
    JoinThree(a, c, d);
    assert "/" + (a + "/" + c + "/" + d) == "/" + a + "/" + c + "/" + d;
  }

  /** Joining "../../c/d" onto "/a/b" climbs to the root: the result is "/c/d". */
  lemma TraversalJoinOf(a: string, b: string, c: string, d: string)
    requires IsName(a) && IsName(b) && IsName(c) && IsName(d)
    requires '/' !in a && '/' !in b && '/' !in c && '/' !in d
    ensures Join("/" + a + "/" + b, "../../" + c + "/" + d) == "/" + c + "/" + d
  {
    var segs := ["", a, b, "..", "..", c, d];
    var p := ("/" + a + "/" + b) + "/" + ("../../" + c + "/" + d);
    TraversalSegs(a, b, c, d);
    SplitJoinSegs(segs);
    TraversalReduceOf(a, b, c, d);
    assert p[0] == '/';
    CleanRootedBySegments(p, segs);
    JoinTwo(c, d);
    assert "/" + (c + "/" + d) == "/" + c + "/" + d;
  }

  /** A folder "/a/b" built from two names is clean. */
  lemma FolderIsClean(a: string, b: string)
    requires IsName(a) && IsName(b) && '/' !in a && '/' !in b
    ensures IsCleanAbs("/" + a + "/" + b)
  {
    JoinTwo(a, b);
    CleanAbsOfNames([a, b]);
    assert "/" + JoinSegs([a, b]) == "/" + a + "/" + b;
  }

  /** The guard is only a string-prefix test. For a folder /a/b and a sibling folder /a/c whose
      name starts with b (as /srv/www2 does for /srv/www), the target "../c/d" leaves the folder,
      passes the guard, and is served from /a/c/d. */
  lemma SiblingDirectoryIsServed(a: string, b: string, c: string, d: string, urlPathPrefixLen: int,
                                 store: Store, r: Request, defaultFileName: string, modTime: int)
    requires IsName(a) && IsName(b) && IsName(c) && IsName(d)
    requires '/' !in a && '/' !in b && '/' !in c && '/' !in d
    requires HasPrefix(c, b) && c != b && urlPathPrefixLen >= 1
    requires var served := "/" + a + "/" + c + "/" + d;
      served in store && store[served] == Entry(RegularFile(true), modTime, None, None)
    ensures var s := ServeFileSystem(urlPathPrefixLen, "/" + a + "/" + b);
      var served := "/" + a + "/" + c + "/" + d;
      && s.Valid()
      && !HasPrefix(served, s.contentFolderPath + "/")
      && Decide(s, store, r, defaultFileName, "../" + c + "/" + d) == Serve(served, modTime)
  {
    var root := "/" + a + "/" + b;
    var served := "/" + a + "/" + c + "/" + d;
    FolderIsClean(a, b);
    SiblingJoinOf(a, b, c, d);
    SiblingSharesPrefix(a, b, c, d);
    var s := ServeFileSystem(urlPathPrefixLen, root);
    assert TargetFilePath(s, r, defaultFileName, "../" + c + "/" + d) == served;
  }

  /** "/a/c/d" starts with "/a/b" when c starts with b, but not with "/a/b/" when c is longer. */
  lemma SiblingSharesPrefix(a: string, b: string, c: string, d: string)
    requires '/' !in c && HasPrefix(c, b) && c != b
    ensures var root := "/" + a + "/" + b;
      var served := "/" + a + "/" + c + "/" + d;
      HasPrefix(served, root) && !HasPrefix(served, root + "/")
  {
    var root := "/" + a + "/" + b;
    var served := "/" + a + "/" + c + "/" + d;
    assert served == ("/" + a + "/") + c + ("/" + d);
    assert root == ("/" + a + "/") + b;
    assert c == b + c[|b|..];
    assert served[..|root|] == root;
    assert served[|root|] == c[|b|];
    assert c[|b|] in c;
  }

  /** A target that climbs above the folder's parent into another top-level directory is
      rejected with 404, whatever the store holds (as ../../etc/passwd is under /srv/www). */
  lemma TraversalIsNotFound(a: string, b: string, c: string, d: string, urlPathPrefixLen: int,
                            store: Store, r: Request, defaultFileName: string)
    requires IsName(a) && IsName(b) && IsName(c) && IsName(d)
    requires '/' !in a && '/' !in b && '/' !in c && '/' !in d
    requires a[0] != c[0] && urlPathPrefixLen >= 1
    ensures var s := ServeFileSystem(urlPathPrefixLen, "/" + a + "/" + b);
      s.Valid() && Decide(s, store, r, defaultFileName, "../../" + c + "/" + d) == NotFound
  {
    var root := "/" + a + "/" + b;
    FolderIsClean(a, b);
    TraversalJoinOf(a, b, c, d);
    var s := ServeFileSystem(urlPathPrefixLen, root);
    var p := "/" + c + "/" + d;
    assert TargetFilePath(s, r, defaultFileName, "../../" + c + "/" + d) == p;
    assert p[1] == c[0] && root[1] == a[0];
    assert !HasPrefix(p, root);
  }
}
