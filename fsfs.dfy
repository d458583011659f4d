/** The backend that serves files from an abstract read-only file tree (`fs.FS`),
    under a sub-directory of it, with one modification time for all content. */
module FsFs {
  import opened Wrappers
  import opened GoPath
  import opened HttpServeFile
  import UrlPath
  import FileSystem

  /** `ServeFS`: prefix length, the tree, the sub-directory inside it and the fixed modification time. */
  datatype ServeFS = ServeFS(urlPathPrefixLen: int, fsRef: Store, fsPathPrefix: string, contentModTime: int)
  {
    /** What every constructor establishes: a prefix length of at least 1 and a non-zero time. */
    predicate Valid()
    {
      urlPathPrefixLen >= 1 && contentModTime != 0
    }
  }

  /** The characters trimmed off both ends of the sub-directory. */
  const PathSeparators: set<char> := {'/', '\\'}

  /** The stored sub-directory: cleaned, then stripped of '/' and '\' at both ends,
      so that an empty one becomes "." and "/" becomes "". */
  function FsPathPrefix(fsPathPrefix: string): (r: string)
    ensures r != "" ==> r[0] !in PathSeparators && r[|r| - 1] !in PathSeparators
    ensures fsPathPrefix == "" ==> r == "."
    ensures fsPathPrefix == "/" ==> r == ""
  {
    assert Split("/") == ["", ""] by {
      SplitConcat("", "");
      assert "" + "/" + "" == "/";
    }
    assert Reduce(["", ""], [], true) == [];
    Trim(Clean(fsPathPrefix), PathSeparators)
  }

  /** `NewServeFSWithPrefixLength`: a prefix length below 1 becomes 1, and a zero
      modification time becomes the current time, read from the clock as `now`. */
  function NewServeFSWithPrefixLength(urlPathPrefixLen: int, fsRef: Store, fsPathPrefix: string, contentModTime: int, now: int): (s: ServeFS)
    requires now != 0
    ensures s.Valid()
    ensures s.urlPathPrefixLen == if urlPathPrefixLen < 1 then 1 else urlPathPrefixLen
    ensures contentModTime != 0 ==> s.contentModTime == contentModTime
    ensures contentModTime == 0 ==> s.contentModTime == now
    ensures s.fsRef == fsRef && s.fsPathPrefix == FsPathPrefix(fsPathPrefix)
  {
    var len := if urlPathPrefixLen < 1 then 1 else urlPathPrefixLen;
    var modTime := if contentModTime == 0 then now else contentModTime;
    ServeFS(len, fsRef, FsPathPrefix(fsPathPrefix), modTime)
  }

  /** `NewServeFSWithPrefix`: strips the sanitised prefix. */
  function NewServeFSWithPrefix(urlPathPrefix: string, fsRef: Store, fsPathPrefix: string, contentModTime: int, now: int): (s: ServeFS)
    requires now != 0
    ensures s.Valid()
    ensures s.urlPathPrefixLen == |UrlPath.SanitizeURLPathPrefix(urlPathPrefix)|
    ensures |urlPathPrefix| <= s.urlPathPrefixLen <= |urlPathPrefix| + 2
    ensures (UrlPath.StartsWithSlash(urlPathPrefix) && UrlPath.EndsWithSlash(urlPathPrefix)) ==> s.urlPathPrefixLen == |urlPathPrefix|
    ensures contentModTime != 0 ==> s.contentModTime == contentModTime
    ensures contentModTime == 0 ==> s.contentModTime == now
    ensures s.fsRef == fsRef && s.fsPathPrefix == FsPathPrefix(fsPathPrefix)
  {
    var sanitized := UrlPath.SanitizeURLPathPrefix(urlPathPrefix);
    NewServeFSWithPrefixLength(|sanitized|, fsRef, fsPathPrefix, contentModTime, now)
  }

  /** `NewServeFS`: strips only the leading '/'. */
  function NewServeFS(fsRef: Store, fsPathPrefix: string, contentModTime: int, now: int): (s: ServeFS)
    requires now != 0
    ensures s.Valid() && s.urlPathPrefixLen == 1
    ensures contentModTime != 0 ==> s.contentModTime == contentModTime
    ensures contentModTime == 0 ==> s.contentModTime == now
    ensures s.fsRef == fsRef && s.fsPathPrefix == FsPathPrefix(fsPathPrefix)
  {
    NewServeFSWithPrefixLength(1, fsRef, fsPathPrefix, contentModTime, now)
  }

  /** The file name a request resolves to: the explicit target, or else `extractTargetContentPath`,
      which replaces a remainder of "" or "/" by the default and keeps every other one. */
  function TargetFileName(urlPathPrefixLen: int, urlPath: string, defaultFileName: string, targetFileName: string): (name: string)
    requires urlPathPrefixLen >= 1
    ensures targetFileName != "" ==> name == targetFileName
    ensures targetFileName == "" ==>
      var rest := UrlPath.Remainder(urlPath, urlPathPrefixLen);
      name == if rest == "" || rest == "/" then defaultFileName else rest
  {
    if targetFileName == "" then UrlPath.ExtractTargetContentPath(urlPath, urlPathPrefixLen, defaultFileName)
    else targetFileName
  }

  /** The path opened in the tree: the target joined onto the sub-directory. It is clean, and
      empty only when both the sub-directory and the target are. */
  function TargetFilePath(s: ServeFS, r: Request, defaultFileName: string, targetFileName: string): (p: string)
    requires s.Valid()
    ensures p != "" ==> Clean(p) == p
    ensures p == "" <==> s.fsPathPrefix == "" && TargetFileName(s.urlPathPrefixLen, r.url.path, defaultFileName, targetFileName) == ""
  {
    Join(s.fsPathPrefix, TargetFileName(s.urlPathPrefixLen, r.url.path, defaultFileName, targetFileName))
  }

  /** The guard: a textual prefix test against the sub-directory; an empty one lets everything through. */
  predicate PassesGuard(s: ServeFS, targetFilePath: string)
    ensures PassesGuard(s, targetFilePath) <==> exists rest :: targetFilePath == s.fsPathPrefix + rest
  {
    HasPrefix(targetFilePath, s.fsPathPrefix)
  }

  /** `ServeFS.ServeHTTP`, as a decision: the guard, open (a missing entry is 404, any other
      failure 500), stat on the handle, then the seek capability, whose absence writes a 500
      and still goes on to serve. */
  function Decide(s: ServeFS, r: Request, defaultFileName: string, targetFileName: string): (o: Outcome)
    requires s.Valid()
    ensures var p := TargetFilePath(s, r, defaultFileName, targetFileName);
      && (!PassesGuard(s, p) ==> o == NotFound)
      && (PassesGuard(s, p) && Open(s.fsRef, p) == Failure(ErrNotExist) ==> o == NotFound)
      && (PassesGuard(s, p) && p !in s.fsRef ==> o == NotFound)
      && (o == InternalError <==> PassesGuard(s, p) && ((Open(s.fsRef, p).Failure? && Open(s.fsRef, p) != Failure(ErrNotExist))
                                                       || (Open(s.fsRef, p).Success? && Stat(s.fsRef, p).Failure?)))
      && (o.Serve? || o.InternalErrorThenServe? <==> PassesGuard(s, p) && Open(s.fsRef, p).Success? && Stat(s.fsRef, p).Success? && s.fsRef[p].kind.RegularFile?)
      && (o.Serve? || o.InternalErrorThenServe? ==> o.name == p && o.modTime == s.contentModTime)
      && (o.InternalErrorThenServe? <==> (o.Serve? || o.InternalErrorThenServe?) && !s.fsRef[p].kind.seekable)
      && (PassesGuard(s, p) && Open(s.fsRef, p).Success? && Stat(s.fsRef, p).Success? && s.fsRef[p].kind.Directory? ==> o == NotFound)
  {
    var targetFilePath := TargetFilePath(s, r, defaultFileName, targetFileName);
    if !PassesGuard(s, targetFilePath) then NotFound
    else match Open(s.fsRef, targetFilePath)
      case Failure(k) => if k == ErrNotExist then NotFound else InternalError
      case Success(fp) =>
        match Stat(s.fsRef, targetFilePath)
        case Failure(_) => InternalError
        case Success(info) =>
          if info.isDir then NotFound
          else if !fp.seekable then InternalErrorThenServe(targetFilePath, s.contentModTime)
          else Serve(targetFilePath, s.contentModTime)
  }

  /** `ServeFS.ServeHTTP` with its calls on the tree: nothing is opened unless the guard
      passed; the opened entry is stat'ed through its handle and closed last. */
  method ServeHTTP(s: ServeFS, r: Request, defaultFileName: string, targetFileName: string)
    returns (o: Outcome, effects: seq<Effect>)
    requires s.Valid()
    ensures o == Decide(s, r, defaultFileName, targetFileName)
    ensures var p := TargetFilePath(s, r, defaultFileName, targetFileName);
      && (effects == [] <==> !PassesGuard(s, p))
      && (forall e :: e in effects ==> e.path == p)
      && (Open(s.fsRef, p).Success? && PassesGuard(s, p) ==> effects == [OpenPath(p), StatHandle(p), CloseHandle(p)])
      && (Open(s.fsRef, p).Failure? && PassesGuard(s, p) ==> effects == [OpenPath(p)])
  {
    effects := [];
    var name := targetFileName;
    if name == "" {
      name := UrlPath.ExtractTargetContentPath(r.url.path, s.urlPathPrefixLen, defaultFileName);
    }
    var targetFilePath := Join(s.fsPathPrefix, name);
    assert targetFilePath == TargetFilePath(s, r, defaultFileName, targetFileName);
    if !HasPrefix(targetFilePath, s.fsPathPrefix) {
      return NotFound, effects;
    }
    var fp := Open(s.fsRef, targetFilePath);
    effects := effects + [OpenPath(targetFilePath)];
    if fp.Failure? {
      if fp.error == ErrNotExist {
        o := NotFound;
      } else {
        o := InternalError;
      }
      return;
    }
    var info := Stat(s.fsRef, targetFilePath);
    effects := effects + [StatHandle(targetFilePath)];
    if info.Failure? {
      o := InternalError;
    } else if info.value.isDir {
      o := NotFound;
    } else if !fp.value.seekable {
      o := InternalErrorThenServe(targetFilePath, s.contentModTime);
    } else {
      o := Serve(targetFilePath, s.contentModTime);
    }
    effects := effects + [CloseHandle(targetFilePath)];
  }

  /** `ServeFS.Close`: nothing is held, so nothing can fail. */
  function Close(s: ServeFS): (err: Option<Error>)
    ensures err == None
  {
    None
  }

  // ---------------------------------------------------------------------------
  // What resolution and the guard do here

  /** The two substitution tests disagree: this backend replaces "" and "/" by the default
      and keeps every other remainder; the file-system backend does the opposite. The two
      resolve a request alike only when the remainder is the default name itself. */
  lemma SubstitutionDiffersFromFileSystem(urlPathPrefixLen: int, urlPath: string, defaultFileName: string)
    requires urlPathPrefixLen >= 1
    ensures var rest := UrlPath.Remainder(urlPath, urlPathPrefixLen);
      && TargetFileName(urlPathPrefixLen, urlPath, defaultFileName, "") == (if rest in {"", "/"} then defaultFileName else rest)
      && FileSystem.TargetFileName(urlPathPrefixLen, urlPath, defaultFileName, "") == (if rest in {"", "/"} then rest else defaultFileName)
      && (TargetFileName(urlPathPrefixLen, urlPath, defaultFileName, "") == FileSystem.TargetFileName(urlPathPrefixLen, urlPath, defaultFileName, "")
          <==> rest == defaultFileName)
  {
  }

  /** Every request that is served carries the same modification time, the one fixed at construction. */
  lemma ModTimeIsFixed(s: ServeFS, r1: Request, r2: Request, defaultFileName: string, target1: string, target2: string)
    requires s.Valid()
    requires Decide(s, r1, defaultFileName, target1).Serve? && Decide(s, r2, defaultFileName, target2).Serve?
    ensures Decide(s, r1, defaultFileName, target1).modTime == Decide(s, r2, defaultFileName, target2).modTime == s.contentModTime
  {
  }

  /** Under a real sub-directory, a target with no ".." segment passes the guard and stays inside it. */
  lemma OrdinaryTargetPassesGuard(s: ServeFS, r: Request, defaultFileName: string, targetFileName: string)
    requires s.Valid() && IsCleanRelative(s.fsPathPrefix)
    requires ".." !in Split(TargetFileName(s.urlPathPrefixLen, r.url.path, defaultFileName, targetFileName))
    ensures var p := TargetFilePath(s, r, defaultFileName, targetFileName);
      PassesGuard(s, p) && (p == s.fsPathPrefix || HasPrefix(p, s.fsPathPrefix + "/"))
  {
    JoinRelativeWithoutDotDotStaysInside(s.fsPathPrefix, TargetFileName(s.urlPathPrefixLen, r.url.path, defaultFileName, targetFileName));
  }

  /** With an empty sub-directory the stored prefix is ".", and joining drops it: every plain
      name (no ".." segment, not starting with '.' or '/') fails the guard and gets 404,
      whatever the tree holds. */
  lemma EmptySubDirectoryRejectsPlainNames(fsRef: Store, contentModTime: int, now: int, r: Request, defaultFileName: string, targetFileName: string)
    requires now != 0
    requires var t := TargetFileName(1, r.url.path, defaultFileName, targetFileName);
      t != "" && t[0] != '.' && t[0] != '/' && ".." !in Split(t)
    ensures var s := NewServeFS(fsRef, "", contentModTime, now);
      s.fsPathPrefix == "." && Decide(s, r, defaultFileName, targetFileName) == NotFound
  {
    var s := NewServeFS(fsRef, "", contentModTime, now);
    JoinOntoDotDropsDot(TargetFileName(1, r.url.path, defaultFileName, targetFileName));
  }

  /** With the sub-directory "/" the stored prefix is "", so the guard passes every path. */
  lemma RootSubDirectoryPassesEverything(fsRef: Store, contentModTime: int, now: int, r: Request, defaultFileName: string, targetFileName: string)
    requires now != 0
    ensures var s := NewServeFS(fsRef, "/", contentModTime, now);
      s.fsPathPrefix == "" && PassesGuard(s, TargetFilePath(s, r, defaultFileName, targetFileName))
  {
  }

  // ---------------------------------------------------------------------------
  // An ordinary sub-directory, and requests that leave it

  /** The segments of "b" + "/" + "../c/d". */
  lemma SiblingSegs(b: string, c: string, d: string)
    ensures JoinSegs([b, "..", c, d]) == b + "/" + ("../" + c + "/" + d)
  {
    var segs := [b, "..", c, d];
    JoinThree("..", c, d);
    assert segs[1..] == ["..", c, d];
    assert JoinSegs(segs) == b + "/" + JoinSegs(segs[1..]);
    assert ".." + "/" + c + "/" + d == "../" + c + "/" + d;
  }

  /** Relative cleaning of "b/../c/d" keeps c and d. */
  lemma SiblingReduceOf(b: string, c: string, d: string)
    requires IsName(b) && IsName(c) && IsName(d)
    ensures Reduce([b, "..", c, d], [], false) == [c, d]
  {
    assert Reduce([d], [c], false) == [c, d] by {
      assert [d][1..] == [];
      assert Step([c], d, false) == [c, d];
    }
    assert Reduce([c, d], [], false) == [c, d] by {
      assert [c, d][1..] == [d];
      assert Step([], c, false) == [c];
    }
    assert Reduce(["..", c, d], [b], false) == [c, d] by {
      assert ["..", c, d][1..] == [c, d];
      assert [b][..0] == [];
      assert Step([b], "..", false) == [];
    }
    assert [b, "..", c, d][1..] == ["..", c, d];
    assert Step([], b, false) == [b];
  }


  /** Joining "../c/d" onto the sub-directory "b" leaves it: the result is "c/d". */
  lemma SiblingJoinOf(b: string, c: string, d: string)
    requires IsName(b) && IsName(c) && IsName(d)
    requires '/' !in b && '/' !in c && '/' !in d
    ensures Join(b, "../" + c + "/" + d) == c + "/" + d
  {
    var segs := [b, "..", c, d];
    var p := b + "/" + ("../" + c + "/" + d);
    SiblingSegs(b, c, d);
    assert forall i :: 0 <= i < |segs| ==> '/' !in segs[i];
    SplitJoinSegs(segs);
    SiblingReduceOf(b, c, d);
    assert p[0] == b[0] && b[0] in b;
    JoinTwo(c, d);
  }

  /** An ordinary sub-directory "/a/" is stored as "a", a clean relative directory, so the
      guard of `OrdinaryTargetPassesGuard` applies to an instance built from it. */
  lemma OrdinarySubDirectory(a: string)
    requires IsName(a) && '/' !in a && '\\' !in a
    ensures FsPathPrefix("/" + a + "/") == a && IsCleanRelative(a)
  {
    var p := "/" + a + "/";
    assert JoinSegs(["", a, ""]) == p by {
      JoinThree("", a, "");
    }
    SplitJoinSegs(["", a, ""]);
    assert Reduce(["", a, ""], [], true) == [a] by {
      assert ["", a, ""][1..] == [a, ""];
      assert [a, ""][1..] == [""];
      assert Step([], "", true) == [] && Step([], a, true) == [a] && Step([a], "", true) == [a];
      assert Reduce([""], [a], true) == [a];
      assert Reduce([a, ""], [], true) == [a];
    }
    assert Clean(p) == "/" + a;
    assert a[0] in a && a[|a| - 1] in a;
    assert LeadingCut(a, PathSeparators) == 0;
    assert ("/" + a)[1..] == a;
    assert LeadingCut("/" + a, PathSeparators) == 1;
    assert TrailingCut(a, PathSeparators) == 0;
    SplitNoSlash(a);
    assert Reduce([a], [], false) == [a] by {
      assert [a][1..] == [];
      assert Step([], a, false) == [a];
    }
  }

  /** "c/d" starts with "b" when c starts with b, but not with "b/" when c is longer. */
  lemma SiblingSharesPrefix(b: string, c: string, d: string)
    requires '/' !in c && HasPrefix(c, b) && c != b
    ensures HasPrefix(c + "/" + d, b) && !HasPrefix(c + "/" + d, b + "/")
  {
    var p := c + "/" + d;
    assert p == c + ("/" + d);
    assert c == b + c[|b|..];
    assert p[..|b|] == b;
    assert p[|b|] == c[|b|] && c[|b|] in c;
  }

  /** A request for the prefix followed by "../c/d", under the sub-directory "b", is opened at "c/d". */
  lemma SiblingTargetFilePath(s: ServeFS, r: Request, b: string, c: string, d: string, defaultFileName: string)
    requires s.Valid() && s.fsPathPrefix == b
    requires IsName(b) && IsName(c) && IsName(d) && '/' !in b && '/' !in c && '/' !in d
    requires |r.url.path| > s.urlPathPrefixLen && r.url.path[s.urlPathPrefixLen..] == "../" + c + "/" + d
    ensures TargetFilePath(s, r, defaultFileName, "") == c + "/" + d
  {
    SiblingJoinOf(b, c, d);
    assert UrlPath.Remainder(r.url.path, s.urlPathPrefixLen) == "../" + c + "/" + d;
  }

  /** The guard is only a string-prefix test, and here the URL reaches it. With the
      sub-directory "/b/", a request for the prefix followed by "../c/d", where c starts with b
      (as "www2" does with "www"), joins to "c/d": it passes the guard although it does not lie
      under "b/", and the entry is served. */
  lemma SiblingDirectoryIsServed(urlPathPrefix: string, fsRef: Store, b: string, c: string, d: string,
                                 contentModTime: int, now: int, r: Request, defaultFileName: string)
    requires now != 0
    requires IsName(b) && IsName(c) && IsName(d) && '/' !in b && '\\' !in b
    requires '/' !in c && '/' !in d
    requires HasPrefix(c, b) && c != b
    requires r.url.path == UrlPath.SanitizeURLPathPrefix(urlPathPrefix) + ("../" + c + "/" + d)
    requires c + "/" + d in fsRef && fsRef[c + "/" + d] == Entry(RegularFile(true), 0, None, None)
    ensures var s := NewServeFSWithPrefix(urlPathPrefix, fsRef, "/" + b + "/", contentModTime, now);
      && s.fsPathPrefix == b
      && TargetFilePath(s, r, defaultFileName, "") == c + "/" + d
      && PassesGuard(s, c + "/" + d) && !HasPrefix(c + "/" + d, b + "/")
      && Decide(s, r, defaultFileName, "") == Serve(c + "/" + d, s.contentModTime)
  {
    var s := NewServeFSWithPrefix(urlPathPrefix, fsRef, "/" + b + "/", contentModTime, now);
    OrdinarySubDirectory(b);
    assert r.url.path[s.urlPathPrefixLen..] == "../" + c + "/" + d;
    SiblingTargetFilePath(s, r, b, c, d, defaultFileName);
    SiblingSharesPrefix(b, c, d);
  }

}
