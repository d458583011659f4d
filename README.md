# go-util-http-serve-file, modelled in Dafny

`httpservefile` serves static content over HTTP from one of three backends, all behind the
same shape of call, `ServeHTTP(w, r, defaultFileName, targetFileName)`, plus `Close()`:

- **ServeFileSystem** joins the target name onto an absolute content folder, applies a textual
  prefix guard, then stats and opens the file;
- **ServeFS** does the same against an `fs.FS` tree under a sub-directory, with a fixed
  modification time;
- **ServeZipArchive** rewrites the request path and forwards a copy of the request to an
  archive content server, until it is closed.

Each backend derives the target name, when the caller gives none, from the URL path after a
fixed prefix length. The `WithPrefix` constructors sanitise a URL prefix into that length. A sample program
routes `/content/…` requests to one of the backends.

The model contains:

- `GoPath`: the parts of Go's `path` and `strings` packages the core relies on. `path.Clean` is
  modelled as a fold over '/'-segments. `path.Join`, `strings.HasPrefix` and `strings.Trim`
  are also here.
- `UrlPath` and `Sanitize`: prefix sanitising and target extraction. `Sanitize` is the second
  copy of the same function, and the model proves the two copies equal. Both copies are declared
  in the same Go package, so that package as given does not compile (the function is declared
  twice); the model keeps them apart in two modules.
- `HttpServeFile`: the shared vocabulary. It holds requests, outcomes and errors, and the store
  of entries that stands in for the file system and for the `fs.FS` tree.
- `FileSystem`, `FsFs`: each request is decided by a function (`Decide`). A method (`ServeHTTP`)
  performs the same steps and records every call it makes on the store.
- `ZipArchive`, `SampleHandler`: classes whose collaborator is dropped (set to `null`) on `Close`.

Behaviours of the code that the proofs make explicit:

- **Inverted substitution test.** `ServeFileSystem` and `ServeZipArchive` test
  `(t == "/") == (t == "")`. Only the `ServeFS` helper `extractTargetContentPath` tests
  `t == "/" || t == ""`. As written, the first two keep a remainder of "" or "/" and replace
  every other remainder by the default name.
  - So a request for a named file gets the default file. A request for the bare prefix gets the
    folder itself, which is a 404 because it is a directory. In the zip backend a bare prefix
    gives an empty target and so a 404.
  - The model keeps the code as written. `FsFs.SubstitutionDiffersFromFileSystem` states
    exactly where the backends disagree.
  - So under the prefix `/content/` the zip backend forwards `/content/sub/page.html` as
    `/index.html` (`ZipArchive.SubPageForwardsDefault`).
- **The guard is textual.** `strings.HasPrefix(joined, folder)` accepts a sibling folder that
  shares the prefix: `/srv/www` + `../www2/x` is served from `/srv/www2/x`
  (`FileSystem.SiblingDirectoryIsServed` states this for any folder `/a/b` and sibling `c`
  that extends `b`).
- **The same hole in `ServeFS`, reached from the URL.** Here the requested name is kept, so
  with sub-directory `/www/` a request for `/content/../www2/x` opens `www2/x`
  (`FsFs.SiblingDirectoryIsServed`).
- **`ServeFS` sub-directory forms.** An empty sub-directory cleans to ".". `path.Join` then
  drops it, so every plain name fails the guard. A sub-directory of "/" trims to "", which lets
  every path through.
- **Non-seekable entries.** When an `fs.FS` entry is not seekable, `ServeFS` writes a 500 and
  carries on into `ServeContent` without returning. The model gives this its own outcome,
  `InternalErrorThenServe`.

## Model

| member | source | states |
|---|---|---|
| UrlPath.SanitizeURLPathPrefix | urlpath.go:7-19 | result starts and ends with '/'; "" gives "/"; result is the input with a '/' added only at whichever end lacks one; length grows by at most 2 |
| UrlPath.SanitizeIdempotent | urlpath.go:7-19 | a prefix already starting and ending with '/' is unchanged; sanitising twice equals sanitising once |
| UrlPath.Remainder | urlpath.go:24-26 | the remainder is what follows the first `urlPathPrefixLen` characters of the path, and "" when the path is no longer than that |
| UrlPath.ExtractTargetContentPath | urlpath.go:21-31 | the result is the default or the path's remainder; it is the default exactly when the remainder is "" or "/", and the remainder otherwise |
| Sanitize.SanitizeURLPathPrefix | sanitize.go:3-15 | result starts and ends with '/'; "" gives "/"; result is the input with '/' possibly added at each end; at most 2 longer |
| Sanitize.SanitizeIdempotent | sanitize.go:3-15 | sanitising twice equals sanitising once |
| Sanitize.AgreesWithUrlPath | sanitize.go:3-15 | the duplicate definition computes the same result as the one in urlpath.go on every input |
| GoPath.Split | filesystem.go:60 | splitting on '/' gives at least one piece |
| GoPath.SplitPieces | filesystem.go:60 | no piece of a split contains '/' |
| GoPath.SplitConcat | filesystem.go:60 | splitting `a + "/" + b` is splitting `a` followed by splitting `b` |
| GoPath.SplitJoinSegs | filesystem.go:60 | splitting segments joined with '/' gives back the segments (join and split are inverse) |
| GoPath.JoinSegsAppend | filesystem.go:60 | joining a concatenation puts one '/' between the two joins |
| GoPath.ReduceAppend | filesystem.go:60 | cleaning folds segment by segment: reducing `a + b` is reducing `b` from the result for `a` |
| GoPath.ReduceCanonical | filesystem.go:60 | the reduced stack of a clean has no "", "." or (when rooted) ".." entry, and any ".." only at the front |
| GoPath.ReduceKeepsCanonical | filesystem.go:60 | reducing segments that are already canonical leaves them unchanged |
| GoPath.ReduceWithoutDotDot | filesystem.go:60 | without "..", reducing only drops "" and "." and appends the remaining names |
| GoPath.Clean | fsfs.go:38 | `path.Clean` never returns "" and its result is rooted exactly when the input is (idempotence is `CleanIdempotent`) |
| GoPath.CleanShape | fsfs.go:38 | the stack Clean builds a result from is canonical: names, and ".." only at the front of a relative path |
| GoPath.CleanIdempotent | fsfs.go:38 | Clean(Clean(p)) == Clean(p) |
| GoPath.CleanAbsSegments | filesystem.go:24 | a clean absolute path is "/" or "/" followed by its canonical names joined with '/' |
| GoPath.CleanRelativeOfStack | fsfs.go:38 | joining a non-empty canonical relative stack gives a path that Clean leaves unchanged |
| GoPath.JoinRootedWithoutDotDot | filesystem.go:60 | joining a target without ".." onto a clean absolute folder is "/" followed by the folder's names and the target's names joined with '/' |
| GoPath.JoinWithoutDotDotStaysInside | filesystem.go:60-61 | joining a target without ".." onto a clean absolute folder gives the folder or a path under folder + "/" |
| GoPath.JoinWithoutNamesIsRoot | filesystem.go:60 | a target of only "", "." pieces joins to the folder itself |
| GoPath.CleanRelativeSegments | fsfs.go:64 | a clean relative directory other than "." is its split pieces joined with '/', all of them names |
| GoPath.JoinRelativeWithoutDotDotStaysInside | fsfs.go:64-65 | joining a target without ".." onto a clean relative directory stays at or under that directory |
| GoPath.JoinOntoDotDropsDot | fsfs.go:64 | joining a plain name onto "." gives a path that starts with the name's first character, not with "." |
| GoPath.Join | filesystem.go:60 | `path.Join` is "" exactly when both elements are; any other result is already clean, and it is rooted exactly when the first non-empty element is |
| GoPath.HasPrefix | filesystem.go:61 | `strings.HasPrefix(s, p)` holds exactly when s is p followed by some string |
| GoPath.LeadingCut | fsfs.go:38 | counts the leading characters in the cutset: all before it are in the cutset, the one at it is not |
| GoPath.TrailingCut | fsfs.go:38 | the same for the trailing characters |
| GoPath.Trim | fsfs.go:38 | the result is a contiguous slice of the input whose ends are not in the cutset, and everything cut off is in the cutset |
| HttpServeFile.StatusWritten | filesystem.go:61-78 | the handler writes a status itself for every outcome except serving and forwarding, and only an error status (4xx or 5xx) |
| HttpServeFile.Stat | filesystem.go:65-70 | a missing path fails with not-exist; success is exactly a present entry without a stat error, reporting its kind and mtime |
| HttpServeFile.Open | filesystem.go:75-80 | a missing path fails with not-exist; success is exactly a present entry without an open error, on that path |
| FileSystem.Abs | filesystem.go:24-26 | an absolute path becomes its Clean; a relative one is resolved against the working directory; it fails only when relative with no working directory; a success is a clean absolute path |
| FileSystem.NewServeFileSystemWithPrefixLength | filesystem.go:18-34 | an empty folder path fails with the empty-storage error, and only it; it fails exactly when the path is empty, or relative while the working directory cannot be read; a prefix length below 1 becomes 1; the folder is the cleaned absolute path |
| FileSystem.NewServeFileSystemWithPrefix | filesystem.go:36-44 | fails exactly when the path is empty, or relative with no working directory; the prefix length is exactly the sanitised prefix's length (the given one when already slash-delimited); the folder is the cleaned absolute path, or the path joined onto the working directory |
| FileSystem.NewServeFileSystem | filesystem.go:46-49 | fails exactly when the path is empty, or relative with no working directory; prefix length 1; the folder is the cleaned absolute path, or the path joined onto the working directory |
| FileSystem.TargetFileName | filesystem.go:52-59 | an explicit target is used as it is; otherwise a remainder of "" or "/" is kept and every other remainder is replaced by the default name |
| FileSystem.TargetFilePath | filesystem.go:60 | the joined path is always a clean absolute path, whatever the target holds |
| FileSystem.PassesGuard | filesystem.go:61 | a path passes exactly when it is the folder's text followed by anything, with or without a '/' |
| FileSystem.Decide | filesystem.go:51-83 | 404 exactly when the guard fails or the path is a directory; 500 exactly when stat fails or opening a regular file fails; otherwise served from the joined path, under the folder prefix, with the entry's mtime |
| FileSystem.ServeHTTP | filesystem.go:51-83 | answers as Decide; makes no store call exactly when the guard fails; every call is on the joined path; past the guard the calls are exactly a stat, then an open unless the stat failed or found a directory, then a close if the open succeeded |
| FileSystem.Close | filesystem.go:85-88 | closing never fails |
| FileSystem.RequestedNameIsIgnored | filesystem.go:52-59 | any two requests whose remainders are not "" or "/" resolve to the default name and get the same outcome |
| FileSystem.BarePrefixLooksUpFolder | filesystem.go:52-59 | a remainder of "" or "/" resolves to the content folder itself, which is a 404 when it is a directory |
| FileSystem.OrdinaryTargetPassesGuard | filesystem.go:60-64 | a target without ".." joins to a path at or under the folder and passes the guard |
| FileSystem.RejectionIgnoresStore | filesystem.go:60-64 | a request that fails the guard is a 404 whatever the store holds |
| FileSystem.SiblingJoinOf | filesystem.go:60 | for names a, b, c, d, joining `../c/d` onto `/a/b` gives `/a/c/d` |
| FileSystem.TraversalJoinOf | filesystem.go:60 | for names a, b, c, d, joining `../../c/d` onto `/a/b` gives `/c/d` |
| FileSystem.SiblingDirectoryIsServed | filesystem.go:60-64 | for a folder `/a/b` and a sibling name c that extends b (as `www2` extends `www`), the target `../c/d` passes the textual guard although the served path `/a/c/d` is not under `/a/b/`, and it is served when the store holds a regular file there |
| FileSystem.TraversalIsNotFound | filesystem.go:60-64 | for a folder `/a/b`, a target `../../c/d` with c starting differently from a (as `../../etc/passwd` under `/srv/www`) fails the guard and is a 404 |
| FsFs.FsPathPrefix | fsfs.go:38 | the stored sub-directory has no separator at either end; "" becomes "."; "/" becomes "" |
| FsFs.NewServeFSWithPrefixLength | fsfs.go:23-41 | a prefix length below 1 becomes 1; a zero mtime is replaced by the current time, any other kept; the tree is kept and the sub-directory is cleaned and trimmed |
| FsFs.NewServeFSWithPrefix | fsfs.go:43-53 | prefix length is exactly the sanitised prefix's length (the given one when already slash-delimited); tree, sub-directory and mtime as in NewServeFSWithPrefixLength |
| FsFs.NewServeFS | fsfs.go:55-58 | prefix length 1; tree, sub-directory and mtime as in NewServeFSWithPrefixLength |
| FsFs.TargetFileName | fsfs.go:61-63 | an explicit target is used as it is; otherwise a remainder of "" or "/" is replaced by the default and every other remainder is kept |
| FsFs.TargetFilePath | fsfs.go:64 | the opened path is clean, and empty only when both the sub-directory and the target are |
| FsFs.PassesGuard | fsfs.go:65 | a path passes exactly when it is the sub-directory's text followed by anything; an empty sub-directory lets everything through |
| FsFs.Decide | fsfs.go:60-94 | 404 when the guard fails, the entry does not exist, or it is a directory; 500 exactly on any other open error or a stat error; otherwise served from the joined path with the fixed mtime, and a non-seekable entry gets a 500 before the content |
| FsFs.ServeHTTP | fsfs.go:60-94 | answers as Decide; no call when the guard fails; every call is on the joined path; an opened entry is stat'ed through its handle and then closed, a failed open makes no further call |
| FsFs.Close | fsfs.go:96-99 | closing never fails |
| FsFs.SubstitutionDiffersFromFileSystem | fsfs.go:61-63 | this backend substitutes the default for "" and "/" and keeps other remainders; the file-system backend does the reverse; they agree only when the remainder is the default itself |
| FsFs.ModTimeIsFixed | fsfs.go:93 | every served request carries the construction-time mtime |
| FsFs.OrdinaryTargetPassesGuard | fsfs.go:64-68 | under a clean relative sub-directory, a target without ".." stays at or under it and passes the guard |
| FsFs.EmptySubDirectoryRejectsPlainNames | fsfs.go:38-68 | with an empty sub-directory the prefix is "." and every plain name is a 404 |
| FsFs.RootSubDirectoryPassesEverything | fsfs.go:38-68 | with sub-directory "/" the prefix is "" and every path passes the guard |
| FsFs.SiblingJoinOf | fsfs.go:64 | for names b, c, d, joining `../c/d` onto the sub-directory `b` gives `c/d` |
| FsFs.OrdinarySubDirectory | fsfs.go:38 | a sub-directory `/a/` (a a name without separators) is stored as `a`, a clean relative directory, so `OrdinaryTargetPassesGuard` applies |
| FsFs.SiblingDirectoryIsServed | fsfs.go:61-93 | with sub-directory `/b/` and a name c extending b, a request for the prefix followed by `../c/d` is opened at `c/d`, passes the guard although not under `b/`, and is served |
| ZipArchive.ForwardedPath | ziparchive.go:68-70 | the forwarded path starts with '/', and is the target unchanged exactly when the target already did |
| ZipArchive.ForwardedPathIdempotent | ziparchive.go:68-70 | rewriting a forwarded path again changes nothing |
| ZipArchive.Decide | ziparchive.go:51-77 | a closed archive gives 502; otherwise 404 exactly when the target is empty; else a forward of a copy differing from the request only in its path, which is the target, with a '/' put in front only when it lacks one |
| ZipArchive.ServeZipArchive.ServeHTTP | ziparchive.go:51-77 | answers as Decide on whether the archive server is present; a forwarded request reaches the archive server, which nothing else changes |
| ZipArchive.ServeZipArchive.Close | ziparchive.go:79-87 | drops the archive server; the first call closes it and returns its error, later calls return no error |
| ZipArchive.ZipArchiveContentServer.ServeHTTP | ziparchive.go:76 | the archive server receives the forwarded request |
| ZipArchive.ZipArchiveContentServer.Close | ziparchive.go:84 | the archive server is closed and returns its close error |
| ZipArchive.NewServeZipArchiveWithPrefixLength | ziparchive.go:17-34 | an empty archive path fails with the empty-storage error before the archive is opened; an open error is returned as is; else a prefix length of at least 1 and an open, unused archive server |
| ZipArchive.NewServeZipArchiveWithPrefix | ziparchive.go:36-44 | as NewServeZipArchiveWithPrefixLength: empty path refused, open error returned unchanged, otherwise success with an open, unused archive server; prefix length is exactly the sanitised prefix's length |
| ZipArchive.NewServeZipArchive | ziparchive.go:46-49 | as NewServeZipArchiveWithPrefixLength: empty path refused, open error returned unchanged, otherwise success with an open, unused archive server; prefix length 1 |
| ZipArchive.BarePrefixIsNotFound | ziparchive.go:56-67 | a request for the bare prefix keeps the empty remainder and is a 404 |
| ZipArchive.EveryNameForwardsDefault | ziparchive.go:56-70 | every remainder other than "" and "/" is forwarded as the default name |
| ZipArchive.SubPageForwardsDefault | ziparchive.go:56-75 | /content/sub/page.html under a 9-character prefix is forwarded as /index.html |
| ZipArchive.CloseThenServe | ziparchive.go:51-87 | after Close the same request gets 502, a status the handler writes itself; the first Close returns the archive server's error, the second none |
| SampleHandler.Route | sample/handler.go:30-39 | a request reaches the content server exactly when its path has the "/content/" prefix, always with default index.html; the configured target is passed only for /content/target |
| SampleHandler.TargetPathHasContentPrefix | sample/handler.go:10-14 | the exact target path also carries the content prefix, so it must be tested first |
| SampleHandler.SampleHandler.ServeHTTP | sample/handler.go:30-39 | dispatches as Route; the content server receives the request with the routed names, or is untouched on 404; a missing server is allowed for paths outside /content/ |
| SampleHandler.ServeAfterClose | sample/handler.go:21-39 | after Close leaves no content server, a path outside /content/ is still answered with 404, and Close returns the server's error |
| SampleHandler.SampleHandler.Close | sample/handler.go:21-28 | drops the content server; the first call closes it and returns its error, later calls return no error |
| SampleHandler.ContentServer.ServeHTTP | sample/handler.go:32-35 | the content server receives the request with the default and target names |
| SampleHandler.ContentServer.Close | sample/handler.go:25 | the content server is closed once more and returns its close error |
| SampleHandler.CloseTwice | sample/handler.go:21-28 | closing the handler twice closes its server once and reports its error once |

## Left out

- `http.ServeContent`: range requests, conditional headers, MIME sniffing and writing the body
  are not modelled. A served request is the outcome `Serve(name, modTime)`.
- The response writer and the logging calls are not modelled. Outcomes name the status written
  instead (`StatusWritten`).
- The file system and the `fs.FS` tree are replaced by a map from path to entry, with the
  errors each call returns given per entry. OS path separators are taken to be '/'.
- `filepath.Abs` depends on the process working directory. It is a parameter (`cwd`), where
  `None` means the working directory could not be read.
- `time.Now()` is a parameter (`now`). Times are integers and 0 is the zero time.
- The archive content server from `go-util-http-handlers` is not part of this model. Opening the
  archive and closing it are given as the `openError` and `closeError` parameters. Resolving
  entries inside the archive is not modelled; the server only records forwarded requests.
- UrlPath.Remainder: lengths and indices count characters, where Go's `len` and slicing count
  UTF-8 bytes. The two agree on ASCII paths; a prefix length that ends inside a multi-byte
  character cuts differently. The same holds for `ExtractTargetContentPath` and every
  `TargetFileName` built on it.
- FsFs.NewServeFSWithPrefixLength: the Go function also returns an error, which is always nil.
  The model returns the value alone.
- FsFs.Decide: after a non-seekable entry, `ServeContent` is called with a nil reader. What
  that call then does is not modelled: the outcome is only `InternalErrorThenServe`.
- SampleHandler.SampleHandler.ServeHTTP: requires a content server only for paths under
  `/content/`. There the handler dereferences it unchecked, and Go panics on a nil server (no
  folder or archive configured in `sample/main.go`, or after `Close`). That panic is not
  modelled. Every other path is answered with 404 whether or not a server is present.
- Concurrency: a `Close` racing with `ServeHTTP` on the zip backend or the sample handler is not
  modelled. The methods run one at a time.
- `sample/main.go` is not part of this model. It covers flag parsing, choosing a backend and
  starting the HTTP server.
- `errors.go` and the `HTTPFileServer` interface in `httpfileserver.go` are represented by the
  `Error` datatype and by the common shape of each module's `ServeHTTP` and `Close`.
