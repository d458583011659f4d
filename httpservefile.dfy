/** The values the file-serving backends share: the request, what a handler does
    with it, the errors of the package and the abstract content store that stands
    in for the operating system's file system or an `fs.FS`. */
module HttpServeFile {
  import opened Wrappers

  /** The parts of a URL a handler can see; only `path` is used for routing. */
  datatype Url = Url(scheme: string, host: string, path: string, rawQuery: string)

  /** An incoming HTTP request (`verb` is the HTTP method). */
  datatype Request = Request(verb: string, url: Url, header: map<string, seq<string>>)

  /** What one `ServeHTTP` call does with its request.
      `Serve` hands the named content and modification time to the platform's
      conditional-GET primitive (which picks 200, 206 or 304 itself);
      `InternalErrorThenServe` writes a 500 and afterwards still reaches that
      primitive, with no reader; `Forward` passes a rewritten request on to the
      archive collaborator. */
  datatype Outcome =
    | NotFound
    | InternalError
    | BadGateway
    | Serve(name: string, modTime: int)
    | InternalErrorThenServe(name: string, modTime: int)
    | Forward(request: Request)

  /** The status a handler writes itself; `None` when another component decides it. */
  function StatusWritten(o: Outcome): (status: Option<int>)
    ensures status.None? <==> o.Serve? || o.Forward?
    ensures status.Some? ==> 400 <= status.value < 600
  {
    match o
    case NotFound => Some(404)
    case InternalError => Some(500)
    case BadGateway => Some(502)
    case InternalErrorThenServe(_, _) => Some(500)
    case Serve(_, _) => None
    case Forward(_) => None
  }

  /** The package's errors: `ErrEmptyContentStoragePath` and the failures of the
      collaborators it calls (working directory lookup, archive open and close). */
  datatype Error = EmptyContentStoragePath | WorkingDirectoryUnavailable | ArchiveOpenFailed | ArchiveCloseFailed

  /** How a stat or open call fails; `ErrNotExist` is what `errors.Is(err, fs.ErrNotExist)` detects. */
  datatype ErrKind = ErrNotExist | ErrPermission | ErrOther

  datatype Kind = RegularFile(seekable: bool) | Directory

  /** One entry of a store: what it is, when it changed, and how stat and open on it fail, if they do. */
  datatype Entry = Entry(kind: Kind, modTime: int, statErr: Option<ErrKind>, openErr: Option<ErrKind>)

  /** A content store: a path names at most one entry; a path with no entry does not exist. */
  type Store = map<string, Entry>

  datatype FileInfo = FileInfo(isDir: bool, modTime: int)

  /** An open file; `seekable` says whether it implements `io.ReadSeeker`. */
  datatype Handle = Handle(path: string, seekable: bool)

  /** Stat of a path (`os.Stat`, or `Stat` on a handle opened on that path). */
  function Stat(store: Store, path: string): (r: Result<FileInfo, ErrKind>)
    ensures r.Success? <==> path in store && store[path].statErr.None?
    ensures path !in store ==> r == Failure(ErrNotExist)
    ensures r.Success? ==> r.value.isDir == store[path].kind.Directory? && r.value.modTime == store[path].modTime
  {
    if path !in store then Failure(ErrNotExist)
    else match store[path].statErr
      case Some(k) => Failure(k)
      case None => Success(FileInfo(store[path].kind.Directory?, store[path].modTime))
  }

  /** Open of a path (`os.Open` or `fs.FS.Open`). */
  function Open(store: Store, path: string): (r: Result<Handle, ErrKind>)
    ensures r.Success? <==> path in store && store[path].openErr.None?
    ensures path !in store ==> r == Failure(ErrNotExist)
    ensures r.Success? ==> r.value.path == path && r.value.seekable == (store[path].kind.RegularFile? && store[path].kind.seekable)
  {
    if path !in store then Failure(ErrNotExist)
    else match store[path].openErr
      case Some(k) => Failure(k)
      case None => Success(Handle(path, store[path].kind.RegularFile? && store[path].kind.seekable))
  }

  /** A call a handler makes on its store, in the order made. */
  datatype Effect = StatPath(path: string) | OpenPath(path: string) | StatHandle(path: string) | CloseHandle(path: string)
}
