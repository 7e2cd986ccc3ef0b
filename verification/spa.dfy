/**
 The single-page-application handler: a request whose cleaned path names a
 non-directory entry of the asset store reaches the static-file delegate as it is;
 any other request reaches it as a copy whose path is `/`, so that the root
 document is served instead.
 */
module Spa {
  import opened Wrappers
  import opened Strs
  import opened CleanPath
  import opened FileStore

  /** The calls the servability check makes on the store, in order. */
  datatype Event = OpenCall(name: string) | StatCall | CloseCall

  /** The outcome of the servability check together with the calls it made. */
  datatype Check = Check(servable: bool, events: seq<Event>)

  /** The request path names a non-directory entry once it is cleaned and stripped of every leading `/`. */
  ghost predicate Servable(fsys: FS, path: string) {
    IsNonDirectory(fsys, TrimLeft(Clean(path), '/'))
  }

  /**
   canServeFile: open the name with all leading `/` removed; a failed open, a
   failed stat or a directory is not servable, anything else is. The handle
   is closed (deferred) after the stat on both exits that follow a successful open.
   */
  function CanServeFile(fsys: FS, file: string): (c: Check)
    ensures |c.events| > 0 && c.events[0].OpenCall?
    ensures IsLeftTrim(file, '/', c.events[0].name)
    ensures c.servable <==> IsNonDirectory(fsys, c.events[0].name)
    ensures CloseCall in c.events <==> Open(fsys, c.events[0].name).Opened?
    ensures CloseCall in c.events ==> c.events[|c.events| - 1] == CloseCall && multiset(c.events)[CloseCall] == 1
  {
    var name := TrimLeft(file, '/');
    var o := Open(fsys, name);
    ProbeCloses(name, o);
    OpenNonDirectory(fsys, name);
    Probe(name, o)
  }

  /** The check after the open: stat an opened handle, then close it on the way out. */
  function Probe(name: string, o: OpenResult): Check
  {
    match o
    case OpenErr(_) => Check(false, [OpenCall(name)])
    case Opened(st) =>
      var trace := [OpenCall(name), StatCall, CloseCall];
      match st
      case StatErr(_) => Check(false, trace)
      case Info(info) => Check(!info.isDir, trace)
  }

  /** The probe closes exactly the handles that were opened, once and as its last call. */
  lemma ProbeCloses(name: string, o: OpenResult)
    ensures var c := Probe(name, o);
      && |c.events| > 0 && c.events[0] == OpenCall(name)
      && (o.OpenErr? ==> c.events == [OpenCall(name)])
      && (o.Opened? ==> c.events == [OpenCall(name), StatCall, CloseCall])
      && (c.servable <==> o.Opened? && o.stat.Info? && !o.stat.info.isDir)
      && (CloseCall in c.events <==> o.Opened?)
      && (CloseCall in c.events ==> c.events[|c.events| - 1] == CloseCall && multiset(c.events)[CloseCall] == 1)
  {
  }

  /** Opening a name yields a non-directory stat exactly for the store's non-directory entries. */
  lemma OpenNonDirectory(fsys: FS, name: string)
    ensures IsNonDirectory(fsys, name) <==>
      var o := Open(fsys, name); o.Opened? && o.stat.Info? && !o.stat.info.isDir
  {
  }

  /** The check's verdict on a name is whether the name, stripped of its leading `/`, is a non-directory entry. */
  lemma CanServeFileDecides(fsys: FS, file: string)
    ensures CanServeFile(fsys, file).servable <==> IsNonDirectory(fsys, TrimLeft(file, '/'))
  {
    var c := CanServeFile(fsys, file);
    LeftTrimUnique(file, '/', c.events[0].name, TrimLeft(file, '/'));
  }

  /** A name that does not open is not servable, and neither stat nor close is called. */
  lemma OpenFailureNotServable(fsys: FS, file: string)
    requires var name := TrimLeft(file, '/'); name !in fsys || fsys[name].Unopenable?
    ensures !CanServeFile(fsys, file).servable
    ensures CanServeFile(fsys, file).events == [OpenCall(TrimLeft(file, '/'))]
  {
  }

  /** An entry that opens but fails to stat is not servable, and its handle is still closed last. */
  lemma StatFailureNotServable(fsys: FS, file: string)
    requires var name := TrimLeft(file, '/'); name in fsys && fsys[name].Present? && fsys[name].stat.StatErr?
    ensures !CanServeFile(fsys, file).servable
    ensures CanServeFile(fsys, file).events == [OpenCall(TrimLeft(file, '/')), StatCall, CloseCall]
  {
  }

  /** A directory is never servable. */
  lemma DirectoryNotServable(fsys: FS, file: string, size: nat)
    requires TrimLeft(file, '/') in fsys
    requires fsys[TrimLeft(file, '/')] == Present(Info(FileInfo(true, size)))
    ensures !CanServeFile(fsys, file).servable
  {
  }

  /** Any openable non-directory entry is servable, whatever its size, an empty one included. */
  lemma NonDirectoryServable(fsys: FS, file: string, size: nat)
    requires TrimLeft(file, '/') in fsys
    requires fsys[TrimLeft(file, '/')] == Present(Info(FileInfo(false, size)))
    ensures CanServeFile(fsys, file).servable
  {
  }

  /** However many `/` precede a name, the same entry is checked. */
  lemma LeadingSlashesIrrelevant(fsys: FS, n: nat, file: string)
    ensures CanServeFile(fsys, Repeat('/', n) + file) == CanServeFile(fsys, file)
  {
    TrimLeftIgnoresLeadingRun(n, file, '/');
  }

  /**
   For a rooted request path the name handed to open is the cleaned elements
   joined by `/`, each a proper name: never `.` or `..`, never empty, so the
   lookup cannot climb above the store's root.
   */
  lemma OpenNameConfined(path: string)
    requires IsRooted(path)
    ensures TrimLeft(Clean(path), '/') == Join(CleanSegments(path))
    ensures forall i :: 0 <= i < |CleanSegments(path)| ==> IsName(CleanSegments(path)[i])
  {
    var st := CleanSegments(path);
    CleanSegmentsCanonical(path);
    CleanSegmentsProper(path);
    if st == [] {
      assert TrimLeft("/", '/') == TrimLeft("", '/');
    } else {
      RootedTrim(st);
    }
  }

  /** Stripping the leading `/` of a rooted join of proper elements leaves the join. */
  lemma RootedTrim(st: seq<string>)
    requires |st| >= 1 && Proper(st)
    ensures TrimLeft("/" + Join(st), '/') == Join(st)
  {
    JoinEnds(st);
    TrimLeftIgnoresLeadingRun(1, Join(st), '/');
    assert Repeat('/', 1) == "/";
    TrimLeftKeepsUnprefixed(Join(st), '/');
  }

  /** The cancellation and deadline linkage of a request. */
  datatype Context = Context(id: nat, cancelled: bool, deadline: Option<nat>)

  /** The parsed request target. */
  datatype Url = Url(scheme: string, host: string, path: string, rawPath: string, rawQuery: string, fragment: string)

  /** An incoming request, with the fields the handler passes along. */
  datatype Request = Request(
    verb: string,
    url: Url,
    proto: string,
    header: map<string, seq<string>>,
    host: string,
    remoteAddr: string,
    ctx: Context)

  /** The request the static-file delegate receives. */
  datatype Forward = Forward(req: Request)

  /** The handler: the asset store it checks, which is also the store its delegate serves from. */
  datatype Handler = Handler(fsys: FS)

  /**
   The handler closure: a servable request is forwarded unchanged; otherwise
   a clone bound to the same context, with only its URL path set to `/`.
   */
  function Route(h: Handler, r: Request): (f: Forward)
    ensures Servable(h.fsys, r.url.path) ==> f.req == r
    ensures !Servable(h.fsys, r.url.path) ==> f.req.url.path == "/"
    ensures !Servable(h.fsys, r.url.path) ==> f.req.ctx == r.ctx && f.req.(url := r.url) == r
    ensures !Servable(h.fsys, r.url.path) ==> f.req.url.(path := r.url.path) == r.url
  {
    CanServeFileDecides(h.fsys, Clean(r.url.path));
    if CanServeFile(h.fsys, Clean(r.url.path)).servable then
      Forward(r)
    else
      // a clone bound to the original context; copying a value leaves `r` itself untouched
      Forward(r.(url := r.url.(path := "/")))
  }

  /**
   Only the cleaned path matters: two requests that differ in their path
   alone, with equal cleaned paths, are routed alike, each forwarded as
   itself or both rewritten to the very same request.
   */
  lemma RouteDependsOnlyOnCleanPath(h: Handler, r1: Request, r2: Request)
    requires Clean(r1.url.path) == Clean(r2.url.path)
    requires r2 == r1.(url := r1.url.(path := r2.url.path))
    ensures Servable(h.fsys, r1.url.path) <==> Servable(h.fsys, r2.url.path)
    ensures Servable(h.fsys, r1.url.path) ==> Route(h, r1).req == r1 && Route(h, r2).req == r2
    ensures !Servable(h.fsys, r1.url.path) ==> Route(h, r1) == Route(h, r2)
  {
  }

  /** Requesting the cleaned form of a path is routed the same way as the path itself. */
  lemma CleanedPathRoutesAlike(h: Handler, r: Request)
    ensures Servable(h.fsys, Clean(r.url.path)) <==> Servable(h.fsys, r.url.path)
  {
    CleanIdempotent(r.url.path);
  }

  /** The root path is clean. */
  lemma CleanRoot()
    ensures Clean("/") == "/"
  {
    assert "/" == "" + "/" + "";
    SplitAfterElement("", "");
    assert Split("/") == ["", ""];
  }

  /** Routing the request the delegate received again forwards it unchanged. */
  lemma RouteIdempotent(h: Handler, r: Request)
    ensures Route(h, Route(h, r).req) == Route(h, r)
  {
    if !Servable(h.fsys, r.url.path) {
      CleanRoot();
    }
  }

  /** The message returned when the caller's source location is unavailable. */
  const CallerErrorMessage: string := "could not get caller information"

  /** Why a handler could not be constructed. */
  datatype ConstructError = CallerUnavailable(msg: string) | OsError(err: FsError)

  /**
   The debug constructor. `caller` is the source file of the constructing
   code, if the call stack yields it; `locate` resolves the relative asset
   path against that file's directory; `openRoot` opens the resulting
   directory as a confined store.
   */
  function NewDebugHandler(
    caller: Option<string>,
    embedPath: string,
    locate: (string, string) -> string,
    openRoot: string -> Result<FS, FsError>): (r: Result<Handler, ConstructError>)
    ensures caller.None? ==> r == Failure(CallerUnavailable(CallerErrorMessage))
    ensures caller.Some? ==>
      var outcome := openRoot(locate(caller.value, embedPath));
      && (outcome.Failure? ==> r == Failure(OsError(outcome.error)))
      && (outcome.Success? ==> r == Success(Handler(outcome.value)))
  {
    match caller
    case None => Failure(CallerUnavailable(CallerErrorMessage))
    case Some(file) =>
      match openRoot(locate(file, embedPath))
      case Failure(err) => Failure(OsError(err))
      case Success(root) => Success(Handler(root))
  }

  /**
   NewSinglePageAppHandler: outside debug builds the handler serves the
   embedded store and construction cannot fail; in debug builds the debug
   constructor's handler or error is returned as it is.
   */
  function NewSinglePageAppHandler(
    debug: bool,
    embedFs: FS,
    embedPath: string,
    caller: Option<string>,
    locate: (string, string) -> string,
    openRoot: string -> Result<FS, FsError>): (r: Result<Handler, ConstructError>)
    ensures !debug ==> r.Success? && r.value.fsys == embedFs
    ensures debug && caller.None? ==> r == Failure(CallerUnavailable(CallerErrorMessage))
    ensures debug && caller.Some? ==>
      var outcome := openRoot(locate(caller.value, embedPath));
      && (outcome.Failure? ==> r == Failure(OsError(outcome.error)))
      && (outcome.Success? ==> r == Success(Handler(outcome.value)))
  {
    if debug then NewDebugHandler(caller, embedPath, locate, openRoot)
    else Success(Handler(embedFs))
  }

  /** A handler built outside debug builds forwards every request naming an embedded non-directory entry unchanged. */
  lemma EmbeddedEntriesServedAsRequested(
    embedFs: FS,
    embedPath: string,
    caller: Option<string>,
    locate: (string, string) -> string,
    openRoot: string -> Result<FS, FsError>,
    r: Request)
    requires IsNonDirectory(embedFs, TrimLeft(Clean(r.url.path), '/'))
    ensures var h := NewSinglePageAppHandler(false, embedFs, embedPath, caller, locate, openRoot);
      h.Success? && Route(h.value, r).req == r
  {
  }

  /** A rooted path made of proper names is servable exactly when those names, joined, name a non-directory entry. */
  lemma ServableRootedNames(fsys: FS, st: seq<string>)
    requires |st| >= 1
    requires forall i :: 0 <= i < |st| ==> IsName(st[i])
    ensures Servable(fsys, "/" + Join(st)) <==> IsNonDirectory(fsys, Join(st))
  {
    CleanRootedNames(st);
    assert Proper(st) by {
      forall i | 0 <= i < |st|
        ensures st[i] != "" && '/' !in st[i]
      {
        assert IsName(st[i]);
      }
    }
    JoinEnds(st);
    TrimLeftIgnoresLeadingRun(1, Join(st), '/');
    assert Repeat('/', 1) == "/";
    TrimLeftKeepsUnprefixed(Join(st), '/');
  }

  /** `r` with its URL path replaced. */
  function WithPath(r: Request, path: string): Request
  {
    r.(url := r.url.(path := path))
  }

  /**
   A request for a rooted path of proper names is forwarded as it is when
   those names, joined, name a non-directory entry, and as a request for `/` otherwise.
   */
  lemma RouteRootedNames(h: Handler, r: Request, st: seq<string>)
    requires |st| >= 1
    requires forall i :: 0 <= i < |st| ==> IsName(st[i])
    ensures IsNonDirectory(h.fsys, Join(st)) ==>
      Route(h, WithPath(r, "/" + Join(st))).req == WithPath(r, "/" + Join(st))
    ensures !IsNonDirectory(h.fsys, Join(st)) ==>
      Route(h, WithPath(r, "/" + Join(st))).req == WithPath(r, "/")
  {
    ServableRootedNames(h.fsys, st);
  }

  /** The store of the example below. */
  function ExampleStore(): FS
  {
    map[
      "index.html" := Present(Info(FileInfo(false, 512))),
      "assets" := Present(Info(FileInfo(true, 0))),
      "assets/app.js" := Present(Info(FileInfo(false, 2048)))]
  }

  /** Which names of the example are non-directory entries. */
  lemma ExampleStoreFiles()
    ensures IsNonDirectory(ExampleStore(), "assets/app.js")
    ensures !IsNonDirectory(ExampleStore(), "assets")
    ensures !IsNonDirectory(ExampleStore(), "assets/missing.js")
    ensures !IsNonDirectory(ExampleStore(), "")
  {
    assert "assets/missing.js"[7] != "assets/app.js"[7];
  }

  /** The elements of the example paths are proper names. */
  lemma ExampleNames()
    ensures IsName("assets") && IsName("app.js") && IsName("missing.js")
  {
  }

  /** `/assets/app.js` spelled as elements. */
  lemma ExampleScriptPath()
    ensures "/" + Join(["assets", "app.js"]) == "/assets/app.js"
  {
  }

  /** `/assets/missing.js` spelled as elements. */
  lemma ExampleMissingPath()
    ensures "/" + Join(["assets", "missing.js"]) == "/assets/missing.js"
  {
  }

  /** `/assets` spelled as elements. */
  lemma ExampleDirectoryPath()
    ensures "/" + Join(["assets"]) == "/assets"
  {
  }

  /** In a store holding `index.html`, the directory `assets` and `assets/app.js`, the script is forwarded as requested. */
  lemma ScenarioScript(r: Request)
    ensures Route(Handler(ExampleStore()), WithPath(r, "/assets/app.js")).req == WithPath(r, "/assets/app.js")
  {
    ExampleStoreFiles();
    ExampleNames();
    ExampleScriptPath();
    RouteRootedNames(Handler(ExampleStore()), r, ["assets", "app.js"]);
  }

  /** In the same store a missing file reaches the delegate as a request for `/`. */
  lemma ScenarioMissing(r: Request)
    ensures Route(Handler(ExampleStore()), WithPath(r, "/assets/missing.js")).req == WithPath(r, "/")
  {
    ExampleStoreFiles();
    ExampleNames();
    ExampleMissingPath();
    RouteRootedNames(Handler(ExampleStore()), r, ["assets", "missing.js"]);
  }

  /** In the same store the directory `assets` reaches the delegate as a request for `/`. */
  lemma ScenarioDirectory(r: Request)
    ensures Route(Handler(ExampleStore()), WithPath(r, "/assets")).req == WithPath(r, "/")
  {
    ExampleStoreFiles();
    ExampleNames();
    ExampleDirectoryPath();
    RouteRootedNames(Handler(ExampleStore()), r, ["assets"]);
  }

  /** In the same store the root itself reaches the delegate as a request for `/`. */
  lemma ScenarioRoot(r: Request)
    ensures Route(Handler(ExampleStore()), WithPath(r, "/")).req == WithPath(r, "/")
  {
    CleanRoot();
  }
}
