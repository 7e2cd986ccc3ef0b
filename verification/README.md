# Single-page-application fallback handler, modelled in Dafny

The handler in `spa.go` serves the static assets of a single-page
application. For every request it cleans the URL path, strips every leading
`/`, and asks the asset store whether that name opens, stats, and is not a
directory. If so, the request reaches the static-file server unchanged.
Otherwise a clone of the request, bound to the same context and with its URL
path set to `/`, reaches the static-file server, which then serves the root
document. This lets client-side routes and deep links survive page reloads.
The constructor picks the asset store: in a normal build it is the embedded
store and construction cannot fail. In a debug build it is a live directory
found relative to the caller's source file, and its errors are returned
unchanged.

The project has five modules:

- `Wrappers` (`wrappers.dfy`): `Option` and `Result`, for Go's `ok` flags and `(value, error)` pairs.
- `Strs` (`strs.dfy`): `strings.TrimLeft` with the one-character cut set `"/"`. It is stated two ways: as a recursive function and as the byte loop Go runs. Both are tied to the declarative `IsLeftTrim`, which says "the maximal leading run of `/` is removed".
- `CleanPath` (`cleanpath.dfy`): Go's `path.Clean`, written with path elements. Empty and `.` elements are dropped. `..` pops the previous element; at the root it is dropped, and in a relative path with nothing left to pop it is kept. The result is `/` or `.` when nothing survives. `path.Clean` is Go standard library code and is not part of the repository, so this is a model of its documented lexical rules.
- `FileStore` (`filestore.dfy`): the abstract read-only `fs.FS`. It is a map from names to entries that either refuse to open (with an error) or open and then stat as recorded (an error, or a `FileInfo` with `isDir` and `size`). An absent name does not exist.
- `Spa` (`spa.dfy`): `canServeFile`, the handler closure (`Route`), and both constructors. It also holds the routing lemmas and the worked example of a store with `index.html`, the directory `assets` and `assets/app.js`.

`canServeFile` returns its verdict together with the calls it made on the
store (`OpenCall(name)`, `StatCall`, `CloseCall`). This makes the deferred
`Close` something a contract can state. The static-file delegate appears
only as the request it receives (`Forward(req)`). Requests are immutable
values, so "the original request is not mutated" holds by construction.

`strings.TrimLeft` (spa.go:65) removes every leading `/`, not only the
first; see `Strs.TrimLeftIgnoresLeadingRun` and `Spa.LeadingSlashesIrrelevant`.
Any entry that opens and stats as a non-directory is servable: the source
tests only `IsDir` (spa.go:73), so devices, pipes and sockets count too.

## Model

| member | source | states |
|---|---|---|
| Strs.TrimLeft | spa.go:65 | The result is exactly the input with its maximal leading run of `/` removed: a suffix of the input, the part cut off is all `/`, and the result does not start with `/`. |
| Strs.TrimLeftByte | spa.go:65 | Go's loop that drops the first byte while it is the cut byte computes the maximal left trim, which is the same string as the recursive definition. |
| Strs.LeftTrimUnique | spa.go:65 | At most one string is the maximal left trim of a given input. |
| Strs.TrimLeftCharacterised | spa.go:65 | A string is the declarative left trim of the input if and only if it is what `TrimLeft` returns. |
| Strs.TrimLeftIdempotent | spa.go:65 | Trimming an already trimmed name changes nothing. |
| Strs.TrimLeftIgnoresLeadingRun | spa.go:65 | Any number of extra leading `/` gives the same trimmed name, so every leading slash is removed, not only one. |
| Strs.TrimLeftKeepsUnprefixed | spa.go:65 | A name that does not start with `/` is passed through unchanged. |
| CleanPath.Split | spa.go:54 | Splitting a path at `/` gives at least one element, no element contains `/`, and joining the elements with `/` gives back the path. |
| CleanPath.Clean | spa.go:54 | The cleaned path is never empty. It starts with `/` exactly when the request path does. It ends in `/` only when it is the root `/`. |
| CleanPath.ResolveCanonical | spa.go:54 | Lexical processing keeps the surviving elements canonical: only names, `..` only in relative paths, and every `..` before every name. |
| CleanPath.JoinEnds | spa.go:54 | Non-empty elements without `/`, once joined, neither start nor end with `/`. |
| CleanPath.SplitJoin | spa.go:54 | Splitting undoes joining for a non-empty list of elements without `/`. |
| CleanPath.ResolveCanonicalIsAppend | spa.go:54 | Processing elements that already form a canonical list keeps every one of them. |
| CleanPath.CleanSegmentsOfClean | spa.go:54 | Cleaning a cleaned path yields the same surviving elements. |
| CleanPath.CleanIdempotent | spa.go:54 | Cleaning is idempotent: `Clean(Clean(p)) == Clean(p)`. |
| CleanPath.CleanRootedNames | spa.go:54 | A rooted path made only of proper names is already clean. |
| CleanPath.DotDotCancels | spa.go:54 | For any names `a` and `b`, `/a/../b` cleans to the same path as `/b`, namely `/b`. |
| Spa.CanServeFile | spa.go:64-77 | The name opened is the file name with every leading `/` removed. The verdict is true exactly when the store holds an entry under that name that opens and stats as a non-directory. `Close` is called exactly when the open succeeded, exactly once, and as the last call. |
| Spa.ProbeCloses | spa.go:66-76 | A failed open makes no further call: the trace is exactly the open. A successful open is followed by exactly `Stat` and then `Close`, on both the stat-error exit and the normal exit, so `Close` is last and happens once. The verdict is true exactly for a non-directory stat. |
| Spa.OpenNonDirectory | spa.go:65-76 | Opening a name gives a successful non-directory stat exactly when the store holds a non-directory entry under that name. |
| Spa.CanServeFileDecides | spa.go:64-77 | The verdict on a file name is whether its left-trimmed form names a non-directory entry in the store. |
| Spa.OpenFailureNotServable | spa.go:65-68 | A name that is absent or refuses to open is not servable, and neither `Stat` nor `Close` is called. |
| Spa.StatFailureNotServable | spa.go:69-72 | An entry that opens but fails to stat is not servable, and its handle is still closed, last. |
| Spa.DirectoryNotServable | spa.go:73-74 | A directory entry is never servable. |
| Spa.NonDirectoryServable | spa.go:73-76 | Any openable non-directory entry is servable, whatever its size, a zero-length one included. |
| Spa.LeadingSlashesIrrelevant | spa.go:65 | Prefixing a name with any number of `/` does not change the check's verdict or its calls. |
| Spa.OpenNameConfined | spa.go:54-65 | For a rooted request path, the name handed to open is the cleaned elements joined by `/`, each a proper name (never empty, `.` or `..`), so the lookup cannot climb above the store's root. |
| Spa.Route | spa.go:53-61 | A servable request reaches the delegate unchanged. Any other request reaches it with URL path `/`, the same context, and every other request field and URL field unchanged. |
| Spa.RouteDependsOnlyOnCleanPath | spa.go:54-59 | Two requests that differ only in a path with the same cleaned form get the same verdict. Both are forwarded as themselves, or both are rewritten to the same request. |
| Spa.CleanedPathRoutesAlike | spa.go:54 | Requesting the cleaned form of a path gives the same verdict as the path itself. |
| Spa.CleanRoot | spa.go:58 | The fallback path `/` is already clean. |
| Spa.RouteIdempotent | spa.go:53-61 | Routing the request the delegate received once more forwards exactly that request again. |
| Spa.NewDebugHandler | spa.go:36-49 | Without caller information, construction fails with "could not get caller information". Otherwise the directory-open error is returned as it is, or on success the handler serves the opened directory. |
| Spa.NewSinglePageAppHandler | spa.go:29-34 | Outside debug builds, construction always succeeds with a handler over the embedded store. In debug builds, an unknown caller gives the caller error, an open failure gives exactly that open error, and a successful open gives a handler over exactly the opened store. |
| Spa.EmbeddedEntriesServedAsRequested | spa.go:29-55 | A handler built outside debug builds forwards every request whose cleaned path names an embedded non-directory entry unchanged. |
| Spa.ServableRootedNames | spa.go:54-65 | A rooted path made of proper names is servable exactly when those names, joined by `/`, name a non-directory entry. |
| Spa.RouteRootedNames | spa.go:53-61 | A request for a rooted path of proper names is forwarded as it is when the joined names are a non-directory entry, and as a request for `/` otherwise. |
| Spa.ScenarioScript | spa.go:53-55 | In the example store, `/assets/app.js` is forwarded as requested. |
| Spa.ScenarioMissing | spa.go:56-59 | In the example store, `/assets/missing.js` reaches the delegate as a request for `/`. |
| Spa.ScenarioDirectory | spa.go:56-59 | In the example store, the directory `/assets` reaches the delegate as a request for `/`. |
| Spa.ScenarioRoot | spa.go:56-59 | In the example store, `/` reaches the delegate as a request for `/`. |

## Left out

- The static-file delegate (`http.FileServerFS`, spa.go:52, 55, 59). Byte serving, range requests, content types and conditional GET belong to the Go standard library. The delegate is modelled only as the request it receives.
- Response writing and the `http.ResponseWriter`: the model returns the forwarded request instead of writing a response.
- Concurrency: the handler keeps no state between requests, and the model's functions are pure, so there is nothing further to model.
- `runtime.Caller(2)`, `filepath.Join`/`filepath.Dir` and `os.OpenRoot` (spa.go:37-43): stack inspection and real filesystem access. They are parameters of `NewDebugHandler`: the caller's file as an `Option`, the path resolution as an opaque `locate` function, and the directory open as an opaque `openRoot` function.
- The finalizer that closes the `os.Root` when it becomes unreachable (spa.go:47): this is garbage-collector behaviour with no counterpart in the model.
- The `debug.Debug` build tag: it is the `debug` boolean parameter of `NewSinglePageAppHandler`.
- Byte-versus-character strings: Go strings are bytes and the model's are characters. `/`, `.` and the trimming loop behave the same on UTF-8 bytes as on characters, and no other character is inspected.
- `fs.FS` path validation (`fs.ValidPath`) inside the store is not modelled. A name the real store would reject as invalid (for example the empty name produced by `/`) is simply a name the map does not hold, or holds with an `Unopenable` entry.
- Error values of the store: `FsError` has a few representative variants. The source discards every open and stat error, so only the verdict depends on them.
- CleanPath.Clean: follows Go's documented lexical rules, not a line-by-line copy of the standard library's single-pass buffer algorithm. The standard library source is not part of this model, so the correspondence of the two formulations is not proved.
