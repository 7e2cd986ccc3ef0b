/**
 An abstract read-only file store with the two capabilities the handler
 uses: open an entry by name, and stat an opened entry. Each name maps to
 what opening it yields; a name that is absent does not exist.
 */
module FileStore {

  /** Why an open or a stat failed. */
  datatype FsError = ErrNotExist | ErrPermission | ErrInvalid | ErrIO(msg: string)

  /** What a successful stat reports. */
  datatype FileInfo = FileInfo(isDir: bool, size: nat)

  /** The outcome of stat on an opened entry. */
  datatype StatResult = StatErr(err: FsError) | Info(info: FileInfo)

  /** The outcome of open; an opened handle carries what its stat will report. */
  datatype OpenResult = OpenErr(err: FsError) | Opened(stat: StatResult)

  /** One entry of the store: it either opens (and then stats as recorded) or refuses to open. */
  datatype Entry = Present(stat: StatResult) | Unopenable(err: FsError)

  type FS = map<string, Entry>

  /** Opening a name: absent names do not exist, present ones open or fail as recorded. */
  function Open(fsys: FS, name: string): OpenResult
  {
    if name !in fsys then OpenErr(ErrNotExist)
    else match fsys[name]
      case Present(st) => Opened(st)
      case Unopenable(e) => OpenErr(e)
  }

  /**
   The store holds an entry under `name` that opens and stats as a non-directory (a file, device, pipe or socket alike), stated on the
   store itself rather than through `Open`.
   */
  ghost predicate IsNonDirectory(fsys: FS, name: string) {
    && name in fsys
    && fsys[name].Present?
    && fsys[name].stat.Info?
    && !fsys[name].stat.info.isDir
  }
}
