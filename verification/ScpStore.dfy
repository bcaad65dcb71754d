/** The file tree an SCP transfer writes to: directories and regular files by absolute path.
    `times` is what Chtimes last set; None means the clock set them. */
module ScpStore {
  import opened Prelude

  type Path = seq<string>

  datatype Times = Times(mtime: int, mtimeMicros: int, atime: int, atimeMicros: int)

  datatype Node =
    | Dir(mode: nat, times: Option<Times>)
    | File(content: string, mode: nat, times: Option<Times>)

  type Store = map<Path, Node>

  predicate IsDir(fs: Store, p: Path) {
    p in fs && fs[p].Dir?
  }

  function Parent(p: Path): Path
    requires p != []
  {
    p[..|p| - 1]
  }

  /** Adding a directory entry sets the modification time of the directory. */
  function Create(fs: Store, p: Path, node: Node): Store
    requires p != []
  {
    var fs1 := if IsDir(fs, Parent(p)) then fs[Parent(p) := Dir(fs[Parent(p)].mode, None)] else fs;
    fs1[p := node]
  }

  /** os.MkdirAll. */
  function MkdirAll(fs: Store, p: Path, mode: nat): Option<Store> {
    if p in fs then (if fs[p].Dir? then Some(fs) else None)
    else if p == [] then Some(fs[p := Dir(mode, None)])
    else
      var made := MkdirAll(fs, Parent(p), mode);
      if made.None? then None else Some(Create(made.value, p, Dir(mode, None)))
  }

  /** os.OpenFile with O_CREATE, O_WRONLY and O_TRUNC. */
  function OpenTruncated(fs: Store, p: Path, mode: nat): Option<Store> {
    if p in fs then
      if fs[p].Dir? then None else Some(fs[p := File("", fs[p].mode, None)])
    else if p == [] || !IsDir(fs, Parent(p)) then None
    else Some(Create(fs, p, File("", mode, None)))
  }

  function Append(fs: Store, p: Path, data: string): Store {
    if p in fs && fs[p].File? then fs[p := File(fs[p].content + data, fs[p].mode, None)] else fs
  }

  /** os.Chmod, then os.Chtimes when times were announced; both ignore errors. */
  function SetAttributes(fs: Store, p: Path, mode: nat, times: Option<Times>): Store {
    if p !in fs then fs
    else
      var n := fs[p].(mode := mode);
      fs[p := if times.Some? then n.(times := times) else n]
  }
}
