/**
 The world the writer acts on: regular files with their contents and a set of
 directories, both keyed by path. The operations are the PHP built-ins the
 writer calls, each as the state change it makes when it succeeds; `unlink`
 and `rmdir` are called with `@`, so when they fail they change nothing.
 */
module FileSystem {
  import opened Paths

  datatype Fs = Fs(files: map<Path, string>, dirs: set<Path>)

  /** `file_exists`: true for files and for directories. */
  predicate Exists(fs: Fs, p: Path)
  {
    p in fs.files || p in fs.dirs
  }

  /** Every path that `file_exists` reports. */
  function Entries(fs: Fs): (e: set<Path>)
    ensures forall p :: p in e <==> Exists(fs, p)
  {
    fs.files.Keys + fs.dirs
  }

  /** Every entry sits in an existing directory (the root is its own parent).
      The second trigger keeps the solver from walking up parent chains. */
  predicate WellFormed(fs: Fs)
  {
    && (forall p :: p in fs.files ==> Dirname(p) in fs.dirs)
    && (forall q {:trigger Dirname(q)} :: q in fs.dirs ==> Dirname(q) in fs.dirs)
  }

  /** `mkdir` */
  function Mkdir(fs: Fs, d: Path): Fs
  {
    fs.(dirs := fs.dirs + {d})
  }

  /** `file_put_contents`: creates or overwrites the file. */
  function PutContents(fs: Fs, p: Path, content: string): Fs
  {
    fs.(files := fs.files[p := content])
  }

  /** `@unlink`: removes the file if there is one. */
  function Unlink(fs: Fs, p: Path): Fs
  {
    fs.(files := fs.files - {p})
  }

  /** No file and no directory lies directly inside `d`. */
  predicate IsEmptyDir(fs: Fs, d: Path)
  {
    && (forall p :: p in fs.files ==> Dirname(p) != d)
    && (forall q :: q in fs.dirs ==> Dirname(q) != d)
  }

  /** `@rmdir`: removes the directory only when it exists and is empty. */
  function RmDir(fs: Fs, d: Path): (r: Fs)
    ensures r.files == fs.files
    ensures d !in r.dirs <==> d !in fs.dirs || IsEmptyDir(fs, d)
    ensures r.dirs == fs.dirs || r.dirs == fs.dirs - {d}
  {
    if d in fs.dirs && IsEmptyDir(fs, d) then fs.(dirs := fs.dirs - {d}) else fs
  }
}
