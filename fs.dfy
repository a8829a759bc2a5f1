/** The file system as the sync engine sees it: which paths are files and
    which are directories, relative to the working directory (the sync
    destination). Only the operations the engine calls are modelled, each with
    the exception Python raises when its argument is missing. */
module FileSystem {
  import opened Wrappers
  import opened Paths

  datatype Fs = Fs(files: set<string>, dirs: set<string>)

  /** `os.path.isfile(p)`. */
  predicate IsFile(fs: Fs, p: string) {
    p in fs.files
  }

  /** `os.path.isdir(p)` (false for the empty path). */
  predicate IsDir(fs: Fs, p: string) {
    p in fs.dirs
  }

  /** The directory that a new entry at `p` goes into exists: the working
      directory when `p` has no directory part. */
  predicate ParentExists(fs: Fs, p: string) {
    DirName(p) == "" || IsDir(fs, DirName(p))
  }

  /** `os.remove(p)`: the file is gone; FileNotFoundError when there was none. */
  function Remove(fs: Fs, p: string): (r: Result<Fs>)
    ensures r.Ok? <==> IsFile(fs, p)
    ensures r.Ok? ==> r.value == Fs(fs.files - {p}, fs.dirs)
    ensures r.Err? ==> r.error == FileNotFoundError
  {
    if p in fs.files then Ok(Fs(fs.files - {p}, fs.dirs)) else Err(FileNotFoundError)
  }

  /** `os.listdir(d)`: the names of the files and directories directly in `d`.
      `os.listdir("")` raises FileNotFoundError like a missing directory. */
  function ListDir(fs: Fs, d: string): (r: Result<set<string>>)
    ensures r.Ok? <==> d in fs.dirs
    ensures r.Ok? ==> forall p :: (p in fs.files || p in fs.dirs) && DirName(p) == d ==> BaseName(p) in r.value
    ensures r.Ok? ==> forall n :: n in r.value ==>
      exists p :: (p in fs.files || p in fs.dirs) && DirName(p) == d && BaseName(p) == n
    ensures r.Err? ==> r.error == FileNotFoundError
  {
    if d in fs.dirs then
      Ok((set p | p in fs.files && DirName(p) == d :: BaseName(p)) + (set p | p in fs.dirs && DirName(p) == d :: BaseName(p)))
    else Err(FileNotFoundError)
  }

  /** `p` is `d` or lies below it. */
  predicate Under(p: string, d: string) {
    p == d || (|d| + 1 <= |p| && p[..|d| + 1] == d + "/")
  }

  /** `shutil.rmtree(d)`: the directory and everything below it are gone. */
  function RmTree(fs: Fs, d: string): (r: Result<Fs>)
    ensures r.Ok? <==> d in fs.dirs
    ensures r.Ok? ==> forall p :: (p in r.value.files || p in r.value.dirs) ==> !Under(p, d)
    ensures r.Ok? ==> forall p :: !Under(p, d) ==> (p in r.value.files <==> p in fs.files) && (p in r.value.dirs <==> p in fs.dirs)
    ensures r.Err? ==> r.error == FileNotFoundError
  {
    if d in fs.dirs then
      Ok(Fs(set p | p in fs.files && !Under(p, d), set p | p in fs.dirs && !Under(p, d)))
    else Err(FileNotFoundError)
  }

  /** Where `shutil.copy(src, dst)` and `shutil.move(src, dst)` put the file:
      into `dst` when it is a directory, at `dst` otherwise. */
  function Target(fs: Fs, src: string, dst: string): string {
    if IsDir(fs, dst) then Join(dst, BaseName(src)) else dst
  }

  /** `shutil.copy(src, dst)`: the source must be a file and the target's
      directory must exist. */
  function Copy(fs: Fs, src: string, dst: string): (r: Result<Fs>)
    ensures r.Ok? <==> IsFile(fs, src) && ParentExists(fs, Target(fs, src, dst))
    ensures r.Ok? ==> r.value == Fs(fs.files + {Target(fs, src, dst)}, fs.dirs)
    ensures r.Err? ==> r.error == FileNotFoundError
  {
    var t := Target(fs, src, dst);
    if IsFile(fs, src) && ParentExists(fs, t) then Ok(Fs(fs.files + {t}, fs.dirs))
    else Err(FileNotFoundError)
  }

  /** `shutil.move(src, dst)` of a file. */
  function Move(fs: Fs, src: string, dst: string): (r: Result<Fs>)
    ensures r.Ok? <==> IsFile(fs, src) && ParentExists(fs, Target(fs, src, dst))
    ensures r.Ok? ==> Target(fs, src, dst) in r.value.files && r.value.dirs == fs.dirs
    ensures r.Ok? && src != Target(fs, src, dst) ==> src !in r.value.files
    ensures r.Ok? ==> forall p :: p != src && p != Target(fs, src, dst) ==> (p in r.value.files <==> p in fs.files)
    ensures r.Err? ==> r.error == FileNotFoundError
  {
    var t := Target(fs, src, dst);
    if IsFile(fs, src) && ParentExists(fs, t) then Ok(Fs(fs.files - {src} + {t}, fs.dirs))
    else Err(FileNotFoundError)
  }

  /** A file is created (or truncated) at `p`, as `tempfile.mkstemp` or a
      program writing its output does. */
  function Create(fs: Fs, p: string): (r: Fs)
    ensures IsFile(r, p) && r.dirs == fs.dirs
    ensures forall q :: q != p ==> (q in r.files <==> q in fs.files)
  {
    Fs(fs.files + {p}, fs.dirs)
  }
}
