/** A directory root: classes are files below its absolute path. */
module EntryDir {
  import opened Faults
  import opened FileSystem
  import opened PathEntry

  /** `newDirEntry`: the absolute form of `path`; a failing `filepath.Abs`
      panics with its error. */
  function NewDirEntry(env: Env, path: string): (r: Result<Entry>)
    ensures r.Ok? <==> env.abs(path).Done?
    ensures r.Ok? ==> r.value.Dir? && Text(r.value) == env.abs(path).value
    ensures r.Fail? ==> r.panic == ErrorPanic(env.abs(path).err)
  {
    match env.abs(path)
    case Done(absDir) => Ok(Dir(absDir))
    case Failed(err) => Fail(ErrorPanic(err))
  }

  /** `(*DirEntry).readClass`: one read of the file at `absDir` joined with the
      class name.  Its data and error are passed on unchanged, and the entry
      reported is the directory itself whether or not the read succeeded. */
  function ReadClass(env: Env, absDir: string, className: string): (r: Lookup)
    ensures r.from == Some(Dir(absDir))
    ensures r.Found() <==> env.readFile(JoinPath(absDir, className)).Done?
    ensures r.Found() ==> r.data == env.readFile(JoinPath(absDir, className)).value
    ensures !r.Found() ==> r.err == Some(env.readFile(JoinPath(absDir, className)).err)
  {
    match env.readFile(JoinPath(absDir, className))
    case Done(data) => Lookup(data, Some(Dir(absDir)), None)
    case Failed(err) => Lookup([], Some(Dir(absDir)), Some(err))
  }
}
