/** The operating-system services the classpath code calls, as plain values:
    reading a file, opening a ZIP archive, `os.Stat`, `filepath.Abs`,
    `filepath.Walk` and the `JAVA_HOME` variable.  Each is a function of its
    argument, fixed for the duration of one run. */
module FileSystem {
  import opened Faults
  import ClassReader

  type Bytes = seq<ClassReader.u8>

  /** `os.PathListSeparator` on Unix-like systems. */
  const PathListSeparator: char := ':'

  /** The `(value, err)` pair a Go library call returns: a value, or an error. */
  datatype Outcome<+T> = Done(value: T) | Failed(err: Error)

  /** What `os.Stat` reports: success, an error for which `os.IsNotExist`
      holds, or any other error. */
  datatype Stat = Present | NotExist | StatFailed(err: Error)

  /** One file of an opened ZIP archive, by its stored name; its contents are
      what opening and reading it to the end yields. */
  datatype ArchiveFile = ArchiveFile(name: string, contents: Outcome<Bytes>)

  /** One call `filepath.Walk` makes to its callback: the path, whether it is a
      directory, and the error Walk passes along for it, if any. */
  datatype Visit = Visit(path: string, isDir: bool, failure: Option<Error>)

  datatype Env = Env(
    readFile: string -> Outcome<Bytes>,                 // ioutil.ReadFile
    openArchive: string -> Outcome<seq<ArchiveFile>>,   // zip.OpenReader, then r.File
    stat: string -> Stat,                               // os.Stat
    abs: string -> Outcome<string>,                     // filepath.Abs
    walk: string -> seq<Visit>,                         // filepath.Walk, every visit in order
    javaHome: string)                                   // os.Getenv("JAVA_HOME")

  /** filepath.Join of two elements: an empty element is dropped, otherwise the
      two are joined by exactly one `/`. */
  function JoinPath(dir: string, name: string): (p: string)
    ensures name != "" ==> |p| >= |name| && p[|p| - |name|..] == name
    ensures |p| >= |dir| && p[..|dir|] == dir
  {
    if dir == "" then name
    else if name == "" then dir
    else if dir[|dir| - 1] == '/' then dir + name
    else dir + "/" + name
  }
}
