/** A ZIP or JAR root: classes are files stored in one archive. */
module EntryZip {
  import opened Faults
  import opened FileSystem
  import opened PathEntry

  /** `newZipEntry`: the absolute form of `path`; a failing `filepath.Abs`
      panics with its error. */
  function NewZipEntry(env: Env, path: string): (r: Result<Entry>)
    ensures r.Ok? <==> env.abs(path).Done?
    ensures r.Ok? ==> r.value.Zip? && Text(r.value) == env.abs(path).value
    ensures r.Fail? ==> r.panic == ErrorPanic(env.abs(path).err)
  {
    match env.abs(path)
    case Done(absPath) => Ok(Zip(absPath))
    case Failed(err) => Fail(ErrorPanic(err))
  }

  /** What reading one matching archive file yields: its bytes with the
      archive entry as source, or its open or read error with no source. */
  function FromFile(ze: Entry, f: ArchiveFile): Lookup
  {
    match f.contents
    case Done(data) => Lookup(data, Some(ze), None)
    case Failed(err) => Lookup([], None, Some(err))
  }

  /** The search over the archive's files, front to back: the first file whose
      name equals `className` decides the result. */
  function SearchFiles(ze: Entry, files: seq<ArchiveFile>, className: string): (r: Lookup)
    ensures r.Found() <==> r.from == Some(ze)
    ensures !r.Found() ==> r.from.None? && r.data == []
  {
    if files == [] then Missing(className)
    else if files[0].name == className then FromFile(ze, files[0])
    else SearchFiles(ze, files[1..], className)
  }

  /** `(*ZipEntry).readClass` as a value: an archive that does not open gives
      its error with no data and no source. */
  function Search(env: Env, absPath: string, className: string): (r: Lookup)
    ensures r.Found() <==> r.from == Some(Zip(absPath))
    ensures !r.Found() ==> r.from.None? && r.data == []
    ensures env.openArchive(absPath).Failed? ==> r.err == Some(env.openArchive(absPath).err)
  {
    match env.openArchive(absPath)
    case Failed(err) => Lookup([], None, Some(err))
    case Done(files) => SearchFiles(Zip(absPath), files, className)
  }

  /** With no file named exactly `className`, the result is "class not
      found". */
  lemma {:induction false} SearchFilesNoMatch(ze: Entry, files: seq<ArchiveFile>, className: string)
    requires forall i :: 0 <= i < |files| ==> files[i].name != className
    ensures SearchFiles(ze, files, className) == Missing(className)
  {
    if files != [] {
      forall i | 0 <= i < |files[1..]| ensures files[1..][i].name != className {
        assert files[1..][i] == files[i + 1];
      }
      SearchFilesNoMatch(ze, files[1..], className);
    }
  }

  /** The file search decides by the FIRST file named exactly `className`:
      its bytes, or its open or read error; later files of the same name are
      never read. */
  lemma {:induction false} SearchFilesFirstMatch(ze: Entry, files: seq<ArchiveFile>, className: string, i: nat)
    requires i < |files| && files[i].name == className
    requires forall j :: 0 <= j < i ==> files[j].name != className
    ensures SearchFiles(ze, files, className) == FromFile(ze, files[i])
  {
    if i > 0 {
      var tail := files[1..];
      assert files[0].name != className;
      assert tail[i - 1] == files[i];
      forall j | 0 <= j < i - 1 ensures tail[j].name != className {
        assert tail[j] == files[j + 1];
      }
      SearchFilesFirstMatch(ze, tail, className, i - 1);
    }
  }

  /** On success the bytes are those of an archive file named exactly
      `className`, and the source is the archive entry itself. */
  lemma {:induction false} FoundIsNamedFile(ze: Entry, files: seq<ArchiveFile>, className: string)
    requires SearchFiles(ze, files, className).Found()
    ensures SearchFiles(ze, files, className).from == Some(ze)
    ensures exists i ::
              0 <= i < |files| && files[i].name == className &&
              files[i].contents == Done(SearchFiles(ze, files, className).data)
  {
    if files[0].name != className {
      FoundIsNamedFile(ze, files[1..], className);
      var i :| 0 <= i < |files[1..]| && files[1..][i].name == className &&
        files[1..][i].contents == Done(SearchFiles(ze, files[1..], className).data);
      assert files[i + 1] == files[1..][i];
    } else {
      assert files[0].contents == Done(SearchFiles(ze, files, className).data);
    }
  }

  /** `(*ZipEntry).readClass`: open the archive, then scan its files in order
      and return at the first whose name is `className`. */
  method ReadClass(env: Env, absPath: string, className: string) returns (r: Lookup)
    ensures r == Search(env, absPath, className)
  {
    var archive := env.openArchive(absPath);
    if archive.Failed? {
      return Lookup([], None, Some(archive.err));
    }
    var files := archive.value;
    var i := 0;
    while i < |files|
      invariant 0 <= i <= |files|
      invariant SearchFiles(Zip(absPath), files, className) == SearchFiles(Zip(absPath), files[i..], className)
    {
      assert files[i..][1..] == files[i + 1..];
      var f := files[i];
      if f.name == className {
        match f.contents {
          case Failed(err) =>
            return Lookup([], None, Some(err));
          case Done(data) =>
            return Lookup(data, Some(Zip(absPath)), None);
        }
      }
      i := i + 1;
    }
    return Missing(className);
  }
}
