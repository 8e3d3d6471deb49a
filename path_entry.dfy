/** The `Entry` interface: one root of the class search path.  Go's three
    implementations form a closed set, so the interface becomes a datatype;
    a wildcard root is a composite built by a directory scan. */
module PathEntry {
  import opened Faults
  import opened FileSystem
  import GoStrings

  datatype Entry =
    | Dir(absDir: string)              // *DirEntry
    | Zip(absPath: string)             // *ZipEntry
    | Composite(children: seq<Entry>)  // CompositeEntry

  /** The triple `readClass` returns: the bytes (nil is the empty sequence),
      the entry that supplied them, if any, and the error, if any.  Only the
      error tells success from failure. */
  datatype Lookup = Lookup(data: Bytes, from: Option<Entry>, err: Option<Error>)
  {
    predicate Found() { err.None? }
  }

  /** The error a search that found nothing returns. */
  function NotFound(className: string): (e: Error)
    ensures |e.text| == 17 + |className|
    ensures e.text[..17] == "class not found: " && e.text[17..] == className
  {
    Error("class not found: " + className)
  }

  /** `nil, nil, errors.New("class not found: " + className)` */
  function Missing(className: string): (r: Lookup)
    ensures !r.Found() && r.from.None? && r.data == []
  {
    Lookup([], None, Some(NotFound(className)))
  }

  /** Entries `front` placed before those of `r`, or `r`'s panic: how a loop
      that appends entries one by one relates to the rest of its work. */
  function Prepend(front: seq<Entry>, r: Result<seq<Entry>>): Result<seq<Entry>>
  {
    match r
    case Fail(p) => Fail(p)
    case Ok(rest) => Ok(front + rest)
  }

  /** `String()`: a directory or archive shows its absolute path, a composite
      its children's strings joined by the path-list separator. */
  function Text(e: Entry): string
  {
    match e
    case Dir(absDir) => absDir
    case Zip(absPath) => absPath
    case Composite(children) => GoStrings.Join(Texts(children), PathListSeparator)
  }

  /** The strings of `children`, in order. */
  function Texts(children: seq<Entry>): (strs: seq<string>)
    ensures |strs| == |children|
    ensures forall i :: 0 <= i < |children| ==> strs[i] == Text(children[i])
  {
    if children == [] then [] else [Text(children[0])] + Texts(children[1..])
  }
}
