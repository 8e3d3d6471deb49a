# jvmgo class loading core, modelled in Dafny

This project models two parts of the Go toy JVM `jvmgo`, chapters 2 and 3:

- **the class-file decoder**: a forward-only big-endian byte cursor (`ClassReader`) and
  `ClassFile.read`, which consumes the top-level items of a class file in the fixed
  order of section 4.1 of the Java Virtual Machine Specification (Java SE 8):
  magic, version, constant pool, access flags, this class, super class,
  interfaces, fields, methods, attributes. `Parse` recovers any panic into an
  error and returns the partly filled struct with it.
- **classpath resolution**: the closed set of classpath entries (directory, ZIP/JAR
  archive, composite; a wildcard is a composite built by scanning one directory),
  the `newEntry` classification rule, composite first-match lookup, and the
  boot → ext → user search of `Classpath.ReadClass` with the JRE-directory
  fallback chain.

Layout, one module per file:

| file | module | Go source |
|---|---|---|
| `faults.dfy` | `Faults` | panics, errors, `recover` |
| `class_reader.dfy` | `ClassReader` | `ch03/classfile/class_reader.go` |
| `class_file.dfy` | `ClassFile` | `ch03/classfile/class_file.go` |
| `go_strings.dfy` | `GoStrings` | `strings.HasSuffix`, `Split`, `Join` |
| `filesystem.dfy` | `FileSystem` | file, archive, stat, `Abs`, `Walk` and environment queries |
| `path_entry.dfy` | `PathEntry` | the `Entry` interface (`ch02/classpath/entry.go`) |
| `entry_dir.dfy` | `EntryDir` | `ch03/classpath/entry_dir.go` |
| `entry_zip.dfy` | `EntryZip` | `ch03/classpath/entry_zip.go` |
| `entry_wildcard.dfy` | `EntryWildcard` | `ch03/classpath/entry_wildcard.go` |
| `entry.dfy` | `Entries` | `ch02/classpath/entry.go`, `ch02/classpath/entry_composite.go` |
| `classpath.dfy` | `Classpath` | `ch03/classpath/classpath.go` |

Modelling conventions:

- **Panics and errors.** A Go panic is the failure case of `Result`. Runtime faults
  are `ErrorPanic` values: an index or slice out of range, or a nil interface
  call. `panic("...")` with a string is a `ValuePanic`.
- **Byte cursor.** `ClassReader` is a class whose `data` field is resliced by each
  read. Every read method is proved against a pure description of the read
  (`Uint16Read`, `Uint16sRead`, `Advance`). The ghost predicate `Valid` states
  that the remaining bytes are a suffix of the original buffer, and every read
  keeps it.
- **Sub-decoders.** The decoders that are not part of this model are parameters
  (`Decoders`): the magic and version checks, the constant pool, the member and
  attribute tables, and `getClassName`. Each is a function from the remaining
  bytes to a fault or to a value plus the number of bytes it consumed.
- **`read` as a specification.** `ReadFrom` is a pure function with one step per
  item. `ClassFile` is a class with the Go struct's ten fields. Each statement of
  `read` is one method that stores one field, and `Read` runs them in order by
  recursion over the item sequence. Each method is proved to take exactly one
  step of `ReadFrom`.
- **Environment.** The operating system is a value `Env`:
  - `ioutil.ReadFile`, `zip.OpenReader` with its file list, `os.Stat`,
    `filepath.Abs`, `filepath.Walk` and `os.Getenv("JAVA_HOME")` are functions of
    their argument.
  - `Walk` is the list of visits it would make, in order.
  - `filepath.SkipDir` skips the visits whose path lies under the skipped
    directory.
- **Nil values.** A nil `Entry` interface is `None`, and a nil byte slice is the
  empty sequence.

In these places the model follows the code:

- A composite wraps every segment of the split, empty ones included (as the
  directory `Abs("")`), not only non-empty ones.
- A directory lookup returns the read error as it is, and reports the directory
  itself as the source even on failure.
- `Parse` returns the partly filled struct together with the error.
- When boot and ext both miss, `ReadClass` returns the user root's own result. No
  separate "not found" error carries the name without `.class`.

## Model

| member | source | states |
|---|---|---|
| `Faults.Recovered` | ch03/classfile/class_file.go:21-29 | a recovered `error` panic is kept as it is; any other panic value becomes an error with the same text |
| `ClassReader.BigEndianOfEncoding` | ch03/classfile/class_reader.go:18-35 | big-endian decoding inverts the n-byte encoding of every value below 256^n |
| `ClassReader.EncodingOfBigEndian` | ch03/classfile/class_reader.go:18-35 | every byte string is the encoding of its big-endian value, and that value is below 256^len |
| `ClassReader.Uint16Value` | ch03/classfile/class_reader.go:18-22 | `binary.BigEndian.Uint16` of two bytes is their big-endian positional value |
| `ClassReader.Uint32Value` | ch03/classfile/class_reader.go:25-29 | `binary.BigEndian.Uint32` is the big-endian value of the first four bytes |
| `ClassReader.Uint64Value` | ch03/classfile/class_reader.go:31-35 | `binary.BigEndian.Uint64` is the big-endian value of the first eight bytes |
| `ClassReader.EncodeU16` | ch03/classfile/class_reader.go:18-22 | two bytes whose u16 reading is the given value |
| `ClassReader.Table16` | ch03/classfile/class_reader.go:38-48 | a table of n entries whose i-th entry is the u16 at bytes 2i and 2i+1 |
| `ClassReader.Uint16Read` | ch03/classfile/class_reader.go:18-22 | what `readUint16` does to a buffer: it succeeds iff two bytes remain, gives their big-endian value and leaves the bytes after them; a short buffer faults with index out of range |
| `ClassReader.Uint16sRead` | ch03/classfile/class_reader.go:38-48 | what `readUint16s` does to a buffer: on success the count and the n entries take 2+2n bytes and the rest is what follows them; a short buffer faults with index out of range |
| `ClassReader.Uint16sReadSpec` | ch03/classfile/class_reader.go:38-48 | `readUint16s` succeeds iff the count and n entries fit; it returns n values, the i-th being the big-endian value of bytes 2+2i..4+2i, and leaves the bytes after them |
| `ClassReader.EmptyTable` | ch03/classfile/class_reader.go:40-47 | a table starting with count 0 is empty and takes exactly two bytes |
| `ClassReader.Uint16sRoundTrip` | ch03/classfile/class_reader.go:38-48 | reading an encoded table gives the table back and leaves whatever followed it |
| `ClassReader.Reader.constructor` | ch03/classfile/class_file.go:30 | a cursor over the whole buffer, satisfying the suffix invariant |
| `ClassReader.Reader.ReadUint8` | ch03/classfile/class_reader.go:10-14 | returns `data[0]` and leaves `data[1:]`; an empty buffer faults with index out of range and is untouched |
| `ClassReader.Reader.ReadUint16` | ch03/classfile/class_reader.go:18-22 | returns the big-endian u16 of the first two bytes and drops exactly two; fewer than two bytes fault |
| `ClassReader.Reader.ReadUint32` | ch03/classfile/class_reader.go:25-29 | returns the big-endian value of the first four bytes and drops exactly four; fewer fault |
| `ClassReader.Reader.ReadUint64` | ch03/classfile/class_reader.go:31-35 | returns the big-endian value of the first eight bytes and drops exactly eight; fewer fault |
| `ClassReader.OddByte` | ch03/classfile/class_reader.go:38-48 | what whole u16 reads leave of a buffer: fewer than two bytes, a suffix of it |
| `ClassReader.Reader.ReadUint16s` | ch03/classfile/class_reader.go:38-48 | the loop equals `Uint16sRead`: count n, then n u16s, consuming 2+2n bytes; when the count promises more than the buffer holds it faults with only `OddByte` left |
| `ClassReader.Reader.ReadBytes` | ch03/classfile/class_reader.go:51-55 | returns `data[:n]` and leaves `data[n:]`, so result ++ rest is the old buffer; n beyond the end faults with slice bounds out of range and leaves the cursor as it was |
| `ClassReader.Reader.Apply` | ch03/classfile/class_file.go:37-39 | a sub-decoder on the cursor consumes exactly the bytes it reports; a claim past the end faults |
| `ClassFile.DecodeReachesAccessFlags` | ch03/classfile/class_file.go:36-40 | after magic, version and constant pool, decoding goes on with the access flags from the bytes the pool left |
| `ClassFile.ReadFrom` | ch03/classfile/class_file.go:36-47 | `read` from one item on: each item read from the bytes the previous one left and stored; a fault stops the reads and keeps the fields stored so far |
| `ClassFile.Decode` | ch03/classfile/class_file.go:36-47 | `read` from the magic on over a zero struct; a failed magic check stops it with the zero struct and the check's panic |
| `ClassFile.ReadKeepsEarlierItems` | ch03/classfile/class_file.go:36-47 | items are stored in order and no later read overwrites an earlier item |
| `ClassFile.LinkageRead` | ch03/classfile/class_file.go:40-43 | access flags, this class and super class are the three u16s at the cursor, and interfaces is the u16 table right after them; short input faults with index out of range |
| `ClassFile.LinkageFollowsConstantPool` | ch03/classfile/class_file.go:38-43 | the same, stated over `Parse`'s input: these items come right after the constant pool |
| `ClassFile.LinkageRoundTrip` | ch03/classfile/class_file.go:40-43 | bytes that encode flags, indices and an interface table after the constant pool decode to exactly those values |
| `ClassFile.MajorVersionIsStored` | ch03/classfile/class_file.go:37-51 | once magic and version checks succeed, the minor and major version they read stay in the decoded struct whatever the later reads do, a failing constant pool included, so it is what `MajorVersion` returns on the struct `Parse` gives back |
| `ClassFile.ClassFile.constructor` | ch03/classfile/class_file.go:31 | `&ClassFile{}` is the zero struct |
| `ClassFile.ClassFile.ReadAndCheckMagic` | ch03/classfile/class_file.go:37 | one step of the decode: the magic check on the cursor; it stores no field; the cursor is left just after what was read, and a fault leaves it where it was |
| `ClassFile.ClassFile.ReadAndCheckVersion` | ch03/classfile/class_file.go:38 | one step: version check, storing minor and major version; it succeeds iff its read does, then stores exactly minor and major version and nothing else; a fault stores nothing; the cursor is left just after what was read, and a fault leaves it where it was |
| `ClassFile.ClassFile.ReadConstantPool` | ch03/classfile/class_file.go:39 | one step: the constant pool is read and stored; it succeeds iff its read does, then stores exactly `constantPool` and nothing else; a fault stores nothing; the cursor is left just after what was read, and a fault leaves it where it was |
| `ClassFile.ClassFile.ReadAccessFlags` | ch03/classfile/class_file.go:40 | one step: a u16 is read into `accessFlags`; it succeeds iff its read does, then stores exactly `accessFlags` and nothing else; a fault stores nothing; the cursor is left just after what was read, and a fault leaves it where it was |
| `ClassFile.ClassFile.ReadThisClass` | ch03/classfile/class_file.go:41 | one step: a u16 is read into `thisClass`; it succeeds iff its read does, then stores exactly `thisClass` and nothing else; a fault stores nothing; the cursor is left just after what was read, and a fault leaves it where it was |
| `ClassFile.ClassFile.ReadSuperClass` | ch03/classfile/class_file.go:42 | one step: a u16 is read into `superClass`; it succeeds iff its read does, then stores exactly `superClass` and nothing else; a fault stores nothing; the cursor is left just after what was read, and a fault leaves it where it was |
| `ClassFile.ClassFile.ReadInterfaces` | ch03/classfile/class_file.go:43 | one step: a u16 table is read into `interfaces`; it succeeds iff its read does, then stores exactly `interfaces` and nothing else; a fault stores nothing; the cursor is left just after the table, and a fault leaves it at the bytes the failed reads could not use (`OddByte`), as the count and entries read before the panic advanced it |
| `ClassFile.ClassFile.ReadFields` | ch03/classfile/class_file.go:44 | one step: the member table is read with the stored constant pool into `fields`; it succeeds iff its read does, then stores exactly `fields` and nothing else; a fault stores nothing; the cursor is left just after what was read, and a fault leaves it where it was |
| `ClassFile.ClassFile.ReadMethods` | ch03/classfile/class_file.go:45 | one step: the member table is read with the stored constant pool into `methods`; it succeeds iff its read does, then stores exactly `methods` and nothing else; a fault stores nothing; the cursor is left just after what was read, and a fault leaves it where it was |
| `ClassFile.ClassFile.ReadAttributes` | ch03/classfile/class_file.go:46 | the last step: the attribute table is read into `attributes`; it succeeds iff its read does, then stores exactly `attributes` and nothing else; a fault stores nothing; the cursor is left just after what was read, and a fault leaves it where it was |
| `ClassFile.ClassFile.ReadItem` | ch03/classfile/class_file.go:37-46 | the statement of `read` for one item takes exactly one step of the item-by-item decode |
| `ClassFile.ClassFile.Read` | ch03/classfile/class_file.go:36-47 | the fields and the fault after `read` are exactly those of the item-by-item decode from the cursor's bytes |
| `ClassFile.ClassFile.ReadFromItem` | ch03/classfile/class_file.go:36-47 | running the statements from any item on matches the decode from that item on |
| `ClassFile.ClassFile.MajorVersion` | ch03/classfile/class_file.go:49-51 | the stored major version, unchanged |
| `ClassFile.ClassFile.ClassName` | ch03/classfile/class_file.go:54-56 | the pool's class name at `thisClass` |
| `ClassFile.ClassFile.SuperClassName` | ch03/classfile/class_file.go:59-64 | `""` exactly when `superClass` is 0, otherwise the pool's class name at that index |
| `ClassFile.ClassFile.InterfaceNames` | ch03/classfile/class_file.go:67-73 | a fresh array as long as `interfaces`, whose i-th name is the pool's class name at `interfaces[i]` |
| `ClassFile.Parse` | ch03/classfile/class_file.go:20-34 | the struct is always returned, filled as far as decoding got; the error is nil iff decoding completed, otherwise it is the recovered panic |
| `GoStrings.Split` | ch02/classpath/entry_composite.go:17 | one part more than there are separators |
| `GoStrings.SplitPartsFree` | ch02/classpath/entry_composite.go:17 | no part of a split holds the separator |
| `GoStrings.JoinSplit` | ch02/classpath/entry_composite.go:17 | joining the parts of a split with the separator gives the text back |
| `GoStrings.SplitJoin` | ch02/classpath/entry_composite.go:47 | splitting a join of separator-free parts gives the parts back |
| `FileSystem.JoinPath` | ch03/classpath/entry_dir.go:29 | the joined path starts with the directory and ends with the name |
| `PathEntry.NotFound` | ch02/classpath/entry_composite.go:35 | the error text is `class not found: ` followed by the class name |
| `PathEntry.Missing` | ch03/classpath/entry_zip.go:57 | a failed lookup with nil data and nil source |
| `PathEntry.Text` | ch02/classpath/entry_composite.go:39-48 | `String()`: a directory or archive shows its absolute path, a composite its children's strings joined by the separator |
| `PathEntry.Texts` | ch02/classpath/entry_composite.go:41-45 | one string per child, in order, each the child's `String()` |
| `EntryDir.NewDirEntry` | ch03/classpath/entry_dir.go:15-23 | stores the absolute path, which `String` returns; a failing `Abs` panics with its error |
| `EntryDir.ReadClass` | ch03/classpath/entry_dir.go:27-34 | one read of `Join(absDir, className)`, passed on unchanged; the source is the directory entry even when the read fails |
| `EntryZip.NewZipEntry` | ch03/classpath/entry_zip.go:15-21 | stores the absolute path, which `String` returns unchanged; a failing `Abs` panics |
| `EntryZip.SearchFiles` | ch03/classpath/entry_zip.go:35-57 | the file loop as a value: the source is the archive exactly when the class is found; a miss or a file error has nil data and source |
| `EntryZip.Search` | ch03/classpath/entry_zip.go:24-58 | `readClass` on an archive: the same, and an archive that does not open gives its own error |
| `EntryZip.SearchFilesNoMatch` | ch03/classpath/entry_zip.go:35-57 | with no file named exactly `className` the result is "class not found" with nil data and source |
| `EntryZip.SearchFilesFirstMatch` | ch03/classpath/entry_zip.go:35-53 | the first file named exactly `className` decides the result (its bytes, or its open or read error); later files of that name are never read |
| `EntryZip.FoundIsNamedFile` | ch03/classpath/entry_zip.go:35-53 | on success the bytes are those of a file named exactly `className`, and the source is the archive entry |
| `EntryZip.ReadClass` | ch03/classpath/entry_zip.go:24-58 | the scan loop with early returns equals the search; an archive that fails to open gives its error with nil data and source |
| `EntryWildcard.Scan` | ch03/classpath/entry_wildcard.go:16-30 | the callback over the walk's visits: at most one child per visit; a panic is the failing `Abs` of a collectible visit |
| `EntryWildcard.WildcardEntry` | ch03/classpath/entry_wildcard.go:11-32 | `newWildcardEntry` as a value: an empty path faults with slice bounds out of range; otherwise a composite with at most one child per visit of the base directory |
| `EntryWildcard.SkippedAfter` | ch03/classpath/entry_wildcard.go:21-23 | the directories skipped by the time the walk has gone through some visits extend those skipped before |
| `EntryWildcard.ScanCollectsJars` | ch03/classpath/entry_wildcard.go:16-29 | every child is the ZIP entry over the absolute path of a visited `.jar`/`.JAR` name that is a file or the base itself, so no `.zip` is collected |
| `EntryWildcard.ScanKeepsJars` | ch03/classpath/entry_wildcard.go:16-29 | conversely, every such visit that the walk reaches outside the skipped directories becomes a child: the children of the earlier visits are a prefix of the result and the next child is the ZIP entry over its absolute path, so the walk order is kept |
| `EntryWildcard.ScanPassesSkipped` | ch03/classpath/entry_wildcard.go:21-23 | visits inside a skipped directory add nothing |
| `EntryWildcard.SubdirectoryNotEntered` | ch03/classpath/entry_wildcard.go:21-23 | a subdirectory other than the base is skipped: nothing below it is collected and the scan goes on after it |
| `EntryWildcard.FailureEndsScan` | ch03/classpath/entry_wildcard.go:17-19 | a visit carrying an error that lies outside the directories skipped before it ends the walk: nothing the walk would visit after it changes the result |
| `EntryWildcard.NewWildcardEntry` | ch03/classpath/entry_wildcard.go:11-32 | the loop equals the scan of the base directory (the path minus its last character) into a composite |
| `Entries.NewCompositeEntry` | ch02/classpath/entry_composite.go:13-23 | the append loop builds `newEntry` of every split segment in order, and the first panic unwinds |
| `Entries.WrapAllBySegment` | ch02/classpath/entry_composite.go:17-21 | one child per segment, each `newEntry` of its segment |
| `Entries.CompositeChildren` | ch02/classpath/entry_composite.go:13-23 | a path list yields separators+1 children in order, empty segments included; no child comes from the list rule again |
| `Entries.NewEntry` | ch02/classpath/entry.go:23-35 | the kind of the built entry is decided by the path alone, separator rule first: composite iff separator or trailing `*`, ZIP iff archive suffix, directory otherwise; each branch's result, its panic included, is exactly that of its constructor over the same path |
| `Entries.MixedCaseIsDirectory` | ch02/classpath/entry.go:30-34 | `.Jar` or `.Zip` is no archive suffix: such a path becomes a directory entry |
| `Entries.ReadClass` | ch02/classpath/entry.go:16 | `readClass` through the interface: a hit always names its source; a directory names itself even on a miss; an archive or composite miss has nil data and source |
| `Entries.FirstMatch` | ch02/classpath/entry_composite.go:26-36 | a hit names its source; a miss is "class not found" with nil data and source, whatever errors the children gave |
| `Entries.FirstMatchFound` | ch02/classpath/entry_composite.go:26-36 | the composite finds a class iff some child does |
| `Entries.FirstMatchIsFirst` | ch02/classpath/entry_composite.go:27-33 | the result is the first finding child's own result, with its data and source; later children are not consulted |
| `Entries.CompositeString` | ch02/classpath/entry_composite.go:39-48 | the index loop and join give the children's strings joined by the separator |
| `Entries.CompositeStringSplits` | ch02/classpath/entry_composite.go:39-48 | the composite's string splits back into its children's strings when none holds the separator |
| `Classpath.Exists` | ch03/classpath/classpath.go:52-59 | false exactly for a not-exist error; any other stat error counts as existing |
| `Classpath.GetJreDir` | ch03/classpath/classpath.go:38-49 | the option if given and existing; otherwise `./jre` if it exists; otherwise `$JAVA_HOME/jre`, unchecked, if the variable is set; it panics with "Can not find jre folder!" exactly when none applies |
| `Classpath.BootPath` | ch03/classpath/classpath.go:30 | the boot wildcard path ends in `*`, and without it is the JRE's `lib` directory followed by `/` |
| `Classpath.BootRoot` | ch03/classpath/classpath.go:26-32 | a failed JRE lookup's panic unwinds unchanged; a built boot root is a composite |
| `Classpath.UserPath` | ch03/classpath/classpath.go:63-65 | an empty option becomes `"."`, any other is kept |
| `Classpath.UserRoot` | ch03/classpath/classpath.go:62-67 | an empty option gives the directory entry over `.`; a plain option becomes a ZIP entry iff it has an archive suffix |
| `Classpath.Consult` | ch03/classpath/classpath.go:73-79 | `readClass` on a root; a nil root panics with a nil dereference |
| `Classpath.ClassFileName` | ch03/classpath/classpath.go:72 | the name with `.class` appended exactly once |
| `Classpath.Classpath.constructor` | ch03/classpath/classpath.go:20 | every root nil |
| `Classpath.Classpath.ParseBootAndExtClasspath` | ch03/classpath/classpath.go:26-32 | sets the boot root to the wildcard entry over the JRE's `lib`, leaves ext and user unchanged; a panic changes nothing |
| `Classpath.Classpath.ParseUserClasspath` | ch03/classpath/classpath.go:62-67 | sets the user root to `newEntry` of the option (`"."` if empty) and changes nothing else |
| `Classpath.Classpath.ReadClass` | ch03/classpath/classpath.go:71-80 | a boot hit shadows everything; when boot misses, an ext hit is returned, an ext miss returns the user root's result as it is, and a nil ext root panics; a hit comes from boot, ext or user |
| `Classpath.Classpath.ReadClassIntended` | ch03/classpath/classpath.go:71-80 | as `ReadClass`, but an unset ext root is passed over: when boot misses, an ext hit is returned and otherwise the user root's result as it is; it never panics when boot and user are set |
| `Classpath.Classpath.String` | ch03/classpath/classpath.go:83-85 | the user root's string; a nil user root panics |
| `Classpath.Parse` | ch03/classpath/classpath.go:19-24 | a fresh classpath with boot and user roots built and the ext root nil; a panic of either builder unwinds |
| `Classpath.ReadClassPanicsPastBoot` | ch03/classpath/classpath.go:76 | with the ext root nil, every class the boot root lacks makes `ReadClass` panic; the user root is never searched |
| `Classpath.IntendedReachesUser` | ch03/classpath/classpath.go:76-79 | when boot misses, the intended search returns the user root's result where `ReadClass` panics |

## Left out

- `fmt.Printf` of the JRE directory (ch03/classpath/classpath.go:28) and the closing of
  archives and archive files with `defer` (ch03/classpath/entry_zip.go:33,45): side effects
  that do not change any result.
- `filepath.Join`'s cleaning of `.`, `..` and repeated slashes: `FileSystem.JoinPath` only
  drops empty elements and puts one `/` between the others. The three-element join of
  ch03/classpath/classpath.go:30 is two two-element joins.
- The real file system, ZIP decompression, `os.Stat`, `filepath.Abs`, `filepath.Walk` and
  `os.Getenv`: they are the fields of `Env`. A ZIP file's open error and its read error are
  one outcome, because `readClass` treats them alike. `Walk`'s order and the visits it makes
  are inputs; only the effect of `SkipDir` and of an error returned by the callback is modelled.
- The byte layouts of the magic and version checks, the constant pool, the member and
  attribute tables and `getClassName`: `ch03/classfile` code outside class_file.go and
  class_reader.go is not part of this model, so these are the `Decoders` parameters.
- A nil byte slice and an empty one are the same value. `ReadFile` failing with partial data
  is modelled as returning no data.
- Go's byte strings are character sequences here. The path-list separator is `:`, its value
  on Unix-like systems.
- `ClassFile.ClassFile.Read`: it is a recursion over the item order that calls one method
  per statement, not ten straight-line statements. The order and the effect of each
  statement are the same.
- `Faults.Recovered`: the texts of runtime faults are fixed strings. Go appends the
  offending index and length (such as `[2] with length 1`), and `Parse` passes that text on
  as its error; the model does not carry these numbers.
- `ClassFile.ClassFile.ReadAndCheckVersion`: `readAndCheckMagic` and `readAndCheckVersion`
  are methods of the struct whose bodies are not part of this model. The model stores minor
  and major version only when the version check succeeds, and the magic check stores
  nothing. A version check that assigns the fields before it validates them would leave
  them set after its panic, where the model keeps them 0.
- ch01/main.go, ch03/main.go (command line and printing) and learn/l_defer.go are not
  part of this model.

## Findings

| source | as written | input that shows it | evidently intended | confidence | as-written member | corrected member |
|---|---|---|---|---|---|---|
| ch03/classpath/classpath.go:76 | `parseBootAndExtClasspath` never assigns `extClasspath` (lines 26-32), yet `ReadClass` calls `readClass` on it whenever the boot root misses. The call is on a nil interface and panics, so the user classpath at line 79 is never searched. | `Parse` with any valid JRE, then `ReadClass` of a class that only the user classpath holds, such as the program's own main class | search the extension root only when one is set, and fall through to the user root | not executed | `Classpath.ReadClassPanicsPastBoot` | `Classpath.IntendedReachesUser` |
