/** Building an entry from a path string (`newEntry`, `newCompositeEntry`) and
    searching one (`readClass` on each kind of entry, composite first-match).
    Construction and search both recurse through composites, so the
    composite's operations live here with the dispatch. */
module Entries {
  import opened Faults
  import opened FileSystem
  import opened PathEntry
  import opened GoStrings
  import EntryDir
  import EntryZip
  import EntryWildcard

  /** The archive suffixes `newEntry` recognises, in exactly these cases. */
  predicate IsArchiveName(path: string)
  {
    HasSuffix(path, ".jar") || HasSuffix(path, ".JAR") ||
    HasSuffix(path, ".zip") || HasSuffix(path, ".ZIP")
  }

  /** `newEntry`: a path list becomes a composite, then a trailing `*` a
      wildcard, then an archive suffix a ZIP entry, and anything else a
      directory.  Panics of the constructors unwind through it. */
  function NewEntry(env: Env, path: string): (r: Result<Entry>)
    ensures r.Ok? ==> (r.value.Composite? <==> PathListSeparator in path || HasSuffix(path, "*"))
    ensures r.Ok? ==> (r.value.Zip? <==> PathListSeparator !in path && !HasSuffix(path, "*") && IsArchiveName(path))
    ensures r.Ok? ==> (r.value.Dir? <==> PathListSeparator !in path && !HasSuffix(path, "*") && !IsArchiveName(path))
    ensures PathListSeparator in path ==> r == Composed(env, path)
    ensures PathListSeparator !in path && HasSuffix(path, "*") ==> r == EntryWildcard.WildcardEntry(env, path)
    ensures PathListSeparator !in path && !HasSuffix(path, "*") && IsArchiveName(path) ==>
              r == EntryZip.NewZipEntry(env, path)
    ensures PathListSeparator !in path && !HasSuffix(path, "*") && !IsArchiveName(path) ==>
              r == EntryDir.NewDirEntry(env, path)
    decreases if PathListSeparator in path then 2 else 0, 0
  {
    if PathListSeparator in path then Composed(env, path)
    else if HasSuffix(path, "*") then EntryWildcard.WildcardEntry(env, path)
    else if IsArchiveName(path) then EntryZip.NewZipEntry(env, path)
    else EntryDir.NewDirEntry(env, path)
  }

  /** `newCompositeEntry` as a value: one child per segment of the split. */
  function Composed(env: Env, pathList: string): Result<Entry>
    decreases 1, 0
  {
    SplitPartsFree(pathList, PathListSeparator);
    match WrapAll(env, Split(pathList, PathListSeparator))
    case Fail(p) => Fail(p)
    case Ok(children) => Ok(Composite(children))
  }

  /** `newEntry` of each segment in order; the first panic unwinds. */
  function WrapAll(env: Env, segments: seq<string>): Result<seq<Entry>>
    requires forall i :: 0 <= i < |segments| ==> PathListSeparator !in segments[i]
    decreases 0, |segments| + 1
  {
    if segments == [] then Ok([])
    else
      match NewEntry(env, segments[0])
      case Fail(p) => Fail(p)
      case Ok(e) => Prepend([e], WrapAll(env, segments[1..]))
  }

  /** `newCompositeEntry`: splits the list and appends `newEntry` of every
      segment, empty segments included. */
  method NewCompositeEntry(env: Env, pathList: string) returns (r: Result<Entry>)
    ensures r == Composed(env, pathList)
  {
    var segments := Split(pathList, PathListSeparator);
    SplitPartsFree(pathList, PathListSeparator);
    var children: seq<Entry> := [];
    match WrapAll(env, segments) {
      case Fail(_) =>
      case Ok(all) => assert children + all == all;
    }
    for i := 0 to |segments|
      invariant WrapAll(env, segments) == Prepend(children, WrapAll(env, segments[i..]))
    {
      assert segments[i..][0] == segments[i] && segments[i..][1..] == segments[i + 1..];
      var e := NewEntry(env, segments[i]);
      if e.Fail? {
        return Fail(e.panic);
      }
      match WrapAll(env, segments[i + 1..]) {
        case Fail(_) =>
        case Ok(rest) => assert children + ([e.value] + rest) == (children + [e.value]) + rest;
      }
      children := children + [e.value];
    }
    assert segments[|segments|..] == [];
    assert children + [] == children;
    return Ok(Composite(children));
  }

  /** A successful WrapAll has one entry per segment, each `newEntry` of it. */
  lemma {:induction false} WrapAllBySegment(env: Env, segments: seq<string>)
    requires forall i :: 0 <= i < |segments| ==> PathListSeparator !in segments[i]
    requires WrapAll(env, segments).Ok?
    ensures |WrapAll(env, segments).value| == |segments|
    ensures forall i :: 0 <= i < |segments| ==> NewEntry(env, segments[i]) == Ok(WrapAll(env, segments).value[i])
  {
    if segments != [] {
      WrapAllBySegment(env, segments[1..]);
      var cs := WrapAll(env, segments).value;
      var rest := WrapAll(env, segments[1..]).value;
      assert cs == [NewEntry(env, segments[0]).value] + rest;
      forall i | 1 <= i < |segments| ensures NewEntry(env, segments[i]) == Ok(cs[i]) {
        assert segments[1..][i - 1] == segments[i];
      }
    }
  }

  /** A path list becomes a composite with one child per separator-delimited
      segment, in order, empty segments included: one more child than there
      are separators.  No segment holds a separator, so no child is itself
      built by the list rule. */
  lemma CompositeChildren(env: Env, path: string)
    requires PathListSeparator in path && NewEntry(env, path).Ok?
    ensures NewEntry(env, path).value.Composite?
    ensures |NewEntry(env, path).value.children| == Count(path, PathListSeparator) + 1
    ensures forall i :: 0 <= i < |NewEntry(env, path).value.children| ==>
              PathListSeparator !in Split(path, PathListSeparator)[i] &&
              NewEntry(env, Split(path, PathListSeparator)[i]) == Ok(NewEntry(env, path).value.children[i])
  {
    SplitPartsFree(path, PathListSeparator);
    WrapAllBySegment(env, Split(path, PathListSeparator));
  }

  /** Suffix tests are exact: `.Jar` or `.Zip` is no archive suffix, so such a
      path (without separator or trailing `*`) is a directory. */
  lemma MixedCaseIsDirectory(env: Env, path: string)
    requires PathListSeparator !in path && !HasSuffix(path, "*")
    requires HasSuffix(path, ".Jar") || HasSuffix(path, ".Zip")
    ensures NewEntry(env, path) == EntryDir.NewDirEntry(env, path)
  {
    var tail := path[|path| - 4..];
    assert tail[1] == 'J' || tail[1] == 'Z';
    assert tail[2] == 'a' || tail[2] == 'i';
  }

  /** `readClass` through the `Entry` interface. */
  function ReadClass(env: Env, e: Entry, className: string): (r: Lookup)
    ensures r.Found() ==> r.from.Some?
    ensures e.Dir? ==> r.from == Some(e)
    ensures e.Zip? ==> (r.Found() <==> r.from == Some(e))
    ensures !e.Dir? && !r.Found() ==> r.from.None? && r.data == []
    decreases e
  {
    match e
    case Dir(absDir) => EntryDir.ReadClass(env, absDir, className)
    case Zip(absPath) => EntryZip.Search(env, absPath, className)
    case Composite(children) => FirstMatch(env, children, className)
  }

  /** `CompositeEntry.readClass`: the children in order; the first result with
      a nil error is returned as it is. */
  function FirstMatch(env: Env, children: seq<Entry>, className: string): (r: Lookup)
    ensures r.Found() ==> r.from.Some?
    ensures !r.Found() ==> r == Missing(className)
    decreases children
  {
    if children == [] then Missing(className)
    else
      var r := ReadClass(env, children[0], className);
      if r.Found() then r else FirstMatch(env, children[1..], className)
  }

  /** The composite finds a class iff one of its children does. */
  lemma {:induction false} FirstMatchFound(env: Env, children: seq<Entry>, className: string)
    ensures FirstMatch(env, children, className).Found() <==>
              exists i :: 0 <= i < |children| && ReadClass(env, children[i], className).Found()
  {
    if children != [] {
      var tail := children[1..];
      var head := ReadClass(env, children[0], className);
      FirstMatchFound(env, tail, className);
      if head.Found() {
        assert FirstMatch(env, children, className) == head;
      } else {
        assert FirstMatch(env, children, className) == FirstMatch(env, tail, className);
        if exists i :: 0 <= i < |children| && ReadClass(env, children[i], className).Found() {
          var i :| 0 <= i < |children| && ReadClass(env, children[i], className).Found();
          assert tail[i - 1] == children[i];
        }
        if exists i :: 0 <= i < |tail| && ReadClass(env, tail[i], className).Found() {
          var i :| 0 <= i < |tail| && ReadClass(env, tail[i], className).Found();
          assert tail[i] == children[i + 1];
        }
      }
    }
  }

  /** The composite's answer is that of the FIRST child that finds the class,
      with that child's data and reported source; children after it are not
      consulted. */
  lemma {:induction false} FirstMatchIsFirst(env: Env, children: seq<Entry>, className: string, i: nat)
    requires i < |children| && ReadClass(env, children[i], className).Found()
    requires forall j :: 0 <= j < i ==> !ReadClass(env, children[j], className).Found()
    ensures FirstMatch(env, children, className) == ReadClass(env, children[i], className)
  {
    if i > 0 {
      var tail := children[1..];
      assert !ReadClass(env, children[0], className).Found();
      assert tail[i - 1] == children[i];
      forall j | 0 <= j < i - 1 ensures !ReadClass(env, tail[j], className).Found() {
        assert tail[j] == children[j + 1];
      }
      FirstMatchIsFirst(env, tail, className, i - 1);
    }
  }

  /** `CompositeEntry.String`: fills a slice with the children's strings by
      index, then joins it with the separator. */
  method CompositeString(children: seq<Entry>) returns (s: string)
    ensures s == Text(Composite(children))
  {
    var strs := new string[|children|];
    for i := 0 to |children|
      invariant forall j :: 0 <= j < i ==> strs[j] == Text(children[j])
    {
      strs[i] := Text(children[i]);
    }
    assert strs[..] == Texts(children);
    s := Join(strs[..], PathListSeparator);
  }

  /** The composite's string splits back into its children's strings when
      none of those holds the separator. */
  lemma CompositeStringSplits(children: seq<Entry>)
    requires |children| > 0
    requires forall i :: 0 <= i < |children| ==> PathListSeparator !in Text(children[i])
    ensures Split(Text(Composite(children)), PathListSeparator) == Texts(children)
  {
    SplitJoin(Texts(children), PathListSeparator);
  }
}
