/** A wildcard root, a directory path followed by `*`: a composite of the JAR
    files found directly in that directory, built by one `filepath.Walk`. */
module EntryWildcard {
  import opened Faults
  import opened FileSystem
  import opened PathEntry
  import opened GoStrings
  import EntryZip

  /** The names the scan collects: exactly `.jar` or `.JAR`, nothing else. */
  predicate IsJarName(path: string)
  {
    HasSuffix(path, ".jar") || HasSuffix(path, ".JAR")
  }

  /** Whether `path` lies inside a directory for which the callback returned
      `filepath.SkipDir`; Walk makes no call for such a path. */
  predicate Skipped(path: string, skipped: seq<string>)
  {
    exists k :: 0 <= k < |skipped| && HasPrefix(path, skipped[k] + "/")
  }

  /** A visit the callback turns into a child: a JAR name that is a file, or
      the base directory itself. */
  predicate Collectible(v: Visit, baseDir: string)
  {
    IsJarName(v.path) && (!v.isDir || v.path == baseDir)
  }

  /** The entries the walk callback appends from `visits` on, given the
      directories already skipped.  A visit carrying an error makes the
      callback return it, which ends the walk; a directory other than the base
      is skipped; a JAR name is turned into a ZIP entry, whose constructor may
      panic, which unwinds the whole scan. */
  function Scan(env: Env, baseDir: string, visits: seq<Visit>, skipped: seq<string>): (r: Result<seq<Entry>>)
    ensures r.Ok? ==> |r.value| <= |visits|
    ensures r.Fail? ==> exists j :: 0 <= j < |visits| && Collectible(visits[j], baseDir) &&
                                   env.abs(visits[j].path).Failed? && r.panic == ErrorPanic(env.abs(visits[j].path).err)
  {
    if visits == [] then Ok([])
    else
      var v := visits[0];
      if Skipped(v.path, skipped) then Scan(env, baseDir, visits[1..], skipped)
      else if v.failure.Some? then Ok([])
      else if v.isDir && v.path != baseDir then Scan(env, baseDir, visits[1..], skipped + [v.path])
      else if !IsJarName(v.path) then Scan(env, baseDir, visits[1..], skipped)
      else
        match EntryZip.NewZipEntry(env, v.path)
        case Fail(p) => Fail(p)
        case Ok(z) => Prepend([z], Scan(env, baseDir, visits[1..], skipped))
  }

  /** `newWildcardEntry` as a value: the base directory is `path` without its
      last character, and the walk's own result is ignored. */
  function WildcardEntry(env: Env, path: string): (r: Result<Entry>)
    ensures |path| == 0 ==> r == Fail(ErrorPanic(SliceOutOfRange))
    ensures r.Ok? ==> r.value.Composite? && |r.value.children| <= |env.walk(path[..|path| - 1])|
  {
    if |path| == 0 then Fail(ErrorPanic(SliceOutOfRange))
    else
      var baseDir := path[..|path| - 1];
      match Scan(env, baseDir, env.walk(baseDir), [])
      case Fail(p) => Fail(p)
      case Ok(children) => Ok(Composite(children))
  }

  /** Every child of the scan is the ZIP entry over the absolute form of a
      collectible visited path; in particular no `.zip` file and nothing in a
      subdirectory is ever collected. */
  lemma {:induction false} ScanCollectsJars(env: Env, baseDir: string, visits: seq<Visit>, skipped: seq<string>)
    requires Scan(env, baseDir, visits, skipped).Ok?
    ensures forall k :: 0 <= k < |Scan(env, baseDir, visits, skipped).value| ==>
              var child := Scan(env, baseDir, visits, skipped).value[k];
              child.Zip? &&
              exists j :: 0 <= j < |visits| && Collectible(visits[j], baseDir) &&
                          env.abs(visits[j].path) == Done(child.absPath)
  {
    if visits != [] {
      var v := visits[0];
      var next := if !Skipped(v.path, skipped) && v.isDir && v.path != baseDir
                  then skipped + [v.path] else skipped;
      if Skipped(v.path, skipped) || v.failure.None? {
        ScanCollectsJars(env, baseDir, visits[1..], next);
      }
      var cs := Scan(env, baseDir, visits, skipped).value;
      forall k | 0 <= k < |cs|
        ensures cs[k].Zip? && exists j :: 0 <= j < |visits| && Collectible(visits[j], baseDir) &&
                                         env.abs(visits[j].path) == Done(cs[k].absPath)
      {
        var rest := Scan(env, baseDir, visits[1..], next);
        if !Skipped(v.path, skipped) && v.failure.None? && !(v.isDir && v.path != baseDir) && IsJarName(v.path) {
          assert cs == [Zip(env.abs(v.path).value)] + rest.value;
          if k == 0 {
            assert Collectible(visits[0], baseDir);
          } else {
            assert cs[k] == rest.value[k - 1];
            var j :| 0 <= j < |visits[1..]| && Collectible(visits[1..][j], baseDir) &&
                     env.abs(visits[1..][j].path) == Done(cs[k].absPath);
            assert visits[j + 1] == visits[1..][j];
          }
        } else {
          assert cs == rest.value;
          var j :| 0 <= j < |visits[1..]| && Collectible(visits[1..][j], baseDir) &&
                   env.abs(visits[1..][j].path) == Done(cs[k].absPath);
          assert visits[j + 1] == visits[1..][j];
        }
      }
    }
  }

  /** Visits inside an already skipped directory add nothing. */
  lemma {:induction false} ScanPassesSkipped(env: Env, baseDir: string, inner: seq<Visit>, rest: seq<Visit>,
                                             skipped: seq<string>)
    requires forall i :: 0 <= i < |inner| ==> Skipped(inner[i].path, skipped)
    ensures Scan(env, baseDir, inner + rest, skipped) == Scan(env, baseDir, rest, skipped)
  {
    if inner != [] {
      assert (inner + rest)[0] == inner[0] && Skipped(inner[0].path, skipped);
      assert (inner + rest)[1..] == inner[1..] + rest;
      ScanPassesSkipped(env, baseDir, inner[1..], rest, skipped);
    } else {
      assert inner + rest == rest;
    }
  }

  /** A subdirectory of the base is not descended into: the visits below it
      contribute nothing, and the scan goes on after them. */
  lemma SubdirectoryNotEntered(env: Env, baseDir: string, d: string, inner: seq<Visit>, rest: seq<Visit>,
                               skipped: seq<string>)
    requires d != baseDir && !Skipped(d, skipped)
    requires forall i :: 0 <= i < |inner| ==> HasPrefix(inner[i].path, d + "/")
    ensures Scan(env, baseDir, [Visit(d, true, None)] + inner + rest, skipped)
            == Scan(env, baseDir, rest, skipped + [d])
  {
    var visits := [Visit(d, true, None)] + inner + rest;
    assert visits[1..] == inner + rest;
    var more := skipped + [d];
    forall i | 0 <= i < |inner| ensures Skipped(inner[i].path, more) {
      assert more[|skipped|] == d;
    }
    ScanPassesSkipped(env, baseDir, inner, rest, more);
  }

  /** The directories the walk has skipped once it has gone through `visits`:
      each directory other than the base that the callback is shown without an
      error is added, in order. */
  function SkippedAfter(baseDir: string, visits: seq<Visit>, skipped: seq<string>): (r: seq<string>)
    ensures |skipped| <= |r| && r[..|skipped|] == skipped
  {
    if visits == [] then skipped
    else
      var v := visits[0];
      if !Skipped(v.path, skipped) && v.failure.None? && v.isDir && v.path != baseDir
      then SkippedAfter(baseDir, visits[1..], skipped + [v.path])
      else SkippedAfter(baseDir, visits[1..], skipped)
  }

  /** The walk gets past the first `j` visits: none of them that lies outside
      the directories skipped by then carries an error. */
  predicate WalkReaches(baseDir: string, visits: seq<Visit>, skipped: seq<string>, j: nat)
    requires j <= |visits|
  {
    forall i :: 0 <= i < j && visits[i].failure.Some? ==>
      Skipped(visits[i].path, SkippedAfter(baseDir, visits[..i], skipped))
  }

  /** A visit that carries an error and lies outside every directory skipped
      before it ends the scan: whatever the walk would have visited after it
      does not change the result. */
  lemma {:induction false} FailureEndsScan(env: Env, baseDir: string, before: seq<Visit>, v: Visit,
                                           after1: seq<Visit>, after2: seq<Visit>, skipped: seq<string>)
    requires v.failure.Some?
    requires !Skipped(v.path, SkippedAfter(baseDir, before, skipped))
    ensures Scan(env, baseDir, before + [v] + after1, skipped) == Scan(env, baseDir, before + [v] + after2, skipped)
  {
    if before == [] {
      assert ([v] + after1)[0] == v && ([v] + after2)[0] == v;
    } else {
      var w := before[0];
      var s1 := before + [v] + after1;
      var s2 := before + [v] + after2;
      assert s1[0] == w && s2[0] == w;
      assert s1[1..] == before[1..] + [v] + after1;
      assert s2[1..] == before[1..] + [v] + after2;
      if Skipped(w.path, skipped) || w.failure.None? {
        var next := if !Skipped(w.path, skipped) && w.isDir && w.path != baseDir
                    then skipped + [w.path] else skipped;
        FailureEndsScan(env, baseDir, before[1..], v, after1, after2, next);
      }
    }
  }

  /** Conversely, every collectible visit the walk reaches outside the skipped
      directories becomes a child: the scan of the visits before it is a prefix
      of the whole scan, and the next child is the ZIP entry over its absolute
      path, so children keep the order of the walk. */
  lemma {:induction false} ScanKeepsJars(env: Env, baseDir: string, visits: seq<Visit>, skipped: seq<string>, j: nat)
    requires Scan(env, baseDir, visits, skipped).Ok?
    requires j < |visits| && Collectible(visits[j], baseDir) && visits[j].failure.None?
    requires WalkReaches(baseDir, visits, skipped, j)
    requires !Skipped(visits[j].path, SkippedAfter(baseDir, visits[..j], skipped))
    ensures env.abs(visits[j].path).Done?
    ensures var before, all := Scan(env, baseDir, visits[..j], skipped), Scan(env, baseDir, visits, skipped).value;
            && before.Ok? && |before.value| < |all|
            && all[..|before.value|] == before.value
            && all[|before.value|] == Zip(env.abs(visits[j].path).value)
  {
    var w := visits[0];
    var tail := visits[1..];
    if j == 0 {
      assert visits[..0] == [];
      assert !Skipped(w.path, skipped) && IsJarName(w.path) && !(w.isDir && w.path != baseDir);
    } else {
      assert visits[..j][0] == w && visits[..j][1..] == tail[..j - 1];
      assert WalkReaches(baseDir, visits, skipped, j) && 0 < j;
      assert visits[..0] == [];
      assert !(w.failure.Some? && !Skipped(w.path, skipped));
      var next := if !Skipped(w.path, skipped) && w.failure.None? && w.isDir && w.path != baseDir
                  then skipped + [w.path] else skipped;
      ReachesTail(baseDir, visits, skipped, j, next);
      ScanKeepsJars(env, baseDir, tail, next, j - 1);
      if !Skipped(w.path, skipped) && !(w.isDir && w.path != baseDir) && IsJarName(w.path) {
        var z := EntryZip.NewZipEntry(env, w.path).value;
        var b := Scan(env, baseDir, tail[..j - 1], next).value;
        var a := Scan(env, baseDir, tail, next).value;
        assert Scan(env, baseDir, visits[..j], skipped).value == [z] + b;
        assert Scan(env, baseDir, visits, skipped).value == [z] + a;
        assert ([z] + a)[..|b| + 1] == [z] + a[..|b|];
      }
    }
  }

  /** What the walk reaches from `visits` is what it reaches from the visits
      after the first, with the directories skipped after the first. */
  lemma ReachesTail(baseDir: string, visits: seq<Visit>, skipped: seq<string>, j: nat, next: seq<string>)
    requires 0 < j < |visits|
    requires next == if !Skipped(visits[0].path, skipped) && visits[0].failure.None? &&
                        visits[0].isDir && visits[0].path != baseDir
                     then skipped + [visits[0].path] else skipped
    requires WalkReaches(baseDir, visits, skipped, j)
    ensures WalkReaches(baseDir, visits[1..], next, j - 1)
    ensures SkippedAfter(baseDir, visits[..j], skipped) == SkippedAfter(baseDir, visits[1..][..j - 1], next)
  {
    forall i | 0 <= i <= j - 1
      ensures SkippedAfter(baseDir, visits[..i + 1], skipped) == SkippedAfter(baseDir, visits[1..][..i], next)
    {
      assert visits[..i + 1][0] == visits[0] && visits[..i + 1][1..] == visits[1..][..i];
    }
    forall i | 0 <= i < j - 1 && visits[1..][i].failure.Some?
      ensures Skipped(visits[1..][i].path, SkippedAfter(baseDir, visits[1..][..i], next))
    {
      assert visits[1..][i] == visits[i + 1];
    }
  }

  /** `newWildcardEntry`: strips the trailing `*`, walks the base directory
      and appends a ZIP entry for every JAR file the callback is shown. */
  method NewWildcardEntry(env: Env, path: string) returns (r: Result<Entry>)
    ensures r == WildcardEntry(env, path)
  {
    if |path| == 0 {
      return Fail(ErrorPanic(SliceOutOfRange));
    }
    var baseDir := path[..|path| - 1];
    var visits := env.walk(baseDir);
    var children: seq<Entry> := [];
    var skipped: seq<string> := [];
    var i := 0;
    match Scan(env, baseDir, visits, []) {
      case Fail(_) =>
      case Ok(all) => assert children + all == all;
    }
    while i < |visits|
      invariant 0 <= i <= |visits|
      invariant Scan(env, baseDir, visits, []) == Prepend(children, Scan(env, baseDir, visits[i..], skipped))
    {
      var v := visits[i];
      assert visits[i..][0] == v && visits[i..][1..] == visits[i + 1..];
      if !Skipped(v.path, skipped) {
        if v.failure.Some? {
          assert children + [] == children;
          break;
        }
        if v.isDir && v.path != baseDir {
          skipped := skipped + [v.path];
        } else if IsJarName(v.path) {
          var z := EntryZip.NewZipEntry(env, v.path);
          if z.Fail? {
            return Fail(z.panic);
          }
          match Scan(env, baseDir, visits[i + 1..], skipped) {
            case Fail(_) =>
            case Ok(rest) => assert children + ([z.value] + rest) == (children + [z.value]) + rest;
          }
          children := children + [z.value];
        }
      }
      i := i + 1;
    }
    if i == |visits| {
      assert children + [] == children;
    }
    return Ok(Composite(children));
  }
}
