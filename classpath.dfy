/** The class search path of the virtual machine: a boot root built from the
    JRE's `lib` directory, an extension root, and a user root built from the
    `-classpath` option, searched in that order. */
module Classpath {
  import opened Faults
  import opened FileSystem
  import opened PathEntry
  import Entries
  import EntryDir
  import GoStrings
  import EntryWildcard

  /** `exists`: only an error for which `os.IsNotExist` holds counts as
      absent; a path whose `os.Stat` fails for any other reason counts as
      present. */
  function Exists(env: Env, path: string): (b: bool)
    ensures !b <==> env.stat(path).NotExist?
    ensures env.stat(path).StatFailed? ==> b
  {
    match env.stat(path)
    case Present => true
    case NotExist => false
    case StatFailed(_) => true
  }

  /** The value `getJreDir` panics with when no candidate is left. */
  const NoJreFolder := ValuePanic("Can not find jre folder!")

  /** `getJreDir`: the `-Xjre` option if it is given and exists, else `./jre`
      if it exists, else `$JAVA_HOME/jre` if the variable is set (without
      checking that it exists), else a panic. */
  function GetJreDir(env: Env, jreOption: string): (r: Result<string>)
    ensures jreOption != "" && Exists(env, jreOption) ==> r == Ok(jreOption)
    ensures r.Ok? ==> r.value == jreOption || r.value == "./jre" || r.value == JoinPath(env.javaHome, "jre")
    ensures r.Ok? && r.value != jreOption && r.value != "./jre" ==> !Exists(env, "./jre") && env.javaHome != ""
    ensures r.Fail? <==> (jreOption == "" || !Exists(env, jreOption)) && !Exists(env, "./jre") && env.javaHome == ""
    ensures r.Fail? ==> r.panic == NoJreFolder
    ensures !(jreOption != "" && Exists(env, jreOption)) && Exists(env, "./jre") ==> r == Ok("./jre")
    ensures !(jreOption != "" && Exists(env, jreOption)) && !Exists(env, "./jre") && env.javaHome != "" ==>
              r == Ok(JoinPath(env.javaHome, "jre"))
  {
    if jreOption != "" && Exists(env, jreOption) then Ok(jreOption)
    else if Exists(env, "./jre") then Ok("./jre")
    else if env.javaHome != "" then Ok(JoinPath(env.javaHome, "jre"))
    else Fail(NoJreFolder)
  }

  /** The wildcard path of the boot root: `*` in the JRE's `lib` directory. */
  function BootPath(jreDir: string): (p: string)
    ensures |p| > 0 && p[|p| - 1] == '*'
    ensures p[..|p| - 1] == JoinPath(jreDir, "lib") + "/"
  {
    var lib := JoinPath(jreDir, "lib");
    assert lib[|lib| - 1] == 'b';
    assert JoinPath(lib, "*") == lib + "/" + "*";
    JoinPath(lib, "*")
  }

  /** The boot root `parseBootAndExtClasspath` builds: the wildcard entry
      over the JRE's `lib` directory, or the JRE lookup's panic. */
  function BootRoot(env: Env, jreOption: string): (r: Result<Entry>)
    ensures GetJreDir(env, jreOption).Fail? ==> r == Fail(GetJreDir(env, jreOption).panic)
    ensures r.Ok? ==> r.value.Composite?
  {
    match GetJreDir(env, jreOption)
    case Fail(p) => Fail(p)
    case Ok(jreDir) => EntryWildcard.WildcardEntry(env, BootPath(jreDir))
  }

  /** The option `parseUserClasspath` classifies: an empty option means the
      current directory. */
  function UserPath(cpOption: string): (p: string)
    ensures p != ""
    ensures cpOption != "" ==> p == cpOption
  {
    if cpOption == "" then "." else cpOption
  }

  /** The user root `parseUserClasspath` builds. */
  function UserRoot(env: Env, cpOption: string): (r: Result<Entry>)
    ensures cpOption == "" ==> r == EntryDir.NewDirEntry(env, ".")
    ensures r.Ok? && cpOption != "" && PathListSeparator !in cpOption && !GoStrings.HasSuffix(cpOption, "*") ==>
              (r.value.Zip? <==> Entries.IsArchiveName(cpOption))
  {
    Entries.NewEntry(env, UserPath(cpOption))
  }

  /** `readClass` on one root; a nil root panics as a method call on a nil
      interface value does. */
  function Consult(env: Env, root: Option<Entry>, className: string): (r: Result<Lookup>)
    ensures r.Fail? <==> root.None?
    ensures r.Fail? ==> r.panic == ErrorPanic(NilDereference)
    ensures r.Ok? ==> r.value == Entries.ReadClass(env, root.value, className)
  {
    match root
    case None => Fail(ErrorPanic(NilDereference))
    case Some(e) => Ok(Entries.ReadClass(env, e, className))
  }

  /** The `.class` file name of a class name. */
  function ClassFileName(className: string): (n: string)
    ensures |n| == |className| + 6 && n[..|className|] == className && n[|className|..] == ".class"
  {
    className + ".class"
  }

  class Classpath {
    var bootClasspath: Option<Entry>
    var extClasspath: Option<Entry>
    var userClasspath: Option<Entry>

    /** `&Classpath{}`: every root nil. */
    constructor ()
      ensures bootClasspath.None? && extClasspath.None? && userClasspath.None?
    {
      bootClasspath := None;
      extClasspath := None;
      userClasspath := None;
    }

    /** `parseBootAndExtClasspath`: locates the JRE and sets the boot root to
        the wildcard entry over its `lib` directory.  The extension root is left as it
        was.  A panic leaves the roots unchanged and is returned. */
    method ParseBootAndExtClasspath(env: Env, jreOption: string) returns (fault: Option<Panic>)
      modifies this
      ensures extClasspath == old(extClasspath) && userClasspath == old(userClasspath)
      ensures fault.None? <==> BootRoot(env, jreOption).Ok?
      ensures fault.None? ==> bootClasspath == Some(BootRoot(env, jreOption).value)
      ensures fault.Some? ==> bootClasspath == old(bootClasspath) && fault.value == BootRoot(env, jreOption).panic
    {
      var jreDir := GetJreDir(env, jreOption);
      if jreDir.Fail? {
        return Some(jreDir.panic);
      }
      var boot := EntryWildcard.NewWildcardEntry(env, BootPath(jreDir.value));
      if boot.Fail? {
        return Some(boot.panic);
      }
      bootClasspath := Some(boot.value);
      return None;
    }

    /** `parseUserClasspath`: sets the user root to `newEntry` of the option,
        `"."` when the option is empty. */
    method ParseUserClasspath(env: Env, cpOption: string) returns (fault: Option<Panic>)
      modifies this
      ensures bootClasspath == old(bootClasspath) && extClasspath == old(extClasspath)
      ensures fault.None? <==> UserRoot(env, cpOption).Ok?
      ensures fault.None? ==> userClasspath == Some(UserRoot(env, cpOption).value)
      ensures fault.Some? ==> userClasspath == old(userClasspath) && fault.value == UserRoot(env, cpOption).panic
    {
      var user := Entries.NewEntry(env, UserPath(cpOption));
      if user.Fail? {
        return Some(user.panic);
      }
      userClasspath := Some(user.value);
      return None;
    }

    /** `ReadClass` as written: boot, then ext, then user, on the name with
        `.class` appended once.  The first result with a nil error wins; the
        user root's result is returned as it is.  Each root is consulted even
        when it is nil. */
    function ReadClass(env: Env, className: string): (r: Result<Lookup>)
      reads this
      ensures Consult(env, bootClasspath, ClassFileName(className)).Ok? &&
              Consult(env, bootClasspath, ClassFileName(className)).value.Found() ==>
                r == Consult(env, bootClasspath, ClassFileName(className))
      ensures r.Ok? && r.value.Found() ==>
                r == Consult(env, bootClasspath, ClassFileName(className)) ||
                r == Consult(env, extClasspath, ClassFileName(className)) ||
                r == Consult(env, userClasspath, ClassFileName(className))
      ensures r.Ok? ==> (bootClasspath.Some? && extClasspath.Some?) || r == Consult(env, bootClasspath, ClassFileName(className))
      ensures var boot, ext := Consult(env, bootClasspath, ClassFileName(className)),
                               Consult(env, extClasspath, ClassFileName(className));
              boot.Ok? && !boot.value.Found() ==>
                && (ext.Ok? && ext.value.Found() ==> r == ext)
                && (ext.Ok? && !ext.value.Found() ==> r == Consult(env, userClasspath, ClassFileName(className)))
                && (extClasspath.None? ==> r == Fail(ErrorPanic(NilDereference)))
    {
      var name := ClassFileName(className);
      match Consult(env, bootClasspath, name)
      case Fail(p) => Fail(p)
      case Ok(boot) =>
        if boot.Found() then Ok(boot)
        else
          match Consult(env, extClasspath, name)
          case Fail(p) => Fail(p)
          case Ok(ext) =>
            if ext.Found() then Ok(ext) else Consult(env, userClasspath, name)
    }

    /** `ReadClass` as evidently intended: an extension root that was never
        set is passed over instead of being dereferenced. */
    function ReadClassIntended(env: Env, className: string): (r: Result<Lookup>)
      reads this
      ensures Consult(env, bootClasspath, ClassFileName(className)).Ok? &&
              Consult(env, bootClasspath, ClassFileName(className)).value.Found() ==>
                r == Consult(env, bootClasspath, ClassFileName(className))
      ensures r.Ok? && r.value.Found() ==>
                r == Consult(env, bootClasspath, ClassFileName(className)) ||
                r == Consult(env, extClasspath, ClassFileName(className)) ||
                r == Consult(env, userClasspath, ClassFileName(className))
      ensures bootClasspath.Some? && userClasspath.Some? ==> r.Ok?
      ensures var boot, ext := Consult(env, bootClasspath, ClassFileName(className)),
                               Consult(env, extClasspath, ClassFileName(className));
              boot.Ok? && !boot.value.Found() ==>
                && (ext.Ok? && ext.value.Found() ==> r == ext)
                && (extClasspath.None? || !ext.value.Found() ==>
                      r == Consult(env, userClasspath, ClassFileName(className)))
    {
      var name := ClassFileName(className);
      match Consult(env, bootClasspath, name)
      case Fail(p) => Fail(p)
      case Ok(boot) =>
        if boot.Found() then Ok(boot)
        else
          var ext := if extClasspath.None? then None else Some(Entries.ReadClass(env, extClasspath.value, name));
          if ext.Some? && ext.value.Found() then Ok(ext.value) else Consult(env, userClasspath, name)
    }

    /** `String`: the user root's string; a nil user root panics. */
    function String(): (r: Result<string>)
      reads this
      ensures r.Fail? <==> userClasspath.None?
      ensures r.Ok? ==> r.value == Text(userClasspath.value)
    {
      match userClasspath
      case None => Fail(ErrorPanic(NilDereference))
      case Some(e) => Ok(Text(e))
    }
  }

  /** `Parse`: a fresh classpath with its boot and user roots set; the
      extension root stays nil.  The first panic unwinds out of it. */
  method Parse(env: Env, jreOption: string, cpOption: string) returns (r: Result<Classpath>)
    ensures r.Fail? <==> BootRoot(env, jreOption).Fail? || UserRoot(env, cpOption).Fail?
    ensures r.Fail? && BootRoot(env, jreOption).Fail? ==> r.panic == BootRoot(env, jreOption).panic
    ensures r.Fail? && BootRoot(env, jreOption).Ok? ==> r.panic == UserRoot(env, cpOption).panic
    ensures r.Ok? ==> fresh(r.value)
    ensures r.Ok? ==> r.value.bootClasspath == Some(BootRoot(env, jreOption).value)
    ensures r.Ok? ==> r.value.extClasspath.None?
    ensures r.Ok? ==> r.value.userClasspath == Some(UserRoot(env, cpOption).value)
  {
    var cp := new Classpath();
    var fault := cp.ParseBootAndExtClasspath(env, jreOption);
    if fault.Some? {
      return Fail(fault.value);
    }
    fault := cp.ParseUserClasspath(env, cpOption);
    if fault.Some? {
      return Fail(fault.value);
    }
    return Ok(cp);
  }

  /** On a classpath `Parse` built, the extension root is nil, so every class
      the boot root does not hold makes `ReadClass` panic, and the user root
      is never searched. */
  lemma ReadClassPanicsPastBoot(env: Env, cp: Classpath, className: string)
    requires cp.bootClasspath.Some? && cp.extClasspath.None?
    requires !Entries.ReadClass(env, cp.bootClasspath.value, ClassFileName(className)).Found()
    ensures cp.ReadClass(env, className) == Fail(ErrorPanic(NilDereference))
  {
  }

  /** The intended search reaches the user root when the boot root misses:
      a class found there is returned, where `ReadClass` panics. */
  lemma IntendedReachesUser(env: Env, cp: Classpath, className: string)
    requires cp.bootClasspath.Some? && cp.extClasspath.None? && cp.userClasspath.Some?
    requires !Entries.ReadClass(env, cp.bootClasspath.value, ClassFileName(className)).Found()
    ensures cp.ReadClassIntended(env, className) ==
              Ok(Entries.ReadClass(env, cp.userClasspath.value, ClassFileName(className)))
    ensures cp.ReadClass(env, className).Fail?
  {
  }
}
