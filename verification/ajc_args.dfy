/** The `ajc` command line built for one compile task, and a positional
    reading of it back (the weaver's side of the contract) that shows which
    value each flag carries. */
module AjcArgs {
  import opened Wrappers

  const ShowWeaveInfo := "-showWeaveInfo"
  const InPath := "-inpath"
  const AspectPath := "-aspectpath"
  const OutDir := "-d"
  const ClassPath := "-classpath"
  const BootClassPath := "-bootclasspath"

  /** `buildAspectJArgs`: twelve positional tokens. The compile task's
      destination directory is both the weave input and the weave output
      (in-place weaving), and its classpath is both the aspect path and the
      classpath. */
  function BuildArgs(outDir: string, classpath: string, bootClasspath: string, javaVersion: string)
    : (args: seq<string>)
    ensures |args| == 12
    ensures args[0] == ShowWeaveInfo && args[1] == "-" + javaVersion
    ensures args[2] == InPath && args[4] == AspectPath && args[6] == OutDir
    ensures args[8] == ClassPath && args[10] == BootClassPath
    ensures args[3] == args[7] == outDir
    ensures args[5] == args[9] == classpath
    ensures args[11] == bootClasspath
  {
    [ShowWeaveInfo, "-" + javaVersion,
     InPath, outDir,
     AspectPath, classpath,
     OutDir, outDir,
     ClassPath, classpath,
     BootClassPath, bootClasspath]
  }

  /** A Java version name as `JavaVersion.current()` prints it: "1.8", "11", "17". */
  predicate IsVersion(v: string) {
    |v| > 0 && forall i :: 0 <= i < |v| ==> v[i] == '.' || '0' <= v[i] <= '9'
  }

  /** A compliance-level token such as "-11" or "-1.8". */
  predicate IsComplianceFlag(a: string) {
    |a| >= 2 && a[0] == '-' && IsVersion(a[1..])
  }

  predicate IsPathFlag(a: string) {
    a == InPath || a == AspectPath || a == OutDir || a == ClassPath || a == BootClassPath
  }

  /** What the weaver reads from the command line. */
  datatype Options = Options(
    showWeaveInfo: bool,
    compliance: Option<string>,
    inpath: Option<string>,
    aspectpath: Option<string>,
    outDir: Option<string>,
    classpath: Option<string>,
    bootclasspath: Option<string>)

  const NoOptions := Options(false, None, None, None, None, None, None)

  datatype ParseError = MissingValue(flag: string) | Unrecognised(token: string)

  function SetPath(o: Options, flag: string, value: string): Options
    requires IsPathFlag(flag)
  {
    if flag == InPath then o.(inpath := Some(value))
    else if flag == AspectPath then o.(aspectpath := Some(value))
    else if flag == OutDir then o.(outDir := Some(value))
    else if flag == ClassPath then o.(classpath := Some(value))
    else o.(bootclasspath := Some(value))
  }

  /** Reads `args` from index `i` on, left to right: a path flag consumes the
      next token as its value, whatever that token is. */
  function Parse(args: seq<string>, i: nat, acc: Options): Result<Options, ParseError>
    requires i <= |args|
    decreases |args| - i
  {
    if i == |args| then Success(acc)
    else
      var a := args[i];
      if a == ShowWeaveInfo then Parse(args, i + 1, acc.(showWeaveInfo := true))
      else if IsPathFlag(a) then
        if i + 1 == |args| then Failure(MissingValue(a))
        else Parse(args, i + 2, SetPath(acc, a, args[i + 1]))
      else if IsComplianceFlag(a) then Parse(args, i + 1, acc.(compliance := Some(a[1..])))
      else Failure(Unrecognised(a))
  }

  /** The options the weaver sees for one compile task. */
  function Woven(outDir: string, classpath: string, bootClasspath: string, javaVersion: string): Options {
    Options(true, Some(javaVersion), Some(outDir), Some(classpath), Some(outDir), Some(classpath), Some(bootClasspath))
  }

  /** Round trip: reading the built vector back gives every value exactly as
      passed in, whatever the path strings contain; in particular the input
      path equals the output directory and the aspect path equals the
      classpath. */
  lemma ParseBuildArgs(outDir: string, classpath: string, bootClasspath: string, javaVersion: string)
    requires IsVersion(javaVersion)
    ensures Parse(BuildArgs(outDir, classpath, bootClasspath, javaVersion), 0, NoOptions)
         == Success(Woven(outDir, classpath, bootClasspath, javaVersion))
  {
    var args := BuildArgs(outDir, classpath, bootClasspath, javaVersion);
    var v := "-" + javaVersion;
    assert v[1..] == javaVersion;
    assert !IsPathFlag(v) by {
      assert v[1] == javaVersion[0];
      assert InPath[1] == 'i' && AspectPath[1] == 'a' && OutDir[1] == 'd';
      assert ClassPath[1] == 'c' && BootClassPath[1] == 'b';
    }
    assert v != ShowWeaveInfo by {
      assert ShowWeaveInfo[1] == 's';
    }
    var o1 := NoOptions.(showWeaveInfo := true);
    var o2 := o1.(compliance := Some(javaVersion));
    var o3 := o2.(inpath := Some(outDir));
    var o4 := o3.(aspectpath := Some(classpath));
    var o5 := o4.(outDir := Some(outDir));
    var o6 := o5.(classpath := Some(classpath));
    var o7 := o6.(bootclasspath := Some(bootClasspath));
    assert Parse(args, 12, o7) == Success(o7);
    assert Parse(args, 10, o6) == Parse(args, 12, o7);
    assert Parse(args, 8, o5) == Parse(args, 10, o6);
    assert Parse(args, 6, o4) == Parse(args, 8, o5);
    assert Parse(args, 4, o3) == Parse(args, 6, o4);
    assert Parse(args, 2, o2) == Parse(args, 4, o3);
    assert Parse(args, 1, o1) == Parse(args, 2, o2);
    assert Parse(args, 0, NoOptions) == Parse(args, 1, o1);
  }
}
