/** The per-compile-task weave (`configureJavaCompileTask`'s doLast hook):
    build the arguments, run the weaver, triage its messages, report
    completion. A `java.lang.Exception` inside the hook is printed and
    absorbed; a `java.lang.Error` is not caught and fails the compile task. */
module WeaveHook {
  import opened Wrappers
  import Paths
  import AjcArgs
  import opened Messages

  /** A JavaCompile task as the hook reads it. */
  datatype CompileUnit = CompileUnit(name: string, outDir: string, classpath: string)

  /** Host and environment lookups the hook performs. */
  datatype Env = Env(
    javaVersion: string,                      // JavaVersion.current()
    androidBootClasspath: Option<seq<string>>, // the Android extension's boot classpath, if readable
    sunBootClassPath: Option<string>,          // System.getProperty("sun.boot.class.path")
    pathSeparator: char)                       // File.pathSeparator

  /** What the external weaver did with one invocation. */
  datatype WeaverRun = Reported(messages: seq<Message>) | Threw(reason: string)

  datatype HookEvent =
    | Started(unit: string)
    | ShowArgs(args: seq<string>)
    | Diagnosed(d: Diagnostic)
    | Completed(unit: string)
    | Failed(unit: string, reason: string)

  function WeaveArgs(unit: CompileUnit, env: Env): seq<string> {
    AjcArgs.BuildArgs(
      unit.outDir, unit.classpath,
      Paths.BootClasspath(env.androidBootClasspath, env.sunBootClassPath, env.pathSeparator),
      env.javaVersion)
  }

  function Diagnose(out: seq<Diagnostic>): (r: seq<HookEvent>)
    ensures |r| == |out|
    ensures forall i :: 0 <= i < |out| ==> r[i] == Diagnosed(out[i])
  {
    seq(|out|, i requires 0 <= i < |out| => Diagnosed(out[i]))
  }

  /** The hook. With a message list it always ends in `Completed`, whatever
      the kinds reported; only a thrown exception ends it in `Failed`, and
      that is absorbed (the hook still returns). */
  function Hook(unit: CompileUnit, env: Env, run: WeaverRun): (r: seq<HookEvent>)
    ensures |r| >= 3 && r[0] == Started(unit.name) && r[1] == ShowArgs(WeaveArgs(unit, env))
    ensures run.Reported? ==>
      && r[|r| - 1] == Completed(unit.name)
      && r[2..|r| - 1] == Diagnose(Triage(run.messages))
    ensures run.Threw? ==> r == [Started(unit.name), ShowArgs(WeaveArgs(unit, env)), Failed(unit.name, run.reason)]
  {
    var prefix := [Started(unit.name), ShowArgs(WeaveArgs(unit, env))];
    match run
    case Reported(msgs) => prefix + Diagnose(Triage(msgs)) + [Completed(unit.name)]
    case Threw(reason) => prefix + [Failed(unit.name, reason)]
  }

  predicate Reports(events: seq<HookEvent>, c: Channel) {
    exists i :: 0 <= i < |events| && events[i].Diagnosed? && events[i].d.channel == c
  }

  /** Whatever the weaver reported, the hook ends by reporting completion
      and never reports failure. */
  lemma ReportedRunCompletes(unit: CompileUnit, env: Env, msgs: seq<Message>)
    ensures Hook(unit, env, Reported(msgs))[|Hook(unit, env, Reported(msgs))| - 1] == Completed(unit.name)
    ensures forall e :: e in Hook(unit, env, Reported(msgs)) ==> !e.Failed?
  {
  }

  /** A fatal-kind message is printed on the fatal channel. */
  lemma FatalIsPrinted(unit: CompileUnit, env: Env, msgs: seq<Message>)
    requires HasFatal(msgs)
    ensures Reports(Hook(unit, env, Reported(msgs)), Fatal)
  {
    var r := Hook(unit, env, Reported(msgs));
    var out := Triage(msgs);
    var mid := Diagnose(out);
    assert r[2..|r| - 1] == mid;
    TriageFatalIff(msgs);
    var j :| 0 <= j < |out| && out[j].channel == Fatal;
    assert r[2 + j] == mid[j];
  }

  /** Fatal messages do not stop the hook: it prints them on the fatal channel
      and still reports completion, never failure. */
  lemma FatalStillCompletes(unit: CompileUnit, env: Env, msgs: seq<Message>)
    requires HasFatal(msgs)
    ensures Reports(Hook(unit, env, Reported(msgs)), Fatal)
    ensures Hook(unit, env, Reported(msgs))[|Hook(unit, env, Reported(msgs))| - 1] == Completed(unit.name)
    ensures forall e :: e in Hook(unit, env, Reported(msgs)) ==> !e.Failed?
  {
    FatalIsPrinted(unit, env, msgs);
    ReportedRunCompletes(unit, env, msgs);
  }

  /** The weaver sees the compile task's own paths: reading the hook's
      argument vector back gives the destination directory as both input
      path and output directory, and the task classpath as both aspect path
      and classpath. */
  lemma HookArgsCarryUnit(unit: CompileUnit, env: Env, run: WeaverRun)
    requires AjcArgs.IsVersion(env.javaVersion)
    ensures Hook(unit, env, run)[1].ShowArgs?
    ensures var o := AjcArgs.Parse(Hook(unit, env, run)[1].args, 0, AjcArgs.NoOptions);
      && o.Success?
      && o.value.inpath == o.value.outDir == Some(unit.outDir)
      && o.value.aspectpath == o.value.classpath == Some(unit.classpath)
      && o.value.compliance == Some(env.javaVersion)
  {
    AjcArgs.ParseBuildArgs(unit.outDir, unit.classpath,
      Paths.BootClasspath(env.androidBootClasspath, env.sunBootClassPath, env.pathSeparator),
      env.javaVersion);
  }

  const DebugUnit := CompileUnit("compileDebugJavaWithJavac", "/out/debug", "a.jar:b.jar")

  /** A weave reporting one warning and one info: one line on each of those
      channels, nothing fatal, and the hook completes. */
  lemma WarningAndInfoScenario(env: Env)
    ensures var msgs := [Message(Warning, "w", None), Message(Info, "i", None)];
      && !HasFatal(msgs)
      && Hook(DebugUnit, env, Reported(msgs))
         == [Started(DebugUnit.name), ShowArgs(WeaveArgs(DebugUnit, env)),
             Diagnosed(Diagnostic(WarningChannel, "w", None)),
             Diagnosed(Diagnostic(InfoChannel, "i", None)),
             Completed(DebugUnit.name)]
  {
    var msgs := [Message(Warning, "w", None), Message(Info, "i", None)];
    var w := Diagnosed(Diagnostic(WarningChannel, "w", None));
    var i := Diagnosed(Diagnostic(InfoChannel, "i", None));
    assert msgs[..1] == [msgs[0]];
    assert msgs[..1][..0] == [];
    assert Triage(msgs) == [w.d, i.d];
    assert Diagnose(Triage(msgs)) == [w, i];
    var prefix := [Started(DebugUnit.name), ShowArgs(WeaveArgs(DebugUnit, env))];
    assert Hook(DebugUnit, env, Reported(msgs)) == prefix + [w, i] + [Completed(DebugUnit.name)];
  }

  /** A weave reporting one error with a cause: the error goes to the fatal
      channel with the cause trace, and the hook still completes. */
  lemma ErrorWithCauseScenario(env: Env)
    ensures var msgs := [Message(Error, "e", Some("trace"))];
      && HasFatal(msgs)
      && Hook(DebugUnit, env, Reported(msgs))
         == [Started(DebugUnit.name), ShowArgs(WeaveArgs(DebugUnit, env)),
             Diagnosed(Diagnostic(Fatal, "e", Some("trace"))),
             Completed(DebugUnit.name)]
  {
  }

  /** `executeAspectJWeaving`: the weaving task attaches the hook to every
      JavaCompile task, in container order. `weaver` says what the external
      weaver does for each unit; the result is what each attached hook
      produces when its compile task runs. A hook that ends in `Failed` does
      not keep the later units from being woven. */
  method ExecuteWeaving(units: seq<CompileUnit>, env: Env, weaver: CompileUnit -> WeaverRun)
    returns (hooks: seq<seq<HookEvent>>)
    ensures |hooks| == |units|
    ensures forall i :: 0 <= i < |units| ==> hooks[i] == Hook(units[i], env, weaver(units[i]))
  {
    hooks := [];
    for i := 0 to |units|
      invariant |hooks| == i
      invariant forall j :: 0 <= j < i ==> hooks[j] == Hook(units[j], env, weaver(units[j]))
    {
      hooks := hooks + [Hook(units[i], env, weaver(units[i]))];
    }
  }
}
