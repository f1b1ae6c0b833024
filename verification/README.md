# AspectJ weaving plugin for Gradle — a Dafny model

This project models the decision logic of a Gradle plugin that drives the
AspectJ weaver (`ajc`) over the classes of an Android build. When the plugin
is applied it registers three tasks: `aspectJConfigure`, `aspectJWeaving` and
`aspectJSetupVerify`. After project evaluation it wires them into the build:
`preBuild` depends on the configure task, and every JavaCompile task depends on
the weaving task. The weaving task attaches a post-compile hook to each
JavaCompile task. The hook does four things:

- builds the twelve-token `ajc` command line;
- runs the weaver;
- routes each weaver message to a fatal, warning, info or debug channel;
- reports completion.

The verify task reports whether `aspectjrt` is declared and whether the
AspectJ core class loads. A per-variant task attaches the hook again to the
compile tasks whose names contain the variant name.

Gradle, `ajc`, reflection and the console are replaced by explicit values.

- The project is a `Plugin.Host` record: plugin markers, the
  `androidComponents` lookup outcome, task names, and an optional wiring fault.
- Everything `apply` does becomes a `Plugin.Effects` value: registered tasks,
  dependency edges, log entries, and the task name whose registration threw.
- The weaver becomes an input: either the list of messages it reported, or
  the reason it threw.
- Console and logger output become tagged events, not literal text.

Modules, one per file:

- `Wrappers`: Option and Result.
- `Ascii`: ASCII case mapping and substring search.
- `Seqs`: an occurrence count.
- `Paths`: the bootclasspath join, with `Split` as its inverse.
- `AjcArgs`: the argument vector, with a positional parser as its inverse.
- `Messages`: message triage.
- `WeaveHook`: the per-task hook.
- `Verification`: the verify task.
- `Variants`: per-variant tasks.
- `Setup`: task names, the Android marker gate, and the configure task.
- `Plugin`: `apply` and its task-graph wiring.

Three behaviours of the code worth noting:

- The verify task catches every `Exception` from the class-loading check (the
  outer `catch`), not only `ClassNotFoundException`. Another exception type is
  reported as a verification error and does not propagate.
- With an Android marker, the `preBuild` edge is only added when the
  `androidComponents` extension exists and a `preBuild` task exists.
- The derived "has fatal" verdict is never computed by the code. It appears
  here as the predicate `Messages.HasFatal`, proved to agree with what the
  fatal channel receives.

## Model

| member | source | states |
|---|---|---|
| Paths.GetBootClasspath | aspectj-util/src/main/java/com/jaq/aspectj/AspectJUtils.java:160-183 | with the Android boot classpath available, the result is its entries joined with the separator after every entry but the last; otherwise it is the `sun.boot.class.path` value, or "" when that is unset; no Exception leaves the lookup; the loop computes the same value as the reference `BootClasspath` |
| Paths.SplitJoin | aspectj-util/src/main/java/com/jaq/aspectj/AspectJUtils.java:167-175 | splitting the joined bootclasspath at the separator gives back the entries in order, for one or more entries without the separator |
| Paths.JoinSeparatorCount | aspectj-util/src/main/java/com/jaq/aspectj/AspectJUtils.java:167-175 | n >= 1 separator-free entries join with exactly n - 1 separators; no entries join to "" |
| Paths.JoinEnds | aspectj-util/src/main/java/com/jaq/aspectj/AspectJUtils.java:167-175 | the join begins with the first entry and ends with the last: nothing is added before the first entry or after the last |
| AjcArgs.BuildArgs | aspectj-util/src/main/java/com/jaq/aspectj/AspectJUtils.java:144-155 | twelve tokens in fixed order; element 1 is "-" followed by the Java version; the -inpath value equals the -d value; the -aspectpath value equals the -classpath value |
| AjcArgs.ParseBuildArgs | aspectj-util/src/main/java/com/jaq/aspectj/AspectJUtils.java:145-154 | read back positionally, the vector yields exactly the values it was built from, whatever the path strings contain: weave input and output are the destination directory, and aspect path and classpath are the task classpath |
| Messages.Route | aspectj-util/src/main/java/com/jaq/aspectj/AspectJUtils.java:189-203 | ABORT, ERROR and FAIL go to the fatal channel with their cause; WARNING, INFO and DEBUG go to their own channel with no trace; any other kind prints nothing; the text is kept |
| Messages.FeedsIsFunction | aspectj-util/src/main/java/com/jaq/aspectj/AspectJUtils.java:191-202 | no message kind feeds two channels |
| Messages.ProcessWeavingMessages | aspectj-util/src/main/java/com/jaq/aspectj/AspectJUtils.java:188-204 | the message loop prints exactly the routed lines of the messages, in message order |
| Messages.TriageAppend | aspectj-util/src/main/java/com/jaq/aspectj/AspectJUtils.java:189-203 | triaging two batches of messages gives the first batch's lines followed by the second's |
| Messages.TriageLength | aspectj-util/src/main/java/com/jaq/aspectj/AspectJUtils.java:189-203 | each message gives at most one line: one per message of a named kind |
| Messages.TriageChannelCount | aspectj-util/src/main/java/com/jaq/aspectj/AspectJUtils.java:189-203 | each channel receives as many lines as there are messages of the kinds that feed it |
| Messages.TriageFatalIff | aspectj-util/src/main/java/com/jaq/aspectj/AspectJUtils.java:191-195 | the fatal channel receives a line iff some message is ABORT, ERROR or FAIL |
| WeaveHook.Hook | aspectj-util/src/main/java/com/jaq/aspectj/AspectJUtils.java:118-139 | the hook starts and shows the arguments built from the task and environment; after a report it prints the triaged lines and then completion; after a thrown exception it ends with a failure line and returns normally |
| WeaveHook.ReportedRunCompletes | aspectj-util/src/main/java/com/jaq/aspectj/AspectJUtils.java:128-133 | whatever messages the weaver reported, the hook ends with completion and prints no failure |
| WeaveHook.FatalIsPrinted | aspectj-util/src/main/java/com/jaq/aspectj/AspectJUtils.java:191-195 | a fatal-kind message puts a line on the fatal channel of the hook's output |
| WeaveHook.FatalStillCompletes | aspectj-util/src/main/java/com/jaq/aspectj/AspectJUtils.java:119-138 | with fatal messages present, the hook prints them as fatal and still reports completion, never failure |
| WeaveHook.HookArgsCarryUnit | aspectj-util/src/main/java/com/jaq/aspectj/AspectJUtils.java:123-124 | the arguments the hook shows read back to the task's own destination directory as input and output, and its classpath as aspect path and classpath |
| WeaveHook.WarningAndInfoScenario | aspectj-util/src/main/java/com/jaq/aspectj/AspectJUtils.java:119-138 | for compileDebugJavaWithJavac with one WARNING and one INFO: no fatal message, one warning line, one info line, then completion |
| WeaveHook.ErrorWithCauseScenario | aspectj-util/src/main/java/com/jaq/aspectj/AspectJUtils.java:119-138 | for one ERROR with a cause: a fatal line carrying the cause trace, then completion |
| WeaveHook.ExecuteWeaving | aspectj-util/src/main/java/com/jaq/aspectj/AspectJUtils.java:100-139 | the weaving task attaches the hook to every JavaCompile task in container order; each unit's hook produces exactly `Hook` of that unit and its weaver run, so a failed weave does not stop the later units |
| Verification.HasAspectJRt | aspectj-util/src/main/java/com/jaq/aspectj/AspectJUtils.java:212-219 | true iff some dependency's name is exactly "aspectjrt" |
| Verification.ExtraIsNotRuntime | aspectj-util/src/main/java/com/jaq/aspectj/AspectJUtils.java:215 | a lone aspectjrt-extra is not the runtime; adding aspectjrt makes the check true |
| Verification.VerifyConfiguration | aspectj-util/src/main/java/com/jaq/aspectj/AspectJUtils.java:209-238 | with no implementation configuration, one verification error; otherwise the dependency report, then the class report (available, not available, or a verification error for any other exception) |
| Setup.RuntimeNotationParts | aspectj-util/src/main/java/com/jaq/aspectj/AspectJUtils.java:87 | the notation org.aspectj:aspectjrt:1.9.22 is the runtime dependency's group, name and version joined by ':', and splits back into them |
| Setup.ConfigureProject | aspectj-util/src/main/java/com/jaq/aspectj/AspectJUtils.java:76-95 | without an Android marker, nothing is added and a skip is printed; with one, org.aspectj:aspectjrt:1.9.22 is appended to implementation, or a failure is printed when there is no implementation configuration |
| Setup.ConfigureThenVerify | aspectj-util/src/main/java/com/jaq/aspectj/AspectJUtils.java:80-87 | after the configure task, the verify task finds the runtime whenever a marker is present; without one it finds it only if it was already declared |
| Variants.VariantTaskName | aspectj-util/src/main/java/com/jaq/aspectj/AspectJUtils.java:244-245 | the name is "configureAspectJFor", then the variant's first character upper-cased, then the rest of the variant |
| Variants.VariantTaskNameCollision | aspectj-util/src/main/java/com/jaq/aspectj/AspectJUtils.java:244-245 | two variants get the same task name iff they differ at most in the case of their first character |
| Variants.ConfigureForVariant | aspectj-util/src/main/java/com/jaq/aspectj/AspectJUtils.java:243-251 | registration fails for an empty variant name, because substring(0, 1) throws, and for an existing task name; otherwise it registers the derived name |
| Variants.ConfigureSpecificVariant | aspectj-util/src/main/java/com/jaq/aspectj/AspectJUtils.java:256-264 | the variant task hooks exactly the compile tasks selected by the lower-cased substring test, scanned in order |
| Variants.SelectCount | aspectj-util/src/main/java/com/jaq/aspectj/AspectJUtils.java:258-263 | a task is hooked as often as it occurs among the compile tasks if its lower-cased name contains the lower-cased variant, and never otherwise |
| Variants.SelectAppend | aspectj-util/src/main/java/com/jaq/aspectj/AspectJUtils.java:258-263 | selection distributes over concatenation, so the hooked tasks keep the container order |
| Variants.DebugSelectsDebugOnly | aspectj-util/src/main/java/com/jaq/aspectj/AspectJUtils.java:258-263 | the variant "debug" selects compileDebugJavaWithJavac and not compileReleaseJavaWithJavac |
| Variants.MatchIgnoresVariantCase | aspectj-util/src/main/java/com/jaq/aspectj/AspectJUtils.java:259 | upper-casing the variant name does not change which tasks match |
| Plugin.Register | aspectj-util/src/main/java/com/jaq/aspectj/AspectJUtils.java:40-69 | names are registered in order; the first name already taken (by the project or an earlier registration) throws, and only the names before it are registered |
| Plugin.Apply | aspectj-util/src/main/java/com/jaq/aspectj/AspectJPlugin.java:13-48 | a null project has no effect: no tasks, no edges, no logs; registration throws out of apply iff one of the three fixed names is already a project task, and then only the names before it are registered and nothing is wired or logged; otherwise the three fixed tasks are registered and announced before anything deferred is logged |
| Plugin.ApplyConfigTaskTaken | aspectj-util/src/main/java/com/jaq/aspectj/AspectJUtils.java:43-48 | a project that already has an aspectJConfigure task gets nothing registered, wired or logged, and apply throws on that name |
| Plugin.ApplyWithoutMarker | aspectj-util/src/main/java/com/jaq/aspectj/AspectJPlugin.java:26-30 | when no fixed task name is taken: with neither Android marker, the tasks are still registered, exactly one warning is logged, and no edge is added |
| Plugin.ApplyWithoutComponents | aspectj-util/src/main/java/com/jaq/aspectj/AspectJPlugin.java:34-38 | when no fixed task name is taken: with a marker but no androidComponents extension, exactly one warning is logged and no edge is added |
| Plugin.ApplyLookupThrows | aspectj-util/src/main/java/com/jaq/aspectj/AspectJPlugin.java:32-45 | when no fixed task name is taken: if looking up androidComponents throws, one error is logged and no edge is added |
| Plugin.ApplyWires | aspectj-util/src/main/java/com/jaq/aspectj/AspectJPlugin.java:54-66 | when no fixed task name is taken: with a marker, the extension and no fault: preBuild -> aspectJConfigure exists iff the project has a preBuild task; each JavaCompile task depends on aspectJWeaving once per occurrence; there are no other edges |
| Plugin.ApplyAbsorbsFault | aspectj-util/src/main/java/com/jaq/aspectj/AspectJPlugin.java:69-71 | when no fixed task name is taken: a fault during wiring is absorbed: apply returns, the edges are a prefix of the fault-free ones, and the last log entry is the caught failure's warning |
| Plugin.MarkerGateAgrees | aspectj-util/src/main/java/com/jaq/aspectj/AspectJPlugin.java:26-27 | when no fixed task name is taken: the configure task adds the runtime dependency exactly when apply does not warn about a missing Android plugin: both use the same gate |
| Plugin.CallbackPreBuildEdge | aspectj-util/src/main/java/com/jaq/aspectj/AspectJPlugin.java:54-58 | preBuild -> aspectJConfigure is declared iff both tasks can be found |
| Plugin.CallbackCompileEdges | aspectj-util/src/main/java/com/jaq/aspectj/AspectJPlugin.java:61-66 | each JavaCompile task gains one aspectJWeaving edge per occurrence when that task can be found, and none when it cannot |
| Plugin.CallbackNoOtherEdges | aspectj-util/src/main/java/com/jaq/aspectj/AspectJPlugin.java:50-72 | the callback declares no edge besides the preBuild edge and the compile-task edges |
| Plugin.FaultKeepsPrefix | aspectj-util/src/main/java/com/jaq/aspectj/AspectJPlugin.java:69-71 | a fault after k wiring steps keeps a prefix of the edges and ends the log with the caught failure |

## Left out

- The build script (aspectj-util/build.gradle.kts): it is build and publishing configuration with no logic.
- The weaver itself (`new Main().run`, `MessageHandler`): an external tool. It is the input `WeaverRun`: the messages it reported, or the reason it threw.
- Gradle's lazy `register`, `configureEach`, `doLast` and `afterEvaluate` scheduling: host mechanics, modelled as sequential steps. The JavaCompile tasks are taken to be all known when `afterEvaluate` runs.
- Host and environment lookups are parameters: the Android extension's boot classpath, `System.getProperty`, `JavaVersion.current()`, `File.pathSeparator`, and the outcome of `Class.forName`.
- Paths.GetBootClasspath: the separator is one `char` (File.pathSeparator is always one character). Entries are taken to be already absolute, so `getAbsolutePath` is not modelled.
- Paths.GetBootClasspath: "no android extension" and "reading the AppExtension boot classpath threw" are one input (`None`), because both reach the same fallback.
- Console and logger text, including the Chinese wording and emoji: these are tagged events. Some progress lines are not modelled at all:
  - the bootclasspath lookup's own lines;
  - the Java version lines of the weaving task;
  - the weaving task's "configured" line;
  - the per-match line of a variant task.
- WeaveHook.Hook: only the weaver run itself can throw. An exception while the arguments are built (an unset destination directory, say) would skip the argument line. That case is not modelled.
- WeaveHook.Hook: `Threw` stands for a `java.lang.Exception` only, which the hook catches. A `java.lang.Error` from the weaver is not caught: it would leave the hook and fail the compile task. It is not modelled.
- Paths.GetBootClasspath: a `java.lang.Error` while reading the Android boot classpath is not caught by the lookup and would leave the hook. It is not modelled.
- Variants.ConfigureSpecificVariant: attaching `doLast` to a compile task that has already run throws, and nothing in the variant task catches it. The model takes every selected task to accept the hook.
- The catch in `executeAspectJWeaving`: iterating the JavaCompile tasks is not modelled as able to fail.
- Verification.VerifyConfiguration: a `java.lang.Error` from `Class.forName` (a linkage error, say) would escape the verify task. It is not modelled.
- The `p == null` check inside `afterEvaluate`: `p` is the same project as the non-null one, so the check cannot trigger.
- Plugin.ApplyAbsorbsFault: the position of a host fault is an input (`wiringFault`, the number of wiring steps completed first). Which host call actually throws is not modelled.
- Unicode case mapping: `toUpperCase` and `toLowerCase` are modelled for ASCII letters only. Other characters are left unchanged, so locale-specific mappings such as the Turkish dotted i are not modelled.
- Messages.Route: `Other(name)` stands for every message kind besides the six the code names, such as weave-info and task-tag. The model takes it never to be one of the six.
