/** `AspectJPlugin.apply`: registers the three tasks, then, after project
    evaluation, wires `preBuild` to the configure task and every JavaCompile
    task to the weaving task. A task name that is already taken makes its
    registration throw out of `apply`; every later failure becomes a log
    entry and does not propagate. */
module Plugin {
  import opened Wrappers
  import opened Seqs
  import opened Setup

  const PreBuild := "preBuild"

  /** Outcome of `findByName("androidComponents")`. */
  datatype Lookup = Found | NotFound | LookupThrows

  /** The project as the plugin sees it. `otherTasks` are the host's task
      names besides its JavaCompile tasks; `wiringFault == Some(k)` means the
      host throws after the first k steps of the wiring callback. */
  datatype Host = Host(
    name: string,
    plugins: set<string>,
    androidComponents: Lookup,
    otherTasks: set<string>,
    compileTasks: seq<string>,
    wiringFault: Option<nat>)

  /** `task` depends on `on`. */
  datatype Edge = DependsOn(task: string, on: string)

  datatype LogEvent =
    | TasksRegistered(project: string)
    | MissingAndroidPlugin
    | MissingAndroidComponents
    | WiringError
    | ConfiguringVariants
    | WeavingDependencyAdded(task: string)
    | CallbackFailed

  predicate IsWarning(e: LogEvent) {
    e.MissingAndroidPlugin? || e.MissingAndroidComponents? || e.CallbackFailed?
  }

  function CountWarnings(log: seq<LogEvent>): nat
    decreases |log|
  {
    if |log| == 0 then 0
    else CountWarnings(log[..|log| - 1]) + (if IsWarning(log[|log| - 1]) then 1 else 0)
  }

  /** Everything `apply` leaves behind: registered task names, declared
      dependency edges, and log output, each in order. */
  datatype Effects = Effects(registered: seq<string>, edges: seq<Edge>, log: seq<LogEvent>, thrown: Option<string>)

  /** One step of the wiring callback. */
  datatype Step = AddEdge(edge: Edge) | Emit(event: LogEvent)

  function EdgesOf(steps: seq<Step>): seq<Edge>
    decreases |steps|
  {
    if |steps| == 0 then []
    else
      var s := steps[|steps| - 1];
      EdgesOf(steps[..|steps| - 1]) + (if s.AddEdge? then [s.edge] else [])
  }

  function LogsOf(steps: seq<Step>): seq<LogEvent>
    decreases |steps|
  {
    if |steps| == 0 then []
    else
      var s := steps[|steps| - 1];
      LogsOf(steps[..|steps| - 1]) + (if s.Emit? then [s.event] else [])
  }

  /** The project's own task names. */
  function HostTasks(h: Host): set<string> {
    h.otherTasks + (set t | t in h.compileTasks)
  }

  /** The names `findByName` can resolve after evaluation. */
  function KnownTasks(h: Host): set<string> {
    HostTasks(h) + (set t | t in Registrations)
  }

  /** `tasks.register` for each name in turn. A name already taken throws; the
      result is the names registered before that and the name that threw. */
  function Register(names: seq<string>, taken: set<string>): (r: (seq<string>, Option<string>))
    ensures r.0 <= names
    ensures forall i :: 0 <= i < |r.0| ==> names[i] !in taken
    ensures r.1.None? ==> r.0 == names
    ensures r.1.Some? ==> |r.0| < |names| && r.1.value == names[|r.0|] && (r.1.value in taken || r.1.value in r.0)
    decreases |names|
  {
    if |names| == 0 then ([], None)
    else if names[0] in taken then ([], Some(names[0]))
    else
      var rest := Register(names[1..], taken + {names[0]});
      ([names[0]] + rest.0, rest.1)
  }

  /** None of the three fixed names is already a task of the project. */
  predicate RegistersCleanly(h: Host) {
    ConfigTask !in HostTasks(h) && WeavingTask !in HostTasks(h) && VerifyTask !in HostTasks(h)
  }

  /** `configureEach` over the JavaCompile tasks: each one gains a dependency
      on the weaving task, if that task can be found. */
  function CompileEdgeSteps(compileTasks: seq<string>, known: set<string>): seq<Step>
    decreases |compileTasks|
  {
    if |compileTasks| == 0 then []
    else
      var t := compileTasks[|compileTasks| - 1];
      CompileEdgeSteps(compileTasks[..|compileTasks| - 1], known)
        + (if WeavingTask in known then [AddEdge(DependsOn(t, WeavingTask)), Emit(WeavingDependencyAdded(t))] else [])
  }

  /** `invokeBeforeVariantsCallback` without faults. */
  function CallbackSteps(compileTasks: seq<string>, known: set<string>): seq<Step> {
    [Emit(ConfiguringVariants)]
      + (if PreBuild in known && ConfigTask in known then [AddEdge(DependsOn(PreBuild, ConfigTask))] else [])
      + CompileEdgeSteps(compileTasks, known)
  }

  /** A fault after k steps keeps the first k and logs the caught failure. */
  function RunSteps(steps: seq<Step>, fault: Option<nat>): seq<Step> {
    if fault.Some? && fault.value < |steps| then steps[..fault.value] + [Emit(CallbackFailed)]
    else steps
  }

  /** The `afterEvaluate` action: the marker gate, the `androidComponents`
      gate, then the callback. */
  function AfterEvaluate(h: Host): seq<Step> {
    if !HasAndroidMarker(h.plugins) then [Emit(MissingAndroidPlugin)]
    else match h.androidComponents
      case LookupThrows => [Emit(WiringError)]
      case NotFound => [Emit(MissingAndroidComponents)]
      case Found => RunSteps(CallbackSteps(h.compileTasks, KnownTasks(h)), h.wiringFault)
  }

  /** `apply`. A null project has no effect at all. If one of the three
      fixed names is already taken, its registration throws out of `apply`:
      the names before it stay registered, and nothing is wired or logged.
      Otherwise the three tasks are registered and announced before any
      deferred wiring is logged. */
  function Apply(project: Option<Host>): (r: Effects)
    ensures project.None? ==> r.registered == [] && r.edges == [] && r.log == [] && r.thrown.None?
    ensures project.Some? ==> (r.thrown.None? <==> RegistersCleanly(project.value))
    ensures project.Some? && r.thrown.None? ==>
      && r.registered == [ConfigTask, WeavingTask, VerifyTask]
      && |r.log| >= 2 && r.log[0] == TasksRegistered(project.value.name)
    ensures project.Some? && r.thrown.Some? ==>
      && r.thrown.value in HostTasks(project.value)
      && r.registered + [r.thrown.value] <= [ConfigTask, WeavingTask, VerifyTask]
      && r.edges == [] && r.log == []
  {
    match project
    case None => Effects([], [], [], None)
    case Some(h) =>
      var reg := Register(Registrations, HostTasks(h));
      if reg.1.Some? then
        assert reg.0 + [reg.1.value] <= Registrations by {
          assert (reg.0 + [reg.1.value]) == Registrations[..|reg.0| + 1];
        }
        Effects(reg.0, [], [], reg.1)
      else
        assert RegistersCleanly(h) by {
          assert reg.0 == Registrations;
          assert reg.0[0] == ConfigTask && reg.0[1] == WeavingTask && reg.0[2] == VerifyTask;
        }
        var wiring := AfterEvaluate(h);
        assert |LogsOf(wiring)| >= 1 by { AfterEvaluateLogs(h); }
        Effects(Registrations, EdgesOf(wiring), [TasksRegistered(h.name)] + LogsOf(wiring), None)
  }

  /** With no name clash, `apply` is the announcement followed by the wiring. */
  lemma ApplyClean(h: Host)
    requires RegistersCleanly(h)
    ensures Apply(Some(h)) == Effects(Registrations, EdgesOf(AfterEvaluate(h)),
                                      [TasksRegistered(h.name)] + LogsOf(AfterEvaluate(h)), None)
  {
  }

  /** A project that already has an `aspectJConfigure` task: the first
      registration throws, so nothing is registered, wired or logged. */
  lemma ApplyConfigTaskTaken(h: Host)
    requires ConfigTask in HostTasks(h)
    ensures Apply(Some(h)) == Effects([], [], [], Some(ConfigTask))
  {
  }

  lemma {:induction false} EdgesOfAppend(a: seq<Step>, b: seq<Step>)
    ensures EdgesOf(a + b) == EdgesOf(a) + EdgesOf(b)
    decreases |b|
  {
    if |b| == 0 {
      assert a + b == a;
    } else {
      var b' := b[..|b| - 1];
      assert (a + b)[..|a + b| - 1] == a + b';
      assert (a + b)[|a + b| - 1] == b[|b| - 1];
      EdgesOfAppend(a, b');
    }
  }

  lemma {:induction false} LogsOfAppend(a: seq<Step>, b: seq<Step>)
    ensures LogsOf(a + b) == LogsOf(a) + LogsOf(b)
    decreases |b|
  {
    if |b| == 0 {
      assert a + b == a;
    } else {
      var b' := b[..|b| - 1];
      assert (a + b)[..|a + b| - 1] == a + b';
      assert (a + b)[|a + b| - 1] == b[|b| - 1];
      LogsOfAppend(a, b');
    }
  }

  lemma StepsOne(s: Step)
    ensures EdgesOf([s]) == (if s.AddEdge? then [s.edge] else [])
    ensures LogsOf([s]) == (if s.Emit? then [s.event] else [])
  {
  }

  lemma StepsPair(e: Edge, l: LogEvent)
    ensures EdgesOf([AddEdge(e), Emit(l)]) == [e]
    ensures LogsOf([AddEdge(e), Emit(l)]) == [l]
  {
    var p := [AddEdge(e), Emit(l)];
    assert p[..1] == [AddEdge(e)];
    StepsOne(AddEdge(e));
  }

  lemma CountWarningsPair(a: LogEvent, b: LogEvent)
    ensures CountWarnings([a, b]) == (if IsWarning(a) then 1 else 0) + (if IsWarning(b) then 1 else 0)
  {
    var log := [a, b];
    assert log[..1] == [a];
    assert [a][..0] == [];
    assert CountWarnings([a]) == (if IsWarning(a) then 1 else 0);
    assert CountWarnings(log) == CountWarnings(log[..1]) + (if IsWarning(b) then 1 else 0);
  }

  /** After evaluation at least one line is always logged. */
  lemma AfterEvaluateLogs(h: Host)
    ensures |LogsOf(AfterEvaluate(h))| >= 1
  {
  }

  /** The compile-task edges: each JavaCompile task depends on the weaving
      task once per occurrence when that task exists, and not at all when it
      does not. */
  lemma {:induction false} CompileEdgeCount(compileTasks: seq<string>, known: set<string>, t: string)
    ensures Count(EdgesOf(CompileEdgeSteps(compileTasks, known)), DependsOn(t, WeavingTask))
         == if WeavingTask in known then Count(compileTasks, t) else 0
    decreases |compileTasks|
  {
    if |compileTasks| > 0 {
      var front := compileTasks[..|compileTasks| - 1];
      var last := compileTasks[|compileTasks| - 1];
      var tail := if WeavingTask in known then [AddEdge(DependsOn(last, WeavingTask)), Emit(WeavingDependencyAdded(last))] else [];
      CompileEdgeCount(front, known, t);
      EdgesOfAppend(CompileEdgeSteps(front, known), tail);
      CountAppend(EdgesOf(CompileEdgeSteps(front, known)), EdgesOf(tail), DependsOn(t, WeavingTask));
      if WeavingTask in known {
        StepsPair(DependsOn(last, WeavingTask), WeavingDependencyAdded(last));
      }
    }
  }

  /** Every compile-task edge points from a JavaCompile task to the weaving task. */
  lemma {:induction false} CompileEdgesShape(compileTasks: seq<string>, known: set<string>)
    ensures forall e :: e in EdgesOf(CompileEdgeSteps(compileTasks, known)) ==> e.on == WeavingTask && e.task in compileTasks
    decreases |compileTasks|
  {
    if |compileTasks| > 0 {
      var front := compileTasks[..|compileTasks| - 1];
      var last := compileTasks[|compileTasks| - 1];
      var tail := if WeavingTask in known then [AddEdge(DependsOn(last, WeavingTask)), Emit(WeavingDependencyAdded(last))] else [];
      CompileEdgesShape(front, known);
      EdgesOfAppend(CompileEdgeSteps(front, known), tail);
      if WeavingTask in known {
        StepsPair(DependsOn(last, WeavingTask), WeavingDependencyAdded(last));
      }
      forall e | e in EdgesOf(CompileEdgeSteps(front, known)) ensures e.task in compileTasks {
        assert e.task in front;
      }
    }
  }

  function PreBuildEdges(known: set<string>): seq<Edge> {
    if PreBuild in known && ConfigTask in known then [DependsOn(PreBuild, ConfigTask)] else []
  }

  /** The callback declares the `preBuild` edge first, then the compile-task edges. */
  lemma CallbackEdgesSplit(compileTasks: seq<string>, known: set<string>)
    ensures EdgesOf(CallbackSteps(compileTasks, known)) == PreBuildEdges(known) + EdgesOf(CompileEdgeSteps(compileTasks, known))
  {
    var pre := [Emit(ConfiguringVariants)]
      + (if PreBuild in known && ConfigTask in known then [AddEdge(DependsOn(PreBuild, ConfigTask))] else []);
    EdgesOfAppend(pre, CompileEdgeSteps(compileTasks, known));
    StepsOne(Emit(ConfiguringVariants));
    if PreBuild in known && ConfigTask in known {
      assert pre[..1] == [Emit(ConfiguringVariants)];
    }
  }

  /** `preBuild` depends on the configure task exactly when both can be found. */
  lemma CallbackPreBuildEdge(compileTasks: seq<string>, known: set<string>)
    ensures DependsOn(PreBuild, ConfigTask) in EdgesOf(CallbackSteps(compileTasks, known))
        <==> PreBuild in known && ConfigTask in known
  {
    CallbackEdgesSplit(compileTasks, known);
    CompileEdgesShape(compileTasks, known);
  }

  /** Each JavaCompile task gains one weaving edge per occurrence when the
      weaving task can be found, none otherwise. */
  lemma CallbackCompileEdges(compileTasks: seq<string>, known: set<string>, t: string)
    ensures Count(EdgesOf(CallbackSteps(compileTasks, known)), DependsOn(t, WeavingTask))
         == if WeavingTask in known then Count(compileTasks, t) else 0
  {
    var pre := PreBuildEdges(known);
    CallbackEdgesSplit(compileTasks, known);
    CompileEdgeCount(compileTasks, known, t);
    CountAppend(pre, EdgesOf(CompileEdgeSteps(compileTasks, known)), DependsOn(t, WeavingTask));
    if |pre| == 1 {
      assert pre[..0] == [];
    }
  }

  /** The callback declares no edge besides those two kinds. */
  lemma CallbackNoOtherEdges(compileTasks: seq<string>, known: set<string>)
    ensures forall e :: e in EdgesOf(CallbackSteps(compileTasks, known)) ==>
      e == DependsOn(PreBuild, ConfigTask) || (e.on == WeavingTask && e.task in compileTasks)
  {
    CallbackEdgesSplit(compileTasks, known);
    CompileEdgesShape(compileTasks, known);
  }

  /** A fault partway through the callback keeps a prefix of the edges it
      would have declared and ends the log with the caught failure. */
  lemma FaultKeepsPrefix(steps: seq<Step>, k: nat)
    requires k < |steps|
    ensures EdgesOf(RunSteps(steps, Some(k))) <= EdgesOf(steps)
    ensures var log := LogsOf(RunSteps(steps, Some(k))); |log| > 0 && log[|log| - 1] == CallbackFailed
  {
    EdgesOfAppend(steps[..k], steps[k..]);
    assert steps[..k] + steps[k..] == steps;
    EdgesOfAppend(steps[..k], [Emit(CallbackFailed)]);
    LogsOfAppend(steps[..k], [Emit(CallbackFailed)]);
    assert [Emit(CallbackFailed)][..0] == [];
  }

  /** Without either Android marker: the tasks are still registered, exactly
      one warning is logged, and no edge is declared. */
  lemma ApplyWithoutMarker(h: Host)
    requires RegistersCleanly(h)
    requires !HasAndroidMarker(h.plugins)
    ensures Apply(Some(h)).registered == Registrations
    ensures Apply(Some(h)).edges == []
    ensures Apply(Some(h)).log == [TasksRegistered(h.name), MissingAndroidPlugin]
    ensures CountWarnings(Apply(Some(h)).log) == 1
  {
    StepsOne(Emit(MissingAndroidPlugin));
    CountWarningsPair(TasksRegistered(h.name), MissingAndroidPlugin);
  }

  /** With a marker but no `androidComponents` extension: exactly one warning
      and no edge. */
  lemma ApplyWithoutComponents(h: Host)
    requires RegistersCleanly(h)
    requires HasAndroidMarker(h.plugins) && h.androidComponents == NotFound
    ensures Apply(Some(h)).edges == []
    ensures Apply(Some(h)).log == [TasksRegistered(h.name), MissingAndroidComponents]
    ensures CountWarnings(Apply(Some(h)).log) == 1
  {
    ApplyClean(h);
    StepsOne(Emit(MissingAndroidComponents));
    CountWarningsPair(TasksRegistered(h.name), MissingAndroidComponents);
  }

  /** When looking up `androidComponents` throws, the error is logged and no
      edge is declared. */
  lemma ApplyLookupThrows(h: Host)
    requires RegistersCleanly(h)
    requires HasAndroidMarker(h.plugins) && h.androidComponents == LookupThrows
    ensures Apply(Some(h)).edges == []
    ensures Apply(Some(h)).log == [TasksRegistered(h.name), WiringError]
  {
    StepsOne(Emit(WiringError));
  }

  /** With a marker, the extension and no fault: `preBuild` depends on the
      configure task iff the project has a `preBuild` task, every JavaCompile
      task depends on the weaving task once per occurrence, and there are no
      other edges. */
  lemma ApplyWires(h: Host)
    requires RegistersCleanly(h)
    requires HasAndroidMarker(h.plugins) && h.androidComponents == Found && h.wiringFault.None?
    ensures DependsOn(PreBuild, ConfigTask) in Apply(Some(h)).edges
        <==> PreBuild in h.otherTasks || PreBuild in h.compileTasks
    ensures forall t :: Count(Apply(Some(h)).edges, DependsOn(t, WeavingTask)) == Count(h.compileTasks, t)
    ensures forall e :: e in Apply(Some(h)).edges ==>
      e == DependsOn(PreBuild, ConfigTask) || (e.on == WeavingTask && e.task in h.compileTasks)
  {
    var known := KnownTasks(h);
    assert ConfigTask in known && WeavingTask in known by {
      assert Registrations[0] == ConfigTask && Registrations[1] == WeavingTask;
    }
    assert PreBuild in known <==> PreBuild in h.otherTasks || PreBuild in h.compileTasks by {
      assert PreBuild !in Registrations;
    }
    CallbackPreBuildEdge(h.compileTasks, known);
    forall t ensures Count(Apply(Some(h)).edges, DependsOn(t, WeavingTask)) == Count(h.compileTasks, t) {
      CallbackCompileEdges(h.compileTasks, known, t);
    }
    CallbackNoOtherEdges(h.compileTasks, known);
  }

  /** A fault during the callback is absorbed: `apply` still returns, the
      declared edges are a prefix of the fault-free ones, and the last log
      entry is the caught failure's warning. */
  lemma ApplyAbsorbsFault(h: Host, k: nat)
    requires RegistersCleanly(h)
    requires HasAndroidMarker(h.plugins) && h.androidComponents == Found && h.wiringFault == Some(k)
    requires k < |CallbackSteps(h.compileTasks, KnownTasks(h))|
    ensures Apply(Some(h)).edges <= Apply(Some(h.(wiringFault := None))).edges
    ensures Apply(Some(h)).log[|Apply(Some(h)).log| - 1] == CallbackFailed
  {
    var steps := CallbackSteps(h.compileTasks, KnownTasks(h));
    assert KnownTasks(h.(wiringFault := None)) == KnownTasks(h);
    FaultKeepsPrefix(steps, k);
  }

  /** One gate for both uses: the configure task adds the runtime dependency
      (given an `implementation` configuration) exactly when `apply` does not
      warn about a missing Android plugin. */
  lemma MarkerGateAgrees(h: Host, deps: seq<Verification.Dependency>)
    requires RegistersCleanly(h)
    ensures ConfigureProject(h.plugins, Some(deps)).implementation == Some(deps + [RuntimeDependency])
        <==> MissingAndroidPlugin !in Apply(Some(h)).log
  {
    var log := Apply(Some(h)).log;
    if !HasAndroidMarker(h.plugins) {
      ApplyWithoutMarker(h);
      assert log[1] == MissingAndroidPlugin;
      assert |deps + [RuntimeDependency]| != |deps|;
    } else {
      AfterEvaluateNoMarkerWarning(h);
    }
  }

  lemma AfterEvaluateNoMarkerWarning(h: Host)
    requires RegistersCleanly(h) && HasAndroidMarker(h.plugins)
    ensures MissingAndroidPlugin !in Apply(Some(h)).log
  {
    var steps := AfterEvaluate(h);
    assert forall s :: s in steps ==> s != Emit(MissingAndroidPlugin) by {
      if h.androidComponents.Found? {
        var cb := CallbackSteps(h.compileTasks, KnownTasks(h));
        CallbackNoMarkerWarning(h.compileTasks, KnownTasks(h));
      }
    }
    LogsOfMember(steps, MissingAndroidPlugin);
  }

  lemma {:induction false} CompileStepsNoMarkerWarning(compileTasks: seq<string>, known: set<string>)
    ensures Emit(MissingAndroidPlugin) !in CompileEdgeSteps(compileTasks, known)
    decreases |compileTasks|
  {
    if |compileTasks| > 0 {
      CompileStepsNoMarkerWarning(compileTasks[..|compileTasks| - 1], known);
    }
  }

  lemma CallbackNoMarkerWarning(compileTasks: seq<string>, known: set<string>)
    ensures Emit(MissingAndroidPlugin) !in CallbackSteps(compileTasks, known)
  {
    CompileStepsNoMarkerWarning(compileTasks, known);
  }

  lemma {:induction false} LogsOfMember(steps: seq<Step>, e: LogEvent)
    requires Emit(e) !in steps
    ensures e !in LogsOf(steps)
    decreases |steps|
  {
    if |steps| > 0 {
      var front := steps[..|steps| - 1];
      assert Emit(e) !in front by {
        forall i | 0 <= i < |front| ensures front[i] != Emit(e) {
          assert front[i] == steps[i];
        }
      }
      LogsOfMember(front, e);
    }
  }
}
