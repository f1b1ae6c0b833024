/** `verifyAspectJConfiguration`: two independent reports, whether the
    runtime dependency is declared and whether the AspectJ core class loads.
    Neither report influences anything else. */
module Verification {
  import opened Wrappers

  datatype Dependency = Dependency(group: string, name: string, version: string)

  const RuntimeArtifact := "aspectjrt"

  /** Outcome of `Class.forName("org.aspectj.lang.JoinPoint")`: loaded, the
      expected ClassNotFoundException, or some other Exception. */
  datatype ClassLoad = Loaded | NotFound | LoadException

  datatype VerifyEvent =
    | RuntimeDeclared(present: bool)
    | CoreClassAvailable(available: bool)
    | VerificationError

  /** Some dependency is named exactly `aspectjrt`. */
  predicate DeclaresRuntime(deps: seq<Dependency>) {
    exists i :: 0 <= i < |deps| && deps[i].name == RuntimeArtifact
  }

  /** The dependency scan: stops at the first dependency named exactly
      `aspectjrt`. */
  method HasAspectJRt(deps: seq<Dependency>) returns (found: bool)
    ensures found <==> DeclaresRuntime(deps)
  {
    found := false;
    var i := 0;
    while i < |deps|
      invariant 0 <= i <= |deps|
      invariant !found
      invariant forall j :: 0 <= j < i ==> deps[j].name != RuntimeArtifact
    {
      if deps[i].name == RuntimeArtifact {
        found := true;
        break;
      }
      i := i + 1;
    }
  }

  /** The verify task's action. `implementation` is None when the project has
      no `implementation` configuration, whose lookup then throws before
      anything is reported. */
  method VerifyConfiguration(implementation: Option<seq<Dependency>>, load: ClassLoad)
    returns (events: seq<VerifyEvent>)
    ensures implementation.None? ==> events == [VerificationError]
    ensures implementation.Some? ==> |events| == 2 && events[0].RuntimeDeclared?
    ensures implementation.Some? ==> (events[0].present <==> DeclaresRuntime(implementation.value))
    ensures implementation.Some? ==> events[1] == match load
      case Loaded => CoreClassAvailable(true)
      case NotFound => CoreClassAvailable(false)
      case LoadException => VerificationError
  {
    if implementation.None? {
      return [VerificationError];
    }
    var present := HasAspectJRt(implementation.value);
    events := [RuntimeDeclared(present)];
    match load
    case Loaded => events := events + [CoreClassAvailable(true)];
    case NotFound => events := events + [CoreClassAvailable(false)];
    case LoadException => events := events + [VerificationError];
  }

  /** The check is an exact name comparison: a lone `aspectjrt-extra` does not
      count as the runtime. */
  lemma ExtraIsNotRuntime()
    ensures !DeclaresRuntime([Dependency("org.aspectj", "aspectjrt-extra", "1.0")])
    ensures DeclaresRuntime([Dependency("org.aspectj", "aspectjrt-extra", "1.0"), Dependency("org.aspectj", "aspectjrt", "1.9.22")])
  {
    var extra := Dependency("org.aspectj", "aspectjrt-extra", "1.0");
    assert |extra.name| != |RuntimeArtifact|;
    var both := [extra, Dependency("org.aspectj", "aspectjrt", "1.9.22")];
    assert both[1].name == RuntimeArtifact;
  }
}
