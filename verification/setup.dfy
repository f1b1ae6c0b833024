/** `setupAspectJ` and the configure task's action
    (`configureAspectJForProject`): the three fixed task names, the Android
    marker gate, and the runtime dependency it adds. */
module Setup {
  import opened Wrappers
  import Paths
  import opened Verification

  const ConfigTask := "aspectJConfigure"
  const WeavingTask := "aspectJWeaving"
  const VerifyTask := "aspectJSetupVerify"

  const AppPlugin := "com.android.application"
  const LibraryPlugin := "com.android.library"

  /** The gate used both by the configure task and after evaluation. */
  predicate HasAndroidMarker(plugins: set<string>) {
    AppPlugin in plugins || LibraryPlugin in plugins
  }

  /** The tasks `setupAspectJ` registers, in registration order. */
  const Registrations: seq<string> := [ConfigTask, WeavingTask, VerifyTask]

  const RuntimeNotation := "org.aspectj:aspectjrt:1.9.22"
  const RuntimeDependency := Dependency("org.aspectj", "aspectjrt", "1.9.22")

  /** The notation spells out group, name and version around two colons. */
  lemma NotationSpelling()
    ensures RuntimeDependency.group + [':'] + RuntimeDependency.name + [':'] + RuntimeDependency.version == RuntimeNotation
  {
  }

  /** None of the coordinates contains the separator ':'. */
  lemma CoordinatesHaveNoColon()
    ensures ':' !in RuntimeDependency.group && ':' !in RuntimeDependency.name && ':' !in RuntimeDependency.version
  {
  }

  /** The dependency notation is the group, name and version of
      `RuntimeDependency` joined by ':', and reads back into exactly those
      three parts. */
  lemma RuntimeNotationParts()
    ensures Paths.Join([RuntimeDependency.group, RuntimeDependency.name, RuntimeDependency.version], ':') == RuntimeNotation
    ensures Paths.Split(RuntimeNotation, ':') == [RuntimeDependency.group, RuntimeDependency.name, RuntimeDependency.version]
  {
    var g, n, v := RuntimeDependency.group, RuntimeDependency.name, RuntimeDependency.version;
    NotationSpelling();
    CoordinatesHaveNoColon();
    Paths.JoinThree(g, n, v, ':');
    Paths.SplitJoin([g, n, v], ':');
  }

  datatype ConfigEvent = ConfigStarted | ConfigSkipped | ConfigDone | ConfigFailed

  /** The `implementation` dependencies after the configure task and what it
      printed; `None` means the project has no `implementation` configuration. */
  datatype Configured = Configured(implementation: Option<seq<Dependency>>, events: seq<ConfigEvent>)

  /** The configure task's action. Without an Android marker it only prints
      that it skips; with one it appends the runtime dependency, or reports
      the failure when there is no `implementation` configuration to add to. */
  function ConfigureProject(plugins: set<string>, implementation: Option<seq<Dependency>>): (r: Configured)
    ensures |r.events| == 2 && r.events[0] == ConfigStarted
    ensures !HasAndroidMarker(plugins) ==> r == Configured(implementation, [ConfigStarted, ConfigSkipped])
    ensures HasAndroidMarker(plugins) && implementation.Some? ==>
      r.implementation == Some(implementation.value + [RuntimeDependency]) && r.events[1] == ConfigDone
    ensures HasAndroidMarker(plugins) && implementation.None? ==>
      r.implementation.None? && r.events[1] == ConfigFailed
  {
    if !HasAndroidMarker(plugins) then Configured(implementation, [ConfigStarted, ConfigSkipped])
    else match implementation
      case None => Configured(None, [ConfigStarted, ConfigFailed])
      case Some(deps) => Configured(Some(deps + [RuntimeDependency]), [ConfigStarted, ConfigDone])
  }

  /** Configuring and then verifying: with a marker and an `implementation`
      configuration the verify task finds the runtime; without a marker it
      finds it only if it was already declared. */
  method ConfigureThenVerify(plugins: set<string>, deps: seq<Dependency>, load: ClassLoad)
    returns (events: seq<VerifyEvent>)
    ensures |events| == 2 && events[0].RuntimeDeclared?
    ensures HasAndroidMarker(plugins) ==> events[0].present
    ensures !HasAndroidMarker(plugins) ==> (events[0].present <==> DeclaresRuntime(deps))
  {
    var configured := ConfigureProject(plugins, Some(deps));
    events := VerifyConfiguration(configured.implementation, load);
    if HasAndroidMarker(plugins) {
      var after := deps + [RuntimeDependency];
      assert after[|deps|].name == RuntimeArtifact;
    }
  }
}
