/** Per-variant weaving: the variant's task name (`configureForVariant`) and
    the compile tasks its action hooks (`configureSpecificVariant`). */
module Variants {
  import opened Wrappers
  import opened Ascii
  import opened Seqs

  const VariantTaskPrefix := "configureAspectJFor"

  /** The variant's task name: the fixed prefix, the variant's first
      character upper-cased, then the rest of the variant unchanged. */
  function VariantTaskName(variant: string): (r: string)
    requires |variant| > 0
    ensures |r| == |VariantTaskPrefix| + |variant|
    ensures r[..|VariantTaskPrefix|] == VariantTaskPrefix
    ensures r[|VariantTaskPrefix|] == UpperChar(variant[0])
    ensures r[|VariantTaskPrefix| + 1..] == variant[1..]
  {
    VariantTaskPrefix + [UpperChar(variant[0])] + variant[1..]
  }

  /** Two variants share a task name exactly when they differ at most in
      the case of their first letter. */
  lemma VariantTaskNameCollision(v: string, w: string)
    requires |v| > 0 && |w| > 0
    ensures VariantTaskName(v) == VariantTaskName(w) <==> UpperChar(v[0]) == UpperChar(w[0]) && v[1..] == w[1..]
  {
  }

  datatype RegisterError = EmptyVariantName | DuplicateTask(name: string)

  /** Registering the variant task: `substring(0, 1)` throws on an empty
      name, and the host refuses a second task of an existing name. */
  function ConfigureForVariant(variant: string, existing: set<string>): (r: Result<string, RegisterError>)
    ensures r.Success? <==> |variant| > 0 && VariantTaskName(variant) !in existing
    ensures r.Success? ==> r.value == VariantTaskName(variant)
    ensures |variant| == 0 ==> r == Failure(EmptyVariantName)
  {
    if |variant| == 0 then Failure(EmptyVariantName)
    else
      var name := VariantTaskName(variant);
      if name in existing then Failure(DuplicateTask(name)) else Success(name)
  }

  /** A compile task belongs to a variant when its lower-cased name contains
      the lower-cased variant name. */
  predicate Matches(taskName: string, variant: string) {
    Contains(Lower(taskName), Lower(variant))
  }

  /** The matching compile tasks, in container order. */
  function Select(tasks: seq<string>, variant: string): seq<string>
    decreases |tasks|
  {
    if |tasks| == 0 then []
    else
      var t := tasks[|tasks| - 1];
      Select(tasks[..|tasks| - 1], variant) + (if Matches(t, variant) then [t] else [])
  }

  /** The variant task's action: scans the JavaCompile tasks and hooks each
      one whose name matches the variant. */
  method ConfigureSpecificVariant(compileTasks: seq<string>, variant: string) returns (hooked: seq<string>)
    ensures hooked == Select(compileTasks, variant)
  {
    hooked := [];
    var i := 0;
    while i < |compileTasks|
      invariant 0 <= i <= |compileTasks|
      invariant hooked == Select(compileTasks[..i], variant)
    {
      assert compileTasks[..i + 1][..i] == compileTasks[..i];
      var name := compileTasks[i];
      if Contains(Lower(name), Lower(variant)) {
        hooked := hooked + [name];
      }
      i := i + 1;
    }
    assert compileTasks[..|compileTasks|] == compileTasks;
  }

  /** Every hooked task matches, every matching task is hooked, and each as
      often as it appears among the compile tasks. */
  lemma {:induction false} SelectCount(tasks: seq<string>, variant: string, t: string)
    ensures Count(Select(tasks, variant), t) == if Matches(t, variant) then Count(tasks, t) else 0
    decreases |tasks|
  {
    if |tasks| > 0 {
      var front := tasks[..|tasks| - 1];
      var last := tasks[|tasks| - 1];
      SelectCount(front, variant, t);
      var s := Select(front, variant);
      if Matches(last, variant) {
        assert (s + [last])[..|s + [last]| - 1] == s;
      } else {
        assert Select(tasks, variant) == s;
      }
    }
  }

  /** Selection distributes over concatenation: the tasks hooked from two
      runs of compile tasks are those hooked from the first run followed by
      those hooked from the second, so the container order is kept. */
  lemma {:induction false} SelectAppend(a: seq<string>, b: seq<string>, variant: string)
    ensures Select(a + b, variant) == Select(a, variant) + Select(b, variant)
    decreases |b|
  {
    if |b| == 0 {
      assert a + b == a;
    } else {
      var b' := b[..|b| - 1];
      assert (a + b)[..|a + b| - 1] == a + b';
      assert (a + b)[|a + b| - 1] == b[|b| - 1];
      SelectAppend(a, b', variant);
    }
  }

  lemma DebugMatchesDebug()
    ensures Matches("compileDebugJavaWithJavac", "debug")
  {
    var debug := "compileDebugJavaWithJavac";
    assert Lower("debug") == "debug";
    assert Lower(debug)[7..12] == "debug";
    assert Occurs(Lower(debug), "debug", 7);
  }

  lemma ReleaseMissesDebug()
    ensures !Matches("compileReleaseJavaWithJavac", "debug")
  {
    var release := "compileReleaseJavaWithJavac";
    assert Lower("debug") == "debug";
    assert 'b' !in Lower(release) by {
      forall j | 0 <= j < |release| ensures Lower(release)[j] != 'b' {
        LowerCharPreimage(release[j], 'b');
        assert release[j] in release;
      }
    }
    MissingCharNotContained(Lower(release), "debug", 2);
  }

  /** Variant `debug` hooks the debug compile task and not the release one. */
  lemma DebugSelectsDebugOnly()
    ensures Select(["compileDebugJavaWithJavac", "compileReleaseJavaWithJavac"], "debug")
         == ["compileDebugJavaWithJavac"]
  {
    var tasks := ["compileDebugJavaWithJavac", "compileReleaseJavaWithJavac"];
    DebugMatchesDebug();
    ReleaseMissesDebug();
    assert tasks[..1] == [tasks[0]];
    assert tasks[..1][..0] == [];
  }

  /** Matching ignores the case of the variant name. */
  lemma MatchIgnoresVariantCase(taskName: string, variant: string)
    ensures Matches(taskName, variant) <==> Matches(taskName, seq(|variant|, i requires 0 <= i < |variant| => UpperChar(variant[i])))
  {
    var up := seq(|variant|, i requires 0 <= i < |variant| => UpperChar(variant[i]));
    forall i | 0 <= i < |variant| ensures Lower(up)[i] == Lower(variant)[i] {
      LowerOfUpper(variant[i]);
    }
    assert Lower(up) == Lower(variant);
  }
}
