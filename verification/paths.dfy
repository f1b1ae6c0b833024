/** The bootclasspath handed to the weaver: the Android extension's boot
    classpath entries joined with the platform path separator, or a fallback
    read from the `sun.boot.class.path` system property. */
module Paths {
  import opened Wrappers

  /** The entries joined with `sep` between neighbours: nothing before the
      first entry, nothing after the last. */
  function Join(paths: seq<string>, sep: char): string
    decreases |paths|
  {
    if |paths| == 0 then ""
    else if |paths| == 1 then paths[0]
    else Join(paths[..|paths| - 1], sep) + [sep] + paths[|paths| - 1]
  }

  /** Splits a path string at every separator; the inverse of `Join` for
      entries that do not themselves contain the separator. A string with
      n separators has n + 1 pieces. */
  function Split(s: string, sep: char): (pieces: seq<string>)
    ensures |pieces| >= 1
    decreases |s|
  {
    if |s| == 0 then [""]
    else
      var front := Split(s[..|s| - 1], sep);
      var c := s[|s| - 1];
      if c == sep then front + [""]
      else front[..|front| - 1] + [front[|front| - 1] + [c]]
  }

  function CountChar(s: string, c: char): nat
    decreases |s|
  {
    if |s| == 0 then 0
    else CountChar(s[..|s| - 1], c) + (if s[|s| - 1] == c then 1 else 0)
  }

  /** The resolved bootclasspath, as a value: the joined extension list when
      the extension is present, otherwise the system property or "". */
  function BootClasspath(android: Option<seq<string>>, sunBootClassPath: Option<string>, sep: char): string {
    match android
    case Some(files) => Join(files, sep)
    case None => sunBootClassPath.GetOr("")
  }

  /** `getBootClasspath`: the separator is appended after every entry but the
      last, exactly as the StringBuilder loop does. `android` is None when the
      project has no `android` extension or when reading its boot classpath
      throws; either way the lookup falls back and no Exception leaves it. */
  method GetBootClasspath(android: Option<seq<string>>, sunBootClassPath: Option<string>, sep: char)
    returns (r: string)
    ensures r == BootClasspath(android, sunBootClassPath, sep)
    ensures android.Some? ==> r == Join(android.value, sep)
    ensures android.None? && sunBootClassPath.Some? ==> r == sunBootClassPath.value
    ensures android.None? && sunBootClassPath.None? ==> r == ""
  {
    if android.Some? {
      var files := android.value;
      var builder := "";
      var i := 0;
      while i < |files|
        invariant 0 <= i <= |files|
        invariant i == 0 ==> builder == ""
        invariant 0 < i ==> builder == Join(files[..i], sep) + (if i < |files| then [sep] else [])
      {
        assert files[..i + 1][..i] == files[..i];
        builder := builder + files[i];
        if i < |files| - 1 {
          builder := builder + [sep];
        }
        i := i + 1;
      }
      assert files[..|files|] == files;
      return builder;
    }
    return sunBootClassPath.GetOr("");
  }

  /** How `Split` treats one more character. */
  lemma SplitSnoc(s: string, c: char, sep: char)
    ensures var f := Split(s, sep);
      Split(s + [c], sep) == if c == sep then f + [""] else f[..|f| - 1] + [f[|f| - 1] + [c]]
  {
  }

  lemma ExtendLastPiece(fx: seq<string>, fy: seq<string>, fz: seq<string>, sz: seq<string>, sy: seq<string>, c: char)
    requires |fy| >= 1 && fz == fx + fy
    requires sz == fz[..|fz| - 1] + [fz[|fz| - 1] + [c]]
    requires sy == fy[..|fy| - 1] + [fy[|fy| - 1] + [c]]
    ensures sz == fx + sy
  {
  }

  /** When `z` splits into the pieces before `y` followed by `y`'s pieces,
      one more character extends both splits alike. */
  lemma SplitAppendStep(fx: seq<string>, z: string, y: string, c: char, sep: char)
    requires Split(z, sep) == fx + Split(y, sep)
    ensures Split(z + [c], sep) == fx + Split(y + [c], sep)
  {
    var fy, fz := Split(y, sep), Split(z, sep);
    SplitSnoc(z, c, sep);
    SplitSnoc(y, c, sep);
    if c == sep {
      assert (fx + fy) + [""] == fx + (fy + [""]);
    } else {
      ExtendLastPiece(fx, fy, fz, Split(z + [c], sep), Split(y + [c], sep), c);
    }
  }

  /** Appending a separator and a further piece adds that piece's split. */
  lemma {:induction false} SplitAppend(x: string, sep: char, y: string)
    ensures Split(x + [sep] + y, sep) == Split(x, sep) + Split(y, sep)
    decreases |y|
  {
    if |y| == 0 {
      assert x + [sep] + y == x + [sep];
      SplitSnoc(x, sep, sep);
    } else {
      var y', c := y[..|y| - 1], y[|y| - 1];
      assert y == y' + [c];
      assert x + [sep] + y == (x + [sep] + y') + [c];
      SplitAppend(x, sep, y');
      SplitAppendStep(Split(x, sep), x + [sep] + y', y', c, sep);
    }
  }

  /** A string without the separator splits into itself alone. */
  lemma {:induction false} SplitNoSep(p: string, sep: char)
    requires sep !in p
    ensures Split(p, sep) == [p]
    decreases |p|
  {
    if |p| > 0 {
      var p' := p[..|p| - 1];
      assert sep !in p' by {
        forall i | 0 <= i < |p'| ensures p'[i] != sep {
          assert p'[i] == p[i];
        }
      }
      SplitNoSep(p', sep);
      assert p' + [p[|p| - 1]] == p;
    }
  }

  /** Round trip: splitting a join recovers the entries, provided there is at
      least one entry and no entry contains the separator. */
  lemma {:induction false} SplitJoin(paths: seq<string>, sep: char)
    requires |paths| >= 1
    requires forall i :: 0 <= i < |paths| ==> sep !in paths[i]
    ensures Split(Join(paths, sep), sep) == paths
    decreases |paths|
  {
    if |paths| == 1 {
      SplitNoSep(paths[0], sep);
    } else {
      var front := paths[..|paths| - 1];
      var last := paths[|paths| - 1];
      SplitJoin(front, sep);
      SplitAppend(Join(front, sep), sep, last);
      SplitNoSep(last, sep);
      assert front + [last] == paths;
    }
  }

  /** A string with n separators splits into n + 1 pieces. */
  lemma {:induction false} SplitCount(s: string, sep: char)
    ensures |Split(s, sep)| == CountChar(s, sep) + 1
    decreases |s|
  {
    if |s| > 0 {
      SplitCount(s[..|s| - 1], sep);
    }
  }

  /** Joining n >= 1 separator-free entries puts exactly n - 1 separators in
      the result; the empty list joins to "". */
  lemma JoinSeparatorCount(paths: seq<string>, sep: char)
    requires forall i :: 0 <= i < |paths| ==> sep !in paths[i]
    ensures |paths| == 0 ==> Join(paths, sep) == ""
    ensures |paths| >= 1 ==> CountChar(Join(paths, sep), sep) == |paths| - 1
  {
    if |paths| >= 1 {
      SplitJoin(paths, sep);
      SplitCount(Join(paths, sep), sep);
    }
  }

  /** Three entries are joined with one separator between neighbours. */
  lemma JoinThree(a: string, b: string, c: string, sep: char)
    ensures Join([a, b, c], sep) == a + [sep] + b + [sep] + c
  {
    assert [a, b][..1] == [a];
    assert Join([a, b], sep) == a + [sep] + b;
    assert [a, b, c][..2] == [a, b];
  }

  /** The join starts with the first entry and ends with the last one:
      nothing is added before the first entry or after the last. */
  lemma {:induction false} JoinEnds(paths: seq<string>, sep: char)
    requires |paths| >= 1
    ensures paths[0] <= Join(paths, sep)
    ensures |paths[|paths| - 1]| <= |Join(paths, sep)|
    ensures Join(paths, sep)[|Join(paths, sep)| - |paths[|paths| - 1]|..] == paths[|paths| - 1]
    decreases |paths|
  {
    if |paths| > 1 {
      var front := paths[..|paths| - 1];
      JoinEnds(front, sep);
      assert front[0] == paths[0];
      var j := Join(front, sep);
      assert paths[0] <= j + [sep] + paths[|paths| - 1] by {
        assert (j + [sep] + paths[|paths| - 1])[..|j|] == j;
      }
    }
  }
}
