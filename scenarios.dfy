/**
 * Whole runs of the rewriter on small manifests: a plugin reference with a
 * generic version and a mapping, one with a concrete version, one whose
 * identifier is not mapped, an included-feature reference with no `plugin`
 * keyword anywhere, and a manifest on which the loop never ends.  The
 * manifests are written as concatenations of short literals.
 */
module Scenarios {
  import opened Scanning
  import opened Rewriter

  /** `<feature><plugin id="a.b" version="` + version + `"/></feature>` */
  function PluginManifest(version: string): string
  {
    "<feature>" + "<plugin" + " id=\"" + "a.b" + "\" " + "version=\"" + version + "\"/>" + "</feature>"
  }

  /** `<feature><includes id="f.g" version="` + version + `"/></feature>` */
  function IncludesManifest(version: string): string
  {
    "<feature>" + "<includes" + " id=\"" + "f.g" + "\" " + "version=\"" + version + "\"/>" + "</feature>"
  }

  /** `<feature id="f"><plugin id="x"/></feature>`: a quoted root attribute and a reference without a version. */
  const Trap: string := "<feature" + " id=\"" + "f" + "\">" + "<plugin" + " id=\"" + "x" + "\"/>" + "</feature>"

  // ---------------------------------------------------------------------
  // Searching a known text

  /** No position in `start..at` holds the first character of `t`, so the search may begin at `at`. */
  lemma Skip(buf: string, start: nat, at: nat, t: string)
    requires t != [] && start <= at <= |buf|
    requires forall k :: start <= k < at ==> buf[k] != t[0]
    ensures Find(buf, start, t) == Find(buf, at, t)
  {
    assert t[0] !in buf[start..at];
    FindSkips(buf, start, at, t);
  }

  /** The first match of `t` from `start` is at `at` when `t` starts nowhere before and is spelled out at `at`. */
  lemma FoundAt(buf: string, start: nat, at: nat, t: string)
    requires t != [] && start <= at && at + |t| < |buf|
    requires forall k :: start <= k < at ==> buf[k] != t[0]
    requires forall k :: 0 <= k < |t| ==> buf[at + k] == t[k]
    ensures Find(buf, start, t) == at
  {
    Skip(buf, start, at, t);
    assert buf[at..at + |t|] == t;
    OccursIsSubstring(buf, at, t, 0);
    FindHere(buf, at, t);
  }

  /** `t` is not found from `start` when its first character does not occur from there on. */
  lemma NotFound(buf: string, start: nat, t: string)
    requires t != [] && start <= |buf|
    requires forall k :: start <= k < |buf| ==> buf[k] != t[0]
    ensures Find(buf, start, t) == -1
  {
    Skip(buf, start, |buf|, t);
    FindTooLate(buf, |buf|, t);
  }

  /** A position where the `k`-th character differs from that of `t` can be skipped. */
  lemma SkipMismatch(buf: string, at: nat, t: string, k: nat)
    requires k < |t| && at + k < |buf| && buf[at + k] != t[k]
    ensures Find(buf, at, t) == Find(buf, at + 1, t)
  {
    if at + |t| <= |buf| {
      OccursIsSubstring(buf, at, t, 0);
      assert buf[at..at + |t|][k] == buf[at + k];
    }
    FindSkipsOne(buf, at, t);
  }

  // ---------------------------------------------------------------------
  // The plugin manifest

  lemma PluginManifestRootTag(version: string)
    requires |version| == 5
    ensures RootTagEnd(PluginManifest(version)) == 8
  {
    PluginManifestRootKeyword(version);
    PluginManifestRootClose(version);
  }

  lemma PluginManifestRootKeyword(version: string)
    requires |version| == 5
    ensures Find(PluginManifest(version), 0, FEATURE) == 1
  {
    FoundAt(PluginManifest(version), 0, 1, FEATURE);
  }

  lemma PluginManifestRootClose(version: string)
    requires |version| == 5
    ensures Find(PluginManifest(version), 2, TAG_END) == 8
  {
    FoundAt(PluginManifest(version), 2, 8, TAG_END);
  }

  lemma PluginManifestKeywords(version: string, startPlugin: int)
    requires |version| == 5 && 8 <= startPlugin < 10
    ensures var m := PluginManifest(version);
      Find(m, startPlugin + 1, PLUGIN) == 10 && Find(m, 10, ID) == 17
  {
    var m := PluginManifest(version);
    FoundAt(m, startPlugin + 1, 10, PLUGIN);
    PluginManifestId(version);
  }

  /** The `i` of `plugin` is not followed by `d`: the `id` keyword is the next one. */
  lemma PluginManifestId(version: string)
    requires |version| == 5
    ensures Find(PluginManifest(version), 10, ID) == 17
  {
    var m := PluginManifest(version);
    Skip(m, 10, 14, ID);
    SkipMismatch(m, 14, ID, 1);
    FoundAt(m, 15, 17, ID);
  }

  /** Neither keyword occurs again between the `plugin` and the `id`. */
  lemma PluginManifestClosest(version: string)
    requires |version| == 5
    ensures var m := PluginManifest(version);
      LastMatchBefore(m, 10, 17, PLUGIN) == 10 && LastMatchBefore(m, 10, 17, INCLUDES) == 10
  {
    var m := PluginManifest(version);
    Skip(m, 11, 17, PLUGIN);
    Skip(m, 11, 14, INCLUDES);
    SkipMismatch(m, 14, INCLUDES, 2);
    Skip(m, 15, 17, INCLUDES);
  }

  lemma PluginManifestIdQuotes(version: string)
    requires |version| == 5
    ensures var m := PluginManifest(version);
      Find(m, 18, QUOTE) == 20 && Find(m, 21, QUOTE) == 24 && Find(m, 25, VERSION) == 26
  {
    var m := PluginManifest(version);
    FoundAt(m, 18, 20, QUOTE);
    FoundAt(m, 21, 24, QUOTE);
    FoundAt(m, 25, 26, VERSION);
  }

  lemma PluginManifestVersionQuotes(version: string)
    requires |version| == 5 && '"' !in version
    ensures var m := PluginManifest(version);
      Find(m, 27, QUOTE) == 34 && Find(m, 35, QUOTE) == 40
  {
    var m := PluginManifest(version);
    FoundAt(m, 27, 34, QUOTE);
    FoundAt(m, 35, 40, QUOTE);
  }

  /** The offsets of the one reference: `plugin` at 10, `id` at 17, the identifier in 20..24, `version` at 26, the value in 34..40. */
  lemma PluginManifestExamined(version: string, startPlugin: int)
    requires |version| == 5 && '"' !in version && 8 <= startPlugin < 10
    ensures Examine(PluginManifest(version), startPlugin) == Found(Occurrence(10, 17, 10, 10, 20, 24, 26, 34, 40))
  {
    PluginManifestKeywords(version, startPlugin);
    PluginManifestClosest(version);
    PluginManifestIdQuotes(version);
    PluginManifestVersionQuotes(version);
  }

  /** No `plugin` follows the reference, so the loop ends after it. */
  lemma PluginManifestEnds(version: string, startPlugin: int, plugins: VersionMap, features: VersionMap)
    requires 'p' !in version && 10 <= startPlugin < |PluginManifest(version)|
    ensures Step(PluginManifest(version), startPlugin, plugins, features) == Finished
  {
    NotFound(PluginManifest(version), startPlugin + 1, PLUGIN);
  }

  /** One step on a generic version with a mapping: the marker of `a.b` is replaced by its mapped version. */
  lemma PluginManifestReplaced(plugins: VersionMap, features: VersionMap)
    requires "a.b" in plugins
    ensures Step(PluginManifest(GENERIC), 8, plugins, features)
         == Continue(PluginManifest(plugins["a.b"]), 35, [])
  {
    var m := PluginManifest(GENERIC);
    var w := plugins["a.b"];
    PluginManifestExamined(GENERIC, 8);
    var o := Occurrence(10, 17, 10, 10, 20, 24, 26, 34, 40);
    assert VersionOf(m, o) == GENERIC;
    assert IdOf(m, o) == "a.b";
    assert Replace(m, 35, 40, w) == PluginManifest(w);
  }

  /** One step on a concrete version: a concrete version is left alone. */
  lemma PluginManifestKept(version: string, plugins: VersionMap, features: VersionMap)
    requires |version| == 5 && '"' !in version && version != GENERIC
    ensures Step(PluginManifest(version), 8, plugins, features) == Continue(PluginManifest(version), 34, [])
  {
    var m := PluginManifest(version);
    PluginManifestExamined(version, 8);
    var o := Occurrence(10, 17, 10, 10, 20, 24, 26, 34, 40);
    assert VersionOf(m, o) == version;
  }

  /** One step on a generic version without a mapping: an unmapped identifier is reported and the marker stays. */
  lemma PluginManifestReported(plugins: VersionMap, features: VersionMap)
    requires "a.b" !in plugins
    ensures Step(PluginManifest(GENERIC), 8, plugins, features) == Continue(PluginManifest(GENERIC), 35, ["a.b"])
  {
    var m := PluginManifest(GENERIC);
    PluginManifestExamined(GENERIC, 8);
    var o := Occurrence(10, 17, 10, 10, 20, 24, 26, 34, 40);
    assert VersionOf(m, o) == GENERIC;
    assert IdOf(m, o) == "a.b";
  }

  /** A mapped generic version: the generic version of `a.b` becomes `1.2.3`, and nothing is reported. */
  lemma ScenarioReplaced(fuel: nat)
    requires fuel >= 2
    ensures Rewrite(PluginManifest(GENERIC), map["a.b" := "1.2.3"], map[], fuel)
         == Rewritten(PluginManifest("1.2.3"), [])
  {
    var plugins: VersionMap := map["a.b" := "1.2.3"];
    var features: VersionMap := map[];
    PluginManifestRootTag(GENERIC);
    PluginManifestReplaced(plugins, features);
    PluginManifestEnds("1.2.3", 35, plugins, features);
    RunTwoSteps(PluginManifest(GENERIC), 8, plugins, features, fuel, PluginManifest("1.2.3"), 35, []);
  }

  /** A concrete version: a manifest whose version is concrete comes back unchanged, whatever the maps. */
  lemma ScenarioConcrete(plugins: VersionMap, features: VersionMap, fuel: nat)
    requires fuel >= 2
    ensures Rewrite(PluginManifest("5.0.0"), plugins, features, fuel) == Rewritten(PluginManifest("5.0.0"), [])
  {
    var m := PluginManifest("5.0.0");
    PluginManifestRootTag("5.0.0");
    PluginManifestKept("5.0.0", plugins, features);
    PluginManifestEnds("5.0.0", 34, plugins, features);
    RunTwoSteps(m, 8, plugins, features, fuel, m, 34, []);
  }

  /** An unmapped identifier: without a mapping for `a.b` the text is unchanged and `a.b` is reported. */
  lemma ScenarioUnresolved(features: VersionMap, fuel: nat)
    requires fuel >= 2
    ensures Rewrite(PluginManifest(GENERIC), map[], features, fuel) == Rewritten(PluginManifest(GENERIC), ["a.b"])
  {
    var m := PluginManifest(GENERIC);
    var plugins: VersionMap := map[];
    PluginManifestRootTag(GENERIC);
    PluginManifestReported(plugins, features);
    PluginManifestEnds(GENERIC, 35, plugins, features);
    RunTwoSteps(m, 8, plugins, features, fuel, m, 35, ["a.b"]);
  }

  // ---------------------------------------------------------------------
  // The included-feature manifest

  /**
   * An included-feature reference is only examined after a `plugin` keyword:
   * in a manifest with no `plugin` at all the loop ends at once, so the
   * generic version is neither replaced nor reported, whatever the maps.
   */
  lemma ScenarioIncludesAlone(plugins: VersionMap, features: VersionMap, fuel: nat)
    requires fuel >= 1
    ensures Rewrite(IncludesManifest(GENERIC), plugins, features, fuel) == Rewritten(IncludesManifest(GENERIC), [])
  {
    IncludesManifestRootTag(GENERIC);
    IncludesManifestNoPlugin(GENERIC);
  }

  lemma IncludesManifestRootTag(version: string)
    requires |version| == 5
    ensures RootTagEnd(IncludesManifest(version)) == 8
  {
    IncludesManifestRootKeyword(version);
    IncludesManifestRootClose(version);
  }

  lemma IncludesManifestRootKeyword(version: string)
    requires |version| == 5
    ensures Find(IncludesManifest(version), 0, FEATURE) == 1
  {
    FoundAt(IncludesManifest(version), 0, 1, FEATURE);
  }

  lemma IncludesManifestRootClose(version: string)
    requires |version| == 5
    ensures Find(IncludesManifest(version), 2, TAG_END) == 8
  {
    FoundAt(IncludesManifest(version), 2, 8, TAG_END);
  }

  lemma IncludesManifestNoPlugin(version: string)
    requires 'p' !in version
    ensures Find(IncludesManifest(version), 9, PLUGIN) == -1
  {
    NotFound(IncludesManifest(version), 9, PLUGIN);
  }

  // ---------------------------------------------------------------------
  // A reference without a version

  /** `<feature><plugin id="x"/></feature>`: the only reference has no `version` attribute. */
  const Unversioned: string := "<feature>" + "<plugin" + " id=\"" + "x" + "\"/>" + "</feature>"

  lemma UnversionedRootTag()
    ensures RootTagEnd(Unversioned) == 8
  {
    FoundAt(Unversioned, 0, 1, FEATURE);
    FoundAt(Unversioned, 2, 8, TAG_END);
  }

  lemma UnversionedKeywords()
    ensures Find(Unversioned, 9, PLUGIN) == 10 && Find(Unversioned, 10, ID) == 17
    ensures LastMatchBefore(Unversioned, 10, 17, PLUGIN) == 10 && LastMatchBefore(Unversioned, 10, 17, INCLUDES) == 10
  {
    var m := Unversioned;
    FoundAt(m, 9, 10, PLUGIN);
    Skip(m, 10, 14, ID);
    SkipMismatch(m, 14, ID, 1);
    FoundAt(m, 15, 17, ID);
    Skip(m, 11, 17, PLUGIN);
    Skip(m, 11, 14, INCLUDES);
    SkipMismatch(m, 14, INCLUDES, 2);
    Skip(m, 15, 17, INCLUDES);
  }

  /** No `version` follows, so the version quotes searched from the start of the text are the identifier's own. */
  lemma UnversionedQuotes()
    ensures Find(Unversioned, 18, QUOTE) == 20 && Find(Unversioned, 21, QUOTE) == 22
    ensures Find(Unversioned, 23, VERSION) == -1 && Find(Unversioned, 0, QUOTE) == 20
  {
    FoundAt(Unversioned, 18, 20, QUOTE);
    FoundAt(Unversioned, 21, 22, QUOTE);
    NotFound(Unversioned, 23, VERSION);
    FoundAt(Unversioned, 0, 20, QUOTE);
  }

  /** The identifier `x` is read as the version; not being the marker, it is kept and the search resumes at its opening quote. */
  lemma UnversionedStep(plugins: VersionMap, features: VersionMap)
    ensures Step(Unversioned, 8, plugins, features) == Continue(Unversioned, 20, [])
  {
    UnversionedKeywords();
    UnversionedQuotes();
    assert Examine(Unversioned, 8) == Found(Occurrence(10, 17, 10, 10, 20, 22, -1, 20, 22));
    assert VersionOf(Unversioned, Occurrence(10, 17, 10, 10, 20, 22, -1, 20, 22)) == "x";
  }

  /**
   * A reference without a version can end the loop normally: the text
   * comes back unchanged and nothing is reported, whatever the maps.
   */
  lemma ScenarioUnversioned(plugins: VersionMap, features: VersionMap, fuel: nat)
    requires fuel >= 2
    ensures Rewrite(Unversioned, plugins, features, fuel) == Rewritten(Unversioned, [])
  {
    UnversionedRootTag();
    UnversionedRun(plugins, features, fuel);
  }

  lemma UnversionedRun(plugins: VersionMap, features: VersionMap, fuel: nat)
    requires fuel >= 2
    ensures Run(Unversioned, 8, plugins, features, [], fuel) == Rewritten(Unversioned, [])
  {
    UnversionedStep(plugins, features);
    UnversionedEnds(plugins, features);
    RunTwoSteps(Unversioned, 8, plugins, features, fuel, Unversioned, 20, []);
  }

  lemma UnversionedEnds(plugins: VersionMap, features: VersionMap)
    ensures Step(Unversioned, 20, plugins, features) == Finished
  {
    NotFound(Unversioned, 21, PLUGIN);
  }

  // ---------------------------------------------------------------------
  // A manifest on which the loop never ends

  /**
   * From the end of the root tag and from the root attribute's opening
   * quote alike, the reference is the `plugin` at 17 with its identifier in
   * 27..29; as no `version` follows, the version quotes are searched from the
   * start of the text and are the root attribute's, at 12 and 14.
   */
  lemma TrapExamined(startPlugin: int)
    requires startPlugin == 12 || startPlugin == 15
    ensures Examine(Trap, startPlugin) == Found(Occurrence(17, 24, 17, 17, 27, 29, -1, 12, 14))
  {
    TrapKeywords(startPlugin);
    TrapQuotes();
  }

  lemma TrapKeywords(startPlugin: int)
    requires startPlugin == 12 || startPlugin == 15
    ensures Find(Trap, startPlugin + 1, PLUGIN) == 17 && Find(Trap, 17, ID) == 24
    ensures LastMatchBefore(Trap, 17, 24, PLUGIN) == 17 && LastMatchBefore(Trap, 17, 24, INCLUDES) == 17
  {
    FoundAt(Trap, startPlugin + 1, 17, PLUGIN);
    Skip(Trap, 17, 21, ID);
    SkipMismatch(Trap, 21, ID, 1);
    FoundAt(Trap, 22, 24, ID);
    TrapLookBehind();
  }

  lemma TrapLookBehind()
    ensures Find(Trap, 18, PLUGIN) == Find(Trap, 24, PLUGIN) && Find(Trap, 18, INCLUDES) == Find(Trap, 24, INCLUDES)
  {
    Skip(Trap, 18, 24, PLUGIN);
    Skip(Trap, 18, 21, INCLUDES);
    SkipMismatch(Trap, 21, INCLUDES, 2);
    Skip(Trap, 22, 24, INCLUDES);
  }

  lemma TrapQuotes()
    ensures Find(Trap, 25, QUOTE) == 27 && Find(Trap, 28, QUOTE) == 29 && Find(Trap, 30, VERSION) == -1
    ensures Find(Trap, 0, QUOTE) == 12 && Find(Trap, 13, QUOTE) == 14
  {
    FoundAt(Trap, 25, 27, QUOTE);
    FoundAt(Trap, 28, 29, QUOTE);
    NotFound(Trap, 30, VERSION);
    TrapRootQuotes();
  }

  lemma TrapRootQuotes()
    ensures Find(Trap, 0, QUOTE) == 12 && Find(Trap, 13, QUOTE) == 14
  {
    FoundAt(Trap, 0, 12, QUOTE);
    assert Trap[13..14] == "f";
    FoundAt(Trap, 13, 14, QUOTE);
  }

  lemma TrapRootTag()
    ensures RootTagEnd(Trap) == 15
  {
    TrapRootKeyword();
    TrapRootClose();
  }

  lemma TrapRootKeyword()
    ensures Find(Trap, 0, FEATURE) == 1
  {
    FoundAt(Trap, 0, 1, FEATURE);
  }

  lemma TrapRootClose()
    ensures Find(Trap, 2, TAG_END) == 15
  {
    FoundAt(Trap, 2, 15, TAG_END);
  }

  /** Both steps resume at the root attribute's opening quote, with the text unchanged and nothing reported. */
  lemma TrapStep(startPlugin: int, plugins: VersionMap, features: VersionMap)
    requires startPlugin == 12 || startPlugin == 15
    ensures Step(Trap, startPlugin, plugins, features) == Continue(Trap, 12, [])
  {
    TrapExamined(startPlugin);
    assert VersionOf(Trap, Occurrence(17, 24, 17, 17, 27, 29, -1, 12, 14)) == "f";
  }

  /** The search for `plugin` starts after the root tag. */
  lemma TrapStart(plugins: VersionMap, features: VersionMap, fuel: nat)
    ensures Rewrite(Trap, plugins, features, fuel) == Run(Trap, 15, plugins, features, [], fuel)
  {
    TrapRootTag();
  }

  /** From the root attribute's opening quote every iteration comes back to the same place. */
  lemma TrapLoops(plugins: VersionMap, features: VersionMap, unresolved: seq<string>, fuel: nat)
    ensures Run(Trap, 12, plugins, features, unresolved, fuel) == OutOfFuel
  {
    TrapStep(12, plugins, features);
    FixedPointNeverFinishes(Trap, 12, plugins, features, unresolved, fuel);
  }

  /** The loop never ends on this manifest: no amount of fuel gives an outcome. */
  lemma TrapNeverFinishes(plugins: VersionMap, features: VersionMap, fuel: nat)
    ensures Rewrite(Trap, plugins, features, fuel) == OutOfFuel
  {
    TrapStart(plugins, features, fuel);
    TrapStep(15, plugins, features);
    forall n: nat
      ensures Run(Trap, 12, plugins, features, [], n) == OutOfFuel
    {
      TrapLoops(plugins, features, [], n);
    }
    StepIntoStuckRun(Trap, 15, 12, plugins, features, [], fuel);
  }
}
