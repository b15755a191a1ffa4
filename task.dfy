/**
 * The rewriting task: an object holding the two identifier -> version maps,
 * their setters, and the rewriting loop that works on a text buffer it
 * changes in place.  Reading the manifest from and writing it back to its
 * file are not part of this model: `Execute` takes the text and returns the
 * outcome the loop reaches.
 */
module Task {
  import opened Scanning
  import opened Rewriter
  import Config

  class IdReplaceTask {
    /** Plugin identifier -> version. */
    var pluginIds: VersionMap
    /** Included-feature identifier -> version. */
    var featureIds: VersionMap

    constructor ()
      ensures pluginIds == map[] && featureIds == map[]
    {
      pluginIds := map[];
      featureIds := map[];
    }

    /**
     * Replaces the plugin map by the one read from `values`, a comma-separated
     * list alternating identifier and version.  `ok` is false when the list
     * has an odd number of tokens; the map then holds the pairs read before
     * the failing read.
     */
    method SetPluginIds(values: string) returns (ok: bool)
      modifies this
      ensures pluginIds == Config.ReadPairs(Config.Tokens(values, ","))
      ensures ok <==> |Config.Tokens(values, ",")| % 2 == 0
      ensures featureIds == old(featureIds)
    {
      pluginIds, ok := Config.ParsePairs(values);
    }

    /** As SetPluginIds, for the included-feature map. */
    method SetFeatureIds(values: string) returns (ok: bool)
      modifies this
      ensures featureIds == Config.ReadPairs(Config.Tokens(values, ","))
      ensures ok <==> |Config.Tokens(values, ",")| % 2 == 0
      ensures pluginIds == old(pluginIds)
    {
      featureIds, ok := Config.ParsePairs(values);
    }

    /**
     * The rewriting loop over the manifest text, for at most `fuel`
     * iterations.  The search for references starts after the root tag; the
     * buffer is replaced by its spliced successor when a generic version is
     * replaced, and identifiers without a mapped version are collected
     * instead of printed.
     */
    method Execute(text: string, fuel: nat) returns (outcome: Outcome)
      ensures outcome == Rewrite(text, pluginIds, featureIds, fuel)
    {
      var buffer := new TextBuffer(text);
      var startPlugin := SkipRootTag(buffer.text);
      outcome := RunLoop(buffer, startPlugin, pluginIds, featureIds, fuel);
    }
  }

  /** The manifest text, held in a buffer that the loop changes in place. */
  class TextBuffer {
    var text: string

    constructor (s: string)
      ensures text == s
    {
      text := s;
    }

    /** Replaces the characters in `start..end` by `s`; the text after them shifts. */
    method Replace(start: nat, end: nat, s: string)
      requires start <= end <= |text|
      modifies this
      ensures |text| == |old(text)| - (end - start) + |s|
      ensures text[..start] == old(text)[..start] && text[start..start + |s|] == s
      ensures text[start + |s|..] == old(text)[end..]
      ensures text == Rewriter.Replace(old(text), start, end, s)
    {
      text := text[..start] + s + text[end..];
      assert text[start..start + |s|] == s;
      assert text[start + |s|..] == old(text)[end..];
    }
  }

  /**
   * The end of the root tag, from which the search for references starts:
   * the root tag is skipped because it contains the word "plugin".
   */
  method SkipRootTag(buffer: string) returns (endFeature: int)
    ensures endFeature == RootTagEnd(buffer)
  {
    var startFeature := ScanFor(buffer, 0, FEATURE);
    endFeature := ScanFor(buffer, startFeature + 1, TAG_END);
  }

  /**
   * One pass of the loop body from the previous `plugin` offset: the end
   * of the loop, a failure, or the next offset with the identifiers to
   * report; a replacement is made in the buffer.
   */
  method StepIn(buffer: TextBuffer, startPlugin: int, plugins: VersionMap, features: VersionMap)
    returns (r: StepResult)
    requires startPlugin >= -1
    modifies buffer
    ensures r == Step(old(buffer.text), startPlugin, plugins, features)
    ensures buffer.text == if r.Continue? then r.text else old(buffer.text)
  {
    var found := ExamineFrom(buffer.text, startPlugin);
    match found
    case NoPlugin => return Finished;
    case NoId => return Finished;
    case NegativeIdLength => return Failed(IdLength);
    case NegativeVersionLength => return Failed(VersionLength);
    case Found(o) =>
      var next, reported := ResolveIn(buffer, o, plugins, features);
      r := Continue(buffer.text, next, reported);
  }

  /** The version check, the lookup and the splice for one found reference. */
  method ResolveIn(buffer: TextBuffer, o: Occurrence, plugins: VersionMap, features: VersionMap)
    returns (startPlugin: int, reported: seq<string>)
    requires InText(buffer.text, o)
    modifies buffer
    ensures Resolve(old(buffer.text), o, plugins, features) == Continue(buffer.text, startPlugin, reported)
  {
    var versionId := buffer.text[o.versionOpen + 1..o.versionClose];
    if versionId != GENERIC {
      return o.versionOpen, [];
    }
    var startVersionId := o.versionOpen + 1;
    var versions := if o.closestInclude > o.closestPlugin then features else plugins;
    var elementId := buffer.text[o.idOpen + 1..o.idClose];
    if elementId !in versions {
      return startVersionId, [elementId];
    }
    buffer.Replace(startVersionId, startVersionId + |GENERIC|, versions[elementId]);
    return startVersionId, [];
  }

  /**
   * The offsets of the next reference after `startPlugin`, searched in the
   * order of the loop body of the rewriting task.
   */
  method ExamineFrom(buf: string, startPlugin: int) returns (e: Examined)
    requires startPlugin >= -1
    ensures e == Examine(buf, startPlugin)
  {
    var plugin := ScanFor(buf, startPlugin + 1, PLUGIN);
    if plugin == -1 {
      return NoPlugin;
    }
    var id := ScanFor(buf, plugin, ID);
    if id == -1 {
      return NoId;
    }
    e := ExamineIdFrom(buf, plugin, id);
  }

  /** The look-behinds from the `id` keyword. */
  method ExamineIdFrom(buf: string, plugin: nat, id: nat) returns (e: Examined)
    ensures e == ExamineId(buf, plugin, id)
  {
    var closestPlugin := ClosestBefore(buf, plugin, id, PLUGIN);
    var closestInclude := ClosestBefore(buf, plugin, id, INCLUDES);
    e := ExamineNameFrom(buf, Occurrence(plugin, id, closestPlugin, closestInclude, -1, 0, -1, -1, 0));
  }

  /** The quotes around the identifier after the `id` keyword. */
  method ExamineNameFrom(buf: string, o: Occurrence) returns (e: Examined)
    ensures e == ExamineName(buf, o)
  {
    var idOpen := ScanFor(buf, o.id + 1, QUOTE);
    var idClose := ScanFor(buf, idOpen + 1, QUOTE);
    if idClose - idOpen - 1 < 0 {
      return NegativeIdLength;
    }
    e := ExamineVersionFrom(buf, o.(idOpen := idOpen, idClose := idClose));
  }

  /** The `version` keyword after the identifier and the quotes around its value. */
  method ExamineVersionFrom(buf: string, o: Occurrence) returns (e: Examined)
    requires 0 <= o.idOpen + 1 <= o.idClose < |buf|
    ensures e == ExamineVersion(buf, o)
  {
    var versionWord := ScanFor(buf, o.idClose + 1, VERSION);
    var versionOpen := ScanFor(buf, versionWord + 1, QUOTE);
    var versionClose := ScanFor(buf, versionOpen + 1, QUOTE);
    if versionClose - versionOpen - 1 < 0 {
      return NegativeVersionLength;
    }
    e := Found(o.(versionWord := versionWord, versionOpen := versionOpen, versionClose := versionClose));
  }

  /**
   * The look-behind loop: moves from `from` to each later match of `t` while
   * that match lies before `limit`.
   */
  method ClosestBefore(buf: string, from: nat, limit: int, t: string) returns (c: nat)
    ensures c == LastMatchBefore(buf, from, limit, t)
  {
    c := from;
    while c < limit
      invariant from <= c
      invariant LastMatchBefore(buf, c, limit, t) == LastMatchBefore(buf, from, limit, t)
      decreases limit - c
    {
      var next := ScanFor(buf, c + 1, t);
      if next != -1 && next < limit {
        c := next;
      } else {
        break;
      }
    }
  }

  /**
   * The loop of the rewriting task for at most `fuel` iterations from
   * `startPlugin`, with the version maps in effect.
   */
  method RunLoop(buffer: TextBuffer, startPlugin: int, plugins: VersionMap, features: VersionMap, fuel: nat)
    returns (outcome: Outcome)
    requires startPlugin >= -1
    modifies buffer
    ensures outcome == Run(old(buffer.text), startPlugin, plugins, features, [], fuel)
    ensures outcome.Rewritten? ==> buffer.text == outcome.text
  {
    var at, unresolved: seq<string>, remaining := startPlugin, [], fuel;
    ghost var goal := Run(buffer.text, startPlugin, plugins, features, [], fuel);
    while remaining > 0
      invariant at >= -1
      invariant Run(buffer.text, at, plugins, features, unresolved, remaining) == goal
      decreases remaining
    {
      ghost var before := buffer.text;
      var step := StepIn(buffer, at, plugins, features);
      if step.Finished? {
        return Rewritten(buffer.text, unresolved);
      } else if step.Failed? {
        return Aborted(step.fault, unresolved);
      }
      assert buffer.text == step.text;
      var rest := remaining - 1;
      RunContinues(before, at, plugins, features, unresolved, remaining, step.text, step.startPlugin, step.reported);
      RunSameFuel(step.text, step.startPlugin, plugins, features, unresolved + step.reported, remaining - 1, rest);
      at, unresolved, remaining := step.startPlugin, unresolved + step.reported, rest;
    }
    outcome := OutOfFuel;
  }
}
