/**
 * The generic-version rewriter of a feature manifest, as functions over the
 * text.  One iteration of the rewriting loop is `Step`; the whole loop is
 * `Run`, bounded by a fuel count because the loop can run forever on some
 * inputs; `Rewrite` is the run that starts after the root `feature` tag.
 */
module Rewriter {
  import opened Scanning

  const FEATURE := "feature"
  const TAG_END := ">"
  const PLUGIN := "plugin"
  const INCLUDES := "includes"
  const ID := "id"
  const VERSION := "version"
  const QUOTE := "\""
  /** The reserved version that stands for "resolve at build time". */
  const GENERIC := "0.0.0"

  /** Identifier -> version, one map for plugins and one for included features. */
  type VersionMap = map<string, string>

  /**
   * The offsets found for one reference: the `plugin` keyword that starts the
   * iteration, the `id` keyword after it, the closest `plugin` and `includes`
   * keywords before that `id`, the two quotes around the identifier, the
   * `version` keyword and the two quotes around the version value.  An offset
   * of type `int` may be -1 when its keyword was not found.
   */
  datatype Occurrence = Occurrence(
    plugin: nat, id: nat,
    closestPlugin: nat, closestInclude: nat,
    idOpen: int, idClose: nat,
    versionWord: int, versionOpen: int, versionClose: nat)

  /** What examining the text from one offset finds. */
  datatype Examined =
    | NoPlugin                  // no further `plugin`: the loop ends normally
    | NoId                      // a `plugin` without a later `id`: the loop ends normally
    | NegativeIdLength          // the identifier array would get a negative size
    | NegativeVersionLength     // the version array would get a negative size
    | Found(occ: Occurrence)

  /** The two runtime failures of the loop, both negative array sizes. */
  datatype Fault = IdLength | VersionLength

  datatype StepResult =
    | Finished
    | Failed(fault: Fault)
    | Continue(text: string, startPlugin: int, reported: seq<string>)

  /**
   * The outcome of a run: the rewritten text with the identifiers reported as
   * unresolved, an abort (the text is then not written back), or a run that
   * did not finish within its fuel.
   */
  datatype Outcome =
    | Rewritten(text: string, unresolved: seq<string>)
    | Aborted(fault: Fault, unresolved: seq<string>)
    | OutOfFuel

  /** The identifier and version spans of an occurrence lie inside the text. */
  predicate InText(buf: string, o: Occurrence)
  {
    0 <= o.idOpen + 1 <= o.idClose < |buf| && 0 <= o.versionOpen + 1 <= o.versionClose < |buf|
  }

  function IdOf(buf: string, o: Occurrence): string
    requires InText(buf, o)
  {
    buf[o.idOpen + 1..o.idClose]
  }

  function VersionOf(buf: string, o: Occurrence): string
    requires InText(buf, o)
  {
    buf[o.versionOpen + 1..o.versionClose]
  }

  /** The reference is an included feature when `includes` is strictly closer to its `id` than `plugin`. */
  predicate IsFeatureRef(o: Occurrence)
  {
    o.closestInclude > o.closestPlugin
  }

  /**
   * The offsets of the next reference after `startPlugin`, in the order the
   * loop body computes them.
   */
  function Examine(buf: string, startPlugin: int): (e: Examined)
    requires startPlugin >= -1
    ensures e.Found? ==> InText(buf, e.occ) && startPlugin < e.occ.plugin <= e.occ.id
  {
    var p := Find(buf, startPlugin + 1, PLUGIN);
    if p == -1 then NoPlugin
    else
      var i := Find(buf, p, ID);
      if i == -1 then NoId
      else ExamineId(buf, p, i)
  }

  /** The rest of `Examine` once the `plugin` keyword `p` and the `id` keyword `i` are found. */
  function ExamineId(buf: string, p: nat, i: nat): (e: Examined)
    ensures e.Found? ==> InText(buf, e.occ) && e.occ.plugin == p && e.occ.id == i
    ensures !e.NoPlugin? && !e.NoId?
  {
    var cp := LastMatchBefore(buf, p, i, PLUGIN);
    var ci := LastMatchBefore(buf, p, i, INCLUDES);
    ExamineName(buf, Occurrence(p, i, cp, ci, -1, 0, -1, -1, 0))
  }

  /** The rest of `Examine` once the keywords are placed: the identifier's quotes are filled in. */
  function ExamineName(buf: string, o: Occurrence): (e: Examined)
    ensures e.Found? ==> (InText(buf, e.occ) && e.occ.plugin == o.plugin && e.occ.id == o.id
      && e.occ.closestPlugin == o.closestPlugin && e.occ.closestInclude == o.closestInclude)
    ensures !e.NoPlugin? && !e.NoId?
  {
    var io := Find(buf, o.id + 1, QUOTE);
    var ic := Find(buf, io + 1, QUOTE);
    if ic - io - 1 < 0 then NegativeIdLength
    else ExamineVersion(buf, o.(idOpen := io, idClose := ic))
  }

  /** The rest of `Examine` once the identifier is delimited: the version offsets are filled in. */
  function ExamineVersion(buf: string, o: Occurrence): (e: Examined)
    requires 0 <= o.idOpen + 1 <= o.idClose < |buf|
    ensures e.Found? ==> InText(buf, e.occ) && e.occ == o.(versionWord := e.occ.versionWord,
      versionOpen := e.occ.versionOpen, versionClose := e.occ.versionClose)
    ensures e.Found? || e.NegativeVersionLength?
  {
    var vw := Find(buf, o.idClose + 1, VERSION);
    var vo := Find(buf, vw + 1, QUOTE);
    var vc := Find(buf, vo + 1, QUOTE);
    if vc - vo - 1 < 0 then NegativeVersionLength
    else Found(o.(versionWord := vw, versionOpen := vo, versionClose := vc))
  }

  /** Replaces `buf[start..end]` by `s`. */
  function Replace(buf: string, start: nat, end: nat, s: string): (r: string)
    requires start <= end <= |buf|
    ensures |r| == |buf| - (end - start) + |s|
  {
    buf[..start] + s + buf[end..]
  }

  /**
   * What an iteration does with a found reference: a concrete version is
   * left alone and the search resumes at its opening quote; a generic one is
   * replaced from the map the classification chooses, or its identifier is
   * reported, and the search resumes at its first character.
   */
  function Resolve(buf: string, o: Occurrence, plugins: VersionMap, features: VersionMap): (r: StepResult)
    requires InText(buf, o)
    ensures r.Continue? && r.startPlugin >= -1
  {
    if VersionOf(buf, o) != GENERIC then Continue(buf, o.versionOpen, [])
    else
      var at := o.versionOpen + 1;
      var versions := if IsFeatureRef(o) then features else plugins;
      var name := IdOf(buf, o);
      if name in versions then Continue(Replace(buf, at, at + |GENERIC|, versions[name]), at, [])
      else Continue(buf, at, [name])
  }

  /** One iteration of the rewriting loop, from the offset of the previous `plugin`. */
  function Step(buf: string, startPlugin: int, plugins: VersionMap, features: VersionMap): (r: StepResult)
    requires startPlugin >= -1
    ensures r.Continue? ==> r.startPlugin >= -1
  {
    match Examine(buf, startPlugin)
    case NoPlugin => Finished
    case NoId => Finished
    case NegativeIdLength => Failed(IdLength)
    case NegativeVersionLength => Failed(VersionLength)
    case Found(o) => Resolve(buf, o, plugins, features)
  }

  /** At most `fuel` iterations of the loop; `unresolved` holds the identifiers reported so far. */
  function Run(buf: string, startPlugin: int, plugins: VersionMap, features: VersionMap,
               unresolved: seq<string>, fuel: nat): (r: Outcome)
    requires startPlugin >= -1
    decreases fuel
    ensures r.Rewritten? || r.Aborted? ==> fuel > 0 && unresolved <= r.unresolved
  {
    if fuel == 0 then OutOfFuel
    else
      match Step(buf, startPlugin, plugins, features)
      case Finished => Rewritten(buf, unresolved)
      case Failed(f) => Aborted(f, unresolved)
      case Continue(next, at, reported) => Run(next, at, plugins, features, unresolved + reported, fuel - 1)
  }

  /**
   * The end of the root tag: the first `>` after the first `feature`, or -1.
   * The search for references starts after it.
   */
  function RootTagEnd(text: string): (r: int)
    ensures r >= -1
    ensures r != -1 ==> r > Find(text, 0, FEATURE) && r + 1 < |text| && text[r] == '>'
    ensures r != -1 ==> FirstAt(text, Find(text, 0, FEATURE) + 1, TAG_END, r)
    ensures r == -1 <==> NoneFrom(text, Find(text, 0, FEATURE) + 1, TAG_END)
    ensures NoneFrom(text, 0, FEATURE) ==> r == Find(text, 0, TAG_END)
  {
    var startFeature := Find(text, 0, FEATURE);
    FindMeaning(text, 0, FEATURE);
    FindMeaning(text, startFeature + 1, TAG_END);
    Find(text, startFeature + 1, TAG_END)
  }

  /** The rewrite of a whole manifest text. */
  function Rewrite(text: string, plugins: VersionMap, features: VersionMap, fuel: nat): (r: Outcome)
    ensures fuel > 0 && NoneFrom(text, RootTagEnd(text) + 1, PLUGIN) ==> r == Rewritten(text, [])
  {
    FindMeaning(text, RootTagEnd(text) + 1, PLUGIN);
    Run(text, RootTagEnd(text), plugins, features, [], fuel)
  }

  // ---------------------------------------------------------------------
  // What one iteration finds

  /**
   * The first iteration examines the first `plugin` after the end of the
   * root tag: a `plugin` inside the root tag is not taken for a reference.
   */
  lemma FirstReferenceAfterRootTag(text: string)
    ensures var e := Examine(text, RootTagEnd(text));
      e.Found? ==> RootTagEnd(text) < e.occ.plugin && FirstAt(text, RootTagEnd(text) + 1, PLUGIN, e.occ.plugin)
  {
    if Examine(text, RootTagEnd(text)).Found? {
      ExamineFound(text, RootTagEnd(text));
    }
  }

  /**
   * Some `includes` lies after the `plugin` keyword at `p` and before the
   * `id` keyword at `i`, and no `plugin` lies between that `includes` and
   * the `id`.
   */
  ghost predicate IncludesNearest(buf: string, p: nat, i: nat)
  {
    exists m :: p < m < i && MatchAt(buf, m, INCLUDES) && forall k :: m < k < i ==> !MatchAt(buf, k, PLUGIN)
  }

  /** `plugin` and `includes` never occur at the same position. */
  lemma KeywordsDiffer(buf: string, m: int)
    ensures MatchAt(buf, m, PLUGIN) ==> !MatchAt(buf, m, INCLUDES)
  {
    if MatchAt(buf, m, PLUGIN) {
      assert buf[m] == 'p';
    }
  }

  /**
   * The classification rule: the reference is an included feature exactly
   * when an `includes` is nearer to the `id` than every `plugin` after the
   * starting `plugin`; when neither keyword occurs again, or on a tie, it is
   * a plugin.
   */
  lemma ClassifiedByNearestKeyword(buf: string, p: nat, i: nat)
    ensures LastMatchBefore(buf, p, i, INCLUDES) > LastMatchBefore(buf, p, i, PLUGIN)
        <==> IncludesNearest(buf, p, i)
  {
    var cp := LastMatchBefore(buf, p, i, PLUGIN);
    var ci := LastMatchBefore(buf, p, i, INCLUDES);
    LastMatchBeforeIsLast(buf, p, i, PLUGIN);
    LastMatchBeforeIsLast(buf, p, i, INCLUDES);
    if ci > cp {
      forall k | ci < k < i
        ensures !MatchAt(buf, k, PLUGIN)
      {
      }
      assert p < ci < i && MatchAt(buf, ci, INCLUDES);
    }
    if IncludesNearest(buf, p, i) {
      var m :| p < m < i && MatchAt(buf, m, INCLUDES) && forall k :: m < k < i ==> !MatchAt(buf, k, PLUGIN);
      assert m <= ci;
      KeywordsDiffer(buf, m);
      assert cp != m;
      assert cp < m;
    }
  }

  /**
   * The keywords of an occurrence found from `startPlugin`: the first
   * `plugin` after it, the first `id` from there, and the classification.
   */
  ghost predicate KeywordsFound(buf: string, startPlugin: int, o: Occurrence)
  {
    && FirstAt(buf, startPlugin + 1, PLUGIN, o.plugin)
    && FirstAt(buf, o.plugin, ID, o.id)
    && Classified(buf, o)
  }

  /** The occurrence is classified as an included feature exactly when IncludesNearest holds. */
  ghost predicate Classified(buf: string, o: Occurrence)
  {
    IsFeatureRef(o) <==> IncludesNearest(buf, o.plugin, o.id)
  }

  /**
   * The quotes of the identifier: the first two after the `id` keyword; when
   * there is no quote after it, the search for the closing one restarts at
   * the start of the text.
   */
  ghost predicate IdQuotesFound(buf: string, o: Occurrence)
  {
    && (o.idOpen == -1 ==> NoneFrom(buf, o.id + 1, QUOTE) && FirstAt(buf, 0, QUOTE, o.idClose))
    && (o.idOpen != -1 ==> FirstAt(buf, o.id + 1, QUOTE, o.idOpen) && FirstAt(buf, o.idOpen + 1, QUOTE, o.idClose))
  }

  /**
   * The first `version` after the identifier's closing quote (or none) and
   * the first two quotes after it, with the same restart at the start of the
   * text.
   */
  ghost predicate VersionQuotesFound(buf: string, o: Occurrence)
  {
    && (o.versionWord == -1 ==> NoneFrom(buf, o.idClose + 1, VERSION))
    && (o.versionWord != -1 ==> FirstAt(buf, o.idClose + 1, VERSION, o.versionWord))
    && (o.versionOpen == -1 ==> NoneFrom(buf, o.versionWord + 1, QUOTE) && FirstAt(buf, 0, QUOTE, o.versionClose))
    && (o.versionOpen != -1 ==>
          FirstAt(buf, o.versionWord + 1, QUOTE, o.versionOpen) && FirstAt(buf, o.versionOpen + 1, QUOTE, o.versionClose))
  }

  lemma ExamineVersionFound(buf: string, o: Occurrence)
    requires 0 <= o.idOpen + 1 <= o.idClose < |buf| && ExamineVersion(buf, o).Found?
    ensures VersionQuotesFound(buf, ExamineVersion(buf, o).occ)
  {
    var vw := Find(buf, o.idClose + 1, VERSION);
    FindMeaning(buf, o.idClose + 1, VERSION);
    var vo := Find(buf, vw + 1, QUOTE);
    FindMeaning(buf, vw + 1, QUOTE);
    FindMeaning(buf, vo + 1, QUOTE);
  }

  lemma ExamineNameFound(buf: string, o: Occurrence)
    requires ExamineName(buf, o).Found?
    ensures IdQuotesFound(buf, ExamineName(buf, o).occ) && VersionQuotesFound(buf, ExamineName(buf, o).occ)
  {
    var io := Find(buf, o.id + 1, QUOTE);
    var ic := Find(buf, io + 1, QUOTE);
    var named := o.(idOpen := io, idClose := ic);
    IdQuotesOf(buf, o, io, ic);
    assert ExamineName(buf, o) == ExamineVersion(buf, named);
    ExamineVersionFound(buf, named);
  }

  lemma IdQuotesOf(buf: string, o: Occurrence, io: int, ic: int)
    requires io == Find(buf, o.id + 1, QUOTE) && ic == Find(buf, io + 1, QUOTE) && ic - io - 1 >= 0
    ensures IdQuotesFound(buf, o.(idOpen := io, idClose := ic))
  {
    FindMeaning(buf, o.id + 1, QUOTE);
    FindMeaning(buf, io + 1, QUOTE);
  }

  lemma ExamineIdFound(buf: string, p: nat, i: nat)
    requires ExamineId(buf, p, i).Found?
    ensures var o := ExamineId(buf, p, i).occ;
      Classified(buf, o) && IdQuotesFound(buf, o) && VersionQuotesFound(buf, o)
  {
    var cp := LastMatchBefore(buf, p, i, PLUGIN);
    var ci := LastMatchBefore(buf, p, i, INCLUDES);
    ClassifiedByNearestKeyword(buf, p, i);
    var o := Occurrence(p, i, cp, ci, -1, 0, -1, -1, 0);
    ExamineNameFound(buf, o);
  }

  /** The meaning of the offsets found from `startPlugin`. */
  lemma ExamineFound(buf: string, startPlugin: int)
    requires startPlugin >= -1 && Examine(buf, startPlugin).Found?
    ensures var o := Examine(buf, startPlugin).occ;
      KeywordsFound(buf, startPlugin, o) && IdQuotesFound(buf, o) && VersionQuotesFound(buf, o)
  {
    var p := Find(buf, startPlugin + 1, PLUGIN);
    FindMeaning(buf, startPlugin + 1, PLUGIN);
    var i := Find(buf, p, ID);
    FindMeaning(buf, p, ID);
    ExamineIdFound(buf, p, i);
  }

  /** No quote occurs in `buf` strictly between two consecutive quotes. */
  lemma BetweenQuotes(buf: string, open: int, close: int)
    requires open >= -1 && FirstAt(buf, open + 1, QUOTE, close)
    ensures close < |buf| - 1 && buf[close] == '"'
    ensures forall k :: open < k < close ==> buf[k] != '"'
  {
    assert buf[close..close + 1][0] == buf[close];
    forall k | open < k < close
      ensures buf[k] != '"'
    {
      assert !MatchAt(buf, k, QUOTE);
      assert buf[k..k + 1] == [buf[k]];
    }
  }

  /** The text strictly between a quote found by IdQuotesFound or VersionQuotesFound and the next one holds no quote. */
  lemma QuoteFreeBetween(buf: string, open: int, close: int)
    requires 0 <= open + 1 <= close < |buf| && FirstAt(buf, open + 1, QUOTE, close)
    ensures buf[close] == '"' && '"' !in buf[open + 1..close]
  {
    BetweenQuotes(buf, open, close);
    var between := buf[open + 1..close];
    forall k | 0 <= k < |between|
      ensures between[k] != '"'
    {
      assert between[k] == buf[open + 1 + k];
    }
  }

  /**
   * The identifier and the version of a found reference are the texts between
   * two consecutive quotes, so neither holds a quote; when the opening quote
   * was found, it is the first quote after the keyword.
   */
  lemma ValuesAreQuoted(buf: string, o: Occurrence)
    requires InText(buf, o) && IdQuotesFound(buf, o) && VersionQuotesFound(buf, o)
    ensures '"' !in IdOf(buf, o) && '"' !in VersionOf(buf, o)
    ensures buf[o.idClose] == '"' && buf[o.versionClose] == '"'
    ensures o.idOpen != -1 ==> o.id < o.idOpen && buf[o.idOpen] == '"'
    ensures o.versionOpen != -1 ==> o.versionWord < o.versionOpen && buf[o.versionOpen] == '"'
  {
    QuoteFreeBetween(buf, o.idOpen, o.idClose);
    QuoteFreeBetween(buf, o.versionOpen, o.versionClose);
    if o.idOpen != -1 {
      BetweenQuotes(buf, o.id, o.idOpen);
    }
    if o.versionOpen != -1 {
      BetweenQuotes(buf, o.versionWord, o.versionOpen);
    }
  }

  // ---------------------------------------------------------------------
  // What one iteration does

  /** The loop ends normally exactly when no `plugin` follows, or no `id` follows the next `plugin`. */
  lemma StepFinishes(buf: string, startPlugin: int, plugins: VersionMap, features: VersionMap)
    requires startPlugin >= -1
    ensures Step(buf, startPlugin, plugins, features).Finished? <==>
      (NoneFrom(buf, startPlugin + 1, PLUGIN) || exists p :: FirstAt(buf, startPlugin + 1, PLUGIN, p) && NoneFrom(buf, p, ID))
  {
    var p := Find(buf, startPlugin + 1, PLUGIN);
    FindMeaning(buf, startPlugin + 1, PLUGIN);
    if p != -1 {
      FindMeaning(buf, p, ID);
      if exists p' :: FirstAt(buf, startPlugin + 1, PLUGIN, p') && NoneFrom(buf, p', ID) {
        var p' :| FirstAt(buf, startPlugin + 1, PLUGIN, p') && NoneFrom(buf, p', ID);
        FindIsLeast(buf, startPlugin + 1, PLUGIN, p');
      }
    }
  }

  /** A version other than the generic marker leaves the text as it is; the search resumes at the version's opening quote. */
  lemma ResolveKeepsConcreteVersion(buf: string, o: Occurrence, plugins: VersionMap, features: VersionMap)
    requires InText(buf, o) && VersionOf(buf, o) != GENERIC
    ensures Resolve(buf, o, plugins, features) == Continue(buf, o.versionOpen, [])
  {
  }

  /** The map a classified occurrence is looked up in: the feature map exactly when `includes` is nearest to its `id`. */
  ghost function ChosenMap(buf: string, o: Occurrence, plugins: VersionMap, features: VersionMap): VersionMap
  {
    if IncludesNearest(buf, o.plugin, o.id) then features else plugins
  }

  /**
   * A generic version whose identifier is in the map the classification
   * chooses is replaced by the mapped version: exactly the five characters of
   * the marker are replaced, the text before them is unchanged and the text
   * after them is unchanged but shifted; the search resumes at the first
   * character of the new version.
   */
  lemma ResolveReplacesGeneric(buf: string, o: Occurrence, plugins: VersionMap, features: VersionMap)
    requires InText(buf, o) && Classified(buf, o) && VersionOf(buf, o) == GENERIC
    requires IdOf(buf, o) in ChosenMap(buf, o, plugins, features)
    ensures var v := ChosenMap(buf, o, plugins, features)[IdOf(buf, o)];
      var at := o.versionOpen + 1;
      var r := Resolve(buf, o, plugins, features);
      && at + |GENERIC| <= |buf| && buf[at..at + |GENERIC|] == GENERIC
      && r.Continue? && r.startPlugin == at && r.reported == []
      && |r.text| == |buf| - |GENERIC| + |v|
      && r.text[..at] == buf[..at]
      && r.text[at..at + |v|] == v
      && r.text[at + |v|..] == buf[at + |GENERIC|..]
  {
    var v := ChosenMap(buf, o, plugins, features)[IdOf(buf, o)];
    var at := o.versionOpen + 1;
    var r := Resolve(buf, o, plugins, features);
    assert r.text == buf[..at] + v + buf[at + |GENERIC|..];
  }

  /**
   * A generic version whose identifier is missing from the chosen map leaves
   * the text as it is and reports the identifier; the search resumes at the
   * first character of the marker.
   */
  lemma ResolveReportsUnresolved(buf: string, o: Occurrence, plugins: VersionMap, features: VersionMap)
    requires InText(buf, o) && Classified(buf, o) && VersionOf(buf, o) == GENERIC
    requires IdOf(buf, o) !in ChosenMap(buf, o, plugins, features)
    ensures Resolve(buf, o, plugins, features) == Continue(buf, o.versionOpen + 1, [IdOf(buf, o)])
  {
  }

  /**
   * When the identifier's opening quote, the `version` keyword and the
   * version's opening quote are all found after the `id`, the next search
   * starts strictly after the `plugin` of this iteration.
   */
  lemma ResolveAdvances(buf: string, startPlugin: int, o: Occurrence, plugins: VersionMap, features: VersionMap)
    requires InText(buf, o) && KeywordsFound(buf, startPlugin, o) && IdQuotesFound(buf, o) && VersionQuotesFound(buf, o)
    requires o.idOpen != -1 && o.versionWord != -1 && o.versionOpen != -1
    ensures startPlugin < o.plugin < Resolve(buf, o, plugins, features).startPlugin
  {
    assert startPlugin < o.plugin <= o.id < o.idOpen < o.idClose < o.versionWord < o.versionOpen;
  }

  /** A step that finds neither quote nor a closing quote after the `id` fails with a negative identifier length. */
  lemma StepFailsWithoutQuote(buf: string, startPlugin: int, plugins: VersionMap, features: VersionMap)
    requires startPlugin >= -1
    requires exists p :: FirstAt(buf, startPlugin + 1, PLUGIN, p) && !NoneFrom(buf, p, ID)
    requires NoneFrom(buf, 0, QUOTE)
    ensures Step(buf, startPlugin, plugins, features) == Failed(IdLength)
  {
    var p := Find(buf, startPlugin + 1, PLUGIN);
    var p' :| FirstAt(buf, startPlugin + 1, PLUGIN, p') && !NoneFrom(buf, p', ID);
    FindIsLeast(buf, startPlugin + 1, PLUGIN, p');
    FindMeaning(buf, p, ID);
    var i := Find(buf, p, ID);
    FindMeaning(buf, i + 1, QUOTE);
    FindMeaning(buf, 0, QUOTE);
  }

  // ---------------------------------------------------------------------
  // The whole loop

  /** A run with fuel left goes on from where a continuing step leaves it. */
  lemma RunContinues(buf: string, startPlugin: int, plugins: VersionMap, features: VersionMap,
                     unresolved: seq<string>, fuel: nat, next: string, at: int, reported: seq<string>)
    requires startPlugin >= -1 && fuel > 0
    requires Step(buf, startPlugin, plugins, features) == Continue(next, at, reported)
    ensures Run(buf, startPlugin, plugins, features, unresolved, fuel)
         == Run(next, at, plugins, features, unresolved + reported, fuel - 1)
  {
  }

  /** A run whose first step continues and whose second step finishes returns the continued text. */
  lemma RunTwoSteps(buf: string, startPlugin: int, plugins: VersionMap, features: VersionMap, fuel: nat,
                    next: string, at: int, reported: seq<string>)
    requires startPlugin >= -1 && at >= -1 && fuel >= 2
    requires Step(buf, startPlugin, plugins, features) == Continue(next, at, reported)
    requires Step(next, at, plugins, features) == Finished
    ensures Run(buf, startPlugin, plugins, features, [], fuel) == Rewritten(next, reported)
  {
    RunContinues(buf, startPlugin, plugins, features, [], fuel, next, at, reported);
    assert [] + reported == reported;
  }

  /** Only the amount of fuel matters, not how it is written. */
  lemma RunSameFuel(buf: string, startPlugin: int, plugins: VersionMap, features: VersionMap,
                    unresolved: seq<string>, fuel: nat, same: nat)
    requires startPlugin >= -1 && fuel == same
    ensures Run(buf, startPlugin, plugins, features, unresolved, fuel)
         == Run(buf, startPlugin, plugins, features, unresolved, same)
  {
  }

  /**
   * A step that returns to the same offset with the same text and reports
   * nothing repeats forever: no amount of fuel finishes the loop.
   */
  lemma FixedPointNeverFinishes(buf: string, startPlugin: int, plugins: VersionMap,
                                 features: VersionMap, unresolved: seq<string>, fuel: nat)
    requires startPlugin >= -1
    requires Step(buf, startPlugin, plugins, features) == Continue(buf, startPlugin, [])
    decreases fuel
    ensures Run(buf, startPlugin, plugins, features, unresolved, fuel) == OutOfFuel
  {
    if fuel > 0 {
      FixedPointNeverFinishes(buf, startPlugin, plugins, features, unresolved, fuel - 1);
      assert unresolved + [] == unresolved;
      RunContinues(buf, startPlugin, plugins, features, unresolved, fuel, buf, startPlugin, []);
    }
  }

  /**
   * A step that leads, unchanged and silently, to an offset from which the
   * loop never finishes does not finish either.
   */
  lemma StepIntoStuckRun(buf: string, startPlugin: int, loop: int, plugins: VersionMap,
                         features: VersionMap, unresolved: seq<string>, fuel: nat)
    requires startPlugin >= -1 && loop >= -1
    requires Step(buf, startPlugin, plugins, features) == Continue(buf, loop, [])
    requires forall n: nat :: Run(buf, loop, plugins, features, unresolved, n) == OutOfFuel
    ensures Run(buf, startPlugin, plugins, features, unresolved, fuel) == OutOfFuel
  {
    if fuel > 0 {
      assert unresolved + [] == unresolved;
      RunContinues(buf, startPlugin, plugins, features, unresolved, fuel, buf, loop, []);
    }
  }

  /** The generic marker occurs in `buf` at `k`. */
  predicate MarkerAt(buf: string, k: int)
  {
    0 <= k <= |buf| - |GENERIC| && buf[k..k + |GENERIC|] == GENERIC
  }

  /** The generic marker occurs nowhere in `buf`. */
  ghost predicate NoMarker(buf: string)
  {
    forall k :: !MarkerAt(buf, k)
  }

  /** On a text without the generic marker a step changes nothing and reports nothing. */
  lemma NoMarkerStep(buf: string, startPlugin: int, plugins: VersionMap, features: VersionMap)
    requires startPlugin >= -1 && NoMarker(buf)
    ensures var r := Step(buf, startPlugin, plugins, features);
      r.Continue? ==> r.text == buf && r.reported == []
  {
    var e := Examine(buf, startPlugin);
    if e.Found? {
      var o := e.occ;
      assert !MarkerAt(buf, o.versionOpen + 1);
      assert |VersionOf(buf, o)| != |GENERIC| || VersionOf(buf, o) == buf[o.versionOpen + 1..o.versionOpen + 1 + |GENERIC|];
      ResolveKeepsConcreteVersion(buf, o, plugins, features);
    }
  }

  /**
   * A text without the generic marker is left as it is and nothing is
   * reported: in particular a second run over a text whose markers were all
   * resolved changes nothing.
   */
  lemma NoMarkerUnchanged(buf: string, startPlugin: int, plugins: VersionMap,
                          features: VersionMap, unresolved: seq<string>, fuel: nat)
    requires startPlugin >= -1 && NoMarker(buf)
    decreases fuel
    ensures var out := Run(buf, startPlugin, plugins, features, unresolved, fuel);
      out.Rewritten? ==> out.text == buf && out.unresolved == unresolved
  {
    if fuel > 0 {
      var r := Step(buf, startPlugin, plugins, features);
      NoMarkerStep(buf, startPlugin, plugins, features);
      if r.Continue? {
        NoMarkerUnchanged(buf, r.startPlugin, plugins, features, unresolved, fuel - 1);
        assert unresolved + [] == unresolved;
        RunContinues(buf, startPlugin, plugins, features, unresolved, fuel, buf, r.startPlugin, []);
      }
    }
  }
}
