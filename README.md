# IdReplaceTask: the generic-version rewriter of a feature manifest

This project models the Ant task `IdReplaceTask` of the Eclipse PDE build. The task rewrites the text of a feature
manifest (`feature.xml`). Every plugin or included-feature reference whose version is the reserved marker `0.0.0`
gets the version found for its identifier in one of two maps. The plugin map is consulted for plugin references and
the feature map for included features. An identifier that has no entry is reported and its marker is left in place.

The model has five modules:

- `Scanning` (`scan.dfy`) holds the hand-written substring search `scan`, in both overloads. `Find` and
  `FirstMatch` are its specification functions. `Scan` and `ScanFor` are the loops, proved against them. The search
  only reports a match that ends strictly before the last character of the buffer.
- `Config` (`config.dfy`) holds the configuration strings:
  - trimming, as `String.trim` does it: every character at or below the space;
  - a string tokenizer that yields no empty tokens;
  - the id/version pair reader shared by `setPluginIds` and `setFeatureIds`;
  - the list splitter `getArrayFromString`.
- `Rewriter` (`rewriter.dfy`) states one iteration of the rewriting loop as the function `Step` and the whole loop
  as `Run`. `Step` is built from `Examine` (the offsets the loop body computes) and `Resolve` (what it does with
  them). The lemmas there state what the offsets mean, how a reference is classified, and what a replacement changes.
- `Task` (`task.dfy`) holds the imperative part:
  - the class `IdReplaceTask`, with its two map fields, their setters and `Execute`;
  - a `TextBuffer` class whose `Replace` splices the text in place, as `StringBuffer.replace` does;
  - the loop `RunLoop`, with the loop body split into methods as the code computes it.
  Each method is proved to compute the corresponding function of `Rewriter`.
- `Scenarios` (`scenarios.dfy`) runs the rewriter on small concrete manifests.

The loop of `execute` is not guaranteed to terminate, so `Run` takes a fuel bound: at most `fuel` iterations, then
`OutOfFuel`. The bound is needed because some inputs really make the loop go on forever. `TrapNeverFinishes` exhibits
one: no amount of fuel finishes the manifest `<feature id="f"><plugin id="x"/></feature>`. That reference has no
`version` keyword, so the search for the version's quotes starts again at the beginning of the text. It finds the
quotes of the root attribute, which lie before the current `plugin`. The next iteration therefore resumes before
that `plugin`, finds it again, and repeats the same step forever.

The two array allocations of the loop body can receive a negative size. One is the identifier array
(`IdReplaceTask.java:136`), the other the version array (`IdReplaceTask.java:142`). In Java this throws and the
manifest is not written back. The model makes both explicit failures: `Failed(IdLength)` and
`Failed(VersionLength)` for one step, and `Aborted` for the run.

The end of the root tag bounds only the first search for `plugin`: `FirstReferenceAfterRootTag` proves that the
first iteration examines the first `plugin` after that `>`. Later iterations resume at the offset the previous one
leaves, and that offset can lie inside the root tag. In `<feature id="f" a="plugin"><plugin id="x"/></feature>` the
root tag ends at 26 and the first iteration examines the `plugin` at 28. That reference has no `version`, so the
version quotes are the root attribute's, and the second iteration resumes at 12. Its search for `plugin` then finds
the word inside the root attribute `a`, at 19.

Two kinds of input behave in ways worth stating:

- **Included features alone.** The Javadoc of `setFeatureIds` (`IdReplaceTask.java:68-73`) asks that every included
  feature with a generic version be listed in the feature map. The loop, however, searches only for the keyword
  `plugin`, and `includes` is consulted only to classify a reference reached through a `plugin`. A manifest whose
  only reference is `<includes id="f.g" version="0.0.0"/>` is therefore never rewritten: `ScenarioIncludesAlone`
  proves that it comes back unchanged, with nothing reported.
- **References without a version or a quote.** A missing `plugin`, or a missing `id` after it, ends the loop. A
  missing quote or `version` keyword makes the quote search restart at offset 0, so the offsets come from the first
  quotes of the text. What follows depends on the text:
  - the run can still end normally: in `<feature><plugin id="x"/></feature>` the identifier's own quotes are read
    as the version quotes, `x` is not the marker, and the text comes back unchanged (`ScenarioUnversioned`);
  - when the text between its first two quotes is `0.0.0`, that span is the one replaced or reported;
  - a text without any quote aborts on the identifier's negative array size (`StepFailsWithoutQuote`);
  - the loop can go on forever (`TrapNeverFinishes`).

## Model

Source paths are relative to the repository root. `IdReplaceTask.java` stands for
`org.eclipse.pde.build/src_ant/org/eclipse/pde/internal/build/tasks/IdReplaceTask.java`, whose full path appears in
each row.

| member | source | states |
|---|---|---|
| Scanning.Find | org.eclipse.pde.build/src_ant/org/eclipse/pde/internal/build/tasks/IdReplaceTask.java:177-188 | The result is -1, or a position at or after `start` where the target occurs and the match ends before the last character |
| Scanning.FindMeaning | org.eclipse.pde.build/src_ant/org/eclipse/pde/internal/build/tasks/IdReplaceTask.java:177-188 | The search returns -1 exactly when no match starts at or after `start`; otherwise it returns the least such match |
| Scanning.FindIsLeast | org.eclipse.pde.build/src_ant/org/eclipse/pde/internal/build/tasks/IdReplaceTask.java:177-188 | The least match from `start`, or -1 when there is none, is what the search returns |
| Scanning.FirstMatch | org.eclipse.pde.build/src_ant/org/eclipse/pde/internal/build/tasks/IdReplaceTask.java:177-188 | The multi-target search returns the least position where some target matches; no target matches before it, or anywhere after `start` when it returns -1 |
| Scanning.Scan | org.eclipse.pde.build/src_ant/org/eclipse/pde/internal/build/tasks/IdReplaceTask.java:177-188 | The nested loop over positions and targets, with its early return, computes the least matching position |
| Scanning.FindIsFirstMatch | org.eclipse.pde.build/src_ant/org/eclipse/pde/internal/build/tasks/IdReplaceTask.java:173-175 | The single-target overload equals the general scan with a one-element target list |
| Scanning.ScanFor | org.eclipse.pde.build/src_ant/org/eclipse/pde/internal/build/tasks/IdReplaceTask.java:173-175 | The single-target scan returns the first match of its target |
| Scanning.FinalMatchMissed | org.eclipse.pde.build/src_ant/org/eclipse/pde/internal/build/tasks/IdReplaceTask.java:180 | Because the bound is strict, a match that ends exactly at the end of the buffer is never reported |
| Scanning.OccursIsSubstring | org.eclipse.pde.build/src_ant/org/eclipse/pde/internal/build/tasks/IdReplaceTask.java:181-182 | Comparing character by character agrees with comparing the substring of the buffer with the target |
| Scanning.LastMatchBefore | org.eclipse.pde.build/src_ant/org/eclipse/pde/internal/build/tasks/IdReplaceTask.java:115-132 | The look-behind ends at its start offset or at a match that lies strictly between its start and the `id` |
| Scanning.LastMatchBeforeIsLast | org.eclipse.pde.build/src_ant/org/eclipse/pde/internal/build/tasks/IdReplaceTask.java:115-132 | No match of the keyword lies between the look-behind's result and the `id`: the result is the last one before it |
| Config.TrimMeaning | org.eclipse.pde.build/src_ant/org/eclipse/pde/internal/build/tasks/IdReplaceTask.java:55 | Trimming keeps a slice of the string outside which every character is blank; the slice neither starts nor ends with a blank |
| Config.TrimEmptyIffBlank | org.eclipse.pde.build/src_ant/org/eclipse/pde/internal/build/tasks/IdReplaceTask.java:212 | A string trims to the empty string exactly when all its characters are blank |
| Config.TrimOfTrimmed | org.eclipse.pde.build/src_ant/org/eclipse/pde/internal/build/tasks/IdReplaceTask.java:55 | A string with no blank at either end is its own trim |
| Config.Tokens | org.eclipse.pde.build/src_ant/org/eclipse/pde/internal/build/tasks/IdReplaceTask.java:54 | Every token is non-empty and free of delimiters, and consists of characters of the input |
| Config.TokensOfJoin | org.eclipse.pde.build/src_ant/org/eclipse/pde/internal/build/tasks/IdReplaceTask.java:54 | Tokenizing a list of tokens joined by the separator gives the list back |
| Config.PairMapLookup | org.eclipse.pde.build/src_ant/org/eclipse/pde/internal/build/tasks/IdReplaceTask.java:54-65 | An identifier is in the map exactly when some pair has it; its value is the version of the last such pair |
| Config.ReadPairsLookup | org.eclipse.pde.build/src_ant/org/eclipse/pde/internal/build/tasks/IdReplaceTask.java:52-66 | The map read from a token list holds exactly the identifiers of its complete trimmed pairs, and a later duplicate overwrites an earlier one |
| Config.ParsePairs | org.eclipse.pde.build/src_ant/org/eclipse/pde/internal/build/tasks/IdReplaceTask.java:52-66 | The tokenizer loop builds a fresh map from the pairs of trimmed tokens; it fails exactly when the token count is odd, keeping the pairs read before |
| Config.NonBlankTokens | org.eclipse.pde.build/src_ant/org/eclipse/pde/internal/build/tasks/IdReplaceTask.java:215-219 | The kept tokens are trimmed and non-empty, with no blank at either end, and there are no more of them than tokens |
| Config.NonBlankTokensMembers | org.eclipse.pde.build/src_ant/org/eclipse/pde/internal/build/tasks/IdReplaceTask.java:217-220 | Every token that is not blank is kept in trimmed form, and every kept string is the trimmed form of some token |
| Config.NonBlankTokensInOrder | org.eclipse.pde.build/src_ant/org/eclipse/pde/internal/build/tasks/IdReplaceTask.java:217-220 | The kept tokens are exactly the trimmed tokens with the empty ones removed, in their original order |
| Config.BlankHasNoTokens | org.eclipse.pde.build/src_ant/org/eclipse/pde/internal/build/tasks/IdReplaceTask.java:212-213 | A blank list has no non-blank token, so its early empty result agrees with the general case |
| Config.GetArrayFromString | org.eclipse.pde.build/src_ant/org/eclipse/pde/internal/build/tasks/IdReplaceTask.java:211-221 | A missing or blank list gives no tokens; otherwise the result is the trimmed non-blank tokens, in their original order |
| Rewriter.RootTagEnd | org.eclipse.pde.build/src_ant/org/eclipse/pde/internal/build/tasks/IdReplaceTask.java:98-102 | The search for references starts at the first `>` after the first `feature` (after offset 0 when there is no `feature`), and at -1 exactly when no such `>` exists |
| Rewriter.FirstReferenceAfterRootTag | org.eclipse.pde.build/src_ant/org/eclipse/pde/internal/build/tasks/IdReplaceTask.java:98-111 | The first iteration examines the first `plugin` after the end of the root tag, so a `plugin` inside the root tag is not taken for the first reference |
| Rewriter.Examine | org.eclipse.pde.build/src_ant/org/eclipse/pde/internal/build/tasks/IdReplaceTask.java:105-111 | A found reference lies inside the text, and its `plugin` keyword lies after the previous one and at or before its `id` |
| Rewriter.ExamineId | org.eclipse.pde.build/src_ant/org/eclipse/pde/internal/build/tasks/IdReplaceTask.java:113-132 | Once `plugin` and `id` are found, the loop body does not end normally; a found reference keeps those two keywords |
| Rewriter.ExamineName | org.eclipse.pde.build/src_ant/org/eclipse/pde/internal/build/tasks/IdReplaceTask.java:134-137 | Delimiting the identifier keeps the keywords and the classification; the identifier span lies inside the text |
| Rewriter.ExamineVersion | org.eclipse.pde.build/src_ant/org/eclipse/pde/internal/build/tasks/IdReplaceTask.java:139-143 | The version offsets either give a reference that lies inside the text or make the version array size negative |
| Rewriter.ExamineFound | org.eclipse.pde.build/src_ant/org/eclipse/pde/internal/build/tasks/IdReplaceTask.java:105-143 | A found reference has the first `plugin` after the previous one, the first `id` from there, the classification, and the first quotes after each keyword |
| Rewriter.ExamineNameFound | org.eclipse.pde.build/src_ant/org/eclipse/pde/internal/build/tasks/IdReplaceTask.java:134-143 | The identifier's quotes are the first two after `id`; a search that finds no opening quote restarts at offset 0 |
| Rewriter.ExamineVersionFound | org.eclipse.pde.build/src_ant/org/eclipse/pde/internal/build/tasks/IdReplaceTask.java:139-143 | The `version` keyword is the first after the identifier, and the version's quotes are the next two, with the same restart |
| Rewriter.ClassifiedByNearestKeyword | org.eclipse.pde.build/src_ant/org/eclipse/pde/internal/build/tasks/IdReplaceTask.java:115-151 | The feature map is chosen exactly when some `includes` is nearer to the `id` than every later `plugin`; a tie, or no other keyword, chooses the plugin map |
| Rewriter.ValuesAreQuoted | org.eclipse.pde.build/src_ant/org/eclipse/pde/internal/build/tasks/IdReplaceTask.java:134-143 | Identifier and version are the texts strictly between two consecutive quotes, so neither contains a quote |
| Rewriter.StepFinishes | org.eclipse.pde.build/src_ant/org/eclipse/pde/internal/build/tasks/IdReplaceTask.java:104-111 | An iteration ends the loop normally exactly when no `plugin` follows, or no `id` follows the next `plugin` |
| Rewriter.StepFailsWithoutQuote | org.eclipse.pde.build/src_ant/org/eclipse/pde/internal/build/tasks/IdReplaceTask.java:134-136 | A reference in a text without any quote fails on the identifier's negative array size instead of ending the loop |
| Rewriter.Resolve | org.eclipse.pde.build/src_ant/org/eclipse/pde/internal/build/tasks/IdReplaceTask.java:144-162 | A found reference never ends the loop; the search resumes at an offset of at least -1 |
| Rewriter.ResolveKeepsConcreteVersion | org.eclipse.pde.build/src_ant/org/eclipse/pde/internal/build/tasks/IdReplaceTask.java:144-147 | A version other than `0.0.0` leaves the text unchanged, reports nothing, and resumes at the version's opening quote |
| Rewriter.ResolveReplacesGeneric | org.eclipse.pde.build/src_ant/org/eclipse/pde/internal/build/tasks/IdReplaceTask.java:149-162 | A mapped generic marker is replaced by the chosen map's version: only its five characters change, the text after them shifts unchanged, and the search resumes at the new version |
| Rewriter.ResolveReportsUnresolved | org.eclipse.pde.build/src_ant/org/eclipse/pde/internal/build/tasks/IdReplaceTask.java:149-157 | An unmapped generic marker stays in the text and its identifier is reported |
| Rewriter.ResolveAdvances | org.eclipse.pde.build/src_ant/org/eclipse/pde/internal/build/tasks/IdReplaceTask.java:144-162 | When the quotes and the `version` keyword are found after the `id`, the next search starts strictly after this iteration's `plugin` |
| Rewriter.Replace | org.eclipse.pde.build/src_ant/org/eclipse/pde/internal/build/tasks/IdReplaceTask.java:159 | The spliced text is as long as the original, less the replaced span, plus the replacement |
| Rewriter.Step | org.eclipse.pde.build/src_ant/org/eclipse/pde/internal/build/tasks/IdReplaceTask.java:104-163 | One iteration ends the loop, fails, or continues from an offset of at least -1 |
| Rewriter.Run | org.eclipse.pde.build/src_ant/org/eclipse/pde/internal/build/tasks/IdReplaceTask.java:104-163 | A run that ends, normally or by an abort, used at least one iteration, and its reports extend the ones it started with: each iteration appends its reports after the earlier ones |
| Rewriter.Rewrite | org.eclipse.pde.build/src_ant/org/eclipse/pde/internal/build/tasks/IdReplaceTask.java:98-163 | A manifest with no `plugin` after its root tag comes back unchanged with nothing reported, whatever the maps |
| Rewriter.FixedPointNeverFinishes | org.eclipse.pde.build/src_ant/org/eclipse/pde/internal/build/tasks/IdReplaceTask.java:104-163 | An iteration that returns to its own offset with an unchanged text repeats forever: no amount of fuel finishes |
| Rewriter.StepIntoStuckRun | org.eclipse.pde.build/src_ant/org/eclipse/pde/internal/build/tasks/IdReplaceTask.java:104-163 | An iteration that leads, unchanged and silently, to a never-ending loop does not finish either |
| Rewriter.NoMarkerStep | org.eclipse.pde.build/src_ant/org/eclipse/pde/internal/build/tasks/IdReplaceTask.java:144-147 | On a text with no `0.0.0` anywhere, an iteration changes nothing and reports nothing |
| Rewriter.NoMarkerUnchanged | org.eclipse.pde.build/src_ant/org/eclipse/pde/internal/build/tasks/IdReplaceTask.java:104-163 | A text without the marker comes back unchanged with nothing reported, so rewriting an already-rewritten text changes nothing |
| Task.IdReplaceTask.constructor | org.eclipse.pde.build/src_ant/org/eclipse/pde/internal/build/tasks/IdReplaceTask.java:31-33 | Both maps start empty |
| Task.IdReplaceTask.SetPluginIds | org.eclipse.pde.build/src_ant/org/eclipse/pde/internal/build/tasks/IdReplaceTask.java:52-66 | The plugin map is replaced, not merged, by the pairs read from the list; the feature map is unchanged; an odd token count fails |
| Task.IdReplaceTask.SetFeatureIds | org.eclipse.pde.build/src_ant/org/eclipse/pde/internal/build/tasks/IdReplaceTask.java:74-88 | The same for the feature map, leaving the plugin map unchanged |
| Task.IdReplaceTask.Execute | org.eclipse.pde.build/src_ant/org/eclipse/pde/internal/build/tasks/IdReplaceTask.java:98-163 | The outcome is the rewrite of the text with the maps held by the task |
| Task.TextBuffer.Replace | org.eclipse.pde.build/src_ant/org/eclipse/pde/internal/build/tasks/IdReplaceTask.java:159 | In place: the text before the span is kept, the replacement follows it, and the rest of the text follows shifted |
| Task.SkipRootTag | org.eclipse.pde.build/src_ant/org/eclipse/pde/internal/build/tasks/IdReplaceTask.java:98-102 | Computes the end of the root tag |
| Task.ExamineFrom | org.eclipse.pde.build/src_ant/org/eclipse/pde/internal/build/tasks/IdReplaceTask.java:105-111 | Computes the offsets of the next reference |
| Task.ExamineIdFrom | org.eclipse.pde.build/src_ant/org/eclipse/pde/internal/build/tasks/IdReplaceTask.java:113-132 | Computes the two look-behinds |
| Task.ClosestBefore | org.eclipse.pde.build/src_ant/org/eclipse/pde/internal/build/tasks/IdReplaceTask.java:115-132 | The look-behind loop moves to the last match of its keyword before the `id` |
| Task.ExamineNameFrom | org.eclipse.pde.build/src_ant/org/eclipse/pde/internal/build/tasks/IdReplaceTask.java:134-137 | Computes the identifier's quotes, or the identifier array's negative size |
| Task.ExamineVersionFrom | org.eclipse.pde.build/src_ant/org/eclipse/pde/internal/build/tasks/IdReplaceTask.java:139-143 | Computes the version offsets, or the version array's negative size |
| Task.ResolveIn | org.eclipse.pde.build/src_ant/org/eclipse/pde/internal/build/tasks/IdReplaceTask.java:144-162 | Performs the version check, the lookup in the chosen map, and the in-place splice, as `Resolve` states them |
| Task.StepIn | org.eclipse.pde.build/src_ant/org/eclipse/pde/internal/build/tasks/IdReplaceTask.java:104-163 | One pass of the loop body: its result is `Step`'s, and the buffer holds the continued text, or is unchanged when the loop ends or fails |
| Task.RunLoop | org.eclipse.pde.build/src_ant/org/eclipse/pde/internal/build/tasks/IdReplaceTask.java:104-163 | The loop reaches `Run`'s outcome, and the buffer then holds the rewritten text |
| Scenarios.ScenarioReplaced | org.eclipse.pde.build/src_ant/org/eclipse/pde/internal/build/tasks/IdReplaceTask.java:98-163 | `<feature><plugin id="a.b" version="0.0.0"/></feature>` with `a.b` mapped to `1.2.3` becomes the same text with `1.2.3`, and nothing is reported |
| Scenarios.ScenarioConcrete | org.eclipse.pde.build/src_ant/org/eclipse/pde/internal/build/tasks/IdReplaceTask.java:98-163 | The same manifest with version `5.0.0` comes back unchanged, whatever the maps |
| Scenarios.ScenarioUnresolved | org.eclipse.pde.build/src_ant/org/eclipse/pde/internal/build/tasks/IdReplaceTask.java:98-163 | With an empty plugin map, the manifest is unchanged and `a.b` is reported |
| Scenarios.ScenarioIncludesAlone | org.eclipse.pde.build/src_ant/org/eclipse/pde/internal/build/tasks/IdReplaceTask.java:104-107 | A manifest whose only reference is an `includes` with `0.0.0` is unchanged, whatever the maps: the loop only looks for `plugin` |
| Scenarios.ScenarioUnversioned | org.eclipse.pde.build/src_ant/org/eclipse/pde/internal/build/tasks/IdReplaceTask.java:139-143 | `<feature><plugin id="x"/></feature>`, whose reference has no version, comes back unchanged with nothing reported: the identifier's quotes are read as the version's |
| Scenarios.TrapNeverFinishes | org.eclipse.pde.build/src_ant/org/eclipse/pde/internal/build/tasks/IdReplaceTask.java:104-163 | `<feature id="f"><plugin id="x"/></feature>` never finishes, whatever the maps and the fuel |

## Left out

- File I/O is not modelled. This covers `readFile`, `transferStreams`, the read and write around the loop in
  `execute`, the `BuildException` wrapping, the swallowed `FileNotFoundException`, and the default-charset
  `getBytes` conversion. `Execute` takes the text and returns the outcome, which holds the text to be written.
- The diagnostic printed to `System.err` for an identifier without a version becomes the `unresolved` list of the
  outcome.
- `setFeatureFilePath` and the Ant `Task` superclass are framework glue and are not modelled.
- Execute: the loop is bounded by `fuel` iterations, and a run that exhausts it yields `OutOfFuel`. The code has no
  such bound and can loop forever, as `TrapNeverFinishes` shows.
- The Java `null` inputs are not modelled, except the `null` list of `getArrayFromString`, which is an `Option`.
- Characters are Dafny `char` values, which are Unicode scalar values, while Java strings hold UTF-16 code units.
  Offsets in the model therefore count code points. No outcome differs, because every keyword, the quote and the
  `>` are ASCII characters. Trimming compares characters with the space character, as `String.trim` does.
- Task.IdReplaceTask.SetPluginIds: the `NoSuchElementException` thrown on an odd token count becomes `ok == false`,
  and the map is left holding the pairs read before it.
- Task.IdReplaceTask.SetFeatureIds: the same as SetPluginIds.
- Rewriter.NoMarkerUnchanged: repeating a rewrite is proved to change nothing only for texts that no longer contain
  `0.0.0`. A text that still holds an unresolved marker is reported again by a second run, and that case is not
  stated.
- Rewriter.ResolveAdvances: progress is stated only when the quotes and the `version` keyword are found after the
  `id`. In the other cases the offset can move backwards; `TrapNeverFinishes` is an instance.
