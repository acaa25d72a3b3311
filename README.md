# Drupal config processor — a Dafny model

`drupal-config-processor` is a Drush command. It reads a settings file that
holds a source directory and an ordered list of rules. It then goes through
every YAML configuration file of that directory. For each file:

- each rule is evaluated in order. A rule matches when it has no `match` list,
  or when one of its regular expressions matches the file's path.
- a matching rule runs its ordered `actions` on the document, which is
  loaded once per file and carried from rule to rule:
  - `skip` stops the remaining actions and rules for that file;
  - `remove-props` deletes top-level keys;
  - `save` writes the current document under a destination directory and
    creates the missing directories first;
  - any other name is only reported.
- every step is recorded in a textual report.

The model follows the source file by file:

| file | module | form |
|---|---|---|
| `php_strings.dfy` | `PhpStrings` | PHP's `implode`, `explode` and `str_replace`, as functions with their algebra |
| `misc_helper.dfy` | `MiscHelper` | `strVar`: placeholder substitution over a string or lines joined by `"\n"` |
| `yaml_document.dfy` | `YamlDocument` | a decoded document, as the ordered list of its top-level entries |
| `yaml_helper.dfy` | `YamlHelper` | `removeProps` (a loop, so a method proved against `Without`/`PropReports`), `getYaml`, `saveYaml` |
| `file_system_helper.dfy` | `FileSystemHelper` | a `FileSystem` class whose `nodes` map is changed in place by `makeDir` and `createMissingDir`; `MaterialiseDirs` specifies the latter |
| `config_processor.dfy` | `ConfigProcessing` | the rule and action pipeline. The specification functions `RunActions`, `RunRules`, `RunFile` and `RunBatch` are written on values. The methods of class `ConfigProcessor` perform the same loops on a `FileSystem` and are proved equal to them. |
| `report_text.dfy` | `ReportText` | the report lines built by `processActions` and `processRules` |

Some source behaviours have no happy path. An exception or a PHP type error
that the source lets propagate ends the whole run. The model shows this as
the signal `Abort(error)`, and the disk keeps every change made before the
throw. The cases are:

- `action` and `actions` on the same rule;
- a matched rule whose `actions` key is missing or holds no array (`~`, a scalar);
- `remove-props` without `props`, or `save` without `dest`;
- `makeDir` meeting a file;
- a source file that does not decode.

The regular-expression engine (`preg_match`) is a parameter of type
`Matcher`. Reading and writing YAML text is abstract: a file holds a decoded
document or nothing decodable, and `save` stores the document itself.

Three behaviours of the code are worth knowing:

- the "action"/"actions" conflict is detected only when that rule is
  reached, not before the run starts;
- no exception is caught per document, so a failed save or load aborts the
  remaining files too;
- the rule key is `match`.

A rule records whether its `actions` key is present separately from its
value (`ActionsKey`): the conflict test of line 109 of
`src/ConfigProcessor.php` looks only at the presence of the key, so
`{action: x, actions: ~}` aborts whether or not the rule matches.

## Model

| member | source | states |
|---|---|---|
| PhpStrings.Implode | src/helper/MiscHelper.php:24 | `implode`: the pieces with the glue between neighbours, nothing for no pieces; its laws are ImplodeSnoc and ImplodeExplode |
| PhpStrings.ReplaceAll | src/helper/MiscHelper.php:24 | single-pair `str_replace`: a left-to-right scan replacing each non-overlapping occurrence without rescanning replaced text, an empty search changing nothing; its laws are the ReplaceAll lemmas below |
| PhpStrings.Explode | src/helper/FileSystemHelper.php:24 | `explode` always yields at least one piece |
| PhpStrings.ExplodePiecesHaveNoSeparator | src/helper/FileSystemHelper.php:24 | no piece produced by `explode` contains the separator |
| PhpStrings.ImplodeExplode | src/helper/FileSystemHelper.php:24 | joining the pieces of `explode` with the same separator gives back the original path |
| PhpStrings.ExplodeWithoutSeparator | src/helper/FileSystemHelper.php:24-27 | a path without separator explodes to itself alone |
| PhpStrings.ImplodeSnoc | src/helper/MiscHelper.php:24 | imploding one more piece appends the glue and that piece |
| PhpStrings.ReplaceAllAbsent | src/helper/MiscHelper.php:24 | `str_replace` of a search string that does not occur leaves the subject unchanged |
| PhpStrings.ReplaceAllBySelf | src/helper/MiscHelper.php:24 | replacing a string by itself changes nothing |
| PhpStrings.ReplaceAllSameLength | src/helper/MiscHelper.php:24 | a replacement of the same length keeps the subject's length |
| PhpStrings.ReplaceAllPlainPrefix | src/helper/MiscHelper.php:24 | a prefix without the search's first character passes through `str_replace` untouched |
| PhpStrings.ReplaceAllPlainThenMatch | src/helper/MiscHelper.php:24 | an occurrence right after such a prefix is replaced and scanning resumes after it |
| MiscHelper.StrVar | src/helper/MiscHelper.php:23-25 | `strVar`: an array input joined with `"\n"`, then every pair applied in order; stated by the lemmas below |
| MiscHelper.StrVarSequential | src/helper/MiscHelper.php:23-25 | each further variable is one more left-to-right `str_replace` over the result of the earlier ones |
| MiscHelper.ReplaceEachSnoc | src/helper/MiscHelper.php:24 | array `str_replace` applies its pairs in order |
| MiscHelper.StrVarWithoutPlaceholders | src/helper/MiscHelper.php:23-25 | a subject containing none of the keys comes back unchanged |
| MiscHelper.ReplaceEachAbsent | src/helper/MiscHelper.php:24 | the same for the underlying pairwise replacement |
| MiscHelper.LinesJoinedByNewline | src/helper/MiscHelper.php:24 | each line after the first of an array input adds `"\n"` and that line to the text substituted |
| YamlHelper.Without | src/helper/YamlHelper.php:29-34 | the document after the `unset` loop: entries whose key is named are dropped, the others kept in order; stated by the Without lemmas |
| YamlHelper.PropReports | src/helper/YamlHelper.php:29-38 | the `removeProps` report: one line per property, found iff it is a key not removed earlier; stated by PropFoundAtThatPoint |
| YamlHelper.WithoutEntries | src/helper/YamlHelper.php:29-34 | an entry survives removal iff it was in the document and its key is not removed; the keys become the old keys minus the removed names |
| YamlHelper.WithoutKeepsOrder | src/helper/YamlHelper.php:31-32 | removal works entry by entry and keeps the order of the remaining ones |
| YamlHelper.WithoutTwice | src/helper/YamlHelper.php:29-34 | removing two name sets one after the other equals removing their union |
| YamlHelper.WithoutNothingNamed | src/helper/YamlHelper.php:31 | removing names that are not keys leaves the document unchanged |
| YamlHelper.WithoutDistinct | src/helper/YamlHelper.php:32 | removal keeps the keys distinct |
| YamlHelper.PropFoundAtThatPoint | src/helper/YamlHelper.php:29-38 | there is one report line per requested property, in order. A line says "found" iff the property is still a key after the earlier ones were removed, so a repeated name is never found twice |
| YamlHelper.RemovePropsIdempotent | src/helper/YamlHelper.php:27-44 | removing the same props again changes nothing, and then every one is reported as not found |
| YamlHelper.RemoveStart | src/helper/YamlHelper.php:28-29 | before the loop the document is unchanged and the report is empty |
| YamlHelper.RemoveStep | src/helper/YamlHelper.php:30-38 | one iteration: the key exists iff it existed and was not requested earlier; `unset` then advances the document to the next prefix and the report gains that property's line |
| YamlHelper.RemoveProps | src/helper/YamlHelper.php:27-44 | the returned document is the input without the requested names, and the report is one line per requested property |
| YamlHelper.Load | src/helper/YamlHelper.php:58-60 | `getYaml`: the decoded document of a file, none for a missing path, a directory or undecodable contents |
| YamlHelper.SaveEffect | src/helper/YamlHelper.php:75-80 | `saveYaml`: create the missing directories (an abort on a blocking file), then write the document at the target unless a directory stands there; stated by SavePersists |
| YamlHelper.SavePersists | src/helper/YamlHelper.php:75-80 | a save fails iff a file blocks a directory of the chain. A successful save on a target that is not a directory records the document and reads back as it. A failed save records nothing and leaves the target as it was. Nothing outside the directory chain and the target changes |
| YamlHelper.SaveYaml | src/helper/YamlHelper.php:75-80 | the file system after the save is the one `SaveEffect` describes, and the target is `basePath/filePath` |
| FileSystemHelper.MaterialiseDirs | src/helper/FileSystemHelper.php:21-38 | the effect of `createMissingDir`: directories up to the first blocking file, which fails the call; stated by CreateMissingDirOutcome and CreateMissingDirFrame |
| FileSystemHelper.FirstFile | src/helper/FileSystemHelper.php:30-37 | the index of the first directory of the chain that exists as a file: none before it is a file |
| FileSystemHelper.WithDirsLookup | src/helper/FileSystemHelper.php:107 | after creating a list of directories, each listed path is a directory and every other path is as before |
| FileSystemHelper.PathPrefixGrows | src/helper/FileSystemHelper.php:33-36 | each directory path built by the loop strictly extends the previous ones |
| FileSystemHelper.ChainOrder | src/helper/FileSystemHelper.php:24-37 | the chain starts at the base path and has one more entry than the file's directory parts; each entry appends `/part`, so entries strictly extend one another |
| FileSystemHelper.PathPrefixThenRest | src/helper/FileSystemHelper.php:33-35 | a chain entry followed by `/` and the rest of the parts is the full target path |
| FileSystemHelper.ChainReachesTarget | src/helper/FileSystemHelper.php:24-37 | the last directory of the chain followed by `/` and the file name is the save target |
| FileSystemHelper.FileNameNotInChain | src/helper/FileSystemHelper.php:27 | the file's own path is never created as a directory, because the file name was popped |
| FileSystemHelper.NoSeparatorOnlyBase | src/helper/FileSystemHelper.php:24-30 | a file path without separator only creates the base directory |
| FileSystemHelper.ChainDistinct | src/helper/FileSystemHelper.php:33-36 | the directories of the chain are pairwise distinct |
| FileSystemHelper.CreateMissingDirOutcome | src/helper/FileSystemHelper.php:21-38 | success iff no path of the chain is a file, in which case all of them are directories. On failure the error names the first file met: the directories before it were created and the rest is untouched |
| FileSystemHelper.CreateMissingDirFrame | src/helper/FileSystemHelper.php:21-38 | only paths of the chain change, and never the target file |
| FileSystemHelper.MaterialiseStep | src/helper/FileSystemHelper.php:34-36 | one loop iteration: a file stops the walk with that error, otherwise the directory is added and the prefix advances |
| FileSystemHelper.MaterialiseDone | src/helper/FileSystemHelper.php:34-37 | when no file blocks the chain, the walk ends with every directory created |
| FileSystemHelper.ChainNext | src/helper/FileSystemHelper.php:35 | the next directory is the previous one plus `/` and the next part |
| FileSystemHelper.FileSystem.MakeDir | src/helper/FileSystemHelper.php:97-108 | a missing path becomes a directory. An existing directory is accepted only when `ignoreExist` holds, and an existing file is refused. Nothing else changes |
| FileSystemHelper.FileSystem.CreateMissingDir | src/helper/FileSystemHelper.php:21-38 | the new nodes and the status are those of `MaterialiseDirs` over the old nodes; saved files are untouched |
| ConfigProcessing.RuleMatches | src/ConfigProcessor.php:114-127 | a rule matches iff it has no `match` list or one of its patterns matches the path |
| ConfigProcessing.RunAction | src/ConfigProcessor.php:185-213 | one turn of the action loop: `skip` stops, `remove-props` edits, `save` writes, any other name is only reported; a missing parameter or a failed save aborts; stated by ActionStep and SaveActionPersists |
| ConfigProcessing.RunActions | src/ConfigProcessor.php:182-220 | `processActions` on values: the actions in order until one stops or aborts; stated by the Actions lemmas |
| ConfigProcessing.RunRule | src/ConfigProcessor.php:100-155 | one turn of the rule loop; stated by RuleStep and RuleReportStep |
| ConfigProcessing.RunRules | src/ConfigProcessor.php:100-157 | the rule loop on the document loaded once; stated by RulesInOrder and SkipStopsLaterRules |
| ConfigProcessing.RunFile | src/ConfigProcessor.php:97-158 | `processRules`: load the file from the source directory, abort when it does not decode, then the rule loop |
| ConfigProcessing.RunBatch | src/ConfigProcessor.php:61-86 | `apply` over a file list: each file in turn until one aborts; stated by BatchInOrder and AbortStopsBatch |
| ConfigProcessing.ActionsStopForGood | src/ConfigProcessor.php:211-213 | once a `skip` or an abort happened, later actions change nothing |
| ConfigProcessing.ActionStep | src/ConfigProcessor.php:185-213 | one action stops the rules iff it is `skip`. It aborts iff `remove-props` lacks `props`, or `save` lacks `dest` or its save fails; an abort adds no report entry. Any other outcome adds exactly one entry naming the action, `Skipped` iff it is `skip`. Only `remove-props` with `props` edits the document, removing exactly those names, and only `save` touches the file system |
| ConfigProcessing.ReportsLongerActions | src/ConfigProcessor.php:185 | a report that follows a prefix of the actions follows the whole list |
| ConfigProcessing.ReportsNextAction | src/ConfigProcessor.php:185-210 | running one more action keeps the report in step with the actions |
| ConfigProcessing.ActionsInOrder | src/ConfigProcessor.php:182-220 | report entry k names action k, and it is `Skipped` exactly for a `skip` |
| ConfigProcessing.SkipEndsActions | src/ConfigProcessor.php:189-192 | a `skip` is always the last action executed and stops the rules; a stop always comes from a `skip` |
| ConfigProcessing.ActionsReportLength | src/ConfigProcessor.php:183-214 | there are never more entries than actions. Running through gives one entry per action, and an abort leaves actions unreported |
| ConfigProcessing.ActionsThreadDocument | src/ConfigProcessor.php:194-200 | the returned document is the input without every name removed by the `remove-props` actions executed, in any order |
| ConfigProcessing.ActionsWithoutSaveKeepDisk | src/ConfigProcessor.php:202-205 | actions other than `save` never touch the file system |
| ConfigProcessing.SaveActionPersists | src/ConfigProcessor.php:202-205 | `save` leaves the document as it is and aborts iff saving fails. Otherwise, with no directory at the target, it stores the current document at `dest/path` |
| ConfigProcessing.SkipStopsLaterRules | src/ConfigProcessor.php:153-155 | after a `skip` or an abort, later rules are not evaluated |
| ConfigProcessing.RuleStep | src/ConfigProcessor.php:100-155 | one rule. Both the `action` and the `actions` key present aborts, matching or not. A non-match appends a no-match entry. A match whose `actions` is missing or no array aborts. A match runs the actions on the current document and appends their report under the description; an abort inside them aborts the rule, keeping their file-system changes |
| ConfigProcessing.RuleReportStep | src/ConfigProcessor.php:100-155 | one rule adds at most one entry. It carries the rule's description, is a match iff the rule matches, and ends with a skip when the rules stop |
| ConfigProcessing.ReportsLongerRules | src/ConfigProcessor.php:100 | a report that follows a prefix of the rules follows the whole list |
| ConfigProcessing.ReportsNextRule | src/ConfigProcessor.php:100-155 | one more rule keeps the report in step and grows it by exactly one entry unless it aborts |
| ConfigProcessing.RulesInOrder | src/ConfigProcessor.php:97-158 | report entry k describes rule k and is a match iff rule k matches. Running through reports every rule; a stop is reported as a match ending with `skip`; an abort leaves rules unreported |
| ConfigProcessing.NonMatchingPatternIrrelevant | src/ConfigProcessor.php:114-127 | inserting a pattern that does not match the path into a `match` list does not change whether the rule matches |
| ConfigProcessing.RemoveThenSaveScenario | src/ConfigProcessor.php:97-220 | with a writable destination, a `remove-props` rule followed by a `save` rule runs through and saves the edited document. That document no longer has the removed keys and reads back as saved |
| ConfigProcessing.SkipThenSaveScenario | src/ConfigProcessor.php:97-220 | a matched `skip` rule stops before a later `save` rule and touches nothing. When it does not match and the destination is writable, the later rule runs through and saves the loaded document where it reads back |
| ConfigProcessing.AbortStopsBatch | src/ConfigProcessor.php:69-79 | an exception in one file ends the run: the remaining files are not processed |
| ConfigProcessing.BatchInOrder | src/ConfigProcessor.php:61-86 | there is one report per processed file, in listing order. A run only continues or aborts, and when it is not aborted every file is reported |
| ConfigProcessing.ConfigProcessor.MatchRule | src/ConfigProcessor.php:114-127 | the rule matches iff it has no `match` list or one of its patterns matches the path |
| ConfigProcessing.ConfigProcessor.ProcessActions | src/ConfigProcessor.php:182-220 | the signal (the source's stop flag, or an abort), the returned document, the report and the new file system are those of `RunActions` |
| ConfigProcessing.ConfigProcessor.ProcessRules | src/ConfigProcessor.php:97-158 | the signal, the rules report and the new file system are those of `RunFile` (load the file, then `RunRules`) |
| ConfigProcessing.ConfigProcessor.Apply | src/ConfigProcessor.php:61-86 | the signal, the per-file reports and the final file system are those of `RunBatch` over the listed files |
| ReportText.AccumulatedActionsReport | src/ConfigProcessor.php:185-210 | as written: one report string per executed action |
| ReportText.ActionsReportText | src/ConfigProcessor.php:185-210 | with the header reset for each action: one report string per executed action |
| ReportText.PropLine | src/helper/YamlHelper.php:35-38 | the `removeProps` line `Remove property <prop> : found` or `... : not fount` |
| ReportText.SaveLine | src/helper/YamlHelper.php:79 | the `saveYaml` line `save "<target>"` |
| ReportText.DetailLine | src/ConfigProcessor.php:189-208 | the template line each branch of the action switch adds after the header |
| ReportText.RuleText | src/ConfigProcessor.php:139-150 | a rule's entry: the no-match line, or the match line followed by the action entries joined with `"\n"`; stated by RuleTextNamesRule |
| ReportText.StrVarOnePair | src/helper/MiscHelper.php:23-25 | one placeholder is a single `str_replace` over the subject |
| ReportText.ActionTextSplit | src/ConfigProcessor.php:186-187 | an action's text is its header `    - Action = <name>` and a newline, followed by its detail line with `@action` replaced |
| ReportText.ActionEntriesNameTheirAction | src/ConfigProcessor.php:185-210 | each entry starts with the header naming its own action. A `skip` entry is the header and the break line; an unknown action's entry names it |
| ReportText.SkipText | src/ConfigProcessor.php:189-190 | a `skip` entry is its header followed by the break line |
| ReportText.UnknownText | src/ConfigProcessor.php:207-208 | an unknown action's entry is its header followed by `[Unkown action "<name>"]` |
| ReportText.ReplaceInUnknownTemplates | src/ConfigProcessor.php:186-210 | `@action` in one or two accumulated unknown-action templates is replaced at exactly its two or four positions |
| ReportText.AccumulatedReportRepeatsEarlierAction | src/ConfigProcessor.php:186 | with two unknown actions, the as-written second entry is the second action's text twice. It differs from the corrected entry, and the first action's name is lost from it |
| ReportText.RuleTextNamesRule | src/ConfigProcessor.php:139-150 | a non-matching rule's entry is `  X No match rule "<description>"`; a matched rule's entry starts with `  ! Match rule "<description>"` and a newline |
| ReportText.NoMatchText | src/ConfigProcessor.php:146-150 | the no-match line with its description substituted |
| ReportText.MatchText | src/ConfigProcessor.php:140-150 | the match line with its description substituted opens the rule entry |

## Left out

- Loading the settings file in the constructor (`file_exists`, YAML decoding of `source-dir` and `rules`): the constructor takes the decoded values.
- `listDirFiles`: the file list is an input of `Apply`. When the source directory has no files the source returns `NULL` and `count(NULL)` fails; that path is not modelled.
- `logReport`, the Drush logger, and the text `apply` builds from the rule reports: `Apply` returns the structured per-file reports instead.
- The Drush command files and their options.
- YAML text: `Yaml::decode`/`Yaml::encode` are abstract, so a saved document reads back as itself. Comments, formatting, nested removal and non-string keys are not modelled.
- Regular expressions: `preg_match` is the `Matcher` parameter; an invalid pattern's warning is not modelled.
- Paths: `DIRECTORY_SEPARATOR` is taken as `/`. There is no normalisation of `a//b`, `..` or trailing separators, and `mkdir` does not need its parent to exist.
- `file_put_contents` onto an existing directory fails silently in the source. The model creates the missing directories, leaves the target as it was and still reports the save.
- The unqualified `LogicException` in `makeDir` would resolve to a missing class in its namespace; the model treats it as the abort it causes either way.
- A YAML list under `actions` is an array whose keys are indices, so the source runs actions named `0`, `1`, …; the model takes the decoded action names as given.
- Non-list `match` values, and `actions` keys repeated in the settings (PHP arrays keep one value per key; the model takes any sequence of actions).
- The wording of the `remove-props` and `save` entries is defined (`DetailLine`) but only the `skip`, unknown-action and rule lines have lemmas about their full text.
- ReportText.RuleText: a matched rule's entry is built from the corrected per-action entries (ReportText.ActionsReportText), not from the accumulated ones that line 141 of `src/ConfigProcessor.php` joins as written (see Findings). ReportText.MatchText holds for any action text, so the opening line stated by ReportText.RuleTextNamesRule is the same either way.
- ReportText.AccumulatedActionsReport: its own contract states only the number of entries; its content is stated by ReportText.AccumulatedReportRepeatsEarlierAction for two unknown actions.
- ReportText.ActionsReportText: its own contract states only the number of entries; its content is stated by ReportText.ActionEntriesNameTheirAction.

## Findings

| source | as written | input that shows it | evidently intended | confidence | as-written member | corrected member |
|---|---|---|---|---|---|---|
| src/ConfigProcessor.php:186 | `$actionReport` is never emptied between actions. Entry k is built from the template lines of actions 0..k, with every `@action` replaced by action k's name | a matched rule whose actions are two unknown names `a` then `b`: the second entry is the `b` header and line twice, and `a` is not in it | each entry holds only its own action's header and detail line | high; not executed | ReportText.AccumulatedReportRepeatsEarlierAction | ReportText.ActionEntriesNameTheirAction |
