# VersionHandler, modelled in Dafny

VersionHandler is a Composer script handler. It keeps a version number in a
YAML parameters file up to date. The `juliendufresne-version` entry of the
package's `extra` setting names one configuration or a list of them. Each
configuration gives:

- a file;
- a dotted parameter key such as `app.version`;
- an ordered list of strategies (`git`, `incremental`).

For each configuration, the processor does the following:

1. It reads the current version at the key.
2. It asks the strategies in order and keeps the first non-empty answer.
3. It rewrites the file only when that answer differs from the current version.

This project models that core and proves what it promises:

- `outcomes.dfy`: `Option`, `Result` and the exceptions of the tool, as one `Error` type.
- `php_values.dfy`: the loosely typed values of the Composer setting. It covers PHP arrays with integer or string keys, `empty()`, `$array[$key]` and `foreach` order.
- `configuration.dfy`: `Configuration::__construct` and `Configuration::fromArray`. This covers the guards in their order, the default strategies, and the typed constructor under `strict_types`.
- `dotted_path.dfy`: `Processor::findVersion` and `Processor::updateVersion` on a YAML document. Beside them is a reference semantics: the route of keys that a dotted key addresses. Read, write, round trip and frame are all proved against that route.
- `incremental_strategy.dfy`: `IncrementalVersionStrategy::process`. The pattern `#^(.*\D?)(\d+)$#U` is modelled as PCRE reads it, together with the `(int)` cast and the `%d` format.
- `processor.dfy`: `Processor::$strategyMap` and `Processor::processFile`. The strategy loop is a `method` with loop invariants, proved equal to a specification function. Lemmas about that function cover first-match selection, exhaustion, the no-change case, the rewrite and idempotence.
- `script_handler.dfy`: `ScriptHandler::updateVersion`. It normalises the setting into a list, then runs a loop over the configurations, proved against `RunConfigs`. Lemmas cover composition, the set of files, the files touched, and the first failure.

The environment is passed in as parameters:

- The files on disk are a map from path to parsed content. `Yaml(doc)` is a parsed document and `Malformed` is a YAML parse failure.
- `is_file` is membership in that map.
- The git strategy is an oracle: `gitTag` is what `git describe --exact-match HEAD` answers, and "" means it declines.
- A rewrite is returned as an effect, and `Apply` performs it on the map.

## Model

| member | source | states |
|---|---|---|
| Configuration.Construct | Configuration.php:31-36 | Succeeds exactly when file and key are strings and strategies an array, storing them unchanged. Otherwise fails with the strict-types error of the first bad parameter. |
| Configuration.FromArray | Configuration.php:44-69 | Guards in order: a PHP-empty `file` (absent, "", "0") fails first, then a non-string file, then a file that does not exist, then a PHP-empty `parameter-key`. It succeeds exactly when all pass, `parameter-key` is a string and `strategies` is empty or an array. The result holds the given file and key, and the default `[git, incremental]` when strategies are empty, else the given names in order. A validated file exists and is not "" or "0"; the key is not empty and the list is not empty. |
| Configuration.FromArrayMissingFile | Configuration.php:46-50 | A file of "0" and an absent file both fail as a missing file. |
| Configuration.FromArrayMissingKey | Configuration.php:58-62 | An existing file without a parameter key fails as a missing key. |
| Configuration.FromArrayDefaultStrategies | Configuration.php:64-68 | For any existing file and non-empty key, no strategies gives the configuration with `[git, incremental]`. |
| Configuration.FromArrayKeepsUnknownNames | Configuration.php:64-68 | An unregistered name is kept as given: names are not checked here. |
| DottedPath.Explode | Processor.php:123-127 | Finds a split exactly when the key has a dot; then key == head + "." + rest with no dot in head (the limit-2 explode). |
| DottedPath.ExplodeAtFirstDot | Processor.php:127 | Any decomposition head "." rest with a dot-free head is the one explode yields: the split is at the first dot. |
| DottedPath.Route | Processor.php:117-130 | The keys the walk visits join back to the key with dots. Every key but the last is dot-free, the level before the last is a mapping, and there the last key exists or has no dot. |
| DottedPath.FindVersionFollowsRoute | Processor.php:117-130 | findVersion fails with the array type error exactly when there is no route. Otherwise it returns the leaf at the end of the route: a string as is, absent as "", anything else as the string type error. |
| DottedPath.FindVersionErrors | Processor.php:117-130 | Reading fails only with one of the two strict-types errors. |
| DottedPath.UpdateVersionFollowsRoute | Processor.php:139-158 | updateVersion succeeds exactly when the route exists, and fails only with the array type error. On success it stores the new version at the end of the route and keeps the route. |
| DottedPath.DescendStep | Processor.php:153-157 | For a key absent verbatim and holding a dot, the route continues in the child named by the head. The update replaces that child by the child's own update. |
| DottedPath.UpdateVersionFrame | Processor.php:141-157 | Every node whose path leaves the route is unchanged by the update. |
| DottedPath.UpdateVersionKeepsLevels | Processor.php:141-157 | Every level along the route stays a mapping, keeps its keys and gains at most the route's next key. |
| DottedPath.RoundTrip | Processor.php:117-158 | After a successful update, reading the same key yields the version written. |
| DottedPath.FindThenUpdate | Processor.php:117-158 | Whenever the version can be read, the update at the same key succeeds. |
| DottedPath.AccessorExamples | Processor.php:119-125 | A verbatim dotted key shadows the nested reading. An absent undotted key reads as "". A non-string leaf is the string type error. |
| DottedPath.NestedKeyExamples | Processor.php:127-129 | "app.version" reads the nested leaf. A scalar at "app" is the array type error. |
| DottedPath.NestedUpdateExample | Processor.php:153-157 | Writing "app.version" replaces only the nested leaf. |
| IncrementalStrategy.LeadGroupIff | Strategy/IncrementalVersionStrategy.php:38 | The first group `.*\D?` matches exactly the strings whose only line feed, if any, is their last character. |
| IncrementalStrategy.Decimal | Strategy/IncrementalVersionStrategy.php:46 | `%d` of n is a non-empty digit string whose value is n, with no leading zero. |
| IncrementalStrategy.TrailingDigits | Strategy/IncrementalVersionStrategy.php:38 | Measures the maximal run of digits ending at a position: all digits, preceded by a non-digit or the start. |
| IncrementalStrategy.ParseVersion | Strategy/IncrementalVersionStrategy.php:38 | Any match found is a match of the whole pattern, and its first group does not end in a digit. |
| IncrementalStrategy.ParseVersionAt | Strategy/IncrementalVersionStrategy.php:38 | A match whose first group does not end in a digit is exactly the match preg_match reports. |
| IncrementalStrategy.ParseVersionShortestPrefix | Strategy/IncrementalVersionStrategy.php:38 | Whenever the pattern matches somewhere, preg_match reports the match with the shortest first group and the same end. |
| IncrementalStrategy.MatchesAtSplit | Strategy/IncrementalVersionStrategy.php:38 | A version written as prefix + digits + tail (tail "" or a line feed) matches at the positions the split gives. |
| IncrementalStrategy.IncrementAt | Strategy/IncrementalVersionStrategy.php:38-46 | For the reported match, the result is the first group followed by the number plus one. |
| IncrementalStrategy.ProposalOfSplit | Strategy/IncrementalVersionStrategy.php:44-46 | The result for prefix + digits + tail is prefix + `%d`(value(digits) + 1). |
| IncrementalStrategy.IncrementOf | Strategy/IncrementalVersionStrategy.php:38-46 | process(prefix + digits + tail) == prefix + decimal(value(digits) + 1) whenever the prefix does not end in a digit. |
| IncrementalStrategy.DeclinesOnlyWithoutMatch | Strategy/IncrementalVersionStrategy.php:38-42 | Any match of the pattern makes process answer something non-empty. |
| IncrementalStrategy.DeclinesIff | Strategy/IncrementalVersionStrategy.php:34-42 | process declines exactly the non-empty versions the pattern matches nowhere. |
| IncrementalStrategy.DeclinesWithoutTrailingDigit | Strategy/IncrementalVersionStrategy.php:38-42 | A non-empty version whose last character, before a final line feed, is not a digit is declined. |
| IncrementalStrategy.LeadingZerosDropped | Strategy/IncrementalVersionStrategy.php:44-46 | Zeros leading the digit run do not change the result: the increment is numeric. |
| IncrementalStrategy.FinalLineFeedDropped | Strategy/IncrementalVersionStrategy.php:38-46 | A final line feed is skipped by `$` and not kept: the result equals that without it. |
| IncrementalStrategy.ProposalMatches | Strategy/IncrementalVersionStrategy.php:38-46 | preg_match on the result reports the old first group and the whole rest, whose value is the old number plus one. |
| IncrementalStrategy.ProposalDiffers | Strategy/IncrementalVersionStrategy.php:38-46 | The result differs from the version it was made from. |
| IncrementalStrategy.EmptyVersionGivesOne | Strategy/IncrementalVersionStrategy.php:34-36 | process("") == "1", and "1" is matched as a whole with value 1. |
| IncrementalStrategy.ProposalShape | Strategy/IncrementalVersionStrategy.php:34-46 | A non-empty result differs from the input and ends in a digit, and process does not decline it. |
| IncrementalStrategy.IncrementOne | Strategy/IncrementalVersionStrategy.php:38-46 | Any prefix not ending in a digit whose only line feed, if any, is its last character, followed by 1 (and an optional final line feed), becomes prefix + "2". |
| IncrementalStrategy.IncrementNine | Strategy/IncrementalVersionStrategy.php:38-46 | The same with 9 becomes prefix + "10". |
| IncrementalStrategy.ExampleSimple | Strategy/IncrementalVersionStrategy.php:38-46 | "v1" becomes "v2". |
| IncrementalStrategy.ExampleCarry | Strategy/IncrementalVersionStrategy.php:38-46 | "v9" becomes "v10". |
| IncrementalStrategy.ExamplePadded | Strategy/IncrementalVersionStrategy.php:44-46 | "v09" becomes "v10". |
| IncrementalStrategy.ExampleDotted | Strategy/IncrementalVersionStrategy.php:38-46 | "v0.9" becomes "v0.10": only the last number changes. |
| IncrementalStrategy.ExampleReleaseCarry | Strategy/IncrementalVersionStrategy.php:38-46 | "release-9" becomes "release-10". |
| IncrementalStrategy.ExampleRelease | Strategy/IncrementalVersionStrategy.php:44-46 | "release-009" becomes "release-10". |
| IncrementalStrategy.ExampleFinalLineFeed | Strategy/IncrementalVersionStrategy.php:38-46 | "v1" followed by a line feed becomes "v2". |
| IncrementalStrategy.ExampleDeclined | Strategy/IncrementalVersionStrategy.php:38-42 | "no-digits" is declined. |
| IncrementalStrategy.ExampleLineFeedBeforeDigits | Strategy/IncrementalVersionStrategy.php:38-46 | "a", line feed, "1" becomes "a", line feed, "2": `\D?` takes the line feed in front of the number. |
| IncrementalStrategy.ExampleInnerLineFeed | Strategy/IncrementalVersionStrategy.php:38-42 | "a", line feed, "b1" is declined: `.` does not cross the line feed. |
| Processor.Instantiate | Processor.php:22-25 | A name instantiates a strategy exactly when it is "git" or "incremental", and "git" gives the git strategy. |
| Processor.FirstProposal | Processor.php:43-53 | A picked answer is non-empty and its name is registered. The only failure is an unregistered name. |
| Processor.ProcessFile | Processor.php:37-75 | The loop computes exactly `ProcessOutcome`: the file error, read error, unknown-strategy error, exhaustion, no-change or rewrite that the function defines. |
| Processor.FirstProposalAt | Processor.php:43-53 | When every name before i is registered and declines, the name at i decides: its failure to instantiate, or its answer. Past the end, nothing was picked. |
| Processor.PickedIsFirst | Processor.php:43-53 | A picked answer comes from the first registered name that does not decline, and all names before it declined. |
| Processor.ProcessSucceeds | Processor.php:37-75 | processFile succeeds exactly when the file parses, the version can be read and some strategy answers. After that, the write cannot fail. |
| Processor.ProcessExhausted | Processor.php:55-57 | The strategy exception is raised exactly when the version was read and every strategy declined, the empty list included. |
| Processor.ProcessRewrite | Processor.php:59-74 | A rewrite stores the first answer at the key. That answer differs from the version read and is non-empty, and reading the key back gives it. |
| Processor.ProcessNoChange | Processor.php:59-63 | No write happens only when the first answer equals the version read. |
| Processor.GitFirstDecides | Processor.php:43-74 | With git first and HEAD tagged, a different stored version is replaced by the tag and an equal one is left alone. |
| Processor.GitRunIsIdempotent | Processor.php:37-75 | With git first and HEAD tagged, a second run on the files the first left writes nothing. |
| Processor.IncrementalAlwaysRewrites | Processor.php:59-74 | A run won by the incremental strategy always rewrites the file. |
| Processor.ExampleSameTag | Processor.php:59-63 | A tag equal to the stored version leaves the file unchanged. |
| Processor.ExampleUnknownStrategy | Processor.php:47 | An unregistered name reached by the loop is an error. |
| Processor.ExampleUnknownAfterWinner | Processor.php:43-53 | An unregistered name after the winner is never instantiated. |
| ScriptHandler.Normalise | ScriptHandler.php:22-30 | A non-array setting is rejected. An array keyed 0..n-1 is the list of its values; any other array, the empty one included, is a list of one. The result is never empty. |
| ScriptHandler.Step | ScriptHandler.php:35-41 | A non-array entry is rejected. A successful step keeps the set of files and changes no file but the one the entry names, which existed. |
| ScriptHandler.UpdateVersion | ScriptHandler.php:13-43 | The loop computes exactly `Handle`: configurations in order, stopping at the first exception with the files written so far. |
| ScriptHandler.RunConcat | ScriptHandler.php:34-42 | Running a + b is running a, then b from the files a left, unless a failed. |
| ScriptHandler.RunKeepsFileSet | ScriptHandler.php:34-42 | A run never creates or deletes a file. |
| ScriptHandler.RunTouchesOnlyConfiguredFiles | ScriptHandler.php:34-42 | A file that no configuration names keeps its content. |
| ScriptHandler.RunFailsAtFirstFailingStep | ScriptHandler.php:34-42 | A failed run failed at some entry k. The entries before k all succeeded and their writes stay. The error is entry k's own. |
| ScriptHandler.ObjectIsListOfOne | ScriptHandler.php:28-30 | A configuration object is handled exactly like a list holding only it. |
| ScriptHandler.SettingErrors | ScriptHandler.php:22-39 | A missing or scalar setting is rejected. An empty array is one configuration without a file. A scalar list entry is rejected. |
| ScriptHandler.ListOfTwo | ScriptHandler.php:28-30 | Two values under keys 0 and 1 normalise to those two values, in order. |
| ScriptHandler.ExampleStepRewrites | ScriptHandler.php:41 | A configuration with defaults and HEAD tagged "v2" rewrites "1" to "v2" in its file only. |
| ScriptHandler.ExampleStepWithoutKey | ScriptHandler.php:41 | An entry without a parameter key fails before anything is read. |
| ScriptHandler.ExampleStopsAfterWrite | ScriptHandler.php:34-42 | With two configurations where the second lacks its key, the run ends with that error and the first file already rewritten. |

Behaviour of the code that a description of the tool might state differently (the model follows the code):

- "release-009" becomes "release-10", not "release-010". The number is read with `(int)` and printed with `%d`, so its padding is lost (`ExampleRelease`).
- The pattern accepts a version ending in a line feed and drops the line feed ("v1" plus a line feed becomes "v2"). It declines a version with a line feed anywhere before the digit run except directly in front of it, even when the version ends in a digit ("a", line feed, "b1" is declined, while "a", line feed, "1" becomes "a", line feed, "2"). This follows from PCRE's defaults for `$` and `.`.
- A second run changes nothing when git is listed first and HEAD carries a tag (`GitRunIsIdempotent`). In general, no write happens only when the first strategy that answers returns the stored version unchanged (`ProcessNoChange`). A run won by the incremental strategy always proposes a new number (`IncrementalAlwaysRewrites`), so repeated runs keep counting up.

## Left out

- YAML parsing and dumping (Symfony `Parser`, `Yaml::dump`, `file_get_contents`, `file_put_contents`) are not modelled. A file is its parsed document, or `Malformed` for a parse exception. Key order, formatting and non-string scalar types are not kept: any other scalar is `Other`.
- PHP's conversion of canonical numeric string keys to integer keys: document keys are strings, so a YAML sequence is the mapping "0", "1", ... to its items.
- The git strategy (`Strategy/GitVersionStrategy.php`) is not part of this model. Its answer is the `gitTag` parameter, the same for every configuration of one run, and the trailing newline of git's output is not modelled.
- All `IOInterface` logging, including the messages of processFile and the warning of the incremental strategy.
- Composer `Event` and `Package` access: the model starts from the package's `extra` entries.
- IncrementalStrategy.Process: does not model `(int)` saturation at `PHP_INT_MAX` for very long digit runs; the number is an unbounded natural.
- PHP notices for undefined indexes are not modelled, only their value (null).
- Processor.Instantiate: an unregistered name of any type is one `UnknownStrategy` error. PHP reaches it through an undefined-index notice followed by `new null`, and an array used as a name would instead be an illegal-offset error; the model does not tell these apart.
- A file that `is_file` accepts but that disappears before it is read is not modelled: the same map answers both questions.
