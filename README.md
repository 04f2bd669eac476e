# apm-agent-versions: a verified model of the version-snapshot core

The program is a Cloud Function that refreshes a JSON snapshot of the latest
released version of every Elastic APM agent and of the OpenTelemetry projects
Elastic tracks. When triggered, it:

1. builds one GraphQL query with one aliased `repository` field per key of the
   table `agentsRepoName`. Field `i` has alias `repo<i>` and asks for the
   repository's `name` and the tag name of its latest release only;
2. sends the query to GitHub;
3. extracts a version from each returned tag with the pattern the table holds
   for that repository. The response's repository name is turned back into a
   display name through `mappingNames`;
4. merges the per-repository records into one object and uploads it.

This project models steps 1 and 3–4 as pure functions over the two tables,
with the network and storage left out.

Modules:

- `Wrappers`: `Option` (JavaScript `undefined`) and `Result` (`TypeError` for a
  thrown exception).
- `JsObject`: plain JavaScript objects as key order plus a map. It covers object
  literals with duplicate keys (`FromPairs`, where the later value wins), property
  writes (`Put`) and spread (`Assign`).
- `Decimal`: the decimal rendering of the alias index.
- `TailPattern`: the regular-expression form `L(.*)` that the table uses. It
  covers parsing and rendering the pattern text, and `String.prototype.match`
  group 1: the leftmost match, then everything up to the first line terminator.
- `Registry`: the two tables as they appear in the source, and
  `getAgentRepositoryDetails`.
- `Query`: `generateQuery` and the query text of `helloPubSub`.
- `Versions`: `extractLastVersion` and the `reduce` of `fetchAgentsInfo`.
- `Pipeline`: the same operations instantiated with the program's own tables,
  and what those tables imply.

## Model

| member | source | states |
|---|---|---|
| JsObject.FromPairs | src/index.js:15-38 | an object literal evaluates to a valid object: each key listed once, and exactly the listed keys have values |
| JsObject.FirstIndex | src/index.js:15-38 | the position of the first pair naming a key: that pair names it and no earlier pair does; -1 when none does |
| JsObject.FromPairsKeys | src/index.js:15-38 | a literal has a property exactly for the keys its pairs name |
| JsObject.FromPairsKeyOrder | src/index.js:234 | the keys of a literal are listed in the order of their first occurrence among the pairs, which is the order `Object.keys` reports for keys that are not array indices (all keys of both tables) |
| JsObject.FromPairsDistinctKeys | src/index.js:40-146 | a literal without repeated keys lists its keys exactly in the order written |
| JsObject.ValuesNameKeys | src/index.js:163-164 | when each value of one literal is a key written in another, every property value of the first is a property of the second |
| JsObject.FromPairsLastWins | src/index.js:15-38 | a key written more than once in a literal holds the value of its last occurrence |
| JsObject.LastIndex | src/index.js:15-38 | the position of the last pair naming a key: that pair names it and no later pair does; -1 when none does |
| JsObject.FromPairsKeyNamed | src/index.js:40-146 | a literal has a property only for a key that some pair names |
| JsObject.FromPairsSource | src/index.js:40-146 | every property of a literal holds the value of the last pair naming its key |
| JsObject.Put | src/index.js:195-200 | a property write keeps the object valid, sets that one key, keeps all other keys, and appends a new key at the end |
| JsObject.AppendNew | src/index.js:196-199 | the key order after a spread: the old keys first, then the new ones, with every key listed once |
| JsObject.Assign | src/index.js:196-199 | `{...a, ...b}` is a valid object with the properties of `a` overridden by those of `b`, and it keeps `a`'s key order as its prefix |
| JsObject.SpreadSingleton | src/index.js:196-199 | spreading a one-key object over an accumulator is the same as writing that property |
| Decimal.NatToString | src/index.js:209 | `${index}` of a natural number is a non-empty run of decimal digits without a leading zero |
| Decimal.ParseNatToString | src/index.js:209 | the decimal text of the index reads back as the index |
| Decimal.NatToStringInjective | src/index.js:209 | distinct indices have distinct decimal texts |
| Registry.AgentsRepoNameKeysDistinct | src/index.js:40-146 | no key of `agentsRepoName` is written twice |
| Registry.AgentsRepoName | src/index.js:40-146 | the evaluated table is a valid object whose keys are the literal's keys in the order written, so field `repo<i>` of the query belongs to the `i`-th entry |
| Registry.MappingNamesNotIndices | src/index.js:15-38 | no repository name or display name of `mappingNames` is a run of digits, so none is an array index and insertion order is `Object.keys` order |
| Registry.AgentsRepoNameNotIndices | src/index.js:40-146 | no key of `agentsRepoName` is a run of digits, so its keys keep insertion order |
| Registry.DisplayNamesAreEntries | src/index.js:15-146 | each display name written in `mappingNames` is the key of a stated entry of `agentsRepoName` |
| Registry.DisplayNamesFront | src/index.js:15-146 | the first eleven display names of `mappingNames` are keys of the stated entries of `agentsRepoName` |
| Registry.DisplayNamesBack | src/index.js:15-146 | the remaining eleven display names of `mappingNames` are keys of the stated entries of `agentsRepoName` |
| Registry.MappingNames | src/index.js:15-38 | the evaluated `mappingNames` is a valid object, and every display name it yields is a key of `agentsRepoName` |
| Registry.GetAgentRepositoryDetails | src/index.js:148-160 | throws exactly for a name the table lacks; owner is `open-telemetry` iff the entry is `isotel`, `elastic` otherwise; repository is `sdk_repo` for OpenTelemetry and `repo` otherwise; `undefined` exactly when that property is missing or empty |
| Query.AliasInjective | src/index.js:209 | fields at different positions get different aliases |
| Query.Interpolate | src/index.js:209 | `${v}` writes a string as itself and `undefined` as the text `undefined` |
| Query.GenerateSelection | src/index.js:205-218 | alias is `repo<index>`; owner and name are the repository details, or the text `undefined` when there are none; throws exactly when the name is not in the table |
| Query.RenderSelection | src/index.js:208-217 | the field text is the alias followed by `repository(owner: "<owner>", name: "<name>"`, then the closing `") `, then nothing but the selection `name releases(first: 1) { nodes { tagName } }` |
| Query.RenderSelectionNamesRepository | src/index.js:209 | after the alias the field reads `repository(owner: "<owner>", name: "<name>")` with the selection's owner and name, at stated positions |
| Query.Selections | src/index.js:234-236 | one field per key, in order, the i-th generated with index i; throws iff some key throws |
| Query.SelectionAliasesDistinct | src/index.js:234-236 | no two fields of the query share an alias |
| Query.JoinSnoc | src/index.js:240 | joining one more part appends the separator and that part |
| Query.JoinKeepsOrder | src/index.js:240 | joining keeps the parts in order: the join of the first m parts is a prefix of the whole join and ends with part m-1 |
| Query.QueryText | src/index.js:234-242 | building the query never throws for a well-formed table, and an empty table gives only the opening and the closing of the query |
| Query.QueryListsEveryKey | src/index.js:234-242 | the query holds, in key order, the field of every key of the table with alias `repo<i>` |
| Query.QueryEndsAfterLastKey | src/index.js:234-242 | nothing follows the field of the last key but the closing of the query, so with `QueryListsEveryKey` the query holds exactly one field per key and nothing else |
| TailPattern.Render | src/index.js:169 | the pattern text is the literal prefix followed by `(.*)` |
| TailPattern.ParseSound | src/index.js:169 | a parsed pattern is well formed and renders back to the text it came from |
| TailPattern.ParseRender | src/index.js:169 | every well-formed pattern parses back from its text |
| TailPattern.LineEnd | src/index.js:171 | the first line terminator at or after a position, or the end of the string |
| TailPattern.FindFrom | src/index.js:171 | the leftmost position at or after `i` where the prefix matches, or none when there is no such position |
| TailPattern.LineHasNoTerminator | src/index.js:171 | the rest of a line, as `.*` takes it, holds no line terminator |
| TailPattern.Capture | src/index.js:171 | group 1 is undefined exactly when the prefix matches nowhere; otherwise it is the text from the leftmost match's end up to the next line terminator, and holds no terminator |
| TailPattern.EmptyPrefixTakesFirstLine | src/index.js:171 | `(.*)` always matches and captures the first line of the tag |
| TailPattern.LeadingLiteralYieldsRest | src/index.js:171 | a tag that starts with the literal yields the rest of its first line |
| TailPattern.LineEndShift | src/index.js:171 | the line end of a suffix is shifted by the length of the part in front of it |
| TailPattern.CaptureAtStart | src/index.js:171 | a tag that matches at position 0 captures from the end of the prefix |
| TailPattern.LineEndOfSingleLine | src/index.js:171 | in a string without line terminators, the line ends at the end of the string |
| TailPattern.NoOccurrenceYieldsUndefined | src/index.js:171 | a tag with no match leaves group 1 undefined |
| Versions.AgentKey | src/index.js:163-174 | the property key is `mappingNames[name]` for a known repository name, and the text `undefined` otherwise |
| Versions.Compile | src/index.js:166-169 | `new RegExp` of a pattern text is the well-formed pattern that renders as that text (a `.` is the wildcard), and of `undefined` it is the pattern without a group |
| Versions.CompileDetermined | src/index.js:166-169 | a well-formed pattern that renders as the text is exactly the compiled one, so a `.` in the text cannot be read as a literal |
| Versions.Group1 | src/index.js:171-177 | `value.match(regex)?.[1]` is `undefined` exactly when the pattern has no group or matches nowhere; otherwise it is the leftmost-match capture `Capture` defines, which holds no line terminator |
| Versions.ExtractLastVersion | src/index.js:162-183 | throws exactly for a `null` fragment or one without releases; the key is `mappingNames[name]`; the record is OpenTelemetry-shaped iff the entry is `isotel`, with `sdk == auto`; the version is group 1 of the entry's pattern on the first tag, and `undefined` without a pattern |
| Versions.FetchVersions | src/index.js:195-200 | the fold throws iff some fragment throws, and otherwise yields a valid object |
| Versions.FetchVersionsStep | src/index.js:195-200 | each step sets the new fragment's key and keeps every other key |
| Versions.FetchVersionsKeys | src/index.js:195-200 | the snapshot has a key exactly when some fragment reports under it |
| Versions.LastReporter | src/index.js:195-200 | the position of the last fragment that reports a key, or -1 when none does |
| Versions.FetchVersionsLastWins | src/index.js:195-200 | each key holds the record extracted from the last fragment reporting it |
| Versions.SingleFragment | src/index.js:195-200 | a one-fragment response yields the object with that fragment's single record |
| Pipeline.EntryPatternsListed | src/index.js:40-146 | every pattern of the table is one of five texts |
| Pipeline.ParsesVersionPrefix | src/index.js:43 | `v(.*)` is the literal `v` followed by the group |
| Pipeline.ParsesWholeTag | src/index.js:123 | `(.*)` has an empty prefix |
| Pipeline.ParsesRumPattern | src/index.js:71 | `@elastic/apm-rum@(.*)` lies in the supported form |
| Pipeline.ParsesRubyPattern | src/index.js:112 | `opentelemetry-propagator-jaeger/v(.*)` lies in the supported form |
| Pipeline.ParsesDotnetPattern | src/index.js:96 | `Instrumentation.AspNetCore-(.*)` lies in the supported form, and its `.` matches any character but a line terminator |
| Pipeline.TablePatternsSupported | src/index.js:40-146 | every pattern of `agentsRepoName` lies in the `L(.*)` form |
| Pipeline.EntriesNameRepositories | src/index.js:40-146 | every entry has a non-empty repository, and none is `apm-agent-js` |
| Pipeline.EveryKeyNamesARepository | src/index.js:148-160 | for every key of the table the details exist, so no query field asks for `undefined` |
| Pipeline.RumEntries | src/index.js:69-76 | `js-base` and `rum-js` have the same entry, and neither key appears again later |
| Pipeline.RumRepositoryQueriedTwice | src/index.js:69-76 | `js-base` and `rum-js` both query `elastic/apm-agent-rum-js` |
| Pipeline.FieldOfKey | src/index.js:205-236 | for a key whose details are found, the selection built for it at index `i` has alias `repo<i>` and that owner and repository, and the whole query is built without throwing |
| Pipeline.RumKeys | src/index.js:69-76 | keys 7 and 8 of the evaluated `agentsRepoName` are `js-base` and `rum-js` |
| Pipeline.RumFieldsShareRepository | src/index.js:69-76 | the program's own query is built without throwing, and its fields `repo7` and `repo8` both ask for `elastic/apm-agent-rum-js` |
| Pipeline.DisplayNameIndices | src/index.js:15-38 | `js-base` occurs as a value only in pair 7 and `opentelemetry/nodejs` only in pair 13; pair 13 is `opentelemetry-js: opentelemetry/nodejs` and pair 19 is `opentelemetry-js: opentelemetry/webjs` |
| Pipeline.DuplicateKeyTakesLastValue | src/index.js:29-35 | the duplicate key `opentelemetry-js` maps to `opentelemetry/webjs` |
| Pipeline.NodejsDisplayNameUnreachable | src/index.js:163 | no repository name maps to `opentelemetry/nodejs` |
| Pipeline.RumRepositoryReportsRumJs | src/index.js:24 | `apm-agent-rum-js` maps to `rum-js` |
| Pipeline.AgentJsEntry | src/index.js:15-38 | the pair `apm-agent-js: js-base` is written once, and its key does not appear again later |
| Pipeline.AgentJsReportsJsBase | src/index.js:23 | `apm-agent-js` maps to `js-base` |
| Pipeline.JsBaseOnlyFromAgentJs | src/index.js:23 | a repository name maps to `js-base` iff it is `apm-agent-js` |
| Pipeline.Snapshot | src/index.js:195-200 | the fold over the program's own tables throws iff some fragment throws, and otherwise yields a valid object |
| Pipeline.NodejsNeverReported | src/index.js:195-200 | no snapshot has the key `opentelemetry/nodejs` |
| Pipeline.JsBaseNeverReported | src/index.js:195-200 | when the response only holds queried repositories, no snapshot has the key `js-base` |
| Pipeline.VersionTagCaptured | src/index.js:171 | `v(.*)` on `v2.4.0` captures `2.4.0` |
| Pipeline.UnprefixedTagUndefined | src/index.js:171 | `v(.*)` on `nightly-build` captures nothing |
| Pipeline.GoEntries | src/index.js:20-118 | the Go agent and OpenTelemetry Go entries of both tables, and no later duplicates of their keys |
| Pipeline.GoKeys | src/index.js:20-31 | `apm-agent-go` maps to `go` and `opentelemetry-go` maps to `opentelemetry/go` |
| Pipeline.GoPatterns | src/index.js:57-118 | `go` is an agent and `opentelemetry/go` an OpenTelemetry project, both with pattern `v(.*)` |
| Pipeline.ReleaseV240 | src/index.js:162-177 | for any key whose pattern is `v(.*)`, the release `v2.4.0` gives version `2.4.0`, in both fields when the key is an OpenTelemetry project |
| Pipeline.GoAgentSnapshot | src/index.js:162-200 | a `v2.4.0` release of `apm-agent-go` gives `{ go: { latest_version: "2.4.0" } }` |
| Pipeline.OtelGoSnapshot | src/index.js:162-200 | a `v2.4.0` release of `opentelemetry-go` gives both OpenTelemetry fields set to `2.4.0` |
| Pipeline.UnmatchedTagSnapshot | src/index.js:162-200 | a tag the pattern does not match gives `latest_version: undefined` |
| Pipeline.NoReleasesThrows | src/index.js:170-171 | a repository without releases makes the whole refresh throw |

## Left out

- The HTTP request to GitHub and reading its JSON body (src/index.js:185-194).
  The response's `data` object enters the model as a sequence of fragments in
  `Object.values` order.
- The upload to Cloud Storage and `JSON.stringify` of the snapshot
  (src/index.js:220-225), and the Pub/Sub entry point's `event` and `context`.
  The constants `filename`, `bucketName` and `accessToken` are empty strings.
- General regular expressions. Only the form `L(.*)` is modelled, where `L` is a
  run of plain characters and `.`. `Versions.ExtractLastVersion` requires every
  pattern of the table to lie in that form, and this is proved for the program's
  own table (`Pipeline.TablePatternsSupported`).
- Property names that objects inherit from `Object.prototype`, such as
  `constructor` or `toString`. A repository with such a name is treated as
  missing from `mappingNames`. The same goes for a display name missing from
  `agentsRepoName`.
- A `null` or missing `tagName` in the first release node, and a fragment
  without `releases`. The model covers a `null` fragment and an empty node list,
  both of which throw.
- `auto_repo` and `auto_regex` are kept in the table but never read, as in the
  source: the auto version repeats the SDK version.
- Versions.FetchVersions: the body writes each record with `Put` rather than
  spreading a one-key object. `JsObject.SpreadSingleton` proves the two equal.
- Pipeline.JsBaseNeverReported: assumes GitHub answers only for repositories
  the query asked for. The response itself is not modelled.
- Strings are sequences of Unicode scalar values, not UTF-16 code units. Without
  the `u` flag, the `.` of a JavaScript pattern (for example in
  `Instrumentation.AspNetCore-(.*)`) matches one code unit, so it takes only half
  of a character outside the Basic Multilingual Plane. On tags holding such
  characters, a wildcard step of the model can match where the program's does
  not, and lone surrogates cannot be represented at all.
- JsObject.FromPairsKeyOrder: keys are listed in insertion order. JavaScript lists
  array-index keys (canonical numeric strings such as `"1"`) first, in ascending
  numeric order. The model assumes no key is an array index. Every key and value
  of both tables satisfies this (`Registry.MappingNamesNotIndices`,
  `Registry.AgentsRepoNameNotIndices`), and so does the text `undefined`.
- `async`/`await` ordering and failures of the network or storage calls.
