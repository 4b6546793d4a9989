# ad4m-test, modelled in Dafny

`ad4m-test` is a test harness for AD4M languages. Its command-line runner does
the following:

- downloads the `ad4m-host` binary when it is missing;
- initialises and starts `ad4m-host serve`;
- waits for the host to print `AD4M init complete`;
- provisions a test agent, the language under test, a perspective and, for
  link languages, a neighbourhood;
- runs test files against a small built-in assertion framework;
- prints the results.

A companion installer publishes the four system languages and writes their
addresses into the host's bootstrap seed. Test files reach the host through
helper functions. Each helper shells out to `ad4m-host` and decodes what the
binary prints with a loose-JSON clean-up. The repository also ships an example
link language, `social-context`, whose link adapter normalises links and
queries before handing them to a Holochain zome.

This project models that core with immutable datatypes and pure functions,
and proves what the code promises about it:

- **Strings, Js** (`strings.dfy`, `js.dfy`): text primitives and the JavaScript
  values and comparisons the code relies on. These cover `includes`, `split`
  and `join`, `trim`, `===`, loose `== ""` and `== undefined`, truthiness and
  template-string rendering.
- **CleanOutput** (`clean_output.dfy`): `cleanOutput` from `src/utils.ts`. It
  drops the banner line, applies the four textual rewrites in order, and hands
  the result to a decoder. `JSON.parse` is an abstract partial function
  `string -> Option<T>`.
- **Utils** (`utils.dfy`): the `node_modules` filter of `getTestFiles`, and the
  platform-to-asset choice of `getAd4mHostBinary`.
- **Helpers** (`helpers.dfy`): the command lines the helpers build, the quote
  escaping of link JSON, and what each helper returns for a given output.
- **Framework** (`framework.dfy`): the assertion framework of `src/index.ts`.
  This covers the hook registrars, `describe`, `it`, `expect().toBe/toEqual`,
  the counters and the `stats` report. The source pushes references to mutable
  records. The model makes that heap explicit, with record stores and
  integer references.
- **Process, Cli, SystemLanguages** (`process.dfy`, `cli.dfy`,
  `system_languages.dfy`):
  - The provisioning and teardown of `src/cli.ts` and
    `src/installSystemLanguages.ts`, as traces of issued commands and
    lifecycle events.
  - What each command printed, and how each child process behaved, are inputs.
  - The argument validation, file selection and run order of the runner.
- **SocialContext** (`social_context.dfy`): the link adapter of
  `example/languages/social-context.js`. This covers link and query
  normalisation, the zome-call inputs, the active-agent call target, and the
  signal callback. Its capabilities (writable, not public, no other agents)
  are the constant `SocialContext.AdapterCapabilities`.

## Model

| member | source | states |
|---|---|---|
| Strings.JoinTailIsDropFirstLine | src/utils.ts:17-19 | splitting on newlines, removing the first piece and joining the rest back gives exactly the text after the first newline, and the removed piece is the banner line |
| Strings.BannerAndRest | src/utils.ts:17-19 | any text is its banner, one newline and the rest; text without a newline has an empty rest |
| Strings.JoinSplit | src/utils.ts:17-19 | joining the pieces of a split on the same separator gives back the original text |
| Strings.Split | src/utils.ts:17 | `split` gives at least one piece and no piece contains the separator. The first piece is empty exactly when the text is empty or starts with the separator |
| Strings.SplitNoSeparator | src/utils.ts:17 | text without the separator splits into itself alone |
| Strings.SplitAppendSeparator | src/utils.ts:17 | splitting `a`, the separator, then `b` gives the pieces of `a` followed by the pieces of `b` |
| Strings.SplitJoin | src/utils.ts:17-19 | pieces free of the separator, joined and split again on it, come back unchanged |
| Strings.Trim | src/helpers/index.ts:73 | `trim` leaves no whitespace at either end and introduces no character that was not there |
| Strings.TrimIsInfix | src/helpers/index.ts:73 | the trimmed text is a contiguous piece of the input, with only whitespace cut on either side |
| Strings.TrimIdempotent | src/helpers/index.ts:73 | trimming twice is the same as trimming once |
| Js.StrictEqualsProperties | src/index.ts:86 | `===` is symmetric, relates a value to itself unless it is NaN, and only relates equal values |
| Js.LooselyEqualsEmpty | example/languages/social-context.js:91-98 | a value loosely equal to `""` is never `null`, `undefined`, NaN or an object |
| Js.Truthy | example/languages/social-context.js:69-73 | `null`, `undefined`, NaN and every value loosely equal to `""` are falsy; every object is truthy |
| Js.TemplateText | src/index.ts:88 | `${v}` of a string is that string itself, and every other value renders as non-empty text |
| CleanOutput.SingleToDoubleQuotes | src/utils.ts:22 | the first rewrite turns every `'` into `"`, keeps the length, and leaves every other character in place |
| CleanOutput.QuoteKeys | src/utils.ts:22 | the second rewrite never shortens the text |
| CleanOutput.QuoteKeysKey | src/utils.ts:22 | a word-character run followed by `:` and one whitespace character becomes `"run": `, with that whitespace replaced by one space |
| CleanOutput.QuoteKeysUnchanged | src/utils.ts:22 | text with no word character followed by `:` and whitespace is left unchanged by the second rewrite |
| CleanOutput.QuoteKeysLengthens | src/utils.ts:22 | text with such a key strictly grows under the second rewrite |
| CleanOutput.QuoteKeysIdentityIff | src/utils.ts:22 | the second rewrite changes the text exactly when it contains a key followed by `:` and whitespace |
| CleanOutput.QuoteKeysNonWordHead | src/utils.ts:22 | a leading non-word character is kept and the rewrite continues after it |
| CleanOutput.QuoteKeysPlainRun | src/utils.ts:22 | a maximal word run that is not followed by `:` and whitespace is copied as it is, and the rewrite continues right after it |
| CleanOutput.QuoteKeysRunColon | src/utils.ts:22 | a word run followed by `:` and a non-whitespace character keeps the run and the colon, and the rewrite continues after the colon |
| CleanOutput.DidUntouched | src/utils.ts:22 | `did:key:` and the whole word-character id after it are copied unchanged whenever the id is not followed by `:` and whitespace, and the rewrite continues after the id |
| CleanOutput.UnquoteOpenBrace | src/utils.ts:22 | the third rewrite (`"{` to `{`) only deletes `"` characters: every other character is kept, in its order and without anything moving past it |
| CleanOutput.UnquoteCloseBrace | src/utils.ts:22 | the fourth rewrite (`}"` to `}`) only deletes `"` characters in the same sense |
| CleanOutput.UnquoteOpenBraceDropsQuotesBeforeBrace | src/utils.ts:22 | the third rewrite deletes exactly the `"` characters directly followed by `{`, and nothing else |
| CleanOutput.UnquoteCloseBraceDropsQuotesAfterBrace | src/utils.ts:22 | the fourth rewrite deletes exactly the `"` characters directly preceded by `}`, and nothing else |
| CleanOutput.BracesWithoutQuotesKept | src/utils.ts:22 | text with no `"{` and no `}"` passes the third and the fourth rewrite unchanged |
| CleanOutput.UnquoteOpenBraceIdentityIff | src/utils.ts:22 | the third rewrite changes the text exactly when `"{` occurs, and then strictly shortens it |
| CleanOutput.UnquoteCloseBraceIdentityIff | src/utils.ts:22 | the fourth rewrite changes the text exactly when `}"` occurs, and then strictly shortens it |
| CleanOutput.QuoteKeysKeepsAbsent | src/utils.ts:22 | the second rewrite adds no character other than `"`, `:` and space |
| CleanOutput.DropsQuotesKeepsAbsent | src/utils.ts:22 | deleting quotes adds no character |
| CleanOutput.Normalise | src/utils.ts:22 | no `'` survives the four rewrites, because the first turns each into `"` and the others add none |
| CleanOutput.Clean | src/utils.ts:16-28 | throws "cannot be parsed" exactly when nothing follows the banner line; otherwise it succeeds exactly when the decoder accepts the rewritten tail, and returns what the decoder returned |
| CleanOutput.CleanIgnoresBanner | src/utils.ts:17-19 | the banner line's content never affects the result |
| CleanOutput.CleanSingleLineFails | src/utils.ts:21-27 | output without a newline always fails with "cannot be parsed" |
| CleanOutput.SampleQuotesSwapped | src/utils.ts:22 | on `{uuid: 'p1'}` the first rewrite gives `{uuid: "p1"}` |
| CleanOutput.SampleKeysQuoted | src/utils.ts:22 | on `{uuid: "p1"}` the second rewrite quotes the key |
| CleanOutput.SampleKeyRewritten | src/utils.ts:22 | `{uuid: ` followed by any text has its key quoted and the rewrite continues on that text |
| CleanOutput.SampleValueUntouched | src/utils.ts:22 | a quoted value followed by `}` is not a key and stays as it is |
| CleanOutput.SampleBracesKept | src/utils.ts:22 | the rewritten sample `{"uuid": "p1"}` has no `"{` and no `}"`, so it passes the third and the fourth rewrite unchanged |
| CleanOutput.NormaliseSample | src/utils.ts:22 | the four rewrites in their fixed order turn `{uuid: 'p1'}` into the strict JSON `{"uuid": "p1"}` |
| Utils.WithoutNodeModules | src/utils.ts:43 | keeps exactly the discovered paths that do not contain `node_modules` |
| Utils.WithoutNodeModulesAppend | src/utils.ts:43 | the filter works path by path, so discovery order is kept |
| Utils.FindAsset | src/utils.ts:69-81 | `find` returns the first asset whose name contains the keyword, or nothing when none does |
| Utils.EnsureBinary | src/utils.ts:59-97 | nothing is downloaded exactly when the binary exists; otherwise the download is the first matching asset, and reading the URL of a missing asset fails |
| Utils.PlatformChoice | src/utils.ts:54-83 | `darwin` selects `macos`, `win32` selects `windows`, any other platform selects `linux` |
| Helpers.EscapeQuotes | src/helpers/index.ts:13 | the escaped text is longer by the number of `"`, and every `"` in it follows a backslash |
| Helpers.EscapeQuotesRoundTrip | src/helpers/index.ts:13 | dropping the inserted backslashes recovers the original JSON text |
| Helpers.EscapeQuotesInjective | src/helpers/index.ts:13 | different JSON texts never escape to the same argument |
| Helpers.Command | src/helpers/index.ts:8-86 | every helper runs the stored binary. Link helpers target the stored perspective uuid, and `createExpression` targets the stored language address |
| Helpers.LinkArgumentsRecoverJson | src/helpers/index.ts:13-37 | the `--link` of add, remove and update, and the `--newLink` of update, are each the escaped JSON of their own link, and unescaping recovers it |
| Helpers.QueryIsNotEscaped | src/helpers/index.ts:50 | `queryLinks` passes the query JSON unescaped inside single quotes |
| Helpers.GetExpressionIgnoresStoredIds | src/helpers/index.ts:76-83 | `getExpression` depends on the binary and its `url` argument only, not on the stored perspective or address |
| Helpers.RemoveApostrophes | src/helpers/index.ts:73 | every `'` is removed and nothing else: the length drops by their count, and text without one is unchanged |
| Helpers.StripAndTrim | src/helpers/index.ts:73 | the result has no `'` and no whitespace at either end |
| Helpers.StripAndTrimIdempotent | src/helpers/index.ts:73 | stripping and trimming twice is the same as doing it once |
| Helpers.ExpressionText | src/helpers/index.ts:69-73 | `createExpression` returns the text after the first line with `'` removed and trimmed, and the empty string when nothing follows the first line |
| Helpers.HelperResult | src/helpers/index.ts:12-85 | a command that exits with a non-zero status makes `execSync` throw, whatever the helper. Otherwise `createExpression` returns text, and every other helper returns what `cleanOutput` returns and fails exactly when `cleanOutput` fails, including on an empty tail |
| Helpers.CreateExpressionFailsOnlyWithCommand | src/helpers/index.ts:64-73 | `createExpression` fails exactly when its command exits with a non-zero status, and successful output without a newline gives the empty string |
| Helpers.CreateExpressionResult | src/helpers/index.ts:64-73 | a command that exits with status 0 makes `createExpression` return the cleaned text of its output, without going through `cleanOutput` |
| Helpers.SingleLineExpressionText | src/helpers/index.ts:69-73 | output without a newline has nothing after its first line, so the expression text is empty |
| Paths.NormaliseSegments | src/cli.ts:96 | from the root, normalising segments free of `/` leaves only plain segments: none empty, `.` or `..` |
| Paths.ResolvePath | src/cli.ts:96 | with an absolute argument or working directory, `path.resolve` gives a normal path: the root, or the root followed by plain segments |
| Paths.NormalisePlainIdentity | src/cli.ts:96 | plain segments pass normalisation unchanged |
| Paths.NormaliseAppend | src/cli.ts:96 | normalising two runs of segments in turn is normalising them joined |
| Paths.ResolveNormalIsIdentity | src/cli.ts:96 | a path that is already resolved resolves to itself, whatever the working directory |
| Paths.ResolveIdempotent | src/cli.ts:96 | resolving twice is resolving once |
| Paths.ResolveRelative | src/cli.ts:96 | a relative path of plain segments resolves to the working directory, `/`, then that path |
| Paths.SegmentsUnder | src/cli.ts:96 | the segments of a path put under the working directory are the directory's segments followed by the path's |
| Paths.ResolveDropsDot | src/cli.ts:96 | a leading `./` does not change the resolved path |
| Paths.ParentSegments | src/cli.ts:96 | `name/../q` splits into `name`, `..` and the segments of `q` |
| Paths.ResolveParentCancels | src/cli.ts:96 | a plain segment followed by `..` cancels out of the resolved path |
| Framework.RegisterHook | src/index.ts:26-40 | each registrar appends its hook to its own list; the other lists and everything else are unchanged |
| Framework.Record | src/index.ts:87-108 | recording an outcome keeps every reference valid |
| Framework.ToBe | src/index.ts:85-99 | `toBe` compares strictly and moves exactly one of the pass and fail counters. The outcome `expected <v> toBe <e>` with that status goes into the current test's record when one exists. Nothing else changes |
| Framework.Message | src/index.ts:88-94 | two strings render as `expected <value> toBe <expected>` with the strings themselves; when the values are strictly equal, both halves render the same text |
| Framework.ToEqual | src/index.ts:100-114 | `toEqual` keeps every reference valid |
| Framework.ToEqualIsToBe | src/index.ts:85-114 | `toEqual` behaves exactly like `toBe`, message included |
| Framework.ExpectBeforeAnyIt | src/index.ts:18-24 | before any `it`, an assertion moves one counter and records nothing |
| Framework.HookEvents | src/index.ts:47-49 | running a hook list runs every hook once, in registration order |
| Framework.OpenIt | src/index.ts:62-72 | `it` counts one test and runs every `beforeEach` in order. It then makes a fresh, empty, named record current, before the body |
| Framework.PushIt | src/index.ts:80 | pushing a test onto a describe appends exactly that reference to that describe and changes no other describe |
| Framework.CloseIt | src/index.ts:76-80 | after the body every `afterEach` runs in order. Then the record current at that moment is appended to the describe current at that moment |
| Framework.OpenDescribe | src/index.ts:42-51 | `describe` makes a fresh describe record current and runs every `beforeAll` before the body. It then names the record |
| Framework.FreshDescribe | src/index.ts:43-45 | a fresh describe record with no name and no tests is added and made current; nothing else changes |
| Framework.NameDescribe | src/index.ts:51 | only the current describe record's name changes, and its tests stay as they were |
| Framework.CloseDescribe | src/index.ts:55-59 | after the body every `afterAll` runs. Then exactly one entry, the describe current at that moment, is appended to `stats` |
| Framework.Step | src/index.ts:26-116 | any call of test-file code keeps every reference valid |
| Framework.Run | src/index.ts:26-116 | running test-file code keeps every reference valid |
| Framework.RunIt | src/index.ts:62-81 | `it` keeps every reference valid |
| Framework.RunDescribe | src/index.ts:42-60 | `describe` keeps every reference valid |
| Framework.RunMoves | src/index.ts:26-116 | test-file code moves each counter by the tally of what it calls. Each `it` adds one test and each `describe` one `stats` entry. Each hook list gains exactly the hooks registered, in order, and the stores and log only grow |
| Framework.StepMoves | src/index.ts:26-116 | one call moves the counters by its own tally |
| Framework.ItMoves | src/index.ts:62-81 | an `it` adds exactly one to `totalTests`, whatever its outcome, plus what its body does |
| Framework.DescribeMoves | src/index.ts:42-60 | a `describe` adds exactly one `stats` entry plus what its body does |
| Framework.StepExpect | src/index.ts:85-99 | an assertion inside a test appends its one outcome to that test's record and touches nothing but that record and the counters |
| Framework.RunExpects | src/index.ts:83-116 | assertions inside a test append exactly their outcomes, in order |
| Framework.ItOfExpects | src/index.ts:62-81 | an `it` whose body only asserts creates one record holding exactly the body's outcomes, and pushes it onto the current describe |
| Framework.ItLogOfExpects | src/index.ts:65-78 | inside `it`, every `beforeEach` runs, then the body, then every `afterEach` |
| Framework.RunItsRecords | src/index.ts:62-81 | a run of such `it` calls appends their records in call order |
| Framework.RunItsPushes | src/index.ts:80 | and pushes them onto the current describe in call order |
| Framework.DescribeOfIts | src/index.ts:42-81 | a `describe` of such tests creates one named describe that refers to exactly those tests. It pushes that describe once onto `stats`, and leaves it current |
| Framework.LateExpectJoinsLastIt | src/index.ts:69-87 | the current test is never reset, so an assertion after an `it` returned still lands in that test's already pushed record |
| Framework.RunFromStart | src/index.ts:3-24 | from the initial state, the totals, the pass and fail counts, the number of `stats` entries and the hook lists are exactly the tally of the file's code |
| Framework.OneDescribeState | src/index.ts:42-81 | the state after a file that is one `describe` of asserting tests |
| Framework.OneDescribeCounts | src/index.ts:42-116 | after one `describe` of asserting tests, `totalTests` is the number of tests, and the pass and fail counts are the passing and failing assertions |
| Framework.MarkLines | src/index.ts:131-133 | one report line per outcome, in order, marked by its status |
| Framework.StatLines | src/index.ts:125-137 | each describe gives at least its name line and the blank line after it, and the first line names the first describe |
| Framework.Report | src/index.ts:118-138 | the report opens with the totals line and the title coloured by failures. Then come at least two lines per `stats` entry, starting with the first entry's name |
| Framework.ReportOfOneSuite | src/index.ts:118-138 | the report is the totals line, the title coloured by failures, the suite name, each test name with its marks, and a blank line |
| Framework.ReportOfOneDescribe | src/index.ts:118-138 | for one `describe` of asserting tests, the report lists every test in call order with every assertion's mark in order |
| Process.HookRuns | src/cli.ts:118-126 | hooks run one after another, in list order |
| Process.SplitMarkerNotSeen | src/cli.ts:176 | readiness is checked on each chunk alone, so a marker split across two chunks is seen in neither |
| Process.ReadyAt | src/cli.ts:176 | a chunk counts as ready exactly when `AD4M init complete` occurs in it at some position |
| Cli.FindDid | src/cli.ts:90 | what the search finds is a position where `did:key:` is followed by a word character |
| Cli.FindDidLeftmost | src/cli.ts:90 | the search skips no match: it finds the leftmost one, and finds nothing exactly when there is none |
| Cli.MatchAt | src/cli.ts:90-91 | the matched text is `did:key:` followed by one or more word characters |
| Cli.MatchOfWord | src/cli.ts:90-91 | where the prefix is followed by a word and then a non-word character, the match is exactly the prefix and that word |
| Cli.ExtractDidMatches | src/cli.ts:90-91 | there is an agent id exactly when the pattern occurs, and it is `did:key:` followed by one or more word characters |
| Cli.ExtractDidOf | src/cli.ts:90-91 | the id taken from text with the first match `did:key:<word>` is exactly that match, stopping at the first non-word character |
| Cli.ExtractDid | src/cli.ts:90-91 | a found agent id always starts with `did:key:` and has at least one character after it |
| Cli.InstallNeedsAgentId | src/cli.ts:90-94 | output without an agent id makes provisioning throw right after the generate command; with one, provisioning goes on |
| Cli.PublishBundle | src/cli.ts:96 | the publish command carries the meta unchanged and the bundle path as `path.resolve` gives it. Under an absolute working directory that path is absolute and normalised |
| Cli.PublishesResolvedBundle | src/cli.ts:96 | a relative bundle path of plain segments is published as the working directory, `/`, then that path, and a leading `./` makes no difference |
| Cli.InstallLanguage | src/cli.ts:89-136 | the agent generate command always comes first. Anything is stored only when the output held an agent id, the bundle and the meta were non-empty, and the publish, trust and template steps succeeded |
| Cli.Provision | src/cli.ts:94-136 | the same, given whether an agent id was found |
| Cli.TestRun | src/cli.ts:118-132 | the run resolves exactly when a test object was given. It then runs the body and ends with the kill, the reaping of `holochain` and `lair-keystore`, and the resolve |
| Cli.InstallSuccess | src/cli.ts:94-132 | when every step succeeds, the trace runs in order: publish the resolved bundle path, trust the author, publish the template, add the perspective, and the neighbourhood for link languages only. Then every `beforeEach`, the body and every `afterEach` run, the child is killed, `holochain` and `lair-keystore` are reaped, and only then the promise resolves |
| Cli.PerspectiveTrace | src/cli.ts:106-132 | once the perspective exists, the neighbourhood publish for link languages comes before the test run |
| Cli.PublishTrace | src/cli.ts:96-132 | after a successful publish, trusting its author and publishing the template come before the perspective |
| Cli.TestRunSettles | src/cli.ts:118-135 | a given test object ends in resolve, after the kill and the body. A missing one ends in a logged error, with no body, kill or resolve, and neither runs any command |
| Cli.PerspectiveStage | src/cli.ts:106-135 | from the perspective step on, the promise resolves exactly when the remaining steps succeed and a test object was given |
| Cli.PerspectiveStageNeighbourhoods | src/cli.ts:111-116 | from the perspective step on, a neighbourhood is published exactly for link languages. It binds the new perspective uuid to the templated address with meta `{"links":[]}` |
| Cli.TemplateStage | src/cli.ts:101-135 | from the template step on, the promise resolves exactly when the remaining steps succeed and a test object was given |
| Cli.TemplateStageNeighbourhoods | src/cli.ts:101-116 | from the template step on, the only neighbourhood published is the expected one |
| Cli.PublishStage | src/cli.ts:96-135 | from the publish step on, any failure skips every later step, hook, body, kill and resolve, and is only logged |
| Cli.PublishStageNeighbourhoods | src/cli.ts:96-116 | a failed publish or trust step publishes no neighbourhood |
| Cli.InstallSettles | src/cli.ts:94-135 | with an agent, a bundle and a meta, provisioning resolves exactly when every step succeeds and a test object was given. Otherwise the logged error is the last event, and neither the body nor the kill happens |
| Cli.InstallStopsEarly | src/cli.ts:90-94 | without a bundle or a meta, only the agent is generated and nothing is stored |
| Cli.StoredAddressIsTemplated | src/cli.ts:104-115 | the stored language address is the templated one, not the originally published one. The stored perspective is the new uuid, stored only after the address, and a neighbourhood is stored only for link languages |
| Cli.NeighbourhoodOnce | src/cli.ts:94-116 | a provisioning publishes at most one neighbourhood: the expected one, exactly when the earlier steps succeeded |
| Cli.ServeArgs | src/cli.ts:160-164 | `serve` gets the data path and the port, and `--defaultLangPath` with that path exactly when a non-empty one is supplied |
| Cli.Occurrences | src/cli.ts:175-179 | the count of an event is at most the trace's length, and zero exactly when the event is absent |
| Cli.OccurrencesAppend | src/cli.ts:175-179 | counting an event in two traces joined is adding the two counts |
| Cli.ReadyWhere | src/cli.ts:175-179 | the ready chunks whose round satisfies a condition are never more than the ready chunks |
| Cli.ReadyWhereAll | src/cli.ts:175-179 | when every round satisfies the condition, they are exactly the ready chunks |
| Cli.ProvisionPerReadyChunk | src/cli.ts:175-191 | there is no once-guard: every stdout chunk with the marker starts its own provisioning, so an event each round emits at most once, and the spawn-error teardown never, occurs once per ready chunk whose round emits it |
| Cli.NoAgentAfterPublish | src/cli.ts:94-135 | nothing after the publish step generates another agent |
| Cli.InstallGeneratesOnce | src/cli.ts:89-135 | every `installLanguage` runs the agent generate command exactly once |
| Cli.InstallResolvesOnce | src/cli.ts:89-135 | every `installLanguage` resolves exactly once when all its steps succeed and a test object was given, and never otherwise |
| Cli.SuccessResolvesOnce | src/cli.ts:94-132 | a sequence whose steps all succeed, given a test object, resolves exactly once |
| Cli.ProvisionPublishes | src/cli.ts:89-97 | with an agent id and a non-empty bundle and meta, the agent is generated, the resolved bundle is published, and the rest follows from the publish output |
| Cli.TestRunResolvesOnce | src/cli.ts:118-132 | a test run resolves exactly once, after the hooks and the body |
| Cli.StartServerProvisionsPerReadyChunk | src/cli.ts:149-191 | once `init` succeeded, `startServer` generates one agent per ready chunk and calls `resolve` once per ready chunk whose provisioning round succeeds with a test object. So a second marker chunk provisions again and calls `resolve` again, which has no effect on the already settled promise. After a failing `init`, neither happens |
| Cli.ReactProvisionCounts | src/cli.ts:174-180 | the child's reaction generates one agent per ready chunk and calls `resolve` once per ready chunk whose round succeeds with a test object |
| Cli.StartServer | src/cli.ts:149-164 | start-up reaps `holochain` then `lair-keystore` and runs `init` on the data path. `serve` is spawned next exactly when `init` succeeded, and a failing `init` ends the trace in the throw |
| Cli.InitFailureStopsStartUp | src/cli.ts:142-158 | a failing `init` throws inside the promise's executor. Nothing is spawned or provisioned, and the promise neither resolves nor rejects |
| Cli.React | src/cli.ts:168-191 | stdout chunks without the marker start nothing |
| Cli.SpawnErrorRejects | src/cli.ts:185-191 | when `init` succeeded and the spawn error is the child's first signal, `serve` was spawned, then `holochain`, `lair-keystore` and `ad4m-host` are reaped and the promise rejects, with no kill and no resolve |
| Cli.HostUrlMatchesAssetChoice | src/cli.ts:24-52 | the runner's fixed download URL names the same platform build the release-listing asset choice would pick |
| Cli.SelectFiles | src/cli.ts:268 | the files are the one named by `--test`, else the discovered ones outside `node_modules` |
| Cli.RunFiles | src/cli.ts:271-284 | each file is run once, in order, with the same configuration |
| Cli.RunRequiresBundleAndMeta | src/cli.ts:256-291 | the run exits with status 1 exactly when the bundle or the meta is missing, and then runs no file; otherwise it exits with 0 |
| Cli.RunCliLayout | src/cli.ts:255-291 | with the binary available and a bundle and a meta, a run is the download when one was needed, one run per selected file in order, the results, and exit 0 |
| Cli.RunOrder | src/cli.ts:268-291 | with a bundle and a meta, every selected file runs in order with the run's configuration. The results are shown exactly once, after the last file and before the exit |
| Cli.DownloadOnlyWhenMissing | src/cli.ts:30-66 | nothing is downloaded when the binary exists. Otherwise the platform's build is downloaded first, and a failed download ends the run |
| Cli.RunCli | src/cli.ts:195-292 | the run always emits an event. It ends in a throw exactly when the binary is missing and its download fails, and it downloads exactly when the binary is missing |
| SystemLanguages.TableShape | src/installSystemLanguages.ts:19-24 | the table has four entries with distinct keys, each named by its key. Only `direct-message-language` declares the recipient template parameters; the others declare `id`, `name`, `description` |
| SystemLanguages.UpdateSeed | src/installSystemLanguages.ts:80-91 | a publish's address goes into exactly the seed field its key selects, and the trusted agents, link languages and bundle are never touched |
| SystemLanguages.PublishAll | src/installSystemLanguages.ts:76-92 | publishing goes through the table in order and stops at the first publish that throws, keeping the fixed fields |
| SystemLanguages.PublishAllFills | src/installSystemLanguages.ts:76-93 | when every publish succeeds, all four fields hold the address returned for their language |
| SystemLanguages.PublishCommands | src/installSystemLanguages.ts:76-78 | each language is published from its own bundle path with its own meta, in table order |
| SystemLanguages.OnReadySuccess | src/installSystemLanguages.ts:72-101 | on readiness, the agent is generated and the four languages are published, each from its own bundle path with its own meta, in table order. Then the filled seed is written, the child killed, `holochain` then `lair-keystore` reaped, and then the promise resolves |
| SystemLanguages.OnReadyFailure | src/installSystemLanguages.ts:76-93 | a publish that throws ends the reaction right after it: no seed is written, nothing is killed, nothing resolves |
| SystemLanguages.OnReady | src/installSystemLanguages.ts:72-103 | on readiness the agent generate command runs first. A failing one throws at once, and otherwise the first publish follows. The reaction ends in the resolve exactly when the generate command succeeded and every publish returned an address, and otherwise in the throw. The seed's fixed fields are kept |
| SystemLanguages.OnReadyGenerateFails | src/installSystemLanguages.ts:73-76 | a failing generate command throws before any publish: the seed is neither changed nor written, nothing is killed and nothing resolves |
| SystemLanguages.React | src/installSystemLanguages.ts:65-117 | stdout chunks without the marker trigger nothing |
| SystemLanguages.ServeArgs | src/installSystemLanguages.ts:57-61 | `serve` always gets port 4000, the seed file and `--languageLanguageOnly true`, and `--defaultLangPath` exactly when that path is non-empty |
| SystemLanguages.DefaultLangPath | src/installSystemLanguages.ts:49 | the default language path is the package directory followed by `/languages`, so it is never empty |
| SystemLanguages.SpawnAlwaysPassesDefaultLangPath | src/installSystemLanguages.ts:49-61 | whenever `init` succeeds, the installer takes the first branch: `serve` is spawned with eleven arguments, including `--defaultLangPath` and the package's `languages` directory |
| SystemLanguages.InstallThenFirstReady | src/installSystemLanguages.ts:41-75 | after a successful `init` and a first ready chunk, the trace is the start-up events, the seed write and spawn, the first reaction, and then the rest of the child's signals |
| SystemLanguages.BundleBeforeSpawn | src/installSystemLanguages.ts:53-93 | with `init` and the first generate command succeeding, the bundle is in the seed before it is first written and before `serve` is spawned, and the seed written after publishing keeps it |
| SystemLanguages.InstallSystemLanguages | src/installSystemLanguages.ts:26-119 | when the binary cannot be obtained the installer only throws. Otherwise it reaps and runs `init`. A failing `init` throws before anything is written or spawned. After a successful one, the seed holding the bundle is written and then `serve` is spawned with the default language path and the seed file |
| SocialContext.NullIfEmpty | example/languages/social-context.js:91-99 | a value loosely equal to `""` becomes `null`; every other value is kept |
| SocialContext.PrepareExpressionLink | example/languages/social-context.js:89-101 | the link's source, target and predicate each either stay as they were or become `null`, none is left loosely equal to `""`, and no other field changes |
| SocialContext.PrepareNullsExactlyEmpty | example/languages/social-context.js:89-101 | a field is `null` afterwards exactly when it was loosely equal to `""` or already `null` |
| SocialContext.PrepareIdempotent | example/languages/social-context.js:89-101 | preparing a prepared link changes nothing |
| SocialContext.NullIfMissing | example/languages/social-context.js:60-68 | `undefined` and `null` become `null`; every other value is kept |
| SocialContext.DateText | example/languages/social-context.js:69-74 | an absent (falsy) date stays as it is. A present date becomes its ISO text, and a present value that is not a date fails |
| SocialContext.NormaliseQuery | example/languages/social-context.js:58-74 | normalisation succeeds exactly when both dates convert. Then source, target and predicate are normalised for missing values, and each date is its converted value |
| SocialContext.QueryNormalisation | example/languages/social-context.js:58-74 | missing endpoints and predicates become `null`, and present ones, `""` included, are kept. A falsy date is kept exactly as it was, and a present date is a date object that becomes its ISO text |
| SocialContext.EmptyStringTreatedDifferently | example/languages/social-context.js:58-99 | a link loses `""` but a query keeps it, and a query turns `undefined` into `null` where a link keeps it |
| SocialContext.AddLink | example/languages/social-context.js:32-41 | `add_link` is called on the `social-context` zome with the prepared link and index strategy `FullWithWildCard` |
| SocialContext.UpdateLink | example/languages/social-context.js:42-53 | `update_link` is called with a source, a target and index strategy `FullWithWildCard` |
| SocialContext.RemoveLink | example/languages/social-context.js:54-57 | `remove_link` is called with the prepared link itself |
| SocialContext.GetLinks | example/languages/social-context.js:58-77 | `get_links` is called with the normalised query exactly when normalisation succeeds |
| SocialContext.UpdateIsTwoIndependentPrepares | example/languages/social-context.js:42-53 | `updateLink` prepares the old and the new link independently, exactly as `addLink` would, with the same strategy |
| SocialContext.ActiveAgentTarget | example/languages/social-context.js:23-31 | the active-agent link is added through the service passed in, or through `this` when none is |
| SocialContext.HeartbeatReachesService | example/languages/social-context.js:120-122 | both the call at creation and the bound heartbeat reach the Holochain service |
| SocialContext.AddCallback | example/languages/social-context.js:79-82 | registering stores the callback, replacing any earlier one, and returns 1 |
| SocialContext.HandleSignal | example/languages/social-context.js:83-87 | a signal calls the registered callback once with `([payload], [])`, and calls nothing when no callback is registered |
| SocialContext.LastCallbackWins | example/languages/social-context.js:79-87 | a signal before registration reaches nothing; after two registrations it reaches only the last, once |

## Left out

- Process control is modelled only as trace events. This covers `spawn`,
  stream piping and the log file, `tree-kill`, and `find-process` lookups.
  Reaping is one event per process name, whatever it finds.
- File-system work is left out: `fs-extra`, `glob`, `appdata-path`, `path.join`
  and `realpathSync`. Paths are parameters, and globbing gives the
  `discovered` list. `path.resolve` of the bundle is modelled by `Paths`.
  The process's working directory is an input, and Windows paths are not
  modelled.
- The network is left out: `fetch` of the release listing and the `wget`
  download. The listing's assets are an input, and whether the download
  succeeded is a boolean.
- The internals of `JSON.parse`, `JSON.stringify` and `Date.toISOString` are
  left out. `JSON.parse` is a partial function parameter. Stringified JSON
  arrives as text, and `toISOString` is a parameter on object references.
- Shell quoting and the shell's own backslash processing of the command lines
  are left out. A command line is a structured value.
- Asynchrony is left out. Promises, `await`, the interleaving of chunk
  handlers and the `kill` callback's timing are not modelled, and each trace
  lists events in program order.
- `Framework.ToBe` and `Framework.Message` render only strings, numbers,
  booleans, `null`, `undefined`, NaN and plain objects correctly. In
  JavaScript an array renders as its comma-joined elements, a `Date` as its
  date text and a function as its source text, but here every object renders
  as `[object Object]`. A `Symbol` would make the template throw, and it is not
  a value of the model.
- `Js.TemplateText` renders every object as `[object Object]`, as above.
- Numbers are integers. Floating point is not modelled, and `NaN` is its own
  value.
- Loose equality with an object is simplified: `Js.LooselyEqualsEmpty` treats
  an object as never loosely equal to `""`. JavaScript would convert it with
  `ToPrimitive`, so `[]` would count.
- Hooks and test bodies that throw are not modelled. In the runner, one
  that throws would be logged by the `catch` at src/cli.ts:133-135, and the
  promise would never resolve. In the framework, an exception in an `it`
  body escapes after `totalTests` was counted and before the record is
  pushed (src/index.ts:63-80).
- Hook bodies are not modelled: a hook is an inert identifier. In the source
  a hook is arbitrary test-file code. An `expect` inside a `beforeEach` runs
  before `currIt` is replaced (src/index.ts:65-72), so it lands in the
  previous test's record. One inside an `afterEach` lands in the current
  test's record, and a hook may even call `it` or `describe`.
- `Cli.InstallSettles` assumes hooks and the body return, so its resolve
  could be prevented by a throwing one.
- `Cli.InstallSuccess` assumes hooks and the body return, as above.
- `Cli.TestRunSettles` assumes hooks and the body return, as above.
- `Cli.PerspectiveStage` assumes hooks and the body return, as above.
- `Cli.TemplateStage` assumes hooks and the body return, as above.
- `Cli.InstallResolvesOnce` assumes hooks and the body return, as above.
- `Cli.StartServerProvisionsPerReadyChunk` assumes hooks and the body return,
  as above.
- `Cli.TestRun` assumes hooks and the body return, as above.
- `Cli.TestRunResolvesOnce` assumes hooks and the body return, as above.
- `Cli.SuccessResolvesOnce` assumes hooks and the body return, as above.
- `Cli.ReactProvisionCounts` assumes hooks and the body return, as above.
- `Cli.SpawnErrorRejects` is proved only for a spawn error that is the child's
  first signal. After earlier ready chunks, their provisioning events come
  first, as `Cli.ProvisionPerReadyChunk` states.
- `Framework.RunMoves` assumes inert hooks and bodies that return. The tally
  leaves out whatever a hook itself does.
- `Framework.StepMoves` assumes inert hooks and bodies that return, as above.
- `Framework.ItMoves` assumes inert hooks and a body that returns, so "one
  record per `it`" holds only for such bodies.
- `Framework.DescribeMoves` assumes inert hooks and a body that returns, as
  above.
- `Framework.ItOfExpects` assumes inert hooks, so no assertion from a
  `beforeEach` or `afterEach` joins the record.
- `Framework.RunFromStart` assumes inert hooks and bodies that return, as
  above.
- `Framework.DescribeOfIts` assumes inert hooks, as above.
- `Framework.OneDescribeState` assumes inert hooks, as above.
- `Framework.OneDescribeCounts` assumes inert hooks, as above.
- `SystemLanguages.ServeArgs`: the branch without `--defaultLangPath`
  (src/installSystemLanguages.ts:59-61) is kept in the model, but the
  installer never takes it, because the path it passes is never empty
  (`SystemLanguages.SpawnAlwaysPassesDefaultLangPath`).
- `Framework.Step`: its own contract states only that every reference
  stays valid. What it computes is stated by `Framework.StepMoves` and
  `Framework.StepExpect`.
- `Framework.Run`: its own contract states only that every reference stays
  valid. What it computes is stated by `Framework.RunMoves`,
  `Framework.RunExpects` and `Framework.RunItsRecords`.
- `Framework.RunIt`: its own contract states only that every reference stays
  valid. What it computes is stated by `Framework.ItMoves`,
  `Framework.ItOfExpects` and `Framework.ItLogOfExpects`.
- `Framework.RunDescribe`: its own contract states only that every reference
  stays valid. What it computes is stated by `Framework.DescribeMoves` and
  `Framework.DescribeOfIts`.
- `Framework.ToEqual`: its own contract states only that every reference
  stays valid. Its behaviour is stated by `Framework.ToEqualIsToBe` together
  with `Framework.ToBe`.
- `Framework.Record`: its own contract states only that every reference stays
  valid. Its effect is stated by `Framework.ToBe`.
- `CleanOutput.QuoteKeys`: its own contract states only that the text never
  shrinks. The rewrite is stated by `CleanOutput.QuoteKeysKey`,
  `CleanOutput.QuoteKeysUnchanged` and `CleanOutput.QuoteKeysIdentityIff`.
- `Cli.StartServer`: its contract fixes only the start-up events and whether
  `serve` is spawned. What follows is stated by `Cli.ProvisionPerReadyChunk`,
  `Cli.StartServerProvisionsPerReadyChunk` and `Cli.SpawnErrorRejects`.
- A command run with `execSync` that exits with a non-zero status throws. A
  failing `init` (src/cli.ts:154, src/installSystemLanguages.ts:41) and a
  failing generate command in the installer (src/installSystemLanguages.ts:74)
  are modelled as a throw that ends the trace. What Node then does with the
  uncaught exception or the unhandled rejection is not modelled. A failing
  generate command in `installLanguage` (src/cli.ts:90) gives the same trace
  as an output without an agent id: the command, then the throw.
- `SystemLanguages.React` treats an `exit` of the child as another resolve.
  Resolving an already settled promise has no effect, and the model does not
  track settledness.
- `SocialContext.UpdateLink`: its own contract fixes only the call and the
  strategy. The payload's contents are stated by
  `SocialContext.UpdateIsTwoIndependentPrepares`.
- Aliasing through `Object.assign(x)` is not modelled. That call returns `x`
  itself, so the caller's link and query objects are mutated in place. The
  model returns new values.
- `prepareExpressionLink` assumes `link.data` is an object, as the source
  does. A link without `data` would throw there, and that case is not
  modelled.
- The zome calls themselves are left out: `registerDNAs` and the
  `setInterval` heartbeat timing. They are foreign and timer driven, and only
  the call issued is modelled.
- Left out as not repository logic:
  - the `SettingsIcon` constant, which is embedded bundled UI text;
  - `interactions`, which always returns `[]`;
  - the settings UI class;
  - the language's `name` export.
- `src/client.ts` is not part of this model. It is a thin GraphQL client
  wrapper.
- `example/expression.test.js` is not part of this model. It is a consumer
  example.
- The console output of `showTestsResults` is only partly modelled. Colours,
  the fixed "Test Suites: passed, total" text and the dump of the raw `stats`
  object are left out, and the report is a list of structured lines.
- `yargs` parsing is left out (`strict`, `fail`, aliases and the `choices` of
  `languageType`). The runner receives parsed arguments with the defaults
  applied. `hideLogs` only silences logging and is not modelled.
- `global.config` is modelled as the configuration attached to each file run.
  The framework never reads it.
- `src/cli.ts` imports `runtest`, which `src/index.ts` does not export.
  Importing and running a test file is one abstract `RunFile` event.
- The "No test files found" branch of `run` is not modelled. It is
  unreachable, because an array is always truthy.
- The neighbourhood is stored under the global name `neighnourhood`. No
  helper reads it, so the stored value is kept only as a field of the model.
- The empty stubs are left out: `addCallback`, `getByAuthor`, `sendPrivate`
  and `inbox` in `src/helpers/index.ts`. They do nothing and return nothing.
- `installSystemLanguages` wipes and recreates the data and temp directories,
  which is file-system work. Its `require.main` entry point only maps the
  promise to an exit code.
