# Verified model of aeternixth-go-lib

A Dafny model of the parts of this Go utility library that hold an algorithm or a
protocol, with proofs of what they promise. Every property is stated for all inputs, all
runs or all interleavings; nothing is executed.

    dafny verify dfyconfig.toml

## What is modelled

**The SQL script pipeline** (`itestkit/internal/sqlrunner`, `itestkit/internal/fileutil`,
`itestkit/migration.go`, `itestkit/cleanup.go`).
`SqlSplit` holds the splitter loop with its five flags and one-rune lookahead, and proves
that it refines a recursive lexer with one mode. `SplitLaws` proves what splitting means:
the segments are the only lawful ones and join to the whole script, statements rejoin and
split again to themselves, and a semicolon separates two texts exactly when the lexer is
outside comments and strings there, which also decides when plain semicolons rejoin.
`SqlGrammar` is an independent definition, a token grammar without modes, that gives the
same statements for every script. `Utf8` shows that trimming bytes is trimming runes.
`PathOrder`, `ByteOrder` and `SqlFiles` model file discovery with its two sorts,
`Migration` the execution per instance with a server log, and `Truncate` the printer of
quoted names against a reader of PostgreSQL's delimited identifiers.

**Message templates and languages** (`errors/translation.go`). `Translation` proves that
replacing placeholders one at a time in text, in any order of the map, is filling all holes
of the token list at once. Three modules, over the laws of `TemplateReplace`, say exactly
when the order makes no difference. `TemplateOrder`: where placeholders keep apart, for any
text and for templates of literals and holes. `TemplateJoin`: where placeholders overlap,
for any text, by the finitely many texts that two of them overlay. `TemplateCoherence`:
where one placeholder begins another, for templates. `Language` models the header parser
and proves it on headers written from language ranges (section 12.5.4 of RFC 9110).

**The container stack** (`itestkit/stack.go`, `itestkit/postgres.go`). `StackLifecycle`
models starting six families of instances, setting them up, and undoing everything, when
any call to the runtime may fail. Unless containers are to be kept, any failing run
terminates each started container exactly once and issues removal of the network if it was
created; a successful run terminates none. The number of the first failing call determines
the reported error and, where containers are kept, which of them is not.

**The readiness probe** (`observability/health/internal/core/core.go`). `Readiness` is a
state machine over the goroutines, the mutex, the shared map and the clock.

**The rate limiter** (`ratelimit/ratelimit.go`). `RateLimit` takes every call as one step
and proves the window properties over runs with evictions anywhere; `RateRace` splits
concurrent calls for one key into their steps, which in turn make up the atomic call.

**The environment export** (`itestkit/env.go`). `EnvKeys` characterises when two variables
get one key, `KeyedWrites` and `EnvExport` what the exported map is worth then.

`Text` models the string functions of the Go standard library that the code calls. A Go map
that is iterated comes with a parameter `order`, any listing of its keys; a call that may
fail is decided by a function `fails` on the number of calls made before it.

## Where the code and its documentation differ

The model follows the code.

- `errors/translation.go:70` documents the chain requested language, "en", message, code.
  A requested translation that is present but empty skips "en"; `FallbackAsDocumented`
  says exactly when that shows, and `EmptyTranslationSkipsEnglish` on which input.
- `ratelimit/ratelimit.go:37-39` and `:71-72` promise one action per cooldown, by a check
  and an update that are atomic. They are not where an expired entry is replaced: two calls
  that read the same time can both be granted (`ExpiredKeyCanGrantTwo`). From a stored entry
  all concurrent calls keep to the cooldown exactly when no two that come after its expiry
  are closer than the cooldown (`StoredKeyKeepsWindow`), from an absent key exactly when no
  two such come after the expiry that a third would store (`AbsentKeyKeepsWindow`). The
  properties of `RateLimit` are therefore stated for calls that are single steps.
- `itestkit/validation.go:74-78` turns the network on even when the caller left it off, so
  the model always creates one.
- `itestkit/stack.go:67-69`: with containers kept on failure, the network is kept too; and
  a container that ran is terminated all the same when a lookup of its own start-up fails
  (`itestkit/postgres.go:102-111`; `KeptButTerminated` is an input), and only then
  (`StartStack`).
- `observability/health/internal/core/core.go:34-38` says that the deadline bounds every
  probe. It does so only as far as pingers return when their context is cancelled: the call
  is over by a given time exactly when the deadline and the longest lag fit into it
  (`OverBy`), and `LateRun` is a run that takes them both.
- `itestkit/internal/sqlrunner/clickhouse.go:38-41`: joining the statements by a plain
  semicolon does not split back where trimming took the newline that closed a line comment
  (`PlainRejoinFails`, and exactly there by `PlainRejoinOfScript`); joining by a semicolon
  on its own line always does (`RoundTrip`).
- `errors/translation.go:97-99` ranges over a map, so that the message can depend on the
  order. `ValueWithPlaceholder`, `KeyWithBrace`, `KeyWithOpeningBrace` and `StrayBrace` are
  four kinds of input on which it does. `OrderFreeIffUntouched` has the exact condition for
  placeholders that keep apart, `OrderFreeIffJoined` for those that overlap.

## Model

| member | source | states |
|---|---|---|
| `SqlSplit.SplitSQL` | itestkit/internal/sqlrunner/clickhouse.go:42-121 | the loop with five flags emits, as UTF-8, exactly the statements of the one-mode lexer; at most one flag is ever set |
| `SqlSplit.RunEmits` | itestkit/internal/sqlrunner/clickhouse.go:53-119 | from any loop state, the iterations still to come emit the statements of the segments still to come, the first one fused with the buffer |
| `SplitLaws.Conservation` | itestkit/internal/sqlrunner/clickhouse.go:53-116 | the untrimmed segments joined by semicolons are the script: every rune but the top-level semicolons is kept once and in order |
| `SplitLaws.SegmentationIsUnique` | itestkit/internal/sqlrunner/clickhouse.go:38-41 | a list is the list of segments if and only if it joins to the script, no segment has a top-level semicolon, and every segment but the last ends outside comments and strings |
| `SplitLaws.LexConcat` | itestkit/internal/sqlrunner/clickhouse.go:53-116 | lexing two texts laid end to end is lexing the second from the mode in which the first ended, unless the last rune of the one and the first of the other make a comment opener or closer |
| `SplitLaws.LastSegmentMode` | itestkit/internal/sqlrunner/clickhouse.go:53-116 | a script ends in the mode in which its last segment ends |
| `SplitLaws.SemicolonSeparates` | itestkit/internal/sqlrunner/clickhouse.go:106-111 | a semicolon between two texts splits them if and only if the lexer ends the first in the default mode |
| `SplitLaws.EachStatementSplitsToItself` | itestkit/internal/sqlrunner/clickhouse.go:38-41 | every emitted statement splits to just itself |
| `SplitLaws.StatementsAreStatements` | itestkit/internal/sqlrunner/clickhouse.go:38-41 | every emitted text is trimmed, not empty and without a top-level semicolon, and each but the last is closed by a newline |
| `SplitLaws.RejoinSplits` | itestkit/internal/sqlrunner/clickhouse.go:42-121 | any list of such texts, joined by newline, semicolon, newline, splits to that list |
| `SplitLaws.RoundTrip` | itestkit/internal/sqlrunner/clickhouse.go:42-121 | joining the statements of any script by newline, semicolon, newline and splitting again gives the same statements |
| `SplitLaws.SplitImage` | itestkit/internal/sqlrunner/clickhouse.go:42-121 | a list is the result of splitting some script if and only if each text is trimmed, not empty and uncut, and each but the last is closed by a newline |
| `SplitLaws.PlainRejoin` | itestkit/internal/sqlrunner/clickhouse.go:38-41 | statements joined by plain semicolons split back if and only if the lexer ends each but the last outside comments and strings |
| `SplitLaws.PlainRejoinOfScript` | itestkit/internal/sqlrunner/clickhouse.go:38-41 | the statements of any script do if and only if none but the last ends inside a line comment |
| `SplitLaws.PlainRejoinFails` | itestkit/internal/sqlrunner/clickhouse.go:107 | a script on which they do not; `PlainRejoin` has the exact condition |
| `SqlGrammar.SegmentsFollowTokens` | itestkit/internal/sqlrunner/clickhouse.go:59-115 | on the text of any well-formed token list, the segments are what lies between its semicolon tokens |
| `SqlGrammar.Tokenize` | itestkit/internal/sqlrunner/clickhouse.go:38-41 | every script is the text of a well-formed token list |
| `SqlGrammar.StatementsFollowTokens` | itestkit/internal/sqlrunner/clickhouse.go:38-41 | every script has a token list, and its statements are those of any such list |
| `SqlGrammar.ShapesOfText` | itestkit/internal/sqlrunner/clickhouse.go:38-41 | text in single, double or back quotes, line comments and block comments are crossed whole, whatever semicolons they contain; elsewhere a semicolon cuts and any other rune is kept |
| `Utf8.DecodeEncode` | itestkit/internal/sqlrunner/clickhouse.go:52 | decoding the UTF-8 of a rune sequence (section 3 of RFC 3629) gives it back |
| `Utf8.EncodeDecode` | itestkit/internal/sqlrunner/clickhouse.go:107 | bytes that decode are the encoding of what they decode to |
| `Utf8.EncodedBits` | itestkit/internal/sqlrunner/clickhouse.go:107 | a rune has the number of bytes of its range, and they carry its bits as the standard lays them out |
| `Utf8.EncodeAllAt` | itestkit/internal/sqlrunner/clickhouse.go:107-118 | each statement is encoded by itself, in its place |
| `Utf8.TrimBytesIsTrimRunes` | itestkit/internal/sqlrunner/clickhouse.go:123-136 | trimming the bytes of any rune sequence is encoding its trimmed runes, and is empty exactly when those are |
| `Utf8.TrimSpace` | itestkit/internal/sqlrunner/clickhouse.go:123-136 | the two index loops leave the text between the outermost bytes that are not blanks; dropped are only tab, newline, vertical tab, form feed, carriage return and blank, and neither end keeps one |
| `Truncate.TruncatePostgres` | itestkit/cleanup.go:21-40 | an empty list opens nothing; else the text with all quoted names in order is sent if the connection opens, and the error says whether opening or execution failed |
| `Truncate.TruncateRoundTrip` | itestkit/cleanup.go:152-156 | reading the statement by PostgreSQL's rule for delimited identifiers gives back exactly the tables, whatever they contain, and is refused if and only if one of them has an empty name |
| `Truncate.ReadQuotedList` | itestkit/cleanup.go:31-35 | the same for the quoted list before any text that starts with neither quote nor comma |
| `Truncate.TruncateIsOneStatement` | itestkit/cleanup.go:35 | the splitter sees the statement as one, whatever quotes and semicolons the names contain |
| `PathOrder.SliceStable` | itestkit/internal/fileutil/sqlfiles.go:68-70 | an in-place stable sort of the array gives the stable order |
| `PathOrder.StableSortKeeps` | itestkit/internal/fileutil/sqlfiles.go:65-70 | the stable order is sorted, a permutation, and keeps elements with equal keys in place |
| `PathOrder.StableOrderIsUnique` | itestkit/internal/fileutil/sqlfiles.go:68-70 | no other list is sorted and keeps elements with equal keys in place |
| `PathOrder.BaseIs` | itestkit/internal/fileutil/sqlfiles.go:68-70 | the last element of a path: "." for no path, "/" for slashes alone, else what stands between the last slash and the slashes at the end |
| `PathOrder.LeIs` | itestkit/internal/fileutil/sqlfiles.go:65-70 | of two names the one with the lesser rune at the first difference comes first, and a name before its continuations |
| `ByteOrder.LeIsByteLe` | itestkit/internal/fileutil/sqlfiles.go:65-70 | comparing names rune by rune is comparing their UTF-8 byte by byte, as the code does |
| `SqlFiles.CollectSQLFiles` | itestkit/internal/fileutil/sqlfiles.go:28-72 | the loop over paths and entries returns the first error, or the sorted files and the absent paths in the caller's order |
| `SqlFiles.FailsIffProblem` | itestkit/internal/fileutil/sqlfiles.go:31-50 | it fails if and only if some path cannot be looked at or listed, or is absent under strict |
| `SqlFiles.OnePath` | itestkit/internal/fileutil/sqlfiles.go:29-66 | what each kind of path gives by itself: absent, its error under strict, else a missing path; a path that cannot be looked at or listed, its error; a file, itself if it ends in .sql in any case; a directory, its files |
| `SqlFiles.PathsInTurn` | itestkit/internal/fileutil/sqlfiles.go:29-71 | of some paths followed by others, the first failure counts; without one, no file is lost, files of one last element come in that order, and so do missing paths |
| `SqlFiles.CollectedInOrder` | itestkit/internal/fileutil/sqlfiles.go:24-27 | the files are sorted by their last path elements, are the eligible files with multiplicity, and keep equal last elements in path order |
| `SqlFiles.TiesFollowPaths` | itestkit/internal/fileutil/sqlfiles.go:68-70 | among files of one base name, those of earlier paths come first |
| `SqlFiles.CollectionIsUnique` | itestkit/internal/fileutil/sqlfiles.go:14-27 | a list is the collection if and only if it meets that description |
| `SqlFiles.DirectoryFiles` | itestkit/internal/fileutil/sqlfiles.go:52-64 | a directory contributes a file if and only if it is an entry that is not a directory, does not start with a dot and ends in .sql in any case; once, if the entry is listed once |
| `SqlFiles.EntryOrderIrrelevant` | itestkit/internal/fileutil/sqlfiles.go:47-66 | the result does not depend on the order in which directories list their entries |
| `SqlFiles.BaseOfEntry` | itestkit/internal/fileutil/sqlfiles.go:63-69 | the sort key of a directory entry is its name |
| `Migration.Servers.ExecClickHouseFile` | itestkit/internal/sqlrunner/clickhouse.go:19-36 | the log of the instance grows by a prefix of the script's statements, by all of them when nothing failed; no other log changes; the number of the last call tells whether opening, the ping or which statement failed |
| `Migration.Servers.ExecFiles` | itestkit/migration.go:95-99 | on success the log grows by each file's statements, file after file; a failure names a file, before which all others were executed whole, and that cannot be read or follows exactly one failed call |
| `Migration.Servers.ApplyInstance` | itestkit/migration.go:81-99 | an instance that did not ask to apply, has no paths or was not started is left alone; else a failed collection is reported with the log unchanged, and the collected files are executed as above |
| `Migration.Servers.ApplyClickHouse` | itestkit/migration.go:79-102 | whatever the order of instances, on success each that asked to apply, has paths and was started has executed the statements of its collected files, file after file, and no other log changed; with a failure, the instance named stopped in the file named, and each other is done whole or not at all |
| `Migration.Servers.MigrateThenSeed` | itestkit/stack.go:108-128 | the same for all migrations, followed by the same for all seeds |
| `Migration.RanOneMore` | itestkit/migration.go:95-99 | running one file more keeps the log a prefix of the statements of all files |
| `Migration.AppliedOneMore` | itestkit/migration.go:80-100 | one instance more, whole or not, keeps every log a prefix of its plan |
| `Translation.Registry.RegisterTranslations` | errors/translation.go:30-34 | later registrations win code by code, the others stay |
| `Translation.Registry.ResolveMessage` | errors/translation.go:75-103 | the template by the fallback chain, with the keys replaced one after the other in the order of iteration |
| `Translation.ReplaceFills` | errors/translation.go:98 | replacing one placeholder leftmost-first in text is filling the holes of that name in the token list |
| `Translation.OrderFree` | errors/translation.go:95-100 | replacing the keys one at a time, in any order, is filling all holes at once, if no literal or value can begin another placeholder; `OrderFreeIffIndependent` has the converse |
| `Translation.BraceFreeIsOrderFree` | errors/translation.go:95-100 | in particular for literals, names, keys and values without braces |
| `TemplateOrder.OrderFreeIffIndependent` | errors/translation.go:95-100 | for keys without braces, all templates of literals and holes are free of the order if and only if no value can begin the placeholder of another key, keys that stand for their own placeholder aside |
| `TemplateOrder.PlaceholderInValue` | errors/translation.go:97-99 | any such value has a template and two orders with two messages |
| `TemplateOrder.ApartIsOrderFree` | errors/translation.go:95-100 | whatever braces keys and text have, the message is one for all orders if no placeholder can begin within another and no value can begin, end or lie inside the placeholder of another key |
| `TemplateOrder.OrderFreeIffUntouched` | errors/translation.go:95-100 | for placeholders that can begin neither within another nor within themselves, such as those of keys without braces, all texts, stray braces or not, are free of the order if and only if no value can begin, end or lie inside the placeholder of another key |
| `TemplateOrder.BraceFreeIsApart` | errors/translation.go:95-100 | the placeholders of keys without braces can begin neither within another nor within themselves |
| `TemplateJoin.OrderFreeIffJoined` | errors/translation.go:95-100 | for keys with any braces, values that can begin, end or lie inside no placeholder, and placeholders that cannot begin within themselves, all texts are free of the order if and only if, wherever two placeholders can be laid over each other, replacing the one or the other first gives one message in one order |
| `TemplateJoin.AllStepsAgree` | errors/translation.go:97-99 | then replacing any one occurrence first makes no difference to any text |
| `TemplateCoherence.OrderFreeIffCoherent` | errors/translation.go:95-100 | for placeholders that another can begin at the front only, such as those of keys without opening braces, and values that can begin no placeholder, all templates whose holes have values are free of the order if and only if, where one placeholder begins another, both stand for the same |
| `TemplateCoherence.WithoutOpening` | errors/translation.go:98 | a placeholder can begin those of keys without opening braces at the front only |
| `TemplateCoherence.AccidentalAgreement` | errors/translation.go:97-99 | two keys of which one placeholder begins another, that do not stand for the same and whose overlay tells the replacements apart, and yet give one message for every text: that values make no placeholder cannot be dropped from either condition |
| `Translation.ValueWithPlaceholder` | errors/translation.go:97-99 | an input of the first kind: a value that spells another placeholder, two orders, two messages |
| `Translation.KeyWithBrace` | errors/translation.go:97-99 | an input of the second kind: a key with a closing brace, two orders, two messages |
| `Translation.KeyWithOpeningBrace` | errors/translation.go:97-99 | an input of the third kind: a key with an opening brace, two orders, two messages |
| `Translation.StrayBrace` | errors/translation.go:97-99 | an input of the fourth kind: a stray brace before a placeholder, two orders, two messages |
| `Translation.FallbackAsDocumented` | errors/translation.go:70-93 | the code follows the documented chain if and only if it is not the case that the requested translation is present but empty while "en" has a text that differs from the error's own |
| `Translation.EmptyTranslationSkipsEnglish` | errors/translation.go:78-93 | an input on which it does not |
| `Language.ResolveLanguage` | errors/translation.go:47-64 | the loop returns the first supported primary subtag of the header's elements, else "en" |
| `Language.FirstInHeaderWins` | errors/translation.go:36-46 | for any header written from ranges with blanks, subtags and parameters, the first whose primary subtag is "en" or "th", in any case, wins, else "en"; weights and the rest make no difference |
| `Language.EveryHeader` | errors/translation.go:52-56 | every header whatever is written from such ranges |
| `Language.PrimaryOfRange` | errors/translation.go:54-56 | the primary subtag of a written range is found, whatever stands around it |
| `StackLifecycle.StartStack` | itestkit/stack.go:28-199 | invalid options are refused before any call; with valid ones it succeeds if and only if no call failed; then nothing was terminated and the stack holds exactly the started containers, under the configured names; after a failure each started container was terminated exactly once and removal of the network issued if it had been created; on request they are kept, all of them if and only if the first failing call was no lookup, else all but the one looked up; the error names the family or phase of that call |
| `StackLifecycle.KeptButTerminated` | itestkit/postgres.go:102-111 | an input on which a container is terminated although containers are to be kept: one PostgreSQL instance whose second lookup fails |
| `StackLifecycle.OneReport` | itestkit/stack.go:50-163 | the number of the first failing call leaves one choice of error and of the container that is ended |
| `StackLifecycle.ReportedInOrder` | itestkit/stack.go:50-163 | for each family and each phase by name, the numbers of the calls whose failure it is reported for: the network, PostgreSQL, ClickHouse, Redis, Kafka, HTTP mocks, LocalStack, then the migrations, the seeds, flushing, topics, expectations and scripts, each with its number of calls; and that a container is ended from the third call of its instance on |
| `StackLifecycle.EveryCallIs` | itestkit/stack.go:45-163 | a start that succeeds has made all calls of all families and phases |
| `StackLifecycle.FailureLeaves` | itestkit/stack.go:64-81 | after a failed start each new container was terminated once and is gone unless that was refused; where containers are kept, they run on but for the one that was ended |
| `StackLifecycle.SuccessLeaves` | itestkit/stack.go:55-106 | after a successful one each new container runs and is an instance of the stack |
| `StackLifecycle.StackNames` | itestkit/stack.go:55-62 | the stack has the configured instance names, family by family |
| `StackLifecycle.Refused` | itestkit/validation.go:9-63 | refused are exactly options without any instance, and names other than a lower-case letter followed by lower-case letters, digits, '_' and '-' |
| `StackLifecycle.Launch` | itestkit/stack.go:55-163 | the same once the network exists: families, then phases, everything undone on a failure |
| `StackLifecycle.StartFamilies` | itestkit/stack.go:83-106 | the families in order up to the first that fails, which the error names by the call that failed, after which everything started is undone |
| `StackLifecycle.StartFamily` | itestkit/postgres.go:25-39 | all instances in the order of iteration, with one new container each; on a failure those started so far are terminated once, or kept but for the one whose lookup failed |
| `StackLifecycle.StartOne` | itestkit/postgres.go:41-132 | one running container, or an error that leaves none, or a terminated one exactly when a lookup failed |
| `StackLifecycle.TerminateFamily` | itestkit/postgres.go:137-146 | exactly the family's containers are terminated, once each, errors or not; none on request |
| `StackLifecycle.SetUp` | itestkit/stack.go:108-163 | the phases in order up to the first call that fails; the error names the phase of that call |
| `StackLifecycle.Stack.TerminateFamilies` | itestkit/stack.go:72-77 | all containers of all families are terminated once each, no other |
| `StackLifecycle.Stack.Undo` | itestkit/stack.go:64-81 | the same, and removal of the network is issued; nothing at all when containers are kept |
| `StackLifecycle.Stack.Cleanup` | itestkit/stack.go:167-180 | the same, with the error of the network removal returned and that of terminations ignored |
| `StackLifecycle.UndoCloses` | itestkit/stack.go:64-66 | starting some containers, failing, and terminating those leaves every one started since the beginning terminated exactly once |
| `StackLifecycle.CleanupLeavesNothing` | itestkit/stack.go:167-180 | cleaning up a successful start leaves none of its containers running but those whose termination was refused |
| `Readiness.StepHolds` | observability/health/internal/core/core.go:89-101 | every step keeps mutual exclusion, the account of the map, the time bounds, and no group error |
| `Readiness.RunHolds` | observability/health/internal/core/core.go:77-102 | so does every run |
| `Readiness.OnlyCancelCancels` | observability/health/internal/core/core.go:63-67 | no pinger's failure cancels a sibling: only the deadline or the parent does |
| `Readiness.EveryRunAnswers` | observability/health/internal/core/core.go:89-102 | every complete interleaving yields one entry for each configured name: true, or false with the error text of that name's own pinger |
| `Readiness.ScheduleIndependence` | observability/health/internal/core/core.go:89-102 | two complete interleavings with the same outcomes yield the same checks |
| `Readiness.StepProgresses` | observability/health/internal/core/core.go:89-102 | every step uses up one of finitely many, or time |
| `Readiness.NoDeadlock` | observability/health/internal/core/core.go:91-102 | until all goroutines have returned, one of them can take a step |
| `Readiness.ProbeBound` | observability/health/internal/core/core.go:78-102 | a complete run ends when the last pinger returns, each of them no later than its own lag after the cancellation, or by the earlier of the parent's deadline and 800 ms without one; every run has at most four steps for each pinger and one cancellation |
| `Readiness.LateRun` | observability/health/internal/core/core.go:77-102 | whatever the pings find and whichever pinger is chosen, a complete run ends exactly that pinger's lag after the deadline |
| `Readiness.OverBy` | observability/health/internal/core/core.go:34-38 | every complete run is over by a given time, 800 ms for one, if and only if each pinger's lag fits into that time behind the earlier of the parent's deadline and 800 ms |
| `Readiness.Summarize` | observability/health/internal/core/core.go:104-112 | 200 and "ready" if and only if every check succeeded, else 503 and "not_ready" |
| `Readiness.EveryRunResponds` | observability/health/internal/core/core.go:77-113 | every complete interleaving is answered with true, or false and its error text, for each name, and with 200 and "ready" if and only if all pingers succeed, else with 503 and "not_ready" |
| `Readiness.RunChecks` | observability/health/internal/core/core.go:77-113 | so is the call, its goroutines scheduled as in any complete interleaving |
| `RateLimit.Limiter.Allow` | ratelimit/ratelimit.go:92-109 | granted exactly when the key has no entry or the time has reached its expiry, with no wait and the new expiry stored; else told what is left of the wait, with the store unchanged |
| `RateLimit.Limiter.Reset` | ratelimit/ratelimit.go:111-124 | whenever it comes, the next call for the key is granted, and calls for other keys are answered as before |
| `RateLimit.ResetGrantsNext` | ratelimit/ratelimit.go:111-117 | in any run, the first call for a key after its reset is granted, at any time and whatever happens in between |
| `RateLimit.Limiter.Cleanup` | ratelimit/ratelimit.go:134-148 | exactly the entries past their expiry are removed, as by evicting them one by one in any order |
| `RateLimit.EvictionIsInvisible` | ratelimit/ratelimit.go:126-148 | evictions anywhere in a run, even at times read earlier, change no answer |
| `RateLimit.WindowExclusion` | ratelimit/ratelimit.go:71-81 | two grants of one key with no reset between are at least the cooldown apart |
| `RateLimit.RefusalRange` | ratelimit/ratelimit.go:75-77 | a refusal names a wait that is positive and no longer than the cooldown |
| `RateLimit.RefusalIsExact` | ratelimit/ratelimit.go:79-81 | with no reset or grant since, a call is granted if and only if that wait has passed, and is otherwise told what is left of it |
| `RateLimit.NoEarlyGrant` | ratelimit/ratelimit.go:80-81 | calls before that wait has passed are all refused |
| `RateRace.FirstStoreIsFinal` | ratelimit/ratelimit.go:96-99 | after the first store, in every continuation, the entry stays and its call alone is granted |
| `RateRace.AloneIsAtomic` | ratelimit/ratelimit.go:92-109 | from any state, a call that runs alone is granted, and leaves the entry, as the atomic call does |
| `RateRace.InTurnIsAtomic` | ratelimit/ratelimit.go:92-109 | calls that run one after the other get the answers of the atomic limiter |
| `RateRace.EntryOfLastStore` | ratelimit/ratelimit.go:96-107 | after any run the entry is the expiry of the call that stored last, or the first entry if none did |
| `RateRace.AbsentKeyGrantsOne` | ratelimit/ratelimit.go:93-108 | from an absent key every finished interleaving grants exactly one call if and only if no call reads a time at or after the expiry another would store, be it over the interleavings that a clock allows or over all |
| `RateRace.LateCallIsGranted` | ratelimit/ratelimit.go:102-108 | otherwise some finished interleaving grants two, all calls reading the clock in time order before any of them goes on |
| `RateRace.StoredKeyKeepsWindow` | ratelimit/ratelimit.go:37-39 | from a stored entry and with a cooldown that is not negative, every finished interleaving keeps its grants the cooldown apart if and only if no two calls that read times at or after its expiry are closer than that, be it over the interleavings that a clock allows or over all |
| `RateRace.AbsentKeyKeepsWindow` | ratelimit/ratelimit.go:37-39 | from an absent key, if and only if no two calls closer than that both read times at or after the expiry that a third would store |
| `RateRace.StoredKeyGrantsAtMostOne` | ratelimit/ratelimit.go:101-108 | from a stored entry every finished interleaving grants no more than one call at all if and only if no two calls read a time at or after its expiry |
| `RateRace.StoredKeyGrantsSome` | ratelimit/ratelimit.go:101-108 | and each grants one at least if and only if some call reads such a time |
| `RateRace.ExpiredKeyCanGrantTwo` | ratelimit/ratelimit.go:71-72 | an input on which two grants are closer than the cooldown: two calls that read the same time; `StoredKeyKeepsWindow` has the exact condition |
| `EnvKeys.SameFragment` | itestkit/internal/stringutil/normalize.go:46-52 | two valid names have one fragment if and only if they are equal up to '-' and '_' |
| `EnvKeys.Collisions` | itestkit/env.go:21-53 | two variables of valid names get one key if and only if they are the same field of names equal up to '-' and '_', or a ClickHouse DSN and HTTP DSN whose fragments differ by a trailing "_HTTP" |
| `EnvExport.ExportEnv` | itestkit/env.go:21-53 | the six loops have written every variable of the stack, each key holding the value of a variable of that key; when no keys collide, each of the eleven fields of every instance is under its key, given rune by rune |
| `EnvExport.CompleteIsSpelled` | itestkit/env.go:11-20 | the same wherever every variable can be read back |
| `Text.JoinMore` | itestkit/env.go:37-40 | a list of brokers is joined by commas, one between any two |
| `EnvExport.CollisionFree` | itestkit/env.go:11-20 | no key is shared if and only if no two names of a family collide in one of those two ways |
| `EnvExport.ExportCompleteIffAgree` | itestkit/env.go:21-53 | every variable can be read back from the export if and only if variables that share a key agree |
| `EnvExport.OrderIndependentIffAgree` | itestkit/env.go:23-51 | the export is the same for all orders of iteration if and only if variables that share a key agree |
| `EnvExport.ExportSize` | itestkit/env.go:21-53 | the export has one entry for each field of each instance if and only if no two variables share a key, and fewer otherwise |

## Left out

- Scripts that are not valid UTF-8: a script is a sequence of Unicode scalar values, so Go's replacement of stray bytes does not occur.
- Case mapping outside ASCII: `ToLower` and `ToUpper` change ASCII letters only, which is all that file suffixes, language tags and valid instance names need.
- Backslash escapes and nested block comments in SQL: the splitter does not treat them, so neither does the grammar.
- Path cleaning, symbolic links and permissions: a path is absent, a file, a directory, or an error; a directory carries the text that joining puts before its entries.
- `PathOrder.SliceStable`: sorts by insertion; the library's own algorithm is not shown, but `StableOrderIsUnique` leaves a stable sort no other result.
- PostgreSQL scripts, which are executed whole, and the dropping of schemas and tables: a call each, with no order of statements to keep.
- `Migration.Servers.MigrateThenSeed`: the PostgreSQL phases between the ClickHouse ones are not in its log.
- `TemplateOrder.OrderFreeIffUntouched`: placeholders that can begin within another or within themselves; `ApartIsOrderFree` needs only the former, `OrderFreeIffJoined` has the rest where values make no placeholder.
- `TemplateJoin.OrderFreeIffJoined`: values that make a placeholder, and keys such as `a}{a` whose placeholder can begin within itself. Where placeholders overlap and values make them too, neither this condition nor that of `OrderFreeIffCoherent` is exact, as keys can agree on all texts by accident (`AccidentalAgreement`).
- `TemplateCoherence.OrderFreeIffCoherent`: assumes that no value can begin a placeholder, for the same reason; texts in which literals begin one are left to `OrderFreeIffJoined`.
- `Translation.Registry.ResolveMessage`: detail values are given as the text that formatting makes of them; details of another type are given as none.
- `Truncate.TruncatePostgres`: the limit of 63 bytes on identifiers and the character with code zero, which PostgreSQL treats specially, are not part of its reader.
- `StackLifecycle.StartStack`: the validation of HTTP mock providers, timeouts, images, credentials, addresses and log lines; the phases are sequences of calls that may fail, with the ClickHouse ones modelled in `Migration`.
- `StackLifecycle.StartOne`: preparation is one call that may fail in every family, and a failed run leaves no container.
- `StackLifecycle.Stack.Cleanup`: the registration with the test framework, which calls it once more when the test ends.
- The container families of ClickHouse, Redis, Kafka, HTTP mocks and LocalStack have the shape of PostgreSQL's and differ only in the number of lookups.
- `Readiness.ProbeBound`: scheduling and the mutex take no time, and pingers return within the lag once cancelled; `OverBy` shows that the wait has no bound without one on the lags.
- The JSON form of the readiness response.
- `RateLimit.WindowExclusion`: calls and evictions of single entries are single steps; finer interleavings are treated for one key without eviction in `RateRace`.
- `RateLimit.Limiter.Cleanup`: one pass at one time read at its start; the ticker and the overflow of times are not modelled.
- `ApplyEnv` and the connection-string maps of the test configuration, which copy fields.
- Identifier normalisation, pagination, decimals, null types, password hashing, logging, HTTP responses, mail, storage and token helpers: wrappers or one-branch facts.
