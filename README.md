# A verified model of the ANR watchdog repository's core logic

This Dafny project models five pieces of sequential logic from an Android
repository built around an ANR ("application not responding") watchdog.

- **Debug-log buffers** (`debug_info_collector.dfy`, module `DebugInfo`). The
  floating debug tool's collector keeps three bounded lists, each with its own
  capacity. Main-thread blocks are inserted at index 0 and trimmed from the
  tail, so they are kept newest first. CPU-usage snapshots, with the percentage
  clamped to 0..100, and UI interactions are appended and trimmed from the
  head, so they are kept oldest first. The capacity setters raise the value
  to at least 1 and re-trim at once. The collector is a class with `seq`
  fields. Its trimming loops are `while` loops proved against the functions
  `KeepFirst` and `KeepLast`. Lemmas fold any run of recordings into one
  closed form.
- **Watchdog lifecycle** (`anr_watchdog.dfy`, module `Watchdog`). A companion
  registry holds at most one watchdog. Fluent setters store their argument
  and return the receiver. `start` is guarded by the `running` flag, and
  `stop` interrupts the worker. Threads are modelled sequentially: every
  worker ever spawned is a `WorkerState`, and the worker's loop body is the
  step `Tick`. Callback invocations and log records are kept as traces. The
  class invariant gives at most one live worker.
- **Event log** (`dependency_analyzer.dfy`, module `DependencyAnalyzer`). An
  append-only list of `"[thread] event"` entries. `dump` returns the lines it
  would print: start marker, entries, end marker.
- **Patch-comment parser** (`patch_parser.dfy`, module `PatchParser`). This is
  the FlyCI Wingman bot's comment recogniser and its patch extractor. The
  global regular expression ```` /```(?:diff|patch)\n([\s\S]*?)```/g ```` is
  modelled as an explicit left-to-right scanner. Lemmas prove that the scanner
  finds the expression's leftmost match, with the shortest body. The extracting
  `while` loop, with its `lastIndex`, is proved against the function
  `PatchesFrom`.
- **Upload mock** (`appetize_upload.dfy`, module `AppetizeUpload`). The mock
  Appetize.io client of the upload tests. It validates a request with checks
  in a fixed order, each with its own message. It generates keys from a
  counter, and builds the app and embed URLs from the key.

Two shared modules support these. `optional.dfy` holds `Option`.
`decimal.dfy` holds Kotlin's 32-bit `Int` with its wrap-around, and decimal
rendering with a proof that it is injective.

Inputs the code takes from its environment are parameters of the model:

- the wall clock (`System.currentTimeMillis`);
- `Thread.activeCount()`;
- the name of the current thread;
- the callback and the `Application`, as identifiers.

A few details of the code decide the model where a plain reading might
differ:

- **Negative timeout.** The watchdog's setter accepts a negative timeout. The
  worker passes it to `Thread.sleep`, which throws `IllegalArgumentException`
  for a negative value. Only `InterruptedException` is caught, so the worker
  dies on its first sleep while `running` stays set, and a later `start` does
  nothing until `stop` is called. `Tick` models this. The watchdog's own
  test says only that a negative timeout is accepted and "may cause
  immediate wake" (anrwatchdog/src/test/kotlin/com/example/anrwatchdog/ANRWatchdogTest.kt:158).
  The model follows the code, and what happens after the uncaught exception
  is the plain JVM behaviour (see "Left out").
- **Interrupting a worker.** `stop` always interrupts the current worker. An
  interrupted worker therefore exits at its pending or next sleep, or when it
  finds `running` cleared, without calling the callback again.
- **Whitespace.** Kotlin's `isBlank` and JavaScript's `trim` use different
  whitespace sets; each is written out in full.
- **Logging.** `ANRWatchdog.kt` deliberately leaves out its `android.util.Log`
  import, so the file does not compile as it stands. The model uses the
  Android `Log` constants (VERBOSE 2 to ASSERT 7) that the code refers to.

## Model

| member | source | states |
|---|---|---|
| DebugInfo.CoerceAtLeast | demoapp/src/main/java/com/example/demoapp/debug/DebugInfoCollector.kt:32 | the capacity setters' `coerceAtLeast(1)`: the result is at least the minimum, equals the value when that is already large enough, and is the minimum otherwise |
| DebugInfo.CoerceIn | demoapp/src/main/java/com/example/demoapp/debug/DebugInfoCollector.kt:138 | `coerceIn(0f, 100f)`: the result lies in the range, is the value itself when the value is in range, and is the nearer bound otherwise |
| DebugInfo.KeepFirst | demoapp/src/main/java/com/example/demoapp/debug/DebugInfoCollector.kt:108-112 | what trimming from the tail leaves: a prefix of the buffer of length min(size, capacity) |
| DebugInfo.KeepLast | demoapp/src/main/java/com/example/demoapp/debug/DebugInfoCollector.kt:145-149 | what trimming from the head leaves: a suffix of the buffer of length min(size, capacity) |
| DebugInfo.Reverse | demoapp/src/main/java/com/example/demoapp/debug/DebugInfoCollector.kt:104 | the order `add(0, …)` leaves a run of insertions in: same length, element i is the (n-1-i)-th inserted |
| DebugInfo.KeepWithinCapacity | demoapp/src/main/java/com/example/demoapp/debug/DebugInfoCollector.kt:108-112 | a buffer already within its capacity is not changed by either trim |
| DebugInfo.PrependKeepsNewestFirst | demoapp/src/main/java/com/example/demoapp/debug/DebugInfoCollector.kt:98-112 | after inserting at index 0 and trimming, the new block is at index 0 and the earlier blocks follow in their order, shifted right, the oldest dropped when full |
| DebugInfo.AppendKeepsOldestFirst | demoapp/src/main/java/com/example/demoapp/debug/DebugInfoCollector.kt:141-149 | after appending and trimming from the head, the new element is last, preceded by the latest earlier elements in their order |
| DebugInfo.KeepFirstAbsorbs | demoapp/src/main/java/com/example/demoapp/debug/DebugInfoCollector.kt:108-112 | trimming after each front insertion drops exactly what one trim at the end would drop |
| DebugInfo.KeepLastAbsorbs | demoapp/src/main/java/com/example/demoapp/debug/DebugInfoCollector.kt:145-149 | trimming after each append drops exactly what one trim at the end would drop |
| DebugInfo.RecordAllFront | demoapp/src/main/java/com/example/demoapp/debug/DebugInfoCollector.kt:98-112 | the block buffer after a run of `recordMainThreadBlock` calls: each inserts at index 0 and trims to capacity; `RecordAllFrontIsNewestFirst` gives its closed form |
| DebugInfo.RecordAllBack | demoapp/src/main/java/com/example/demoapp/debug/DebugInfoCollector.kt:175-191 | an appending buffer after a run of `recordCpuUsage` or `recordUiInteraction` calls: each appends and trims from the head; `RecordAllBackIsFifo` gives its closed form |
| DebugInfo.RecordAllFrontIsNewestFirst | demoapp/src/main/java/com/example/demoapp/debug/DebugInfoCollector.kt:98-112 | any run of block recordings leaves the first `maxBlocks` of (new blocks newest first, then the old ones) |
| DebugInfo.RecordAllBackIsFifo | demoapp/src/main/java/com/example/demoapp/debug/DebugInfoCollector.kt:175-191 | any run of appending recordings (CPU snapshots, UI interactions) leaves the last `max` of (old entries, then the new ones in insertion order) |
| DebugInfo.Snapshot | demoapp/src/main/java/com/example/demoapp/debug/DebugInfoCollector.kt:135-143 | the stored snapshot's percentage always lies in 0..100, and is the given percentage when that is already in range |
| DebugInfo.BufferCounts | demoapp/src/main/java/com/example/demoapp/debug/DebugInfoCollector.kt:256-258 | the buffer-count entries of the general debug information are exactly the three keys |
| DebugInfo.BufferCountsReportSizes | demoapp/src/main/java/com/example/demoapp/debug/DebugInfoCollector.kt:256-258 | the three reported counts determine the three buffer sizes (the decimal rendering is injective) |
| DebugInfo.DebugInfoCollector.constructor | demoapp/src/main/java/com/example/demoapp/debug/DebugInfoCollector.kt:25-46 | empty buffers and capacities 20, 50 and 100; the invariant holds |
| DebugInfo.DebugInfoCollector.SetMaxBlocks | demoapp/src/main/java/com/example/demoapp/debug/DebugInfoCollector.kt:30-34 | stores max(value, 1), re-trims the blocks to the new capacity, leaves the other buffers and capacities unchanged, keeps the invariant |
| DebugInfo.DebugInfoCollector.SetMaxCpuSnapshots | demoapp/src/main/java/com/example/demoapp/debug/DebugInfoCollector.kt:36-40 | stores max(value, 1), re-trims the history from the head, leaves everything else unchanged, keeps the invariant |
| DebugInfo.DebugInfoCollector.SetMaxUiInteractions | demoapp/src/main/java/com/example/demoapp/debug/DebugInfoCollector.kt:42-46 | stores max(value, 1), re-trims the interactions from the head, leaves everything else unchanged, keeps the invariant |
| DebugInfo.DebugInfoCollector.RecordMainThreadBlock | demoapp/src/main/java/com/example/demoapp/debug/DebugInfoCollector.kt:98-106 | the blocks become the first `maxBlocks` of the new block followed by the old blocks; the new block is at index 0; nothing else changes; the size bound holds |
| DebugInfo.DebugInfoCollector.TrimMainThreadBlocks | demoapp/src/main/java/com/example/demoapp/debug/DebugInfoCollector.kt:108-112 | the loop that removes the last element leaves exactly the first `maxBlocks` blocks and touches nothing else |
| DebugInfo.DebugInfoCollector.GetRecentMainThreadBlocks | demoapp/src/main/java/com/example/demoapp/debug/DebugInfoCollector.kt:119-121 | returns the current blocks and changes nothing |
| DebugInfo.DebugInfoCollector.ClearMainThreadBlocks | demoapp/src/main/java/com/example/demoapp/debug/DebugInfoCollector.kt:126-128 | empties the blocks only |
| DebugInfo.DebugInfoCollector.RecordCpuUsage | demoapp/src/main/java/com/example/demoapp/debug/DebugInfoCollector.kt:135-143 | the history becomes the last `maxCpuSnapshots` of the old history plus the clamped snapshot, which is last; every stored percentage stays in 0..100; nothing else changes |
| DebugInfo.DebugInfoCollector.TrimCpuHistory | demoapp/src/main/java/com/example/demoapp/debug/DebugInfoCollector.kt:145-149 | the loop that removes index 0 leaves exactly the last `maxCpuSnapshots` snapshots and touches nothing else |
| DebugInfo.DebugInfoCollector.GetCpuUsageHistory | demoapp/src/main/java/com/example/demoapp/debug/DebugInfoCollector.kt:156-158 | returns the current history and changes nothing |
| DebugInfo.DebugInfoCollector.ClearCpuUsageHistory | demoapp/src/main/java/com/example/demoapp/debug/DebugInfoCollector.kt:163-165 | empties the CPU history only |
| DebugInfo.DebugInfoCollector.RecordUiInteraction | demoapp/src/main/java/com/example/demoapp/debug/DebugInfoCollector.kt:175-185 | the interactions become the last `maxUiInteractions` of the old ones plus the new one, which is last; nothing else changes |
| DebugInfo.DebugInfoCollector.TrimUiInteractions | demoapp/src/main/java/com/example/demoapp/debug/DebugInfoCollector.kt:187-191 | the loop that removes index 0 leaves exactly the last `maxUiInteractions` interactions and touches nothing else |
| DebugInfo.DebugInfoCollector.GetUiInteractions | demoapp/src/main/java/com/example/demoapp/debug/DebugInfoCollector.kt:198-200 | returns the current interactions and changes nothing |
| DebugInfo.DebugInfoCollector.ClearUiInteractions | demoapp/src/main/java/com/example/demoapp/debug/DebugInfoCollector.kt:205-207 | empties the UI interactions only |
| DebugInfo.DebugInfoCollector.ClearAllLogs | demoapp/src/main/java/com/example/demoapp/debug/DebugInfoCollector.kt:212-216 | empties all three buffers and keeps the capacities |
| DebugInfo.DebugInfoCollector.GeneralDebugInfoCounts | demoapp/src/main/java/com/example/demoapp/debug/DebugInfoCollector.kt:256-258 | each count entry is the decimal size of its buffer |
| Watchdog.TickInvocations | anrwatchdog/src/main/kotlin/com/example/anrwatchdog/ANRWatchdog.kt:50 | a completed sleep calls the current callback once, with the worker's thread, and calls nothing when no callback is set |
| Watchdog.TickLog | anrwatchdog/src/main/kotlin/com/example/anrwatchdog/ANRWatchdog.kt:51-53 | a completed sleep logs one record (DEBUG, "ANRWatchdog", "ANR detected (simulated)") exactly when `logLevel <= DEBUG` |
| Watchdog.InterruptWorker | anrwatchdog/src/main/kotlin/com/example/anrwatchdog/ANRWatchdog.kt:65 | `interrupt` leaves no worker live and leaves an interrupted or finished worker as it was |
| Watchdog.OnlyLastMayBeLiveCount | anrwatchdog/src/main/kotlin/com/example/anrwatchdog/ANRWatchdog.kt:42-66 | when no worker but the last is live, there is at most one live worker, and one exactly when the last is live |
| Watchdog.ANRWatchdog.constructor | anrwatchdog/src/main/kotlin/com/example/anrwatchdog/ANRWatchdog.kt:8-13 | timeout 5000, log level INFO, no callback, not running, no worker |
| Watchdog.ANRWatchdog.SetTimeout | anrwatchdog/src/main/kotlin/com/example/anrwatchdog/ANRWatchdog.kt:27-30 | stores the timeout verbatim (zero and negative too), returns the receiver, may change no other field |
| Watchdog.ANRWatchdog.SetLogLevel | anrwatchdog/src/main/kotlin/com/example/anrwatchdog/ANRWatchdog.kt:32-35 | stores the level verbatim, returns the receiver, may change no other field |
| Watchdog.ANRWatchdog.SetCallback | anrwatchdog/src/main/kotlin/com/example/anrwatchdog/ANRWatchdog.kt:37-40 | replaces the callback, returns the receiver, may change no other field |
| Watchdog.ANRWatchdog.Start | anrwatchdog/src/main/kotlin/com/example/anrwatchdog/ANRWatchdog.kt:42-61 | returns the receiver; when running, changes nothing; otherwise sets running and spawns exactly one live worker that becomes the current thread; afterwards at most one worker is live |
| Watchdog.ANRWatchdog.Stop | anrwatchdog/src/main/kotlin/com/example/anrwatchdog/ANRWatchdog.kt:63-66 | clears running and interrupts the current worker if any; before any start, or when already stopped, the workers are unchanged; afterwards no worker is live |
| Watchdog.ANRWatchdog.Tick | anrwatchdog/src/main/kotlin/com/example/anrwatchdog/ANRWatchdog.kt:46-53 | one completed sleep of a live worker appends the current callback's invocation, if any, and a log record iff `logLevel <= DEBUG`; a negative timeout kills the worker instead |
| Watchdog.ANRWatchdog.ExitOnInterrupt | anrwatchdog/src/main/kotlin/com/example/anrwatchdog/ANRWatchdog.kt:54-56 | an interrupted worker exits without invoking the callback and without logging |
| Watchdog.Companion.constructor | anrwatchdog/src/main/kotlin/com/example/anrwatchdog/ANRWatchdog.kt:16 | no instance yet |
| Watchdog.Companion.Initialize | anrwatchdog/src/main/kotlin/com/example/anrwatchdog/ANRWatchdog.kt:17-24 | the first call creates a default instance for the application, with empty invocation and log traces; later calls return the same instance with its configuration untouched |
| DependencyAnalyzer.Entry | src/main/kotlin/com/d7knight/anrwatchdog/DependencyAnalyzerV3.kt:34 | the entry is `[`, the thread name, `] `, then the event text verbatim |
| DependencyAnalyzer.EntryPreservesEvent | src/main/kotlin/com/d7knight/anrwatchdog/DependencyAnalyzerV3.kt:34 | the event text can be recovered from its entry, whatever it contains |
| DependencyAnalyzer.DumpLines | src/main/kotlin/com/d7knight/anrwatchdog/DependencyAnalyzerV3.kt:42-46 | the start marker, every entry in order, the end marker; an empty log gives exactly the two markers |
| DependencyAnalyzer.LogAll | src/main/kotlin/com/d7knight/anrwatchdog/DependencyAnalyzerV3.kt:33-35 | the log after a run of `logEvent` calls, one entry appended per call; `LogAllAppends` states what it holds |
| DependencyAnalyzer.LogAllAppends | src/main/kotlin/com/d7knight/anrwatchdog/DependencyAnalyzerV3.kt:25-35 | a run of `logEvent` calls only appends: the length grows by one per call, earlier entries stay in place, new entries are in call order |
| DependencyAnalyzer.LaterDumpExtendsEarlier | src/main/kotlin/com/d7knight/anrwatchdog/DependencyAnalyzerV3.kt:42-46 | a later dump begins with the start marker and every earlier entry, before the new entries, and is longer by the number of calls in between |
| DependencyAnalyzer.DependencyAnalyzerV3.constructor | src/main/kotlin/com/d7knight/anrwatchdog/DependencyAnalyzerV3.kt:25 | the log starts empty |
| DependencyAnalyzer.DependencyAnalyzerV3.LogEvent | src/main/kotlin/com/d7knight/anrwatchdog/DependencyAnalyzerV3.kt:33-35 | appends exactly the one entry and leaves the earlier entries as they are |
| DependencyAnalyzer.DependencyAnalyzerV3.Dump | src/main/kotlin/com/d7knight/anrwatchdog/DependencyAnalyzerV3.kt:42-46 | the loop emits the dump lines of the current log and modifies nothing |
| PatchParser.IndexOf | probot-app/index.js:128-133 | the first index at or after `from` where the pattern occurs, and none exactly when there is none |
| PatchParser.Includes | probot-app/index.js:128-133 | `includes` holds exactly when the pattern occurs somewhere |
| PatchParser.IsFlyciWingmanComment | probot-app/index.js:128-133 | holds iff the body contains "FlyCI Wingman" and contains "```diff" or "```patch" |
| PatchParser.TrimStart | probot-app/index.js:144 | the leading trim is a suffix that does not start with whitespace |
| PatchParser.TrimStartRemovesWhitespace | probot-app/index.js:144 | what the leading trim removes is all whitespace |
| PatchParser.TrimEnd | probot-app/index.js:144 | the trailing trim is a prefix that does not end with whitespace |
| PatchParser.TrimEndRemovesWhitespace | probot-app/index.js:144 | what the trailing trim removes is all whitespace |
| PatchParser.IsJsWhitespace | probot-app/index.js:144 | the characters `trim()` removes: ECMAScript white space and line terminators, written out |
| PatchParser.Trim | probot-app/index.js:144 | `trim()` neither starts nor ends with whitespace |
| PatchParser.TrimIsWhitespaceFreeSlice | probot-app/index.js:144 | the trimmed string is a slice of the original with only whitespace before and after it |
| PatchParser.TrimIdempotent | probot-app/index.js:144 | trimming a trimmed string changes nothing |
| PatchParser.TrimStartKeeps | probot-app/index.js:144 | a string not starting with whitespace is its own leading trim |
| PatchParser.TrimEndKeeps | probot-app/index.js:144 | a string not ending with whitespace is its own trailing trim |
| PatchParser.TrimEmptyIffWhitespace | probot-app/index.js:144-147 | a body trims to nothing exactly when it is whitespace only, so exactly those blocks are dropped |
| PatchParser.FindFence | probot-app/index.js:140 | the first closing fence at or after a position, and none exactly when there is none |
| PatchParser.FenceAgrees | probot-app/index.js:140 | the character-level fence test agrees with an occurrence of "```" |
| PatchParser.OpenerAt | probot-app/index.js:140 | the length of the opener "```diff" or "```patch" plus a line feed at a position, if there is one; `OpenerAgrees` ties it to the literal openers |
| PatchParser.OpenerAgrees | probot-app/index.js:140 | the character-level opener test agrees with an occurrence of "```diff\n" or "```patch\n" |
| PatchParser.MatchAt | probot-app/index.js:140 | the expression anchored at a position: a found match starts there, and its body lies after the opener and ends at a fence |
| PatchParser.MatchAtIsRegexMatch | probot-app/index.js:140 | the scanner's match at a position is exactly the expression's anchored match there: opener, shortest body, closing fence; and none when the expression does not match there |
| PatchParser.NextMatch | probot-app/index.js:140-143 | a found match starts at or after `lastIndex`, its body follows its opener, and the resume position is within the body text |
| PatchParser.NextMatchFound | probot-app/index.js:140-143 | a found match is the scanner's match at its start, and no match starts between `lastIndex` and there |
| PatchParser.NextMatchNotFound | probot-app/index.js:140-143 | when nothing is found, no match starts at or after `lastIndex` |
| PatchParser.NextMatchIsLeftmost | probot-app/index.js:140-143 | `exec` with `lastIndex`: the result is a match of the expression and the leftmost one; none exactly when the expression matches nowhere after `lastIndex` |
| PatchParser.OpenersFromMonotone | probot-app/index.js:140-143 | fewer openers remain from a later position |
| PatchParser.Resume | probot-app/index.js:143 | the `lastIndex` a global expression keeps after a match: just past its closing fence |
| PatchParser.PatchOf | probot-app/index.js:144-147 | one match yields at most one patch |
| PatchParser.PatchOfTrimmed | probot-app/index.js:144-147 | the patch of a match, if any, is non-empty and already trimmed |
| PatchParser.PatchesFrom | probot-app/index.js:138-151 | the patches of every match from a position on, in order, each scan resuming after the previous match; the lemmas beside it state its properties |
| PatchParser.PatchesAreTrimmed | probot-app/index.js:138-151 | every extracted patch is non-empty and already trimmed |
| PatchParser.NextMatchAtOpener | probot-app/index.js:140-143 | every match begins at an opener |
| PatchParser.OpenerCountStep | probot-app/index.js:140-143 | an opener at a match's start, before the resume position, counts one more opener from the scan position than from the resume position |
| PatchParser.PatchesBoundedByOpeners | probot-app/index.js:140-143 | matches do not overlap, so there are never more patches than openers |
| PatchParser.ExtractPatches | probot-app/index.js:138-151 | the `while (regex.exec(…))` loop returns exactly the trimmed, non-empty match bodies, in order of appearance |
| PatchParser.FenceWithoutLineFeedNoMatch | probot-app/index.js:140 | "```diff" or "```patch" not followed directly by a line feed starts no match |
| PatchParser.NoLineFeedNoPatches | probot-app/index.js:140 | a body without a line feed yields no patch |
| PatchParser.UnclosedOpenerNoPatches | probot-app/index.js:140 | an opener with no later closing fence yields no patch, nor does anything after it |
| PatchParser.WingmanCommentWithoutPatches | probot-app/index.js:128-151 | a comment can be a Wingman comment and still yield no patch, the case the bot reports as having no patches |
| Decimal.Increment | src/test/kotlin/com/d7knight/anrwatchdog/AppetizeUploadTest.kt:298-301 | `++idCounter` on a Kotlin `Int`: adds one, wrapping from the maximum to the minimum; never returns its argument |
| Decimal.NatToString | src/test/kotlin/com/d7knight/anrwatchdog/AppetizeUploadTest.kt:301 | the decimal rendering of a non-negative number: at least one character, all digits, denoting the number (`DigitsValue`), with no leading zero |
| Decimal.NatToStringOfDigitsValue | src/test/kotlin/com/d7knight/anrwatchdog/AppetizeUploadTest.kt:301 | the partner round trip: rendering the value of any digit string without leading zeros gives that string back |
| Decimal.IntToString | src/test/kotlin/com/d7knight/anrwatchdog/AppetizeUploadTest.kt:301 | `Int.toString()`: a minus sign exactly for negative numbers, followed by the decimal rendering of the magnitude, so the digits denote the absolute value |
| Decimal.NatToStringInjective | demoapp/src/main/java/com/example/demoapp/debug/DebugInfoCollector.kt:256-258 | distinct sizes render to distinct decimal strings |
| Decimal.IntToStringInjective | src/test/kotlin/com/d7knight/anrwatchdog/AppetizeUploadTest.kt:300-302 | distinct counter values render to distinct strings |
| AppetizeUpload.IsWhitespace | src/test/kotlin/com/d7knight/anrwatchdog/AppetizeUploadTest.kt:240-241 | the characters Kotlin's `isBlank` treats as whitespace on the JVM, written out |
| AppetizeUpload.IsBlank | src/test/kotlin/com/d7knight/anrwatchdog/AppetizeUploadTest.kt:240-241 | `isBlank`: empty or whitespace only; `ValidateApiToken` states its negation |
| AppetizeUpload.NotBlankWitness | src/test/kotlin/com/d7knight/anrwatchdog/AppetizeUploadTest.kt:240-241 | a single non-whitespace character makes a string not blank |
| AppetizeUpload.UploadRequest.IsValid | src/test/kotlin/com/d7knight/anrwatchdog/AppetizeUploadTest.kt:239-243 | `isValid`: path and token not blank and platform "android" or "ios"; `FirstFailure` and `UploadSucceedsIffValid` tie it to the upload's checks |
| AppetizeUpload.Failed | src/test/kotlin/com/d7knight/anrwatchdog/AppetizeUploadTest.kt:258-279 | a failure response: not successful, carrying the message, with the default empty key and URLs |
| AppetizeUpload.ValidateApiToken | src/test/kotlin/com/d7knight/anrwatchdog/AppetizeUploadTest.kt:294-296 | a token passes exactly when it holds a non-whitespace character |
| AppetizeUpload.FirstFailure | src/test/kotlin/com/d7knight/anrwatchdog/AppetizeUploadTest.kt:256-279 | checks token, then path, then platform, and gives the first failure's fixed message; none exactly when `isValid` holds |
| AppetizeUpload.GeneratedKey | src/test/kotlin/com/d7knight/anrwatchdog/AppetizeUploadTest.kt:300-302 | a generated key is "test_mock_" followed by the counter, so it starts with "test_" |
| AppetizeUpload.Uploaded | src/test/kotlin/com/d7knight/anrwatchdog/AppetizeUploadTest.kt:285-291 | a success response: the key, the app URL and the embed URL are the fixed prefixes followed by the key |
| AppetizeUpload.Upload | src/test/kotlin/com/d7knight/anrwatchdog/AppetizeUploadTest.kt:256-292 | `uploadApk` as a function of the request and the counter; the lemmas below state its cases |
| AppetizeUpload.UploadSucceedsIffValid | src/test/kotlin/com/d7knight/anrwatchdog/AppetizeUploadTest.kt:239-291 | an upload succeeds exactly when the request is valid, and otherwise carries the first failure's message |
| AppetizeUpload.UploadWithKeyKeepsKey | src/test/kotlin/com/d7knight/anrwatchdog/AppetizeUploadTest.kt:282-291 | a provided key is returned unchanged, with `isNewApp` false and the counter untouched |
| AppetizeUpload.UploadWithoutKeyCreatesApp | src/test/kotlin/com/d7knight/anrwatchdog/AppetizeUploadTest.kt:282-302 | without a key, the key generated from the advanced counter is returned with `isNewApp` true |
| AppetizeUpload.CounterAdvancesOnlyForNewApps | src/test/kotlin/com/d7knight/anrwatchdog/AppetizeUploadTest.kt:256-302 | the counter changes exactly on a successful upload without a key |
| AppetizeUpload.GeneratedKeysDistinct | src/test/kotlin/com/d7knight/anrwatchdog/AppetizeUploadTest.kt:298-302 | keys from different counter values differ, so successive generated keys are distinct |
| AppetizeUpload.MockAppetizeApi.constructor | src/test/kotlin/com/d7knight/anrwatchdog/AppetizeUploadTest.kt:298 | the counter starts at 0 |
| AppetizeUpload.MockAppetizeApi.GeneratePublicKey | src/test/kotlin/com/d7knight/anrwatchdog/AppetizeUploadTest.kt:300-302 | advances the counter first, then returns the key for its new value |
| AppetizeUpload.MockAppetizeApi.UploadApk | src/test/kotlin/com/d7knight/anrwatchdog/AppetizeUploadTest.kt:256-292 | the response and the new counter are those of the upload function on the old counter |

## Left out

- Threads and timing. `Thread` creation, the duration of `Thread.sleep`,
  interrupt latency and scheduling are not modelled, nor are the
  unsynchronised check-then-act races in `initialize` and `start`. Workers
  take discrete `Tick` and `ExitOnInterrupt` steps.
- Watchdog.ANRWatchdog.Tick: treats the sleep, the callback and the log line
  as one atomic step, so it does not model an interrupt that arrives between
  the end of the sleep and the callback.
- Exceptions thrown by the callback. No handler catches them, so such an
  exception would end the worker while `running` stays set. The model's
  callbacks always return.
- Uncaught exceptions follow plain JVM behaviour: only the worker thread
  ends. On Android the default uncaught-exception handler ends the whole
  process. The model does not capture process termination, so the states
  after a negative-timeout `Tick` are those of a plain JVM.
- `DebugProbes.install` and `enableCreationStackTraces` in `initialize` are
  calls into a coroutine debugging library. The Android log output itself is
  only recorded as `LogRecord`s.
- Watchdog.Companion.Initialize: the Kotlin companion `object` is modelled as
  an explicit `Companion` instance, and the private constructor as an
  ordinary Dafny constructor.
- JVM queries of the debug collector:
  - `getActiveThreads`;
  - every entry of `getGeneralDebugInfo` other than the three buffer counts
    (memory, processors, main-thread check);
  - `exportLogsToFile`, which is file I/O;
  - `formatTimestamp`, which depends on `SimpleDateFormat` and the default
    locale.
- The debug collector's `CopyOnWriteArrayList` thread safety. Every operation
  is one sequential step.
- Floating point. Kotlin `Float` values (CPU percentage, coordinates) are
  real numbers. NaN, infinities and rounding are not modelled; for a NaN
  percentage `coerceIn` would return NaN.
- DebugInfo.DebugInfoCollector.GeneralDebugInfoCounts: returns only the three
  buffer-count entries of the map `getGeneralDebugInfo` builds.
- Strings are sequences of Unicode scalar values, while both JavaScript and
  Kotlin strings are UTF-16. A character outside the Basic Multilingual Plane
  is one element here instead of two code units. This does not affect the
  ASCII markers searched for.
- Everything in the bot other than the two parsing functions: GitHub API
  calls, git operations, temporary directories, comment posting and workflow
  re-runs.
- `dump` printing to standard output. It returns its lines instead.
- The event log's thread-safe list and the thread-name lookup. The name is a
  parameter of `LogEvent`.
- The Android views, the coroutine and RxJava demonstration repositories, the
  duplicate `DependencyAnalyzerV3.kt` under `com/dknight`, whose escaped
  template logs a fixed text, and the build scripts. They contain no logic of
  the modelled core.
