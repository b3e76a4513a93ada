# Pane, modelled in Dafny

Pane is a desktop proxy for mobile traffic. This project models its protocol-like parts and proves
what they promise: the set-up of Android phones over adb, the `adb logcat` stream, the Logcat
window and the captures list with their guards and timers, the request limiter of the web service,
the small languages typed into its filter boxes, and the rule library with its files.

| module | what it models |
|---|---|
| `DeviceSetup`, `ReverseProbe`, `AndroidPlatform` | `add_usb`, `remove` and the probes: scripts of adb commands that fail or not, any number of calls at once, the lock per serial |
| `LogcatStream` | the stream task: back-off, connect, read, batch, reconnect |
| `LogcatLoader`, `CapturesList`, `Throttle` | re-query and paging under a sequence guard; throttles and debounce |
| `RateLimit` | the rolling window per address |
| `LogcatFilter`, `RulesFilter` | the two filter languages |
| `JsonLoose`, `Highlight`, `FilterHtml` | the tolerant JSON formatter and the coloured layers |
| `RuleNames` | names of generated rules |
| `PortFile`, `ReadableDump` | export, import and hand-written rule files |
| `Reorder` | drag and drop with writes for changed rows only |
| `Text`, `Decimal` | strings and decimal numbers |

Code that changes state in place is a class or a method with a loop. Its contract ties it to a
function of the old state, and the theorems are about runs of that function: every order of answers,
every interleaving of calls, every outcome of every command.

## What turned out not to hold

- A `remove` whose first command fails without effect strands a phone that points at Pane: the error
  is ignored and the tunnel is torn down anyway (`DeviceSetup.RemoveSafeExactly`,
  `DeviceSetup.StepStrandsExactly`).
- `probe_proxy_state` says that matching the port catches a stale tunnel. It does if and only if the
  port is not 8888, which every line of the listing spells, and its digits begin no other port's: 0
  and the ports from 6554 on (`ReverseProbe.StaleTunnelSeen`). A comment in
  `crates/pane-android/src/lib.rs` still gives the first device port 8888; the pool in
  `crates/pane-engine/src/registry.rs` starts at 8891, and for pool ports the probe is right.
- A line without newline at the end of the stream is parsed, except when a timer tick has moved bytes
  into the buffer since the last completed read: then exactly those bytes are lost
  (`LogcatStream.EofTail`, `LogcatStream.TailLost`).
- `loadOlder` takes the sequence number of a refresh that is still out, so that both answers are
  applied and rows go missing (`LogcatLoader.RaceLeavesGap`). The window is exact whenever no page
  is requested while the answer to the latest refresh is out.
- The limiter reads its clock before it takes the lock. With readings up to `d` out of order the
  bound holds for windows of length `window - d`, and for no longer ones
  (`RateLimit.WindowBoundTight`), except that a budget of one is exact under any skew
  (`RateLimit.SingleBudget`).
- The compiler does not always read two filter expressions side by side as both. Its tokens are those
  of both, for every second expression that starts with no white space but spaces and tabs, if and
  only if the first is white space only, or has balanced quotes and ends in no white space but spaces
  and tabs (`LogcatFilter.TrimmedForAll`; for one given pair `LogcatFilter.TrimmedExactly`). A line
  break in between stays in a token (`LogcatFilter.LineBreakExample`).
- An imported rule loses the type of its body when the body is empty, because the type lives in the
  body's row (`PortFile.MimeKeptExactly`, `PortFile.MimeLost`).
- In a hand-written file the rules at the top level come last but rank like those of a collection of
  priority 0; `ReadableDump.TriedAsWrittenExactly` says when the ranks alone give the written order,
  and `ReadableDump.NeverReversedExactly` when they at least never turn it round. The comment above
  that code gives `res_headers` as empty; the code reads `response.headers`, and so does the model.
- The Logcat filter's debounce is held back by a steady stream of calls
  (`Throttle.DebounceWaitsForQuiet`); the captures timer is not.
- `level:constructor` and `level:__proto__` are accepted, through properties that every JavaScript
  object inherits, and no row meets them; no other single value behaves so
  (`LogcatFilter.SingleLevelExactly`). Either name spoils a range in the same way
  (`LogcatFilter.LevelValueExactly`).

## Model

| member | source | states |
|---|---|---|
| DeviceSetup.AddPrefix | crates/pane-android/src/lib.rs:312-528 | behind any prefix of `add_usb` without load-bearing failure: the tunnel is mapped once its command ran, the proxy is set once its command ran, and a safe phone stays safe |
| DeviceSetup.AddEffects | crates/pane-android/src/lib.rs:312-513 | behind any part of `add_usb`, whatever its commands answered: exactly the settings and mappings whose commands took effect are made, and nothing else changes |
| DeviceSetup.AddCompletes | crates/pane-android/src/lib.rs:312-513 | with nothing failing, `add_usb` maps 8888, 8889 and 8890, sets the proxy and both PAC settings, puts the certificate on the phone and starts the companion app |
| DeviceSetup.ProxyComesLast | crates/pane-android/src/lib.rs:399-405 | all tunnels and the companion app come before the proxy |
| DeviceSetup.RemovePrefix | crates/pane-android/src/lib.rs:603-672 | what any prefix of `remove` has done to proxy and tunnel, whatever failed |
| DeviceSetup.RemoveEffects | crates/pane-android/src/lib.rs:603-673 | behind any part of `remove`: exactly the settings and mappings whose commands took effect are gone |
| DeviceSetup.RemoveSafeExactly | crates/pane-android/src/lib.rs:603-672 | a whole `remove` leaves a safe phone if and only if its first command took effect, the proxy was not ours, or the tunnel survived |
| DeviceSetup.RemoveCleans | crates/pane-android/src/lib.rs:603-673 | with nothing failing, `remove` clears the proxy, the two PAC settings and exactly the three mappings, and stops the companion app |
| DeviceSetup.StepKeepsLocks | crates/pane-android/src/lib.rs:186-192 | every step of any call keeps: a lock belongs to one running call, and its phone is where that call's script alone would have put it |
| DeviceSetup.OneCallPerDevice | crates/pane-android/src/lib.rs:186-192 | two running calls never share a serial |
| DeviceSetup.StepKeepsSafe | crates/pane-android/src/lib.rs:596-607 | for each phone by itself: every step of any call on any phone keeps it safe (proxy ours implies tcp:8888 mapped), if the clears on this phone work |
| DeviceSetup.StepStrandsExactly | crates/pane-android/src/lib.rs:669-672 | the only step that strands a safe phone is taking its tunnel away while the proxy is still ours |
| DeviceSetup.RunsKeepLocks | crates/pane-android/src/lib.rs:186-192 | mutual exclusion and atomicity over whole runs |
| DeviceSetup.SessionStart | crates/pane-android/src/lib.rs:176-182 | before the first call the lock invariant holds whatever state the phones are in, and a safe phone meets the safety invariant |
| DeviceSetup.RunsAreSafe | crates/pane-android/src/lib.rs:596-674 | from any point of any run at which a phone is safe it stays safe, whatever fails except the clears of `remove` on that phone |
| DeviceSetup.FinishedCalls | crates/pane-android/src/lib.rs:423-528 | in every run, also on a phone found stranded: a finished call has released its lock with the phone where its own commands put it; Ok means all its commands have run, an `add_usb` that returns it leaves the phone healthy for its port, and a `remove` that runs to its end always returns it |
| DeviceSetup.OnlyProbesSkip | crates/pane-android/src/lib.rs:222-226 | in every run only the two probes are turned away; `add_usb` and `remove` wait |
| DeviceSetup.SomeoneCanMove | crates/pane-android/src/lib.rs:186-192 | no deadlock: a call that is not done can go on, or the holder of its lock can |
| DeviceSetup.RepairLasts | crates/pane-android/src/lib.rs:312-528 | an `add_usb` that returns Ok makes even a stranded phone safe for the rest of the run, if later clears on it work |
| DeviceSetup.ProbeIsSnapshot | crates/pane-android/src/lib.rs:222-244 | an Ok probe reports one state, unchanged since it took the lock, with no other call on that phone |
| DeviceSetup.ProxyCheckIsSnapshot | crates/pane-android/src/lib.rs:254-260 | the same for the cheap check |
| DeviceSetup.StepKeepsTables | crates/pane-android/src/lib.rs:423-438 | for each phone: Pane's steps with pool ports keep its table to Pane's own mappings |
| DeviceSetup.RunsKeepTables | crates/pane-android/src/lib.rs:423-438 | so do whole runs |
| DeviceSetup.ProbeVerdict | crates/pane-android/src/lib.rs:222-244 | for pool ports the probe's verdict on a table of Pane's own mappings is true exactly of a healthy phone |
| DeviceSetup.ProbeVerdictInRuns | crates/pane-android/src/lib.rs:222-244 | in every run that hands out pool ports, an Ok probe's verdict is true exactly of a phone healthy at the moment the probe returns |
| DeviceSetup.UnlockedStrandsExactly | crates/pane-android/src/lib.rs:597-601 | without the lock, an `add_usb` between two commands of a `remove` strands the phone exactly at four of the eight places |
| ReverseProbe.BeginsOnlyItself | crates/pane-android/src/lib.rs:231-236 | the ports whose digits begin no other port's are 0 and those from 6554 on |
| ReverseProbe.ReverseUpExactly | crates/pane-android/src/lib.rs:228-236 | what the two substring tests on the listing decide, for every port |
| ReverseProbe.ProbeRightForPool | crates/pane-engine/src/registry.rs:19-29 | for a pool port they say whether 8888 leads to that port |
| ReverseProbe.StaleTunnelSeen | crates/pane-android/src/lib.rs:228-236 | a stale tunnel is told apart, whatever it leads to, if and only if the assigned port is not 8888 and is 0 or at least 6554 |
| ReverseProbe.StaleTunnelExample | crates/pane-android/src/lib.rs:228-236 | a stale tunnel that reads as up for port 8888 |
| ReverseProbe.StalePrefixExample | crates/pane-android/src/lib.rs:228-236 | one that reads as up for port 889 |
| AndroidPlatform.Platform.SerialLock | crates/pane-android/src/lib.rs:186-192 | one serial always gets one lock, different serials different ones |
| AndroidPlatform.Platform.DeviceProps | crates/pane-android/src/lib.rs:195-213 | a remembered answer is returned unchanged, a blank one is never remembered |
| AndroidPlatform.Platform.AddUsb | crates/pane-android/src/lib.rs:312-528 | runs up to the first load-bearing failure; Ok if and only if there was none; Ok means healthy; a safe phone stays safe; with nothing failing all of `AddCompletes` holds |
| AndroidPlatform.Platform.RemoveDevice | crates/pane-android/src/lib.rs:596-674 | runs all seven commands whatever they answer; safe stays safe if the clear took effect; with nothing failing all of `RemoveCleans` holds |
| AndroidPlatform.Stopped | crates/pane-android/src/lib.rs:423-472 | a failed `add_usb` ends right at the failing command and leaves a safe phone safe |
| AndroidPlatform.Completed | crates/pane-android/src/lib.rs:423-528 | one without load-bearing failure runs to its end and leaves a healthy phone |
| LogcatStream.PushLine | crates/pane-android/src/logcat.rs:289-300 | one line parsed into the batch, which is emitted when full |
| LogcatStream.Stream | crates/pane-android/src/logcat.rs:262-326 | the inner loop refines the state machine for one connection |
| LogcatStream.Spawn | crates/pane-android/src/logcat.rs:208-329 | the loop around it refines the state machine for every sequence of inputs |
| LogcatStream.LinesMeaning | crates/pane-android/src/logcat.rs:272-287 | the reference cut into lines: pieces make up the bytes and newlines end lines only |
| LogcatStream.StreamConserves | crates/pane-android/src/logcat.rs:260-326 | in every run, emitted entries of the connection and the pending batch are in order the parses of the completed lines; completed lines and buffer are the bytes read, however many ticks cut reads |
| LogcatStream.RunConserves | crates/pane-android/src/logcat.rs:208-329 | over whole runs and all their connections, told by the inputs alone: all entries handed over and then the pending batch are in order the parses of the lines that each connection completed |
| LogcatStream.HandsOver | crates/pane-android/src/logcat.rs:273-324 | a tick, the end of the stream, a read error and shutdown leave no batch behind: everything parsed so far is out |
| LogcatStream.ShutdownIsLast | crates/pane-android/src/logcat.rs:273-278 | shutdown ends the task |
| LogcatStream.EofTail | crates/pane-android/src/logcat.rs:274-285 | at end of file everything parsed is out; the unfinished line is parsed if and only if no tick has moved bytes since the last completed read, and otherwise exactly the moved bytes are lost |
| LogcatStream.TailLost | crates/pane-android/src/logcat.rs:274-285 | a run that loses a byte: connect, a tick that takes it, end of file |
| LogcatStream.TailKept | crates/pane-android/src/logcat.rs:272-301 | with one more byte read behind the tick both are parsed |
| LogcatStream.BatchSizes | crates/pane-android/src/logcat.rs:262-326 | no batch is empty or above max(1, batch_size) |
| LogcatStream.AttemptCountsFailures | crates/pane-android/src/logcat.rs:208-260 | the counter is the number of failures since the last connect |
| LogcatStream.BackoffSumClosed | crates/pane-android/src/logcat.rs:332-341 | the back-offs of a streak add up to 0.5, 1.5, 3.5 and 8.5 s, and 10 s for each further one |
| LogcatStream.SleepTimes | crates/pane-android/src/logcat.rs:212-230 | in every run the sleep behind the first failure in a row is 0.5 s, no sleep is shorter than the one before, and from the fifth on they are 10 s |
| LogcatStream.StreakHolds | crates/pane-android/src/logcat.rs:208-230 | the counter never exceeds max_reconnects + 1, the time waited is the sum of the back-offs, and nothing follows the error event |
| LogcatStream.GivesUpExactly | crates/pane-android/src/logcat.rs:212-230 | the error event comes exactly after the sleep behind failure number max_reconnects + 1 in a row, after 8.5 s + 10 s * (max_reconnects - 3) |
| LogcatLoader.Loader.StartRefresh | src/views/LogcatView.tsx:751-756 | whether a query is sent and under which number |
| LogcatLoader.Loader.FinishRefresh | src/views/LogcatView.tsx:764-774 | only the latest answer replaces the rows and re-arms paging |
| LogcatLoader.Loader.StartOlder | src/views/LogcatView.tsx:804-820 | when a page is requested, and before which row |
| LogcatLoader.Loader.FinishOlder | src/views/LogcatView.tsx:829-864 | drop, latch or prepend |
| LogcatLoader.QueryStretch | crates/pane-storage/src/logcat.rs:89-114 | the query answers a stretch of the matching rows that ends with the newest |
| LogcatLoader.OlderPageAt | crates/pane-storage/src/logcat.rs:121-148 | a page ends right before the given row, and a short one starts at the first survivor |
| LogcatLoader.StepKeepsInv | src/views/LogcatView.tsx:751-865 | every calm step keeps the window a gapless stretch and the latch honest |
| LogcatLoader.RunsKeepInv | src/views/LogcatView.tsx:751-865 | so does every calm run, under any order of answers, appends and pruning |
| LogcatLoader.WindowIsExact | src/views/LogcatView.tsx:794-865 | in every reachable state ids ascend strictly, all rows are stored matches, none between first and last is missing, and under `noMoreOlder` no survivor precedes the first |
| LogcatLoader.RefreshRound | src/views/LogcatView.tsx:751-774 | a refresh that is forced, or finds the window empty or at its end, asks unless the window is paused, and once answered shows the newest matches, 5000 at most; any other call does nothing |
| LogcatLoader.PageRound | src/views/LogcatView.tsx:804-864 | one page brings the rows right before the window, 2000 at most, and latches if and only if it was short |
| LogcatLoader.AnswersDropped | src/views/LogcatView.tsx:764-774 | failed and overtaken answers change nothing, and a dropped page gives the way free |
| LogcatLoader.AnswerStaysShown | src/views/LogcatView.tsx:751-865 | in every calm run the window ends with what the latest refresh found, until the answer to a later one arrives |
| LogcatLoader.PrependExactly | src/views/LogcatView.tsx:829-851 | prepending keeps the window gapless if and only if it still starts at the row the page was asked for |
| LogcatLoader.LatchExactly | src/views/LogcatView.tsx:833-839 | a page that is not empty leaves `noMoreOlder` honest; an empty one surely does if and only if the window starts no later than the row the page was asked for |
| LogcatLoader.RaceLeavesGap | src/views/LogcatView.tsx:813-851 | a run from an empty window, with one step against the side condition, that ends with a row missing |
| CapturesList.Captures.StartRefresh | src/views/CapturesView.tsx:365-374 | whether a request is sent and under which number |
| CapturesList.Captures.FinishRefresh | src/views/CapturesView.tsx:377-384 | only the latest answer is shown |
| CapturesList.LastIssuedWins | src/views/CapturesView.tsx:365-384 | shown numbers strictly increase; with nothing in flight the list is the last request's answer if that succeeded |
| CapturesList.AskedAndShown | src/views/CapturesView.tsx:365-384 | a call that is forced, or finds the list empty or following, asks unless paused, and its answer is shown; any other call does nothing |
| Throttle.TailThrottle.OnAppended | src/views/LogcatView.tsx:885-909 | a ping refreshes at once or marks the running window |
| Throttle.TailThrottle.OnTick | src/views/LogcatView.tsx:895-903 | the end of a window refreshes once more if it was marked |
| Throttle.TailThrottled | src/views/LogcatView.tsx:881-909 | refreshes are at least 120 ms apart and every tail ping has one within 120 ms |
| Throttle.RefreshHasPing | src/views/LogcatView.tsx:885-909 | every refresh is called by a tail ping, or at the end of a window for a tail ping that no refresh has served; a tail ping with no refresh in the last 120 ms is served at once |
| Throttle.Debouncer.DebouncedRefresh | src/views/CapturesView.tsx:526-536 | a call arms the timer or joins the one that runs, and force sticks |
| Throttle.Debouncer.OnTimer | src/views/CapturesView.tsx:530-534 | firing hands over the collected force and resets it |
| Throttle.ForceIsSticky | src/views/LogcatView.tsx:911-925 | a refresh is forced exactly when some call since the last one asked for it |
| Throttle.CapturesThrottled | src/views/CapturesView.tsx:510-535 | refreshes are at least a window apart, and every call has one within a window |
| Throttle.ThrottleFiresExactly | src/views/CapturesView.tsx:526-535 | the refresh comes exactly one window after the first call since the last |
| Throttle.DebounceWaitsForQuiet | src/views/LogcatView.tsx:916-925 | the Logcat timer fires exactly one wait after a call with none behind it |
| RateLimit.RateLimiter.PerMinute | apps/web/src/ratelimit.rs:21-27 | 60 s, the given budget, an empty table |
| RateLimit.RateLimiter.Check | apps/web/src/ratelimit.rs:32-43 | admits by the pruned vector's length, records the hit, leaves other addresses alone; the table is a function of the log of calls |
| RateLimit.HitsCount | apps/web/src/ratelimit.rs:34-37 | what the pruned vector holds against what was admitted |
| RateLimit.WindowBound | apps/web/src/ratelimit.rs:32-43 | with clock skew at most d, every window of length window - d holds at most max admitted hits |
| RateLimit.WindowBoundTight | apps/web/src/ratelimit.rs:33-36 | one nanosecond more is too much, for every skew and every budget of two or more, and for a budget of one with clocks in order |
| RateLimit.SingleBudget | apps/web/src/ratelimit.rs:35-41 | a budget of one holds for the whole window under any skew |
| RateLimit.RefusedExactlyWhenFull | apps/web/src/ratelimit.rs:38-40 | with clocks in order a call is refused if and only if the window is full |
| RateLimit.RefusedOnlyWhenFull | apps/web/src/ratelimit.rs:38-40 | with any skew a refusal means max admitted hits behind the cutoff |
| LogcatFilter.SplitValues | src/lib/logcat-filter.ts:96-111 | the loop computes the list of values with their negations |
| LogcatFilter.ReadValuesMembers | src/lib/logcat-filter.ts:96-111 | the list holds exactly the parts that read as values |
| LogcatFilter.LevelRangeMeaning | src/lib/logcat-filter.ts:113-135 | `level:lo..hi` accepts exactly the levels between, with open ends |
| LogcatFilter.LevelMeaning | src/lib/logcat-filter.ts:113-121 | `level:lo` accepts exactly that level |
| LogcatFilter.SplitDotsMeaning | src/lib/logcat-filter.ts:115 | the parts of a value, joined by `..`, are the value, and none holds `..` |
| LogcatFilter.LevelValueExactly | src/lib/logcat-filter.ts:113-135 | any value behind `level:` is accepted if and only if it has at most two parts, each a level, `constructor` or `__proto__` up to case, or left out of a range; an accepted one can meet a row if and only if both ends are levels, the lower not above the upper |
| LogcatFilter.SingleLevelExactly | src/lib/logcat-filter.ts:113-121 | a single value is accepted if and only if it names a level or is, up to case, `constructor` or `__proto__`; an accepted one can meet a row if and only if it names a level |
| LogcatFilter.LevelSpellings | src/lib/logcat-filter.ts:44-71 | every spelling of a level, in any case, accepts the rows of its number |
| LogcatFilter.TagMeaning | src/lib/logcat-filter.ts:203-206 | `tag:v` accepts exactly the rows whose tag contains `v` up to case, or fits it as a glob |
| LogcatFilter.MsgMeaning | src/lib/logcat-filter.ts:207-211 | `msg:v` and `message:v` do so with the message |
| LogcatFilter.PidMeaning | src/lib/logcat-filter.ts:228-242 | `pid:v` accepts exactly the rows of that process, and is an error if `v` is no number |
| LogcatFilter.WordMeaning | src/lib/logcat-filter.ts:186-192 | a word accepts exactly the rows whose tag or message contains it |
| LogcatFilter.RegexMeaning | src/lib/logcat-filter.ts:173-184 | `~re` accepts exactly the rows whose tag or message fits, or is an error |
| LogcatFilter.ListMeaning | src/lib/logcat-filter.ts:150-162 | a list by its single values: some positive one accepts, when there is one, and no negated one does; it compiles if and only if each of them does |
| LogcatFilter.ListError | src/lib/logcat-filter.ts:213-234 | a list that does not compile has the error of its first bad value |
| LogcatFilter.AppMeaning | src/lib/logcat-filter.ts:243-253 | `app:` terms accept every row and hand on their packages, each with its `!` |
| LogcatFilter.NegationExactly | src/lib/logcat-filter.ts:169-258 | `!t` fails like `t` and otherwise accepts exactly the other rows, unless `t` is an `app:` term or has no value, which accept all rows either way |
| LogcatFilter.ListOrderIrrelevant | src/lib/logcat-filter.ts:150-162 | lists with the same values in any order and number make the same filter |
| LogcatFilter.OuterInnerNegation | src/lib/logcat-filter.ts:169-258 | `!key:a,b` and `key:!a,!b` have the same errors and accept the same rows |
| LogcatFilter.NegatedValues | src/lib/logcat-filter.ts:150-162 | negating the alternatives one by one is negating their choice |
| LogcatFilter.Tokenize | src/lib/logcat-filter.ts:262-282 | the loop computes the tokens of the scanner |
| LogcatFilter.TokensJuxtapose | src/lib/logcat-filter.ts:262-282 | behind balanced quotes the tokens of two texts are the tokens of each |
| LogcatFilter.JuxtaposeExactly | src/lib/logcat-filter.ts:262-282 | tokenizing untrimmed text: one leaves every following one alone if and only if its quotes are balanced |
| LogcatFilter.TrimmedExactly | src/lib/logcat-filter.ts:284-288 | trimmed as the compiler does, `s1 s2` with balanced quotes in `s1` has the tokens of both if and only if the white space between them is spaces and tabs, or one is white space only |
| LogcatFilter.TrimmedForAll | src/lib/logcat-filter.ts:284-288 | it has them for every `s2` that starts with no other white space if and only if `s1` is white space only, or has balanced quotes and ends in no other white space |
| LogcatFilter.LineBreakExample | src/lib/logcat-filter.ts:284-298 | a row that two expressions accept and the two side by side do not |
| LogcatFilter.QuotedRoundTrip | src/lib/logcat-filter.ts:260-282 | quoting tokens and tokenizing gives them back |
| LogcatFilter.CompileLogcatFilter | src/lib/logcat-filter.ts:284-298 | the first error, or the atoms and packages of all tokens |
| LogcatFilter.CompileJuxtapose | src/lib/logcat-filter.ts:284-298 | under the condition of `TrimmedExactly` `s1 s2` fails when either does and otherwise is the conjunction, with the packages of both |
| LogcatFilter.ResolveAppPids | src/lib/logcat-filter.ts:319-343 | the loops compute the two sets |
| LogcatFilter.PidSelection | src/lib/logcat-filter.ts:300-343 | under the query's convention exactly those pids are selected that have a name containing the package of some positive term, when there is one that is not blank, and no name containing that of a negated one |
| LogcatFilter.MergePidNames | src/views/LogcatView.tsx:699-718 | the snapshot after a poll holds the old names and the new |
| LogcatFilter.IncludedForGood | src/views/LogcatView.tsx:600-619 | a pid once selected by a positive term stays selected in later snapshots |
| RulesFilter.ParseFilterTerms | src/lib/rules-filter.ts:72-91 | the loop computes the parsed terms |
| RulesFilter.ParsedNeedles | src/lib/rules-filter.ts:64-91 | every value searched for is non-empty and without white space |
| RulesFilter.WordMeaning | src/lib/rules-filter.ts:64-91 | what `tag:a,b`, `a,b` and a bare `tag:` stand for |
| RulesFilter.ParseJuxtapose | src/lib/rules-filter.ts:72-91 | two queries side by side are the terms of both |
| RulesFilter.FilterConjunction | src/lib/rules-filter.ts:120-134 | `s1 s2` finds exactly the rules that each finds |
| RulesFilter.HaystackContains | src/lib/rules-filter.ts:94-118 | no match of such a value spans two fields |
| RulesFilter.RuleFilterMeaning | src/lib/rules-filter.ts:122-134 | a rule matches if and only if every term has a value within one field |
| RulesFilter.CollectionFilterMeaning | src/lib/rules-filter.ts:136-150 | the same for a collection's name and tags |
| RulesFilter.PlainQueryFinds | src/lib/rules-filter.ts:100-134 | a plain value finds exactly the rules that hold it in name, method, host, path, a parameter or a tag, or in the name or a tag of their collection |
| RulesFilter.PlainQueryFindsCollections | src/lib/rules-filter.ts:136-150 | and the collections that hold it in name or tag |
| RulesFilter.TokensAreTokens | src/components/Tags.tsx:21-26 | the editor's tags are non-empty and free of separators |
| RulesFilter.TagsSplit | src/components/Tags.tsx:21-26 | a separator ends a tag: what stands on its two sides is split by itself |
| RulesFilter.JoinedTags | src/components/Tags.tsx:21-26 | tags typed with any separator between them are split into exactly these tags |
| RulesFilter.TagQueryParses | src/views/RulesView.tsx:360-363 | `tag:` and such a tag is one keyed term |
| RulesFilter.TokensAreAddressable | src/views/RulesView.tsx:360-363 | that query finds exactly the rules and collections with a tag that contains it, so all that carry it |
| RulesFilter.AddTags | src/components/Tags.tsx:33-43 | old tags first, every newcomer present, none spelled like an earlier one but for case |
| RulesFilter.AddedDistinct | src/components/Tags.tsx:28-32 | the result has no two spellings of one tag if the list had none |
| JsonLoose.FormatJsonLoose | src/views/LogcatView.tsx:197-242 | the loop computes the formatting function |
| JsonLoose.FormatKeepsContent | src/views/LogcatView.tsx:190-242 | for every text, broken ones too, only white space outside strings changes, and it does not influence the result |
| JsonLoose.FormatIdempotent | src/views/LogcatView.tsx:197-242 | formatting twice is formatting once |
| JsonLoose.FormatCanonical | src/views/LogcatView.tsx:197-242 | two texts format alike if and only if they differ in such white space only |
| JsonLoose.IndentIsDepth | src/views/LogcatView.tsx:190-203 | on every line of every result the indentation is two spaces per open bracket |
| JsonLoose.WhiteSpacePlaced | src/views/LogcatView.tsx:212-238 | line breaks stand behind opening brackets and commas and before closing ones, one space behind colons, and no other white space outside strings |
| JsonLoose.JsonIsPretty | src/views/LogcatView.tsx:190-242 | every well-formed JSON text, however it is spaced, is laid out as the tree of its value is: one part on a line, two spaces for each level |
| JsonLoose.StringStays | src/views/LogcatView.tsx:204-211 | a string literal comes out as it went in, whatever escapes it holds |
| Highlight.DetailMatches | src/views/LogcatView.tsx:306-318 | the offsets are those of a greedy search that leaves nothing behind its last match |
| Highlight.HighlightSearch | src/views/LogcatView.tsx:155-189 | the pieces read as the text and the trailer; the marks are those offsets, and the active one is number `current` |
| Highlight.MatchesDetermined | src/views/LogcatView.tsx:306-318 | a search has one answer, so marks and offsets agree |
| Highlight.MatchesMeaning | src/views/LogcatView.tsx:162-185 | offsets are occurrences, do not overlap, and leave out only occurrences that overlap a listed one |
| Highlight.EmptyQueryStalls | src/views/LogcatView.tsx:164-185 | for an empty query the search would never advance |
| FilterHtml.EscapeOnePass | src/views/LogcatView.tsx:2369-2375 | the four replacements equal a one-pass escape |
| FilterHtml.UnescapeEscape | src/views/LogcatView.tsx:2369-2375 | unescaping undoes escaping |
| FilterHtml.RunsMeaning | src/views/LogcatView.tsx:2380-2382 | the cut into maximal runs of white space and text, which make up the text |
| FilterHtml.KeyEndMeaning | src/views/LogcatView.tsx:2397-2398 | where the key pattern matches |
| FilterHtml.BuildLogcatFilterHtml | src/views/LogcatView.tsx:2377-2420 | the loop renders the parts of the text |
| FilterHtml.ReadRendered | src/views/LogcatView.tsx:2377-2420 | rendered parts read back as their texts, and the only tags are their spans |
| FilterHtml.LogcatHtmlReadsBack | src/views/LogcatView.tsx:2377-2420 | stripping tags and unescaping gives exactly the text, for every text |
| FilterHtml.KeyColourIsVerdict | src/views/LogcatView.tsx:2400-2403 | a key is coloured as known if and only if the compiler does not reject it |
| FilterHtml.KeyValueClasses | src/views/LogcatView.tsx:2384-2413 | the colours of `key:value`, with or without `!` in front of either |
| FilterHtml.WordClasses | src/views/LogcatView.tsx:2384-2416 | the colours of patterns and words |
| FilterHtml.TokenizeForHighlight | src/views/CapturesView.tsx:2513-2539 | the loop computes the parts |
| FilterHtml.CapturePartsReadBack | src/views/CapturesView.tsx:2499-2539 | the parts make up the text, character for character |
| FilterHtml.CaptureClasses | src/views/CapturesView.tsx:2521-2534 | the colours of `key:value` in the captures box |
| FilterHtml.CaptureWordClasses | src/views/CapturesView.tsx:2535-2537 | any other token has the colour of text, its `!` too |
| RuleNames.CandidatesDistinct | src/lib/rule-names.ts:25-26 | candidates with different numbers differ even after truncation |
| RuleNames.CandidateFits | src/lib/rule-names.ts:13-26 | a candidate fits the budget if and only if its suffix does |
| RuleNames.CandidateShows | src/lib/rule-names.ts:13-26 | a candidate is the name and its number in parentheses, the name cut at its end as far as the budget asks |
| RuleNames.UniqueNameDetermined | src/lib/rule-names.ts:16-31 | the description of the answer fits one name only |
| RuleNames.NamePool.UniqueRuleName | src/lib/rule-names.ts:21-31 | ends within one more round than there are names in use, with the first free candidate, and records it; at most 120 characters if the name is and the suffix fits |
| RuleNames.AddRulesFor | src/views/CapturesView.tsx:1131-1156 | all names of one batch differ, and every saved capture has one derived from its own |
| PortFile.NormaliseCoreTwice | crates/pane-storage/src/lib.rs:209-225 | what the store keeps is left alone when written again |
| PortFile.TagsKept | crates/pane-storage/src/lib.rs:205-225 | of the tags all that are not blank are kept up to case, in their first spellings, and nothing else |
| PortFile.Backend.UpsertCollection | crates/pane-storage/src/lib.rs:947-981 | a new row under an unused id, or none; an error may hide a written row |
| PortFile.Backend.UpsertRule | crates/pane-storage/src/lib.rs:1176-1318 | the same for a rule and its body; new rules are live everywhere |
| PortFile.BuildLibraryExport | src/lib/rules-portfile.ts:190-207 | the loop computes the library file |
| PortFile.ImportCollections | src/lib/rules-portfile.ts:463-474 | rows for the first entries and the map of their references, up to the first error |
| PortFile.ImportRules | src/lib/rules-portfile.ts:476-502 | rows for the first rules, each in the group its reference maps to |
| PortFile.ApplyImport | src/lib/rules-portfile.ts:460-505 | succeeds if and only if every call does, with the right counts; in any case older rows are untouched and only copies of the first entries came along |
| PortFile.LandedNormal | crates/pane-storage/src/lib.rs:1203-1224 | an import keeps all rows in the store's normal form |
| PortFile.ImportSays | src/lib/rules-portfile.ts:476-502 | an imported rule says what the file says, field by field, whoever wrote the file |
| PortFile.ImportSaysOfCollections | src/lib/rules-portfile.ts:463-474 | so does an imported collection |
| PortFile.ImportedCopy | src/lib/rules-portfile.ts:115-139 | an imported library is a copy: same collections, same rules field by field, grouped alike under new ids, ungrouped if the collection is not in the file |
| PortFile.MimeKeptExactly | src/lib/rules-portfile.ts:100-111 | the body's type survives if and only if the body is not empty or had none |
| PortFile.MimeLost | src/lib/rules-portfile.ts:100-111 | a library for which it does not |
| PortFile.RanksKept | crates/pane-storage/src/lib.rs:1840-1845 | a library's copies have the ranks (collection priority, own priority) of the originals |
| PortFile.TriedOrderKept | crates/pane-storage/src/lib.rs:1840-1845 | by rank and then by creation time, no two copies are tried the other way round than their originals |
| ReadableDump.ReadableDumpToPortFile | src/lib/rules-portfile.ts:378-421 | which rules a document yields, from which places, and when it is refused or throws |
| ReadableDump.WrittenReadsBack | src/lib/rules-portfile.ts:332-371 | a rule written in the documented form is read as that rule |
| ReadableDump.DumpReadsBack | src/lib/rules-portfile.ts:378-421 | a whole file written in the documented form is read as what was written: collections in order, then their rules and those of the top level, numbered by position; without rules it is refused |
| ReadableDump.TopLevelExactly | src/lib/rules-portfile.ts:276-285 | at the top level exactly the entries with an object under `match` or `response` are rules |
| ReadableDump.MissingFields | src/lib/rules-portfile.ts:332-398 | what a rule and a collection that say nothing are read as |
| ReadableDump.BodyForms | src/lib/rules-portfile.ts:341-348 | a body is taken in base64, as text or as JSON, in this order |
| ReadableDump.ImportedRank | src/lib/rules-portfile.ts:460-505 | importing any file gives its rules the ranks the file speaks of |
| ReadableDump.RankIsPlace | src/lib/rules-portfile.ts:385-402 | the rank of a rule is its place in the document |
| ReadableDump.WrittenOrder | src/lib/rules-portfile.ts:385-409 | within collections, and within the top level, rules are tried as written |
| ReadableDump.TriedAsWrittenExactly | src/lib/rules-portfile.ts:394-409 | the ranks alone give the written order of the whole document if and only if no top-level rule clashes with a grouped one; ties count as failure |
| ReadableDump.NeverReversedExactly | src/lib/rules-portfile.ts:394-409 | they never turn it round, ties being left to creation time, if and only if no clash is more than a tie |
| Reorder.InsertedIsMove | src/views/RulesView.tsx:1163-1167 | the new order is a permutation with the dragged entry next to the target and all others in their old order |
| Reorder.MoveDetermined | src/views/RulesView.tsx:1163-1167 | no other order is |
| Reorder.MoveKeepsOrder | src/views/RulesView.tsx:1163-1167 | any two entries but the dragged one stand after a move as they stood before |
| Reorder.WriteChanged | src/views/RulesView.tsx:1168-1175 | writing the changed rows only, landing in any order, equals a full renumbering |
| Reorder.ReorderCollection | src/views/RulesView.tsx:1184-1201 | renumbers the collections in the new order, or changes nothing |
| Reorder.RuleStore.ReorderRule | src/views/RulesView.tsx:1145-1177 | nothing, a move to the other collection, or a renumbered section, and nothing else changes |
| Reorder.ListedAsWritten | crates/pane-storage/src/lib.rs:1117-1121 | listing the section by its new numbers shows exactly the written order, however ties are broken |
| Reorder.DragShows | src/views/RulesView.tsx:1145-1177 | after a drag the rules of the section are listed with the dragged one next to the target and any two others in the order of the screen, and no rule outside the section changes its number |

## Left out

- Strings are sequences of UTF-16 units; lower-casing maps one unit to one unit, so letters whose lower case is longer are not covered. White space is JavaScript's, also where Rust trims.
- Regular expressions, `*` globs, `parseInt`, `JSON.parse` and `JSON.stringify`, base64 and UTF-8 decoding are opaque parameters.
- adb, processes, files, SQLite, IPC and HTTP are not modelled: a command succeeds or fails, with or without effect; a query answers as its contract says.
- An adb command that reports success is taken to have had its effect. Unplugging, reboots and what the helper app does on the phone are environment. Putting the certificate on the phone (into the system store, or as a file on a phone without root) and installing, granting and starting the helper are one command each.
- DeviceSetup.RunsAreSafe: assumes that the clear of each `remove` on the phone in question takes effect, because the source ignores its error; DeviceSetup.StepStrandsExactly covers the rest.
- RateLimit.RateLimiter.Check: does not model the panic of `Instant` subtraction on a clock younger than the window, because times are integers.
- LogcatStream.Spawn: leaves the flush deadline out, because a tick may come at any time.
- `parse_logcat_line` and lossy decoding are one opaque function of the line's bytes.
- LogcatFilter.CompileJuxtapose: goes one way, because different tokens can make the same filter or fail alike; the tokens are treated both ways.
- LogcatLoader.WindowIsExact: assumes that no older page is requested while the answer to the latest refresh is out, because the claim is false otherwise (LogcatLoader.RaceLeavesGap).
- The rows ever stored are taken to ascend in id, and retention to drop the oldest of them. The table reuses ids once retention has emptied it (crates/pane-storage/migrations/V010__logcat.sql:7), and the age sweep goes by creation time, so that it drops the oldest only while the wall clock does not step back (crates/pane-storage/src/logcat.rs:259-275).
- The loader is modelled for a fixed filter and fixed PID sets, without clearing. The pending-rows badge, error messages and scroll anchoring are left out.
- Throttle.TailThrottled: assumes timers run when due, because lateness has no bound in the source.
- Highlight.HighlightSearch: asks for a non-empty query, as its caller ensures.
- ReadableDump.ReadableDumpToPortFile: numbers are whole and payload lists are carried as their JSON text.
- PortFile.ImportedCopy: body bytes are their base64 text as the lookup returns it, and a content encoding is not modelled.
- `validatePortFile`, `parseImportFile` and the single-rule and single-collection exports would only add easy members.
- Reorder.RuleStore.ReorderRule: every write succeeds, because a failed one leaves the list to the next refresh.
- Reorder.RuleStore.MoveRule: states the group only, because the source writes the other fields back as it read them.
- Creation times are parameters of PortFile.TriedOrderKept only; among rows of equal rank made within one second the store has no order, and the model none.
- ReadableDump.TriedAsWrittenExactly: counts a tie of ranks as failure, because creation time does not settle ties within one second.
- ReverseProbe.StaleTunnelSeen: takes serials that do not spell a port themselves, as adb's do not.
- Markup classes, drag events, translations, stores and styling are left out.
