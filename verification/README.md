# Swan string extensions and application worker, in Dafny

This project models two sequential parts of the Unosquare Swan library and proves properties of the models.

1. The string extensions in `src/Unosquare.Swan/Extensions.Strings.cs` are modelled as pure functions over `seq<char>`:
   - control-character removal (`RemoveControlCharsExcept`, `RemoveControlChars`);
   - the two clamped substring helpers (`Slice`, `SliceLength`);
   - line splitting on `\r\n|\r|\n` (`ToLines`);
   - identifier humanising (`Humanize`);
   - multi-line indentation (`Indent`);
   - `ToOneCharString`.
2. The lifecycle of `src/Unosquare.Swan/Abstractions/AppWorkerBase.cs` is a state machine over an immutable record. The record holds:
   - `State` and `IsBusy`;
   - the cancelled flag of every `CancellationTokenSource` created by `Start`;
   - the phase of the worker task created with each source;
   - every `StateChanged` event fired;
   - every call of the two virtual hooks.

   `Initialize`, `Start`, `Stop` and the `State` setter are functions from one record to the next. The worker task's effects are four separate steps that may interleave with those calls: the scheduler starts the task's delegate, the delegate sets `IsBusy`, the user loop returns, and the user loop throws.

Files:
- `wrappers.dfy`: `Option` (`None` stands for `null`) and `Result` (`Failure` stands for a thrown exception).
- `primitives.dfy`: framework members the source calls without showing their code, written as explicit assumptions:
  - `Clamp`: the lower bound is checked first;
  - `char.IsControl`: Unicode category Cc;
  - `char.IsWhiteSpace`: the .NET list of white-space code points;
  - the ASCII regex classes `[a-z]` and `[A-Z]`;
  - `new string(c, n)`.
- `strings.dfy`: control characters, slicing and `ToOneCharString` (module `Strings`).
- `lines.dfy`: `ToLines`, `String.TrimEnd` and `Indent` (module `Lines`). `Environment.NewLine` is a parameter of `Indent`.
- `humanize.dfy`: `Humanize` (module `Humanizing`).
- `app_worker.dfy`: `AppWorkerBase` (module `AppWorker`).

In three places the code does something a reader might not expect; the model follows the code:
- When the user loop throws, the worker task cancels the token and records the hook call, but it does not set `State` back to `Stopped`. The worker keeps reporting `Running` until `Stop` is called.
- When the user loop returns normally, nothing else happens. `IsBusy` stays `true` until the token is cancelled.
- After `Stop` and a new `Start`, the task of the previous run may still be inside its loop. Two tasks can then be alive for one worker, because nothing waits for the old task to end.

## Model

| member | source | states |
|---|---|---|
| `Strings.RemoveControlCharsExcept` | src/Unosquare.Swan/Extensions.Strings.cs:135-143 | The result is a subsequence of the input. It holds every character that is not a control character or is listed in the exclusion list, each as often as in the input, and nothing else. A null exclusion list acts as an empty one. |
| `Strings.RemoveControlChars` | src/Unosquare.Swan/Extensions.Strings.cs:150-153 | Equals `RemoveControlCharsExcept` with an empty exclusion list. No control character remains, and every other character keeps its count. |
| `Strings.RemoveControlCharsIdempotent` | src/Unosquare.Swan/Extensions.Strings.cs:150-153 | Removing control characters twice gives the same result as removing them once. |
| `Strings.ExcludingMoreKeepsMore` | src/Unosquare.Swan/Extensions.Strings.cs:135-143 | A larger exclusion list never drops a character that a smaller one keeps. The smaller result is a subsequence of the larger one. |
| `Strings.Slice` | src/Unosquare.Swan/Extensions.Strings.cs:194-200 | Null gives `""`. Let `last = min(endIndex, Length-1)`. The result is `str[startIndex..last]` inclusive when `startIndex < last`, and `""` otherwise. Substring throws exactly when `startIndex` is negative and below `last`. A successful result never has length 1. |
| `Strings.SliceDropsSingleCharacter` | src/Unosquare.Swan/Extensions.Strings.cs:185-200 | `"abc".Slice(1, 1)` is `""`, although the documentation calls both indexes inclusive. |
| `Strings.SliceDiffersOnlyOnSingleCharacter` | src/Unosquare.Swan/Extensions.Strings.cs:194-200 | The original and the corrected slice differ exactly when the string is not null and the start equals `min(endIndex, Length-1)`, the one-character case. |
| `Strings.SliceInclusive` | src/Unosquare.Swan/Extensions.Strings.cs:185-200 | Corrected slice: for `0 <= start <= end < Length` it returns `str[start..end]` inclusive, so one index gives one character. It never throws for a non-negative start. |
| `Strings.SliceLength` | src/Unosquare.Swan/Extensions.Strings.cs:210-218 | Null gives `""`. For a non-empty string, let `k = min(max(start, 0), Length-1)`. The result is the substring at `k` of length `min(max(length, 0), Length-k)`. The empty string throws exactly when `start >= 0` and `length > 0`. A result is never longer than the string. |
| `Strings.SliceLengthThrowsOnEmpty` | src/Unosquare.Swan/Extensions.Strings.cs:210-218 | `"".SliceLength(0, 1)` throws `ArgumentOutOfRangeException`. |
| `Strings.SliceLengthSafe` | src/Unosquare.Swan/Extensions.Strings.cs:202-218 | Corrected `SliceLength`: it never throws and never returns more than the string. It returns the clamped substring for a non-empty string, `""` for the empty one, and agrees with the original wherever the original succeeds. |
| `Strings.ToOneCharString` | src/Unosquare.Swan/Extensions.Strings.cs:273-276 | A one-character string holding `c`. Removing control characters from it gives `""` exactly when `c` is a control character. |
| `Lines.ToLines` | src/Unosquare.Swan/Extensions.Strings.cs:225-229 | Null gives no lines. Any other text gives at least one line, and no line contains `\r` or `\n`. |
| `Lines.SplitAtBreaks` | src/Unosquare.Swan/Extensions.Strings.cs:22-24 | The split has one more piece than separators. Every separator is `\r\n`, `\r` or `\n`, and no piece holds a break character. |
| `Lines.SplitJoinRoundTrip` | src/Unosquare.Swan/Extensions.Strings.cs:225-229 | Joining the lines with the separators that were matched reproduces the text. |
| `Lines.SplitIsLineSplit` | src/Unosquare.Swan/Extensions.Strings.cs:22-24 | The split is a valid decomposition of the text: break-free pieces, pattern separators, a join that reproduces the text, and no lone `\r` directly followed by `\n`. |
| `Lines.LineSplitIsUnique` | src/Unosquare.Swan/Extensions.Strings.cs:22-24 | Any decomposition with those properties is the one `ToLines` produces. So `\r\n` is always one separator, taking priority over `\r`. |
| `Lines.LineCount` | src/Unosquare.Swan/Extensions.Strings.cs:225-229 | The number of lines is one more than the number of line ends: each `\n`, plus each `\r` not followed by `\n`. So `""` is one line. |
| `Lines.EmptyTextIsOneLine` | src/Unosquare.Swan/Extensions.Strings.cs:225-229 | `ToLines("")` is `[""]`. |
| `Lines.TrimEnd` | src/Unosquare.Swan/Extensions.Strings.cs:265 | The result is the longest prefix of the text that does not end in white space. Everything removed is white space. |
| `Lines.Indent` | src/Unosquare.Swan/Extensions.Strings.cs:252-266 | Null counts as `""`. A non-positive count returns the text unchanged. Otherwise the result is the block of indented lines, each followed by the new line, with trailing white space trimmed, so it never ends in white space. |
| `Lines.IndentedBlockSplitsBack` | src/Unosquare.Swan/Extensions.Strings.cs:257-263 | Take a positive count and a line-break new line. Splitting the untrimmed block gives back each line prefixed by exactly `spaces` blanks, followed by one empty line. |
| `Humanizing.ReplaceUnderscores` | src/Unosquare.Swan/Extensions.Strings.cs:26-28 | Same length as the input. Each `_` becomes a blank and every other character is kept. |
| `Humanizing.SplitCamelCase` | src/Unosquare.Swan/Extensions.Strings.cs:30-43 | The left-to-right regex replacement adds only blanks. Every other output character comes from the input. |
| `Humanizing.Humanize` | src/Unosquare.Swan/Extensions.Strings.cs:238-244 | Null gives `""`. The output never contains `_`. |
| `Humanizing.SplitCamelCaseSpelled` | src/Unosquare.Swan/Extensions.Strings.cs:30-43 | On underscore-free text, the regex scan equals the per-character spelling. `[a-z][A-Z]` matches can never overlap. |
| `Humanizing.HumanizeIsSpelled` | src/Unosquare.Swan/Extensions.Strings.cs:238-244 | `Humanize` equals the per-character spelling: each `_` becomes a blank, one blank follows each lower-case letter that precedes an upper-case one, and nothing else changes. |
| `Humanizing.HumanizeLength` | src/Unosquare.Swan/Extensions.Strings.cs:238-244 | The output length is the input length plus the number of `[a-z][A-Z]` positions. |
| `Humanizing.HumanizeExamples` | src/Unosquare.Swan/Extensions.Strings.cs:231-244 | `"aB"` becomes `"a B"` and `"a_b"` becomes `"a b"`. |
| `AppWorker.New` | src/Unosquare.Swan/Abstractions/AppWorkerBase.cs:14-34 | A new worker is `Stopped`, not busy, has no token and no cancellation pending, and has fired no event. |
| `AppWorker.SetState` | src/Unosquare.Swan/Abstractions/AppWorkerBase.cs:104-117 | Setting the current state changes nothing. A different value is stored and fires exactly one event carrying `(old, new)`. Nothing else changes. |
| `AppWorker.CancellationToken` | src/Unosquare.Swan/Abstractions/AppWorkerBase.cs:129 | On a valid worker, the default token exactly when `Start` has never succeeded. Otherwise it is the token of the source created by the latest successful `Start`. |
| `AppWorker.CancellationPending` | src/Unosquare.Swan/Abstractions/AppWorkerBase.cs:124 | Agrees with the token the `CancellationToken` getter returns: true exactly when that token is a source's token and reports cancellation, so false before the first start. On a valid stopped worker it is true exactly when `Start` has succeeded at least once. |
| `AppWorker.CancelSource` | src/Unosquare.Swan/Abstractions/AppWorkerBase.cs:46-51 | Cancelling a live source runs its callback once: `IsBusy` becomes false and `OnWorkerThreadExit` is called. Cancelling again does nothing. State and events are untouched. |
| `AppWorker.Initialize` | src/Unosquare.Swan/Abstractions/AppWorkerBase.cs:144-149 | Throws `InvalidOperationException` exactly when the worker is not `Stopped`. It never changes the worker. |
| `AppWorker.Start` | src/Unosquare.Swan/Abstractions/AppWorkerBase.cs:156-163 | When not `Stopped`, it throws and leaves everything unchanged. Otherwise it adds one uncancelled source and one scheduled task, becomes `Running`, and fires exactly `(Stopped, Running)`. It keeps the invariant. |
| `AppWorker.StartTwiceFails` | src/Unosquare.Swan/Abstractions/AppWorkerBase.cs:156-163 | A second `Start` without a `Stop` throws, and the worker stays `Running`. |
| `AppWorker.Stop` | src/Unosquare.Swan/Abstractions/AppWorkerBase.cs:169-176 | When not `Running`, it does nothing. Otherwise it cancels the current source, becomes `Stopped`, and fires exactly `(Running, Stopped)`. If that source was live, its callback clears `IsBusy` and records one `OnWorkerThreadExit`; if it was already cancelled, the hooks and `IsBusy` stay as they were. So `IsBusy` is false afterwards whenever it was set only while the source was live. |
| `AppWorker.TaskStarts` | src/Unosquare.Swan/Abstractions/AppWorkerBase.cs:53-73 | A task whose token is already cancelled when the scheduler picks it up never runs its delegate and just ends. Otherwise its delegate starts. Nothing else changes, including `IsBusy` and the hooks. |
| `AppWorker.TaskSetsBusy` | src/Unosquare.Swan/Abstractions/AppWorkerBase.cs:55 | The delegate sets `IsBusy` to true and enters the loop, whether or not its token has been cancelled since it started. Nothing else changes. |
| `AppWorker.StoppedWorkerStaysBusy` | src/Unosquare.Swan/Abstractions/AppWorkerBase.cs:46-60 | Start, the delegate starts, stop, then the delegate sets `IsBusy` and its loop returns. The worker ends `Stopped` and busy, with its only token cancelled and no task left. |
| `AppWorker.RestartClearsStuckBusy` | src/Unosquare.Swan/Abstractions/AppWorkerBase.cs:46-51 | From the stopped, busy worker of that trace, a later `Start` and `Stop` create and cancel a new source, and its callback clears `IsBusy`. |
| `AppWorker.TaskSetsBusyIfLive` | src/Unosquare.Swan/Abstractions/AppWorkerBase.cs:47-55 | Corrected step: the delegate enters the loop but sets `IsBusy` only if its token is still live. It keeps the invariant, and keeps `IsBusy` implying a live current source. |
| `AppWorker.LoopReturns` | src/Unosquare.Swan/Abstractions/AppWorkerBase.cs:57-60 | A normal return only ends the task. `State` and `IsBusy` stay as they are. |
| `AppWorker.LoopThrows` | src/Unosquare.Swan/Abstractions/AppWorkerBase.cs:61-72 | An `AggregateException` is ignored. Any other exception records one `OnWorkerThreadLoopException` call. If the current source is still live, the exception also cancels it, which clears `IsBusy` and records one `OnWorkerThreadExit`. Otherwise nothing else changes. `State` never changes. |
| `AppWorker.StaleFailureCancelsNewRun` | src/Unosquare.Swan/Abstractions/AppWorkerBase.cs:44-74 | After start, stop and restart, a failure in the first task's loop cancels the second run's token. The worker still reports `Running`. |
| `AppWorker.LoopThrowsOwnToken` | src/Unosquare.Swan/Abstractions/AppWorkerBase.cs:47-72 | Corrected failure handling: an `AggregateException` only ends the task. Any other exception records one `OnWorkerThreadLoopException` and cancels only the task's own source. If that source was live, its callback records one `OnWorkerThreadExit` and clears `IsBusy`; otherwise nothing else changes. No other source's flag changes. |
| `AppWorker.StaleFailureSparesCurrentRun` | src/Unosquare.Swan/Abstractions/AppWorkerBase.cs:65-72 | With the corrected handling, a failure in an earlier task leaves every token and `IsBusy` unchanged. |
| `AppWorker.IntendedStoppedIsIdle` | src/Unosquare.Swan/Abstractions/AppWorkerBase.cs:47-55 | With the two corrections, a worker reached by any interleaving from the constructor is never busy while `Stopped`. |
| `AppWorker.ReachableIsValid` | src/Unosquare.Swan/Abstractions/AppWorkerBase.cs:30-176 | Every interleaving of calls and task steps from the constructor keeps the invariant. Each start has one source and one task, only the last source can be live, a stopped worker has no live source, and the events form one history. It does not claim that a stopped worker is idle; see `AppWorker.StoppedWorkerStaysBusy`. |
| `AppWorker.EventsAlternate` | src/Unosquare.Swan/Abstractions/AppWorkerBase.cs:104-117 | Events alternate `(Stopped, Running)`, `(Running, Stopped)`, and so on. The worker is `Running` exactly when an odd number of events have fired. |

## Left out

- Hashing (`ComputeMD5`, `ComputeSha1`, `ComputeSha256`, `ComputeSha512`): thin wrappers over the framework's cryptography and UTF-8 encoding.
- `ToStringInvariant`, `ToJson` and `Stringify`: they depend on the library's type table and JSON formatter, which are not part of this model.
- `Strings.RemoveControlCharsExcept`: takes a non-null input. For a null input the source's LINQ call throws `ArgumentNullException`, and the model does not represent that case.
- Characters are Unicode scalar values, not UTF-16 code units. Lone surrogates cannot be represented. Lengths and indexes match .NET only for text in the Basic Multilingual Plane. None of the character predicates holds for a surrogate, so the filters agree with .NET on such text.
- Integer arguments are unbounded. On the paths that return a value, the arithmetic the source performs cannot overflow for 32-bit arguments. Where `Slice` throws, the length passed to `Substring` is irrelevant.
- Regex engine: only the behaviour of these three patterns is modelled (leftmost alternative first; a scan that resumes after each match). The regex options have no effect on them.
- `AppWorker.TaskStarts`: the moment the scheduler checks the token and the moment the delegate starts are one step. A `Cancel` that lands between them is ordered before or after the step, which matches the cases .NET allows.
- Concurrency machinery: the lock, task scheduling and the internals of `CancellationTokenSource`. The calls are modelled as atomic steps, and any interleaving of them is allowed.
- Logging (`.Debug`, `.Log`) and the bodies of the virtual hooks: each hook call is recorded in the log and nothing more.
- `Terminal.Interaction.cs`, `Extensions.WindowsServices.cs`, `Definitions.cs` and the tests: console I/O, Windows service reflection, code-page lookup and runtime queries. None of these is part of this model.

## Findings

| source | as written | input that shows it | evidently intended | confidence | as-written member | corrected member |
|---|---|---|---|---|---|---|
| src/Unosquare.Swan/Extensions.Strings.cs:194-200 | `if (startIndex >= endIndex)` returns `""` when the clamped end equals the start | `"abc".Slice(1, 1)` returns `""` | both indexes inclusive, so `"b"` | medium; not executed | `Strings.Slice` (shown by `Strings.SliceDropsSingleCharacter`) | `Strings.SliceInclusive` |
| src/Unosquare.Swan/Extensions.Strings.cs:210-218 | `Clamp(startIndex, 0, Length - 1)` gives -1 for `""`, then the length clamps to 1 | `"".SliceLength(0, 1)` calls `Substring(-1, 1)` and throws | clamp to safe values and return `""` | medium (depends on `Clamp` checking the lower bound first); not executed | `Strings.SliceLength` (shown by `Strings.SliceLengthThrowsOnEmpty`) | `Strings.SliceLengthSafe` |
| src/Unosquare.Swan/Abstractions/AppWorkerBase.cs:65-72 | the catch block cancels whichever source the field `TokenSource` holds when the loop fails | start, task 0 enters its loop, stop, start, task 1 enters its loop, then task 0's loop throws (for example from `ThrowIfCancellationRequested`): run 1 is cancelled and `IsBusy` cleared while `State` is `Running` | the failing task cancels only its own source | medium; not executed | `AppWorker.LoopThrows` (shown by `AppWorker.StaleFailureCancelsNewRun`) | `AppWorker.LoopThrowsOwnToken` |
| src/Unosquare.Swan/Abstractions/AppWorkerBase.cs:47-55 | the delegate sets `IsBusy = true` without checking its token, but the only code that clears `IsBusy` is the token's callback, which runs once | start, the delegate of task 0 starts, stop (its callback clears `IsBusy`), then the delegate sets `IsBusy` and its loop returns: the worker is `Stopped`, its token cancelled, and `IsBusy` stays `true` while the worker is stopped, until a later run's token is cancelled | a stopped worker is never busy | medium; not executed | `AppWorker.TaskSetsBusy` (shown by `AppWorker.StoppedWorkerStaysBusy`) | `AppWorker.TaskSetsBusyIfLive` (with `AppWorker.IntendedStoppedIsIdle`) |
