# La Matriu — class-interval exercise core, modelled in Dafny

La Matriu is a set of browser pages for a statistics course. This project models
the logic behind its class-interval exercise and the helpers that support it:

- **`intervals.dfy`** (`estadistica/js/intervals.js`). Module `Intervals` covers the
  exercise. Twelve random integers in [10, 70) are generated. From a start and an
  amplitude, five contiguous half-open intervals `[start + i·amp, start + (i+1)·amp)`
  are built. The student enters each interval's class mark, which is checked against
  the midpoint with a tolerance of 0.01. The page's module-level variables (`rawData`,
  `stats`, `currentIntervals`, `userMarks`) are the fields of the class
  `IntervalExercise`. Its methods are `generateNewData`, `clearIntervals`,
  `updateIntervals` and `validateMark`.
- **`core.dfy`** (`js/core.js`). Module `Core` holds the shared helpers:
  - API-key bookkeeping in local storage;
  - the exercise data, its timestamp and the per-exercise results in session storage
    (class `Store`), with the one-hour recency window;
  - `generateRandomData`, `calculateBasicStats` and `numbersEqual`;
  - the exercise id derived from the page path.
- **`chat.dfy`** (`js/gemini-ai.js`). Module `Chat` covers the tutor chat's
  bookkeeping:
  - the conversation history, which keeps only the last ten entries;
  - the exercise context;
  - the key gate in front of the remote call;
  - the key test that unlocks the chat panel.
- **`js_strings.dfy`**. Module `JsStrings` models the JavaScript string built-ins the
  core relies on: `trim`, `lastIndexOf`, `indexOf` and `replace` with a string
  pattern.
- **`wrappers.dfy`**. Module `Wrappers` defines `Option` (JavaScript's null-or-value)
  and `Result` (a value or a thrown error).

The model replaces the environment with inputs:

- The clock (`Date.now()`) is a parameter `now`, in integer milliseconds.
- The draws of `Math.random()` are a given sequence. Draws in [0, 1) are a hypothesis
  of the range properties.
- A parsed form field (`parseFloat` followed by `isValidNumber`) is an `Option<real>`.
  `None` stands for NaN or a non-finite value.
- The HTTP exchange with the language-model provider is an `ApiResponse`: either an
  error message or the reply text.
- Whether the page has the interval table is the constant `hasTable`. The input for
  mark `i` exists exactly when the table exists and `i` indexes a current interval,
  because `displayIntervals` creates one input per interval and `clearIntervals`
  removes them.
- Whether the browser accepts storage writes is the constant `Store.writable`. When
  `setItem` throws, the source catches the error and nothing is stored.

Numbers are `real`, so there is no floating-point rounding.

Two behaviours of the code are worth stating up front:

- A successful `updateIntervals` (estadistica/js/intervals.js:79-98) rebuilds the
  intervals but keeps the recorded marks. `displayIntervals` (126-153) redraws every
  mark input empty, so the kept marks are invisible. Yet `checkAllCorrect` (210-221)
  still counts them and announces "Tots els intervals són correctes". See Findings.
- `initExercise` (estadistica/js/intervals.js:19-26) always calls `generateNewData`.
  Nothing in this code calls `getExerciseData`, so a saved dataset is never restored.
  On load, `initCoreFunctions` (js/core.js:392) calls `hasRecentData` only to log a
  console message.

`hasApiKey` wants a stored key longer than 10 characters, while `saveApiKey` accepts a
trimmed key of exactly 10. So such a key is saved and then reported absent.
`Core.SavedKeyReportedIffLongerThanTen` states this as the code has it. Its only
effect in the code is a console message.

## Model

| member | source | states |
|---|---|---|
| `Intervals.GenerateIntervals` | estadistica/js/intervals.js:103-121 | the loop builds exactly the sequence `IntervalsFrom(start, amplitude, count)` |
| `Intervals.IntervalsFromShape` | estadistica/js/intervals.js:106-117 | `max(count, 0)` intervals; interval i has index i, lower bound start + i·amp, upper bound lower + amp and its midpoint as correct mark |
| `Intervals.IntervalsFromContiguous` | estadistica/js/intervals.js:107-108 | consecutive intervals meet: upper of i equals lower of i+1 |
| `Intervals.IntervalsFromOrdered` | estadistica/js/intervals.js:107-109 | for amplitude > 0 every mark lies strictly inside its interval and no interval reaches past the start of a later one |
| `Intervals.TwelveWideExample` | estadistica/js/intervals.js:93-118 | start 10, amplitude 12 give [10,22) … [58,70) with marks 16, 28, 40, 52, 64 |
| `Intervals.AllCorrectIffWithinTolerance` | estadistica/js/intervals.js:210-215 | when every recorded verdict matches its interval, the check holds iff there are intervals and every one has a recorded value strictly within 0.01 of its midpoint |
| `Intervals.StaleMarksCompleteExercise` | estadistica/js/intervals.js:79-98 | marks kept across an amplitude change let one new correct entry complete the check although stored values are far from the new midpoints |
| `Intervals.IntervalExercise.constructor` | estadistica/js/intervals.js:7-10 | the initial state: no data, stats {0,0,0}, no intervals, no marks |
| `Intervals.IntervalExercise.ClearIntervals` | estadistica/js/intervals.js:158-166 | with the table present, intervals and marks become empty; without it nothing changes |
| `Intervals.IntervalExercise.UpdateIntervals` | estadistica/js/intervals.js:79-98 | a missing start or amplitude, or amplitude ≤ 0, falls back to clearing; otherwise the five intervals are rebuilt and the marks are left as they were |
| `Intervals.IntervalExercise.UpdateIntervalsClearingMarks` | estadistica/js/intervals.js:79-98 | the same update with the marks cleared on rebuild; every recorded verdict then matches the shown intervals and the check is false |
| `Intervals.IntervalExercise.ValidateMark` | estadistica/js/intervals.js:175-205 | no input: nothing changes; unparsable value: mark i becomes null; valid value: mark i becomes {value, \|value − correctMark\| < 0.01}; every other mark is kept and verdicts stay consistent |
| `Intervals.IntervalExercise.CheckAllCorrect` | estadistica/js/intervals.js:210-222 | never true without intervals; when true and every recorded verdict matches its interval, every interval's value is within 0.01 of its midpoint |
| `Intervals.IntervalExercise.GenerateNewData` | estadistica/js/intervals.js:36-55 | twelve values from the draws, in [10, 70) for draws in [0,1); stats recomputed from them; table cleared; data and time saved when storage is writable |
| `Core.SavedKey` | js/core.js:20-28 | a key is stored exactly when it is present, non-empty and at least 10 characters once trimmed; what is stored is the trimmed key, which has at least 10 characters |
| `Core.Store.SaveApiKey` | js/core.js:20-33 | returns true iff the key passes the guard and storage is writable; then the slot `la_matriu_key` holds the trimmed key and no other local key changes; otherwise nothing changes |
| `Core.SavedKeyReportedIffLongerThanTen` | js/core.js:20-57 | a saved key is reported by `hasApiKey` iff its trimmed length exceeds 10, so a key of length exactly 10 is saved but reported absent |
| `Core.InjectedKeyIsReported` | js/core.js:54-67 | a key `isInjectedApiKey` accepts is one `hasApiKey` reports |
| `Core.Store.ClearApiKey` | js/core.js:39-48 | afterwards `getApiKey` is null and both key predicates are false; other local keys stay |
| `Core.IsRecent` | js/core.js:113-120 | false with no timestamp; otherwise true iff the timestamp is less than one hour (3,600,000 ms) before now |
| `Core.Store.HasRecentData` | js/core.js:113-120 | false when no timestamp is stored; otherwise true iff the stored timestamp is less than one hour before now |
| `Core.RecencyBoundary` | js/core.js:113-120 | data exactly one hour or two hours old is not recent; one millisecond under an hour is |
| `Core.Store.SaveExerciseData` | js/core.js:77-84 | when writable, the data and the time are stored and the data stays recent for the following hour; otherwise nothing changes |
| `Core.Store.ClearExerciseData` | js/core.js:103-107 | data, timestamp and results removed: no time makes the data recent and every exercise's results read as null |
| `Core.Store.SaveExerciseResults` | js/core.js:127-153 | when writable, entry `id` becomes the fields stamped with now (read back by `getExerciseResults`); every other id reads as before |
| `Core.GenerateRandomData` | js/core.js:169-194 | exactly `max(count, 0)` values, the i-th `floor(r_i·(max−min)+min)`; for draws in [0,1) and integer `min < max` each is an integer in [min, max) |
| `Core.DrawValueInRange` | js/core.js:182-187 | one floored draw with integer `min < max` is an integer in [min, max) |
| `Core.MinOf` | js/core.js:207 | the minimum is an element and bounds every element from below |
| `Core.MaxOf` | js/core.js:208 | the maximum is an element and bounds every element from above |
| `Core.CalculateBasicStats` | js/core.js:201-211 | {0,0,0} for no data; otherwise count is the length and min, max are elements bounding every element |
| `Core.NumbersEqual` | js/core.js:344-346 | equal iff `a` lies strictly inside (b − tolerance, b + tolerance) |
| `Core.NumbersEqualSymmetricStrict` | js/core.js:344-346 | the comparison is symmetric, and a difference of exactly the tolerance is not equal |
| `Core.GetCurrentExerciseId` | js/core.js:318-322 | the id never contains a `/` |
| `Core.ExerciseIdOfPage` | js/core.js:318-322 | the page `dir/name.html` has id `name` for any name holding neither `/` nor `.html` |
| `Core.LastSlashBeforeFile` | js/core.js:320 | in `dir/file` with no `/` in file, the last `/` is the one after `dir` |
| `Core.FirstHtmlIsSuffix` | js/core.js:321 | in `name.html`, with no `.html` in name, the first `.html` is the suffix |
| `JsStrings.TrimStart` | js/core.js:21 | drops only whitespace from the front, and the rest does not start with whitespace |
| `JsStrings.TrimEnd` | js/core.js:21 | drops only whitespace from the back, and the rest does not end with whitespace |
| `JsStrings.Trim` | js/core.js:21 | the result is no longer than the input and has whitespace at neither end |
| `JsStrings.TrimDropsOnlyEnds` | js/core.js:21 | `trim` removes whitespace at the two ends and nothing else: the result is the piece of `s` after a whitespace-only prefix and before a whitespace-only suffix |
| `JsStrings.TrimIdempotent` | js/core.js:21-27 | trimming an already trimmed key changes nothing |
| `JsStrings.LastIndexOf` | js/core.js:320 | −1 or the position of a `c` with no `c` after it |
| `JsStrings.IndexOf` | js/core.js:321 | −1 or the position of an occurrence with no occurrence before it |
| `JsStrings.ReplaceFirst` | js/core.js:321 | with no occurrence of the pattern the string is unchanged; otherwise the first occurrence, and only it, is replaced, and the length changes by \|rep\| − \|pat\| |
| `JsStrings.ReplaceFirstKeepsOut` | js/core.js:321 | replacing the first occurrence brings in no character absent from the string and the replacement |
| `Chat.PushBounded` | js/gemini-ai.js:36-39 | length `min(old + 1, 10)`; the new entry is last; the entries before it are the most recent old entries in their order |
| `Chat.PushTwiceEndsWithBoth` | js/gemini-ai.js:101-102 | after two pushes the two new entries end the history in push order and the history stays within 10 |
| `Chat.ChatSession.constructor` | js/gemini-ai.js:26-28 | empty history, no context |
| `Chat.ChatSession.AddToHistory` | js/gemini-ai.js:36-39 | the history becomes `PushBounded` of the old history and {role, content, now}, and never exceeds 10 entries |
| `Chat.ChatSession.InitExerciseContext` | js/gemini-ai.js:30-34 | the context becomes the given one and the history is empty |
| `Chat.ChatSession.BuildContextMessage` | js/gemini-ai.js:67-71 | with no context the message is `No hi ha context disponible.` |
| `Chat.ChatSession.CallGeminiAPI` | js/gemini-ai.js:77-108 | a null, empty or placeholder key fails with `API Key no configurada` before any request; an error response fails with its message; in both cases the history is unchanged; a reply is returned after the user message and then the reply are appended, in that order, each stamped with its own clock reading |
| `Chat.UnlockedKeyPassesGate` | js/gemini-ai.js:78-130 | a key that unlocks the chat passes the call gate and is reported by `hasApiKey`; a 15-character key passes the gate but leaves the chat locked |
| `Chat.RefreshChatUI` | js/gemini-ai.js:117-131 | unlocking implies the key passes the call gate and `hasApiKey` holds |

## Findings

| source | as written | input that shows it | evidently intended | confidence | as-written member | corrected member |
|---|---|---|---|---|---|---|
| estadistica/js/intervals.js:79-98 | a successful `updateIntervals` rebuilds `currentIntervals` but leaves `userMarks` as they were | marks 16, 28, 40, 52, 64 entered and judged correct for start 10, amplitude 12; amplitude then changed to 10; 15 entered for the first interval: `checkAllCorrect` is true although 28 is not the mark 25 of [20, 30) and the other inputs are empty | rebuilding the intervals clears the marks: `displayIntervals` (126-153) redraws every mark input empty, so marks that no longer show must not count toward the "Tots els intervals són correctes" verdict of `checkAllCorrect` (210-221) | not executed; high (read from the code) | `Intervals.StaleMarksCompleteExercise` | `Intervals.IntervalExercise.UpdateIntervalsClearingMarks` |

## Left out

- DOM and UI work is not modelled, because it is rendering rather than logic:
  - in core.js: `toggleElement`, `setValidationClass`, `clearValidations`, `showNotification` and the injected CSS;
  - in intervals.js: `displayData`, `displayIntervals`, `handleEnterKey`, and the success notification inside `checkAllCorrect`;
  - in gemini-ai.js: `addMessageToChat`, `handleUserMessage`, `saveKeyAndShowChat`, `sendUserQuery` and the event listeners.
- `updateGeminiContext` (intervals.js:231-246) is not modelled. In the code it runs after `generateNewData`, after a successful `updateIntervals`, and after a `validateMark` that records a parsed value. It does not run when the mark input is missing (line 178) or the value does not parse (183-187). Through `initExerciseContext` it also empties the chat history; the model does not capture that reset.
- Core.Store.GetExerciseResults, Core.Store.SaveExerciseResults, Core.Store.ClearExerciseData: ids that name properties inherited from `Object.prototype` (`constructor`, `toString`, `__proto__`, …) are not modelled. The code keeps results in a plain object from `JSON.parse` (js/core.js:129, 147). There `getExerciseResults('constructor')` returns a function even after `clearExerciseData`, and `saveExerciseResults('__proto__', …)` stores nothing. The model's map reads such ids as absent, or as the stamped entry after a save. Page names never take these values.
- Key lengths are counted in Unicode scalar values (Dafny's `|s|`), while JavaScript's `length` counts UTF-16 code units (js/core.js:21, 56, 66; js/gemini-ai.js:122). The 10- and 20-character thresholds of `Core.ApiKeyAccepted`, `Core.HasApiKeyValue`, `Core.IsInjectedKeyValue` and `Chat.ChatUnlocked` therefore differ from the code's for keys holding characters outside the Basic Multilingual Plane.
- The interval `notation` text (`[lower, upper)`) is not modelled: it is number-to-string formatting.
- `formatNumber` and `formatDataArray` are not modelled: they are floating-point formatting.
- `isValidNumber` and `parseFloat` are not modelled as such: a parsed value is an `Option<real>`.
- IEEE floating-point rounding is not modelled: numbers are `real`.
- Core.GenerateRandomData: models only integer mode (`allowDecimals` false, the only mode the exercise uses). The `toFixed` decimal branch and the defaults of the configuration object are left out.
- Core.Store.SaveExerciseData: writes both entries or neither. The code could store the data and then fail on the timestamp; that case is not modelled.
- JSON serialisation of the session-storage entries is not modelled, nor parse failures in `getExerciseData` and `getExerciseResults`. The entries are typed values.
- `getApiKey`, `hasApiKey`, `isInjectedApiKey`, `getExerciseData` and `getExerciseResults` are plain reads (`Core.Store.GetApiKey`, `HasApiKey`, `IsInjectedApiKey`, `GetExerciseData`, `GetExerciseResults`). Their behaviour is stated through the contracts of the methods that write the same entries.
- Chat.ChatSession.BuildContextMessage: states only the no-context sentence. The text for a present context is a template over the context's fields and is delegated to a `render` parameter.
- `buildSystemPrompt`, the `fetch` call, URL, request body and generation settings are not modelled: they are network I/O and free text. So are `helpType` and `userLevel`, which only shape the prompt. So is extracting the reply from the JSON response.
- Several chat requests in flight at once are not modelled: each call is atomic once its response is known.
- `initGeminiAI` is not modelled: it saves an injected deploy key, wires listeners and refreshes the panel. The same goes for `initCoreFunctions` (console messages only), `initExercise` (which is `generateNewData` followed by the context update) and the automatic start-up blocks.
- Navigation (`navigateToExercise`, `returnToMenu`) is not modelled: it is browser plumbing.
- The data-coverage check and "save results only on completion" are not modelled: neither appears in this code.
- assets/js/ui-components.js is not part of this model. It only builds HTML template strings.
