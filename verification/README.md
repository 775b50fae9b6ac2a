# Lucky number lottery — a Dafny model of its state logic

The lottery page shows five digits. The user clicks "spin" and the digits
flicker on a 60 ms interval. After 41 ticks a final draw is shown and
celebrated with confetti and fireworks for 4 seconds. Beside the page, the
storage module lib/storage.ts manages three items in the browser's local
storage:

- a history of draws, newest first, capped at 50, with statistics;
- a settings record that is merged with defaults on every read;
- a list of favourite number sets, deduplicated by their joined string.

No other file of the application calls the storage module. The page neither
records its draws nor reads the settings. The module is modelled on its own,
as the operations it offers.

This project models both parts as immutable datatypes and pure functions.
It proves what the code promises about them.

- `text.dfy` (module `Text`): decimal rendering of integers, as `String(n)`
  and `join('')` produce it.
- `frequency.dfy` (module `Frequency`): the "most frequent numbers" statistic.
  That is, JavaScript's `Object.entries` key order followed by a stable sort
  by count.
- `storage.dfy` (module `Storage`): lib/storage.ts. Local storage is a record
  with one slot per key (`lottery_history`, `app_settings`,
  `favorite_numbers`). Each slot is `Absent`, `Corrupt` (unparseable) or
  `Stored(value)`.
- `page.dfy` (module `Page`): the state of components/LotteryPage.tsx. It has
  explicit events for the button clicks, the interval ticks, the run of the
  `hasResult` effect and the 4 s timeout.

Inputs from the environment are parameters:

- `Date.now()` and the "vi-VN" date string, as a `Clock`;
- every `Math.random()` draw, as a function from call number to digit or
  palette index.

The code does not contain a particle or fireworks simulation.
components/FireworksCanvas.tsx only passes options to a third-party React
component, so there is no physics or frame loop to model. The settings
record has the keys `soundEnabled`, `theme`, `autoSpin`, `autoSpinInterval`,
`favoriteNumbers`, `maxRange` and an optional `customSoundUrl`. The page
draws each of its five numbers independently as a digit in 0..9.

A click can arrive after the final tick has rendered its result but before
React has run the `hasResult` effect. React then runs the pending effect
first, and the effect's updates are queued after the click's. The model
follows that order: such a click carries the palette indices the effect
draws.

## Model

| member | source | states |
|---|---|---|
| `Text.NatToString` | lib/storage.ts:43 | `Date.now().toString()` of a clock reading from 1970 on is a non-empty string of digit characters with no leading zero |
| `Text.NumberToString` | lib/storage.ts:177-180 | `String(v)` of an integer starts with a minus sign exactly when `v` is negative; every other character is a digit |
| `Text.Join` | lib/storage.ts:177-180 | `join('')` writes at least one character per element |
| `Text.NatToStringRoundTrip` | lib/storage.ts:43 | The result id, `Date.now().toString()`, of a clock reading from 1970 on is a decimal rendering that reads back as the clock value |
| `Text.NatToStringInjective` | lib/storage.ts:43 | Different clock readings give different result ids |
| `Text.NumberToStringRoundTrip` | lib/storage.ts:43 | `toString()` of any integer clock reading, negative ones included, is a signed decimal numeral that reads back as that reading |
| `Text.NumberToStringInjective` | lib/storage.ts:43 | Different integer clock readings, on either side of 1970, give different result ids |
| `Text.JoinInjectiveOnDigits` | lib/storage.ts:177-180 | For sequences of single digits, equal `join('')` strings mean equal sequences, so the duplicate check is exact |
| `Text.JoinCollides` | lib/storage.ts:177-180 | For multi-digit numbers the key is not exact: `[1,23]` and `[12,3]` both join to "123" |
| `Frequency.FirstOccurrences` | lib/storage.ts:89-94 | The counting object gets exactly one property per distinct drawn value |
| `Frequency.FirstOccurrencesInOrder` | lib/storage.ts:89-94 | The properties are created in the order in which their values first occur in the draws |
| `Frequency.Keys` | lib/storage.ts:96 | `Object.entries` lists every drawn value once; array-index keys come first in ascending order, then the others |
| `Frequency.KeysOthersInFirstOrder` | lib/storage.ts:89-96 | Keys that are not array indices (negative numbers, and integers of 2^32 − 1 and above) come after all array indices, in the order their values first occur in the draws |
| `Frequency.Tally` | lib/storage.ts:89-94 | The counting loop leaves one property for each drawn value and no other, and each holds how often its value was drawn |
| `Frequency.Entries` | lib/storage.ts:96 | `Object.entries` of the tallied object: one `[key, count]` entry per key, in key order, with the count the loop stored for that key |
| `Frequency.InsertByCount` | lib/storage.ts:97 | Inserting a later entry after all entries with at least its count keeps the list ordered by count, then entry position; it adds exactly that entry |
| `Frequency.SortByCount` | lib/storage.ts:97 | The stable sort by descending count is a permutation of the entries, ordered by count and, on ties, by entry order |
| `Frequency.MostFrequent` | lib/storage.ts:96-99 | `mostFrequentNumbers` has five values, or as many as there are distinct drawn values if that is fewer |
| `Frequency.MostFrequentRanked` | lib/storage.ts:89-99 | `mostFrequentNumbers` has at most 5 distinct values, each drawn at least once, in non-increasing frequency |
| `Frequency.MostFrequentIsTop` | lib/storage.ts:96-99 | A drawn value that is left out occurs no more often than any listed value |
| `Frequency.MostFrequentComplete` | lib/storage.ts:96-99 | When fewer than 5 values are listed, every drawn value is listed |
| `Frequency.MostFrequentTiesAscending` | lib/storage.ts:96-99 | Among equally frequent values, array indices (all digits) come out in ascending order and ahead of equally frequent values that are not array indices; when a tie crosses the cut after five, every array index left out is larger than the listed ones it ties with |
| `Frequency.TiedLeftOutAreLarger` | lib/storage.ts:96-99 | A drawn array-index value cut off at five is larger than every listed value as frequent as it, and those listed values are array indices too |
| `Frequency.MostFrequentDigitTies` | lib/storage.ts:96-99 | For digits: equally frequent listed digits are ascending, and a digit cut off at five is larger than every listed digit it ties with |
| `Storage.GetHistory` | lib/storage.ts:28-36 | Reading history never fails: an absent or unparseable item gives the empty list |
| `Storage.NewResult` | lib/storage.ts:42-47 | The new result stores exactly the drawn numbers and the clock's timestamp and date; its id is a signed decimal numeral that reads back as the clock reading, all digits for a reading from 1970 on |
| `Storage.AddResult` | lib/storage.ts:39-59 | The new history is the new result followed by the old history, cut to min(old+1, 50) entries, so only the oldest are dropped. On an absent or corrupt slot it holds exactly one result. The other slots are unchanged |
| `Storage.AddResultDraws` | lib/storage.ts:49-53 | As drawn numbers, one `addResult` prepends the draw and keeps the first 50 |
| `Storage.AddResultsKeepsNewest` | lib/storage.ts:39-55 | After any series of `addResult` calls, the history holds the newest 50 draws, newest first, then as much earlier history as fits |
| `Storage.ClearHistory` | lib/storage.ts:62-68 | After clearing, the history reads as empty; settings and favourites are unchanged |
| `Storage.GetStats` | lib/storage.ts:71-82 | The statistics count every stored result; with no usable history item they are 0 games, average 0 and no numbers |
| `Storage.ClearedStats` | lib/storage.ts:71-82 | A cleared history reports 0 games, average 0 and no numbers |
| `Storage.RoundedAverage` | lib/storage.ts:86 | `Math.round(total / n)` gives the integer within one half of the average, with halves rounded up |
| `Storage.StatsOf` | lib/storage.ts:71-107 | `totalGames` is the history length; `recentNumbers` are the draws of the first min(5, n) results; the average is the rounded mean of the per-draw sums; an empty history gives 0, 0, [], [] |
| `Storage.StatsMostFrequent` | lib/storage.ts:88-99 | The statistic's most frequent numbers are the top five drawn values by count, none missing that outranks a listed one |
| `Storage.StatsTiesAscending` | lib/storage.ts:88-99 | Equally frequent digits in the statistic come out in ascending order, and a digit cut off at five is larger than every listed digit as frequent as it |
| `Storage.DigitTotalBounds` | lib/storage.ts:85 | Five-digit draws give a total sum between 0 and 45 per draw |
| `Storage.AverageOfDigitDraws` | lib/storage.ts:85-86 | When every draw is five digits, `averageSum` lies in 0..45 |
| `Storage.Merge` | lib/storage.ts:143 | Spreading a patch over a settings record with no key in the patch leaves the record as it was |
| `Storage.AsPatch` | lib/storage.ts:144 | The JSON object written for a full settings record is not empty and, read back over the defaults, gives the record again |
| `Storage.GetSettings` | lib/storage.ts:113-137 | No item, a corrupt item or an empty object gives the defaults; a record written whole reads back whole; otherwise the stored keys are spread over the defaults |
| `Storage.UpdateSettings` | lib/storage.ts:140-148 | An update writes a settings item and touches no other slot |
| `Storage.UpdateThenGet` | lib/storage.ts:140-148 | After an update, keys in the patch read back with the patch's value and all other keys keep their current value |
| `Storage.UpdateIdempotent` | lib/storage.ts:140-148 | Applying the same patch twice gives the same store as applying it once |
| `Storage.EmptyUpdateKeepsSettings` | lib/storage.ts:143 | An empty patch changes no setting |
| `Storage.ResetSettings` | lib/storage.ts:151-157 | After a reset, the settings read as the defaults; the other slots are unchanged |
| `Storage.GetFavorites` | lib/storage.ts:163-171 | Reading favourites never fails: an absent or unparseable item gives the empty list |
| `Storage.AddFavorite` | lib/storage.ts:174-188 | A set is appended at the end only when no favourite has the same joined string; otherwise nothing is written. The list grows by at most one |
| `Storage.AddFavoriteIdempotent` | lib/storage.ts:174-188 | Adding the same set twice gives the same store as adding it once |
| `Storage.AddDigitFavorite` | lib/storage.ts:177-184 | For digit sets, a set is added exactly when it is not already a favourite |
| `Storage.AddFavoriteCollision` | lib/storage.ts:177-184 | Once `[1,23]` is a favourite, adding `[12,3]` changes nothing |
| `Storage.SpliceStart` | lib/storage.ts:194 | `splice` starts at the index if it is in range. A negative index counts from the end. Both ends are clamped |
| `Storage.SpliceOne` | lib/storage.ts:194 | `splice(index, 1)` removes the element at the start position and keeps the rest in order; a start at the end removes nothing |
| `Storage.RemoveFavorite` | lib/storage.ts:191-199 | Removal always writes the favourites item and touches no other slot |
| `Storage.RemoveFavoriteEffect` | lib/storage.ts:191-199 | An index in 0..n-1 removes exactly that favourite and keeps the others in order. An index at or past the end changes nothing. A negative index counts from the end, and one before the start removes the first favourite |
| `Page.Draw` | components/LotteryPage.tsx:63-65 | A draw of n random digits has n entries, each in 0..9 |
| `Page.Step` | components/LotteryPage.tsx:24-78 | Spinning starts only on a click on spin and stops only on the 41st tick; a result appears only after that tick, with its effect due; a timeout is set only when the result effect runs and comes with a burst; only a timeout removes one. Spin is ignored while spinning and reset while no result is shown |
| `Page.AfterPendingEffect` | components/LotteryPage.tsx:24-51 | A click before the `hasResult` effect has run gets the effect's burst, fireworks and timeout on top of its own updates; otherwise the click's updates stand |
| `Page.ClickRunsPendingEffect` | components/LotteryPage.tsx:24-78 | Spin or reset clicked while the result effect is pending leaves a full burst and fireworks showing, with one more timeout, on a spinning or reset page |
| `Page.SpinLottery` | components/LotteryPage.tsx:48-53 | Spin sets spinning, clears the result and the confetti, and starts a fresh counter; numbers, fireworks and timers are unchanged |
| `Page.TickOnce` | components/LotteryPage.tsx:54-70 | A tick shows fresh digits and counts. The tick whose count exceeds 40 shows five final digits, stops spinning and reports a result |
| `Page.CelebrateResult` | components/LotteryPage.tsx:24-44 | The effect turns fireworks on and makes 100 confetti with ids 0..99 in palette colours. It schedules one more timeout |
| `Page.ClearCelebration` | components/LotteryPage.tsx:40-43 | The timeout clears the confetti and the fireworks |
| `Page.ResetPage` | components/LotteryPage.tsx:74-78 | Reset shows 0,0,0,0,0, clears the result and the confetti, and leaves spinning and fireworks as they are |
| `Page.InitValid` | components/LotteryPage.tsx:17-21 | The first render shows five zeros and satisfies the page invariant |
| `Page.StepPreservesValid` | components/LotteryPage.tsx:24-78 | Every event keeps the invariant: five digits, no result while spinning, confetti absent or one full burst, fireworks only while a timeout is pending |
| `Page.RunPreservesValid` | components/LotteryPage.tsx:24-78 | The invariant holds after any sequence of events |
| `Page.AlwaysFiveDigits` | components/LotteryPage.tsx:17-78 | Whatever happens, the page shows exactly five digits, each 0..9 |
| `Page.TicksBelowLimit` | components/LotteryPage.tsx:54-60 | Ticks that do not exceed 40 keep the page spinning with no result and only advance the counter |
| `Page.TicksWhenIdle` | components/LotteryPage.tsx:60-61 | Once the interval is cleared, no tick changes anything. This is `Step`'s tick guard carried over a run of ticks |
| `Page.SpinLasts41Ticks` | components/LotteryPage.tsx:48-70 | After a spin, ticks 1..40 keep spinning with no result. The 41st tick shows its final draw, stops spinning and sets the result. Later ticks change nothing. The confetti is cleared unless the spin ran a pending result effect |
| `Page.SpinDisabledWhileSpinning` | components/LotteryPage.tsx:317-318 | Clicking spin while spinning changes nothing. This is `Step`'s spin guard, stated on its own |
| `Page.SpinToResultEffect` | components/LotteryPage.tsx:24-70 | For any 41 rolls, a spin, its 41 ticks and the effect end in a valid celebrated result with one more pending timeout, or two if the spin ran a pending effect |
| `Page.StaleTimeoutCutsBurstShort` | components/LotteryPage.tsx:24-51 | As written, for any rolls of the two spins, fireworks keep running through a new spin. Two timeouts can be pending, and the older one clears the new burst while the burst's own timeout is still pending |
| `Page.StepWithCleanup` | components/LotteryPage.tsx:24-78 | The corrected page shows the same digits and flags as the page as written after every event. A spin or reset that takes a result away also ends its celebration and cancels its timeout |
| `Page.Cleanup` | components/LotteryPage.tsx:24-45 | The corrected effect cleanup cancels the timeout and ends the burst when the result goes away |
| `Page.CleanupKeepsTimerOwnership` | components/LotteryPage.tsx:24-78 | With the cleanup, every event keeps exactly one pending timeout while fireworks show and none otherwise; fireworks show only with a result |
| `Page.RunWithCleanupOwnsTimers` | components/LotteryPage.tsx:24-78 | With the cleanup, that timeout ownership holds after any sequence of events |

## Left out

- components/FireworksCanvas.tsx: it configures a third-party fireworks component and contains no simulation logic.
- lib/audio.ts: Web Audio synthesis with floating-point frequencies and timed side effects only.
- components/MainLayout.tsx, components/ui/ualert-dialog.tsx, app/page.tsx, app/layout.tsx: layout and composition only.
- The page's JSX, CSS keyframes and styling. The floating-point confetti fields (`left`, `delay`, `duration`, `rotation`) are random and only used for styling.
- `JSON.stringify`/`JSON.parse`: a stored item is either unparseable (`Corrupt`) or has the shape the module writes. Items that parse to another shape (`null`, a number, an object with extra keys) are not modelled. Neither is a settings key explicitly set to `undefined` in a patch.
- `localStorage.setItem` failures (for example, a full quota) are not modelled: every write succeeds. The source catches such errors and leaves the store unchanged.
- `console.warn` calls: logging only.
- JavaScript numbers are modelled as exact integers. `String(n)` is the plain decimal form, which holds below 10^21. `removeFavorite` takes an integer index; fractional and NaN indices are not modelled.
- Storage.RoundedAverage: computes the rounded average exactly over rationals. It does not model floating-point division, which agrees with it for the sums five-digit draws produce.
- The order in which the last tick's `Math.random` calls happen: that tick's final draw is taken as the first five values of its random source, and its superseded intermediate update is dropped.
- React's rendering between a click and a pending `hasResult` effect: the model applies the click's updates and then the effect's, in the order React queues them, as one step. The intermediate render, in which the click's updates show before the effect's, is not modelled.
- Real timer concurrency, the interval continuing after the page unmounts, and React's development-mode double effects. Timers are discrete events in any order. Only their firing order, not elapsed time, is modelled.

## Findings

The corrected step, `Page.StepWithCleanup`, differs from `Page.Step` only on spin and reset. Ticks, the effect and the timeout are shared, so the spin length and the five-digit invariant hold under both. With the cleanup, a click that lets a pending effect run also ends that effect's burst and cancels its timeout at once.

| source | as written | input that shows it | evidently intended | confidence | as-written member | corrected member |
|---|---|---|---|---|---|---|
| components/LotteryPage.tsx:24-51 | The `hasResult` effect schedules a 4 s timeout and never cancels it. Neither spin nor reset turns the fireworks off | Click spin within about 1.5 s of a result. A spin takes 41 × 60 ms = 2.46 s, so the first result's timeout fires up to about 1.5 s into the second result's burst (1.54 − d s when spin is clicked d s after the result). It clears that burst while the burst's own timeout is still pending, and the fireworks run through the spin in between | Each burst lasts its 4 s unless the result is replaced. Spin and reset end the current celebration (they already clear the confetti) | medium; not executed | `Page.StaleTimeoutCutsBurstShort` | `Page.RunWithCleanupOwnsTimers` |
