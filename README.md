# Protein Progress — a Dafny model of its state layer

Protein Progress is a single-user, browser-only tracker: the user sets a daily
protein goal, logs foods with their grams of protein, and watches a progress bar
fill. Everything it keeps lives in `localStorage`. This project models the part of
it that has logic, and proves properties of that model:

- **the root component's state** (`App`, app.dfy): the persisted `AppState`
  (goal and newest-first entries) plus a transient optimistic overlay; the
  derived effective list, total, progress percentage, remaining grams and
  over-goal readout; routing between set-up and main screens; add and delete,
  each an immediate overlay write followed by a deferred commit; reset;
  set-up completion; the theme toggle. The component instance is the class
  `App.Root`. A deferred commit is a `Commit` value that the handler returns
  and `Root.Settle` runs later, in any order relative to other steps.
- **the debounced write-behind store** (`LocalStorage`, local_storage.dfy), the
  `useLocalStorage` hook: load with fallback to the default, immediate in-memory
  update, a single pending-write slot that every update cancels and re-arms
  (an updater that throws leaves the armed write in place), the timer
  elapsing (`Fire`) and unmount cleanup (`Teardown`). The class
  `Store<T>` holds the state; pure step functions (`AfterSet`, `AfterUpdate`,
  `AfterFire`, `AfterTeardown`) specify its methods, and the lemmas about
  coalescing, round trip and cancellation are stated over them.
- **theme resolution and application** (`ThemeHook`, theme.dfy): stored theme,
  else the system dark-mode preference, else light; the effect that marks the
  document root's class set and writes the `theme` key.
- **input validation**: the protein character filter and the submit guard of the
  entry form (`AddEntryForm`, add_entry_form.dfy); the set-up goal guard, with
  `parseInt` as in section 19.2.5 of ECMA-262 for radix 10 (`SetupScreen`,
  setup_screen.dfy).
- **progress-bar derivations** (`ProgressBar`, progress_bar.dfy) over exact reals.

`Collections` (collections.dfy) holds the order-preserving `Filter` shared by
entry deletion and the protein filter, with its lemmas; `Types` (types.dfy) holds
`FoodEntry` and `AppState`.

Behaviour of the code that a reader might not expect, and that the model keeps:

- Reset replaces the state with `{dailyGoal: 0, entries: []}` but does not clear
  the optimistic overlay (src/App.tsx:175), so `Root.Reset` leaves `overlay` alone.
- The protein filter does not enforce a single decimal point; what stops
  "12.3.4" from being submitted is the input's `pattern` attribute, checked by
  the browser before the submit handler runs (src/components/AddEntryForm.tsx:78).
  A lone "." passes both checks.
- Exactly one of the two theme markers is on the root only while the theme is
  "light" or "dark". A stored theme is returned unchecked. Any other valid
  class token leaves neither marker (`ThemeHook.UnknownThemeHasNoMarker`).
  A stored theme that is not a token, such as "dark mode", makes the effect
  throw (see "## Left out").
- The theme effect runs only when the theme changes. The toggle always changes
  it, because it maps every theme other than "light" to "light".
- The set-up form reaches `handleSubmit` only after the browser has checked
  the goal input (`type="number"`, `min="1"`, `required`,
  src/components/SetupScreen.tsx:71-80): it must hold a whole number of at
  least 1. "12.9", "0", "-5" and empty input never reach the handler. The
  handler's own `parseInt(goal, 10) > 0` guard then decides the call.

## Model

| member | source | states |
|---|---|---|
| `App.EffectiveEntries` | src/App.tsx:52-53 | the list shown and totalled is the overlay whenever it is non-empty, and the stored entries when it is empty; it is empty only when both are |
| `App.TotalProtein` | src/App.tsx:51-55 | the `reduce` sum of the entries' protein: 0 for no entries, and never negative when no entry's protein is |
| `App.Progress` | src/App.tsx:60-63 | with a positive goal, the progress percentage is non-negative for a non-negative total and reaches 100 exactly when the total reaches the goal |
| `App.Remaining` | src/App.tsx:69-72 | remaining grams are never negative, at least goal minus total, zero exactly when the total reaches the goal, and goal minus total below it |
| `App.ReadoutFor` | src/App.tsx:195-208 | "Over Goal By" is shown iff total > goal, with a surplus of total − goal > 0; otherwise the non-negative remaining grams |
| `App.View` | src/App.tsx:139-190 | a zero goal routes to set-up; otherwise the main screen shows the effective list (overlay if non-empty, else the stored entries), its total, progress total/goal·100 with a non-zero goal, and a bar whose over-goal flag agrees with the readout |
| `App.TotalProteinAppend` | src/App.tsx:51-55 | the protein total of a concatenation is the sum of the totals |
| `App.TotalAfterRemoval` | src/App.tsx:111 | deleting an id lowers the total by exactly the protein of the entries carrying it |
| `App.RemoveId` | src/App.tsx:111 | `entries.filter((entry) => entry.id !== id)`: no longer than the input, and no entry left carries the id |
| `App.RemoveIdKeepsOthers` | src/App.tsx:111 | deletion drops every entry with the id and keeps every other entry, as often as it occurred and in its original order |
| `App.RemoveIdAbsentAndTwice` | src/App.tsx:117 | deleting an id nobody carries changes nothing; deleting twice equals deleting once |
| `App.Apply` | src/App.tsx:92-121 | the add updater (92-99) and the delete updater (114-121) both keep the goal; an add puts the new entry in front of the previous entries; a delete keeps a subsequence of them with no entry carrying the id |
| `App.Committed` | src/App.tsx:92-121 | what a commit sets the state to through the captured setter: the snapshot's goal, the entry in front of the snapshot's entries for an add, and for a delete a subsequence of the snapshot's entries without the id |
| `App.AddOverlay` | src/App.tsx:89 | the overlay an add writes at once: the new entry, then the stored entries unchanged |
| `App.DeleteOverlay` | src/App.tsx:111 | the overlay a delete writes at once: a subsequence of the stored entries with no entry carrying the id, and the stored entries themselves when none carries it |
| `App.AddOverlayMatchesCommit` | src/App.tsx:88-99 | the add commit prepends the entry, keeps the goal, and equals the overlay shown before it |
| `App.AddRaisesTotal` | src/App.tsx:89 | right after an add the list has one more entry and the total grows by its protein |
| `App.DeleteOverlayMatchesCommitUnlessEmptied` | src/App.tsx:108-124 | the delete commit keeps the goal; the overlay agrees with the commit iff the deletion does not empty a non-empty list |
| `App.DeletingSoleEntryShowsStaleList` | src/App.tsx:111-120 | deleting the sole entry leaves it shown until the commit, which then empties the list |
| `App.DeleteExample` | src/App.tsx:111 | deleting "1" from ["1", "2"] shows and commits ["2"] |
| `App.RapidAddsLoseFirstEntry` | src/App.tsx:92-99 | as written, two adds before the first settles leave only the second entry, in memory and in the pending write |
| `App.ResetUndoneByLateCommit` | src/App.tsx:92-121 | as written, an add (92-99) or a delete (114-121) that settles after Reset rebuilds the pre-reset goal and entries, with the entry added or the id deleted, and schedules that for storage; with a goal set, the main screen returns |
| `App.DeleteBeforeAddSettlesDropsEntry` | src/App.tsx:114-121 | as written, a delete of another id issued before an add settles removes the added entry again, in memory and in the pending write |
| `App.SettleLatest` | src/App.tsx:92-121 | intended settle step: the commit's updater is applied to the store's latest value, which becomes the value and the pending write; storage is untouched |
| `App.LatestCommitsKeepBothEntries` | src/App.tsx:92-99 | settled against the latest value, two rapid adds keep both entries newest first and the goal, in memory and in the pending write |
| `App.LatestCommitsKeepAddAcrossDelete` | src/App.tsx:114-121 | settled against the latest value, a delete of another id keeps a just-added entry, in memory and in the pending write |
| `App.LatestCommitKeepsReset` | src/App.tsx:92-121 | settled against the latest value, an add or a delete after Reset keeps the zero goal (with only the new entry, or no entry), that state is pending, and the set-up screen stays |
| `App.StagedEntries` | src/App.tsx:52-53 | intended list shown: no staged list shows the stored entries, an empty staged list shows nothing, and a non-empty one shows what `EffectiveEntries` shows |
| `App.StagedDeleteMatchesCommit` | src/App.tsx:111 | with an explicit staged list, a delete always shows what its commit sets, an emptied list included |
| `App.ResetRoutesToSetup` | src/App.tsx:175 | after reset the set-up screen is shown whatever the overlay holds |
| `App.CompletedSetupRoutesToMain` | src/App.tsx:139-145 | an accepted goal keeps the entries and routes to the main screen |
| `App.Toggled` | src/App.tsx:129-131 | toggling gives "dark" iff the theme was "light", always one of the two names, never the old theme |
| `App.ToggleTwice` | src/App.tsx:129-131 | toggling twice restores the theme iff it was "light" or "dark" |
| `App.Root.constructor` | src/App.tsx:33-42 | the state is loaded under "protein-tracker-state" with `initialState` as default, and the store keeps that key, default and storage availability; the theme is resolved and the mount effect runs: a valid token marks the root and is stored, otherwise both markers are removed and storage is unchanged; the overlay is empty, so the stored entries are shown |
| `App.Root.HandleAddEntry` | src/App.tsx:78-102 | the overlay, and so the list shown, becomes the new entry on top of the stored entries; the returned commit carries the state the handler saw |
| `App.Root.HandleDeleteEntry` | src/App.tsx:108-124 | the overlay becomes the stored entries without the id, and the list shown is what `EffectiveEntries` makes of it; the returned commit carries the state the handler saw |
| `App.Root.Settle` | src/App.tsx:92-121 | when the add (92-99) or delete (114-121) timer elapses, the commit's updater goes through the captured setter: the state becomes the updater applied to the snapshot, that value is pending for storage, storage is untouched, the overlay is cleared, and the list shown is the committed entries |
| `App.Root.Reset` | src/App.tsx:175 | the state becomes `initialState` (pending for storage) and the set-up screen shows; the overlay is unchanged, so the list behind it is the overlay |
| `App.Root.CompleteSetup` | src/App.tsx:139-145 | a goal is set iff the input passes the browser's checks and the handler's guard; it is then `parseInt`'s positive result, merged into the state with the entries unchanged, and the main screen follows; otherwise nothing changes |
| `App.Root.ToggleTheme` | src/App.tsx:129-131 | the theme is toggled, the root marked with it and the preference stored |
| `LocalStorage.Load` | src/hooks/useLocalStorage.ts:21-32 | the default is returned when storage cannot be read, the key is absent, or the record is empty or unparsable; otherwise the stored value |
| `LocalStorage.Mounted` | src/hooks/useLocalStorage.ts:35 | right after mounting nothing is pending, storage is as found, and the value is the default or the parsed record under the key |
| `LocalStorage.AfterSet` | src/hooks/useLocalStorage.ts:48-57 | a plain update sets the value at once, replaces the armed timer by one carrying it, and leaves storage alone |
| `LocalStorage.AfterUpdate` | src/hooks/useLocalStorage.ts:46-60 | a functional update never touches storage; an updater that throws changes nothing; otherwise the value becomes the updater's result on the snapshot and that is what is pending |
| `LocalStorage.AfterTeardown` | src/hooks/useLocalStorage.ts:66-72 | teardown keeps the value and storage and leaves no timer armed |
| `LocalStorage.AfterFire` | src/hooks/useLocalStorage.ts:55-57 | an elapsing timer leaves the value, spends the slot, and changes no key but its own |
| `LocalStorage.SetAllCoalesces` | src/hooks/useLocalStorage.ts:44-63 | after a burst of updates the value is the last one, one write is pending and holds it, and storage is untouched |
| `LocalStorage.CoalescedWrite` | src/hooks/useLocalStorage.ts:54-57 | a burst followed by the timer elapsing writes storage once, with the last value only |
| `LocalStorage.WriteThenReload` | src/hooks/useLocalStorage.ts:24-56 | once a value's write has landed, loading returns that value |
| `LocalStorage.TeardownDropsPendingWrite` | src/hooks/useLocalStorage.ts:66-72 | teardown keeps the value and cancels the pending write without performing it |
| `LocalStorage.ThrowingUpdaterKeepsPendingWrite` | src/hooks/useLocalStorage.ts:46-60 | an updater that throws does not cancel the armed write: when the timer elapses, the earlier value is written, and it is still the value in memory |
| `LocalStorage.SameSnapshotUpdatesDoNotCompose` | src/hooks/useLocalStorage.ts:48-62 | two updaters through one setter instance both start from its snapshot; the second result replaces the first |
| `LocalStorage.Store.constructor` | src/hooks/useLocalStorage.ts:13-38 | mounting loads the value with fallback and arms no timer |
| `LocalStorage.Store.Set` | src/hooks/useLocalStorage.ts:44-63 | a plain update sets the value at once and replaces any pending write by one carrying it |
| `LocalStorage.Store.Update` | src/hooks/useLocalStorage.ts:44-63 | a functional update applies the updater to the setter's snapshot; if it throws nothing changes |
| `LocalStorage.Store.Fire` | src/hooks/useLocalStorage.ts:55-57 | the pending value is written under the key when storage accepts writes, and the slot is spent |
| `LocalStorage.Store.Teardown` | src/hooks/useLocalStorage.ts:66-72 | the pending write is cancelled |
| `ThemeHook.InitialTheme` | src/hooks/useTheme.ts:22-34 | no window gives "light"; a non-empty stored theme wins, unchecked; otherwise "dark" iff the system prefers dark, else "light" |
| `ThemeHook.PersistedThemeWinsOnReload` | src/hooks/useTheme.ts:25-43 | a persisted theme is what the next start-up resolves to, whatever the system preference |
| `ThemeHook.IsToken` | src/hooks/useTheme.ts:41 | what `classList.add` accepts: a token is non-empty and holds no space, and both "light" and "dark" are tokens |
| `ThemeHook.MarkedClasses` | src/hooks/useTheme.ts:40-41 | after marking, the class set holds the theme, no other marker, and every other class it had |
| `ThemeHook.KnownThemeHasOneMarker` | src/hooks/useTheme.ts:40-41 | for "light" or "dark", exactly the current theme's marker is present |
| `ThemeHook.UnknownThemeHasNoMarker` | src/hooks/useTheme.ts:25-41 | any other theme string leaves neither marker |
| `ThemeHook.ThemeState.constructor` | src/hooks/useTheme.ts:22-44 | the initial theme is resolved; when it is a valid token it is applied to the root and stored; otherwise `add` throws after both markers are removed and storage is unchanged |
| `ThemeHook.ThemeState.ApplyEffect` | src/hooks/useTheme.ts:37-44 | the markers are replaced by the theme and the "theme" key set to it; a malformed token makes `add` throw after both markers are removed, and nothing is stored |
| `ThemeHook.ThemeState.SetTheme` | src/hooks/useTheme.ts:37-44 | the theme is set; the effect runs only when it changes, after which root and storage agree with a valid token, while an invalid one leaves both markers removed and storage unchanged |
| `ProgressBar.DisplayProgress` | src/components/ProgressBar.tsx:34 | the fill width is at most 100 and at most the progress, and equals the progress exactly when that is at most 100 |
| `ProgressBar.OverProgress` | src/components/ProgressBar.tsx:37 | zero while not over goal; positive when over a positive goal |
| `ProgressBar.OverProgressIsExcessOfProgress` | src/components/ProgressBar.tsx:37 | over goal, the over-goal percentage is the progress percentage minus 100 |
| `ProgressBar.Render` | src/components/ProgressBar.tsx:31-37 | over goal iff current > total, width at most 100, and a non-zero over-goal percentage exactly when over goal |
| `ProgressBar.FillCapsExactlyAtGoal` | src/components/ProgressBar.tsx:34 | with a positive goal the bar is full exactly when the goal is met, while the progress itself exceeds 100 past it |
| `AddEntryForm.FilterProtein` | src/components/AddEntryForm.tsx:51-55 | the filtered text holds only digits and points and is no longer than the input |
| `AddEntryForm.FilterProteinDeletesOnlyOthers` | src/components/AddEntryForm.tsx:53 | every digit and point of the input survives, as often and in the same order; nothing else does |
| `AddEntryForm.FilterProteinIdempotent` | src/components/AddEntryForm.tsx:53 | filtering twice equals filtering once |
| `AddEntryForm.FilterProteinFixedPoints` | src/components/AddEntryForm.tsx:53 | the filter leaves the text unchanged iff it holds only digits and points |
| `AddEntryForm.FilterKeepsSeveralPoints` | src/components/AddEntryForm.tsx:53 | "12a.3.4" filters to "12.3.4" |
| `AddEntryForm.Points` | src/components/AddEntryForm.tsx:78 | the count of decimal points, at most the length, and zero exactly when there is no point |
| `AddEntryForm.MatchesPattern` | src/components/AddEntryForm.tsx:78 | `pattern="[0-9]*\.?[0-9]*"` on the whole value: every all-digit text matches, and matching text passes the filter unchanged |
| `AddEntryForm.PatternAcceptsDecimal` | src/components/AddEntryForm.tsx:78 | digits, optionally followed by one point and more digits, always match |
| `AddEntryForm.PatternRejectsTwoPoints` | src/components/AddEntryForm.tsx:78 | text holding two points never matches |
| `AddEntryForm.NativelyValid` | src/components/AddEntryForm.tsx:70-83 | the browser's `required` and `pattern` checks; a form that passes them also passes the handler's guard, and its protein text is unchanged by the filter |
| `AddEntryForm.Submits` | src/components/AddEntryForm.tsx:30-34 | a submission reaches `onAdd` exactly when it passes the browser's checks: the handler's `name && protein` guard never rejects what the browser let through |
| `AddEntryForm.SubmitEdgeCases` | src/components/AddEntryForm.tsx:30-84 | "0" and a lone "." are submitted; the filtered "12.3.4" is stopped by the input's pattern |
| `AddEntryForm.EntryForm.constructor` | src/components/AddEntryForm.tsx:20-21 | both fields start empty |
| `AddEntryForm.EntryForm.ChangeName` | src/components/AddEntryForm.tsx:65 | the name field takes the typed value |
| `AddEntryForm.EntryForm.ChangeProtein` | src/components/AddEntryForm.tsx:51-55 | the protein field takes the filtered value |
| `AddEntryForm.EntryForm.Submit` | src/components/AddEntryForm.tsx:30-45 | a submission reaches `onAdd` iff both fields are non-empty and the protein matches the pattern; then both fields are cleared; otherwise nothing changes |
| `SetupScreen.ParseInt` | src/components/SetupScreen.tsx:30 | `parseInt(goal, 10)` with NaN as `None`: blank input is NaN, a negative result needs a leading "-" after the white space, and any number read starts with a digit or a sign |
| `SetupScreen.ParseGoal` | src/components/SetupScreen.tsx:28-34 | `handleSubmit` calls `onComplete` only when `parseInt` gives a number greater than 0, and then with exactly that number |
| `SetupScreen.ParseIntReadsDecimal` | src/components/SetupScreen.tsx:30 | `parseInt` reads a decimal number and stops at the first non-digit |
| `SetupScreen.ParseIntReadsNegativeDecimal` | src/components/SetupScreen.tsx:30 | a leading minus sign negates the number read |
| `SetupScreen.PositiveGoalIsAccepted` | src/components/SetupScreen.tsx:30-33 | `handleSubmit` maps every positive whole number, with any non-digit tail, to exactly that goal |
| `SetupScreen.NonPositiveGoalIsRejected` | src/components/SetupScreen.tsx:31 | `handleSubmit` maps zero and negative inputs to no call |
| `SetupScreen.NoDigitsIsRejected` | src/components/SetupScreen.tsx:30-31 | `handleSubmit` maps input with no digits after white space and one sign to NaN and no call |
| `SetupScreen.FractionalGoalIsTruncated` | src/components/SetupScreen.tsx:30 | `handleSubmit` maps "12.9" to a goal of 12 (the browser keeps that input from reaching it: `FractionalGoalIsBlocked`) |
| `SetupScreen.ZeroAndNegativeGoalExamples` | src/components/SetupScreen.tsx:31 | `handleSubmit` maps "0" and "-5" to no call |
| `SetupScreen.NonNumericGoalExamples` | src/components/SetupScreen.tsx:30-31 | `handleSubmit` maps "" and "abc" to no call |
| `SetupScreen.ParseFloatText` | src/components/SetupScreen.tsx:72 | the syntax a number input's value must have (a valid floating-point number, section 2.3.4.3 of the HTML Living Standard): none for empty text, digits in both parts, and a sign that matches a leading "-" |
| `SetupScreen.NumberValue` | src/components/SetupScreen.tsx:72-75 | the number the input holds; none for empty text, and its sign is that of the text |
| `SetupScreen.GoalInputValid` | src/components/SetupScreen.tsx:71-80 | the browser's checks on the goal input (`required`, `min="1"`, the default step of 1): a passing value is non-empty and has no leading "-" |
| `SetupScreen.PlainGoalPassesBoth` | src/components/SetupScreen.tsx:28-80 | every positive whole number typed plainly holds that number, passes the browser's checks and becomes the goal |
| `SetupScreen.FractionalGoalIsBlocked` | src/components/SetupScreen.tsx:71-80 | "12.9" holds 12.9 and fails the step check, so the form is not submitted |
| `SetupScreen.NonPositiveGoalIsBlocked` | src/components/SetupScreen.tsx:78 | "0" and "-5" fail the `min="1"` check |
| `SetupScreen.MissingGoalIsBlocked` | src/components/SetupScreen.tsx:79 | empty input, and text that is not a number (sanitised to empty), fails `required` |
| `SetupScreen.ExponentGoalIsMisread` | src/components/SetupScreen.tsx:30 | as written, "1e3" holds 1000 and passes the browser's checks, but `parseInt` makes the goal 1 |
| `SetupScreen.FractionExponentGoalIsIgnored` | src/components/SetupScreen.tsx:28-80 | as written, ".5e1" holds 5 and passes the browser's checks, but `parseInt` finds no digit before the point, so submitting does nothing |
| `SetupScreen.IntendedGoal` | src/components/SetupScreen.tsx:30-32 | intended: a goal is set iff the input passes the browser's checks, and it is the whole number the input holds, at least 1 |
| `SetupScreen.IntendedGoalReadsWholeNumber` | src/components/SetupScreen.tsx:30-32 | the intended goal agrees with `parseInt` on every plain positive whole number, reads "1e3" as 1000 and ".5e1" as 5 |

## Findings

| source | as written | input that shows it | evidently intended | confidence | as-written member | corrected member |
|---|---|---|---|---|---|---|
| src/App.tsx:92-99 | the commit's updater `prev => …` is applied by `useLocalStorage`'s `setValue` to the `storedValue` it closed over, i.e. the state when the handler ran | add e1, then e2 within 300 ms: the second commit sets `[e2, ...old]`, and e1 is lost from memory and from the pending write | the updater applied to the latest state, giving `[e2, e1, ...old]` | high, not executed | `App.RapidAddsLoseFirstEntry` | `App.LatestCommitsKeepBothEntries` |
| src/App.tsx:92-99 | the same captured snapshot: a commit overwrites whatever happened to the state after its handler ran | press Reset within 300 ms of an add or a delete: its commit restores the old goal and entries, with the entry added or removed, and schedules that for storage | the commit builds on the latest state, so the reset goal stays | high, not executed | `App.ResetUndoneByLateCommit` | `App.LatestCommitKeepsReset` |
| src/App.tsx:114-121 | the same captured snapshot, for a delete issued while an add is pending | add e, then delete another entry within 300 ms: the delete's commit filters the pre-add list, and e is lost | the delete filters the latest state, keeping e | high, not executed | `App.DeleteBeforeAddSettlesDropsEntry` | `App.LatestCommitsKeepAddAcrossDelete` |
| src/components/SetupScreen.tsx:30 | the goal is read with `parseInt`, which stops at the first non-digit, from a number input that also accepts exponent notation | type "1e3": the browser accepts it as 1000, and the goal is set to 1 | the goal is the number the input holds, 1000 | medium, not executed | `SetupScreen.ExponentGoalIsMisread` | `SetupScreen.IntendedGoal` |
| src/components/SetupScreen.tsx:30-31 | the same `parseInt` reading: a valid number with no digit before the point reads as NaN | type ".5e1": the browser accepts it as 5, `parseInt` gives NaN, and submitting silently does nothing | the goal is the number the input holds, 5 | medium, not executed | `SetupScreen.FractionExponentGoalIsIgnored` | `SetupScreen.IntendedGoal` |
| src/App.tsx:111 | a delete that empties the list writes the overlay `[]`, which the effective-list test reads as "no overlay" | entries `[e]`, delete `e.id`: `e` stays on screen and in the total until the commit | the emptied list shown at once | medium, not executed | `App.DeletingSoleEntryShowsStaleList` | `App.StagedDeleteMatchesCommit` |

`App.Root` models the code as written: `Root.Settle` applies the commit to its
snapshot, `Root.HandleDeleteEntry` writes the plain overlay, and
`Root.CompleteSetup` reads the goal with `parseInt`. The corrected
definitions (`App.SettleLatest`, `App.StagedEntries`, `SetupScreen.IntendedGoal`)
stand beside them with their properties proved.

## Left out

- Markup, styling and animation of every component; the splash screen, the
  install prompt, the entry list's rendering, the progress circle, application
  bootstrap and service-worker registration: presentation without state logic.
- `JSON.stringify` / `JSON.parse`: a stored record is either the serialisation of
  a value or text that does not parse. A record that parses to JSON of another
  shape is not modelled.
- `parseFloat` on the protein text: a submission carries the text, and
  `Root.HandleAddEntry` takes the protein as a number. A NaN protein (from a
  lone ".") is not representable.
- `Date.now()`: the new entry's id and timestamp are parameters of
  `Root.HandleAddEntry`, so id collisions are not modelled.
- Timer delays (300 ms settle, 1000 ms debounce) and wall-clock interleaving:
  the elapse of a timer is an explicit step (`Root.Settle`, `Store.Fire`) that
  the caller may order freely.
- IEEE-754 arithmetic: protein, totals, goals and percentages are exact reals.
  `toFixed`, `Math.round` and the relative-time labels are display formatting.
- `parseInt` on digit strings beyond 2^53 rounds to the nearest double; the model
  returns the exact integer. "-0" is represented as 0; both fail the goal check.
- The theme key and the state key share one `localStorage`. They are modelled as
  two separate maps, since neither hook touches the other's key.
- A `localStorage` that throws on `getItem` inside the theme initializer (the
  app would fail to render) is not modelled. For the state store, an unreadable
  storage is the `available` flag; a write that fails for another reason, such
  as a full quota, is not distinguished from an unavailable storage.
- The `try`/`catch` around the timer calls in `setValue` and the error logging:
  only a throwing updater is modelled.
- React's re-rendering and memoisation: derived values are functions of the
  current state.
- `App.Progress`, `ProgressBar.OverProgress` and `ProgressBar.Render` require a
  non-zero goal. The bar is rendered only on the main screen, where the goal is
  non-zero. The progress memo also runs on the set-up screen, where it divides
  by zero and yields Infinity (entries left in the overlay after Reset) or NaN
  (no protein); that value is never shown, and it is not modelled.
- `ThemeHook.ThemeState.constructor`: when the resolved theme is not a valid
  class token (a stored "dark mode", say), `classList.add` throws inside the
  effect. Nothing catches it, so React unmounts the whole app, and the bad value
  stays stored, so this repeats on every load. The model records the failure
  (`ok` false, both markers removed, storage unchanged), but `App.Root` goes on
  as if the app were running; the unmounting is not modelled.
- The number input's value is modelled as text that is either empty or a valid
  floating-point number, the form the browser keeps it in. Values too large for
  a double (such as "1e400") and how each browser lets the user type into the
  field are not modelled.
- `App.Root.CompleteSetup` requires a zero goal: the set-up screen, which owns
  this callback, is rendered only then.
