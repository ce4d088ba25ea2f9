# DuckDo reward economy in Dafny

DuckDo is a gamified to-do list. Completing a task for the first time pays a
roll ticket and 20% of an egg. Tickets buy gacha rolls that draw ducks of four
rarity tiers, and a pity counter guarantees a Legendary duck on the 150th roll
without one. A full egg hatches into a duck drawn from the whole catalog.
Drawn ducks are merged into the collection by name: a known name gains a star
and a new name is put at the front. Around this economy sit the task list
handlers (add, edit, delete behind a typed "okay", search), the task list
view (status filter, three sort orders, badges), and an AI coach with a
five-minute cache and fixed fallbacks.

The model treats randomness, the clock, ids and the language-model call as
inputs:

- the tier roll is a real in [0, 100);
- the template roll is a real in [0, 1), and the index is `Floor(u * n)`;
- times are integer milliseconds;
- the model call is a `Reply`, either the answer text or the error it threw.

With these as inputs every handler is a deterministic transition.

Modules, one per file:

- `Types` (types.dfy): the records and enumerations of types.ts, and the load-time defaults.
- `Seqs` (seqs.dfy): `filter` and `map` on sequences.
- `Text` (text.dfy): `toLowerCase`, `includes`, `trim`, `split`, `toString` and `parseInt`.
- `Catalog` (catalog.dfy): the catalog, rarity colours and sample tasks of constants.ts.
- `Gacha` (gacha.dfy): `generateDuck` and `roll`.
- `Collection` (collection.dfy): `mergeDucks` as a specification.
- `Rewards` (rewards.dfy): the reward latch of `toggleTaskStatus` and the hatch.
- `Tasks` (tasks.dfy): add, edit, find, replace, delete and search.
- `TaskList` (tasklist.dfy): the view logic of TaskList.tsx.
- `Advisor` (advisor.dfy): geminiService.ts.
- `AppState` (app.dfy): the App component as a class.

Pure code is written as functions and lemmas. Code that works step by step
is written as methods:

- the `roll` loop (`Gacha.Roll`);
- the in-place merge loop (`AppState.App.MergeDucks`);
- the storage reads and writes of the coach (`Advisor.GetProductivityCoach` on the `Advisor.Storage` class);
- the App handlers, which update the fields of `AppState.App`.

Each method is proved against the function that specifies it.

New names go to the front with `unshift`, so merging `[A, A, B]` into an
empty collection gives `[B(star=1), A(star=2)]` (`Collection.MergeExampleNew`).

## Model

| member | source | states |
|---|---|---|
| Types.StarLevel | App.tsx:250 | a missing (0) star level reads as 1, and a star level that is present is read as it is |
| Types.MigrateUser | App.tsx:225 | a stored user without a pity counter gets 0; every other field, and a present counter, is carried over |
| Types.MigrateStoredRoundTrip | App.tsx:65 | the login default of the pity counter to 0 changes nothing for a record that already has its counter: migrating a written-back user gives it back |
| Types.DefaultStars | App.tsx:249-250 | each loaded duck keeps its place and fields, and gets the star level it is read with |
| Types.DefaultStarsSettles | App.tsx:250 | after loading no duck lacks stars, every star level read is unchanged, and loading again changes nothing |
| Text.ToLowerIdempotent | App.tsx:419 | lower-casing twice is lower-casing once |
| Text.TrimEmptyIffBlank | geminiService.ts:85 | `line.trim().length > 0` exactly when the line has a non-space character |
| Text.SplitJoin | geminiService.ts:85 | splitting on line breaks loses nothing: joining the pieces gives the text back |
| Text.SplitFirst | geminiService.ts:85 | a line without a break is one piece; `a + "\n" + b` splits into `a` and then the pieces of `b` |
| Text.ParseIntRoundTrip | geminiService.ts:23 | a time written with `toString` reads back unchanged with `parseInt` |
| Seqs.FindFirst | App.tsx:285 | `findIndex`: the first position whose key matches, or -1 exactly when none does |
| Catalog.Pool | DuckGacha.tsx:33 | a tier's pool is no longer than the catalog and holds only templates of that tier |
| Catalog.PoolMembers | DuckGacha.tsx:33 | a template is in a tier's pool exactly when it is in the catalog with that tier |
| Catalog.CatalogTiers | constants.ts:3-19 | the catalog holds 8 templates: 3 Common, 2 Rare, 2 Epic, 1 Legendary |
| Catalog.TierCount | constants.ts:5-18 | each tier's pool has the size its block of the catalog declares |
| Catalog.PoolNonEmpty | constants.ts:5-18 | no tier's pool is empty, so every tier can be drawn |
| Catalog.CatalogEntries | constants.ts:5-18 | template names are pairwise distinct and every template has one star |
| Catalog.RarityColorsTotal | constants.ts:21-26 | every tier has a colour |
| Catalog.SampleTasks | constants.ts:28-39 | one sample task, pending, with its reward unclaimed and no finish time |
| Gacha.PickIndex | DuckGacha.tsx:34 | `Math.floor(u * n)` with `u` in [0, 1) is a valid index of the pool |
| Gacha.SelectRarity | DuckGacha.tsx:19-31 | a draw is Legendary exactly when the pity counter has reached 149 or the roll is above 98; below the limit it is Epic exactly on (85, 98], Rare exactly on (55, 85] and Common exactly up to 55 |
| Gacha.GenerateDuck | DuckGacha.tsx:18-44 | the duck has the selected tier, comes from that tier's pool, has one star and the given id and time; `isLegendary` exactly for Legendary |
| Gacha.NextPity | DuckGacha.tsx:62-66 | from a non-negative counter the next one is 0 exactly after a Legendary and at most one higher otherwise |
| Gacha.DrawBatch | DuckGacha.tsx:54-66 | every duck of a batch has one star and comes from the pool of its own tier |
| Gacha.Roll | DuckGacha.tsx:46-73 | refused exactly when tickets < amount; otherwise `amount` tickets spent and the ducks and final pity of the batch, in draw order, with the pity bound kept |
| Gacha.RarityOrder | DuckGacha.tsx:23-31 | a pity counter of 149 or more forces Legendary; otherwise the tier only rises with the roll and the counter |
| Gacha.RarityBoundaries | DuckGacha.tsx:27-30 | the thresholds are strict: 98 gives Epic, 85 Rare, 55 Common |
| Gacha.BatchLength | DuckGacha.tsx:57-59 | a batch draws one duck per input |
| Gacha.BatchPrefix | DuckGacha.tsx:54-59 | the first k ducks of a batch are the batch of the first k inputs |
| Gacha.DrawInOrder | DuckGacha.tsx:55-66 | draw i uses the pity counter left by draws 0..i-1, which then resets on Legendary and rises by one otherwise |
| Gacha.BatchPityBound | DuckGacha.tsx:62-66 | a counter starting in [0, 149] stays there through a batch |
| Gacha.BatchWithoutLegendary | DuckGacha.tsx:62-66 | a batch without a Legendary raises the counter by its length |
| Gacha.LegendaryGuaranteed | DuckGacha.tsx:23-24 | from a counter of p, one of the first 150 - p draws is Legendary |
| Collection.FindByName | App.tsx:285 | the first index holding the name, or -1 exactly when no entry has it |
| Collection.MergeOne | App.tsx:285-296 | one incoming duck grows the inventory by one exactly when its name was new, and no star level becomes negative |
| Collection.MergeAll | App.tsx:283-297 | the inventory never shrinks and grows by at most one entry per incoming duck |
| Collection.MergeOneEffect | App.tsx:285-296 | a known name's entry gains exactly one star and keeps every other field, other entries unchanged; a new name is put in front with one star |
| Collection.MergeOneNames | App.tsx:285-296 | one merge adds the incoming name to the names and grows the inventory exactly when the name was new |
| Collection.MergeNames | App.tsx:283-297 | the names after a merge are the old names plus the incoming names |
| Collection.MergeGrowth | App.tsx:293-296 | the inventory grows by exactly the number of incoming names it did not hold |
| Collection.MergeKeepsUnique | App.tsx:283-297 | names stay unique |
| Collection.MergeOneStars | App.tsx:288-296 | one merge adds one star to the incoming name and none to any other |
| Collection.MergeStars | App.tsx:283-297 | each name's star level rises by the number of incoming ducks with that name |
| Collection.MergeKeepsEntries | App.tsx:288-291 | an entry already held keeps its id, time and all fields but stars |
| Collection.MergeExampleNew | App.tsx:293-296 | merging [A, A, B] into nothing gives [B with one star, A with two] |
| Collection.MergeExampleRepeat | App.tsx:288-291 | merging A into [A with two stars] gives A with three |
| Rewards.Toggle | App.tsx:340-373 | the status flips; the latch is closed after any completion and never reopened; a ticket is paid exactly by the toggle that closes it |
| Rewards.ToggleReward | App.tsx:340-370 | the status flips; a ticket is paid exactly for a pending, unclaimed task, with progress min(p+20, 100) below 100 and the latch closed; every other toggle pays nothing and keeps the latch; finish time set exactly when done; no other field changes |
| Rewards.ToggleKeepsInvariants | App.tsx:347-363 | the latch never opens, progress stays in [0, 100], at most one ticket per toggle |
| Rewards.ToggleFarming | App.tsx:345-361 | any sequence of toggles on one task pays one ticket if it closed the latch and none otherwise; progress stays in [0, 100] |
| Rewards.DoneUndoRedo | App.tsx:345-361 | done, undone, done again pays one ticket in all |
| Rewards.ProgressClamp | App.tsx:357-358 | from 90% a completion gives 100, not 110 |
| Rewards.HatchedDuck | App.tsx:379-386 | the hatched duck is a catalog template with one star, the given id and the hatch time |
| Rewards.Hatch | App.tsx:376-390 | refused exactly below 100%; otherwise progress 0, one more egg and nothing else on the user, and the inventory grows by at most one |
| Rewards.HatchEffect | App.tsx:376-390 | refused exactly below 100%; otherwise progress 0, one more egg, tickets and pity untouched, and a one-star catalog duck adds one star under its name |
| Tasks.FindTask | App.tsx:337 | the first position with the id, or -1 exactly when no task has it |
| Tasks.NewTask | App.tsx:314-322 | a new task is pending, unfinished and unclaimed, with the given id, text and creation time, and the entered deadline or now |
| Tasks.EditTasks | App.tsx:307-311 | an edit keeps the length, and every task keeps its id, status and reward latch |
| Tasks.ReplaceTasks | App.tsx:372 | the list keeps its length and every task with another id is kept in place |
| Tasks.DeleteTasks | App.tsx:404 | no task with the deleted id remains, and the list does not grow |
| Tasks.ConfirmsDelete | App.tsx:403 | only a four-letter input can confirm |
| Tasks.SearchTasks | App.tsx:419 | every task found contains the term ignoring case, and the list does not grow |
| Tasks.ReplaceEffect | App.tsx:372 | the updated task takes every position with the id; every other task keeps its value and place |
| Tasks.NewTaskEarns | App.tsx:314-322 | a new task is pending and unclaimed with the given or current deadline, and completing it pays a ticket |
| Tasks.EditEffect | App.tsx:306-311 | an edit changes only the text, and the deadline when one was entered, of the edited task |
| Tasks.DeleteEffect | App.tsx:404 | deletion removes exactly the tasks with the id, keeps the others in order, and changes nothing when the id is absent |
| Tasks.ConfirmPhrase | App.tsx:403 | "okay" in any case confirms; "ok", "okay " and "" do not |
| Tasks.SearchEffect | App.tsx:419 | a task is found exactly when its text contains the term ignoring case; the empty term finds every task |
| TaskList.CompareTotalPreorder | TaskList.tsx:32-45 | each comparator is total and transitive |
| TaskList.SortEffect | TaskList.tsx:32-45 | the sorted list is a permutation of the filtered list, ordered by the comparator |
| TaskList.SortOrders | TaskList.tsx:33-43 | ascending and descending deadline orders; STATUS puts pending before done, soonest deadline first within a status |
| TaskList.FilterEffect | TaskList.tsx:24-29 | ALL keeps every task; PENDING and DONE keep exactly the tasks with that status, in order |
| TaskList.FilterTasks | TaskList.tsx:24-29 | every task shown passes the filter, and the list does not grow |
| TaskList.Compare | TaskList.tsx:32-45 | a tie is reported only for equal deadlines, and under STATUS only for equal statuses too |
| TaskList.SortTasks | TaskList.tsx:32 | the sorted copy holds the same tasks, each as often, as the filtered list |
| TaskList.VisibleTasks | TaskList.tsx:24-45 | the rows shown are exactly the tasks that pass the filter, each as often, sorted by the chosen comparator |
| TaskList.HeatBadge | TaskList.tsx:159-164 | the heat badge shows exactly on a pending row that does not show the claimed badge |
| TaskList.ClaimedBadge | TaskList.tsx:165-170 | the claimed badge shows only on a pending row whose reward was paid |
| TaskList.Overdue | TaskList.tsx:111 | only a pending row whose deadline has passed is overdue |
| TaskList.BadgesTellTheReward | TaskList.tsx:111-168 | a pending row shows exactly one badge and a done row none; the heat badge shows exactly when completing pays a ticket; a done task is never overdue |
| Advisor.RateLimitSigns | geminiService.ts:59 | for any error: a 429 status, a 429 code, a message with "429" anywhere in it, or the status RESOURCE_EXHAUSTED each make it a quota error; an error with none of the four is not one; a status named "429" is not the number 429 |
| Advisor.Fresh | geminiService.ts:22-25 | a fresh cache has both items stored and a time that parses |
| Advisor.Coach | geminiService.ts:15-68 | the message is never empty; the model is asked only with a key and a stale or missing cache; the storage gains at most the two cache keys |
| Advisor.CacheServesAnswer | geminiService.ts:18-54 | after an answer at time t, every call before t + 300000 returns the same message from the cache without calling the model |
| Advisor.CacheExpires | geminiService.ts:22-28 | from t + 300000 on, the model is called again |
| Advisor.CoachOutcomes | geminiService.ts:15-68 | the message is never empty; without a key nothing is asked or stored; a fresh cache, whoever wrote it, is returned with the storage unchanged and no call; only an answer writes the storage, and only the two cache keys; an empty answer gives "Quack! Keep going!"; a quota error returns the cached message even when stale, and the quota message when nothing is cached; any other error the connection fallback |
| Advisor.Storage.GetItem | geminiService.ts:19-20 | a stored item, or "" when there is none |
| Advisor.Storage.SetItem | geminiService.ts:51-52 | the item is set and nothing else changes |
| Advisor.GetProductivityCoach | geminiService.ts:15-69 | the message, whether the model was asked, and the storage afterwards are those of the coach decision |
| Advisor.StripBullet | geminiService.ts:85 | the stripped line is a suffix of the line |
| Advisor.Steps | geminiService.ts:85 | there are no more steps than lines |
| Advisor.StripBulletEffect | geminiService.ts:85 | at most one leading dash or star and the white space after it are removed; a line not starting with one is kept |
| Advisor.KeptLinesMembers | geminiService.ts:85 | a line is kept exactly when it is not blank |
| Advisor.StepsEffect | geminiService.ts:85 | step i is kept line i with its bullet stripped, and no step spans two lines |
| Advisor.StepsOfLine | geminiService.ts:85 | a single line gives one step unless it is blank |
| Advisor.StepsByLine | geminiService.ts:85 | the steps of `a + "\n" + b` are those of `a` followed by those of `b` |
| Advisor.EmptyAnswer | geminiService.ts:84-85 | an answer without text gives no steps |
| Advisor.BareBullet | geminiService.ts:85 | a line of only a bullet and spaces passes the filter and gives an empty step |
| Advisor.SuggestSubtasks | geminiService.ts:71-94 | the fixed lists or the parsed steps: at least two suggestions when there is no key or the call failed, and no suggestion spans two lines |
| AppState.App.constructor | App.tsx:185-204 | nobody signed in, empty lists and form, invariant holds |
| AppState.App.RestoreSession | App.tsx:220-228 | the saved user with the pity default, then the saved lists |
| AppState.App.HandleLogin | App.tsx:267-270 | the given user, then the saved lists |
| AppState.App.LoadUserData | App.tsx:243-251 | saved tasks as they are, saved ducks with the star default, missing lists empty |
| AppState.App.HandleLogout | App.tsx:272-277 | no user and empty lists |
| AppState.App.MergeDucks | App.tsx:280-300 | the loop leaves the inventory of the merge specification and keeps unique names and non-negative stars |
| AppState.App.ToggleTaskStatus | App.tsx:335-374 | no change without a user or the id; otherwise the reward transition on the first task with the id, written to every task with the id; invariant kept |
| AppState.App.HatchEgg | App.tsx:376-390 | no change without a user or below 100%; otherwise the hatch transition; invariant kept |
| AppState.App.RequestDeleteTask | App.tsx:395-398 | the id awaits confirmation with an empty input |
| AppState.App.ConfirmDeleteTask | App.tsx:400-408 | with an id awaiting and "okay" typed, the tasks with it are removed and the dialog clears; otherwise nothing changes |
| AppState.App.StartEdit | App.tsx:410-412 | the form holds the task, its text and its deadline |
| AppState.App.HandleAddTask | App.tsx:302-327 | nothing without a user or text; otherwise the edit or the appended new task, and a cleared form |
| AppState.App.ResetForm | App.tsx:329-333 | the form is empty |
| AppState.App.Roll | App.tsx:617-626 | a refused roll changes nothing; otherwise tickets debited by the amount, the batch merged in and the pity counter replaced by the batch's; invariant kept |

## Left out

- Rendering, Tailwind classes, confetti, the alert after a hatch, theme toggling, `EggIncubator.tsx` and `DuckInventory.tsx`: display only.
- `AuthScreen` (App.tsx:18-161): a simulated backend with mock hashing. Only its `pityCounter || 0` default at line 65 is kept; `Types.MigrateUser` gives the same counter for a missing or numeric field.
- `localStorage` persistence effects (App.tsx:220-257) other than the two defaults. The saved records are parameters of `AppState.App.RestoreSession` and `AppState.App.HandleLogin`.
- Random numbers, generated ids and the clock are parameters.
- The statistical distribution of tiers (55/30/13/2%) is not stated; only the threshold mapping is.
- Date parsing and formatting, and the time-zone shift in `startEdit`: deadlines are integer timestamps. An invalid date string, which the comparator would turn into NaN, is not modelled.
- The `setTimeout` delays, React batching of state updates, stale closures and `useEffect` triggers: handlers run one after another on the current state.
- The network call and the prompt text: the call is the `Reply` input. Its answer time is a separate input because the service reads the clock again after the call.
- `TaskList.handleGetSubtasks` and its loading state: a UI cache of suggestions.
- Text.ToLower: only ASCII letters are lower-cased; Unicode case mapping is not modelled.
- Text.IsSpace: covers ASCII white space and the no-break space, not every Unicode space separator.
- Text.ParseInt: base 10 only; the hexadecimal prefix and NaN-valued arithmetic are not modelled.
- Types.StarLevel: a missing or falsy `stars` field is represented as 0, so a stored star level of NaN is not distinguished from 0.
- Rewards.Toggle: `user.eggProgress || 0` is read as the number itself; a missing or NaN progress is not modelled.
- Gacha.Roll: the amount is a natural number, since the UI only rolls 1 or 10.
- AppState.App.Roll: requires a signed-in user because the gacha screen is only rendered for one. The pity counter is the user's own, which `Types.MigrateUser` has made a number; the `|| 0` of App.tsx:620 therefore changes nothing.
