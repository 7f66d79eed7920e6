# Kitchen timer scheduling core, modelled in Dafny

A kitchen timer schedules several cooking items against one shared master
countdown so that every item finishes when the clock reaches 0. Each item has
a name and a duration in seconds. The model covers:

- the item store's handlers: add, remove by identity, edit by identity, reset
  and play/pause;
- the one-second clock effect with its final bell;
- the item list's view of the clock. This splits the items into "to start"
  (begin-in value `T - d > 0`, longest first) and "in progress"
  (`T - d <= 0`, shortest first), and computes each row's begin-in value and
  the `m:ss` clock face;
- the "Next:" line: the pending items of the longest pending duration, and
  the wait until they start;
- the alert effect, which rings each list position at most once, when its
  item's begin-in value reaches 0 while the clock runs.

Modules follow the program's parts:

- `Lists`: order-preserving filter.
- `Items`: the item record, removal, replacement and the longest duration.
- `Sorting`: a stable sort by duration, ascending or descending.
- `Display`: the `m:ss` face and a reader that inverts it.
- `Schedule`: classification, begin-in values and next-up.
- `Countdown`: the clock and its run flag.
- `Alerts`: the played-positions bookkeeping, and its correction keyed by item identity.
- `Kitchen`: the whole application state and its handlers.

The source compares items by object identity. Here every item carries an
`id`, handed out from a counter in the state. `Valid` states that ids are
unique and below the counter, and every handler preserves it. JavaScript's
`Array.prototype.sort` is stable, so the model's sort is too. Stability is
proved per duration, so ties on the "Next:" line keep their list order.

The clock effect and the alert effect are pure functions from state to state.
A tick reports the final bell as a flag and the alert effect reports the rung
positions. The alert effect re-runs whenever the items or the clock change:
after every tick that moves the clock, and after every handler. The edit and
remove buttons stay enabled while the clock runs, so an edit or a removal
during a countdown can ring an item at once. Pressing play alone does not
re-run the effect. So in an uninterrupted countdown, an item whose duration
equals the clock when play is pressed never rings. Nor, in an uninterrupted
countdown, does an item of duration 0: the clock has stopped by the time it
reads 0. Play pressed on a clock at 0 leaves it running until the next second
clears the flag, and `Kitchen` lets a handler run in between; an edit there
can still ring a 0-minute item.

Reset stops the clock and sets it to the longest item, but, as in the source,
it does not forget the played positions. A countdown after a reset therefore
rings no position that rang in an earlier one.

Played positions are keyed by list index, as in the source. A removal shifts
later items to lower positions, which has two consequences:

- an item that has already rung can move onto a position that has not, and
  ring a second time;
- an item that has not rung can move onto a position that has, and never
  ring.

`Kitchen` keeps this behaviour as written so that its traces match the
program. `Alerts` also holds the corrected bookkeeping, keyed by item
identity, under which no item rings twice whatever is removed (see
"## Findings").

## Model

| member | source | states |
|---|---|---|
| Items.Seconds | src/App.tsx:34 | a duration entered in minutes is stored as a whole number of minutes in seconds: divisible by 60, quotient the minutes |
| Items.Names | src/App.tsx:95 | the names of a list, one per item and position by position |
| Items.Without | src/App.tsx:44-47 | removal keeps exactly the items whose identity differs from the removed one; the removed identity is gone from the id set and every other identity stays |
| Items.WithoutAbsent | src/App.tsx:45 | removing an identity that is not in the list leaves the list unchanged |
| Items.WithoutUnique | src/App.tsx:45 | with unique identities, removal deletes exactly the one position holding the identity and keeps the rest in their order |
| Items.WithoutKeepsUnique | src/App.tsx:44-47 | removal keeps identities unique |
| Items.Replace | src/App.tsx:52-57 | edit keeps the length and every identity; items with another identity are unchanged; the matched item takes the new name and duration |
| Items.ReplaceKeepsIds | src/App.tsx:52-57 | edit leaves the set of identities, and their uniqueness, unchanged |
| Items.ReplaceAbsent | src/App.tsx:52-57 | editing an identity that is not present changes nothing |
| Items.ReplaceIdempotent | src/App.tsx:52-57 | saving the same edit twice equals saving it once |
| Items.WithoutReplace | src/App.tsx:44-57 | removing an edited item gives the same list as removing it unedited |
| Items.Longest | src/App.tsx:62 | the maximum duration: every item is at most it and, for a non-empty list, some item reaches it; 0 for no items |
| Items.LongestMembers | src/App.tsx:190 | the maximum depends only on which items are present, not on their order |
| Items.LongestAppend | src/App.tsx:37 | appending an item makes the maximum the larger of the old maximum and the new duration |
| Lists.Filter | src/components/ItemList.tsx:77-80 | the kept elements are elements of the input that pass the test, no longer than the input, and every passing element is kept |
| Lists.FilterSplits | src/components/ItemList.tsx:77-80 | two complementary filters together hold every element exactly as often as the input |
| Sorting.Sort | src/components/ItemList.tsx:81-82 | the result is a permutation of the input, ordered by the requested direction of duration |
| Sorting.SortMembers | src/components/ItemList.tsx:81-82 | sorting neither adds nor drops an item |
| Sorting.InsertStable | src/App.tsx:93 | inserting an item puts it in front of the items of its own duration and keeps their order |
| Sorting.SortStable | src/App.tsx:93 | the sort is stable: for each duration, its items appear in the order of the input |
| Display.Split | src/App.tsx:146-147 | minutes and seconds of a time: seconds below 60 and `minutes * 60 + seconds` is the time |
| Display.Decimal | src/components/ItemList.tsx:74 | `toString` of a count: at least one digit, all digits, one digit exactly below 10, no leading zero |
| Display.ParseDecimalOf | src/components/ItemList.tsx:74 | the decimal rendering reads back as the number it was made from |
| Display.Pad2 | src/components/ItemList.tsx:74 | `padStart(2, "0")`: length at least 2, the input as the suffix, zeros in front |
| Display.SecondsField | src/components/ItemList.tsx:73-74 | the padded seconds field of a value below 60 is two digits that read back as the value |
| Display.FormatTime | src/components/ItemList.tsx:71-75 | the face has a colon three places from the end, with at least one minutes digit before it |
| Display.ParseFormat | src/components/ItemList.tsx:71-75 | reading the face back gives exactly the time it shows |
| Display.FormatInjective | src/components/ItemList.tsx:71-75 | different times never show the same face |
| Schedule.PendingIsWaiting | src/App.tsx:92 | the next-up test `d < T` and the to-start test `T - d > 0` select the same items |
| Schedule.ToStart | src/components/ItemList.tsx:80-81 | the to-start list holds exactly the items with `d < T`, in non-increasing duration |
| Schedule.InProgress | src/components/ItemList.tsx:77-82 | the in-progress list holds exactly the items with `T <= d`, in non-decreasing duration; an item with `d == T` is in progress |
| Schedule.Partition | src/components/ItemList.tsx:77-80 | the two lists together are a permutation of the items, and each item is in exactly one of them |
| Schedule.BeginIn | src/components/ItemList.tsx:99 | the clamped begin-in value is 0 exactly when the item has started, and otherwise adds up with the duration to the clock |
| Schedule.BeginInToStart | src/components/ItemList.tsx:98-99 | every to-start row shows `T - d`, strictly positive; the clamp never applies |
| Schedule.Pending | src/App.tsx:92 | the pending items are exactly the items with `d < T` |
| Schedule.SortedLongest | src/App.tsx:103-110 | the head of the descending sort carries the longest duration |
| Schedule.LongestFirst | src/App.tsx:91-94 | taking the items that share the head's duration from the descending sort selects the items of the longest duration, in list order, and at least one |
| Schedule.NextUp | src/App.tsx:87-94 | next-up equals an independent reference: the pending items filtered to the longest pending duration. So it holds exactly the pending items of that duration, ties included, in list order, and is empty exactly when nothing is pending (including when there are no items) |
| Schedule.NextItems | src/App.tsx:87-97 | position by position the names of the next-up items; each is the name of a pending item of the longest pending duration, every such item's name is shown, and none is shown exactly when nothing is pending |
| Schedule.NextItemTimer | src/App.tsx:99-111 | the wait is 0 when nothing is pending (including no items); otherwise it is `T` minus the longest pending duration, strictly positive and at most any pending item's wait |
| Countdown.Tick | src/App.tsx:67-85 | running with time left: the clock drops by exactly 1; at 0 the run flag clears; the run flag survives only above 1; the bell rings exactly on the tick from 1 |
| Countdown.Toggle | src/App.tsx:171-177 | play/pause flips the run flag and keeps the time |
| Countdown.ToggleTwice | src/App.tsx:171-177 | pausing and resuming gives back the same timer |
| Countdown.PlayAtZero | src/App.tsx:78-80 | play on a clock at 0 is undone by the next pass of the clock effect, with no bell |
| Countdown.StoppedAtZero | src/App.tsx:78-80 | a stopped clock at 0 stays as it is |
| Countdown.RunFor | src/App.tsx:67-85 | repeated ticks never raise the clock and never move a paused clock |
| Countdown.RunBeforeEnd | src/App.tsx:70-77 | before the last second a running clock is still running, `k` seconds lower, with no bell |
| Countdown.FullCountdown | src/App.tsx:67-85 | a running clock at `T > 0` reaches 0 after exactly `T` ticks, stops and rings the bell once |
| Countdown.RunSplit | src/App.tsx:67-85 | `a` ticks then `b` ticks is `a + b` ticks, bells added |
| Countdown.Reset | src/App.tsx:186-192 | reset stops the clock and sets it to the maximum item duration (0 for no items) |
| Alerts.Scan | src/components/ItemList.tsx:58-68 | from a position on: position `i` rings exactly when `T - d == 0`, the clock runs and `i` was not played; rung positions are added, in increasing order |
| Alerts.AlertPass | src/components/ItemList.tsx:57-69 | one run of the alert effect: the played set only grows, by exactly the rung positions; none rings twice; a stopped clock rings nothing |
| Alerts.Replay | src/components/ItemList.tsx:55-69 | over any series of runs no position rings twice, and no position played beforehand rings |
| Alerts.ScanById | src/components/ItemList.tsx:58-68 | corrected run keyed by identity: the rung identities are exactly those of the items that start now and have not rung, none twice, and none while stopped |
| Alerts.AlertPassById | src/components/ItemList.tsx:57-69 | one corrected run over the whole list: the same exact set of rung identities, and the heard set grows by exactly them |
| Alerts.ReplayById | src/components/ItemList.tsx:55-69 | corrected bookkeeping over any series of runs, whatever is removed, added or edited between them: no item identity rings twice, and none heard beforehand rings |
| Alerts.RemovalRingsOnceById | src/components/ItemList.tsx:55-69 | with identities, for any list, any remembered set and any removed item: the run after a removal at the same clock value rings nothing, so no item that rang rings again |
| Alerts.RemovalKeepsNextById | src/components/ItemList.tsx:55-69 | with identities, for any list with unique identities and any removed item: an item that stays, has not rung and did not start at the earlier run rings when its own start arrives after the removal |
| Kitchen.Init | src/App.tsx:27-29 | the application starts with no items, the clock at 0 and stopped, and nothing played |
| Kitchen.AddItem | src/App.tsx:33-38 | add appends exactly one item with a fresh identity, the name and `minutes * 60`; the items before it are unchanged; the clock becomes `max(old clock, duration)` |
| Kitchen.AddKeepsFullScale | src/App.tsx:37 | a clock at the maximum duration stays at the maximum duration after an add |
| Kitchen.RemoveItem | src/App.tsx:44-47 | remove drops the items with that identity and keeps clock, run flag, played set and counter |
| Kitchen.RemoveKeepsValid | src/App.tsx:44-47 | removal keeps identities unique and below the counter |
| Kitchen.RemoveExact | src/App.tsx:44-47 | removal deletes exactly one position and keeps the rest in order; an absent identity changes nothing |
| Kitchen.SaveItem | src/App.tsx:49-65 | only the matched item changes, to the new name and `minutes * 60`; a running clock is untouched; a stopped clock becomes the maximum duration of the edited list |
| Kitchen.ResetTimer | src/App.tsx:186-192 | reset stops the clock and sets it to the longest item, leaving the items unchanged |
| Kitchen.ResetIdempotent | src/App.tsx:186-192 | resetting twice equals resetting once |
| Kitchen.PlayPause | src/App.tsx:171-177 | play/pause flips the run flag and keeps the time, items, played set and id counter, hence validity |
| Kitchen.Alert | src/components/ItemList.tsx:57-69 | after a change, position `i` rings exactly when its item starts now, the clock runs and `i` was not played; with the clock stopped nothing changes |
| Kitchen.EditWhileRunning | src/components/ItemList.tsx:57-69 | in any running state, an edit that gives an unplayed position's item a duration equal to the clock rings that position at once |
| Kitchen.Step | src/App.tsx:67-85 | one second: the tick's clock and bell, then the alert effect when the clock moved; no position rings twice |
| Kitchen.RunSeconds | src/App.tsx:67-85 | over any number of seconds the items stay, no position rings twice and no position played beforehand rings |
| Kitchen.FullCountdownAlerts | src/components/ItemList.tsx:57-69 | a full countdown from `T` stops at 0 with one bell, and rings exactly the unplayed positions whose duration lies strictly between 0 and `T`, each once |
| Kitchen.QuietRun | src/App.tsx:67-85 | a running countdown in which no item starts during the next `n` seconds runs them with the clock `n` lower and still running, no bell, no alert and nothing remembered |
| Kitchen.ThreeItemsAt121 | src/App.tsx:33-38 | adding a and b of at most 2 minutes and c of 3 minutes to a fresh timer and pressing play reaches 2:01, running, after 59 quiet seconds |
| Kitchen.RemoveRingsAgain | src/components/ItemList.tsx:58-66 | as written, one reachable trace: add a (1 min), b (2 min), c (3 min), press play; at 2:00 b rings at position 1; removing a moves b to position 0, which has not rung, and b rings again |
| Kitchen.RemoveSilences | src/components/ItemList.tsx:58-66 | as written, one reachable trace: add a (2 min), b (1 min), c (3 min), press play; at 2:00 a rings at position 0; removing a moves b onto position 0, and b never rings, however long the clock runs |
| Kitchen.SpreadMax | src/App.tsx:189-191 | `Math.max(...durations)` as written: minus infinity for no items, the maximum otherwise |
| Kitchen.ResetAsWritten | src/App.tsx:186-192 | with items, the reset as written agrees with the corrected reset |
| Kitchen.ResetWithNoItems | src/App.tsx:189-191 | with no items the reset as written stores minus infinity, while the corrected reset stores 0 |
| Kitchen.RiceAndChickenViews | src/components/ItemList.tsx:77-82 | rice (20 min) and chicken (5 min) on a 20:00 clock: chicken is to start and next up, 15:00 away; rice is in progress |
| Kitchen.RiceAndChicken | src/App.tsx:33-38 | adding rice then chicken to a fresh timer sets the clock to 20:00, with the views above |

## Left out

- Rendering, layout, hooks and their scheduling: the clock effect is one step function per second, and `setInterval`/`clearInterval` are not modelled. State updates inside a tick are taken as batched: the alert effect sees the new clock and run flag together.
- Sound: `new Audio(...).play()` is reported as the `bell` flag of a tick and the `rang` positions of an alert run.
- The set-timer prompt (src/App.tsx:202-206) and the add/edit forms: they parse text with `parseInt` and floating point. Handlers take a natural number of minutes.
- The `beginAt` field written on add and edit: it is not part of the item record and nothing reads it.
- The decorative snowfall component.
- Kitchen.PlayPause: models the click handler in both directions. The rendered button also carries `disabled` while the clock runs; that attribute is not modelled.
- Schedule.NextItems: gives the list of names; the `join(", ")` into one display string is not modelled.
- Display.Decimal: renders every natural number as plain digits. JavaScript numbers are doubles: `toString` switches to exponent notation from 10^21, and `minutes * 60` and the clock are exact only up to 2^53. The model's unbounded integers do not model either limit.
- Display.FormatTime: its contract states only the shape of the face. That it shows the right minutes and seconds is stated by Display.ParseFormat, through a reader that inverts it.
- Countdown.RunFor: its contract only bounds the clock; the exact course of a countdown is stated by Countdown.RunBeforeEnd and Countdown.FullCountdown.
- Kitchen.SaveItem: on an empty list the source's `Math.max` would store minus infinity. The edit dialog only opens on an existing item, so the list is never empty there, and the model uses 0.

## Findings

| source | as written | input that shows it | evidently intended | confidence | as-written member | corrected member |
|---|---|---|---|---|---|---|
| src/App.tsx:189-191 | reset stores `Math.max(...items.map(d))`, which is `-Infinity` for an empty list | reset with no items | the clock resets to 0 when there are no items | not executed | Kitchen.ResetAsWritten | Kitchen.ResetTimer |
| src/components/ItemList.tsx:58-66 | the alert effect remembers rung list positions, and a removal shifts later items to lower positions | add a (1 min), b (2 min) and c (3 min) and press play: at 2:00 b rings at position 1; removing a then moves b to position 0, and b rings again | each item rings once when its start arrives, whatever is removed | not executed | Kitchen.RemoveRingsAgain | Alerts.ReplayById |
