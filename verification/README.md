# Mood journal core in Dafny

A model of the logic of a small React mood journal. Users log a mood, an
energy level, hours of sleep and activity tags. The dashboard then shows a
streak, an average "stability" score, a seven-point mood chart and a
timeline. The model covers:

- the data model and the static catalogues (`types.ts`, `constants.ts`);
- the entry store: start-up load with demo seeding, and `addEntry`, which
  prepends a new entry (`context/MoodContext.tsx`);
- the store's two statistics, `getRecentStreak` and `getAverageMoodScore`;
- the dashboard's derived values: chart series, dominant mood, the
  timeline's mood lookup, and the rendered activity tags
  (`screens/DashboardScreen.tsx`);
- the logger form as a state machine: mood carousel, energy badge, activity
  toggle, sleep stepper, date picker, and the record built on save
  (`screens/LoggerScreen.tsx`).

Everything is a pure function over immutable values. The platform's
services are parameters:

- `now` is the current instant in epoch milliseconds;
- `freshId` is the new entry's id;
- `fmt` renders an instant as ISO text;
- `parse` reads a date string, or answers None for an invalid date;
- `parseBlob` reads the stored JSON blob;
- `draws` holds the random numbers used for seeding;
- `fromInput` turns the date picker's text into an instant;
- `dayName` is the chart's weekday label.

Files, one module each:

- `types.dfy` (`Types`): `MoodType`, `MoodEntry`, `EntryData` (an entry
  without id, date and timestamp), the predicates `IdsDistinct`,
  `NewestFirst`, `NoDup`, and the helper `Min`.
- `constants.dfy` (`Constants`): the mood catalogue (type keys only, in
  display order), the activity ids, and `findIndex`.
- `mood_context.dfy` (`MoodContext`): load, seeding, `addEntry`, streak,
  average score.
- `dashboard.dfy` (`Dashboard`): chart series, dominant mood, timeline
  lookup, activity tags.
- `logger.dfy` (`Logger`): the form state, its events, the validity
  invariant, and save.

Notes on the model:

- Energy and sleep in a stored entry are `real`, because they are
  JavaScript numbers and seeded entries hold fractions. The logger keeps
  sleep as a whole number of half-hours (0..48, starting at 14, which is
  7 h) and saves that count halved. Every reachable sleep value therefore
  lies on the half-hour grid.
- The collection is newest-first by insertion, not by timestamp. A save
  with a backdated date is still put at the front.
  `AddEntryKeepsNewestFirst` states exactly when timestamp order survives.
- `getRecentStreak` loops over the entries and caps the count at the
  length. It returns the entry count; there is no consecutive-day check.
- An empty stored string counts as absent, so it seeds the demo entries.
  An empty `date` argument to `addEntry` also counts as absent, so the entry
  is stamped with now.
- A date string that the platform reads as an invalid date makes the ISO
  rendering throw before the list changes. `AddEntry` returns `Err` in that
  case.
- The chart scale (catalogue position × 20 + 20) runs opposite to the score
  weights: Great charts at 20 and Bad at 100 (`ChartScale`).
- The model keeps the entry list immutable, so building the chart series
  cannot change it. The source gets the same effect by copying with `slice`
  before `reverse`.
- `AddEntry` accepts any energy and sleep value. The documented ranges,
  energy 0–100 and sleep in hours, are guaranteed for entries saved from
  the logger form (`SaveRecordsForm`) and for the demo entries
  (`SeedEntries`); an entry handed to `AddEntry` directly or read from a
  stored blob may carry any value. Nothing in the journal sets `weather`:
  saved and demo entries carry none.
- The journal has no update, delete or sleep-rating operation, and none is
  modelled.

## Model

| member | source | states |
|---|---|---|
| Constants.FindIndex | screens/DashboardScreen.tsx:15 | `findIndex` returns the first position holding the mood, and -1 exactly when the mood is absent |
| Constants.MoodCatalogue | constants.ts:3-54 | the catalogue has five definitions typed Great, Good, Okay, Low, Bad in that order, each exactly once; position lookup is total (0..4) and position 2 is Okay |
| Constants.ActivityCatalogue | constants.ts:56-64 | seven activity ids, pairwise distinct, including `work` and `exercise` |
| MoodContext.ResolveInstant | context/MoodContext.tsx:47 | an absent or empty date resolves to now; any other date resolves to its reading, which may be invalid |
| MoodContext.AddEntry | context/MoodContext.tsx:46-55 | the result is the new entry followed by the old list unchanged; the new entry copies mood, energy, sleep, activities, note and weather, gets the fresh id, and takes date and timestamp from one instant (the supplied non-empty date, else now); an unreadable date fails without changing the list |
| MoodContext.AddEntryKeepsOlder | context/MoodContext.tsx:54 | every older entry keeps its contents and relative order, shifted back by one |
| MoodContext.AddEntryKeepsIdsDistinct | context/MoodContext.tsx:50-52 | a fresh id keeps ids unique across the collection |
| MoodContext.AddEntryKeepsNewestFirst | context/MoodContext.tsx:47-54 | the list stays newest-first by timestamp if and only if the new entry is no older than the previous front entry |
| MoodContext.RecentStreak | context/MoodContext.tsx:57-66 | the streak equals the number of entries, 0 when there are none |
| MoodContext.Weight | context/MoodContext.tsx:70 | score weights lie in 1..5; only Great weighs 5 and only Bad weighs 1 |
| MoodContext.TotalWeight | context/MoodContext.tsx:70-71 | the weight total of n entries lies between n and 5n |
| MoodContext.AverageMoodScore | context/MoodContext.tsx:68-73 | 0 for no entries; otherwise 20 × mean weight rounded half up, and always in [20, 100] |
| MoodContext.AllGreatScores100 | context/MoodContext.tsx:70-72 | a non-empty journal of only Great entries scores 100 |
| MoodContext.AllBadScores20 | context/MoodContext.tsx:70-72 | a non-empty journal of only Bad entries scores 20 |
| MoodContext.ScoreIsOrderFree | context/MoodContext.tsx:71 | two lists with the same entries in any order score the same |
| MoodContext.SeedEntries | context/MoodContext.tsx:26-37 | seven demo entries, entry i stamped now − i days with a matching ISO date; with draws in [0, 1) energy lies in [60, 90) and sleep in [6, 9), in exact arithmetic |
| MoodContext.SeedShape | context/MoodContext.tsx:27-36 | demo ids are seed-0 .. seed-6 and pairwise distinct; timestamps strictly decrease; moods are Great, Okay, Great, Good, Great, Okay, Great; each carries the activities `work` and `exercise` (both catalogue ids), the note "Generated sample entry" and no weather |
| MoodContext.Load | context/MoodContext.tsx:16-39 | nothing (or an empty string) stored seeds the demo entries; a blob that parses becomes the list; a malformed blob is logged and the list stays empty |
| MoodContext.FirstRunSeeds | context/MoodContext.tsx:25-38 | a first run shows seven newest-first entries with distinct ids, the first stamped now |
| Dashboard.ChartValue | screens/DashboardScreen.tsx:15 | a mood's chart height lies in [20, 100] |
| Dashboard.ChartScale | screens/DashboardScreen.tsx:15 | chart value = 120 − 20 × score weight, a multiple of 20 in [20, 100] (Great 20 … Bad 100) |
| Dashboard.ChartSources | screens/DashboardScreen.tsx:13 | the chart takes min(7, n) entries, point k from entry min(7, n) − 1 − k |
| Dashboard.ChartData | screens/DashboardScreen.tsx:13-16 | min(7, n) points, point k labelled and valued from entry min(7, n) − 1 − k |
| Dashboard.ChartIsChronological | screens/DashboardScreen.tsx:13 | for a newest-first list the chart's entries run oldest to newest |
| Dashboard.ChartAfterAdd | screens/DashboardScreen.tsx:13-16 | after an entry is prepended the chart ends with its point, preceded by the chart of the previous newest six |
| Dashboard.DominantMood | screens/DashboardScreen.tsx:18-20 | the headlined mood is the newest entry's, or the catalogue's third definition, Okay, when there are no entries |
| Dashboard.DominantMoodFollowsAdd | screens/DashboardScreen.tsx:18-20 | after a successful save the dominant mood is the saved mood; with no entries it is Okay, the catalogue's third definition |
| Dashboard.FindOrThird | screens/DashboardScreen.tsx:148 | lookup by type returns the matching definition, or the third definition when none matches |
| Dashboard.TimelineShowsOwnMood | screens/DashboardScreen.tsx:148 | the timeline's fallback is never taken: each entry shows its own mood |
| Dashboard.KeepKnown | screens/DashboardScreen.tsx:186-188 | every id occurs in the result as often as in the entry if it is known, and not at all otherwise |
| Dashboard.RenderedActivities | screens/DashboardScreen.tsx:184-195 | a tag is rendered exactly when the entry lists it and it names a catalogue activity |
| Dashboard.RenderedKeepsOrder | screens/DashboardScreen.tsx:186-195 | rendering distributes over concatenation, so tags keep the entry's order |
| Dashboard.RenderedAllKnown | screens/DashboardScreen.tsx:186-188 | when all ids are known, all are rendered, in order |
| Logger.HandleNext | screens/LoggerScreen.tsx:44-46 | from a catalogue position, next is (i + 1) mod 5, still a position |
| Logger.HandlePrev | screens/LoggerScreen.tsx:40-42 | from a catalogue position, previous is (i + 4) mod 5, still a position |
| Logger.PrevNextInverse | screens/LoggerScreen.tsx:40-46 | previous undoes next and next undoes previous |
| Logger.NextTimesRotates | screens/LoggerScreen.tsx:44-46 | k presses of next rotate the position by k mod 5 |
| Logger.FiveNextsReturn | screens/LoggerScreen.tsx:44-46 | five presses of next return to the starting mood |
| Logger.Without | screens/LoggerScreen.tsx:73 | the filter drops every copy of the id and keeps every other id exactly as often as before; it introduces no duplicate |
| Logger.WithoutConcat | screens/LoggerScreen.tsx:73 | the filter distributes over concatenation, so the remaining ids keep their order |
| Logger.WithoutAbsent | screens/LoggerScreen.tsx:73 | filtering out an id that is not selected leaves the list unchanged |
| Logger.ToggleActivity | screens/LoggerScreen.tsx:71-75 | the toggled id is selected afterwards iff it was not before; an unselected id is appended at the end; with the id removed, the list is the same before and after, so other ids keep their order and count; no duplicate is introduced |
| Logger.ToggleTwice | screens/LoggerScreen.tsx:71-75 | toggling an unselected id twice restores the list; toggling a selected id twice moves it to the end |
| Logger.SleepDown | screens/LoggerScreen.tsx:300 | minus never goes below zero and strictly lowers any positive value |
| Logger.SleepUp | screens/LoggerScreen.tsx:308 | plus never goes above 24 hours and strictly raises any value below it |
| Logger.DownTimesSaturates | screens/LoggerScreen.tsx:300 | k presses of minus from h half-hours give max(0, h − k): one half-hour per press, stopping at zero |
| Logger.UpTimesSaturates | screens/LoggerScreen.tsx:308 | k presses of plus from h ≤ 48 half-hours give min(48, h + k): one half-hour per press, stopping at 24 hours |
| Logger.SleepStepsInverse | screens/LoggerScreen.tsx:299-310 | inside [0, 24] h each button undoes the other; at 0 and at 24 h they saturate |
| Logger.EnergyLabel | screens/LoggerScreen.tsx:164 | High iff energy > 80, Moderate iff 40 < energy ≤ 80, Low iff energy ≤ 40 |
| Logger.EnergyLabelMonotone | screens/LoggerScreen.tsx:164 | more energy never gives a lower badge |
| Logger.Initial | screens/LoggerScreen.tsx:24-30 | the opening form is valid and dated today |
| Logger.InitialForm | screens/LoggerScreen.tsx:24-27 | the form opens valid, on Okay, with energy 75, 7 h sleep and no activities |
| Logger.HandleDateChange | screens/LoggerScreen.tsx:48-54 | a non-empty picker value replaces the selected date with its reading; an empty one keeps the previous date |
| Logger.DateChangeSettles | screens/LoggerScreen.tsx:48-54 | picking the same value twice is the same as once, and a later non-empty pick overrides an earlier one |
| Logger.Step | screens/LoggerScreen.tsx:40-75 | each form event changes only its own piece of state: carousel, energy, activities, sleep or date |
| Logger.EmptyDateChangeKeepsForm | screens/LoggerScreen.tsx:48-54 | an empty date-picker value leaves the whole form unchanged |
| Logger.StepKeepsValid | screens/LoggerScreen.tsx:40-75 | every form event keeps the mood index in 0..4, energy in 0..100, sleep in 0..24 h and the activities duplicate-free |
| Logger.RunKeepsValid | screens/LoggerScreen.tsx:24-75 | from a valid form, any sequence of events leaves it valid |
| Logger.SaveRecord | screens/LoggerScreen.tsx:59-64 | the record carries the shown mood, whose catalogue position is the carousel index, the energy, sleep in hours (half-hours halved), the selected activities, an empty note and no weather |
| Logger.Save | screens/LoggerScreen.tsx:56-69 | the save fails exactly when the selected date renders to a non-empty string the platform cannot read (an empty rendering counts as absent and stamps the entry with now); otherwise it prepends one entry with a fresh id that carries the saved record |
| Logger.SaveRecordsForm | screens/LoggerScreen.tsx:56-69 | saving a valid form prepends one entry carrying the shown mood, the energy, sleep in hours, the selected activities, an empty note and no weather, stamped with the selected date |

## Left out

- Presentation components, layout, gradients, icons (the `getIcon` tables), animation, ripples and modals: display only.
- `localStorage` and JSON: the stored blob and its parser are parameters. A blob that parses to something other than an entry array is not modelled.
- The save-on-change effect is not a separate member: it writes the whole current list, so the persisted list always equals `entries`.
- `crypto.randomUUID`, `Date.now` and `Math.random` are parameters (`freshId`, `now`, `draws`). Ids are not proved fresh; `AddEntryKeepsIdsDistinct` takes freshness as a premise.
- MoodContext.SeedEntries: the source reads the clock twice per demo entry, once for `date` and once for `timestamp`. The model uses one `now` for both, so it does not capture a millisecond tick between the two reads. Energy and sleep are computed in exact arithmetic, so the contract's upper bounds are open. With IEEE doubles, the largest draw 1 − 2^-52 rounds `60 + r * 30` to exactly 90 and `6 + r * 3` to exactly 9, so in the program the bounds are [60, 90] and [6, 9].
- Date and locale formatting (`toISOString`, `toLocaleDateString`, `toDateString`, weekday labels, `isToday`) and the picker's `yyyy-mm-dd` parsing are parameters (`fmt`, `parse`, `dayName`, `fromInput`).
- MoodContext.AverageMoodScore: models Math.round on the exact quotient. Floating-point error in `total / n * 20` near a half is not modelled.
- Sleep is in whole half-hours. The sleep progress bar width (screens/LoggerScreen.tsx:315) is display only.
- Logger.SaveRecordsForm: does not model the 800 ms delay before the save. The values saved are the ones shown when the button was pressed.
- The `useMood` provider check and React effect ordering: framework plumbing.
- The energy slider is modelled as an event carrying a value; the browser keeps that value in 0..100 (`FromSlider`).
