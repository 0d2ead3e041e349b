# Lucky draw — a Dafny model

A browser lucky draw for a jewellery shop. Customers register with name,
phone, email and receipt number and receive a ticket number such as
`LJ26123456`. An administrator draws winners on a wheel, one prize
category at a time: one Grand prize (Diamond Ring), one Second (Gold
Necklace), one Third (Silver Bracelet) and ten Consolation prizes
(Shopping Voucher & Pearl Earrings). A ticket that has won is out of every
later draw. Both lists, participants and winners, live in the browser's
local storage; the admin panel shows statistics, searches and deletes
participants, resets everything and exports a CSV file.

The model has eight modules:

- `Collections` — `filter`, `findIndex` and `find` on sequences, with an
  `Option` type.
- `Text` — decimal `String(n)`, `slice(-2)`, ASCII `toLowerCase`,
  `includes`, and comma-joined CSV lines.
- `Prizes` — the prize table and its caps.
- `Records` — the participant and winner records.
- `Draw` — the pure part of the draw: the eligible pool, the capacity gate,
  the index a random number selects, the record a draw writes, and the
  ledger invariant (caps hold, no ticket wins twice).
- `Registry` — the bookkeeping of the application script: the duplicate
  check, ticket numbers, the entry-status lookup, statistics, delete,
  search, CSV rows and the countdown.
- `Site` — class `LuckyDraw`, the page as one object. Its fields are the
  two stored lists and the draw page's state (selected category,
  `isSpinning`, which buttons are enabled, the winner fixed while the wheel
  turns, and the pending 500 ms reveal timers). Every event handler is a
  method that states its whole new state. `Valid()` is what every handler
  keeps. `Safe()` is what the draw is meant to guarantee: caps hold and no
  ticket wins twice. The end of an animation only follows a started spin,
  so its handlers require a turning wheel.
- `Scenarios` — event sequences on the page: the reveal race of the
  as-written animation end, and the corrected flow refusing a full
  category.

Random numbers, clock readings, ids and timestamps are parameters.
`Math.random()` is a fraction `num / den` with `num < den`. The ticket's
random part is `k < 900000`. The year is a natural number.

Where the code and its written description disagree, the model follows
the code:

- The duplicate check compares email and phone exactly, so it is
  case-sensitive (app.js:180).
- A generated ticket is never checked against existing tickets, so there
  is no retry (app.js:188, app.js:217-222). `Registry.TicketDeterminesRandomPart`
  shows that within one year, equal tickets have equal random parts.
- The Start button checks the whole participant store, not the eligible
  pool (draw.js:35-36). A Start whose pool is empty is caught only by
  Spin (draw.js:183-188).
- The remaining-prizes figure is the hard-coded `13 - winners.length`
  (app.js:355-356). `Registry.RemainingIsUnusedCapacity` proves it equals
  the unused capacity summed over the categories, provided every cap holds.
- Deleting a participant leaves their winner records in place (app.js:413).
- The entry-status lookup shows "Inactive" for a participant marked as
  winner (app.js:254).

## Model

| member | source | states |
|---|---|---|
| Collections.Filter | app.js:413 | the result holds exactly the elements passing the test and is no longer than the input (its order is FilterAppend) |
| Collections.FilterAppend | draw.js:289-291 | filtering distributes over concatenation, so it keeps the input order |
| Collections.FindIndex | draw.js:250 | the first index passing the test, or -1 exactly when none passes |
| Collections.Find | app.js:236-239 | the first element passing the test, or nothing exactly when none passes |
| Text.NatToString | app.js:219-221 | the decimal string of a number is non-empty, all digits, and ends with the digit of n mod 10 |
| Text.Lower | app.js:381-384 | lowercasing keeps the length, leaves no ASCII capital, and keeps every character that is not one |
| Text.LowerIgnoresCase | app.js:237 | two strings lowercase alike exactly when they have the same length and agree character by character up to the case of ASCII letters |
| Prizes.PrizeOf | draw.js:10-15 | the name, value, colour and cap of each of the four categories; every cap is at least one |
| Prizes.TotalCapacity | app.js:355 | the caps of the four categories add up to the hard-coded total of 13 |
| Draw.HasWon | draw.js:290 | a ticket has won exactly when some winner record carries it |
| Draw.CountCategory | draw.js:297 | the count is at most the ledger length, and zero exactly when no record is in the category |
| Draw.CanDrawPrize | draw.js:295-299 | a category with no record can be drawn, and a closed category holds at least one record |
| Draw.Eligible | draw.js:284-292 | the pool holds exactly the participants whose ticket is on no winner record, and is no longer than the store |
| Draw.EligibleKeepsOrder | draw.js:289-291 | the pool keeps store order: the pool of two stores laid end to end is their two pools laid end to end |
| Draw.EligibleWithoutWinners | draw.js:289-291 | before any draw the pool is the whole store |
| Draw.CountAfterAppend | draw.js:297 | appending a record raises its own category's count by one and leaves the other counts alone |
| Draw.CapacityGate | draw.js:295-299 | the gate admits a draw exactly when its record keeps the category within its cap |
| Draw.CountsAddUp | draw.js:297 | the four category counts add up to the number of winner records |
| Draw.SelectIndex | draw.js:191 | the selected index is inside the pool for every random fraction in [0, 1) |
| Draw.SelectIndexUniform | draw.js:191 | on a grid of n*m equally likely fractions each of the n indices is chosen by exactly m of them |
| Draw.WinnerRecordOf | draw.js:235-244 | the record copies ticket, name, phone and email from the winner and carries the label "name (value)" and the category |
| Draw.MarkWinner | draw.js:249-254 | only the first participant holding the ticket becomes a winner; nobody else changes, and nothing changes if nobody holds it |
| Draw.CommitKeepsLedgerValid | draw.js:245 | committing an eligible participant in a category that passed the gate keeps every cap and keeps tickets distinct |
| Draw.CommittedTicketLeavesPool | draw.js:289-291 | once committed, the winner's ticket is in no later pool, whatever the store holds |
| Draw.HasWonAppend | draw.js:245 | a recorded win stays recorded when the ledger grows |
| Registry.FindDuplicate | app.js:179-185 | nothing is found exactly when no participant has the email or the phone; a found participant has one of them |
| Registry.AppendKeepsUnique | app.js:180-203 | a participant the duplicate check lets through keeps emails and phones pairwise distinct |
| Registry.FilterKeepsUnique | app.js:413 | removing participants keeps emails and phones pairwise distinct |
| Registry.NewParticipant | app.js:191-200 | a new participant is active and carries the submitted contact data and the ticket |
| Registry.TicketNumber | app.js:217-222 | a ticket starts with "LJ" and has nine or ten characters |
| Registry.YearSuffix | app.js:219 | from year 10 on, the two year characters are the year's last two digits |
| Registry.SixDigits | app.js:220 | the random part is written with exactly six digits |
| Registry.TicketFormat | app.js:217-222 | a ticket is "LJ", the year part and six digits denoting 100000 + k; from year 10 on it has ten characters |
| Registry.TicketSuffix | app.js:221 | the last six characters of a ticket are the decimal string of 100000 + k |
| Registry.TicketRoundTrip | app.js:220-221 | reading the random part back from a generated ticket gives k |
| Registry.TicketDeterminesRandomPart | app.js:217-222 | two tickets of one year are equal only when their random parts are equal |
| Registry.CheckEntryStatus | app.js:234-264 | no entry exactly when no email matches ignoring case and no phone matches; otherwise the first match, "Active" for an active status and "Inactive" otherwise, and a prize exactly when a winner record has the ticket, taken from the first such record |
| Registry.GetStatistics | app.js:351-366 | the panel counts the participants and the winners |
| Registry.RemainingIsUnusedCapacity | app.js:355-356 | while every cap holds, the remaining figure is the unused capacity summed over the categories and is never negative |
| Registry.WithoutId | app.js:413 | the store after a delete holds exactly the participants with another id |
| Registry.WithoutIdKeepsOrder | app.js:413 | deleting keeps store order, and deleting an id nobody has changes nothing |
| Registry.SearchParticipants | app.js:379-385 | the table lists exactly the participants whose name, email or ticket (lowercased) or phone contains the term, and is no longer than the store |
| Registry.SearchKeepsOrder | app.js:379-385 | the search keeps store order and multiplicity: the result for two stores end to end is their two results end to end |
| Registry.MatchesTerm | app.js:380-384 | a participant matches a search for their own lowercased name, email or ticket, or their phone |
| Registry.EmptySearchListsAll | app.js:380 | an empty term lists every participant in order |
| Registry.CsvFields | app.js:435-439 | the eight fields of a line: receipt "N/A" when empty, status "Winner" exactly when the ticket has won, the quoted prize of the first winner record with the ticket or "N/A" |
| Registry.CsvRow | app.js:439 | a participant's line ends with a line break |
| Registry.CsvRows | app.js:434-440 | the data lines are empty exactly when the store is, and hold at least one character per participant |
| Registry.CsvRowsExtend | app.js:434-440 | writing one more participant adds that participant's line at the end |
| Registry.HeaderIsOneLine | app.js:431 | the header holds exactly one line break |
| Registry.RowIsOneLine | app.js:439 | a participant's line ends in the only line break it holds when no copied field holds one |
| Registry.RowsLineCount | app.js:434-440 | the data lines hold one line break per participant |
| Registry.ExportLineCount | app.js:431-440 | the export is the header line plus one line per participant |
| Registry.CountdownParts | app.js:79-90 | a past draw date shows all zeros |
| Registry.CountdownRecomposes | app.js:87-90 | for a future date hours, minutes and seconds are in range and the parts make up the distance to within one second |
| Text.NatToStringRoundTrip | app.js:221 | reading the decimal string of a number back gives the number |
| Text.LastTwo | app.js:219 | `slice(-2)` keeps the last two characters, or the whole of a shorter string |
| Text.Includes | app.js:381-384 | `includes` holds exactly when the term occurs at some position |
| Site.CommitKeepsStoresValid | draw.js:245-254 | a commit keeps contacts unique and keeps a winner record for every participant marked as winner |
| Site.LuckyDraw.constructor | app.js:20-27 | a first load starts with both stores empty, nothing spinning and only Start enabled |
| Site.LuckyDraw.Register | app.js:170-204 | a duplicate email or phone leaves the store unchanged; otherwise one new active participant with the generated ticket is appended; `Valid` and `Safe` are kept |
| Site.LuckyDraw.DeleteParticipant | app.js:410-414 | the store becomes the participants with another id; `Valid` and `Safe` are kept |
| Site.LuckyDraw.Reset | app.js:326-332 | both stores are emptied and the page comes back as after a first load, category kept |
| Site.LuckyDraw.ExportToCSV | app.js:421-440 | nothing exactly for an empty store; otherwise the header followed by one line per participant in store order |
| Site.LuckyDraw.ChangeCategory | draw.js:69-73 | the new category is selected, Spin is disabled and Start enabled |
| Site.LuckyDraw.StartDraw | draw.js:28-47 | ignored while disabled; refused when the category is full or the store is empty; otherwise Spin is enabled and Start disabled |
| Site.LuckyDraw.ClickSpin | draw.js:168-191 | ignored while disabled or spinning; with an empty pool the flag is cleared and Spin re-enabled; otherwise the selected pool member, eligible and registered, is fixed as the winner of the selected category |
| Site.LuckyDraw.ShowWinner | draw.js:230-254 | one winner record is appended and the first participant with the ticket is marked as winner |
| Site.LuckyDraw.StopWheel | draw.js:215-217 | the flag is cleared, Spin stays disabled and Start is enabled |
| Site.LuckyDraw.AnimationEnd | draw.js:214-222 | as written: the flag is cleared, Start is enabled, and the reveal is only scheduled |
| Site.LuckyDraw.RevealTimeout | draw.js:220-222 | the oldest scheduled reveal commits its draw |
| Site.LuckyDraw.FinishDraw | draw.js:214-222 | corrected: the winner is committed before Start is enabled again, the category count rises by one, and `Safe` is kept |
| Scenarios.RevealRace | draw.js:214-222 | Start and Spin inside the reveal window let one ticket win the grand prize twice, breaking its cap of one |
| Scenarios.GrandCapEnforced | draw.js:30-33 | with the corrected animation end, Start for the grand prize is refused once its winner is recorded |

## Left out

- Rendering: the wheel canvas and its easing animation (draw.js:77-165, draw.js:193-213), the result banner, tables and winner cards, modals, navigation, FAQ and the contact form. The model records only what the handlers store.
- Timing: the model does not know that the animation lasts 5 s or that the reveal waits 500 ms. Handlers may run in any order the page allows.
- Sounds, the sound toggle and the confetti. They change no stored data.
- Local storage and JSON: the two lists are fields of the page object. The `|| '[]'` fallbacks never apply, because the constructor stores empty lists first.
- The admin password and login flag (app.js:296-314). They gate the panel but change no data.
- The confirmation dialogs: the delete and reset methods model the handler after the user confirms. A declined dialog does nothing.
- Trimming of form fields (app.js:173-176): the registration inputs arrive already trimmed.
- Lowercasing covers ASCII letters only. The search term arrives already lowercased (app.js:339).
- Floating-point rounding of `Math.random() * n`: the selection is modelled exactly as `floor(num * n / den)`.
- Registry.CountdownParts: it ignores the `padStart` formatting and the one-second timer.
- The Blob download of the CSV (app.js:443-451). The export returns the text.
- Category keys other than the four in the prize table. The selector offers only those four.
- Site.LuckyDraw.constructor: the enabled state of the two buttons on first load comes from the page markup, which is not part of this model. It is taken as Start enabled, Spin disabled.
- Site.LuckyDraw.Reset: `location.reload()` is modelled as the page state after a first load. The selected category is kept.

## Findings

| source | as written | input that shows it | evidently intended | confidence | as-written member | corrected member |
|---|---|---|---|---|---|---|
| draw.js:214-222 | At the end of the animation the handler clears `isSpinning` and enables Start. The record of the winner is only written by a `showWinner` timer 500 ms later. Until then, the capacity gate and the eligible pool do not see that winner. | One participant and the Grand category. Start, Spin, the animation ends, then Start and Spin again before the timer fires. Both reveals run. | A drawn winner is recorded before another draw can be armed. No ticket wins twice, and no category exceeds its cap. | not executed; medium, needs two clicks within 500 ms | Scenarios.RevealRace | Site.LuckyDraw.FinishDraw |
