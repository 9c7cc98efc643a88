# Reminder bot: a verified model of its core

A Telegram bot records reminders that users write in Russian ("купить хлеба
через 2 часа", "позвонить маме завтра в 18:00"). This project models the
bot's core in Dafny and proves properties of the model. The core has six
parts:

- **`parse_time`.** It turns the text into a due moment, trying four
  families in a fixed order ("через N минут/час/день", "завтра … H:M",
  "в H:M", bare digits). A family whose guard fails hands the text on to
  the next. A `ValueError` or `IndexError` inside a family ends the whole
  call with no moment. An `OverflowError` is not caught (see "Left out").
- **The description extractor.** It cuts the reminder's text in front of
  the first occurrence of the highest-priority time phrase present
  ("через", then "завтра", then "в "), whatever its position in the text.
- **The reminder objects and the `user_tasks` dictionary.** A message
  appends a reminder to its sender's list. The "done" and "snooze" buttons
  change the first reminder with the pressed id, in place.
- **The delivery guard.** A reminder that fires is sent only while it is
  still on its user's list and not done.
- **The callback data of the two buttons.** `"done_" + id` and
  `"snooze_" + id`, read back by cutting at offsets 5 and 7.
- **The hours and minutes** shown in the confirmation and in the reminder
  list.

Time is whole seconds on a line with fixed 86400-second days. The current
moment `now` and the reminder id are parameters.

Each file is one module:

| file | module | what it holds |
|---|---|---|
| `wrappers.dfy` | `Wrappers` | `Option` |
| `text.dfy` | `Text` | The Python string operations the bot uses: `lower`, `strip`, `in`, `startswith`, `split`, `split()[-1]`, `filter`, `int`. Each comes with the lemmas that say what it computes. |
| `time_parser.dfy` | `TimeParser` | `parse_time` as `Parse(text, now)`. Each family yields `Skip`, `Found(moment)` or `Raised`, and `Raised` ends the call with `None`. |
| `parse_properties.dfy` | `ParseProperties` | What `Parse` returns, family by family: the failures, the hand-on when a guard fails, and worked examples. |
| `describe.dfy` | `Describe` | The extraction loop as a method, proved against the function `Description`, with its properties. |
| `callback.dfy` | `Callback` | The button data, and the handler's routing of it. |
| `tasks.dfy` | `Tasks` | The board of reminder *values*, and what recording, "done", "snooze" and a firing do to it. Also runs of events and the proof that a done reminder is never delivered again. |
| `listing.dfy` | `Listing` | The time-left arithmetic and the rows of the reminder list. |
| `store.dfy` | `Store` | The classes `ReminderTask` and `ReminderStore`, whose methods mutate the objects in place. Each method is proved to do to the ghost board what the `Tasks` functions say. |

Three things are modelled the way the code does them, not the way the
description of the bot suggests:

- **Snooze ignores "done".** "Snooze" moves a reminder even when it is already
  done.
- **The guard ignores the due moment.** The delivery guard checks only that
  the reminder is on its user's list and is not done.
- **An error does not fall through.** "через час в 10:00" has no number in
  front of "час", so `int('')` raises. The call returns `None` and never
  tries "в 10:00". The code gives no second chance to later families.

## Model

| member | source | states |
|---|---|---|
| `Callback.Route` | reminder_bot.py:200-210 | The handler completes exactly when the data starts with "done_", and postpones exactly when it does not but starts with "snooze_". In both cases the data is that button's token for the id it cuts off. |
| `Callback.RouteDone` | reminder_bot.py:180-201 | The "done" button of task `id` is routed to completing `id`: `("done_" + id)[5:] == id`. |
| `Callback.RouteSnooze` | reminder_bot.py:181-210 | The "snooze" button of task `id` is routed to postponing `id`. The "done_" test lets it through. |
| `Callback.TokensDiffer` | reminder_bot.py:180-181 | No "done" data equals any "snooze" data. |
| `Callback.TokensInjective` | reminder_bot.py:180-181 | Different ids give different button data. |
| `Text.StripSpec` | reminder_bot.py:90 | `strip()` gives the slice after the leading whitespace that has whitespace at neither end and is followed by whitespace only. It is empty exactly when the text is all whitespace. |
| `Text.LastWordSpec` | reminder_bot.py:96 | `split()[-1]` of text that is not all whitespace is its last maximal run of non-whitespace. Only whitespace follows it. |
| `Text.LastWordNone` | reminder_bot.py:96 | All-whitespace text has no last word; Python raises IndexError. |
| `Text.LastWordOf` | reminder_bot.py:96 | A word with whitespace or nothing before it, and only whitespace after it, is the last word. |
| `Text.SplitJoin` | reminder_bot.py:96 | Joining the pieces of `split(sep)` with `sep` gives back the text. |
| `Text.SplitHead` | reminder_bot.py:146 | The first piece of `split(sep)` is the text before the first occurrence of `sep`. |
| `Text.SplitPiecesFree` | reminder_bot.py:106 | No piece of a split contains the separator. |
| `Text.IntOfShow` | reminder_bot.py:96 | `int` reads back the decimal rendering of every natural number. |
| `Text.IntOf` | reminder_bot.py:109 | `int` succeeds exactly on a non-empty run of digits. |
| `TimeParser.ReplaceClockSpec` | reminder_bot.py:111-117 | `replace(hour=h, minute=m, second=0)` stays on the day of its base, and its wall clock reads `h:m`. |
| `TimeParser.ReplaceClock` | reminder_bot.py:111-117 | `replace` succeeds exactly when 0 <= h < 24 and 0 <= m < 60; otherwise it raises ValueError. |
| `TimeParser.Parse` | reminder_bot.py:89-127 | A moment `parse_time` returns is never before `now`. |
| `TimeParser.Through` | reminder_bot.py:93-103 | The "через" family hands the text on exactly when there is no "через", or none of "минут", "час", "день". A moment it gives is not before `now`. |
| `TimeParser.Tomorrow` | reminder_bot.py:105-111 | The "завтра" family hands the text on exactly when there is no "завтра", or no colon in its clock text. A moment it gives is not before the next midnight. |
| `TimeParser.At` | reminder_bot.py:113-120 | The "в" family hands the text on exactly when there is no leading "в " or " в ", or no colon among the digits and colons of the text. A moment it gives lies in `[now, now + 1 day)`. |
| `ParseProperties.ThroughPicks` | reminder_bot.py:94-103 | The "через" family settles on "минут" before "час" and "час" before "день". Each unit word is looked for in the whole text. |
| `ParseProperties.ParseUnitFound` | reminder_bot.py:94-103 | With "через" and a unit word (and no unit word tried earlier), the result is `now + N * unit`. `N` is the number in the last word in front of the first occurrence of that unit word. |
| `ParseProperties.ParseUnitFails` | reminder_bot.py:94-126 | When that word is missing or has no digit, the call returns `None`. |
| `ParseProperties.ParseThrough` | reminder_bot.py:94-103 | "… через N <unit>…" with arbitrary lower-case text around it gives `now + N` minutes, hours or days. |
| `ParseProperties.ParseThroughNoNumber` | reminder_bot.py:94-126 | "… через <unit>…" with no number gives `None`, whatever follows. |
| `ParseProperties.NoFallThroughExample` | reminder_bot.py:98-126 | "через час в 10:00" gives `None`. The error ends the call before the "в" family. |
| `ParseProperties.ClockOf` | reminder_bot.py:109-117 | The clock text `a:b` of two digit runs is `replace` at `a:b`. An empty run raises. |
| `ParseProperties.ParseTomorrow` | reminder_bot.py:105-111 | With "завтра" (and no "через"), clock digits after the last "в " that split into exactly `a`, `b` give `a:b` on the day after `now`. An empty or out-of-range part gives `None`. |
| `ParseProperties.ParseTomorrowColons` | reminder_bot.py:108-126 | A "завтра" clock text with a colon that does not split into exactly two pieces gives `None`. |
| `ParseProperties.ParseTomorrowTwoColons` | reminder_bot.py:108-126 | Two colons give `None`. |
| `ParseProperties.TomorrowSameDay` | reminder_bot.py:110-111 | The "завтра" result depends only on the date of `now`, not on its time of day. |
| `ParseProperties.ParseTomorrowAt` | reminder_bot.py:105-111 | "… завтра в H:M" is H:M on the day after `now`, for any lower-case text in front that has no "в ". |
| `ParseProperties.NextAtSpec` | reminder_bot.py:117-120 | The next moment at wall clock `x` is less than a day away and reads `x`. |
| `ParseProperties.NextAtUnique` | reminder_bot.py:117-120 | It is the only such moment. |
| `ParseProperties.RollOver` | reminder_bot.py:117-119 | Today at `x`, moved to tomorrow when it is strictly before `now`, is that moment. |
| `ParseProperties.ParseAt` | reminder_bot.py:113-120 | With a "в" guard (and neither "через" nor "завтра"), digits and colons of the whole text reading `a:b` give the next moment at `a:b`. An empty or out-of-range part gives `None`. |
| `ParseProperties.ParseAtClock` | reminder_bot.py:113-120 | In "… в a:b", every digit of the text in front of " в " is glued to the hour. |
| `ParseProperties.ParseAtNormal` | reminder_bot.py:113-120 | `ParseAt`, for text that normalization leaves alone. |
| `ParseProperties.BreadExample` | reminder_bot.py:113-120 | "купить 2 хлеба в 10:00" gives `None`: the hour reads "210". |
| `ParseProperties.ThroughFallsThrough` | reminder_bot.py:93-105 | When the "через" family does not apply, the text is parsed as if that family were not there. |
| `ParseProperties.TomorrowFallsThrough` | reminder_bot.py:105-113 | When the "завтра" family does not apply, the text goes on to the "в" family. |
| `ParseProperties.AtFallsThrough` | reminder_bot.py:113-122 | When the "в" family does not apply, the text goes on to the bare-digits test. |
| `ParseProperties.UnknownUnitExample` | reminder_bot.py:93-120 | "через неделю в 10:00" has no unit word and is read by the "в" family as the next 10:00. |
| `ParseProperties.DaysExample` | reminder_bot.py:93-127 | "через 5 дней" gives `None`: "дней" does not hold "день", and no family applies. |
| `ParseProperties.ParseTrailingPlace` | reminder_bot.py:105-120 | In "x a:b в o", with no digit, colon or "в " in the place `o`, the "завтра" family finds no colon after the last "в ". The "в" family then gives the next `a:b`, even with "завтра" in `x`. |
| `ParseProperties.TomorrowNoClockExample` | reminder_bot.py:105-120 | "завтра 10:00 в офисе" is the next 10:00, not 10:00 tomorrow. |
| `ParseProperties.ParseBare` | reminder_bot.py:122-123 | Stripped lower-case text that is all digits gives `now + 60 * N`. |
| `ParseProperties.ParseNoMatch` | reminder_bot.py:93-127 | Text to which no family applies and that is not a number gives `None`. |
| `ParseProperties.NoClockExample` | reminder_bot.py:113-127 | "обед в офисе" has the "в" guard but no colon, and gives `None`. |
| `ParseProperties.ParseEmpty` | reminder_bot.py:122-127 | The empty text gives `None`. |
| `Describe.FirstIn` | reminder_bot.py:143-147 | The first phrase by priority that occurs: all higher-priority phrases are absent, or none occurs at all. |
| `Describe.ExtractDescription` | reminder_bot.py:142-150 | The extraction loop computes `Description(text)`. |
| `Describe.Description` | reminder_bot.py:149-150 | The description is never empty. |
| `Describe.DescriptionCut` | reminder_bot.py:143-150 | When phrase `k` is the first by priority in the lower-cased text, the description is the stripped lower-case text before its first occurrence, or "Напоминание" when that is empty. |
| `Describe.DescriptionKeeps` | reminder_bot.py:142-150 | Text with none of the phrases is kept as it is, unstripped and in its own case. Only empty text becomes "Напоминание". |
| `Describe.DescriptionFree` | reminder_bot.py:143-147 | A cut description is stripped, and holds neither its phrase nor any phrase of higher priority. |
| `Tasks.FindTask` | reminder_bot.py:203-204 | The first position in list order that holds the id; none when no reminder has it. |
| `Tasks.Added` | reminder_bot.py:153-155 | Recording puts the reminder at the end of its user's list, creating the list when there is none. Every other user's list is unchanged. |
| `Tasks.DoneChanges` | reminder_bot.py:200-207 | "done" sets `completed` on the first reminder of the user with that id. No other reminder, field, list length or user changes. |
| `Tasks.SnoozeChanges` | reminder_bot.py:209-217 | "snooze" moves that reminder one hour later, done or not. Nothing else changes. |
| `Tasks.NoMatchNoChange` | reminder_bot.py:202-213 | A user without a list, or an id the user does not have, changes nothing. |
| `Tasks.DoneIdempotent` | reminder_bot.py:200-207 | Pressing "done" twice is pressing it once. |
| `Tasks.DoneSnoozeCommute` | reminder_bot.py:200-217 | "done" and "snooze" on the same reminder commute. |
| `Tasks.SnoozeRepeat` | reminder_bot.py:209-217 | `n` presses of "snooze" move the matched reminder `n` hours later and change nothing else. |
| `Tasks.FindSameIds` | reminder_bot.py:203-213 | Where a press lands depends only on the ids of the list. |
| `Tasks.Delivery` | reminder_bot.py:175-189 | A firing reminder sends a notice exactly when it is deliverable. The notice goes to its user's chat with its text. Its buttons route back to that reminder's id. |
| `Tasks.ApplyKeeps` | reminder_bot.py:152-217 | No event moves a reminder from its place or makes a done reminder not done. |
| `Tasks.DoneStays` | reminder_bot.py:175-205 | A done reminder stays done and undeliverable after any sequence of events. |
| `Tasks.DonePressed` | reminder_bot.py:175-207 | After its own "done" button is pressed, a reminder is never delivered again. |
| `Listing.ConfirmationSpec` | reminder_bot.py:159-161 | The confirmation's minutes are in 0..59. Its hours and minutes are the time left, rounded down to a whole minute. |
| `Listing.TimeLeftAsWritten` | reminder_bot.py:78-80 | The list's numbers as written: never negative, and the confirmation numbers for a reminder not yet due. |
| `Listing.OverdueAsWritten` | reminder_bot.py:80 | As written, a reminder ten minutes overdue is listed as due in 0 h 50 min. |
| `Listing.TimeLeft` | reminder_bot.py:78-80 | Corrected: an overdue reminder shows 0 h 0 min, and a pending one shows its time left rounded down to a minute. |
| `Listing.RowOf` | reminder_bot.py:76-84 | A list line carries the reminder's number, text and status. With the corrected clamp, an overdue reminder shows 0:00 and a pending one its time left rounded down to a minute. |
| `Listing.ListFor` | reminder_bot.py:68-86 | There are no rows exactly when the user has no list or an empty one. Otherwise there is one line per reminder, in order, numbered from 1, with its text and status. With the corrected clamp, the time left is 0:00 for an overdue reminder and rounded down to a minute for a pending one. |
| `Store.ReminderTask.constructor` | reminder_bot.py:28-35 | A new reminder has the given fields, is made at `now`, and is not done. |
| `Store.AnswerBounds` | reminder_bot.py:130-161 | When a message is recorded, the description is non-empty and the due moment is not before the parse's clock reading `now`. The confirmation is computed at a later reading `later`. Its minutes are in 0..59, and it shows the time left at `later` rounded down to a minute. Its hours can be negative, but not below -1 when the readings are at most an hour apart. |
| `Store.AnswerLateExample` | reminder_bot.py:122-161 | Bare "0" is due at the moment it is read. A confirmation one second later shows -1 h 59 min. |
| `Store.AnswerCommand` | reminder_bot.py:134-135 | A command gets no answer. |
| `Store.AnswerUnparsed` | reminder_bot.py:137-140 | A message whose time cannot be read is refused. |
| `Store.AnswerRecorded` | reminder_bot.py:137-155 | A message whose time is read is confirmed with its description and due moment. |
| `Store.ReminderStore.constructor` | reminder_bot.py:25 | The store starts empty and valid. |
| `Store.ReminderStore.Submit` | reminder_bot.py:130-155 | The handler answers `Answer(text, now)`. A recorded reminder is applied to the board as a `Submitted` event. Otherwise nothing changes. The store stays valid. |
| `Store.ReminderStore.Understand` | reminder_bot.py:137-155 | Past the command test, the handler reads the time and records the reminder when there is one. |
| `Store.ReminderStore.Record` | reminder_bot.py:152-155 | A fresh reminder object goes at the end of its user's list. The list is created on the user's first message. The dictionary becomes the old one with that user's list extended by the new object, and the board becomes `Added(old board, view)`. The delivery guard holds for the new reminder. |
| `Store.ReminderStore.MarkDone` | reminder_bot.py:200-207 | The loop sets `completed` on the first matching object, in place. The board becomes `Done(old board, user, id)`, the dictionary and its lists are unchanged, and the matched text is shown exactly when there was a match. |
| `Store.ReminderStore.Snooze` | reminder_bot.py:209-217 | The loop adds an hour to the first matching object, in place. The board becomes `Snoozed(old board, user, id)`, and the same holds for the shown text. |
| `Store.ReminderStore.Press` | reminder_bot.py:193-217 | The button handler does to the board what `Apply` does for the pressed data. For "done_" data, and for "snooze_" data that is not "done_" data, a text is shown exactly when the user has a reminder with the id after the prefix, and it is the first such reminder's text. Other data shows nothing. |
| `Store.ReminderStore.List` | reminder_bot.py:68-86 | The loop over the user's list builds exactly `ListFor(board, user, now)`, with the corrected clamp. |
| `Store.ReminderStore.Fire` | reminder_bot.py:175-189 | The guard (`GuardHolds`) lets a reminder through exactly when it is on its user's list and not done. The notice it sends is `Delivery` of its view on the board. |

## Left out

- **Telegram I/O.** `start`, `help_command`, `main`, and the
  `reply_text`, `send_message`, `edit_message_text` and keyboard-building
  calls are library calls with no logic. Where a handler answers, the
  model returns the answer's data (`Reply`, `Row`, `Notice`, the shown
  text) instead of the formatted message with its emoji.
- **Scheduling.** `asyncio.sleep` and `asyncio.create_task` are concurrency.
  This covers the delay before a reminder fires and the second
  `schedule_reminder` started by "snooze". A firing is modelled as the
  guard evaluated at the moment it happens (`Fire`), not when it happens
  or how firings interleave with other handlers.
- **Logging, `os.getenv` and the bot token.** These are configuration.
- **`datetime.now()`.** It becomes a parameter. The message handler reads
  the clock four times: parsing (line 91), the default task id (line 30,
  since line 152 passes no id), `created_at` (line 34) and the
  confirmation (line 159). The id's reading is covered by the parameter
  `id` (see the default task id below).
  `AnswerBounds` takes the confirmation's reading as a second parameter
  `later >= now`. `Submit` and `Record` use the parse's `now` for
  `created_at`, which nothing else reads. The list handler reads the clock
  once per reminder (line 78, inside the loop); `List` and `ListFor` use
  one common reading `now` for all rows, so the time that passes while the
  list is built is not modelled.
- **The default task id.** The id `f"{user_id}_{timestamp}"` becomes the
  parameter `id`, because the default is built from a float timestamp.
  Its uniqueness therefore is not modelled, and duplicate ids are
  allowed: a press acts on the first match, as in the code.
- **Float arithmetic and calendars.** `total_seconds()` is a float,
  datetimes have microseconds, and there are time zones and DST. The
  model uses integer seconds with fixed 86400-second days.
  `replace(second=0, microsecond=0)` becomes midnight plus `h:m`.
- **Unicode.** `str.lower` is limited to ASCII and the Cyrillic capitals
  U+0400-U+042F. `str.isdigit` and `int` accept ASCII digits only.
  `str.isspace` and `split()` treat ASCII whitespace and U+001C-U+001F as
  whitespace, not the rest of Unicode.
- **Object identity.** `task in user_tasks[task.user_id]` compares
  objects, which the model does by object reference. The classes do not
  define `__eq__`.
- TimeParser.Parse: the range of `datetime` (years 1 to 9999) and of
  `timedelta` (under 10^9 days) is not modelled. Past either, Python raises
  `OverflowError`, which the `except` at line 125 does not catch, so the
  handler fails with an exception. The model gives the moment instead.
  This covers a huge N in "через N …", a huge bare number, and "завтра" or
  the roll-over to the next day on 9999-12-31.
- TimeParser.Parse: Python 3.11 and later refuse `int()` of a string of
  more than 4300 digits with `ValueError`, so the source returns `None`.
  The model reads numbers of any length.
- ParseProperties.ParseThrough: it holds for every N, including amounts
  whose moment lies past year 9999, where the source raises
  `OverflowError`.
- ParseProperties.ParseBare: it holds for every number, including those
  whose moment lies past year 9999, where the source raises
  `OverflowError`.
- TimeParser.ReplaceClock: an hour or minute of 2^31 or more makes
  `replace` raise `OverflowError` instead of `ValueError`. That error
  escapes the `except` at line 125. The model raises for every
  out-of-range value alike, so `Parse` returns `None`.
- Listing.RowOf: it uses the corrected clamp `TimeLeft`, not the
  per-number clamp of lines 79-80 (`TimeLeftAsWritten`; see "Findings").
  An overdue reminder therefore shows 0 h 0 min where the code shows the
  remainder's minutes.
- Listing.ListFor: its rows are `RowOf` rows, with the corrected clamp.
- Store.ReminderStore.List: it builds `ListFor`, with the corrected clamp.
- Text.IntOf: Python's `int` also accepts a sign, surrounding
  whitespace and underscores. Only strings of digits and colons reach it
  here, so only those are modelled.

## Findings

| source | as written | input that shows it | evidently intended | confidence | as-written member | corrected member |
|---|---|---|---|---|---|---|
| reminder_bot.py:79-80 | Each of `hours_left` and `minutes_left` is clamped at 0 on its own, and Python's `%` of a negative time left is positive. | A reminder 600 s overdue: `-600 // 3600 = -1` is clamped to 0, and `(-600 % 3600) // 60 = 50`. It is listed as due in 0 h 50 min. | An overdue reminder shows 0 h 0 min (the clamp belongs on the time left). | not executed | `Listing.OverdueAsWritten` (about `Listing.TimeLeftAsWritten`) | `Listing.TimeLeft`, used by `Listing.RowOf`, `Listing.ListFor` and `Store.ReminderStore.List` |
