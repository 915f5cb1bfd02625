# Reminder bot: a verified model of its scheduling core

The repository is a Telegram reminder bot. Two versions of it are modelled:

- `g.py` keeps a users table and a reminders table.
- `bot.py` keeps a single reminders table.

Users send `/start`, `/set_timezone <zone>` and `/set_reminder <DD.MM.YYYY> <HH:MM> <text>`. A background
task wakes once a minute, sends every reminder that has come due, and deletes each one after its send.

The model covers the sequential logic under the chat and database plumbing:

- **Tokens** (`tokens.dfy`): Python's `str.split(" ", n)`. It splits on single spaces, at most `n` times;
  doubled spaces give empty pieces, and the last piece keeps any spaces it contains.
- **Calendar** (`calendar.dfy`): the proleptic Gregorian calendar of `datetime`, covering leap years,
  month lengths, day ordinals and wall-clock minutes.
- **Strptime** (`strptime.dfy`): `strptime` with `%d.%m.%Y` and `%H:%M`. It accepts the one-digit forms
  Python accepts, including a day written as a space and a digit. It rejects leftover characters and days
  the month does not have.
- **Zones** (`zones.dfy`): time zones as a set of known identifiers plus two uninterpreted whole-minute
  offset functions. This module also holds local-to-UTC conversion (`localize` then `astimezone`),
  truncation to the minute, the past-time guard and minute-level due-ness.
- **Sweep** (`sweep.dfy`): one scanner pass, independent of the row type. It walks the candidates in table
  order and sends and deletes each due one. A send that raises stops the pass: rows deleted before it stay
  deleted, and the failing row and all later rows stay.
- **Chat** (`chat.dfy`): the reply, message and refusal types, and the texts both versions share.
- **TwoTableBot** (`two_table_bot.dfy`): `g.py`. Its class `Store` holds the users map, the reminders
  sequence and the id counter, and has the handlers `Start`, `SetTimezone`, `SetReminder` and one pass
  `ScanOnce`.
- **OneTableBot** (`one_table_bot.dfy`): `bot.py`. Its class `Table` holds the rows and the id counter,
  and has `SetReminder` and one pass `ScanOnce`.

Instants are whole seconds since 0001-01-01 00:00 UTC. The model takes the following as parameters:

- the current time `now`;
- the zone database and the default or process-wide zone;
- whether each send succeeds (`sends`).

A handler ends in one of three ways:

- a reply text;
- the text of the `ValueError` that `strptime` raised (`StrptimeError`);
- `Crash`, which stands for an exception no handler catches: the user gets no reply and nothing is
  written.

Two places in the source end in `Crash`:

- `g.py` `set_timezone` for a user who has no row and no Telegram username. The `username` column is
  declared non-null, so the insert fails.
- `bot.py` `set_reminder` with a valid date and time but no text. Its guard asks for 3 pieces, but
  `args[3]` needs 4, so reading it raises `IndexError`.

## Model

| member | source | states |
|---|---|---|
| Tokens.Split | g.py:156 | The split gives 1 to n+1 pieces that rejoin with the separator to the input. Every piece but the last is separator-free, and so is the last one when fewer than n splits happened. |
| Tokens.SplitUnique | g.py:156 | The four properties of `Split` determine the result: any list with them is the split. |
| Tokens.SplitLength | bot.py:60 | The number of pieces is one more than the smaller of the number of spaces and n. |
| Tokens.TailAfterThirdSeparator | g.py:161 | With four pieces, the input up to the cut is the first three pieces each followed by a space, the cut comes right after the third space, and the text is everything after it, spaces included. |
| Tokens.SplitOfThree | bot.py:60 | Three space-free words joined by spaces split back into exactly those three pieces. |
| Calendar.DaysInMonth | g.py:98 | A month has 28 to 31 days. |
| Calendar.MonthsFillYear | g.py:98 | The twelve months fill the year: 365 days, or 366 in a leap year. |
| Calendar.NextYear | g.py:100 | Day ordinals of consecutive years differ by the length of the first. |
| Calendar.OrdinalFollowsCalendar | g.py:100 | A calendar-earlier valid date has a smaller day ordinal. |
| Calendar.WallMinutesOrder | g.py:172 | Wall-clock minute counts order wall times as the calendar does, and two valid wall times are equal exactly when their counts are equal. |
| Strptime.ParseField | g.py:98 | An accepted day, month, hour or minute field is a spelling of its value that the directive allows, in range. |
| Strptime.ParseFieldComplete | g.py:98 | Every spelling the directive allows is accepted with its value. |
| Strptime.ParseYear | g.py:98 | An accepted `%Y` field is four digits. |
| Strptime.ParseYearComplete | g.py:98 | Every four-digit year is accepted. |
| Strptime.ParseDate | g.py:98 | An accepted date is a valid calendar date. The text is day, dot, month, dot, year in allowed spellings of those fields. |
| Strptime.ParseDateComplete | g.py:98 | Every such text is accepted exactly when the date exists in the calendar, so non-calendar dates and year 0 are rejected. |
| Strptime.ParseTime | g.py:99 | An accepted time is hour 0-23 and minute 0-59, written as hour, colon, minute in allowed spellings. |
| Strptime.ParseTimeComplete | g.py:99 | Every such text is accepted with its values. |
| Strptime.NoThirtyFirstOfFebruary | g.py:98 | "31.02.2024" is rejected. |
| Strptime.LeapDay | g.py:98 | "29.02.2024" is accepted. |
| Strptime.NoLeapDay | g.py:98 | "29.2.2023" is rejected. |
| Strptime.ParseDateTime | g.py:97-100 | The result is Ok exactly when both parts parse, and then it carries exactly the parsed fields. The date is checked first, so a bad date is reported even when the time is bad too. |
| Chat.WallText | g.py:177-179 | `str(reminder_datetime)` is 19 characters: date and time separated by `-`, a space and `:`, with seconds `00`. |
| Chat.WallTextInjective | bot.py:94-96 | Two wall times that print alike are the same wall time. |
| Chat.ConfirmationText | g.py:177-179 | The confirmation starts with its fixed head, shows the wall time right after it, and ends with the reminder text. |
| Chat.ConfirmationShowsWall | bot.py:94-96 | Two confirmations that read alike were sent for the same wall time, whatever the zones and texts. |
| Zones.Localize | g.py:167-169 | The UTC instant of a wall time is a whole minute. |
| Zones.LocalizeRoundTrip | g.py:169 | Outside DST gaps, the instant read back in its zone shows the wall time it was made from. |
| Zones.FloorMinute | g.py:171 | `.replace(second=0)` gives the whole minute at or before the instant, less than a minute earlier. |
| Zones.FloorUnique | g.py:171 | That minute is the only whole minute with this property. |
| Zones.FloorMonotone | g.py:171 | Truncation keeps order. |
| Zones.FloorShift | g.py:194 | Shifting by whole minutes commutes with truncation. |
| Zones.IsPast | g.py:171-172 | The guard refuses only instants strictly before now, and refuses every instant a full minute or more before now. |
| Zones.PastGuard | g.py:172-173 | A whole-minute instant passes the guard exactly when the current time is before the end of its minute, so an instant equal to the truncated now is accepted. |
| Zones.DueByLocalClock | g.py:194-196 | The scanner's local-clock test holds for every instant at or before the truncated now, and never for an instant a minute or more after it, whatever the offset. |
| Zones.DueIgnoresOffset | g.py:194-196 | Truncating in the owner's zone and comparing with the truncated now, as aware datetimes, is the same as comparing the two truncated instants. |
| Zones.WholeMinuteDue | bot.py:106 | For a whole-minute instant, `due <= now` with now not truncated is minute-level due-ness. |
| Zones.DueStaysDue | g.py:196 | A reminder that is due stays due at every later time. |
| Sweep.Select | g.py:82 | The filter keeps exactly the rows that satisfy the test. |
| Sweep.SelectAppend | g.py:191 | Filtering distributes over concatenation. |
| Sweep.Without | g.py:201 | The rows left after deleting are exactly the rows not deleted. |
| Sweep.WithoutTwice | g.py:201 | Deleting rows one at a time is deleting them all together. |
| Sweep.SelectIncreasing | g.py:82 | Filtering keeps the rows ordered by id. |
| Sweep.StopAt | g.py:191-201 | The pass stops at the first due candidate whose send fails, or at the end. Every due candidate before that point sent successfully. |
| Sweep.Delivered | g.py:196-201 | A delivered row was a candidate, was due and was sent successfully. |
| Sweep.DeliveredExactly | g.py:196-201 | A row is delivered exactly when it is due and comes before the stopping point. |
| Sweep.AbortKeepsRest | bot.py:108-115 | The failing candidate and every later one are not delivered. |
| Sweep.CompletePassLeavesNoDue | bot.py:108-115 | A pass that runs to the end delivers every due candidate, and no due candidate is left in the table. |
| TwoTableBot.TimezoneArgs | g.py:132-133 | `/set_timezone` gets one or two pieces. It gets one exactly when the command has no space. With two, the first is space-free and the zone is everything after the first space. |
| TwoTableBot.ZoneOfLoads | g.py:166-167 | The zone `/set_reminder` loads, the user's own or the default, is always one the zone database knows, so `pytz.timezone` does not raise there. |
| TwoTableBot.PlanReminder | g.py:156-173 | Fewer than 4 pieces gives the usage refusal. With 4 pieces, a failed parse of the date or the time gives exactly that parse failure, and a parse failure arises only that way. The request is refused as past exactly when it has 4 pieces, parses, and its UTC instant is before the truncated now. Otherwise the reminder has the parsed wall time, the text after the third space and the localized instant, and now is before the end of that minute. |
| TwoTableBot.DateAndTimeWithoutTextRefused | g.py:156-158 | A command with a date and a time but no text gets the usage refusal. |
| TwoTableBot.Pass | g.py:82 | Every reminder a pass delivers is in the table, has an owner row (the inner join), is due and was sent successfully, so a reminder without an owner is never sent or deleted. |
| TwoTableBot.DueFor | g.py:191-196 | A reminder passes the scanner's test only when its owner has a row and its instant is less than a minute after the truncated now, and every owned reminder whose instant has come passes it. |
| TwoTableBot.Notices | g.py:197-200 | One message per delivered reminder, in order, to the owner's chat, with `"{name}, не забудь: {text}"` using the name in the owner's row. |
| TwoTableBot.DueForIsMinuteDue | g.py:192-196 | The scanner's local-clock test is "the owner exists and the reminder's minute has begun", whatever the owner's zone. |
| TwoTableBot.RezoningKeepsDue | g.py:142 | Changing a user's zone does not change which reminders are due. |
| TwoTableBot.AbortLeavesRest | g.py:191-201 | Reminders not yet due remain in the table. After a failed send, the failing reminder and every later candidate remain in the table. |
| TwoTableBot.FailedReminderStaysDue | g.py:196-201 | The reminder whose send failed is still a candidate and is due at every later time. |
| TwoTableBot.SecondPassSendsNothing | g.py:196-201 | After a pass that completed, a second pass in the same minute sends nothing. |
| TwoTableBot.Store.constructor | g.py:208-210 | The tables start empty and the invariant holds. |
| TwoTableBot.Store.Start | g.py:111-125 | A user row with the first name and the default zone is created only when none exists, and an existing row is unchanged. The reply is the greeting. Reminders are untouched. |
| TwoTableBot.Store.SetTimezone | g.py:128-149 | A missing argument or an unknown zone is answered and changes nothing. Otherwise the user exists afterwards with exactly the given zone: updated, or created with the Telegram username. Every other user and all reminders are unchanged. A new user without a username gives `Crash` and no write. |
| TwoTableBot.Store.SetReminder | g.py:152-182 | It never writes a user. On acceptance exactly one reminder is appended, with a fresh id, the sender, the text and the UTC instant, and the confirmation shows the wall time and zone. A refusal writes nothing. |
| TwoTableBot.Store.ScanOnce | g.py:185-201 | The new table is the old one minus the delivered reminders. The messages are the notices `"{name}, не забудь: {text}"` of the delivered reminders, in order. `aborted` says whether a send failed. The invariant is kept. |
| TwoTableBot.Store.SendDue | g.py:191-201 | Walking the candidates, each due one is deleted after its successful send, and the walk stops at the first failure. |
| OneTableBot.PlanRow | bot.py:60-82 | Fewer than 3 pieces gives the format refusal. With 3 or more pieces, a failed parse of the date or the time gives exactly that parse failure. Exactly 3 pieces with a valid date and time gives the IndexError. The request is refused as past exactly when it has 4 pieces, parses, and its UTC instant is before the truncated now. Otherwise the result is as in the two-table version, in the given zone. |
| OneTableBot.DateAndTimeWithoutTextCrash | bot.py:62-70 | "/set_reminder " + date + " " + time with a valid date and time ends in the IndexError, whatever the zone and time. |
| OneTableBot.Pass | bot.py:104-115 | Every row a pass delivers is in the table, has `reminder_time <= now` and was sent successfully. |
| OneTableBot.Selected | bot.py:104-106 | The query selects only rows whose minute has begun, and it selects every whole-minute row whose minute has begun. |
| OneTableBot.SelectedIsMinuteDue | bot.py:106 | For whole-minute instants the query is minute-level due-ness, the same test the two-table version reaches. |
| OneTableBot.CompletePassSendsSelected | bot.py:106-115 | A pass that completes sends every selected row, in table order. |
| OneTableBot.PassLeavesRest | bot.py:108-115 | Rows not yet due stay, and after a failed send so do the failing selected row and all later ones. |
| OneTableBot.SecondPassSendsNothing | bot.py:104-115 | After a pass that completed, a second pass at the same instant sends nothing. |
| OneTableBot.Notices | bot.py:111 | One message per sent row, to its chat, with `MSG.format(username, text)`. A missing username prints as "None". |
| OneTableBot.Table.constructor | bot.py:43 | The table starts empty and the invariant holds. |
| OneTableBot.Table.SetReminder | bot.py:56-99 | On acceptance exactly one row is appended, with a fresh id, the sender's id and username, the text, the UTC instant and the process zone. The confirmation shows the wall time and zone. A refusal or the crash writes nothing. |
| OneTableBot.Table.ScanOnce | bot.py:102-115 | The new table is the old one minus the delivered rows. The messages are their notices, in order. `aborted` says whether a send failed. The invariant is kept. |
| OneTableBot.Table.SendSelected | bot.py:108-115 | Each selected row is deleted after its successful send, and the walk stops at the first failure. |

## Left out

- The IANA database and pytz's rules for DST gaps and overlaps. A zone is an identifier in a known set plus two uninterpreted whole-minute offset functions: one for `localize` at a wall time, one for `astimezone` at an instant.
- The default zone (`TZ`) being unknown. Nothing checks it, so it is taken as a constructor precondition.
- SQLite storing datetimes without their zone. Stored instants are absolute in the model. The source reads them back naive, so `.astimezone` in `g.py` would interpret them in the host's local zone.
- Row order. Neither query has `ORDER BY`, so table (insertion) order is assumed.
- Reuse of SQLite row ids after the highest row is deleted. Ids come from a counter that only grows.
- `datetime` overflow when a conversion leaves years 1 to 9999.
- Sub-second precision, because instants are whole seconds. In every comparison one side is a whole-minute instant (a stored due time, or now truncated to the minute), so dropping the other side's fraction of a second never changes an outcome.
- Non-ASCII digits, which Python's `\d` in `strptime` also accepts.
- The exact wording of `strptime`'s `ValueError`. The reply carries the input and the format instead.
- The `while True` loop, `asyncio.sleep(60)`, and the scanner task ending after an exception. Only single passes are modelled.
- Concurrency between handlers and the scanner.
- aiogram polling and SQLAlchemy sessions. Sending is the `sends` parameter.
- Logging and environment configuration.
- The `/start` handler of `bot.py`. It only replies with a greeting and touches no table.
- TwoTableBot.Store.SendDue, OneTableBot.Table.SendSelected: the outbox is built from the sent rows after the loop, not message by message inside it. Its contents and order are the same.
