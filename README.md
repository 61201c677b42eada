# Duty rotation and LINE echo bot, in Dafny

This project models the two entry points of a small LINE bot for the
investigation unit of a police station:

- **The scheduled duty report** (`api/scheduled-duty.js`). Three investigation
  teams take turns, one per calendar day. Team 3 is on duty on 1 August 2025,
  and the order is 3, 1, 2. Once a day the bot works out the team on duty.
  It then builds a fixed-layout Thai report:
  - station, salutation and date;
  - the team line and each officer's name, title, call sign and phone;
  - the 24-hour duty window from 08.00 today to 08.00 tomorrow;
  - a closing line.

  Dates are written as day, Thai month name and Buddhist-era year.
- **The webhook** (`api/webhook.js`). It rejects non-POST requests with 405
  and requests whose signature check fails with 401. It then answers every
  text message event. Each answer echoes the message back to that event's
  reply token, with the first `@น้องอีฟ` mention and the whitespace after it
  cut out. Finally it answers 200.

Modules:

- `CivilCalendar` (`calendar.dfy`): proleptic Gregorian dates with a serial
  day number. This is the part of the JavaScript `Date` and of date-fns
  `differenceInCalendarDays` / `addDays` that the rotation relies on. Months
  are numbered 0..11, as `getMonth` numbers them.
- `TextUtil` (`text.dfy`): covers
  - decimal rendering as template literals do it, and its parser;
  - `join` and `split` on a one-character separator;
  - the search for a fixed pattern.
- `ScheduledDuty` (`duty.dfy`): holds
  - the tables (month names, reference date, rotation, rosters);
  - the rotation index with JavaScript's truncating `%`;
  - `fmtThai`;
  - the report, and the team-line regular expression of the handler.

  This file is pure, so it is modelled as functions with lemmas.
- `Webhook` (`webhook.dfy`): the handler as a `method` with the source's loop
  over the events, proved against the specification function `HandleSpec`.
  It also holds `replace(/@น้องอีฟ\s*/, '')` with JavaScript's `\s` class, and
  lemmas about the replies.

## Model

| member | source | states |
|---|---|---|
| CivilCalendar.NextDay | api/scheduled-duty.js:51 | `addDays(date, 1)` is again a real date; the year changes only when 31 December rolls over to 1 January of the next year |
| CivilCalendar.AddDays | api/scheduled-duty.js:51 | `addDays(d, n)` is again a real date; its meaning, n more in the day number, is stated by `AddDaysNumber` |
| CivilCalendar.DayNumber | api/scheduled-duty.js:49 | no contract of its own: `NextDayNumber`, `AddDaysNumber` and `DayNumberInjective` make it a serial count of calendar days |
| CivilCalendar.DifferenceInCalendarDays | api/scheduled-duty.js:49 | no contract of its own: it is 1 from a day to the next (`NextDayNumber`, `YearRollover`) and 0 exactly between equal dates (`DayNumberInjective`) |
| CivilCalendar.NextDayNumber | api/scheduled-duty.js:51 | the day after a date has the next day number, so `differenceInCalendarDays(addDays(d, 1), d) == 1`, across month and year ends and leap days |
| CivilCalendar.AddDaysNumber | api/scheduled-duty.js:49-51 | adding `n` days adds exactly `n` to the day number |
| CivilCalendar.DayNumberInjective | api/scheduled-duty.js:49 | two valid dates are zero calendar days apart exactly when they are the same date |
| CivilCalendar.YearRollover | api/scheduled-duty.js:51 | 31 December is followed by 1 January of the next year, one calendar day later |
| CivilCalendar.YearLength | api/scheduled-duty.js:49 | the day count of a year is 366 exactly in Gregorian leap years, 365 otherwise |
| ScheduledDuty.JsRemainder3 | api/scheduled-duty.js:49 | JavaScript's `a % 3` lies strictly between -3 and 3, has the sign of `a` and differs from `a` by a multiple of 3 |
| ScheduledDuty.RotationIndex | api/scheduled-duty.js:49 | `((diff % 3) + 3) % 3` is always a valid index of the rotation and equals the mathematical residue of `diff`, for negative differences too |
| ScheduledDuty.TeamForDate | api/scheduled-duty.js:49-50 | the team on duty is 1, 2 or 3, is a key of the officer table, and is the rotation entry at the residue of the day difference from 1 August 2025 |
| ScheduledDuty.Roster | api/scheduled-duty.js:61 | no contract of its own: `teamOfficers[team]` for a team of the table; `TablePlain` states what every roster holds |
| ScheduledDuty.RotationCoversTable | api/scheduled-duty.js:20-40 | every rotation value is a team of the table, every team of the table occurs in the rotation, and no team appears twice |
| ScheduledDuty.TeamCycle | api/scheduled-duty.js:49-50 | `n` days later the same team is on duty exactly when `n` is a multiple of 3 |
| ScheduledDuty.TeamAdvances | api/scheduled-duty.js:49-51 | the next day's team is the next entry of the rotation, wrapping after the last |
| ScheduledDuty.RotationScenarios | api/scheduled-duty.js:19-20 | 1 August 2025 gives team 3, 2 August gives 1, 3 August gives 2, 4 August gives 3, and 31 July 2025 gives 2 |
| ScheduledDuty.MonthNamesDistinct | api/scheduled-duty.js:14-17 | there are twelve month names, all different |
| ScheduledDuty.MonthNamesAvoid | api/scheduled-duty.js:14-17 | no month name holds a space, a newline or the bullet `●` |
| ScheduledDuty.FindMonth | api/scheduled-duty.js:14-17 | looking a month name up in the table gives back its month index |
| ScheduledDuty.FmtThai | api/scheduled-duty.js:43-45 | no contract of its own: `SplitFmtThai` fixes its three fields, `FmtThaiRoundTrip` and `FmtThaiInjective` show it loses no information |
| ScheduledDuty.SplitFmtThai | api/scheduled-duty.js:43-45 | a rendered date consists of exactly three space-separated fields: the day, the month name of `getMonth`, and the year plus 543 |
| ScheduledDuty.FmtThaiRoundTrip | api/scheduled-duty.js:43-45 | reading a rendered date back gives the date itself, so no information is lost |
| ScheduledDuty.FmtThaiInjective | api/scheduled-duty.js:43-45 | two dates render alike exactly when they are equal |
| ScheduledDuty.FmtThaiAvoids | api/scheduled-duty.js:43-45 | a rendered date holds only digits, a minus sign, spaces and characters of the month name |
| ScheduledDuty.YearEndWindow | api/scheduled-duty.js:68-70 | the window of 31 December 2025 runs from `31 ธันวาคม 2568` to `1 มกราคม 2569` |
| ScheduledDuty.TeamLine | api/scheduled-duty.js:60 | the team line starts with `● ชุดปฏิบัติการ สืบสวนที่ ` and, for a one-digit team, is that prefix followed by the team's digit |
| ScheduledDuty.OfficerLines | api/scheduled-duty.js:61-65 | no contract of its own: `RosterLines` states the three lines each officer contributes |
| ScheduledDuty.RosterLines | api/scheduled-duty.js:61-65 | each officer contributes three lines in roster order: rank with name, title with the call sign in parentheses, and `โทร.` with the phone |
| ScheduledDuty.ReportHeader | api/scheduled-duty.js:53-60 | the header has seven lines; the fifth line carries today's Thai date and the seventh is the team line |
| ScheduledDuty.ReportTrailer | api/scheduled-duty.js:66-75 | the trailer has nine lines; the window starts on today's Thai date and ends on the Thai date of the next day |
| ScheduledDuty.ReportLines | api/scheduled-duty.js:53-75 | the report has 16 + 3·(roster size) lines, with the date line, the team line, the roster block and both window lines at their fixed positions |
| ScheduledDuty.DutyLines | api/scheduled-duty.js:49-75 | the report for a date names the team on duty in its team line, carries that date in its date line and lists that team's roster; it has 16 + 3·(roster size) lines |
| ScheduledDuty.MakeDutyMessageForDate | api/scheduled-duty.js:48-78 | no contract of its own: `DutyMessageLines` shows its text splits back into the report's lines, `TeamLineExtracted` that the team line is found in it |
| ScheduledDuty.TablePlain | api/scheduled-duty.js:23-40 | no field of any officer in the table holds a newline |
| ScheduledDuty.HeaderAvoids | api/scheduled-duty.js:53-60 | no header line holds a newline, and none of the six lines above the team line holds the bullet |
| ScheduledDuty.ReportSplitsBack | api/scheduled-duty.js:53-77 | splitting the joined message at newlines gives back exactly the report's lines, whenever no officer field holds a newline |
| ScheduledDuty.DutyMessageLines | api/scheduled-duty.js:48-77 | the message text of `makeDutyMessageForDate` splits into exactly the duty report's lines, 16 + 3·(roster size of the team on duty) of them |
| ScheduledDuty.MatchTeamLine | api/scheduled-duty.js:91 | `match` fails exactly when the pattern occurs nowhere; otherwise it returns the text at the leftmost match, the prefix followed by one digit |
| ScheduledDuty.ReportTeamLineMatch | api/scheduled-duty.js:91 | in any report naming a one-digit team, the leftmost match of the pattern is that report's team line |
| ScheduledDuty.TeamLineExtracted | api/scheduled-duty.js:88-91 | on the duty message of any valid date the team-line match succeeds; it yields the team line of the team on duty, the prefix followed by that team's digit |
| TextUtil.NatToString | api/scheduled-duty.js:44 | `${n}` is a non-empty string of decimal digits without a leading zero, one digit long exactly for `n < 10` |
| TextUtil.IntToString | api/scheduled-duty.js:60 | `${i}` is non-empty, all digits for a non-negative `i` and a '-' before digits for a negative one; `ParseIntToString` shows it names `i` exactly |
| TextUtil.ParseIntToString | api/scheduled-duty.js:44 | the decimal text of an integer reads back as that integer |
| TextUtil.SplitJoin | api/scheduled-duty.js:77 | `join` with a separator that no line holds is undone by `split` |
| TextUtil.Join | api/scheduled-duty.js:77 | no contract of its own: `SplitJoin`, `JoinAppend` and `JoinAvoids` state what `lines.join('\n')` keeps |
| TextUtil.JoinAppend | api/scheduled-duty.js:77 | joining two non-empty lists of lines is joining each and putting one separator between |
| TextUtil.JoinAvoids | api/scheduled-duty.js:77 | a character that is neither the separator nor in any line is not in the joined text |
| TextUtil.IndexOf | api/webhook.js:25 | the search returns the leftmost occurrence at or after the start, and fails exactly when there is none |
| Webhook.TrimStartWhitespace | api/webhook.js:25 | `\s*` removes the longest leading run of JavaScript whitespace: what it drops is all whitespace and what remains starts with a non-whitespace character |
| Webhook.CutFirst | api/webhook.js:25 | a text without the pattern comes back unchanged, and the result is never longer than the input |
| Webhook.CutFirstAt | api/webhook.js:25 | when the pattern first occurs at `i`, the result is the text before `i` followed by the text after the occurrence with its whitespace run removed; later occurrences stay |
| Webhook.StripMention | api/webhook.js:25 | no contract of its own: it is `CutFirst` with the pattern `@น้องอีฟ`, so `CutFirst`, `CutFirstAt` and `StripLeadingMention` state what it does |
| Webhook.StripLeadingMention | api/webhook.js:25 | a message that opens with `@น้องอีฟ` and blanks leaves only the rest of the message |
| Webhook.EchoWithoutMention | api/webhook.js:25-29 | a text without the mention is echoed unchanged after `น้องอีฟได้ยินว่า: `, to the event's own reply token |
| Webhook.Qualifying | api/webhook.js:23 | the events that are answered are text message events, and no more than the batch |
| Webhook.QualifyingIsFilter | api/webhook.js:22-23 | an event is answered exactly when it is in the batch and is a text message event |
| Webhook.ReplyFor | api/webhook.js:25-29 | no contract of its own: the reply goes to the event's own reply token with `น้องอีฟได้ยินว่า: ` before the stripped text; `EchoWithoutMention` and `RepliesFollowEvents` use it |
| Webhook.Process | api/webhook.js:22-31 | no contract of its own: `ProcessAppend`, `SkippedEventIsInvisible`, `MalformedEventStops` and `RepliesFollowEvents` state its behaviour |
| Webhook.HandleSpec | api/webhook.js:10-33 | no contract of its own: `Handle` is proved equal to it, and `HandleEchoesTextMessages` states its result for an authentic POST |
| Webhook.Handle | api/webhook.js:10-33 | the handler returns 405 with no reply for a non-POST request, and 401 with none when the signature check fails. A missing `events` gives 200 with no reply. Otherwise the outcome and replies are those of the event loop |
| Webhook.ProcessAppend | api/webhook.js:22-31 | processing two batches one after the other equals processing their concatenation; the second is never reached once the first threw |
| Webhook.SkippedEventIsInvisible | api/webhook.js:23 | an event that is not a text message changes neither the replies nor the outcome of the rest of the batch |
| Webhook.MalformedEventStops | api/webhook.js:23 | a `message` event without a message makes the handler throw; no later event of the batch gets a reply |
| Webhook.RepliesFollowEvents | api/webhook.js:22-31 | without malformed events nothing throws, and there is exactly one reply per text message event, in event order, each to that event's reply token with the stripped echo |
| Webhook.HandleEchoesTextMessages | api/webhook.js:21-32 | an authentic POST with well-formed events gets status 200 and exactly the ordered echoes of its text message events |

## Left out

- LINE SDK transport: the client, `broadcast`, `replyMessage` and the HTTP response plumbing are not modelled. The duty message is the value that would be broadcast; a reply is the pair of reply token and message that would be sent.
- The signature check is a boolean field of the request. The HMAC computation, and how the SDK middleware reports a failure, are outside the model. The model assumes the awaited middleware call fails exactly when the signature is invalid.
- A failed `replyMessage` or `broadcast` call is not modelled: the handler would reject, or answer 500 for the scheduled broadcast, and such failures come from the network.
- Logging (`console.log`, `console.error`) and the trigger timestamp are left out, since they do not affect any result.
- The scheduled handler's `try`/`catch` and its 200/500 responses are left out: the only failure inside its `try` that the model can reach is the team-line match, and `TeamLineExtracted` shows that match always succeeds.
- The clock is left out: `new Date()` becomes the date parameter of `MakeDutyMessageForDate`. Time zones and the time of day are not modelled; a date is a local calendar day.
- The JavaScript `Date` range limit (10^8 days either side of 1 January 1970, that is years -271,821 to 275,760) is not modelled. Years are unbounded integers.
- Strings are sequences of Unicode scalar values rather than UTF-16 code units. User text may hold characters outside the Basic Multilingual Plane, such as emoji. The cut still agrees with JavaScript's, because every character of `@น้องอีฟ` and every `\s` character is a single non-surrogate code unit: a match by code units and a match by code points cut the same text. Lone surrogates, which a JavaScript string may hold, cannot be represented.
- Webhook.Handle: a `message` event without a `message` field makes the source throw a `TypeError` at `event.message.type`. The whole handler then rejects and later events of the batch get no reply. The model follows this code: the outcome is `Threw`, and no event after the malformed one is read. A text message whose `text` field is missing is not modelled: `text` is always a string.
- `req.body.events || []`: events are either present as a list or missing (`None`). Other falsy values of `events` are not distinguished from missing, and other non-list values are not modelled.
- `api/sheets.js`, `modules/translator.js`, `modules/googleVision.js` and `modules/googleSheets.js` are not part of this model; their behaviour depends on external services.
