# Daily Focus Planner — schedule view and calendar export

Daily Focus Planner shows a day's schedule as a list of time blocks. Each item
is a `Task`: a description, a start and an end time written `HH:MM`, a flag
saying whether the user typed it or it came from their calendar, and an
Eisenhower category text such as "Urgent & Important". This project models
and proves the two parts of the app that compute something:

- the schedule view (`ScheduleDisplay`): it drops repeated items, working
  from a text key made of description, start and end. It colours and labels
  each user task by the quadrant its category text falls into. It shows
  summary tiles: total items, user tasks, start time and end time. Its
  DOWNLOAD ICS button names the file after the UTC date of its own
  `new Date().toISOString()` reading. That date can differ from the local
  date on which DTSTART and DTEND are placed.
- the calendar exporter (`generateICS`): it writes an iCalendar document
  (RFC 5545). The document has seven fixed header lines, then ten lines per
  item, then the footer. Every line ends in CR LF. SUMMARY text is escaped as
  section 3.3.11 of RFC 5545 describes. DTSTART and DTEND are floating local
  times on the current day. The DTSTAMP and UID of every event are built
  from one UTC timestamp.

Modules:

- `Strings`: the JavaScript string built-ins the source uses. These are
  `split`, `includes`, `toLowerCase`, `trim`, `String(n)`, `padStart`, and
  `Number` applied to digit strings.
- `Tasks`: the item record.
- `Quadrants`: category colour and label.
- `Normalizer`: deduplication and the summary tiles.
- `TimeCodec`: `parseTime`, `formatICSDate` and the DTSTAMP timestamp.
- `Escaping`: `escapeICSText`.
- `Calendar`: the document and the imperative `generateICS`.
- `CalendarShape`: what each line of the document holds, and how a reader
  splitting the document at line breaks gets the lines back.
- `Export`: `handleDownload`.

The clock is a parameter. `today` is the calendar date that `new Date()`
gives inside `parseTime`. `iso` is the `toISOString()` text of the instant
the timestamp is taken from. `nameIso` is the `toISOString()` text of the
separate reading that names the file. The model keeps `today` and `nameIso`
apart, because near midnight the local date and the UTC date differ.

Two behaviours of the code differ from what the comment at `src/components/ScheduleDisplay.tsx:12` and the iCalendar format suggest. The model keeps both:

- The duplicate key is the text `description-startTime-endTime`, not the
  tuple of the three fields. Different items can therefore share a key:
  `Normalizer.KeyCollision`.
- Only SUMMARY is escaped. DESCRIPTION embeds the category text as it is,
  so a line feed in a category breaks the DESCRIPTION line:
  `CalendarShape.DescriptionClean`, `CalendarShape.DocumentReadsBack`.

## Model

| member | source | states |
|---|---|---|
| Calendar.GenerateICS | src/utils/icsGenerator.ts:3-66 | The text the loop builds is exactly the document: seven header lines, one ten-line event per item in order, the footer, each line ended by CR LF |
| Calendar.Preamble | src/utils/icsGenerator.ts:33-39 | The seven header appends produce the joined header lines |
| Calendar.WriteEvent | src/utils/icsGenerator.ts:41-61 | One pass of the loop body appends exactly the ten CR LF terminated lines of that item's event |
| Calendar.VEvent | src/utils/icsGenerator.ts:51-60 | An event block has ten lines |
| Calendar.EventOf | src/utils/icsGenerator.ts:41-61 | An item's event block has ten lines |
| Calendar.Events | src/utils/icsGenerator.ts:41-61 | The event section has ten lines per item |
| Calendar.DocumentLines | src/utils/icsGenerator.ts:33-63 | A document has 8 + 10·n lines for n items |
| Calendar.FlattenLength | src/utils/icsGenerator.ts:41-61 | Blocks of equal width w concatenate to w times their number of lines |
| Calendar.BlocksUniform | src/utils/icsGenerator.ts:41-61 | Every item's block has width ten |
| CalendarShape.DocumentShape | src/utils/icsGenerator.ts:33-63 | The first seven lines are the header, the last is END:VCALENDAR, and the lines between are the events in list order |
| CalendarShape.EmptySchedule | src/utils/icsGenerator.ts:33-63 | With no items the document is only the header and the footer |
| CalendarShape.EventLine | src/utils/icsGenerator.ts:41-61 | Line 7 + 10k + j of the document is line j of item k's event |
| CalendarShape.FramedAt | src/utils/icsGenerator.ts:33-63 | Inside header + blocks + footer, line j of block k sits at position header length + 10k + j |
| CalendarShape.BeginAt | src/utils/icsGenerator.ts:51 | Every item's block opens with BEGIN:VEVENT at line 7 + 10k |
| CalendarShape.UidAt | src/utils/icsGenerator.ts:42-52 | Item k's UID line is UID: followed by timestamp, "-k" and the fixed domain |
| CalendarShape.UidIdentifies | src/utils/icsGenerator.ts:42-52 | Two events of one document with the same UID line are the same event, even when their descriptions are equal |
| CalendarShape.UidInjective | src/utils/icsGenerator.ts:42 | Different positions give different UIDs under one timestamp |
| CalendarShape.TimesAt | src/utils/icsGenerator.ts:48-55 | Item k's DTSTAMP is the shared timestamp; its DTSTART and DTEND are the formatted start and end times |
| CalendarShape.FloatingTimes | src/utils/icsGenerator.ts:39-55 | The document says X-WR-TIMEZONE:UTC, DTSTAMP ends in Z, and DTSTART and DTEND carry no Z, so they are floating local times |
| CalendarShape.TimeZoneLine | src/utils/icsGenerator.ts:39 | Line 6 is the UTC time-zone hint |
| CalendarShape.Floating | src/utils/icsGenerator.ts:14-23 | A formatted time has no Z suffix |
| CalendarShape.SummaryReadsBack | src/utils/icsGenerator.ts:43-56 | The SUMMARY value has no line feed, and unescaping it gives back the description |
| CalendarShape.DescriptionLine | src/utils/icsGenerator.ts:57 | Line 6 of an event is DESCRIPTION: followed by the item's description text |
| CalendarShape.DescriptionAt | src/utils/icsGenerator.ts:44-57 | Item k's DESCRIPTION line sits at line 13 + 10k |
| CalendarShape.DescriptionForms | src/utils/icsGenerator.ts:44-46 | A user task's DESCRIPTION is "Eisenhower Category: ", the category unescaped, then a literal backslash-n and "Task Type: User Task"; a calendar event's is "Task Type: Calendar Event" |
| CalendarShape.StatusAt | src/utils/icsGenerator.ts:58-59 | Every event has STATUS:CONFIRMED and SEQUENCE:0 at lines 14 + 10k and 15 + 10k |
| CalendarShape.UidLine | src/utils/icsGenerator.ts:52 | Line 1 of an event is its UID line |
| CalendarShape.BeginLine | src/utils/icsGenerator.ts:51 | Line 0 of an event is BEGIN:VEVENT |
| CalendarShape.StatusLines | src/utils/icsGenerator.ts:58-59 | Lines 7 and 8 of an event are the fixed status and sequence |
| CalendarShape.ReadJoinLines | src/utils/icsGenerator.ts:33-63 | Splitting CR LF terminated lines at LF and stripping the CR gives them back exactly when no line holds a line feed |
| CalendarShape.SplitJoinLines | src/utils/icsGenerator.ts:33-63 | Splitting the joined lines at LF gives each line with its CR, then an empty tail |
| CalendarShape.DocumentClean | src/utils/icsGenerator.ts:33-63 | No document line holds a line feed exactly when the timestamp has none and no user task's category has one |
| CalendarShape.DocumentReadsBack | src/utils/icsGenerator.ts:33-66 | A reader gets the written lines back from the document exactly when those inputs are free of line feeds |
| CalendarShape.DescriptionClean | src/utils/icsGenerator.ts:44-46 | DESCRIPTION holds a line feed exactly when the item is a user task whose category holds one |
| CalendarShape.UidClean | src/utils/icsGenerator.ts:42 | A UID holds a line feed exactly when the timestamp does |
| CalendarShape.TimeClean | src/utils/icsGenerator.ts:14-23 | A formatted time holds no line feed |
| CalendarShape.EventClean | src/utils/icsGenerator.ts:41-61 | An event's lines are free of line feeds exactly when the timestamp is and, for a user task, the category is |
| CalendarShape.BlocksClean | src/utils/icsGenerator.ts:41-61 | All event blocks are free of line feeds exactly when the timestamp and every user task's category are |
| CalendarShape.HeaderClean | src/utils/icsGenerator.ts:33-63 | The fixed header and footer lines hold no line feed |
| CalendarShape.TimestampClean | src/utils/icsGenerator.ts:5 | A timestamp taken from a text without line feeds has none |
| CalendarShape.ReadLinesNoLineFeeds | src/utils/icsGenerator.ts:33-63 | The lines read back from any text hold no line feed |
| CalendarShape.StripTerminated | src/utils/icsGenerator.ts:33-63 | Stripping the trailing CR of terminated lines restores them |
| TimeCodec.ParseTime | src/utils/icsGenerator.ts:7-12 | The parsed time is on today's date, with zero seconds and milliseconds and a valid hour and minute |
| TimeCodec.ParseTimeOfParts | src/utils/icsGenerator.ts:7-12 | "h:m…" parses to hour Number(h) and minute Number(m); anything after a second colon is ignored |
| TimeCodec.ClockRoundTrip | src/utils/icsGenerator.ts:7-12 | Parsing the HH:MM text of a clock time gives that time back |
| TimeCodec.OneDigitHour | src/utils/icsGenerator.ts:9 | "9:05" and "09:05" parse to the same time, since Number ignores the leading zero |
| TimeCodec.ClockOf | src/utils/icsGenerator.ts:9 | The hour and minute read from a time text form a valid clock time |
| TimeCodec.ClockText | src/utils/icsGenerator.ts:7-12 | The HH:MM printer used as the inverse of parseTime in ClockRoundTrip: its text has five characters with the colon third |
| TimeCodec.FormatICSDateChars | src/utils/icsGenerator.ts:14-23 | A formatted time has only digits and the T separator |
| TimeCodec.FormatICSDateLayout | src/utils/icsGenerator.ts:14-23 | For a four-digit year the value is YYYYMMDDTHHMMSS: 15 characters, each field holding that date and time, seconds 00 |
| TimeCodec.FormatICSDateInjective | src/utils/icsGenerator.ts:14-23 | Two time texts format alike on one day exactly when they denote the same clock time |
| TimeCodec.Timestamp | src/utils/icsGenerator.ts:5 | The timestamp ends in Z, contains no '-', ':' or '.', and every other character comes from the ISO text |
| TimeCodec.TimestampOfInstant | src/utils/icsGenerator.ts:5 | For any instant toISOString can print, the timestamp is its 16-character YYYYMMDDTHHMMSSZ basic form |
| TimeCodec.TimestampExample | src/utils/icsGenerator.ts:5 | 2024-01-02T03:04:05.678Z gives 20240102T030405Z |
| TimeCodec.TimestampOfFields | src/utils/icsGenerator.ts:5 | Removing '-' and ':', cutting at '.' and appending Z turns the ISO fields into the basic form |
| TimeCodec.RemoveChars | src/utils/icsGenerator.ts:5 | Removing characters leaves none of them and adds nothing |
| Escaping.EscapeIsPerChar | src/utils/icsGenerator.ts:25-31 | The four replace passes equal one character-by-character escape: backslashes added by later passes are never doubled |
| Escaping.EscapeTextShape | src/utils/icsGenerator.ts:25-31 | Escaped text holds no line feed, and each ';' and ',' follows a backslash |
| Escaping.UnescapeEscape | src/utils/icsGenerator.ts:25-31 | Reading escaped text back with the RFC 5545 TEXT rules gives the original |
| Escaping.EscapeIdentity | src/utils/icsGenerator.ts:25-31 | Text without backslash, ';', ',' or line feed is unchanged |
| Escaping.EscapeLength | src/utils/icsGenerator.ts:25-31 | Escaping adds exactly one character per special character |
| Escaping.EscapeTextAppend | src/utils/icsGenerator.ts:25-31 | Escaping distributes over concatenation |
| Escaping.EscapeOne | src/utils/icsGenerator.ts:25-31 | On one character the four passes give that character's escape |
| Escaping.EscapeChar | src/utils/icsGenerator.ts:27-30 | A character's escape has two characters exactly for the four specials |
| Escaping.EscapeSeparators | src/utils/icsGenerator.ts:25-31 | In plain pieces joined by ';', ',' and a line feed, the separators gain a backslash and the line feed becomes backslash-n |
| Escaping.EscapeExample | src/utils/icsGenerator.ts:25-31 | "Plan A; review, notes", a line feed and "follow-up" escape to the expected text |
| Escaping.CarriageReturnKept | src/utils/icsGenerator.ts:25-31 | A carriage return passes through unescaped |
| Escaping.ReplaceAll | src/utils/icsGenerator.ts:27-30 | A global replace whose replacement lacks the character leaves none of it |
| Escaping.ReplaceAllAppend | src/utils/icsGenerator.ts:27-30 | A global replace distributes over concatenation |
| Normalizer.Deduplicate | src/components/ScheduleDisplay.tsx:13-23 | The filter loop with its seen set keeps exactly the first item of each key |
| Normalizer.Dedup | src/components/ScheduleDisplay.tsx:13-23 | Deduplication never lengthens the list and keeps every key |
| Normalizer.DedupKeepsFirstOccurrences | src/components/ScheduleDisplay.tsx:13-23 | The kept items are the inputs at strictly increasing positions, and a position is kept exactly when it holds the first item of its key |
| Normalizer.DedupIsSubsequence | src/components/ScheduleDisplay.tsx:13-23 | The kept items are a subsequence of the input |
| Normalizer.DedupKeepsHead | src/components/ScheduleDisplay.tsx:13-23 | The first item is always kept |
| Normalizer.DedupDistinct | src/components/ScheduleDisplay.tsx:13-23 | No two kept items share a key |
| Normalizer.DedupOfDistinct | src/components/ScheduleDisplay.tsx:13-23 | A list without repeated keys is unchanged |
| Normalizer.DedupIdempotent | src/components/ScheduleDisplay.tsx:13-23 | Deduplicating twice equals deduplicating once |
| Normalizer.DedupCoversInput | src/components/ScheduleDisplay.tsx:13-23 | Every input item has a kept item with its key |
| Normalizer.KeysOfSnoc | src/components/ScheduleDisplay.tsx:20 | Adding an item adds its key to the seen set |
| Normalizer.InPrefixKeys | src/components/ScheduleDisplay.tsx:17 | The last item's key was seen before exactly when that item is not its key's first |
| Normalizer.KeyInjective | src/components/ScheduleDisplay.tsx:16 | When neither time holds '-', equal keys mean equal description, start and end |
| Normalizer.TailSplit | src/components/ScheduleDisplay.tsx:16 | A dash-joined key with dash-free times splits back into its parts |
| Normalizer.KeyCollision | src/components/ScheduleDisplay.tsx:16 | Two different items can share a key, and then the second is dropped |
| Normalizer.UserTasks | src/components/ScheduleDisplay.tsx:143 | The user-task filter keeps exactly the user tasks, and never more items than it is given |
| Normalizer.UserTasksMultiset | src/components/ScheduleDisplay.tsx:143 | Each user task is kept as many times as it occurs; no other item is kept |
| Normalizer.UserTasksInOrder | src/components/ScheduleDisplay.tsx:143 | The kept items are the inputs at the user-task positions, in increasing position order |
| Normalizer.KeptKeyCount | src/components/ScheduleDisplay.tsx:13-23 | The deduplicated list has one item per distinct key of the input |
| Normalizer.Summarize | src/components/ScheduleDisplay.tsx:143-145 | TOTAL ITEMS is the number of distinct keys of the input, and it is 0 only for an empty input; the user-task count is at most that; the start tile is the first item's start, or 09:00 and 17:00 when the list is empty |
| Normalizer.SummaryLastTime | src/components/ScheduleDisplay.tsx:145 | The end tile is the end time of a kept input item |
| Normalizer.SummaryUserTasks | src/components/ScheduleDisplay.tsx:143 | The user-task tile is the number of input positions holding a user task that is the first item with its key; every counted task is an input user task |
| Normalizer.SummaryIsPositional | src/components/ScheduleDisplay.tsx:144-145 | Start and end tiles follow list position, not clock order |
| Quadrants.CategoryColor | src/components/ScheduleDisplay.tsx:25-28 | A calendar event is grey whatever its category; a user task is never grey |
| Quadrants.CategoryLabel | src/components/ScheduleDisplay.tsx:56-81 | The label is N/A or one of the four quadrant names |
| Quadrants.LabelIsQuadrant | src/components/ScheduleDisplay.tsx:56-81 | The label names a quadrant exactly when the normalised category meets that quadrant's rule; it is N/A exactly when it meets none |
| Quadrants.QuadrantsExclusive | src/components/ScheduleDisplay.tsx:59-78 | No normalised category meets two quadrant rules |
| Quadrants.ColorFollowsLabel | src/components/ScheduleDisplay.tsx:25-54 | A user task's colour is the colour of its label; ELIMINATE and N/A share the white style |
| Quadrants.ShownLabelMeaning | src/components/ScheduleDisplay.tsx:215-251 | A block shows a quadrant's badge exactly when the item is a user task in that quadrant; it shows none for calendar events and unclassified categories |
| Quadrants.ClassifiedMentionsBoth | src/components/ScheduleDisplay.tsx:59-78 | A labelled category mentions both "urgent" and "important" |
| Quadrants.TrimIsIrrelevant | src/components/ScheduleDisplay.tsx:57 | Trimming does not change which quadrant rule a category meets |
| Quadrants.PhrasesSurviveTrim | src/components/ScheduleDisplay.tsx:57 | The four phrases occur in the trimmed text exactly when they occur in the untrimmed text |
| Quadrants.LabelIgnoresCase | src/components/ScheduleDisplay.tsx:30-57 | Label and colour do not depend on letter case |
| Quadrants.SameNormal | src/components/ScheduleDisplay.tsx:30-57 | Categories with the same normal form get the same label and colour |
| Quadrants.LabelFromRule | src/components/ScheduleDisplay.tsx:56-81 | A category meeting a quadrant's rule gets that quadrant's label and colour |
| Quadrants.UrgentImportantIsDoFirst | src/components/ScheduleDisplay.tsx:59-62 | "Urgent & Important" is DO FIRST |
| Quadrants.ImportantUrgentIsDoFirst | src/components/ScheduleDisplay.tsx:59-62 | "Important & Urgent" is DO FIRST |
| Quadrants.NotUrgentImportantIsSchedule | src/components/ScheduleDisplay.tsx:65-67 | "Not Urgent & Important" is SCHEDULE |
| Quadrants.ImportantNotUrgentIsSchedule | src/components/ScheduleDisplay.tsx:65-67 | "Important & Not Urgent" is SCHEDULE |
| Quadrants.UrgentNotImportantIsDelegate | src/components/ScheduleDisplay.tsx:70-72 | "Urgent & Not Important" is DELEGATE |
| Quadrants.NotImportantUrgentIsDelegate | src/components/ScheduleDisplay.tsx:70-72 | "Not Important & Urgent" is DELEGATE |
| Quadrants.NotUrgentNotImportantIsEliminate | src/components/ScheduleDisplay.tsx:75-77 | "Not Urgent & Not Important" is ELIMINATE |
| Quadrants.NotImportantNotUrgentIsEliminate | src/components/ScheduleDisplay.tsx:75-77 | "Not Important & Not Urgent" is ELIMINATE |
| Quadrants.UnimportantCountsAsImportant | src/components/ScheduleDisplay.tsx:59-62 | Matching is by substring, so "Urgent & Unimportant" is DO FIRST |
| Quadrants.NeitherNorIsDoFirst | src/components/ScheduleDisplay.tsx:59-62 | The legend's ELIMINATE caption "Neither Urgent Nor Important", used as a category, is DO FIRST with the DO FIRST colour |
| Export.Download | src/components/ScheduleDisplay.tsx:108-137 | The file's content is the calendar of the deduplicated list, and its name comes from the separate `nameIso` reading, not from `today` |
| Export.DedupValid | src/components/ScheduleDisplay.tsx:115 | Deduplicating keeps every time text well formed |
| Export.FileName | src/components/ScheduleDisplay.tsx:123 | The name is the prefix, then the ISO text up to its first T, then .ics |
| Export.FileNameOfDate | src/components/ScheduleDisplay.tsx:123 | For an ISO text "date T time" the file is daily-focus-schedule-date.ics |
| Export.ExportCountsItems | src/components/ScheduleDisplay.tsx:115-143 | The file has one ten-line event per item on the TOTAL ITEMS tile |
| Export.ExportMatchesTiles | src/components/ScheduleDisplay.tsx:115-145 | The first event starts at the START TIME tile's time and the last one ends at the END TIME tile's time |
| Export.ExportIdempotent | src/components/ScheduleDisplay.tsx:13-23 | Exporting an already deduplicated list gives the same file |
| Export.ExportReadsBack | src/components/ScheduleDisplay.tsx:115 | The downloaded file reads back as its lines exactly when the timestamp and the kept categories are free of line feeds |
| Export.DuplicateDropped | src/components/ScheduleDisplay.tsx:13-23 | A repeated item is dropped, and the next distinct one is kept |
| Export.ScenarioTiles | src/components/ScheduleDisplay.tsx:143-145 | A twice-listed report and a stand-up give two items, one user task, 09:00 and 09:30 |
| Export.ScenarioDocument | src/utils/icsGenerator.ts:41-61 | Their document has 28 lines, two events, and the stand-up's DESCRIPTION marks it as a calendar event |
| Export.TwoEvents | src/utils/icsGenerator.ts:41-61 | Two items give two ten-line events; a calendar event's DESCRIPTION says so |
| Strings.NatToString | src/utils/icsGenerator.ts:16-21 | String(n) is a decimal digit string of value n, without a leading zero |
| Strings.NatToStringInjective | src/utils/icsGenerator.ts:16-21 | Different numbers print differently |
| Strings.PadNumber | src/utils/icsGenerator.ts:17-21 | padStart(w, '0') of String(n) is a digit string of value n, exactly w long when n has at most w digits |
| Strings.Split | src/utils/icsGenerator.ts:9 | split gives at least one piece, no piece holds the separator, and the first piece is everything up to the first separator |
| Strings.SplitJoin | src/utils/icsGenerator.ts:9 | Joining the pieces with the separator gives back the text |
| Strings.SplitFirst | src/utils/icsGenerator.ts:9 | The first piece of a + sep + b is a, and the other pieces are those of b |
| Strings.ToLowerIdempotent | src/components/ScheduleDisplay.tsx:30-57 | Lower-casing twice equals lower-casing once |
| Strings.ContainsTrim | src/components/ScheduleDisplay.tsx:57 | A pattern with no white space at either end occurs in the trimmed text exactly when it occurs in the untrimmed text |
| Strings.NotContainsByProbe | src/components/ScheduleDisplay.tsx:33-49 | includes is false when no candidate position matches |

## Left out

- `formatTime`, `formatDate` and the second `parseTime` in `ScheduleDisplay.tsx`. They only format display text and have no bearing on the export.
- The JSX layout, `handlePrint`, the task-input form, the app shell and the styles. They are rendering, not logic.
- Export.Download: the Blob, the object URL, the link click, the cleanup timer, the console logs and the error alert. These are browser I/O. The model keeps only the computed content and file name.
- The clock. `new Date()` is read separately for the timestamp, inside each `parseTime` call, and for the file name. The model takes the calendar date and the ISO texts as parameters. Every `parseTime` call of one export uses the same date, so an export that crosses midnight is not modelled.
- TimeCodec.ParseTime: the caller must pass `HH:MM` with hour ≤ 23 and minute ≤ 59. `Number` is modelled only on digit strings, with the empty string read as 0. The source has no such guard: a bad time gives NaN fields, and an out-of-range one makes `setHours` roll over to another day. Both are outside the model. Local time-zone transitions are not modelled either: in a daylight-saving gap `setHours(2, 30)` lands an hour later, while the model keeps the wall-clock time it was given.
- TimeCodec.FormatICSDateLayout: the exact 15-character layout is stated only for years 1000 to 9999. `getFullYear` prints other years with other widths, and the model still computes them.
- TimeCodec.TimestampOfInstant: `toISOString` writes years beyond 9999 with a sign and six digits. That format is not modelled.
- `toLowerCase` is modelled on ASCII letters only. `trim`'s white space is the ASCII and common Unicode space characters. Strings are sequences of characters, not UTF-16 code units.
- Line folding to 75 octets (section 3.1 of RFC 5545) is not done by the source, and the model reproduces that.
- The source does not escape the category inside DESCRIPTION, and does not escape a carriage return anywhere. The model keeps both behaviours. `Escaping.CarriageReturnKept` and `CalendarShape.DescriptionClean` state their effect.
- The `React.useMemo` caching of the deduplicated list is not modelled, since it does not change the result.
