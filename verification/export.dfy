/**
  The DOWNLOAD ICS button of the schedule view: the deduplicated list is
  handed to `generateICS`, and the file is named after the current date.
  The summary tiles and the calendar are computed from the same list.
 */
module Export {
  import opened Strings
  import opened Tasks
  import opened TimeCodec
  import opened Escaping
  import opened Normalizer
  import opened Calendar
  import opened CalendarShape

  /** Deduplication only drops items, so the kept times are still well formed. */
  lemma DedupValid(schedule: seq<Task>)
    requires ValidSchedule(schedule)
    ensures ValidSchedule(Dedup(schedule))
  {
    DedupKeepsFirstOccurrences(schedule);
    var o := Origins(schedule);
    assert forall k :: 0 <= k < |Dedup(schedule)| ==> Dedup(schedule)[k] == schedule[o[k]];
  }

  /** The content lines of the downloaded file: those of the deduplicated list. */
  function ExportedLines(today: CalendarDate, iso: string, schedule: seq<Task>): seq<string>
    requires ValidDate(today) && ValidSchedule(schedule)
  {
    DedupValid(schedule);
    DocumentLines(Timestamp(iso), today, Dedup(schedule))
  }

  /** The text of the downloaded file: the calendar of the deduplicated list. */
  function ExportedDocument(today: CalendarDate, iso: string, schedule: seq<Task>): string
    requires ValidDate(today) && ValidSchedule(schedule)
  {
    DedupValid(schedule);
    Document(today, iso, Dedup(schedule))
  }

  const FilePrefix := "daily-focus-schedule-"
  const FileSuffix := ".ics"

  /**
    The download name: prefix, then the date part of an ISO text (all of
    it up to its first 'T'), then the extension.
   */
  function FileName(iso: string): (r: string)
    ensures |r| >= |FilePrefix| + |FileSuffix|
    ensures r[..|FilePrefix|] == FilePrefix && r[|r| - |FileSuffix|..] == FileSuffix
    ensures var date := r[|FilePrefix|..|r| - |FileSuffix|];
      date <= iso && 'T' !in date && (|date| < |iso| ==> iso[|date|] == 'T')
  {
    FilePrefix + Split(iso, 'T')[0] + FileSuffix
  }

  /** For an ISO text "date T time" the file is named after the date. */
  lemma FileNameOfDate(date: string, time: string)
    requires 'T' !in date
    ensures FileName(date + "T" + time) == FilePrefix + date + FileSuffix
  {
    assert date + "T" + time == date + ['T'] + time;
    SplitFirst(date, 'T', time);
  }

  /**
    `handleDownload`: deduplicate, generate the calendar, name the file.
    The two clock readings of the source (one inside `generateICS`, one for
    the name) are the parameters `iso` and `nameIso`. The name takes the
    UTC date of `nameIso`, which need not be the local date `today` on
    which the events are placed.
   */
  method Download(schedule: seq<Task>, today: CalendarDate, iso: string, nameIso: string)
    returns (icsContent: string, fileName: string)
    requires ValidDate(today) && ValidSchedule(schedule)
    ensures icsContent == ExportedDocument(today, iso, schedule)
    ensures fileName == FileName(nameIso)
  {
    var kept := Deduplicate(schedule);
    DedupValid(schedule);
    icsContent := GenerateICS(kept, today, iso);
    fileName := FilePrefix + Split(nameIso, 'T')[0] + FileSuffix;
  }

  /** The file holds one event per item counted on the TOTAL ITEMS tile. */
  lemma ExportCountsItems(today: CalendarDate, iso: string, schedule: seq<Task>)
    requires ValidDate(today) && ValidSchedule(schedule)
    ensures |ExportedLines(today, iso, schedule)| == 8 + 10 * Summarize(schedule).totalItems
  {
    DedupValid(schedule);
  }

  /**
    The first event starts at the START TIME tile's time and the last one
    ends at the END TIME tile's time: tiles and file read the same list.
   */
  lemma ExportMatchesTiles(today: CalendarDate, iso: string, schedule: seq<Task>)
    requires ValidDate(today) && ValidSchedule(schedule) && |schedule| > 0
    ensures var kept := Dedup(schedule);
      var tiles := Summarize(schedule);
      ValidSchedule(kept) && |kept| > 0
      && tiles.firstTime == kept[0].startTime && tiles.lastTime == kept[|kept| - 1].endTime
      && var d := ExportedLines(today, iso, schedule);
      d[10] == "DTSTART:" + FormatICSDate(today, kept[0].startTime)
      && d[1 + 10 * |kept|] == "DTEND:" + FormatICSDate(today, kept[|kept| - 1].endTime)
  {
    DedupValid(schedule);
    DedupKeepsHead(schedule);
    var kept := Dedup(schedule);
    TimesAt(Timestamp(iso), today, kept, 0);
    TimesAt(Timestamp(iso), today, kept, |kept| - 1);
  }

  /** Exporting an already deduplicated list gives the same file. */
  lemma ExportIdempotent(today: CalendarDate, iso: string, schedule: seq<Task>)
    requires ValidDate(today) && ValidSchedule(schedule)
    ensures ValidSchedule(Dedup(schedule))
      && ExportedDocument(today, iso, Dedup(schedule)) == ExportedDocument(today, iso, schedule)
  {
    DedupValid(schedule);
    DedupIdempotent(schedule);
  }

  /**
    A reader splitting the downloaded file at line breaks gets the written
    lines back exactly when the timestamp and the kept user tasks'
    categories have no line feed.
   */
  lemma ExportReadsBack(today: CalendarDate, iso: string, schedule: seq<Task>)
    requires ValidDate(today) && ValidSchedule(schedule)
    ensures ReadLines(ExportedDocument(today, iso, schedule)) == ExportedLines(today, iso, schedule)
      <==> CleanInputs(Timestamp(iso), Dedup(schedule))
  {
    DedupValid(schedule);
    DocumentReadsBack(today, iso, Dedup(schedule));
  }

  /** A repeated item is dropped, the next distinct one kept. */
  lemma DuplicateDropped(a: Task, b: Task)
    requires Key(a) != Key(b)
    ensures Dedup([a, a, b]) == [a, b]
  {
    assert Dedup([a]) == [a] by {
      assert [a][..0] == [];
    }
    assert Dedup([a, a]) == [a] by {
      assert [a, a][..1] == [a];
      assert Key(a) in KeysOf([a]);
    }
    assert Dedup([a, a, b]) == [a, b] by {
      assert [a, a, b][..2] == [a, a];
      assert KeysOf([a, a]) == {Key(a)};
    }
  }

  lemma ScenarioTimes()
    ensures IsTimeText("09:00") && IsTimeText("11:00") && IsTimeText("09:30")
  {
    ClockDigits("09:00", '0', '9', '0', '0');
    ClockDigits("11:00", '1', '1', '0', '0');
    ClockDigits("09:30", '0', '9', '3', '0');
  }

  /** The report task and the stand-up of the example below. */
  predicate ScenarioTasks(report: Task, standup: Task) {
    report == Task("Write report", "09:00", "11:00", true, "Urgent & Important")
    && standup == Task("Team standup", "09:00", "09:30", false, "")
  }

  /**
    A report task listed twice and a stand-up: the copy is dropped and the
    tiles show 2 items, 1 user task, 09:00 and 09:30 (the stand-up's end,
    by position, not the latest end).
   */
  lemma ScenarioTiles(report: Task, standup: Task)
    requires ScenarioTasks(report, standup)
    ensures Dedup([report, report, standup]) == [report, standup]
    ensures Summarize([report, report, standup]) == Summary(2, 1, "09:00", "09:30")
  {
    assert Key(report) != Key(standup) by {
      assert Key(report)[0] == 'W' && Key(standup)[0] == 'T';
    }
    DuplicateDropped(report, standup);
    assert UserTasks([report, standup]) == [report] by {
      assert [report, standup][..1] == [report];
      assert [report][..0] == [];
    }
  }

  /**
    The file for that example holds two events, and the stand-up's is
    described as a calendar event.
   */
  lemma ScenarioDocument(report: Task, standup: Task, today: CalendarDate, iso: string)
    requires ScenarioTasks(report, standup) && ValidDate(today)
    ensures ValidSchedule([report, standup])
    ensures var d := DocumentLines(Timestamp(iso), today, [report, standup]);
      |d| == 28 && d[7] == "BEGIN:VEVENT" && d[17] == "BEGIN:VEVENT"
      && d[23] == "DESCRIPTION:" + "Task Type: Calendar Event"
  {
    ScenarioTimes();
    PairValid(report, standup);
    TwoEvents(Timestamp(iso), today, [report, standup]);
  }

  lemma PairValid(first: Task, second: Task)
    requires ValidItem(first) && ValidItem(second)
    ensures ValidSchedule([first, second])
  {
  }

  /** Two items give two ten-line events; a calendar event's says so in DESCRIPTION. */
  lemma TwoEvents(stamp: string, today: CalendarDate, schedule: seq<Task>)
    requires ValidDate(today) && ValidSchedule(schedule) && |schedule| == 2 && !schedule[1].isUserTask
    ensures var d := DocumentLines(stamp, today, schedule);
      |d| == 28 && d[7] == "BEGIN:VEVENT" && d[17] == "BEGIN:VEVENT"
      && d[23] == "DESCRIPTION:" + Description(schedule[1])
      && Description(schedule[1]) == "Task Type: Calendar Event"
  {
    BeginAt(stamp, today, schedule, 0);
    BeginAt(stamp, today, schedule, 1);
    DescriptionAt(stamp, today, schedule, 1);
  }
}
