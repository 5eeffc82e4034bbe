/**
  What the text `generateICS` returns looks like: where each event's
  lines sit, what the UID, DTSTAMP, DTSTART, SUMMARY and DESCRIPTION
  values contain, and when a reader that splits the text at line breaks
  (section 3.1 of RFC 5545) gets the intended content lines back.
 */
module CalendarShape {
  import opened Strings
  import opened Tasks
  import opened TimeCodec
  import opened Escaping
  import opened Calendar

  /** Block `k` of ten-line blocks starts at line 10k. */
  lemma {:induction false} FlattenAt(blocks: seq<seq<string>>, k: nat)
    requires Uniform(blocks, 10) && k < |blocks|
    ensures |Flatten(blocks)| == 10 * |blocks|
    ensures Flatten(blocks)[10 * k..10 * k + 10] == blocks[k]
    decreases |blocks|
  {
    var n := |blocks| - 1;
    var front := Flatten(blocks[..n]);
    assert Uniform(blocks[..n], 10) by {
      assert forall i :: 0 <= i < n ==> blocks[..n][i] == blocks[i];
    }
    FlattenLength(blocks[..n], 10);
    FlattenLength(blocks, 10);
    assert Flatten(blocks) == front + blocks[n];
    if k < n {
      FlattenAt(blocks[..n], k);
      assert blocks[..n][k] == blocks[k];
      assert (front + blocks[n])[10 * k..10 * k + 10] == front[10 * k..10 * k + 10];
    } else {
      assert (front + blocks[n])[10 * k..10 * k + 10] == blocks[n];
    }
  }

  /** Line `j` of block `k`, between a header and a footer. */
  lemma FramedAt(header: seq<string>, blocks: seq<seq<string>>, footer: string, k: nat, j: nat)
    requires Uniform(blocks, 10) && k < |blocks| && j < 10
    ensures |header + Flatten(blocks) + [footer]| == |header| + 10 * |blocks| + 1
    ensures (header + Flatten(blocks) + [footer])[|header| + 10 * k + j] == blocks[k][j]
  {
    FlattenAt(blocks, k);
    var f := Flatten(blocks);
    assert f[10 * k..10 * k + 10][j] == f[10 * k + j];
  }

  lemma Framed(header: seq<string>, body: seq<string>, footer: string)
    ensures var d := header + body + [footer];
      d[..|header|] == header && d[|d| - 1] == footer && d[|header|..|d| - 1] == body
  {
  }

  lemma HeaderLength()
    ensures |Header| == 7 && Header[6] == "X-WR-TIMEZONE:UTC"
  {
  }

  /**
    The document: the seven header lines, then ten lines per item in list
    order, then END:VCALENDAR.
   */
  lemma DocumentShape(stamp: string, today: CalendarDate, schedule: seq<Task>)
    requires ValidDate(today) && ValidSchedule(schedule)
    ensures var d := DocumentLines(stamp, today, schedule);
      d[..7] == Header && d[|d| - 1] == Footer && d[7..|d| - 1] == Events(stamp, today, schedule)
  {
    HeaderLength();
    Framed(Header, Events(stamp, today, schedule), Footer);
  }

  /** An empty schedule gives the header and the footer only. */
  lemma EmptySchedule(stamp: string, today: CalendarDate)
    requires ValidDate(today)
    ensures DocumentLines(stamp, today, []) == Header + [Footer]
  {
    assert Blocks(stamp, today, []) == [];
  }

  /** Line `j` of event `k` sits at 7 + 10k + j. */
  lemma EventLine(stamp: string, today: CalendarDate, schedule: seq<Task>, k: nat, j: nat)
    requires ValidDate(today) && ValidSchedule(schedule) && k < |schedule| && j < 10
    ensures DocumentLines(stamp, today, schedule)[7 + 10 * k + j] == EventOf(stamp, today, k, schedule[k])[j]
  {
    var blocks := Blocks(stamp, today, schedule);
    BlocksUniform(stamp, today, schedule);
    HeaderLength();
    FramedAt(Header, blocks, Footer, k, j);
  }

  /** Two events never share a UID: the UID line determines the event's position. */
  lemma UidIdentifies(stamp: string, today: CalendarDate, schedule: seq<Task>, j: nat, k: nat)
    requires ValidDate(today) && ValidSchedule(schedule) && j < |schedule| && k < |schedule|
    requires DocumentLines(stamp, today, schedule)[8 + 10 * j] == DocumentLines(stamp, today, schedule)[8 + 10 * k]
    ensures j == k
  {
    UidAt(stamp, today, schedule, j);
    UidAt(stamp, today, schedule, k);
    PrefixCancel("UID:", Uid(stamp, j), Uid(stamp, k));
    UidInjective(stamp, j, k);
  }

  lemma UidLine(stamp: string, today: CalendarDate, index: nat, item: Task)
    requires ValidDate(today) && ValidItem(item)
    ensures EventOf(stamp, today, index, item)[1] == "UID:" + Uid(stamp, index)
  {
    EventValues(stamp, today, index, item);
    VEventLines(Uid(stamp, index), stamp, FormatICSDate(today, item.startTime),
                FormatICSDate(today, item.endTime), EscapeText(item.description), Description(item));
  }

  /** The DESCRIPTION line of an item's event. */
  lemma DescriptionLine(stamp: string, today: CalendarDate, index: nat, item: Task)
    requires ValidDate(today) && ValidItem(item)
    ensures EventOf(stamp, today, index, item)[6] == "DESCRIPTION:" + Description(item)
  {
    EventValues(stamp, today, index, item);
    VEventLines(Uid(stamp, index), stamp, FormatICSDate(today, item.startTime),
                FormatICSDate(today, item.endTime), EscapeText(item.description), Description(item));
  }

  /** The first line of an item's event. */
  lemma BeginLine(stamp: string, today: CalendarDate, index: nat, item: Task)
    requires ValidDate(today) && ValidItem(item)
    ensures EventOf(stamp, today, index, item)[0] == "BEGIN:VEVENT"
  {
    EventValues(stamp, today, index, item);
    VEventLines(Uid(stamp, index), stamp, FormatICSDate(today, item.startTime),
                FormatICSDate(today, item.endTime), EscapeText(item.description), Description(item));
  }

  /** The first line of event `k`. */
  lemma BeginAt(stamp: string, today: CalendarDate, schedule: seq<Task>, k: nat)
    requires ValidDate(today) && ValidSchedule(schedule) && k < |schedule|
    ensures DocumentLines(stamp, today, schedule)[7 + 10 * k] == "BEGIN:VEVENT"
  {
    EventLine(stamp, today, schedule, k, 0);
    BeginLine(stamp, today, k, schedule[k]);
  }

  /** The DESCRIPTION line of event `k`. */
  lemma DescriptionAt(stamp: string, today: CalendarDate, schedule: seq<Task>, k: nat)
    requires ValidDate(today) && ValidSchedule(schedule) && k < |schedule|
    ensures DocumentLines(stamp, today, schedule)[13 + 10 * k] == "DESCRIPTION:" + Description(schedule[k])
  {
    EventLine(stamp, today, schedule, k, 6);
    DescriptionLine(stamp, today, k, schedule[k]);
  }

  /** The fixed STATUS and SEQUENCE lines of an item's event. */
  lemma StatusLines(stamp: string, today: CalendarDate, index: nat, item: Task)
    requires ValidDate(today) && ValidItem(item)
    ensures EventOf(stamp, today, index, item)[7] == "STATUS:CONFIRMED"
    ensures EventOf(stamp, today, index, item)[8] == "SEQUENCE:0"
  {
    EventValues(stamp, today, index, item);
    VEventLines(Uid(stamp, index), stamp, FormatICSDate(today, item.startTime),
                FormatICSDate(today, item.endTime), EscapeText(item.description), Description(item));
  }

  /** Every event is confirmed and at sequence 0, whatever its item holds. */
  lemma StatusAt(stamp: string, today: CalendarDate, schedule: seq<Task>, k: nat)
    requires ValidDate(today) && ValidSchedule(schedule) && k < |schedule|
    ensures DocumentLines(stamp, today, schedule)[14 + 10 * k] == "STATUS:CONFIRMED"
    ensures DocumentLines(stamp, today, schedule)[15 + 10 * k] == "SEQUENCE:0"
  {
    EventLine(stamp, today, schedule, k, 7);
    EventLine(stamp, today, schedule, k, 8);
    StatusLines(stamp, today, k, schedule[k]);
  }

  /** The UID line of event `k`. */
  lemma UidAt(stamp: string, today: CalendarDate, schedule: seq<Task>, k: nat)
    requires ValidDate(today) && ValidSchedule(schedule) && k < |schedule|
    ensures DocumentLines(stamp, today, schedule)[8 + 10 * k] == "UID:" + Uid(stamp, k)
  {
    EventLine(stamp, today, schedule, k, 1);
    UidLine(stamp, today, k, schedule[k]);
  }

  lemma PrefixCancel(p: string, a: string, b: string)
    requires p + a == p + b
    ensures a == b
  {
    assert (p + a)[|p|..] == a;
    assert (p + b)[|p|..] == b;
  }

  /** The index printed in a UID can be read back from it. */
  lemma UidInjective(stamp: string, i: nat, j: nat)
    requires Uid(stamp, i) == Uid(stamp, j)
    ensures i == j
  {
    var u := Uid(stamp, i);
    var p := stamp + "-";
    var ni := NatToString(i);
    var nj := NatToString(j);
    assert u == p + ni + UidDomain;
    assert u == p + nj + UidDomain;
    assert |ni| == |nj|;
    assert (p + ni + UidDomain)[|p|..|p| + |ni|] == ni;
    assert (p + nj + UidDomain)[|p|..|p| + |nj|] == nj;
    NatToStringInjective(i, j);
  }

  /** The ten lines of an event, one by one. */
  lemma VEventLines(uid: string, stamp: string, startTime: string, endTime: string,
                    summary: string, description: string)
    ensures var e := VEvent(uid, stamp, startTime, endTime, summary, description);
      e[0] == "BEGIN:VEVENT" && e[1] == "UID:" + uid && e[2] == "DTSTAMP:" + stamp
      && e[3] == "DTSTART:" + startTime && e[4] == "DTEND:" + endTime
      && e[5] == "SUMMARY:" + summary && e[6] == "DESCRIPTION:" + description
      && e[7] == "STATUS:CONFIRMED" && e[8] == "SEQUENCE:0" && e[9] == "END:VEVENT"
  {
  }

  /** The values an item's event is built from. */
  lemma EventValues(stamp: string, today: CalendarDate, index: nat, item: Task)
    requires ValidDate(today) && ValidItem(item)
    ensures EventOf(stamp, today, index, item)
         == VEvent(Uid(stamp, index), stamp, FormatICSDate(today, item.startTime),
                   FormatICSDate(today, item.endTime), EscapeText(item.description), Description(item))
  {
  }

  /**
    Every event carries the same DTSTAMP, the creation time in UTC ending
    in 'Z', while DTSTART and DTEND are floating local times without 'Z'
    although the header declares X-WR-TIMEZONE:UTC.
   */
  lemma FloatingTimes(today: CalendarDate, iso: string, schedule: seq<Task>, k: nat)
    requires ValidDate(today) && ValidSchedule(schedule) && k < |schedule|
    ensures var d := DocumentLines(Timestamp(iso), today, schedule);
      var start := FormatICSDate(today, schedule[k].startTime);
      var end := FormatICSDate(today, schedule[k].endTime);
      d[6] == "X-WR-TIMEZONE:UTC"
      && d[9 + 10 * k] == "DTSTAMP:" + Timestamp(iso)
      && d[10 + 10 * k] == "DTSTART:" + start && 'Z' !in start
      && d[11 + 10 * k] == "DTEND:" + end && 'Z' !in end
  {
    TimeZoneLine(Timestamp(iso), today, schedule);
    TimesAt(Timestamp(iso), today, schedule, k);
    Floating(today, schedule[k].startTime);
    Floating(today, schedule[k].endTime);
  }

  lemma TimeZoneLine(stamp: string, today: CalendarDate, schedule: seq<Task>)
    requires ValidDate(today) && ValidSchedule(schedule)
    ensures DocumentLines(stamp, today, schedule)[6] == "X-WR-TIMEZONE:UTC"
  {
    var d := DocumentLines(stamp, today, schedule);
    DocumentShape(stamp, today, schedule);
    assert d[..7][6] == d[6];
  }

  /** A DATE-TIME text carries no 'Z': it is a floating local time. */
  lemma Floating(today: CalendarDate, s: string)
    requires ValidDate(today) && IsTimeText(s)
    ensures 'Z' !in FormatICSDate(today, s)
  {
    FormatICSDateChars(today, s);
  }

  /** The DTSTAMP, DTSTART and DTEND lines of event `k`. */
  lemma TimesAt(stamp: string, today: CalendarDate, schedule: seq<Task>, k: nat)
    requires ValidDate(today) && ValidSchedule(schedule) && k < |schedule|
    ensures var d := DocumentLines(stamp, today, schedule);
      d[9 + 10 * k] == "DTSTAMP:" + stamp
      && d[10 + 10 * k] == "DTSTART:" + FormatICSDate(today, schedule[k].startTime)
      && d[11 + 10 * k] == "DTEND:" + FormatICSDate(today, schedule[k].endTime)
  {
    var item := schedule[k];
    EventLine(stamp, today, schedule, k, 2);
    EventLine(stamp, today, schedule, k, 3);
    EventLine(stamp, today, schedule, k, 4);
    EventValues(stamp, today, k, item);
    VEventLines(Uid(stamp, k), stamp, FormatICSDate(today, item.startTime), FormatICSDate(today, item.endTime),
                EscapeText(item.description), Description(item));
  }

  /** The SUMMARY value decodes, as section 3.3.11 of RFC 5545 reads TEXT, to the description. */
  lemma SummaryReadsBack(stamp: string, today: CalendarDate, index: nat, item: Task)
    requires ValidDate(today) && ValidItem(item)
    ensures var v := EscapeText(item.description);
      EventOf(stamp, today, index, item)[5] == "SUMMARY:" + v
      && Unescape(v) == item.description && '\n' !in v
  {
    var v := EscapeText(item.description);
    EventValues(stamp, today, index, item);
    VEventLines(Uid(stamp, index), stamp, FormatICSDate(today, item.startTime),
                FormatICSDate(today, item.endTime), v, Description(item));
    UnescapeEscape(item.description);
    EscapeTextShape(item.description);
  }

  /**
    The DESCRIPTION value: a user task's category verbatim between a fixed
    prefix and the suffix "\nTask Type: User Task" (backslash and 'n'), a
    calendar event's fixed text otherwise.
   */
  lemma DescriptionForms(item: Task)
    ensures var r := Description(item);
      (!item.isUserTask ==> r == "Task Type: Calendar Event")
      && (item.isUserTask ==>
            |r| == 43 + |item.eisenhowerCategory|
            && r[..21] == "Eisenhower Category: "
            && r[21..|r| - 22] == item.eisenhowerCategory
            && r[|r| - 22..] == "\\nTask Type: User Task")
  {
    if item.isUserTask {
      var c := item.eisenhowerCategory;
      DescriptionParts("Eisenhower Category: ", c, "\\nTask Type: User Task");
    }
  }

  lemma DescriptionParts(p: string, c: string, s: string)
    ensures (p + c + s)[..|p|] == p && (p + c + s)[|p|..|p| + |c|] == c && (p + c + s)[|p| + |c|..] == s
  {
  }

  /** No line of the list contains a line feed. */
  predicate NoLineFeeds(lines: seq<string>) {
    forall k :: 0 <= k < |lines| ==> '\n' !in lines[k]
  }

  /** The lines of `generateICS` as a reader splitting at each line feed sees them. */
  function Terminated(lines: seq<string>): (r: seq<string>)
    ensures |r| == |lines|
    decreases |lines|
  {
    if |lines| == 0 then [] else [lines[0] + "\r"] + Terminated(lines[1..])
  }

  /** A content line with the CR of its CRLF removed. */
  function StripCR(piece: string): (r: string)
    ensures |r| <= |piece| && forall i :: 0 <= i < |r| ==> r[i] == piece[i]
  {
    if |piece| > 0 && piece[|piece| - 1] == '\r' then piece[..|piece| - 1] else piece
  }

  function StripAll(pieces: seq<string>): (r: seq<string>)
    ensures |r| == |pieces|
    decreases |pieces|
  {
    if |pieces| == 0 then [] else [StripCR(pieces[0])] + StripAll(pieces[1..])
  }

  /**
    Reading a calendar text back into content lines: split at every line
    feed and drop the CR before it; text after the last line feed is a
    final line of its own.
   */
  function ReadLines(doc: string): seq<string> {
    var pieces := Split(doc, '\n');
    var last := pieces[|pieces| - 1];
    StripAll(pieces[..|pieces| - 1]) + (if last == "" then [] else [last])
  }

  lemma TextAssoc(a: string, b: string, c: string)
    ensures a + b + c == a + (b + c)
  {
  }

  /** The same lines written front to back. */
  lemma {:induction false} JoinCons(line: string, rest: seq<string>)
    ensures JoinLines([line] + rest) == line + "\r\n" + JoinLines(rest)
    decreases |rest|
  {
    if |rest| == 0 {
      assert [line] + rest == [line];
      assert [line][..0] == [];
    } else {
      var n := |rest| - 1;
      JoinCons(line, rest[..n]);
      assert ([line] + rest)[..n + 1] == [line] + rest[..n];
      assert ([line] + rest)[n + 1] == rest[n];
      TextAssoc(line + "\r\n", JoinLines(rest[..n]), rest[n] + "\r\n");
    }
  }

  lemma CrLf(line: string)
    ensures line + "\r\n" == line + "\r" + "\n"
  {
  }

  /** Splitting the text at line feeds gives each line with its CR, then an empty rest. */
  lemma {:induction false} SplitJoinLines(lines: seq<string>)
    requires NoLineFeeds(lines)
    ensures Split(JoinLines(lines), '\n') == Terminated(lines) + [""]
    decreases |lines|
  {
    if |lines| == 0 {
    } else {
      var rest := lines[1..];
      assert lines == [lines[0]] + rest;
      JoinCons(lines[0], rest);
      CrLf(lines[0]);
      assert NoLineFeeds(rest) by {
        assert forall k :: 0 <= k < |rest| ==> rest[k] == lines[k + 1];
      }
      SplitJoinLines(rest);
      SplitFirst(lines[0] + "\r", '\n', JoinLines(rest));
      var s := Split(JoinLines(lines), '\n');
      assert s == [s[0]] + s[1..];
      LinesAssoc([lines[0] + "\r"], Terminated(rest), [""]);
    }
  }

  lemma {:induction false} StripTerminated(lines: seq<string>)
    ensures StripAll(Terminated(lines)) == lines
    decreases |lines|
  {
    if |lines| > 0 {
      StripTerminated(lines[1..]);
      var t := Terminated(lines);
      assert t[1..] == Terminated(lines[1..]);
      assert (lines[0] + "\r")[..|lines[0]|] == lines[0];
      assert lines == [lines[0]] + lines[1..];
    }
  }

  lemma {:induction false} StripAllNoLineFeeds(pieces: seq<string>)
    requires NoLineFeeds(pieces)
    ensures NoLineFeeds(StripAll(pieces))
    decreases |pieces|
  {
    if |pieces| > 0 {
      assert NoLineFeeds(pieces[1..]) by {
        assert forall k :: 0 <= k < |pieces| - 1 ==> pieces[1..][k] == pieces[k + 1];
      }
      StripAllNoLineFeeds(pieces[1..]);
      var r := StripAll(pieces);
      var c := StripCR(pieces[0]);
      assert '\n' !in c by {
        assert forall i :: 0 <= i < |c| ==> c[i] == pieces[0][i];
      }
      forall k | 0 <= k < |r|
        ensures '\n' !in r[k]
      {
        if k > 0 {
          assert r[k] == StripAll(pieces[1..])[k - 1];
        }
      }
    }
  }

  /** Whatever the text, the lines read back never contain a line feed. */
  lemma ReadLinesNoLineFeeds(doc: string)
    ensures NoLineFeeds(ReadLines(doc))
  {
    var pieces := Split(doc, '\n');
    var front := pieces[..|pieces| - 1];
    var last := pieces[|pieces| - 1];
    assert NoLineFeeds(front) by {
      assert forall k :: 0 <= k < |front| ==> front[k] == pieces[k];
    }
    StripAllNoLineFeeds(front);
  }

  /**
    A list of lines written with CRLF terminators reads back as the same
    list exactly when no line contains a line feed of its own.
   */
  lemma ReadJoinLines(lines: seq<string>)
    ensures ReadLines(JoinLines(lines)) == lines <==> NoLineFeeds(lines)
  {
    if NoLineFeeds(lines) {
      SplitJoinLines(lines);
      var pieces := Split(JoinLines(lines), '\n');
      assert pieces[..|pieces| - 1] == Terminated(lines);
      StripTerminated(lines);
    } else {
      ReadLinesNoLineFeeds(JoinLines(lines));
    }
  }

  /**
    The inputs that reach a content line unescaped: the timestamp (when
    there is an event to carry it) and the category of each user task.
   */
  predicate CleanInputs(stamp: string, schedule: seq<Task>) {
    (|schedule| > 0 ==> '\n' !in stamp)
    && forall k :: 0 <= k < |schedule| && schedule[k].isUserTask ==> '\n' !in schedule[k].eisenhowerCategory
  }

  lemma HeaderClean()
    ensures NoLineFeeds(Header) && '\n' !in Footer
  {
    FixedHeaderClean();
    ProductClean();
    CalendarNameClean();
    ZoneAndFooterClean();
    SevenClean(Header[0], Header[1], Header[2], Header[3], Header[4], Header[5], Header[6]);
    assert Header == [Header[0], Header[1], Header[2], Header[3], Header[4], Header[5], Header[6]];
  }

  lemma FixedHeaderClean()
    ensures '\n' !in "BEGIN:VCALENDAR" && '\n' !in "VERSION:2.0"
    ensures '\n' !in "CALSCALE:GREGORIAN" && '\n' !in "METHOD:PUBLISH"
  {
  }

  lemma ProductClean()
    ensures '\n' !in "PRODID:-//Daily Focus Planner//EN"
  {
  }

  lemma CalendarNameClean()
    ensures '\n' !in "X-WR-CALNAME:Daily Focus Schedule"
  {
  }

  lemma ZoneAndFooterClean()
    ensures '\n' !in "X-WR-TIMEZONE:UTC" && '\n' !in "END:VCALENDAR"
  {
  }

  lemma SevenClean(l0: string, l1: string, l2: string, l3: string, l4: string, l5: string, l6: string)
    requires '\n' !in l0 && '\n' !in l1 && '\n' !in l2 && '\n' !in l3
    requires '\n' !in l4 && '\n' !in l5 && '\n' !in l6
    ensures NoLineFeeds([l0, l1, l2, l3, l4, l5, l6])
  {
  }

  lemma EventLiteralsClean()
    ensures '\n' !in "BEGIN:VEVENT" && '\n' !in "STATUS:CONFIRMED"
    ensures '\n' !in "SEQUENCE:0" && '\n' !in "END:VEVENT"
    ensures '\n' !in "UID:" && '\n' !in "DTSTAMP:" && '\n' !in "DTSTART:" && '\n' !in "DTEND:"
    ensures '\n' !in "SUMMARY:" && '\n' !in "DESCRIPTION:"
  {
  }

  /** An event's lines are free of line feeds exactly when the six values are. */
  lemma VEventClean(uid: string, stamp: string, startTime: string, endTime: string,
                    summary: string, description: string)
    ensures NoLineFeeds(VEvent(uid, stamp, startTime, endTime, summary, description))
        <==> '\n' !in uid && '\n' !in stamp && '\n' !in startTime && '\n' !in endTime
             && '\n' !in summary && '\n' !in description
  {
    var e := VEvent(uid, stamp, startTime, endTime, summary, description);
    EventLiteralsClean();
    assert e[1] == "UID:" + uid && e[2] == "DTSTAMP:" + stamp;
    assert e[3] == "DTSTART:" + startTime && e[4] == "DTEND:" + endTime;
    assert e[5] == "SUMMARY:" + summary && e[6] == "DESCRIPTION:" + description;
  }

  lemma UidClean(stamp: string, index: nat)
    ensures '\n' in Uid(stamp, index) <==> '\n' in stamp
  {
    assert '\n' !in UidDomain && '\n' !in "-";
    assert '\n' !in NatToString(index);
  }

  lemma DescriptionClean(item: Task)
    ensures '\n' in Description(item) <==> item.isUserTask && '\n' in item.eisenhowerCategory
  {
    assert '\n' !in "Task Type: Calendar Event";
    assert '\n' !in "Eisenhower Category: " && '\n' !in "\\nTask Type: User Task";
  }

  /** A DATE-TIME text has no line feed. */
  lemma TimeClean(today: CalendarDate, s: string)
    requires ValidDate(today) && IsTimeText(s)
    ensures '\n' !in FormatICSDate(today, s)
  {
    FormatICSDateChars(today, s);
  }

  /** The ten lines of an event are free of line feeds exactly when the timestamp and the category are. */
  lemma EventClean(stamp: string, today: CalendarDate, index: nat, item: Task)
    requires ValidDate(today) && ValidItem(item)
    ensures NoLineFeeds(EventOf(stamp, today, index, item))
        <==> '\n' !in stamp && (item.isUserTask ==> '\n' !in item.eisenhowerCategory)
  {
    EventValues(stamp, today, index, item);
    TimeClean(today, item.startTime);
    TimeClean(today, item.endTime);
    VEventClean(Uid(stamp, index), stamp, FormatICSDate(today, item.startTime),
                FormatICSDate(today, item.endTime), EscapeText(item.description), Description(item));
    UidClean(stamp, index);
    DescriptionClean(item);
    EscapeTextShape(item.description);
  }

  lemma NoLineFeedsAppend(a: seq<string>, b: seq<string>)
    ensures NoLineFeeds(a + b) <==> NoLineFeeds(a) && NoLineFeeds(b)
  {
    if NoLineFeeds(a) && NoLineFeeds(b) {
      forall k | 0 <= k < |a + b|
        ensures '\n' !in (a + b)[k]
      {
        if k >= |a| {
          assert (a + b)[k] == b[k - |a|];
        }
      }
    }
    if NoLineFeeds(a + b) {
      forall k | 0 <= k < |a|
        ensures '\n' !in a[k]
      {
        assert (a + b)[k] == a[k];
      }
      forall k | 0 <= k < |b|
        ensures '\n' !in b[k]
      {
        assert (a + b)[|a| + k] == b[k];
      }
    }
  }

  /** Concatenated blocks are free of line feeds exactly when every block is. */
  lemma {:induction false} FlattenClean(blocks: seq<seq<string>>)
    ensures NoLineFeeds(Flatten(blocks)) <==> forall k :: 0 <= k < |blocks| ==> NoLineFeeds(blocks[k])
    decreases |blocks|
  {
    if |blocks| > 0 {
      var n := |blocks| - 1;
      FlattenClean(blocks[..n]);
      NoLineFeedsAppend(Flatten(blocks[..n]), blocks[n]);
      assert forall k :: 0 <= k < n ==> blocks[..n][k] == blocks[k];
    }
  }

  /** Every event is free of line feeds exactly when the unescaped inputs are. */
  lemma BlocksClean(stamp: string, today: CalendarDate, schedule: seq<Task>)
    requires ValidDate(today) && ValidSchedule(schedule)
    ensures var blocks := Blocks(stamp, today, schedule);
      (forall k :: 0 <= k < |blocks| ==> NoLineFeeds(blocks[k])) <==> CleanInputs(stamp, schedule)
  {
    var blocks := Blocks(stamp, today, schedule);
    forall k | 0 <= k < |blocks|
      ensures NoLineFeeds(blocks[k])
          <==> '\n' !in stamp && (schedule[k].isUserTask ==> '\n' !in schedule[k].eisenhowerCategory)
    {
      EventClean(stamp, today, k, schedule[k]);
    }
    if |blocks| > 0 && forall k :: 0 <= k < |blocks| ==> NoLineFeeds(blocks[k]) {
      assert NoLineFeeds(blocks[0]);
    }
  }

  /** The document's lines are free of line feeds exactly when its unescaped inputs are. */
  lemma DocumentClean(stamp: string, today: CalendarDate, schedule: seq<Task>)
    requires ValidDate(today) && ValidSchedule(schedule)
    ensures NoLineFeeds(DocumentLines(stamp, today, schedule)) <==> CleanInputs(stamp, schedule)
  {
    var blocks := Blocks(stamp, today, schedule);
    var events := Events(stamp, today, schedule);
    assert events == Flatten(blocks);
    HeaderClean();
    NoLineFeedsAppend(Header + events, [Footer]);
    NoLineFeedsAppend(Header, events);
    FlattenClean(blocks);
    BlocksClean(stamp, today, schedule);
  }

  /**
    A reader splitting the export at line breaks recovers exactly the
    lines `generateICS` wrote, unless the timestamp or a user task's
    category holds a line feed: those are not escaped and cut a line in two.
   */
  lemma DocumentReadsBack(today: CalendarDate, iso: string, schedule: seq<Task>)
    requires ValidDate(today) && ValidSchedule(schedule)
    ensures ReadLines(Document(today, iso, schedule)) == DocumentLines(Timestamp(iso), today, schedule)
        <==> CleanInputs(Timestamp(iso), schedule)
  {
    ReadJoinLines(DocumentLines(Timestamp(iso), today, schedule));
    DocumentClean(Timestamp(iso), today, schedule);
  }

  /** A timestamp taken from an ISO text without line feeds has none either. */
  lemma TimestampClean(iso: string)
    requires '\n' !in iso
    ensures '\n' !in Timestamp(iso)
  {
    var r := Timestamp(iso);
    assert forall i :: 0 <= i < |r| - 1 ==> r[i] in iso;
  }
}
