/**
  `generateICS`: the iCalendar (RFC 5545) text of a day's schedule. A
  fixed header of seven content lines, ten lines per schedule item in
  list order, one footer line; every line is terminated by CRLF and none
  is folded.
 */
module Calendar {
  import opened Strings
  import opened Tasks
  import opened TimeCodec
  import opened Escaping

  /** The seven calendar properties written before the first event. */
  const Header: seq<string> := [
    "BEGIN:VCALENDAR",
    "VERSION:2.0",
    "PRODID:-//Daily Focus Planner//EN",
    "CALSCALE:GREGORIAN",
    "METHOD:PUBLISH",
    "X-WR-CALNAME:Daily Focus Schedule",
    "X-WR-TIMEZONE:UTC"]

  const Footer: string := "END:VCALENDAR"

  const UidDomain: string := "@dailyfocusplanner.com"

  /** An item whose start and end times `parseTime` accepts. */
  predicate ValidItem(item: Task) {
    IsTimeText(item.startTime) && IsTimeText(item.endTime)
  }

  predicate ValidSchedule(schedule: seq<Task>) {
    forall k :: 0 <= k < |schedule| ==> ValidItem(schedule[k])
  }

  /** The UID of the event at position `index`: timestamp, dash, index, fixed domain. */
  function Uid(stamp: string, index: nat): string {
    stamp + "-" + NatToString(index) + UidDomain
  }

  /** The DESCRIPTION value; the category is written as it is, not escaped. */
  function Description(item: Task): string {
    if item.isUserTask then "Eisenhower Category: " + item.eisenhowerCategory + "\\nTask Type: User Task"
    else "Task Type: Calendar Event"
  }

  /** The ten content lines of one VEVENT, from the values the `forEach` body computes. */
  function VEvent(uid: string, stamp: string, startTime: string, endTime: string,
                  summary: string, description: string): (r: seq<string>)
    ensures |r| == 10
  {
    ["BEGIN:VEVENT",
     "UID:" + uid,
     "DTSTAMP:" + stamp,
     "DTSTART:" + startTime,
     "DTEND:" + endTime,
     "SUMMARY:" + summary,
     "DESCRIPTION:" + description,
     "STATUS:CONFIRMED",
     "SEQUENCE:0",
     "END:VEVENT"]
  }

  /** The event written for the item at position `index`. */
  function EventOf(stamp: string, today: CalendarDate, index: nat, item: Task): (r: seq<string>)
    requires ValidDate(today) && ValidItem(item)
    ensures |r| == 10
  {
    VEvent(Uid(stamp, index), stamp, FormatICSDate(today, item.startTime), FormatICSDate(today, item.endTime),
           EscapeText(item.description), Description(item))
  }

  /** One block of lines per item, numbered by its position in the list. */
  function Blocks(stamp: string, today: CalendarDate, items: seq<Task>): (r: seq<seq<string>>)
    requires ValidDate(today) && ValidSchedule(items)
    ensures |r| == |items|
  {
    seq(|items|, k requires 0 <= k < |items| => EventOf(stamp, today, k, items[k]))
  }

  /** Blocks of lines written one after the other. */
  function Flatten(blocks: seq<seq<string>>): seq<string>
    decreases |blocks|
  {
    if |blocks| == 0 then [] else Flatten(blocks[..|blocks| - 1]) + blocks[|blocks| - 1]
  }

  /** Every block has `width` lines. */
  predicate Uniform(blocks: seq<seq<string>>, width: nat) {
    forall k :: 0 <= k < |blocks| ==> |blocks[k]| == width
  }

  lemma {:induction false} FlattenLength(blocks: seq<seq<string>>, width: nat)
    requires Uniform(blocks, width)
    ensures |Flatten(blocks)| == width * |blocks|
    decreases |blocks|
  {
    if |blocks| > 0 {
      var n := |blocks| - 1;
      assert Uniform(blocks[..n], width) by {
        assert forall k :: 0 <= k < n ==> blocks[..n][k] == blocks[k];
      }
      FlattenLength(blocks[..n], width);
    }
  }

  lemma FlattenSnoc(blocks: seq<seq<string>>, i: nat)
    requires i < |blocks|
    ensures Flatten(blocks[..i + 1]) == Flatten(blocks[..i]) + blocks[i]
  {
    assert blocks[..i + 1][..i] == blocks[..i];
  }

  lemma BlocksUniform(stamp: string, today: CalendarDate, items: seq<Task>)
    requires ValidDate(today) && ValidSchedule(items)
    ensures Uniform(Blocks(stamp, today, items), 10)
  {
  }

  /** The events of the `forEach`, in list order. */
  function Events(stamp: string, today: CalendarDate, items: seq<Task>): (r: seq<string>)
    requires ValidDate(today) && ValidSchedule(items)
    ensures |r| == 10 * |items|
  {
    BlocksUniform(stamp, today, items);
    FlattenLength(Blocks(stamp, today, items), 10);
    Flatten(Blocks(stamp, today, items))
  }

  /** All content lines of the calendar, in order. */
  function DocumentLines(stamp: string, today: CalendarDate, schedule: seq<Task>): (r: seq<string>)
    requires ValidDate(today) && ValidSchedule(schedule)
    ensures |r| == 8 + 10 * |schedule|
  {
    Header + Events(stamp, today, schedule) + [Footer]
  }

  /** Lines written one after the other, each followed by CRLF. */
  function JoinLines(lines: seq<string>): string
    decreases |lines|
  {
    if |lines| == 0 then ""
    else JoinLines(lines[..|lines| - 1]) + (lines[|lines| - 1] + "\r\n")
  }

  /** The text `generateICS` returns, given today's date and `now.toISOString()`. */
  function Document(today: CalendarDate, iso: string, schedule: seq<Task>): string
    requires ValidDate(today) && ValidSchedule(schedule)
  {
    JoinLines(DocumentLines(Timestamp(iso), today, schedule))
  }

  lemma JoinSnoc(lines: seq<string>, line: string)
    ensures JoinLines(lines + [line]) == JoinLines(lines) + (line + "\r\n")
  {
    assert (lines + [line])[..|lines|] == lines;
  }

  /** Seven lines appended one at a time to an empty text. */
  lemma JoinSeven(l0: string, l1: string, l2: string, l3: string, l4: string, l5: string, l6: string)
    ensures JoinLines([l0, l1, l2, l3, l4, l5, l6])
         == (l0 + "\r\n") + (l1 + "\r\n") + (l2 + "\r\n") + (l3 + "\r\n")
          + (l4 + "\r\n") + (l5 + "\r\n") + (l6 + "\r\n")
  {
    var empty: seq<string> := [];
    JoinSnoc(empty, l0);
    JoinSnoc([l0], l1);
    JoinSnoc([l0, l1], l2);
    JoinSnoc([l0, l1, l2], l3);
    JoinSnoc([l0, l1, l2, l3], l4);
    JoinSnoc([l0, l1, l2, l3, l4], l5);
    JoinSnoc([l0, l1, l2, l3, l4, l5], l6);
    assert empty + [l0] == [l0];
    assert "" + (l0 + "\r\n") == l0 + "\r\n";
    assert [l0] + [l1] == [l0, l1];
    assert [l0, l1] + [l2] == [l0, l1, l2];
    assert [l0, l1, l2] + [l3] == [l0, l1, l2, l3];
    assert [l0, l1, l2, l3] + [l4] == [l0, l1, l2, l3, l4];
    assert [l0, l1, l2, l3, l4] + [l5] == [l0, l1, l2, l3, l4, l5];
    assert [l0, l1, l2, l3, l4, l5] + [l6] == [l0, l1, l2, l3, l4, l5, l6];
  }

  /** The header lines, written out as the seven appends write them. */
  lemma HeaderText()
    ensures JoinLines(Header)
         == "BEGIN:VCALENDAR\r\n" + "VERSION:2.0\r\n" + "PRODID:-//Daily Focus Planner//EN\r\n"
          + "CALSCALE:GREGORIAN\r\n" + "METHOD:PUBLISH\r\n" + "X-WR-CALNAME:Daily Focus Schedule\r\n"
          + "X-WR-TIMEZONE:UTC\r\n"
  {
    JoinSeven(Header[0], Header[1], Header[2], Header[3], Header[4], Header[5], Header[6]);
    assert Header == [Header[0], Header[1], Header[2], Header[3], Header[4], Header[5], Header[6]];
  }

  /** Five lines appended one at a time. */
  lemma JoinFive(before: seq<string>, l0: string, l1: string, l2: string, l3: string, l4: string)
    ensures JoinLines(before + [l0, l1, l2, l3, l4])
         == JoinLines(before) + (l0 + "\r\n") + (l1 + "\r\n") + (l2 + "\r\n") + (l3 + "\r\n") + (l4 + "\r\n")
  {
    JoinSnoc(before, l0);
    JoinSnoc(before + [l0], l1);
    JoinSnoc(before + [l0, l1], l2);
    JoinSnoc(before + [l0, l1, l2], l3);
    JoinSnoc(before + [l0, l1, l2, l3], l4);
    assert before + [l0] + [l1] == before + [l0, l1];
    assert before + [l0, l1] + [l2] == before + [l0, l1, l2];
    assert before + [l0, l1, l2] + [l3] == before + [l0, l1, l2, l3];
    assert before + [l0, l1, l2, l3] + [l4] == before + [l0, l1, l2, l3, l4];
  }

  /** Ten lines appended one at a time. */
  lemma JoinTen(before: seq<string>, l0: string, l1: string, l2: string, l3: string, l4: string,
                l5: string, l6: string, l7: string, l8: string, l9: string)
    ensures JoinLines(before + [l0, l1, l2, l3, l4, l5, l6, l7, l8, l9])
         == JoinLines(before) + (l0 + "\r\n") + (l1 + "\r\n") + (l2 + "\r\n") + (l3 + "\r\n")
          + (l4 + "\r\n") + (l5 + "\r\n") + (l6 + "\r\n") + (l7 + "\r\n") + (l8 + "\r\n") + (l9 + "\r\n")
  {
    var half := before + [l0, l1, l2, l3, l4];
    JoinFive(before, l0, l1, l2, l3, l4);
    JoinFive(half, l5, l6, l7, l8, l9);
    assert half + [l5, l6, l7, l8, l9] == before + [l0, l1, l2, l3, l4, l5, l6, l7, l8, l9];
  }

  lemma FixedEventLines()
    ensures "BEGIN:VEVENT" + "\r\n" == "BEGIN:VEVENT\r\n"
    ensures "STATUS:CONFIRMED" + "\r\n" == "STATUS:CONFIRMED\r\n"
    ensures "SEQUENCE:0" + "\r\n" == "SEQUENCE:0\r\n"
    ensures "END:VEVENT" + "\r\n" == "END:VEVENT\r\n"
  {
  }

  /** The ten appends of one `forEach` step extend the text by the event's lines. */
  lemma EventText(before: seq<string>, uid: string, stamp: string, startTime: string, endTime: string,
                  summary: string, description: string)
    ensures JoinLines(before + VEvent(uid, stamp, startTime, endTime, summary, description))
         == JoinLines(before) + "BEGIN:VEVENT\r\n"
          + ("UID:" + uid + "\r\n")
          + ("DTSTAMP:" + stamp + "\r\n")
          + ("DTSTART:" + startTime + "\r\n")
          + ("DTEND:" + endTime + "\r\n")
          + ("SUMMARY:" + summary + "\r\n")
          + ("DESCRIPTION:" + description + "\r\n")
          + "STATUS:CONFIRMED\r\n" + "SEQUENCE:0\r\n" + "END:VEVENT\r\n"
  {
    JoinTen(before, "BEGIN:VEVENT", "UID:" + uid, "DTSTAMP:" + stamp, "DTSTART:" + startTime,
      "DTEND:" + endTime, "SUMMARY:" + summary, "DESCRIPTION:" + description,
      "STATUS:CONFIRMED", "SEQUENCE:0", "END:VEVENT");
    FixedEventLines();
  }

  /** One more item of the list adds its ten lines at the end. */
  lemma EventsStep(front: seq<string>, blocks: seq<seq<string>>, index: nat)
    requires index < |blocks|
    ensures front + Flatten(blocks[..index + 1]) == front + Flatten(blocks[..index]) + blocks[index]
  {
    FlattenSnoc(blocks, index);
    LinesAssoc(front, Flatten(blocks[..index]), blocks[index]);
  }

  lemma LinesAssoc(a: seq<string>, b: seq<string>, c: seq<string>)
    ensures a + (b + c) == a + b + c
  {
  }

  lemma FooterLine()
    ensures Footer + "\r\n" == "END:VCALENDAR\r\n"
  {
  }

  lemma NoEventsYet(front: seq<string>, blocks: seq<seq<string>>)
    ensures front + Flatten(blocks[..0]) == front
  {
    assert blocks[..0] == [];
  }

  /** The footer line closes the document. */
  lemma DocumentText(today: CalendarDate, iso: string, schedule: seq<Task>, body: string)
    requires ValidDate(today) && ValidSchedule(schedule)
    requires body == JoinLines(Header + Flatten(Blocks(Timestamp(iso), today, schedule)[..|schedule|]))
    ensures body + "END:VCALENDAR\r\n" == Document(today, iso, schedule)
  {
    var stamp := Timestamp(iso);
    var blocks := Blocks(stamp, today, schedule);
    assert blocks[..|schedule|] == blocks;
    JoinSnoc(Header + Events(stamp, today, schedule), Footer);
    FooterLine();
  }

  /** The seven header appends that open the text. */
  method Preamble() returns (icsContent: string)
    ensures icsContent == JoinLines(Header)
  {
    icsContent := "BEGIN:VCALENDAR\r\n";
    icsContent := icsContent + "VERSION:2.0\r\n";
    icsContent := icsContent + "PRODID:-//Daily Focus Planner//EN\r\n";
    icsContent := icsContent + "CALSCALE:GREGORIAN\r\n";
    icsContent := icsContent + "METHOD:PUBLISH\r\n";
    icsContent := icsContent + "X-WR-CALNAME:Daily Focus Schedule\r\n";
    icsContent := icsContent + "X-WR-TIMEZONE:UTC\r\n";
    HeaderText();
  }

  /**
    The `forEach` callback: the values of one event, then its ten lines
    appended to the text so far.
   */
  method WriteEvent(icsContent: string, ghost lines: seq<string>, timestamp: string, today: CalendarDate,
                    index: nat, item: Task) returns (text: string)
    requires ValidDate(today) && ValidItem(item)
    requires icsContent == JoinLines(lines)
    ensures text == JoinLines(lines + EventOf(timestamp, today, index, item))
  {
    var uid := Uid(timestamp, index);
    var summary := EscapeText(item.description);
    var description := Description(item);
    var startTime := FormatICSDate(today, item.startTime);
    var endTime := FormatICSDate(today, item.endTime);

    text := icsContent + "BEGIN:VEVENT\r\n";
    text := text + ("UID:" + uid + "\r\n");
    text := text + ("DTSTAMP:" + timestamp + "\r\n");
    text := text + ("DTSTART:" + startTime + "\r\n");
    text := text + ("DTEND:" + endTime + "\r\n");
    text := text + ("SUMMARY:" + summary + "\r\n");
    text := text + ("DESCRIPTION:" + description + "\r\n");
    text := text + "STATUS:CONFIRMED\r\n";
    text := text + "SEQUENCE:0\r\n";
    text := text + "END:VEVENT\r\n";
    EventText(lines, uid, timestamp, startTime, endTime, summary, description);
  }

  /** `generateICS`: the header, one event per item in list order, the footer. */
  method GenerateICS(schedule: seq<Task>, today: CalendarDate, iso: string) returns (icsContent: string)
    requires ValidDate(today) && ValidSchedule(schedule)
    ensures icsContent == Document(today, iso, schedule)
  {
    var timestamp := Timestamp(iso);
    icsContent := Preamble();
    ghost var blocks := Blocks(timestamp, today, schedule);
    NoEventsYet(Header, blocks);

    for index := 0 to |schedule|
      invariant icsContent == JoinLines(Header + Flatten(blocks[..index]))
    {
      icsContent := WriteEvent(icsContent, Header + Flatten(blocks[..index]), timestamp, today, index, schedule[index]);
      EventsStep(Header, blocks, index);
    }

    ghost var body := icsContent;
    icsContent := icsContent + "END:VCALENDAR\r\n";
    DocumentText(today, iso, schedule, body);
  }
}
