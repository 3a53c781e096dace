/**
 * The row-handling half of subject_courses_spider.py: reading one meeting row
 * (build_item_from_meeting), cutting a page's rows into course blocks
 * (split_before in course_meeting_items), turning a block into a course item
 * (build_item_from_group), counting pages (get_num_pages) and the two page
 * callbacks (parse, parse_extra_page).
 *
 * A Python generator that raises part-way has already handed out what it
 * yielded; `Yielded` records those values and the exception that ended it.
 */
module Spider {
  import opened Wrappers
  import opened Text
  import opened Errors
  import opened Patterns
  import opened Parsers
  import opened Items
  import opened Rows

  /** The cell counts of a complete row, and the positions of the cells the spider reads. */
  const SectxtValidCells: nat := 12
  const NonenrtxtValidCells: nat := 10
  const SecIdCell: nat := 1
  const MeetingTypeCell: nat := 2
  const SecNumOrDateCell: nat := 3
  const DaysCell: nat := 4
  const TimeCell: nat := 5
  const BldgCell: nat := 6
  const RoomCell: nat := 7
  const InstructorCell: nat := 8
  const SeatsAvailCell: nat := 9

  /** What a generator handed out before it finished, and the exception that stopped it, if any. */
  datatype Yielded<T> = Yielded(values: seq<T>, raised: Option<Fault>)

  /** A row whose `tag["class"][0]` exists. */
  predicate HasClass(row: Row) {
    row.classes.Some? && |row.classes.value| > 0
  }

  /** `tag["class"][0]`, for a row known to have a class. */
  function FirstClass(row: Row): string {
    if HasClass(row) then row.classes.value[0] else ""
  }

  /** A sectxt row with all twelve cells. */
  predicate ValidSectxt(row: Row) {
    FirstClass(row) == "sectxt" && |row.cells| == SectxtValidCells
  }

  /** A nonenrtxt row with all ten cells. */
  predicate ValidNonenrtxt(row: Row) {
    FirstClass(row) == "nonenrtxt" && |row.cells| == NonenrtxtValidCells
  }

  /** Rows from which days, time, building and room are read. */
  predicate ValidLayout(row: Row) {
    ValidSectxt(row) || ValidNonenrtxt(row)
  }

  /** Cell 3 as a section number, or failing that as a date: `(number, date)` with exactly one set. */
  function SecNumOrDate(text: string): (r: Result<(Option<string>, Option<string>), Fault>)
    ensures ParseSecNum(text).Ok? ==> r == Ok((Some(ParseSecNum(text).value), None))
    ensures ParseSecNum(text).Err? && ParseDate(text).Ok? ==> r == Ok((None, Some(ParseDate(text).value)))
    ensures ParseSecNum(text).Err? && ParseDate(text).Err? ==> r == Err(ParseDate(text).error)
  {
    match ParseSecNum(text)
    case Ok(n) => Ok((Some(n), None))
    case Err(_) =>
      var d :- ParseDate(text);
      Ok((None, Some(d)))
  }

  /** The fields every meeting row gets: its type, its number or date, and on a sectxt row its sec_id. */
  function ReadCommonFields(row: Row): (r: Result<Meeting, Fault>)
    requires HasClass(row)
    ensures r.Ok? ==> |row.cells| > SecNumOrDateCell
    ensures r.Ok? ==> r.value.meetingType.Some? && r.value.meetingType.value in TypeCodes
    ensures r.Ok? ==> r.value.number.Some? != r.value.date.Some?
    ensures r.Ok? ==> (r.value.number.Some? <==> ParseSecNum(row.cells[SecNumOrDateCell].text).Ok?)
    ensures r.Ok? ==> r.value.secId == if FirstClass(row) == "sectxt" then MeetingText(row.cells[SecIdCell].text) else None
    ensures r.Ok? ==> r.value.(secId := None, meetingType := None, number := None, date := None) == EmptyMeeting
    ensures r.Err? && |row.cells| > SecNumOrDateCell ==> Caught(r.error)
    ensures r.Ok? <==>
      && |row.cells| > SecNumOrDateCell
      && ParseMeetingType(row.cells[MeetingTypeCell].text).Ok?
      && SecNumOrDate(row.cells[SecNumOrDateCell].text).Ok?
    ensures r.Ok? ==> r.value.meetingType == Some(ParseMeetingType(row.cells[MeetingTypeCell].text).value)
    ensures r.Ok? ==> SecNumOrDate(row.cells[SecNumOrDateCell].text) == Ok((r.value.number, r.value.date))
  {
    if |row.cells| <= MeetingTypeCell then Err(IndexOutOfRange(MeetingTypeCell))
    else
      var meetingType :- ParseMeetingType(row.cells[MeetingTypeCell].text);
      if |row.cells| <= SecNumOrDateCell then Err(IndexOutOfRange(SecNumOrDateCell))
      else
        var numberOrDate :- SecNumOrDate(row.cells[SecNumOrDateCell].text);
        var secId := if FirstClass(row) == "sectxt" then MeetingText(row.cells[SecIdCell].text) else None;
        Ok(EmptyMeeting.(secId := secId, meetingType := Some(meetingType),
                         number := numberOrDate.0, date := numberOrDate.1))
  }

  /** The layout fields of m are those the parsers read from the row's cells. */
  predicate LayoutRead(row: Row, m: Meeting)
    requires ValidLayout(row)
  {
    && ParseDays(row.cells[DaysCell].text).Ok?
    && ParseTimeRange(row.cells[TimeCell].text).Ok?
    && m.days == Some(ParseDays(row.cells[DaysCell].text).value)
    && m.startTime == Some(ParseTimeRange(row.cells[TimeCell].text).value.0)
    && m.endTime == Some(ParseTimeRange(row.cells[TimeCell].text).value.1)
    && m.bldg == MeetingText(row.cells[BldgCell].text)
    && m.room == MeetingText(row.cells[RoomCell].text)
  }

  /** The instructor of m is the instructor cell's text, and its seats, when the sec_id cell is not blank, the parsed seats cell. */
  predicate SectxtRead(row: Row, m: Meeting)
    requires ValidSectxt(row)
  {
    && m.instructor == MeetingText(row.cells[InstructorCell].text)
    && (MeetingText(row.cells[SecIdCell].text).Some? ==>
          ParseSeatsAvail(row.cells[SeatsAvailCell].text).Ok?
          && m.seatsAvail == Some(ParseSeatsAvail(row.cells[SeatsAvailCell].text).value))
  }

  /**
   * Every step of build_item_from_meeting that the row reaches succeeds: it is not
   * cancelled, has a class and a cell at index 3, its type and number-or-date cells
   * parse, and so do its days, time and seats cells where they are read.
   */
  predicate RowParses(row: Row) {
    && !Contains(row.text, "Cancelled")
    && HasClass(row)
    && |row.cells| > SecNumOrDateCell
    && ParseMeetingType(row.cells[MeetingTypeCell].text).Ok?
    && SecNumOrDate(row.cells[SecNumOrDateCell].text).Ok?
    && (ValidLayout(row) ==> ParseDays(row.cells[DaysCell].text).Ok? && ParseTimeRange(row.cells[TimeCell].text).Ok?)
    && (ValidSectxt(row) && MeetingText(row.cells[SecIdCell].text).Some? ==>
          ParseSeatsAvail(row.cells[SeatsAvailCell].text).Ok?)
  }

  /** Days, time, building and room, read from a row with a complete layout into m. */
  function ReadLayoutFields(row: Row, m: Meeting): (r: Result<Meeting, Fault>)
    requires ValidLayout(row)
    ensures r.Ok? ==> r.value.days.Some? && r.value.startTime.Some? && r.value.endTime.Some?
    ensures r.Err? ==> Caught(r.error) || r.error.TimeOutOfRange?
    ensures r.Ok? ==> r.value == m.(days := r.value.days, bldg := r.value.bldg, room := r.value.room,
                                    startTime := r.value.startTime, endTime := r.value.endTime)
    ensures r.Ok? <==> ParseDays(row.cells[DaysCell].text).Ok? && ParseTimeRange(row.cells[TimeCell].text).Ok?
    ensures r.Ok? ==> LayoutRead(row, r.value)
    ensures ParseDays(row.cells[DaysCell].text).Err? ==> r == Err(ParseDays(row.cells[DaysCell].text).error)
    ensures ParseDays(row.cells[DaysCell].text).Ok? && ParseTimeRange(row.cells[TimeCell].text).Err? ==>
      r == Err(ParseTimeRange(row.cells[TimeCell].text).error)
  {
    var days :- ParseDays(row.cells[DaysCell].text);
    var times :- ParseTimeRange(row.cells[TimeCell].text);
    Ok(m.(days := Some(days),
          bldg := MeetingText(row.cells[BldgCell].text),
          room := MeetingText(row.cells[RoomCell].text),
          startTime := Some(times.0), endTime := Some(times.1)))
  }

  /** Instructor, and seats when the sec_id cell is not blank, read from a complete sectxt row into m. */
  function ReadSectxtFields(row: Row, m: Meeting): (r: Result<Meeting, Fault>)
    requires ValidSectxt(row) && m.seatsAvail.None?
    ensures r.Ok? ==> (r.value.seatsAvail.Some? <==> MeetingText(row.cells[SecIdCell].text).Some?)
    ensures r.Ok? ==> r.value == m.(instructor := r.value.instructor, seatsAvail := r.value.seatsAvail)
    ensures r.Err? ==> Caught(r.error)
    ensures r.Ok? <==> (MeetingText(row.cells[SecIdCell].text).Some? ==> ParseSeatsAvail(row.cells[SeatsAvailCell].text).Ok?)
    ensures r.Ok? ==> SectxtRead(row, r.value)
    ensures r.Err? ==> r == Err(ParseSeatsAvail(row.cells[SeatsAvailCell].text).error)
  {
    var m := m.(instructor := MeetingText(row.cells[InstructorCell].text));
    if Strip(row.cells[SecIdCell].text) == "" then Ok(m)
    else
      var seats :- ParseSeatsAvail(row.cells[SeatsAvailCell].text);
      Ok(m.(seatsAvail := Some(seats)))
  }

  /** build_item_from_meeting: the meeting a row describes, or the exception that reading it raises. */
  function BuildMeeting(row: Row): (r: Result<Meeting, Fault>)
    ensures Contains(row.text, "Cancelled") ==> r == Err(ScraperError(Cancelled))
    ensures r.Ok? ==> HasClass(row) && |row.cells| > SecNumOrDateCell
    ensures r.Ok? ==> r.value.meetingType.Some? && r.value.meetingType.value in TypeCodes
    ensures r.Ok? ==> r.value.number.Some? != r.value.date.Some?
    ensures r.Ok? ==> (r.value.number.Some? <==> ParseSecNum(row.cells[SecNumOrDateCell].text).Ok?)
    ensures r.Ok? ==> r.value.secId == if FirstClass(row) == "sectxt" then MeetingText(row.cells[SecIdCell].text) else None
    ensures r.Ok? ==> (r.value.days.Some? <==> ValidLayout(row))
    ensures r.Ok? ==> (r.value.startTime.Some? <==> ValidLayout(row)) && (r.value.endTime.Some? <==> ValidLayout(row))
    ensures r.Ok? && !ValidLayout(row) ==> r.value.bldg.None? && r.value.room.None?
    ensures r.Ok? && r.value.instructor.Some? ==> ValidSectxt(row)
    ensures r.Ok? ==> (r.value.seatsAvail.Some? <==> ValidSectxt(row) && r.value.secId.Some?)
    ensures r.Ok? ==> r.value.essential.None?
    ensures r.Err? && HasClass(row) && |row.cells| > SecNumOrDateCell ==> Caught(r.error) || r.error.TimeOutOfRange?
    ensures r.Ok? <==> RowParses(row)
    ensures r.Ok? ==> r.value.meetingType == Some(ParseMeetingType(row.cells[MeetingTypeCell].text).value)
    ensures r.Ok? ==> SecNumOrDate(row.cells[SecNumOrDateCell].text) == Ok((r.value.number, r.value.date))
    ensures r.Ok? && ValidLayout(row) ==> LayoutRead(row, r.value)
    ensures r.Ok? && ValidSectxt(row) ==> SectxtRead(row, r.value)
  {
    if Contains(row.text, "Cancelled") then Err(ScraperError(Cancelled))
    else if row.classes.None? then Err(MissingClass)
    else if |row.classes.value| == 0 then Err(IndexOutOfRange(0))
    else
      var m :- ReadCommonFields(row);
      if !ValidLayout(row) then Ok(m)
      else
        var m :- ReadLayoutFields(row, m);
        if !ValidSectxt(row) then Ok(m)
        else ReadSectxtFields(row, m)
  }

  /**
   * The exception build_item_from_meeting raises is that of the first step that
   * fails, in the order the source takes them.
   */
  lemma BuildMeetingFaults(row: Row)
    ensures !Contains(row.text, "Cancelled") && row.classes.None? ==> BuildMeeting(row) == Err(MissingClass)
    ensures !Contains(row.text, "Cancelled") && row.classes == Some([]) ==> BuildMeeting(row) == Err(IndexOutOfRange(0))
    ensures !Contains(row.text, "Cancelled") && HasClass(row) && |row.cells| <= MeetingTypeCell ==>
      BuildMeeting(row) == Err(IndexOutOfRange(MeetingTypeCell))
    ensures (!Contains(row.text, "Cancelled") && HasClass(row) && |row.cells| > MeetingTypeCell
             && ParseMeetingType(row.cells[MeetingTypeCell].text).Err?) ==>
      BuildMeeting(row) == Err(ParseMeetingType(row.cells[MeetingTypeCell].text).error)
  {
  }

  /** Past the common fields, a complete row's days cell is parsed before its time cell. */
  lemma BuildMeetingLayoutFaults(row: Row)
    ensures (!Contains(row.text, "Cancelled") && HasClass(row) && ReadCommonFields(row).Ok? && ValidLayout(row)
             && ParseDays(row.cells[DaysCell].text).Err?) ==>
      BuildMeeting(row) == Err(ParseDays(row.cells[DaysCell].text).error)
    ensures (!Contains(row.text, "Cancelled") && HasClass(row) && ReadCommonFields(row).Ok? && ValidLayout(row)
             && ParseDays(row.cells[DaysCell].text).Ok? && ParseTimeRange(row.cells[TimeCell].text).Err?) ==>
      BuildMeeting(row) == Err(ParseTimeRange(row.cells[TimeCell].text).error)
  {
  }

  // ---------------------------------------------------------------- blocks

  /**
   * more_itertools.split_before with the predicate "has no class attribute": `buf`
   * is the block being collected; a class-less row closes it, unless it is empty.
   */
  function SplitFrom(rows: seq<Row>, buf: seq<Row>): (blocks: seq<seq<Row>>)
    decreases |rows|
  {
    if rows == [] then (if buf == [] then [] else [buf])
    else if StartsBlock(rows[0]) && buf != [] then [buf] + SplitFrom(rows[1..], [rows[0]])
    else SplitFrom(rows[1..], buf + [rows[0]])
  }

  /** The course blocks of a page's rows. */
  function SplitBefore(rows: seq<Row>): seq<seq<Row>> {
    SplitFrom(rows, [])
  }

  /** The blocks written one after another. */
  function Flatten(blocks: seq<seq<Row>>): seq<Row> {
    if blocks == [] then [] else blocks[0] + Flatten(blocks[1..])
  }

  /** Only the first row of a block may lack a class. */
  predicate Unbroken(block: seq<Row>) {
    forall k :: 1 <= k < |block| ==> !StartsBlock(block[k])
  }

  /** What split_before guarantees of its blocks: none is empty, every block after the first opens with a class-less row, and no block holds another one. */
  predicate WellSplit(blocks: seq<seq<Row>>) {
    forall i :: 0 <= i < |blocks| ==>
      |blocks[i]| > 0 && Unbroken(blocks[i]) && (i > 0 ==> StartsBlock(blocks[i][0]))
  }

  lemma {:induction false} FlattenCons(b: seq<Row>, blocks: seq<seq<Row>>)
    ensures Flatten([b] + blocks) == b + Flatten(blocks)
  {
    assert ([b] + blocks)[1..] == blocks;
  }

  /** Splitting loses and reorders nothing: the blocks written out again are the buffer and the rows. */
  lemma {:induction false} SplitFromFlatten(rows: seq<Row>, buf: seq<Row>)
    ensures Flatten(SplitFrom(rows, buf)) == buf + rows
    decreases |rows|
  {
    if rows == [] {
      if buf != [] {
        FlattenCons(buf, []);
      }
    } else if StartsBlock(rows[0]) && buf != [] {
      SplitFromFlatten(rows[1..], [rows[0]]);
      FlattenCons(buf, SplitFrom(rows[1..], [rows[0]]));
      assert [rows[0]] + rows[1..] == rows;
    } else {
      SplitFromFlatten(rows[1..], buf + [rows[0]]);
      assert buf + [rows[0]] + rows[1..] == buf + rows;
    }
  }

  /** The blocks are well split, and the first starts with the buffer's first row. */
  lemma {:induction false} SplitFromShape(rows: seq<Row>, buf: seq<Row>)
    requires Unbroken(buf)
    ensures WellSplit(SplitFrom(rows, buf))
    ensures buf != [] ==> |SplitFrom(rows, buf)| > 0 && SplitFrom(rows, buf)[0][0] == buf[0]
    ensures buf == [] && rows != [] ==> |SplitFrom(rows, buf)| > 0 && SplitFrom(rows, buf)[0][0] == rows[0]
    decreases |rows|
  {
    if rows == [] {
    } else if StartsBlock(rows[0]) && buf != [] {
      var rest := SplitFrom(rows[1..], [rows[0]]);
      SplitFromShape(rows[1..], [rows[0]]);
      var all := [buf] + rest;
      forall i | 0 <= i < |all|
        ensures |all[i]| > 0 && Unbroken(all[i]) && (i > 0 ==> StartsBlock(all[i][0]))
      {
        if i > 0 {
          assert all[i] == rest[i - 1];
        }
      }
    } else {
      var next := buf + [rows[0]];
      assert Unbroken(next) by {
        forall k | 1 <= k < |next|
          ensures !StartsBlock(next[k])
        {
          if k < |buf| {
            assert next[k] == buf[k];
          }
        }
      }
      SplitFromShape(rows[1..], next);
    }
  }

  /** The blocks of a page partition its rows, in order: each block opens at a class-less row (the first may open at any row) and runs until the next one. */
  lemma SplitBeforePartition(rows: seq<Row>)
    ensures Flatten(SplitBefore(rows)) == rows
    ensures WellSplit(SplitBefore(rows))
  {
    SplitFromFlatten(rows, []);
    assert [] + rows == rows;
    SplitFromShape(rows, []);
  }

  // ---------------------------------------------------------------- one block

  /** What the loop of build_item_from_group learns from one row: its first class and what reading it gave. */
  datatype Reading = Reading(track: string, result: Result<Meeting, Fault>)

  function ReadRow(row: Row): Reading {
    Reading(FirstClass(row), BuildMeeting(row))
  }

  function Readings(rows: seq<Row>): (rs: seq<Reading>)
    ensures |rs| == |rows|
    ensures forall i :: 0 <= i < |rows| ==> rs[i] == ReadRow(rows[i])
  {
    seq(|rows|, i requires 0 <= i < |rows| => ReadRow(rows[i]))
  }

  /** A reading that raises something other than a ScraperError: it stops the spider's callback. */
  predicate Aborts(rd: Reading) {
    rd.result.Err? && !Caught(rd.result.error)
  }

  /**
   * The loop of build_item_from_group over the rows after the first meeting, on
   * their readings: a ScraperError skips the row, any other exception ends the
   * loop, and a meeting goes to the sectxt list when its row's first class is
   * "sectxt" and to the nonenrtxt list otherwise.
   */
  function Sort(rs: seq<Reading>): (r: Result<(seq<Meeting>, seq<Meeting>), Fault>)
    ensures r.Err? <==> exists i :: 0 <= i < |rs| && Aborts(rs[i])
    ensures r.Err? ==> !Caught(r.error)
    ensures r.Ok? ==> |r.value.0| + |r.value.1| <= |rs|
    decreases |rs|
  {
    if rs == [] then Ok(([], []))
    else
      var front := rs[..|rs| - 1];
      assert forall i :: 0 <= i < |front| ==> front[i] == rs[i];
      SortNext(Sort(front), rs[|rs| - 1])
  }

  /** One more reading: skipped when it raised a ScraperError, appended to its track's list when it is a meeting. */
  function SortNext(prev: Result<(seq<Meeting>, seq<Meeting>), Fault>, rd: Reading): Result<(seq<Meeting>, seq<Meeting>), Fault> {
    if prev.Err? then prev
    else
      var lists := prev.value;
      match rd.result
      case Err(f) => if Caught(f) then Ok(lists) else Err(f)
      case Ok(m) =>
        if rd.track == "sectxt" then Ok((lists.0 + [m], lists.1)) else Ok((lists.0, lists.1 + [m]))
  }

  /** A reading that raised a ScraperError leaves the two lists as if its row were not there. */
  lemma {:induction false} SortSkip(before: seq<Reading>, rd: Reading, after: seq<Reading>)
    requires rd.result.Err? && Caught(rd.result.error)
    ensures Sort(before + [rd] + after) == Sort(before + after)
    decreases |after|
  {
    var with := before + [rd] + after;
    var without := before + after;
    if after == [] {
      assert with[..|with| - 1] == before && with[|with| - 1] == rd;
      assert without == before;
      assert Sort(with) == SortNext(Sort(before), rd);
    } else {
      var init := after[..|after| - 1];
      assert with[..|with| - 1] == before + [rd] + init;
      assert without[..|without| - 1] == before + init;
      assert with[|with| - 1] == without[|without| - 1];
      SortSkip(before, rd, init);
      assert Sort(with) == SortNext(Sort(before + [rd] + init), with[|with| - 1]);
      assert Sort(without) == SortNext(Sort(before + init), without[|without| - 1]);
    }
  }

  /** A meeting read after the others is appended to the list of its track, and the other list is unchanged. */
  lemma SortAppend(rs: seq<Reading>, rd: Reading)
    requires Sort(rs).Ok? && rd.result.Ok?
    ensures var r := Sort(rs + [rd]); var l := Sort(rs).value;
      && r.Ok?
      && (rd.track == "sectxt" ==> r.value == (l.0 + [rd.result.value], l.1))
      && (rd.track != "sectxt" ==> r.value == (l.0, l.1 + [rd.result.value]))
  {
    assert (rs + [rd])[..|rs|] == rs;
  }

  /** The rows after the first meeting, sorted by track. */
  function LaterMeetings(rows: seq<Row>): Result<(seq<Meeting>, seq<Meeting>), Fault> {
    Sort(Readings(rows))
  }

  lemma ReadingsAppend(a: seq<Row>, b: seq<Row>)
    ensures Readings(a + b) == Readings(a) + Readings(b)
  {
    var l, r := Readings(a + b), Readings(a) + Readings(b);
    forall i | 0 <= i < |l|
      ensures l[i] == r[i]
    {
      if i < |a| {
        assert (a + b)[i] == a[i];
      } else {
        assert (a + b)[i] == b[i - |a|];
      }
    }
  }

  /** A later row that raises a ScraperError is dropped and changes nothing else. */
  lemma LaterMeetingsSkip(before: seq<Row>, row: Row, after: seq<Row>)
    requires BuildMeeting(row).Err? && Caught(BuildMeeting(row).error)
    ensures LaterMeetings(before + [row] + after) == LaterMeetings(before + after)
  {
    ReadingsAppend(before + [row], after);
    ReadingsAppend(before, [row]);
    ReadingsAppend(before, after);
    assert Readings([row]) == [ReadRow(row)];
    SortSkip(Readings(before), ReadRow(row), Readings(after));
  }

  /** The header cell the title is read from: the text of its link when it has one. */
  function TitleText(cell: Cell): string {
    if cell.link.Some? then cell.link.value else cell.text
  }

  /**
   * build_item_from_group: a block that is only a header gives no item; a first
   * meeting that raises a ScraperError drops the block; otherwise the item holds the
   * spider's quarter and subject, the header's number and title, the first meeting
   * and the later ones by track.
   */
  function GroupItem(quarter: string, subject: string, block: seq<Row>): (r: Result<Option<CourseMeetingsUncategorized>, Fault>)
    ensures r.Err? ==> !Caught(r.error)
  {
    if |block| == 1 then Ok(None)
    else if |block| == 0 then Err(IndexOutOfRange(0))
    else
      var cells := block[0].cells;
      if |cells| <= 1 then Err(IndexOutOfRange(1))
      else if |cells| <= 2 then Err(IndexOutOfRange(2))
      else
        match BuildMeeting(block[1])
        case Err(f) => if Caught(f) then Ok(None) else Err(f)
        case Ok(first) =>
          var lists :- LaterMeetings(block[2..]);
          Ok(Some(CourseMeetingsUncategorized(
            HeaderText(quarter), HeaderText(subject), HeaderText(cells[1].text), HeaderText(TitleText(cells[2])),
            first, lists.0, lists.1)))
  }

  /**
   * What build_item_from_group makes of a block: nothing for a lone header or a
   * first meeting that failed with a ScraperError; otherwise an item whose first
   * meeting is read from the row after the header, whose sectxt and nonenrtxt
   * lists are what the later rows give, and whose quarter and subject are the
   * page's.
   */
  lemma GroupItemMeaning(quarter: string, subject: string, block: seq<Row>)
    ensures var r := GroupItem(quarter, subject, block);
      && (|block| == 1 ==> r == Ok(None))
      && (|block| > 1 && |block[0].cells| > 2 && BuildMeeting(block[1]).Err? && Caught(BuildMeeting(block[1]).error) ==> r == Ok(None))
      && (r.Ok? && r.value.Some? ==> var item := r.value.value;
           && |block| > 1
           && BuildMeeting(block[1]) == Ok(item.firstMeeting)
           && LaterMeetings(block[2..]) == Ok((item.sectxtMeetings, item.nonenrtxtMeetings))
           && item.quarterCode == HeaderText(quarter) && item.subjCode == HeaderText(subject)
           && item.number == HeaderText(block[0].cells[1].text)
           && item.title == HeaderText(TitleText(block[0].cells[2])))
  {
  }

  /**
   * The other direction: a block whose first meeting and later rows all build
   * gives the item made of them, and an exception that is not a ScraperError,
   * from the first meeting or from a later row, leaves build_item_from_group.
   * A block without a header, or whose header lacks the number or title cell,
   * raises IndexError.
   */
  lemma GroupItemOutcome(quarter: string, subject: string, block: seq<Row>)
    ensures |block| == 0 ==> GroupItem(quarter, subject, block) == Err(IndexOutOfRange(0))
    ensures |block| > 1 && |block[0].cells| <= 1 ==> GroupItem(quarter, subject, block) == Err(IndexOutOfRange(1))
    ensures |block| > 1 && |block[0].cells| == 2 ==> GroupItem(quarter, subject, block) == Err(IndexOutOfRange(2))
    ensures |block| > 1 && |block[0].cells| > 2 && BuildMeeting(block[1]).Err? && !Caught(BuildMeeting(block[1]).error) ==>
      GroupItem(quarter, subject, block) == Err(BuildMeeting(block[1]).error)
    ensures |block| > 1 && |block[0].cells| > 2 && BuildMeeting(block[1]).Ok? && LaterMeetings(block[2..]).Err? ==>
      GroupItem(quarter, subject, block) == Err(LaterMeetings(block[2..]).error)
    ensures |block| > 1 && |block[0].cells| > 2 && BuildMeeting(block[1]).Ok? && LaterMeetings(block[2..]).Ok? ==>
      var cells, lists := block[0].cells, LaterMeetings(block[2..]).value;
      GroupItem(quarter, subject, block) == Ok(Some(CourseMeetingsUncategorized(
        HeaderText(quarter), HeaderText(subject), HeaderText(cells[1].text), HeaderText(TitleText(cells[2])),
        BuildMeeting(block[1]).value, lists.0, lists.1)))
  {
  }

  /** Once the loop has stopped on an exception, later rows change nothing. */
  lemma {:induction false} SortStops(rs: seq<Reading>, more: seq<Reading>)
    requires Sort(rs).Err?
    ensures Sort(rs + more) == Sort(rs)
    decreases |more|
  {
    if more == [] {
      assert rs + more == rs;
    } else {
      var all := rs + more;
      ConcatInit(rs, more);
      SortStops(rs, more[..|more| - 1]);
      assert Sort(all) == SortNext(Sort(all[..|all| - 1]), all[|all| - 1]);
    }
  }

  /** One more row, in terms of the readings. */
  lemma ReadingsSnoc(rows: seq<Row>, row: Row)
    ensures Readings(rows + [row]) == Readings(rows) + [ReadRow(row)]
  {
    ReadingsAppend(rows, [row]);
    assert Readings([row]) == [ReadRow(row)];
  }

  /** One more step of the loop. */
  lemma SortSnoc(rs: seq<Reading>, rd: Reading)
    requires Sort(rs).Ok?
    ensures var l := Sort(rs).value;
      Sort(rs + [rd]) ==
        match rd.result
        case Err(f) => if Caught(f) then Ok(l) else Err(f)
        case Ok(m) => if rd.track == "sectxt" then Ok((l.0 + [m], l.1)) else Ok((l.0, l.1 + [m]))
  {
    assert (rs + [rd])[..|rs|] == rs;
  }

  /** The readings of one row more. */
  lemma ReadingsStep(rows: seq<Row>, k: nat)
    requires k < |rows|
    ensures Readings(rows[..k + 1]) == Readings(rows[..k]) + [ReadRow(rows[k])]
  {
    assert rows[..k + 1] == rows[..k] + [rows[k]];
    ReadingsSnoc(rows[..k], rows[k]);
  }

  /** The first row whose reading aborts decides the outcome of the whole loop. */
  lemma SortAbortsAt(rows: seq<Row>, k: nat)
    requires k < |rows| && Sort(Readings(rows[..k])).Ok? && Aborts(ReadRow(rows[k]))
    ensures LaterMeetings(rows) == Err(ReadRow(rows[k]).result.error)
  {
    ReadingsStep(rows, k);
    SortSnoc(Readings(rows[..k]), ReadRow(rows[k]));
    SplitAt(rows, k + 1);
    ReadingsAppend(rows[..k + 1], rows[k + 1..]);
    SortStops(Readings(rows[..k + 1]), Readings(rows[k + 1..]));
  }

  /** The loop of build_item_from_group over the rows after the first meeting. */
  method SortLaterRows(rows: seq<Row>) returns (r: Result<(seq<Meeting>, seq<Meeting>), Fault>)
    ensures r == LaterMeetings(rows)
  {
    var sectxt: seq<Meeting>, nonenrtxt: seq<Meeting> := [], [];
    assert rows[..0] == [];
    for k := 0 to |rows|
      invariant Sort(Readings(rows[..k])) == Ok((sectxt, nonenrtxt))
    {
      var rd := ReadRow(rows[k]);
      ReadingsStep(rows, k);
      SortSnoc(Readings(rows[..k]), rd);
      if rd.result.Err? {
        if Caught(rd.result.error) {
          continue;
        }
        SortAbortsAt(rows, k);
        return Err(rd.result.error);
      }
      if rd.track == "sectxt" {
        sectxt := sectxt + [rd.result.value];
      } else {
        nonenrtxt := nonenrtxt + [rd.result.value];
      }
    }
    assert rows[..|rows|] == rows;
    return Ok((sectxt, nonenrtxt));
  }

  /** build_item_from_group. */
  method BuildItemFromGroup(quarter: string, subject: string, block: seq<Row>)
    returns (r: Result<Option<CourseMeetingsUncategorized>, Fault>)
    ensures r == GroupItem(quarter, subject, block)
  {
    if |block| == 1 {
      return Ok(None);
    }
    if |block| == 0 {
      return Err(IndexOutOfRange(0));
    }
    var cells := block[0].cells;
    if |cells| <= 1 {
      return Err(IndexOutOfRange(1));
    }
    if |cells| <= 2 {
      return Err(IndexOutOfRange(2));
    }
    var number := HeaderText(cells[1].text);
    var title := HeaderText(TitleText(cells[2]));
    var first := BuildMeeting(block[1]);
    if first.Err? {
      if Caught(first.error) {
        return Ok(None);
      }
      return Err(first.error);
    }
    var lists := SortLaterRows(block[2..]);
    if lists.Err? {
      return Err(lists.error);
    }
    return Ok(Some(CourseMeetingsUncategorized(
      HeaderText(quarter), HeaderText(subject), number, title, first.value, lists.value.0, lists.value.1)));
  }

  /**
   * The rows find_all keeps as meetings can only make build_item_from_meeting raise
   * a ScraperError or a clock out of datetime.time's range: the class and the first
   * four cells it reads are there, and the longer layouts are only read at their
   * exact length.
   */
  lemma MeetingRowFaults(row: Row)
    requires MatchesMeeting(row)
    ensures BuildMeeting(row).Err? ==> Caught(BuildMeeting(row).error) || BuildMeeting(row).error.TimeOutOfRange?
  {
    MeetingRowStaysInBlock(row);
  }

  // ---------------------------------------------------------------- one page

  /**
   * The loop of course_meeting_items on the outcomes of build_item_from_group: an
   * item is yielded, a header-only or dropped block yields nothing, and an
   * exception ends the generator.
   */
  function Collect(outcomes: seq<Result<Option<CourseMeetingsUncategorized>, Fault>>): (y: Yielded<CourseMeetingsUncategorized>)
    ensures y.raised.None? <==> forall i :: 0 <= i < |outcomes| ==> outcomes[i].Ok?
    ensures y.raised.Some? ==> exists i :: 0 <= i < |outcomes| && outcomes[i] == Err(y.raised.value)
    ensures |y.values| <= |outcomes|
    decreases |outcomes|
  {
    if outcomes == [] then Yielded([], None)
    else
      var front := outcomes[..|outcomes| - 1];
      assert forall i :: 0 <= i < |front| ==> front[i] == outcomes[i];
      CollectNext(Collect(front), outcomes[|outcomes| - 1])
  }

  /** One more block: nothing more once the generator has raised; otherwise its item, nothing, or its exception. */
  function CollectNext(prev: Yielded<CourseMeetingsUncategorized>, o: Result<Option<CourseMeetingsUncategorized>, Fault>): Yielded<CourseMeetingsUncategorized> {
    if prev.raised.Some? then prev
    else
      match o
      case Err(f) => Yielded(prev.values, Some(f))
      case Ok(None) => prev
      case Ok(Some(item)) => Yielded(prev.values + [item], None)
  }

  function Outcomes(quarter: string, subject: string, blocks: seq<seq<Row>>): (os: seq<Result<Option<CourseMeetingsUncategorized>, Fault>>)
    ensures |os| == |blocks|
    ensures forall i :: 0 <= i < |blocks| ==> os[i] == GroupItem(quarter, subject, blocks[i])
  {
    seq(|blocks|, i requires 0 <= i < |blocks| => GroupItem(quarter, subject, blocks[i]))
  }

  /** course_meeting_items: the items of a page's matching rows, block by block. */
  function PageItems(quarter: string, subject: string, rows: seq<Row>): Yielded<CourseMeetingsUncategorized> {
    Collect(Outcomes(quarter, subject, SplitBefore(rows)))
  }

  /** Every ScraperError is handled inside a block: what can end a page is an exception of another kind. */
  lemma PageItemsRaiseUncaught(quarter: string, subject: string, rows: seq<Row>)
    ensures PageItems(quarter, subject, rows).raised.Some? ==> !Caught(PageItems(quarter, subject, rows).raised.value)
  {
    var os := Outcomes(quarter, subject, SplitBefore(rows));
    var y := Collect(os);
    if y.raised.Some? {
      var i :| 0 <= i < |os| && os[i] == Err(y.raised.value);
    }
  }

  lemma CollectSnoc(os: seq<Result<Option<CourseMeetingsUncategorized>, Fault>>, o: Result<Option<CourseMeetingsUncategorized>, Fault>)
    requires Collect(os).raised.None?
    ensures var v := Collect(os).values;
      Collect(os + [o]) ==
        match o
        case Err(f) => Yielded(v, Some(f))
        case Ok(None) => Yielded(v, None)
        case Ok(Some(item)) => Yielded(v + [item], None)
  {
    assert (os + [o])[..|os|] == os;
  }

  /** Once the generator has raised, later blocks change nothing. */
  lemma {:induction false} CollectStops(os: seq<Result<Option<CourseMeetingsUncategorized>, Fault>>, more: seq<Result<Option<CourseMeetingsUncategorized>, Fault>>)
    requires Collect(os).raised.Some?
    ensures Collect(os + more) == Collect(os)
    decreases |more|
  {
    if more == [] {
      assert os + more == os;
    } else {
      var all := os + more;
      ConcatInit(os, more);
      CollectStops(os, more[..|more| - 1]);
      assert Collect(all) == CollectNext(Collect(all[..|all| - 1]), all[|all| - 1]);
    }
  }

  /** Dropping the last element of a concatenation drops it from the second part. */
  lemma ConcatInit<T>(a: seq<T>, b: seq<T>)
    requires |b| > 0
    ensures (a + b)[..|a + b| - 1] == a + b[..|b| - 1]
  {
  }

  /** One more block: the step of the loop in course_meeting_items. */
  lemma CollectStep(os: seq<Result<Option<CourseMeetingsUncategorized>, Fault>>, k: nat)
    requires k < |os| && Collect(os[..k]).raised.None?
    ensures var v := Collect(os[..k]).values;
      Collect(os[..k + 1]) ==
        match os[k]
        case Err(f) => Yielded(v, Some(f))
        case Ok(None) => Yielded(v, None)
        case Ok(Some(item)) => Yielded(v + [item], None)
  {
    assert os[..k + 1] == os[..k] + [os[k]];
    CollectSnoc(os[..k], os[k]);
  }

  /** A block that raises ends the page: the rest of the blocks are never built. */
  lemma CollectAbortsAt(os: seq<Result<Option<CourseMeetingsUncategorized>, Fault>>, k: nat)
    requires k < |os| && Collect(os[..k + 1]).raised.Some?
    ensures Collect(os) == Collect(os[..k + 1])
  {
    SplitAt(os, k + 1);
    CollectStops(os[..k + 1], os[k + 1..]);
  }

  /** A sequence is its prefix followed by the rest. */
  lemma SplitAt<T>(s: seq<T>, k: nat)
    requires k <= |s|
    ensures s[..k] + s[k..] == s
  {
  }

  /** course_meeting_items, as the loop it is. */
  method CourseMeetingItems(quarter: string, subject: string, rows: seq<Row>) returns (y: Yielded<CourseMeetingsUncategorized>)
    ensures y == PageItems(quarter, subject, rows)
  {
    var blocks := SplitBefore(rows);
    ghost var os := Outcomes(quarter, subject, blocks);
    var items: seq<CourseMeetingsUncategorized> := [];
    assert os[..0] == [];
    for k := 0 to |blocks|
      invariant Collect(os[..k]) == Yielded(items, None)
    {
      var outcome := BuildItemFromGroup(quarter, subject, blocks[k]);
      assert os[k] == outcome;
      CollectStep(os, k);
      if outcome.Err? {
        CollectAbortsAt(os, k);
        return Yielded(items, Some(outcome.error));
      }
      if outcome.value.Some? {
        items := items + [outcome.value.value];
      }
    }
    assert os[..|blocks|] == os;
    return Yielded(items, None);
  }

  // ---------------------------------------------------------------- page count

  /** The character PAGE_NUM_REGEX captures in a cell's text, if it matches anywhere. */
  function PageNumIn(text: string): (r: Option<char>)
    ensures r.Some? ==> IsDigit(r.value) || r.value == '+'
  {
    match Search(PageNumPattern, text, 0)
    case None => None
    case Some(p) => PageNumMatchAt(text, p)
  }

  /** What PAGE_NUM_REGEX can capture: a digit or '+'. */
  predicate Capturable(caps: seq<Option<char>>) {
    forall i :: 0 <= i < |caps| && caps[i].Some? ==> IsDigit(caps[i].value) || caps[i].value == '+'
  }

  /**
   * The loop of get_num_pages on what each cell captured: 0 to begin with, then for
   * each cell that matched, int() of the captured character; a '+' raises ValueError.
   */
  function LastCount(caps: seq<Option<char>>): (r: Result<nat, Fault>)
    requires Capturable(caps)
    ensures r.Ok? ==> r.value <= 9
    ensures r.Ok? && r.value > 0 ==> exists i :: 0 <= i < |caps| && caps[i].Some?
    ensures r.Err? ==> r.error == NotAnInteger("+")
    decreases |caps|
  {
    if caps == [] then Ok(0)
    else
      var front := caps[..|caps| - 1];
      assert forall i :: 0 <= i < |front| ==> front[i] == caps[i];
      var count :- LastCount(front);
      match caps[|caps| - 1]
      case None => Ok(count)
      case Some(c) => if c == '+' then Err(NotAnInteger("+")) else Ok((c - '0') as nat)
  }

  /** With no match the count stays 0. */
  lemma {:induction false} LastCountNoMatch(caps: seq<Option<char>>)
    requires forall i :: 0 <= i < |caps| ==> caps[i].None?
    ensures LastCount(caps) == Ok(0)
    decreases |caps|
  {
    if caps != [] {
      var front := caps[..|caps| - 1];
      assert forall i :: 0 <= i < |front| ==> front[i] == caps[i];
      LastCountNoMatch(front);
    }
  }

  /** Cells that do not match leave the count as it was. */
  lemma {:induction false} LastCountIgnores(caps: seq<Option<char>>, more: seq<Option<char>>)
    requires Capturable(caps) && LastCount(caps).Ok?
    requires forall i :: 0 <= i < |more| ==> more[i].None?
    ensures Capturable(caps + more)
    ensures LastCount(caps + more) == LastCount(caps)
    decreases |more|
  {
    if more == [] {
      assert caps + more == caps;
    } else {
      var all := caps + more;
      var init := more[..|more| - 1];
      assert all[..|all| - 1] == caps + init;
      LastCountIgnores(caps, init);
    }
  }

  /** The last matching cell decides the count, whatever earlier cells gave. */
  lemma LastCountLastMatch(caps: seq<Option<char>>, i: nat)
    requires Capturable(caps) && i < |caps| && LastCount(caps[..i]).Ok?
    requires caps[i].Some? && IsDigit(caps[i].value)
    requires forall j :: i < j < |caps| ==> caps[j].None?
    ensures LastCount(caps) == Ok((caps[i].value - '0') as nat)
  {
    var upto := caps[..i + 1];
    assert upto[..i] == caps[..i];
    var rest := caps[i + 1..];
    assert forall j :: 0 <= j < |rest| ==> rest[j] == caps[i + 1 + j];
    LastCountIgnores(upto, rest);
    assert upto + rest == caps;
  }

  /** Once int() has raised, later cells change nothing. */
  lemma {:induction false} LastCountStops(caps: seq<Option<char>>, more: seq<Option<char>>)
    requires Capturable(caps) && Capturable(caps + more) && LastCount(caps).Err?
    ensures LastCount(caps + more) == LastCount(caps)
    decreases |more|
  {
    if more == [] {
      assert caps + more == caps;
    } else {
      var all := caps + more;
      var init := all[..|all| - 1];
      assert init == caps + more[..|more| - 1];
      assert forall i :: 0 <= i < |init| ==> init[i] == all[i];
      LastCountStops(caps, more[..|more| - 1]);
    }
  }

  function Captures(cells: seq<string>): (caps: seq<Option<char>>)
    ensures |caps| == |cells| && Capturable(caps)
    ensures forall i :: 0 <= i < |cells| ==> caps[i] == PageNumIn(cells[i])
  {
    seq(|cells|, i requires 0 <= i < |cells| => PageNumIn(cells[i]))
  }

  /** get_num_pages on the texts of the right-aligned cells. */
  function PageCount(cells: seq<string>): Result<nat, Fault> {
    LastCount(Captures(cells))
  }

  /** One more cell of the loop. */
  lemma LastCountStep(caps: seq<Option<char>>, k: nat)
    requires Capturable(caps) && k < |caps| && LastCount(caps[..k]).Ok?
    ensures Capturable(caps[..k + 1])
    ensures LastCount(caps[..k + 1]) ==
      match caps[k]
      case None => LastCount(caps[..k])
      case Some(c) => if c == '+' then Err(NotAnInteger("+")) else Ok((c - '0') as nat)
  {
    var upto := caps[..k + 1];
    assert forall i :: 0 <= i < |upto| ==> upto[i] == caps[i];
    assert upto[..k] == caps[..k];
  }

  /** The first '+' captured ends the loop with a ValueError. */
  lemma LastCountAbortsAt(caps: seq<Option<char>>, k: nat)
    requires Capturable(caps) && k < |caps| && LastCount(caps[..k]).Ok? && caps[k] == Some('+')
    ensures LastCount(caps) == Err(NotAnInteger("+"))
  {
    LastCountStep(caps, k);
    assert caps == caps[..k + 1] + caps[k + 1..];
    LastCountStops(caps[..k + 1], caps[k + 1..]);
  }

  /** get_num_pages, as the loop it is. */
  method GetNumPages(cells: seq<string>) returns (r: Result<nat, Fault>)
    ensures r == PageCount(cells)
  {
    ghost var caps := Captures(cells);
    var numPages: nat := 0;
    assert caps[..0] == [];
    for k := 0 to |cells|
      invariant Capturable(caps[..k]) && LastCount(caps[..k]) == Ok(numPages)
    {
      var c := PageNumIn(cells[k]);
      assert c == caps[k];
      LastCountStep(caps, k);
      if c.Some? {
        if c.value == '+' {
          LastCountAbortsAt(caps, k);
          return Err(NotAnInteger("+"));
        }
        numPages := (c.value - '0') as nat;
      }
    }
    assert caps[..|cells|] == caps;
    return Ok(numPages);
  }

  /** The text of the page-count cell, "Page (n of count)". */
  function PageText(n: string, count: string): string {
    "Page (" + n + " of " + count + ")"
  }

  /** Where the parts of the page-count text sit. */
  lemma PageTextLayout(n: string, count: string)
    ensures var t := PageText(n, count); var l := |n|;
      && |t| == 10 + l + |count| + 1
      && t[..6] == "Page (" && t[6..6 + l] == n
      && t[6 + l..10 + l] == " of " && t[10 + l..10 + l + |count|] == count && t[|t| - 1] == ')'
  {
    var t := PageText(n, count);
    assert t == "Page (" + n + " of " + count + ")";
  }

  /** The characters of the page-count text: 'P' only at its start. */
  lemma PageTextChars(n: string, count: string)
    requires IsNumeral(n) && IsNumeral(count)
    ensures var t := PageText(n, count);
      forall i :: 1 <= i < |t| ==> t[i] != 'P'
  {
    var t := PageText(n, count);
    var l := |n|;
    PageTextLayout(n, count);
    forall i | 1 <= i < |t|
      ensures t[i] != 'P'
    {
      if i < 6 {
        assert t[i] == t[..6][i];
      } else if i < 6 + l {
        assert t[i] == n[i - 6];
      } else if i < 10 + l {
        assert t[i] == t[6 + l..10 + l][i - 6 - l];
      } else if i < |t| - 1 {
        assert t[i] == count[i - 10 - l];
      }
    }
  }

  /** `Page\s+\(` runs over "Page (". */
  lemma PageOpenRuns(n: string, count: string)
    ensures var t := PageText(n, count);
      OccursAt(t, "Page", 0) && RunEnd(t, 4, Space) == 5 && t[5] == '('
  {
    var t := PageText(n, count);
    PageTextLayout(n, count);
    assert t[..4] == t[..6][..4];
    assert t[4] == ' ' && t[5] == '(' by { assert t[4] == t[..6][4] && t[5] == t[..6][5]; }
    RunEndAt(t, 4, 5, Space);
  }

  /** " of " follows the page number. */
  lemma PageOfLayout(n: string, count: string)
    ensures var t := PageText(n, count); var l := |n|;
      t[6 + l] == ' ' && t[7 + l] == 'o' && t[8 + l] == 'f' && t[9 + l] == ' '
  {
    var t := PageText(n, count);
    var l := |n|;
    PageTextLayout(n, count);
    var of := t[6 + l..10 + l];
    assert t[6 + l] == of[0] && t[7 + l] == of[1] && t[8 + l] == of[2] && t[9 + l] == of[3];
  }

  /** `[0-9]+\s+` runs over "n " . */
  lemma PageNumberRuns(n: string, count: string)
    requires IsNumeral(n)
    ensures var t := PageText(n, count); var l := |n|;
      RunEnd(t, 6, Digit) == 6 + l && RunEnd(t, 6 + l, Space) == 7 + l
  {
    var t := PageText(n, count);
    var l := |n|;
    PageTextLayout(n, count);
    PageOfLayout(n, count);
    assert forall i :: 6 <= i < 6 + l ==> t[i] == t[6..6 + l][i - 6];
    RunEndAt(t, 6, 6 + l, Digit);
    RunEndAt(t, 6 + l, 7 + l, Space);
  }

  /** `of\s+` runs over "of " and stops before the count. */
  lemma PageOfRuns(n: string, count: string)
    requires IsNumeral(count)
    ensures var t := PageText(n, count); var l := |n|;
      OccursAt(t, "of", 7 + l) && RunEnd(t, 9 + l, Space) == 10 + l
  {
    var t := PageText(n, count);
    var l := |n|;
    PageTextLayout(n, count);
    PageOfLayout(n, count);
    assert t[7 + l..9 + l] == "of";
    assert t[10 + l] == t[10 + l..10 + l + |count|][0];
    RunEndAt(t, 9 + l, 10 + l, Space);
  }

  /** The first half of the pattern, `Page\s+\([0-9]+\s+of\s+`, runs over "Page (n of " and stops before the count. */
  lemma PagePrefixRuns(n: string, count: string)
    requires IsNumeral(n) && IsNumeral(count)
    ensures var t := PageText(n, count); var l := |n|;
      && OccursAt(t, "Page", 0) && RunEnd(t, 4, Space) == 5 && t[5] == '('
      && RunEnd(t, 6, Digit) == 6 + l && RunEnd(t, 6 + l, Space) == 7 + l
      && OccursAt(t, "of", 7 + l) && RunEnd(t, 9 + l, Space) == 10 + l
  {
    PageOpenRuns(n, count);
    PageNumberRuns(n, count);
    PageOfRuns(n, count);
  }

  /** No match can start after the first character of the page-count text. */
  lemma PageTextOnlyAtStart(n: string, count: string)
    requires IsNumeral(n) && IsNumeral(count)
    ensures Search(PageNumPattern, PageText(n, count), 0) == (if PageNumMatchAt(PageText(n, count), 0).Some? then Some(0) else None)
  {
    var t := PageText(n, count);
    PageTextChars(n, count);
    if PageNumMatchAt(t, 0).None? {
      forall i | 1 <= i <= |t|
        ensures !MatchesAt(PageNumPattern, t, i)
      {
        if i + 4 <= |t| {
          assert t[i..i + 4][0] == t[i];
        }
        assert !OccursAt(t, "Page", i);
        assert PageNumMatchAt(t, i).None?;
      }
      assert !MatchesAt(PageNumPattern, t, 0);
    }
  }

  /** "Page (n of d)" with a one-digit count d gives d pages. */
  lemma PageCountSingleDigit(n: string, d: char)
    requires IsNumeral(n) && IsDigit(d)
    ensures PageCount([PageText(n, [d])]) == Ok((d - '0') as nat)
  {
    var t := PageText(n, [d]);
    var l := |n|;
    PagePrefixRuns(n, [d]);
    PageTextLayout(n, [d]);
    assert t[10 + l] == d && t[11 + l] == ')';
    assert PageNumMatchAt(t, 0) == Some(d);
    PageTextOnlyAtStart(n, [d]);
    assert Captures([t]) == [Some(d)];
    assert [Some(d)][..0] == [];
    assert LastCount([Some(d)][..0]) == Ok(0);
    assert LastCount([Some(d)]) == Ok((d - '0') as nat);
  }

  /**
   * "Page (n of count)" with a count of two or more digits is not matched at all,
   * because the pattern captures a single character: the page count stays 0.
   */
  lemma PageCountSeveralDigits(n: string, count: string)
    requires IsNumeral(n) && IsNumeral(count) && |count| >= 2
    ensures PageCount([PageText(n, count)]) == Ok(0)
  {
    var t := PageText(n, count);
    var l := |n|;
    PagePrefixRuns(n, count);
    PageTextLayout(n, count);
    assert t[11 + l] == count[1];
    assert PageNumMatchAt(t, 0) == None;
    PageTextOnlyAtStart(n, count);
    assert Captures([t]) == [None];
    LastCountNoMatch([None]);
  }

  // ---------------------------------------------------------------- callbacks

  /** A fetched page: the texts of its right-aligned cells and its elements in document order. */
  datatype Page = Page(rightCells: seq<string>, elements: seq<Row>)

  /** What the page callbacks yield: a request for another page of the listing, or a course item. */
  datatype Output = PageRequest(page: nat) | CourseItem(item: CourseMeetingsUncategorized)

  function AsOutputs(items: seq<CourseMeetingsUncategorized>): (out: seq<Output>)
    ensures |out| == |items|
    ensures forall j :: 0 <= j < |items| ==> out[j] == CourseItem(items[j])
  {
    seq(|items|, j requires 0 <= j < |items| => CourseItem(items[j]))
  }

  /** The loop of parse over `range(2, n + 1)`: a request for each page after the first. */
  method RequestPages(n: nat) returns (requests: seq<Output>)
    ensures |requests| == if n == 0 then 0 else n - 1
    ensures forall j :: 0 <= j < |requests| ==> requests[j] == PageRequest(j + 2)
  {
    requests := [];
    var i := 2;
    while i <= n
      invariant 2 <= i && (n >= 1 ==> i <= n + 1) && (n == 0 ==> i == 2)
      invariant |requests| == i - 2
      invariant forall j :: 0 <= j < i - 2 ==> requests[j] == PageRequest(j + 2)
    {
      requests := requests + [PageRequest(i)];
      i := i + 1;
    }
  }

  /**
   * What parse yields, given what get_num_pages gave and what the page's items are:
   * nothing when the page count is 0; otherwise a request for each of pages 2 to n,
   * then the course items. An exception from get_num_pages comes before anything is
   * yielded; one from the items comes after the requests.
   */
  predicate ParseYields(count: Result<nat, Fault>, items: Yielded<CourseMeetingsUncategorized>, y: Yielded<Output>) {
    match count
    case Err(f) => y == Yielded([], Some(f))
    case Ok(n) =>
      if n == 0 then y == Yielded([], None)
      else
        && |y.values| == n - 1 + |items.values|
        && (forall i :: 0 <= i < n - 1 ==> y.values[i] == PageRequest(i + 2))
        && (forall j :: 0 <= j < |items.values| ==> y.values[n - 1 + j] == CourseItem(items.values[j]))
        && y.raised == items.raised
  }

  /** parse. */
  method Parse(quarter: string, subject: string, page: Page) returns (y: Yielded<Output>)
    ensures ParseYields(PageCount(page.rightCells), PageItems(quarter, subject, MatchingRows(page.elements)), y)
  {
    var numPages := GetNumPages(page.rightCells);
    if numPages.Err? {
      return Yielded([], Some(numPages.error));
    }
    if numPages.value == 0 {
      return Yielded([], None);
    }
    var requests := RequestPages(numPages.value);
    var tags := MatchingRows(page.elements);
    var items := CourseMeetingItems(quarter, subject, tags);
    y := Yielded(requests + AsOutputs(items.values), items.raised);
    RequestsThenItems(numPages.value, requests, items);
  }

  lemma RequestsThenItems(n: nat, requests: seq<Output>, items: Yielded<CourseMeetingsUncategorized>)
    requires n > 0 && |requests| == n - 1
    requires forall j :: 0 <= j < |requests| ==> requests[j] == PageRequest(j + 2)
    ensures ParseYields(Ok(n), items, Yielded(requests + AsOutputs(items.values), items.raised))
  {
    var out := requests + AsOutputs(items.values);
    forall j | 0 <= j < |items.values|
      ensures out[n - 1 + j] == CourseItem(items.values[j])
    {
      assert out[n - 1 + j] == AsOutputs(items.values)[j];
    }
  }

  /** parse_extra_page: the course items of a later page of the listing. */
  method ParseExtraPage(quarter: string, subject: string, page: Page) returns (y: Yielded<Output>)
    ensures var items := PageItems(quarter, subject, MatchingRows(page.elements));
      && |y.values| == |items.values|
      && (forall j :: 0 <= j < |items.values| ==> y.values[j] == CourseItem(items.values[j]))
      && y.raised == items.raised
  {
    var tags := MatchingRows(page.elements);
    var items := CourseMeetingItems(quarter, subject, tags);
    return Yielded(AsOutputs(items.values), items.raised);
  }
}
