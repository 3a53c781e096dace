/**
 * The records of items.py and the effect of their loaders' processors: a
 * scalar field keeps the first value that is neither None nor "", text fields
 * are stripped (and for a meeting's free-text cells made absent when blank),
 * and a list field keeps every item added to it, in order. A field that was
 * never given a value is absent (`None`); an absent list field reads as `[]`
 * wherever the program looks at it with `.get(field, [])`.
 */
module Items {
  import opened Wrappers
  import opened Text
  import opened Parsers

  /** filter_empty_string: "" becomes None, anything else is kept. */
  function FilterEmptyString(s: string): (r: Option<string>)
    ensures r.None? <==> s == ""
    ensures r.Some? ==> r.value == s
  {
    if s == "" then None else Some(s)
  }

  /** TakeFirst: the first collected value that is neither None nor "". */
  function TakeFirst(values: seq<Option<string>>): (r: Option<string>)
    ensures r.Some? ==> Some(r.value) in values && r.value != ""
    ensures r.None? <==> forall i :: 0 <= i < |values| ==> values[i] == None || values[i] == Some("")
  {
    if values == [] then None
    else if values[0].Some? && values[0].value != "" then values[0]
    else TakeFirst(values[1..])
  }

  /** A later value never displaces the first non-empty one: what was added first wins. */
  lemma {:induction false} TakeFirstAppend(a: seq<Option<string>>, b: seq<Option<string>>)
    ensures TakeFirst(a + b) == if TakeFirst(a).Some? then TakeFirst(a) else TakeFirst(b)
  {
    if a != [] {
      assert (a + b)[0] == a[0];
      assert (a + b)[1..] == a[1..] + b;
      TakeFirstAppend(a[1..], b);
    } else {
      assert a + b == b;
    }
  }

  /**
   * The input processor `MapCompose(str.strip, filter_empty_string)` of sec_id, bldg,
   * room and instructor, followed by TakeFirst: the stripped cell text, absent when blank.
   */
  function MeetingText(cell: string): (r: Option<string>)
    ensures r.None? <==> Strip(cell) == ""
    ensures r.Some? ==> r.value == Strip(cell) && r.value != ""
  {
    TakeFirst(match FilterEmptyString(Strip(cell)) case None => [] case Some(s) => [Some(s)])
  }

  /** The input processor `MapCompose(str.strip)` of the course header fields, followed by TakeFirst. */
  function HeaderText(text: string): (r: Option<string>)
    ensures r.Some? ==> r.value == Strip(text)
  {
    TakeFirst([Some(Strip(text))])
  }

  /** The header fields lose a blank value at TakeFirst rather than at an input processor: the effect is the same. */
  lemma HeaderTextIsMeetingText(text: string)
    ensures HeaderText(text) == MeetingText(text)
  {
    assert [Some(Strip(text))][0] == Some(Strip(text));
  }

  /** A value that comes out of a loader field never is the empty string. */
  lemma MeetingTextNeverEmpty(cell: string)
    ensures MeetingText(cell) != Some("")
  {
  }

  /** MeetingUncategorized: one row of a course block, not yet sorted into section, general or dated. */
  datatype Meeting = Meeting(
    secId: Option<string>,
    meetingType: Option<string>,
    number: Option<string>,
    date: Option<string>,
    days: Option<string>,
    startTime: Option<Time>,
    endTime: Option<Time>,
    bldg: Option<string>,
    room: Option<string>,
    instructor: Option<string>,
    seatsAvail: Option<nat>,
    essential: Option<bool>)

  /** A meeting with no field set: an item before its loader has been given anything. */
  const EmptyMeeting := Meeting(None, None, None, None, None, None, None, None, None, None, None, None)

  /** CourseMeetingsUncategorized: a course header and the meetings of its block. */
  datatype CourseMeetingsUncategorized = CourseMeetingsUncategorized(
    quarterCode: Option<string>,
    subjCode: Option<string>,
    number: Option<string>,
    title: Option<string>,
    firstMeeting: Meeting,
    sectxtMeetings: seq<Meeting>,
    nonenrtxtMeetings: seq<Meeting>)

  /** CourseMeetings: a course whose meetings are sorted into section, general and dated. */
  datatype CourseMeetings = CourseMeetings(
    quarterCode: Option<string>,
    subjCode: Option<string>,
    number: Option<string>,
    title: Option<string>,
    sectionGroupCode: Option<string>,
    instructor: Option<string>,
    sectionMeetings: seq<Meeting>,
    generalMeetings: seq<Meeting>,
    datedMeetings: seq<Meeting>)
}
