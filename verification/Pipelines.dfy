/**
 * The two cleaning pipelines of pipelines.py. CourseCleanerPipeline sorts the
 * meetings of a course item into section, general and dated meetings and drops a
 * course with no section meeting; SubjectCleanerPipeline turns the subject list
 * into (code, name) pairs. Each passes items from the other spider through.
 */
module Pipelines {
  import opened Wrappers
  import opened Text
  import opened Errors
  import opened Patterns
  import opened Items

  /** The spider an item comes from, as far as the isinstance checks can tell. */
  datatype SpiderKind = SubjectsSpider | SubjectCoursesSpider | OtherSpider

  // ---------------------------------------------------------------- course cleaner

  /** Python truthiness of an optional text field: present and not "". */
  predicate Truthy(v: Option<string>) {
    v.Some? && v.value != ""
  }

  /** Where a meeting sits in the uncategorized item. */
  datatype Track = FirstTrack | SectxtTrack | NonenrtxtTrack

  /** A meeting together with the list it came from. */
  datatype TrackedMeeting = TrackedMeeting(track: Track, meeting: Meeting)

  /** The list a meeting goes to, and for a general meeting its `essential` flag. */
  datatype Category = Section | General(essential: bool) | Dated

  /**
   * The decision of process_item for one meeting: the first meeting and sectxt
   * meetings are section meetings when they have a sec_id and general meetings
   * otherwise (essential only for the first); a nonenrtxt meeting is dated when it
   * has a date, and otherwise general, essential when its number is the section
   * group's.
   */
  function Classify(tm: TrackedMeeting, sectionGroup: Option<string>): (c: Category)
    ensures c.Section? <==> tm.track != NonenrtxtTrack && Truthy(tm.meeting.secId)
    ensures c.Dated? <==> tm.track == NonenrtxtTrack && Truthy(tm.meeting.date)
    ensures c == General(true) <==>
      || (tm.track == FirstTrack && !Truthy(tm.meeting.secId))
      || (tm.track == NonenrtxtTrack && !Truthy(tm.meeting.date) && tm.meeting.number == sectionGroup)
  {
    match tm.track
    case FirstTrack => if Truthy(tm.meeting.secId) then Section else General(true)
    case SectxtTrack => if Truthy(tm.meeting.secId) then Section else General(false)
    case NonenrtxtTrack =>
      if Truthy(tm.meeting.date) then Dated
      else if tm.meeting.number == sectionGroup then General(true)
      else General(false)
  }

  /** The meeting as it is appended: a general meeting gets its essential flag set, the others are left as they are. */
  function Placed(m: Meeting, c: Category): (p: Meeting)
    ensures c.General? ==> p == m.(essential := Some(c.essential))
    ensures !c.General? ==> p == m
  {
    if c.General? then m.(essential := Some(c.essential)) else m
  }

  /** The three meeting lists of a CourseMeetings item. */
  datatype Lists = Lists(section: seq<Meeting>, general: seq<Meeting>, dated: seq<Meeting>)

  /** Two categories that name the same list. */
  predicate SameList(a: Category, b: Category) {
    (a.Section? && b.Section?) || (a.General? && b.General?) || (a.Dated? && b.Dated?)
  }

  /** The list of l that category kind names. */
  function ListOf(l: Lists, kind: Category): seq<Meeting> {
    match kind
    case Section => l.section
    case General(_) => l.general
    case Dated => l.dated
  }

  /** A meeting appended to the list of its category, as `add_value` on a list field does. */
  function Append(l: Lists, c: Category, m: Meeting): Lists {
    match c
    case Section => l.(section := l.section + [m])
    case General(_) => l.(general := l.general + [m])
    case Dated => l.(dated := l.dated + [m])
  }

  /** The lists after the meetings ms of one track have been classified and appended to l, in order. */
  function SortTrack(l: Lists, ms: seq<Meeting>, track: Track, sectionGroup: Option<string>): (r: Lists)
    ensures |r.section| + |r.general| + |r.dated| == |l.section| + |l.general| + |l.dated| + |ms|
    decreases |ms|
  {
    if ms == [] then l
    else
      var m := ms[|ms| - 1];
      var c := Classify(TrackedMeeting(track, m), sectionGroup);
      Append(SortTrack(l, ms[..|ms| - 1], track, sectionGroup), c, Placed(m, c))
  }

  /**
   * The meetings of one track that go to the list kind names, in their order, each
   * as it is appended. A section or dated meeting is appended as it is; a general
   * meeting has its essential flag set.
   */
  function Picked(ms: seq<Meeting>, track: Track, sectionGroup: Option<string>, kind: Category): (r: seq<Meeting>)
    ensures |r| <= |ms|
    ensures forall i :: 0 <= i < |r| ==> SameList(Classify(TrackedMeeting(track, r[i]), sectionGroup), kind)
    ensures !kind.General? ==> forall i :: 0 <= i < |r| ==> r[i] in ms
    ensures kind.General? ==> forall i :: 0 <= i < |r| ==> r[i].essential.Some?
    decreases |ms|
  {
    if ms == [] then []
    else
      var n := |ms| - 1;
      var m := ms[n];
      var c := Classify(TrackedMeeting(track, m), sectionGroup);
      var front := Picked(ms[..n], track, sectionGroup, kind);
      assert forall x :: x in ms[..n] ==> x in ms;
      if SameList(c, kind) then front + [Placed(m, c)] else front
  }

  /** Each list grows by exactly the meetings of the track that belong to it, in order. */
  lemma {:induction false} SortTrackPicks(l: Lists, ms: seq<Meeting>, track: Track, sectionGroup: Option<string>, kind: Category)
    ensures ListOf(SortTrack(l, ms, track, sectionGroup), kind) == ListOf(l, kind) + Picked(ms, track, sectionGroup, kind)
    decreases |ms|
  {
    if ms == [] {
      assert ListOf(l, kind) + [] == ListOf(l, kind);
    } else {
      var n := |ms| - 1;
      SortTrackPicks(l, ms[..n], track, sectionGroup, kind);
      var c := Classify(TrackedMeeting(track, ms[n]), sectionGroup);
      var front := SortTrack(l, ms[..n], track, sectionGroup);
      if SameList(c, kind) {
        assert ListOf(Append(front, c, Placed(ms[n], c)), kind) == ListOf(front, kind) + [Placed(ms[n], c)];
        assert ListOf(l, kind) + Picked(ms[..n], track, sectionGroup, kind) + [Placed(ms[n], c)]
          == ListOf(l, kind) + (Picked(ms[..n], track, sectionGroup, kind) + [Placed(ms[n], c)]);
      } else {
        assert ListOf(Append(front, c, Placed(ms[n], c)), kind) == ListOf(front, kind);
      }
    }
  }

  /** A list gets none of a track's meetings exactly when none of them is of its category. */
  lemma {:induction false} PickedEmptyIff(ms: seq<Meeting>, track: Track, sectionGroup: Option<string>, kind: Category)
    ensures Picked(ms, track, sectionGroup, kind) == [] <==>
      forall j :: 0 <= j < |ms| ==> !SameList(Classify(TrackedMeeting(track, ms[j]), sectionGroup), kind)
    decreases |ms|
  {
    if ms != [] {
      var n := |ms| - 1;
      PickedEmptyIff(ms[..n], track, sectionGroup, kind);
      assert forall j :: 0 <= j < n ==> ms[..n][j] == ms[j];
    }
  }

  /** Every meeting of a track goes to exactly one of the three lists. */
  lemma {:induction false} PickedPartition(ms: seq<Meeting>, track: Track, sectionGroup: Option<string>)
    ensures |Picked(ms, track, sectionGroup, Section)| + |Picked(ms, track, sectionGroup, General(false))|
      + |Picked(ms, track, sectionGroup, Dated)| == |ms|
    decreases |ms|
  {
    if ms != [] {
      PickedPartition(ms[..|ms| - 1], track, sectionGroup);
    }
  }

  /** One more meeting of a track: the step the loops of process_item take. */
  lemma SortTrackStep(l: Lists, ms: seq<Meeting>, k: nat, track: Track, sectionGroup: Option<string>)
    requires k < |ms|
    ensures var c := Classify(TrackedMeeting(track, ms[k]), sectionGroup);
      SortTrack(l, ms[..k + 1], track, sectionGroup) == Append(SortTrack(l, ms[..k], track, sectionGroup), c, Placed(ms[k], c))
  {
    assert ms[..k + 1][..k] == ms[..k];
  }

  /** add_value on a TakeFirst field: None and "" are not kept. */
  function Copy(v: Option<string>): (r: Option<string>)
    ensures v != Some("") ==> r == v
    ensures v == Some("") ==> r.None?
  {
    TakeFirst([v])
  }

  /** What CourseCleanerPipeline.process_item does with an item. */
  datatype CleanerOutcome =
    | Unchanged(item: CourseMeetingsUncategorized)   // the spider is not a SubjectCoursesSpider
    | Cleaned(course: CourseMeetings)                // the item returned
    | Dropped                                        // DropItem raised: no section meeting

  /** The lists of a course: the first meeting, then the sectxt meetings, then the nonenrtxt meetings, each appended to its list. */
  function CourseLists(item: CourseMeetingsUncategorized): Lists {
    var sectionGroup := item.firstMeeting.number;
    var l := SortTrack(Lists([], [], []), [item.firstMeeting], FirstTrack, sectionGroup);
    var l := SortTrack(l, item.sectxtMeetings, SectxtTrack, sectionGroup);
    SortTrack(l, item.nonenrtxtMeetings, NonenrtxtTrack, sectionGroup)
  }

  /** process_item for an item from the course spider. */
  function CleanCourse(item: CourseMeetingsUncategorized): CleanerOutcome {
    var l := CourseLists(item);
    if |l.section| == 0 then Dropped
    else Cleaned(CourseMeetings(
      Copy(item.quarterCode), Copy(item.subjCode), Copy(item.number), Copy(item.title),
      Copy(item.firstMeeting.number), Copy(item.firstMeeting.instructor),
      l.section, l.general, l.dated))
  }

  /** Each list of a course is the meetings of the first, sectxt and nonenrtxt tracks that belong to it, in that order. */
  lemma CourseListsPicks(item: CourseMeetingsUncategorized, kind: Category)
    ensures var sectionGroup := item.firstMeeting.number;
      ListOf(CourseLists(item), kind)
        == Picked([item.firstMeeting], FirstTrack, sectionGroup, kind)
         + Picked(item.sectxtMeetings, SectxtTrack, sectionGroup, kind)
         + Picked(item.nonenrtxtMeetings, NonenrtxtTrack, sectionGroup, kind)
  {
    var sectionGroup := item.firstMeeting.number;
    var l0 := Lists([], [], []);
    var l1 := SortTrack(l0, [item.firstMeeting], FirstTrack, sectionGroup);
    var l2 := SortTrack(l1, item.sectxtMeetings, SectxtTrack, sectionGroup);
    SortTrackPicks(l0, [item.firstMeeting], FirstTrack, sectionGroup, kind);
    SortTrackPicks(l1, item.sectxtMeetings, SectxtTrack, sectionGroup, kind);
    SortTrackPicks(l2, item.nonenrtxtMeetings, NonenrtxtTrack, sectionGroup, kind);
    assert ListOf(l0, kind) == [];
  }

  /** Only the first and sectxt meetings can be section meetings, and only nonenrtxt meetings can be dated. */
  lemma TracksKeepToTheirLists(item: CourseMeetingsUncategorized)
    ensures var sectionGroup := item.firstMeeting.number;
      && Picked(item.nonenrtxtMeetings, NonenrtxtTrack, sectionGroup, Section) == []
      && Picked([item.firstMeeting], FirstTrack, sectionGroup, Dated) == []
      && Picked(item.sectxtMeetings, SectxtTrack, sectionGroup, Dated) == []
  {
    var sectionGroup := item.firstMeeting.number;
    PickedEmptyIff(item.nonenrtxtMeetings, NonenrtxtTrack, sectionGroup, Section);
    PickedEmptyIff([item.firstMeeting], FirstTrack, sectionGroup, Dated);
    PickedEmptyIff(item.sectxtMeetings, SectxtTrack, sectionGroup, Dated);
  }

  /**
   * A course is dropped exactly when neither its first meeting nor any of its
   * sectxt meetings has a sec_id: the scheduler has nothing to enrol in.
   */
  lemma CleanCourseDroppedIff(item: CourseMeetingsUncategorized)
    ensures CleanCourse(item) == Dropped <==>
      && !Truthy(item.firstMeeting.secId)
      && forall j :: 0 <= j < |item.sectxtMeetings| ==> !Truthy(item.sectxtMeetings[j].secId)
  {
    var sectionGroup := item.firstMeeting.number;
    CourseListsPicks(item, Section);
    TracksKeepToTheirLists(item);
    PickedEmptyIff([item.firstMeeting], FirstTrack, sectionGroup, Section);
    PickedEmptyIff(item.sectxtMeetings, SectxtTrack, sectionGroup, Section);
    assert [item.firstMeeting][0] == item.firstMeeting;
  }

  /**
   * What a cleaned course holds: the header fields copied, the section group and
   * instructor of the first meeting, the section meetings taken unchanged from the
   * first and sectxt meetings, the dated meetings unchanged from the nonenrtxt
   * meetings, every other meeting a general meeting with its essential flag set,
   * and every meeting of the item in exactly one list.
   */
  lemma CleanCourseCleaned(item: CourseMeetingsUncategorized)
    requires CleanCourse(item).Cleaned?
    ensures var c := CleanCourse(item).course; var sectionGroup := item.firstMeeting.number;
      && c.quarterCode == Copy(item.quarterCode) && c.subjCode == Copy(item.subjCode)
      && c.number == Copy(item.number) && c.title == Copy(item.title)
      && c.sectionGroupCode == Copy(sectionGroup) && c.instructor == Copy(item.firstMeeting.instructor)
      && |c.sectionMeetings| > 0
      && c.sectionMeetings == Picked([item.firstMeeting], FirstTrack, sectionGroup, Section)
                            + Picked(item.sectxtMeetings, SectxtTrack, sectionGroup, Section)
      && c.generalMeetings == Picked([item.firstMeeting], FirstTrack, sectionGroup, General(false))
                            + Picked(item.sectxtMeetings, SectxtTrack, sectionGroup, General(false))
                            + Picked(item.nonenrtxtMeetings, NonenrtxtTrack, sectionGroup, General(false))
      && c.datedMeetings == Picked(item.nonenrtxtMeetings, NonenrtxtTrack, sectionGroup, Dated)
      && |c.sectionMeetings| + |c.generalMeetings| + |c.datedMeetings|
         == 1 + |item.sectxtMeetings| + |item.nonenrtxtMeetings|
  {
    var sectionGroup := item.firstMeeting.number;
    CourseListsPicks(item, Section);
    CourseListsPicks(item, General(false));
    CourseListsPicks(item, Dated);
    TracksKeepToTheirLists(item);
    PickedPartition([item.firstMeeting], FirstTrack, sectionGroup);
    PickedPartition(item.sectxtMeetings, SectxtTrack, sectionGroup);
    PickedPartition(item.nonenrtxtMeetings, NonenrtxtTrack, sectionGroup);
  }

  /** The first meeting opens its list: the section list when it has a sec_id, else the general list, as an essential meeting. */
  lemma FirstMeetingLeads(item: CourseMeetingsUncategorized)
    requires CleanCourse(item).Cleaned?
    ensures var c := CleanCourse(item).course; var m := item.firstMeeting;
      if Truthy(m.secId) then |c.sectionMeetings| > 0 && c.sectionMeetings[0] == m
      else |c.generalMeetings| > 0 && c.generalMeetings[0] == m.(essential := Some(true))
  {
    var sectionGroup := item.firstMeeting.number;
    CleanCourseCleaned(item);
    var m := item.firstMeeting;
    assert [m][..0] == [];
    if Truthy(m.secId) {
      assert Picked([m], FirstTrack, sectionGroup, Section) == [m];
    } else {
      assert Picked([m], FirstTrack, sectionGroup, General(false)) == [m.(essential := Some(true))];
    }
  }

  /** The loop over the sectxt meetings: a meeting with a sec_id is a section meeting, any other a general one that is not essential. */
  method SortSectxt(section0: seq<Meeting>, general0: seq<Meeting>, dated0: seq<Meeting>, sectxt: seq<Meeting>, sectionGroup: Option<string>)
    returns (section: seq<Meeting>, general: seq<Meeting>, dated: seq<Meeting>)
    ensures Lists(section, general, dated) == SortTrack(Lists(section0, general0, dated0), sectxt, SectxtTrack, sectionGroup)
  {
    ghost var l := Lists(section0, general0, dated0);
    section, general, dated := section0, general0, dated0;
    assert sectxt[..0] == [];
    for i := 0 to |sectxt|
      invariant Lists(section, general, dated) == SortTrack(l, sectxt[..i], SectxtTrack, sectionGroup)
    {
      var m := sectxt[i];
      if Truthy(m.secId) {
        section := section + [m];
      } else {
        general := general + [m.(essential := Some(false))];
      }
      SortTrackStep(l, sectxt, i, SectxtTrack, sectionGroup);
    }
    assert sectxt[..|sectxt|] == sectxt;
  }

  /**
   * The loop over the nonenrtxt meetings: a meeting with a date is a dated meeting;
   * any other is a general meeting, essential when its number is the section group's.
   */
  method SortNonenrtxt(section0: seq<Meeting>, general0: seq<Meeting>, dated0: seq<Meeting>, nonenrtxt: seq<Meeting>, sectionGroup: Option<string>)
    returns (section: seq<Meeting>, general: seq<Meeting>, dated: seq<Meeting>)
    ensures Lists(section, general, dated) == SortTrack(Lists(section0, general0, dated0), nonenrtxt, NonenrtxtTrack, sectionGroup)
  {
    ghost var l := Lists(section0, general0, dated0);
    section, general, dated := section0, general0, dated0;
    assert nonenrtxt[..0] == [];
    for i := 0 to |nonenrtxt|
      invariant Lists(section, general, dated) == SortTrack(l, nonenrtxt[..i], NonenrtxtTrack, sectionGroup)
    {
      var m := nonenrtxt[i];
      if Truthy(m.date) {
        dated := dated + [m];
      } else if m.number == sectionGroup {
        general := general + [m.(essential := Some(true))];
      } else {
        general := general + [m.(essential := Some(false))];
      }
      SortTrackStep(l, nonenrtxt, i, NonenrtxtTrack, sectionGroup);
    }
    assert nonenrtxt[..|nonenrtxt|] == nonenrtxt;
  }

  /**
   * CourseCleanerPipeline.process_item: an item from another spider passes
   * through; a course item has its meetings sorted, one track after the other,
   * and is dropped when no section meeting results.
   */
  method ProcessCourseItem(item: CourseMeetingsUncategorized, spider: SpiderKind) returns (r: CleanerOutcome)
    ensures spider != SubjectCoursesSpider ==> r == Unchanged(item)
    ensures spider == SubjectCoursesSpider ==> r == CleanCourse(item)
  {
    if spider != SubjectCoursesSpider {
      return Unchanged(item);
    }
    var sectionGroup := item.firstMeeting.number;
    var instructor := item.firstMeeting.instructor;
    var section, general, dated := [], [], [];

    var first := item.firstMeeting;
    if Truthy(first.secId) {
      section := section + [first];
    } else {
      general := general + [first.(essential := Some(true))];
    }
    SortTrackStep(Lists([], [], []), [first], 0, FirstTrack, sectionGroup);
    assert [first][..1] == [first] && [first][..0] == [];

    section, general, dated := SortSectxt(section, general, dated, item.sectxtMeetings, sectionGroup);
    section, general, dated := SortNonenrtxt(section, general, dated, item.nonenrtxtMeetings, sectionGroup);

    if |section| == 0 {
      return Dropped;
    }
    r := Cleaned(CourseMeetings(
      Copy(item.quarterCode), Copy(item.subjCode), Copy(item.number), Copy(item.title),
      Copy(sectionGroup), Copy(instructor), section, general, dated));
  }

  // --------------------------------------------------------------- subject cleaner

  /** One entry of the subjects item: the option's code and its display text "CODE - Name". */
  datatype SubjectEntry = SubjectEntry(code: string, value: string)

  /** One cleaned entry: the code and the subject's name. */
  datatype SubjectName = SubjectName(code: string, name: string)

  /** What SubjectCleanerPipeline.process_item does with an item. */
  datatype SubjectOutcome =
    | PassedThrough                              // the spider is not a SubjectsSpider: the item is returned as it is
    | Saved(names: seq<SubjectName>)             // the cleaned list handed to the database, and the success message returned
    | Failed(fault: Fault)                       // an exception leaves process_item

  /**
   * The subject name in an entry's display text: the group of `[A-Z]+\s+-(.*)` at
   * its leftmost match, stripped; a text the pattern does not match makes
   * `.group` fail on None.
   */
  function SubjectNameOf(value: string): (r: Result<string, Fault>)
    ensures r.Err? ==> r.error == NoSubjectName(value)
    ensures r.Ok? ==> r.value == [] || (!IsSpace(r.value[0]) && !IsSpace(r.value[|r.value| - 1]))
  {
    match Search(SubjectNamePattern, value, 0)
    case None => Err(NoSubjectName(value))
    case Some(i) => Ok(Strip(SubjectNameMatchAt(value, i).value))
  }

  /** An entry fails exactly when the pattern matches nowhere in its display text. */
  lemma SubjectNameOfFailsIff(value: string)
    ensures SubjectNameOf(value).Err? <==> forall i :: 0 <= i <= |value| ==> !MatchesAt(SubjectNamePattern, value, i)
  {
  }

  /** Where the parts of "CODE - Name" sit. */
  lemma EntryLayout(code: string, name: string)
    ensures var t := code + " - " + name; var n := |code|;
      && |t| == n + 3 + |name|
      && (forall i :: 0 <= i < n ==> t[i] == code[i])
      && t[n] == ' ' && t[n + 1] == '-'
      && t[n + 2..] == " " + name
  {
    var t := code + " - " + name;
    assert t == code + (" - " + name);
  }

  /** Nothing after the dash of "CODE - Name" ends the line when the name does not. */
  lemma EntryRestRuns(code: string, name: string)
    requires forall i :: 0 <= i < |name| ==> name[i] != '\n'
    ensures var t := code + " - " + name; RunEnd(t, |code| + 2, NotNewline) == |t|
  {
    var t := code + " - " + name;
    var n := |code|;
    EntryLayout(code, name);
    var rest := " " + name;
    forall m | n + 2 <= m < |t|
      ensures InClass(t[m], NotNewline)
    {
      assert t[m] == t[n + 2..][m - n - 2] == rest[m - n - 2];
    }
    RunEndAt(t, n + 2, |t|, NotNewline);
  }

  /** The pattern reads "CODE - Name" from its start, capturing the text after the dash. */
  lemma SubjectNameMatchesEntry(code: string, name: string)
    requires |code| > 0 && forall i :: 0 <= i < |code| ==> IsUpper(code[i])
    requires forall i :: 0 <= i < |name| ==> name[i] != '\n'
    ensures SubjectNameMatchAt(code + " - " + name, 0) == Some(" " + name)
  {
    var t := code + " - " + name;
    var n := |code|;
    EntryLayout(code, name);
    RunEndAt(t, 0, n, Upper);
    RunEndAt(t, n, n + 1, Space);
    EntryRestRuns(code, name);
    assert t[n + 2..|t|] == " " + name;
  }

  /** A display text built as "CODE - Name" gives back the name, whatever the spaces around it. */
  lemma SubjectNameRoundTrip(code: string, name: string)
    requires |code| > 0 && forall i :: 0 <= i < |code| ==> IsUpper(code[i])
    requires forall i :: 0 <= i < |name| ==> name[i] != '\n'
    ensures SubjectNameOf(code + " - " + name) == Ok(Strip(name))
  {
    var t := code + " - " + name;
    SubjectNameMatchesEntry(code, name);
    assert MatchesAt(SubjectNamePattern, t, 0);
    assert Search(SubjectNamePattern, t, 0) == Some(0);
    TrimStartPad(" ", name);
  }

  /** One entry cleaned: its stripped code with the name read from its display text. */
  function CleanEntry(e: SubjectEntry): (r: Result<SubjectName, Fault>)
    ensures r.Ok? <==> SubjectNameOf(e.value).Ok?
    ensures r.Ok? ==> r.value == SubjectName(Strip(e.code), SubjectNameOf(e.value).value)
    ensures r.Err? ==> r == Err(NoSubjectName(e.value))
  {
    var name :- SubjectNameOf(e.value);
    Ok(SubjectName(Strip(e.code), name))
  }

  /** Each entry cleaned on its own. */
  function EntryResults(entries: seq<SubjectEntry>): (rs: seq<Result<SubjectName, Fault>>)
    ensures |rs| == |entries|
    ensures forall i :: 0 <= i < |entries| ==> rs[i] == CleanEntry(entries[i])
  {
    seq(|entries|, i requires 0 <= i < |entries| => CleanEntry(entries[i]))
  }

  /** The cleaned entries in order, or the first failure. */
  function CleanAll(rs: seq<Result<SubjectName, Fault>>): (r: Result<seq<SubjectName>, Fault>)
    ensures r.Ok? ==> |r.value| == |rs| && forall i :: 0 <= i < |rs| ==> rs[i] == Ok(r.value[i])
    ensures r.Ok? <==> forall i :: 0 <= i < |rs| ==> rs[i].Ok?
    decreases |rs|
  {
    if rs == [] then Ok([])
    else
      var n := |rs| - 1;
      assert forall i :: 0 <= i < n ==> rs[..n][i] == rs[i];
      match CleanAll(rs[..n])
      case Err(f) => Err(f)
      case Ok(names) =>
        match rs[n]
        case Err(f) => Err(f)
        case Ok(name) => Ok(names + [name])
  }

  /** A failure is the failure of the first entry that fails. */
  lemma {:induction false} CleanAllFirstFailure(rs: seq<Result<SubjectName, Fault>>)
    requires CleanAll(rs).Err?
    ensures exists j :: 0 <= j < |rs| && rs[j] == Err(CleanAll(rs).error) && (forall i :: 0 <= i < j ==> rs[i].Ok?)
    decreases |rs|
  {
    var n := |rs| - 1;
    assert forall i :: 0 <= i < n ==> rs[..n][i] == rs[i];
    if CleanAll(rs[..n]).Err? {
      CleanAllFirstFailure(rs[..n]);
      var j :| 0 <= j < n && rs[..n][j] == Err(CleanAll(rs[..n]).error) && (forall i :: 0 <= i < j ==> rs[..n][i].Ok?);
      assert rs[j] == Err(CleanAll(rs).error);
    } else {
      assert rs[n] == Err(CleanAll(rs).error);
    }
  }

  /** The cleaned list of entries, or the failure of the first entry whose display text has no name. */
  function CleanSubjects(entries: seq<SubjectEntry>): (r: Result<seq<SubjectName>, Fault>)
  {
    CleanAll(EntryResults(entries))
  }

  /**
   * Cleaning succeeds exactly when every entry has a name, and then pairs each
   * stripped code with its name, in order; otherwise it fails on the first entry
   * without one.
   */
  lemma CleanSubjectsMeaning(entries: seq<SubjectEntry>)
    ensures CleanSubjects(entries).Ok? <==> forall i :: 0 <= i < |entries| ==> SubjectNameOf(entries[i].value).Ok?
    ensures CleanSubjects(entries).Ok? ==>
      && |CleanSubjects(entries).value| == |entries|
      && forall i :: 0 <= i < |entries| ==>
           CleanSubjects(entries).value[i] == SubjectName(Strip(entries[i].code), SubjectNameOf(entries[i].value).value)
    ensures CleanSubjects(entries).Err? ==>
      exists j :: 0 <= j < |entries| && CleanSubjects(entries).error == NoSubjectName(entries[j].value) &&
        (forall i :: 0 <= i < j ==> SubjectNameOf(entries[i].value).Ok?)
  {
    var rs := EntryResults(entries);
    if CleanSubjects(entries).Ok? {
      forall i | 0 <= i < |entries|
        ensures CleanSubjects(entries).value[i] == SubjectName(Strip(entries[i].code), SubjectNameOf(entries[i].value).value)
      {
        assert rs[i] == Ok(CleanSubjects(entries).value[i]);
      }
    } else {
      CleanAllFirstFailure(rs);
    }
  }

  /** Once an entry has failed, no later entry changes the outcome. */
  lemma {:induction false} CleanAllStops(rs: seq<Result<SubjectName, Fault>>, k: nat)
    requires k <= |rs| && CleanAll(rs[..k]).Err?
    ensures CleanAll(rs) == CleanAll(rs[..k])
    decreases |rs| - k
  {
    if k < |rs| {
      var n := |rs| - 1;
      assert rs[..n][..k] == rs[..k];
      CleanAllStops(rs[..n], k);
    } else {
      assert rs[..k] == rs;
    }
  }

  /** One more entry: the step of the loop in process_item. */
  lemma CleanAllStep(rs: seq<Result<SubjectName, Fault>>, k: nat)
    requires k < |rs| && CleanAll(rs[..k]).Ok?
    ensures CleanAll(rs[..k + 1]) ==
      match rs[k]
      case Err(f) => Err(f)
      case Ok(name) => Ok(CleanAll(rs[..k]).value + [name])
  {
    assert rs[..k + 1][..k] == rs[..k];
  }

  /**
   * SubjectCleanerPipeline.process_item: an item from another spider passes
   * through; for the subjects spider, a missing list cannot be iterated, and
   * otherwise every entry is cleaned in order, the first failing one ending the call.
   */
  method ProcessSubjects(entries: Option<seq<SubjectEntry>>, spider: SpiderKind) returns (r: SubjectOutcome)
    ensures spider != SubjectsSpider ==> r == PassedThrough
    ensures spider == SubjectsSpider && entries.None? ==> r == Failed(NotIterable)
    ensures spider == SubjectsSpider && entries.Some? ==>
      match CleanSubjects(entries.value)
      case Ok(names) => r == Saved(names)
      case Err(f) => r == Failed(f)
  {
    if spider != SubjectsSpider {
      return PassedThrough;
    }
    if entries.None? {
      return Failed(NotIterable);
    }
    var scvs := entries.value;
    ghost var rs := EntryResults(scvs);
    var names: seq<SubjectName> := [];
    for k := 0 to |scvs|
      invariant CleanAll(rs[..k]) == Ok(names)
    {
      var code := Strip(scvs[k].code);
      var name := SubjectNameOf(scvs[k].value);
      CleanAllStep(rs, k);
      if name.Err? {
        CleanAllStops(rs, k + 1);
        return Failed(name.error);
      }
      names := names + [SubjectName(code, name.value)];
    }
    assert rs[..|scvs|] == rs;
    r := Saved(names);
  }
}
