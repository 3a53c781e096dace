/**
 * The cell parsers of subject_courses_spider.py (lines 45-124), which utils.py
 * (lines 39-118) repeats word for word: each strips its text and either returns
 * a typed value or raises a ScraperError naming the field.
 */
module Parsers {
  import opened Wrappers
  import opened Text
  import opened Errors
  import opened Patterns

  /** A datetime.time built from an hour and a minute (its second is always 0). */
  datatype Time = Time(hour: nat, minute: nat)

  /** The range datetime.time accepts. */
  predicate ValidTime(t: Time) {
    t.hour < 24 && t.minute < 60
  }

  /** datetime.time(hour, minute): a ValueError outside the clock's range. */
  function MakeTime(hour: nat, minute: nat): (r: Result<Time, Fault>)
    ensures r.Ok? <==> hour < 24 && minute < 60
    ensures r.Ok? ==> ValidTime(r.value) && r.value == Time(hour, minute)
    ensures r.Err? ==> r.error == TimeOutOfRange(hour, minute)
  {
    if hour < 24 && minute < 60 then Ok(Time(hour, minute)) else Err(TimeOutOfRange(hour, minute))
  }

  // ---------------------------------------------------------------- days

  /** One or more day tokens written back to back: the strings `(M|Tu|W|Th|F|S)+` matches in full. */
  predicate IsDaysWord(s: string)
    decreases |s|
  {
    match DayAt(s, 0)
    case None => false
    case Some(tok) => |tok| == |s| || IsDaysWord(s[|tok|..])
  }

  /** The greedy repetition `(M|Tu|W|Th|F|S)+` from position i: where it stops. */
  function DaysEnd(t: string, i: nat): (j: nat)
    requires i <= |t|
    ensures i <= j <= |t|
    ensures DayAt(t, j).None?
    ensures DayAt(t, i).Some? ==> i + |DayAt(t, i).value| <= j
    ensures DayAt(t, i).None? ==> j == i
    decreases |t| - i
  {
    match DayAt(t, i)
    case None => i
    case Some(tok) => DaysEnd(t, i + |tok|)
  }

  /** A suffix starts with the token the whole text has at that position. */
  lemma DayAtSuffix(t: string, i: nat)
    requires i <= |t|
    ensures DayAt(t[i..], 0) == DayAt(t, i)
  {
  }

  /** A slice that keeps the whole token at its start still starts with that token. */
  lemma DayAtSlice(t: string, i: nat, j: nat)
    requires i <= j <= |t| && DayAt(t, i).Some? && i + |DayAt(t, i).value| <= j
    ensures DayAt(t[i..j], 0) == DayAt(t, i)
  {
  }

  /** What the greedy run consumes is a word of day tokens. */
  lemma {:induction false} DaysEndWord(t: string, i: nat)
    requires i <= |t| && DayAt(t, i).Some?
    ensures IsDaysWord(t[i..DaysEnd(t, i)])
    decreases |t| - i
  {
    var tok := DayAt(t, i).value;
    var j := DaysEnd(t, i);
    var s := t[i..j];
    DayAtSlice(t, i, j);
    if |tok| < |s| {
      assert j == DaysEnd(t, i + |tok|);
      assert s[|tok|..] == t[i + |tok|..j];
      DaysEndWord(t, i + |tok|);
    }
  }

  /** The `(M|Tu|W|Th|F|S)+` search: the leftmost, longest run of day tokens in t. */
  function FindDays(t: string): (r: Option<string>)
    ensures r.Some? ==> IsDaysWord(r.value) && Contains(t, r.value)
  {
    match Search(DaysPattern, t, 0)
    case None => None
    case Some(p) =>
      DaysEndWord(t, p);
      assert OccursAt(t, t[p..DaysEnd(t, p)], p);
      Some(t[p..DaysEnd(t, p)])
  }

  /** parse_days: the days of the week named in the stripped text. */
  function ParseDays(txt: string): (r: Result<string, Fault>)
    ensures r.Ok? ==> IsDaysWord(r.value) && Contains(Strip(txt), r.value)
    ensures r.Err? ==> r.error == ScraperError(Unparsable(Days, Strip(txt)))
  {
    var t := Strip(txt);
    match FindDays(t)
    case None => Err(ScraperError(Unparsable(Days, t)))
    case Some(w) => Ok(w)
  }

  /** `w` is matched at p: it starts there, no day token starts before p, and none follows w. */
  predicate LeftmostLongestDays(t: string, w: string, p: nat) {
    && OccursAt(t, w, p)
    && (forall j :: 0 <= j < p ==> DayAt(t, j).None?)
    && DayAt(t, p + |w|).None?
  }

  /** No day token starts before the position the search stops at. */
  lemma NoDayBefore(t: string)
    requires Search(DaysPattern, t, 0).Some?
    ensures forall j :: 0 <= j < Search(DaysPattern, t, 0).value ==> DayAt(t, j).None?
  {
    var p := Search(DaysPattern, t, 0).value;
    forall j | 0 <= j < p
      ensures DayAt(t, j).None?
    {
      assert !MatchesAt(DaysPattern, t, j);
    }
  }

  /** The search's result is the run of day tokens that starts where the search stopped. */
  lemma FindDaysLeftmostLongest(t: string)
    requires FindDays(t).Some?
    ensures LeftmostLongestDays(t, FindDays(t).value, Search(DaysPattern, t, 0).value)
  {
    var p := Search(DaysPattern, t, 0).value;
    NoDayBefore(t);
    var j := DaysEnd(t, p);
    var w := t[p..j];
    assert FindDays(t) == Some(w);
    assert p + |w| == j && OccursAt(t, w, p);
  }

  /** parse_days returns the leftmost run of day tokens, taken as far as it goes. */
  lemma ParseDaysLeftmostLongest(txt: string)
    requires ParseDays(txt).Ok?
    ensures exists p :: LeftmostLongestDays(Strip(txt), ParseDays(txt).value, p)
  {
    var t := Strip(txt);
    FindDaysLeftmostLongest(t);
    assert LeftmostLongestDays(t, ParseDays(txt).value, Search(DaysPattern, t, 0).value);
  }

  /** The recogniser of a token alternation, and its alternatives. */
  predicate TokenPattern(p: Pattern, toks: seq<string>) {
    (p == DaysPattern && toks == DayTokens) || (p == MeetingTypePattern && toks == TypeCodes)
  }

  /** A token alternation matches at i exactly when one of its alternatives occurs at i. */
  lemma TokenMatchAt(p: Pattern, toks: seq<string>, t: string, i: nat)
    requires TokenPattern(p, toks) && i <= |t|
    ensures MatchesAt(p, t, i) <==> exists w :: w in toks && OccursAt(t, w, i)
  {
    if w :| w in toks && OccursAt(t, w, i) {
      assert w[0] == t[i];
      if |w| == 2 {
        assert w[1] == t[i + 1] && t[i..i + 2] == w;
      }
    }
  }

  /** A search for a token alternation succeeds exactly when one of the alternatives occurs somewhere. */
  lemma TokenSearchIff(p: Pattern, toks: seq<string>, t: string)
    requires TokenPattern(p, toks)
    ensures Search(p, t, 0).Some? <==> exists w :: w in toks && Contains(t, w)
  {
    match Search(p, t, 0)
    case Some(i) =>
      TokenMatchAt(p, toks, t, i);
      var w :| w in toks && OccursAt(t, w, i);
      assert Contains(t, w);
    case None =>
      forall w | w in toks
        ensures !Contains(t, w)
      {
        forall i: nat | i <= |t|
          ensures !OccursAt(t, w, i)
        {
          assert !MatchesAt(p, t, i);
          TokenMatchAt(p, toks, t, i);
        }
      }
  }

  /** parse_days fails exactly when no day token occurs anywhere in the stripped text. */
  lemma ParseDaysSucceedsIff(txt: string)
    ensures ParseDays(txt).Ok? <==> exists w :: w in DayTokens && Contains(Strip(txt), w)
  {
    var t := Strip(txt);
    TokenSearchIff(DaysPattern, DayTokens, t);
    assert ParseDays(txt).Ok? <==> FindDays(t).Some?;
  }

  /** A word of day tokens starts with the first letter of a token and ends with the last letter of one. */
  lemma {:induction false} DaysWordEnds(s: string)
    requires IsDaysWord(s)
    ensures IsUpper(s[0]) && IsLetter(s[|s| - 1])
    decreases |s|
  {
    var tok := DayAt(s, 0).value;
    if |tok| < |s| {
      DaysWordEnds(s[|tok|..]);
      assert s[|s| - 1] == s[|tok|..][|s| - |tok| - 1];
    }
  }

  /** From a position where a word of day tokens begins, the greedy run consumes all of it. */
  lemma {:induction false} DaysEndCovers(t: string, i: nat)
    requires i <= |t| && IsDaysWord(t[i..])
    ensures DaysEnd(t, i) == |t|
    decreases |t| - i
  {
    var s := t[i..];
    DayAtSuffix(t, i);
    var tok := DayAt(t, i).value;
    if |tok| < |s| {
      assert t[i + |tok|..] == s[|tok|..];
      DaysEndCovers(t, i + |tok|);
    }
  }

  /** A word of day tokens has nothing for strip() to remove. */
  lemma DaysWordStripped(s: string)
    requires IsDaysWord(s)
    ensures Strip(s) == s
  {
    DaysWordEnds(s);
    StripUnchanged(s);
  }

  /** The search finds a whole word of day tokens. */
  lemma FindDaysWord(s: string)
    requires IsDaysWord(s)
    ensures FindDays(s) == Some(s)
  {
    assert DayAt(s, 0).Some?;
    assert Search(DaysPattern, s, 0) == Some(0);
    assert s[0..] == s;
    DaysEndCovers(s, 0);
    assert s[0..DaysEnd(s, 0)] == s;
  }

  /** Round trip: a word of day tokens parses to itself. */
  lemma ParseDaysRoundTrip(s: string)
    requires IsDaysWord(s)
    ensures ParseDays(s) == Ok(s)
  {
    DaysWordStripped(s);
    FindDaysWord(s);
  }

  // ---------------------------------------------------------------- meeting type

  /** The meeting-type search: the leftmost code in t. */
  function FindMeetingType(t: string): (r: Option<string>)
    ensures r.Some? ==> r.value in TypeCodes && Contains(t, r.value)
  {
    match Search(MeetingTypePattern, t, 0)
    case None => None
    case Some(p) => TypeAt(t, p)
  }

  /** parse_meeting_type: the meeting-type code in the stripped text. */
  function ParseMeetingType(txt: string): (r: Result<string, Fault>)
    ensures r.Ok? ==> r.value in TypeCodes && Contains(Strip(txt), r.value)
    ensures r.Err? ==> r.error == ScraperError(Unparsable(MeetingType, Strip(txt)))
  {
    var t := Strip(txt);
    match FindMeetingType(t)
    case None => Err(ScraperError(Unparsable(MeetingType, t)))
    case Some(w) => Ok(w)
  }

  /** `w` occurs at p and no code starts before p. */
  predicate LeftmostCode(t: string, w: string, p: nat) {
    OccursAt(t, w, p) && forall j :: 0 <= j < p ==> TypeAt(t, j).None?
  }

  lemma FindMeetingTypeLeftmost(t: string)
    requires FindMeetingType(t).Some?
    ensures exists p :: LeftmostCode(t, FindMeetingType(t).value, p)
  {
    var p := Search(MeetingTypePattern, t, 0).value;
    forall j | 0 <= j < p
      ensures TypeAt(t, j).None?
    {
      assert !MatchesAt(MeetingTypePattern, t, j);
    }
    assert LeftmostCode(t, FindMeetingType(t).value, p);
  }

  /** parse_meeting_type fails exactly when no code occurs in the stripped text, and otherwise returns the leftmost one. */
  lemma ParseMeetingTypeSucceedsIff(txt: string)
    ensures ParseMeetingType(txt).Ok? <==> exists w :: w in TypeCodes && Contains(Strip(txt), w)
    ensures ParseMeetingType(txt).Ok? ==> exists p :: LeftmostCode(Strip(txt), ParseMeetingType(txt).value, p)
  {
    var t := Strip(txt);
    TokenSearchIff(MeetingTypePattern, TypeCodes, t);
    assert ParseMeetingType(txt).Ok? <==> FindMeetingType(t).Some?;
    if FindMeetingType(t).Some? {
      FindMeetingTypeLeftmost(t);
    }
  }

  /** A code is two capital letters, so strip() leaves it alone. */
  lemma TypeCodeStripped(code: string)
    requires code in TypeCodes
    ensures Strip(code) == code
  {
    assert |code| == 2 && IsUpper(code[0]) && IsUpper(code[1]);
    StripUnchanged(code);
  }

  /** Round trip: every code parses to itself. */
  lemma ParseMeetingTypeRoundTrip(code: string)
    requires code in TypeCodes
    ensures ParseMeetingType(code) == Ok(code)
  {
    TypeCodeStripped(code);
    FindMeetingTypeCode(code);
  }

  /** The search finds a code at its start. */
  lemma FindMeetingTypeCode(code: string)
    requires code in TypeCodes
    ensures FindMeetingType(code) == Some(code)
  {
    assert |code| == 2;
    assert code[0..2] == code;
    assert TypeAt(code, 0) == Some(code);
    assert MatchesAt(MeetingTypePattern, code, 0);
  }

  // ---------------------------------------------------------------- section number

  /** `^([A-Z][0-9]{2}|[0-9]{3})$`, applied to stripped text. */
  predicate IsSectionNumber(t: string) {
    |t| == 3 && (IsUpper(t[0]) || IsDigit(t[0])) && IsDigit(t[1]) && IsDigit(t[2])
  }

  /** parse_sec_num: the whole stripped text, if it is a section number. */
  function ParseSecNum(txt: string): (r: Result<string, Fault>)
    ensures r.Ok? <==> IsSectionNumber(Strip(txt))
    ensures r.Ok? ==> r.value == Strip(txt)
    ensures r.Err? ==> r.error == ScraperError(Unparsable(SectionNumber, Strip(txt)))
  {
    var t := Strip(txt);
    if IsSectionNumber(t) then Ok(t) else Err(ScraperError(Unparsable(SectionNumber, t)))
  }

  /** Round trip: a letter or digit followed by two digits parses to itself, whatever whitespace surrounds it. */
  lemma ParseSecNumRoundTrip(pre: string, lead: char, n: nat, post: string)
    requires IsUpper(lead) || IsDigit(lead)
    requires n < 100
    requires AllSpace(pre) && AllSpace(post)
    ensures ParseSecNum(pre + [lead] + TwoDigits(n) + post) == Ok([lead] + TwoDigits(n))
  {
    var s := [lead] + TwoDigits(n);
    assert IsSectionNumber(s);
    assert pre + [lead] + TwoDigits(n) + post == pre + s + post;
    StripPadded(pre, s, post);
  }

  // ---------------------------------------------------------------- time range

  /** The 12-hour to 24-hour rule applied to each half of a range. */
  function To24(hour: nat, period: char): nat {
    if period == 'p' && hour != 12 then hour + 12
    else if period == 'a' && hour == 12 then 0
    else hour
  }

  /** For the hours a 12-hour clock shows, the rule is `hour mod 12`, plus 12 in the afternoon. */
  lemma To24OnClockHours(hour: nat, period: char)
    requires 1 <= hour <= 12 && IsPeriod(period)
    ensures To24(hour, period) == hour % 12 + (if period == 'p' then 12 else 0)
    ensures To24(hour, period) < 24
    ensures (period == 'a') == (To24(hour, period) < 12)
  {
  }

  /** On hours 1..12 the morning and afternoon readings never coincide, and each is one-to-one. */
  lemma To24Injective(h1: nat, p1: char, h2: nat, p2: char)
    requires 1 <= h1 <= 12 && 1 <= h2 <= 12 && IsPeriod(p1) && IsPeriod(p2)
    requires To24(h1, p1) == To24(h2, p2)
    ensures h1 == h2 && p1 == p2
  {
    To24OnClockHours(h1, p1);
    To24OnClockHours(h2, p2);
  }

  /** The time-range search: the groups of the leftmost match in t. */
  function FindTimeRange(t: string): (r: Option<TimeCaptures>)
    ensures r.Some? <==> exists p :: 0 <= p <= |t| && MatchesAt(TimeRangePattern, t, p)
    ensures r.Some? ==> r == TimeMatchAt(t, Search(TimeRangePattern, t, 0).value)
    ensures r.Some? ==> WellFormedClock(r.value.start) && WellFormedClock(r.value.end)
  {
    match Search(TimeRangePattern, t, 0)
    case None => None
    case Some(p) => TimeMatchAt(t, p)
  }

  /** One half read as a clock time: int() of the groups, the 12-hour rule, then datetime.time. */
  function ReadClock(c: ClockText): (r: Result<Time, Fault>)
    requires WellFormedClock(c)
    ensures r.Ok? ==> ValidTime(r.value) && r.value.minute == DigitsValue(c.minute)
    ensures r.Ok? ==> r.value.hour == To24(DigitsValue(c.hour), c.period)
    ensures r.Ok? <==> To24(DigitsValue(c.hour), c.period) < 24 && DigitsValue(c.minute) < 60
    ensures r.Err? ==> r.error == TimeOutOfRange(To24(DigitsValue(c.hour), c.period), DigitsValue(c.minute))
  {
    MakeTime(To24(DigitsValue(c.hour), c.period), DigitsValue(c.minute))
  }

  /** parse_time_range: the first `h:mmP-h:mmP` in the stripped text, as two clock times. */
  function ParseTimeRange(txt: string): (r: Result<(Time, Time), Fault>)
    ensures r.Ok? ==> ValidTime(r.value.0) && ValidTime(r.value.1)
    ensures r.Err? ==> r.error == ScraperError(Unparsable(TimeRange, Strip(txt))) || r.error.TimeOutOfRange?
    ensures FindTimeRange(Strip(txt)).None? ==> r == Err(ScraperError(Unparsable(TimeRange, Strip(txt))))
    ensures FindTimeRange(Strip(txt)).Some? ==> var c := FindTimeRange(Strip(txt)).value;
      && (r.Ok? <==> ReadClock(c.start).Ok? && ReadClock(c.end).Ok?)
      && (r.Ok? ==> r.value == (ReadClock(c.start).value, ReadClock(c.end).value))
      && (ReadClock(c.start).Err? ==> r == Err(ReadClock(c.start).error))
      && (ReadClock(c.start).Ok? && ReadClock(c.end).Err? ==> r == Err(ReadClock(c.end).error))
  {
    var t := Strip(txt);
    match FindTimeRange(t)
    case None => Err(ScraperError(Unparsable(TimeRange, t)))
    case Some(c) =>
      var start :- ReadClock(c.start);
      var end :- ReadClock(c.end);
      Ok((start, end))
  }

  /** A clock time as the schedule writes it: hour 1..12 without padding, two-digit minute, `a` or `p`. */
  function Clock12(t: Time): (c: ClockText)
    requires ValidTime(t)
    ensures WellFormedClock(c)
  {
    var h12 := if t.hour % 12 == 0 then 12 else t.hour % 12;
    ClockText(NatToString(h12), TwoDigits(t.minute), if t.hour < 12 then 'a' else 'p')
  }

  /** Reading a clock time written in the schedule's 12-hour form gives it back. */
  lemma ReadClock12(t: Time)
    requires ValidTime(t)
    ensures ReadClock(Clock12(t)) == Ok(t)
  {
    var h12 := if t.hour % 12 == 0 then 12 else t.hour % 12;
    NatToStringValue(h12);
    assert To24(h12, if t.hour < 12 then 'a' else 'p') == t.hour;
  }

  /** The text of a range: two clock times in 12-hour form, joined by '-'. */
  function RangeText(a: Time, b: Time): (s: string)
    requires ValidTime(a) && ValidTime(b)
  {
    ClockString(Clock12(a)) + "-" + ClockString(Clock12(b))
  }

  /** A range's text has nothing for strip() to remove: it starts with a digit and ends with `a` or `p`. */
  lemma RangeTextStripped(a: Time, b: Time)
    requires ValidTime(a) && ValidTime(b)
    ensures Strip(RangeText(a, b)) == RangeText(a, b)
  {
    var ca, cb := Clock12(a), Clock12(b);
    var s := RangeText(a, b);
    assert s[0] == ca.hour[0];
    assert s[|s| - 1] == cb.period;
    StripUnchanged(s);
  }

  /** Round trip: two clock times written as a range parse back to the same pair. */
  lemma ParseTimeRangeRoundTrip(a: Time, b: Time)
    requires ValidTime(a) && ValidTime(b)
    ensures ParseTimeRange(RangeText(a, b)) == Ok((a, b))
  {
    RangeTextStripped(a, b);
    FindRangeText(a, b);
    ReadClock12(a);
    ReadClock12(b);
  }

  /**
   * Any two well-formed halves joined by '-', not only the schedule's own form:
   * each hour goes through the 12-hour rule as written (so "13:00p" is hour 25),
   * and the range parses exactly when both results are clock times; otherwise
   * datetime.time raises for the first half that is out of range.
   */
  lemma ParseTimeRangeOfClocks(a: ClockText, b: ClockText)
    requires WellFormedClock(a) && WellFormedClock(b)
    ensures var ha, ma := To24(DigitsValue(a.hour), a.period), DigitsValue(a.minute);
      var hb, mb := To24(DigitsValue(b.hour), b.period), DigitsValue(b.minute);
      ParseTimeRange(ClockString(a) + "-" + ClockString(b)) ==
        if !(ha < 24 && ma < 60) then Err(TimeOutOfRange(ha, ma))
        else if !(hb < 24 && mb < 60) then Err(TimeOutOfRange(hb, mb))
        else Ok((Time(ha, ma), Time(hb, mb)))
  {
    var s := ClockString(a) + "-" + ClockString(b);
    FindClocks(a, b);
    ParseTimeRangeFound(s, TimeCaptures(a, b));
  }

  /** Once the search has found the groups, the result is the two halves read in turn. */
  lemma ParseTimeRangeFound(txt: string, c: TimeCaptures)
    requires FindTimeRange(Strip(txt)) == Some(c)
    ensures WellFormedClock(c.start) && WellFormedClock(c.end)
    ensures ParseTimeRange(txt) ==
      if ReadClock(c.start).Err? then Err(ReadClock(c.start).error)
      else if ReadClock(c.end).Err? then Err(ReadClock(c.end).error)
      else Ok((ReadClock(c.start).value, ReadClock(c.end).value))
  {
  }

  /** The text of two well-formed halves is found whole, at its start, with nothing for strip() to remove. */
  lemma FindClocks(a: ClockText, b: ClockText)
    requires WellFormedClock(a) && WellFormedClock(b)
    ensures var s := ClockString(a) + "-" + ClockString(b);
      Strip(s) == s && FindTimeRange(s) == Some(TimeCaptures(a, b))
  {
    var s := ClockString(a) + "-" + ClockString(b);
    ClocksStripped(a, b);
    TimeMatchAtString(a, b);
    assert MatchesAt(TimeRangePattern, s, 0);
  }

  lemma ClocksStripped(a: ClockText, b: ClockText)
    requires WellFormedClock(a) && WellFormedClock(b)
    ensures var s := ClockString(a) + "-" + ClockString(b); Strip(s) == s
  {
    var s := ClockString(a) + "-" + ClockString(b);
    assert s[0] == a.hour[0] && IsDigit(s[0]);
    assert s[|s| - 1] == b.period;
    StripUnchanged(s);
  }

  /** An afternoon hour past 12 overflows the clock: "1:00p-13:00p" raises ValueError for hour 25. */
  lemma ParseTimeRangeAfternoonOverflow()
    ensures ParseTimeRange("1:00p-13:00p") == Err(TimeOutOfRange(25, 0))
  {
    var a, b := ClockText("1", "00", 'p'), ClockText("13", "00", 'p');
    assert ClockString(a) + "-" + ClockString(b) == "1:00p-13:00p";
    assert DigitsValue("1") == 1 by { assert "1"[..0] == []; }
    assert DigitsValue("13") == 13 by { assert "13"[..1] == "1"; assert "1"[..0] == []; }
    assert DigitsValue("00") == 0 by { assert "00"[..1] == "0"; assert "0"[..0] == []; }
    ParseTimeRangeOfClocks(a, b);
  }

  /** Hours are taken as written, padded or not: "0:30a" is 00:30 and "07:05p" is 19:05. */
  lemma ParseTimeRangeUnpaddedHours()
    ensures ParseTimeRange("0:30a-07:05p") == Ok((Time(0, 30), Time(19, 5)))
  {
    var a, b := ClockText("0", "30", 'a'), ClockText("07", "05", 'p');
    assert ClockString(a) + "-" + ClockString(b) == "0:30a-07:05p";
    assert DigitsValue("0") == 0 by { assert "0"[..0] == []; }
    assert DigitsValue("30") == 30 by { assert "30"[..1] == "3"; assert "3"[..0] == []; }
    assert DigitsValue("07") == 7 by { assert "07"[..1] == "0"; assert "0"[..0] == []; }
    assert DigitsValue("05") == 5 by { assert "05"[..1] == "0"; assert "0"[..0] == []; }
    ParseTimeRangeOfClocks(a, b);
  }

  /** The 12-hour rule only touches 12 in the morning: "13:00a" stays 13:00 and "12:00a" is midnight. */
  lemma ParseTimeRangeMorningHours()
    ensures ParseTimeRange("13:00a-12:00a") == Ok((Time(13, 0), Time(0, 0)))
  {
    var a, b := ClockText("13", "00", 'a'), ClockText("12", "00", 'a');
    assert ClockString(a) + "-" + ClockString(b) == "13:00a-12:00a";
    assert DigitsValue("13") == 13 by { assert "13"[..1] == "1"; assert "1"[..0] == []; }
    assert DigitsValue("12") == 12 by { assert "12"[..1] == "1"; assert "1"[..0] == []; }
    assert DigitsValue("00") == 0 by { assert "00"[..1] == "0"; assert "0"[..0] == []; }
    ParseTimeRangeOfClocks(a, b);
  }

  /** The search finds the whole range at its start. */
  lemma FindRangeText(a: Time, b: Time)
    requires ValidTime(a) && ValidTime(b)
    ensures FindTimeRange(RangeText(a, b)) == Some(TimeCaptures(Clock12(a), Clock12(b)))
  {
    var s := RangeText(a, b);
    TimeMatchAtString(Clock12(a), Clock12(b));
    assert MatchesAt(TimeRangePattern, s, 0);
  }

  // ---------------------------------------------------------------- seats available

  /** `^[0-9]+$`, applied to stripped text. */
  predicate IsNumeral(t: string) {
    |t| > 0 && AllDigits(t)
  }

  /** parse_seats_avail: the number the stripped text spells, else 0 when it says "FULL". */
  function ParseSeatsAvail(txt: string): (r: Result<nat, Fault>)
    ensures r.Ok? && r.value > 0 ==> IsNumeral(Strip(txt))
    ensures IsNumeral(Strip(txt)) ==> r == Ok(DigitsValue(Strip(txt)))
    ensures !IsNumeral(Strip(txt)) && Contains(Strip(txt), "FULL") ==> r == Ok(0)
    ensures r.Err? ==> r.error == ScraperError(Unparsable(SeatsAvail, Strip(txt)))
  {
    var t := Strip(txt);
    if IsNumeral(t) then Ok(DigitsValue(t))
    else if Contains(t, "FULL") then Ok(0)
    else Err(ScraperError(Unparsable(SeatsAvail, t)))
  }

  /** parse_seats_avail accepts a numeral or anything mentioning "FULL", and reports 0 exactly for a FULL row or a zero numeral. */
  lemma ParseSeatsAvailCases(txt: string)
    ensures ParseSeatsAvail(txt).Ok? <==> IsNumeral(Strip(txt)) || Contains(Strip(txt), "FULL")
    ensures ParseSeatsAvail(txt) == Ok(0) <==>
      (!IsNumeral(Strip(txt)) && Contains(Strip(txt), "FULL"))
      || (IsNumeral(Strip(txt)) && DigitsValue(Strip(txt)) == 0)
  {
  }

  /** Round trip: str(n) parses to n. */
  lemma ParseSeatsAvailRoundTrip(n: nat)
    ensures ParseSeatsAvail(NatToString(n)) == Ok(n)
  {
    StripUnchanged(NatToString(n));
    NatToStringValue(n);
  }

  /** A cell reading "FULL" has no seats left. */
  lemma ParseSeatsAvailFull()
    ensures ParseSeatsAvail("FULL") == Ok(0)
  {
    StripUnchanged("FULL");
    assert OccursAt("FULL", "FULL", 0);
  }

  // ---------------------------------------------------------------- date

  /** `^[0-9]+/[0-9]+/[0-9]+$`, applied to stripped text. */
  predicate IsDate(t: string) {
    var a := RunEnd(t, 0, Digit);
    && 0 < a < |t| && t[a] == '/'
    && var b := RunEnd(t, a + 1, Digit);
    && a + 1 < b < |t| && t[b] == '/'
    && var c := RunEnd(t, b + 1, Digit);
    && b + 1 < c == |t|
  }

  /** parse_date: the whole stripped text, if it is three numerals separated by slashes. */
  function ParseDate(txt: string): (r: Result<string, Fault>)
    ensures r.Ok? <==> IsDate(Strip(txt))
    ensures r.Ok? ==> r.value == Strip(txt) && '/' in r.value && IsDigit(r.value[0]) && IsDigit(r.value[|r.value| - 1])
    ensures r.Err? ==> r.error == ScraperError(Unparsable(Date, Strip(txt)))
  {
    var t := Strip(txt);
    if IsDate(t) then Ok(t) else Err(ScraperError(Unparsable(Date, t)))
  }

  /** Three numerals joined by slashes have the shape parse_date wants. */
  lemma {:induction false} DateShape(m: string, d: string, y: string)
    requires IsNumeral(m) && IsNumeral(d) && IsNumeral(y)
    ensures IsDate(m + "/" + d + "/" + y)
  {
    var s := m + "/" + d + "/" + y;
    var a, b := |m|, |m| + 1 + |d|;
    assert forall i :: 0 <= i < a ==> s[i] == m[i];
    RunEndAt(s, 0, a, Digit);
    assert forall i :: a + 1 <= i < b ==> s[i] == d[i - a - 1];
    RunEndAt(s, a + 1, b, Digit);
    assert forall i :: b + 1 <= i < |s| ==> s[i] == y[i - b - 1];
    RunEndAt(s, b + 1, |s|, Digit);
  }

  /** Round trip: any three numerals joined by slashes parse to themselves; months, days and years are not range-checked. */
  lemma ParseDateRoundTrip(m: string, d: string, y: string)
    requires IsNumeral(m) && IsNumeral(d) && IsNumeral(y)
    ensures ParseDate(m + "/" + d + "/" + y) == Ok(m + "/" + d + "/" + y)
  {
    var s := m + "/" + d + "/" + y;
    DateShape(m, d, y);
    assert s[0] == m[0] && s[|s| - 1] == y[|y| - 1];
    StripUnchanged(s);
  }

  /** The converse of DateShape: a text parse_date accepts is three numerals joined by slashes. */
  lemma DateParts(t: string)
    requires IsDate(t)
    ensures exists m, d, y :: IsNumeral(m) && IsNumeral(d) && IsNumeral(y) && t == m + "/" + d + "/" + y
  {
    var a := RunEnd(t, 0, Digit);
    var b := RunEnd(t, a + 1, Digit);
    assert 0 < a < |t| && t[a] == '/' && a + 1 < b < |t| && t[b] == '/' && RunEnd(t, b + 1, Digit) == |t|;
    DatePieces(t, a, b);
  }

  /** The pieces of a text between slashes at a and b, each a run of digits, are numerals. */
  lemma DatePieces(t: string, a: nat, b: nat)
    requires 0 < a && a + 1 < b && b + 1 < |t| && t[a] == '/' && t[b] == '/'
    requires RunEnd(t, 0, Digit) == a && RunEnd(t, a + 1, Digit) == b && RunEnd(t, b + 1, Digit) == |t|
    ensures exists m, d, y :: IsNumeral(m) && IsNumeral(d) && IsNumeral(y) && t == m + "/" + d + "/" + y
  {
    var m, d, y := t[..a], t[a + 1..b], t[b + 1..];
    NumeralSlice(t, 0, a);
    NumeralSlice(t, a + 1, b);
    NumeralSlice(t, b + 1, |t|);
    SlashJoin(t, a, b);
    assert IsNumeral(m) && IsNumeral(d) && IsNumeral(y) && t == m + "/" + d + "/" + y;
  }

  /** A text with slashes at a and b is the three pieces between them, joined by slashes. */
  lemma SlashJoin(t: string, a: nat, b: nat)
    requires a < b < |t| && t[a] == '/' && t[b] == '/'
    ensures t == t[..a] + "/" + t[a + 1..b] + "/" + t[b + 1..]
  {
    assert t[b..] == "/" + t[b + 1..];
    assert t[a + 1..] == t[a + 1..b] + t[b..];
    assert t[a..] == "/" + t[a + 1..];
    assert t == t[..a] + t[a..];
  }

  /** A non-empty run of digits is a numeral. */
  lemma NumeralSlice(t: string, i: nat, j: nat)
    requires i < j <= |t| && RunEnd(t, i, Digit) >= j
    ensures IsNumeral(t[i..j])
  {
    forall k | 0 <= k < j - i ensures IsDigit(t[i..j][k]) { assert InClass(t[i + k], Digit); }
  }

  /** A cell is never both a section number and a date, which is why a meeting gets `number` or `date` but not both. */
  lemma SecNumExcludesDate(txt: string)
    requires ParseSecNum(txt).Ok?
    ensures ParseDate(txt).Err?
  {
  }
}
