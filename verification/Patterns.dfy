/**
 * Hand-written recognisers for the regular expressions of the scraper, and the
 * leftmost-match search that `re.search` performs.
 *
 * Every repetition in these patterns is greedy and is followed by a character
 * outside its own class (a digit run by ':' or whitespace, a whitespace run by
 * '(' or '-' or a letter, an upper-case run by whitespace), so backtracking
 * into a run can never produce a second match: the longest run is the only
 * candidate, which is what `RunEnd` computes.
 */
module Patterns {
  import opened Wrappers
  import opened Text

  /** The character classes the patterns use: `[0-9]`, `\s`, `[A-Z]` and `.`. */
  datatype CharClass = Digit | Space | Upper | NotNewline

  predicate InClass(c: char, k: CharClass) {
    match k
    case Digit => IsDigit(c)
    case Space => IsSpace(c)
    case Upper => IsUpper(c)
    case NotNewline => c != '\n'
  }

  /** End of the longest run of class-k characters that starts at i (a greedy `k*`). */
  function RunEnd(t: string, i: nat, k: CharClass): (j: nat)
    requires i <= |t|
    ensures i <= j <= |t|
    ensures forall m :: i <= m < j ==> InClass(t[m], k)
    ensures j == |t| || !InClass(t[j], k)
    decreases |t| - i
  {
    if i < |t| && InClass(t[i], k) then RunEnd(t, i + 1, k) else i
  }

  /** The alternatives of `(M|Tu|W|Th|F|S)`, in the pattern's order. */
  const DayTokens: seq<string> := ["M", "Tu", "W", "Th", "F", "S"]

  /**
   * The alternation `(M|Tu|W|Th|F|S)` matched at position i. No two alternatives
   * can occur at the same position (they differ in their first letter, or in
   * their second for "Tu" and "Th"), so the order of the alternation does not matter.
   */
  function DayAt(t: string, i: nat): (r: Option<string>)
    ensures r.Some? ==> r.value in DayTokens && OccursAt(t, r.value, i) && |r.value| > 0
  {
    if i < |t| && (t[i] == 'M' || t[i] == 'W' || t[i] == 'F' || t[i] == 'S') then
      assert t[i..i + 1] == [t[i]];
      Some(t[i..i + 1])
    else if i + 1 < |t| && t[i] == 'T' && (t[i + 1] == 'u' || t[i + 1] == 'h') then
      assert t[i..i + 2] == [t[i], t[i + 1]];
      Some(t[i..i + 2])
    else None
  }

  /** The alternatives of the meeting-type pattern, in the pattern's order. */
  const TypeCodes: seq<string> :=
    ["AC", "CL", "CO", "DI", "FI", "FM", "FW", "IN", "IT", "LA",
     "LE", "MI", "MU", "OT", "PB", "PR", "RE", "SE", "ST", "TU"]

  /** The meeting-type alternation matched at position i: every code has two letters, so at most one occurs there. */
  function TypeAt(t: string, i: nat): (r: Option<string>)
    ensures r.Some? ==> r.value in TypeCodes && OccursAt(t, r.value, i)
  {
    if i + 2 <= |t| && t[i..i + 2] in TypeCodes then Some(t[i..i + 2]) else None
  }

  predicate IsPeriod(c: char) { c == 'a' || c == 'p' }

  /** The three groups of one half of the time-range pattern, `([0-9]+):([0-9]{2})(a|p)`. */
  datatype ClockText = ClockText(hour: string, minute: string, period: char)

  predicate WellFormedClock(c: ClockText) {
    |c.hour| > 0 && AllDigits(c.hour) && |c.minute| == 2 && AllDigits(c.minute) && IsPeriod(c.period)
  }

  /** The text a half matches: the captures with ':' between hour and minute. */
  function ClockString(c: ClockText): string {
    c.hour + [':'] + c.minute + [c.period]
  }

  /** The six groups of `([0-9]+):([0-9]{2})(a|p)-([0-9]+):([0-9]{2})(a|p)`, half by half. */
  datatype TimeCaptures = TimeCaptures(start: ClockText, end: ClockText)

  /** One half of the time-range pattern matched at position i. */
  function ClockAt(t: string, i: nat): (r: Option<ClockText>)
    requires i <= |t|
    ensures r.Some? ==> WellFormedClock(r.value) && i + |ClockString(r.value)| <= |t|
  {
    var j := RunEnd(t, i, Digit);
    if j == i || j + 4 > |t| then None
    else if !(t[j] == ':' && IsDigit(t[j + 1]) && IsDigit(t[j + 2]) && IsPeriod(t[j + 3])) then None
    else Some(ClockText(t[i..j], t[j + 1..j + 3], t[j + 3]))
  }

  /** The time-range pattern matched at position i: a half, '-', and another half. */
  function TimeMatchAt(t: string, i: nat): (r: Option<TimeCaptures>)
    requires i <= |t|
    ensures r.Some? ==> WellFormedClock(r.value.start) && WellFormedClock(r.value.end)
  {
    match ClockAt(t, i)
    case None => None
    case Some(a) =>
      var k := i + |ClockString(a)|;
      if k == |t| || t[k] != '-' then None
      else
        match ClockAt(t, k + 1)
        case None => None
        case Some(b) => Some(TimeCaptures(a, b))
  }

  lemma {:induction false} RunEndAt(t: string, i: nat, j: nat, k: CharClass)
    requires i <= j <= |t|
    requires forall m :: i <= m < j ==> InClass(t[m], k)
    requires j == |t| || !InClass(t[j], k)
    ensures RunEnd(t, i, k) == j
    decreases j - i
  {
    if i < j {
      RunEndAt(t, i + 1, j, k);
    }
  }

  /** Where each group sits in the text of a half. */
  lemma ClockStringLayout(c: ClockText)
    requires |c.minute| == 2
    ensures var f := ClockString(c); var n := |c.hour|;
      && |f| == n + 4 && f[..n] == c.hour && f[n] == ':' && f[n + 1..n + 3] == c.minute && f[n + 3] == c.period
  {
    var f := ClockString(c);
    assert f == c.hour + ([':'] + c.minute + [c.period]);
  }

  /** The hour digits of a half that occurs at i run up to its ':'. */
  lemma ClockHourRun(t: string, i: nat, c: ClockText)
    requires WellFormedClock(c) && OccursAt(t, ClockString(c), i)
    ensures var n := |c.hour|; i + n + 4 <= |t| && RunEnd(t, i, Digit) == i + n && t[i..i + n] == c.hour && t[i + n] == ':'
  {
    var f := ClockString(c);
    var n := |c.hour|;
    ClockStringLayout(c);
    assert t[i..i + |f|] == f;
    assert t[i..i + n] == f[..n];
    assert t[i + n] == f[n];
    assert forall x :: i <= x < i + n ==> t[x] == c.hour[x - i];
    RunEndAt(t, i, i + n, Digit);
  }

  /** The minute digits and the period of a half that occurs at i follow its ':'. */
  lemma ClockTailAt(t: string, i: nat, c: ClockText)
    requires WellFormedClock(c) && OccursAt(t, ClockString(c), i)
    ensures var n := |c.hour|; i + n + 4 <= |t| && t[i + n + 1..i + n + 3] == c.minute && t[i + n + 3] == c.period
  {
    var f := ClockString(c);
    var n := |c.hour|;
    ClockStringLayout(c);
    assert t[i..i + |f|] == f;
    assert t[i + n + 1] == f[n + 1] && t[i + n + 2] == f[n + 2] && t[i + n + 3] == f[n + 3] by {
      assert t[i..i + |f|][n + 1] == f[n + 1] && t[i..i + |f|][n + 2] == f[n + 2] && t[i..i + |f|][n + 3] == f[n + 3];
    }
    assert f[n + 1] == c.minute[0] && f[n + 2] == c.minute[1] by { assert f[n + 1..n + 3] == c.minute; }
    assert t[i + n + 1..i + n + 3] == [c.minute[0], c.minute[1]];
  }

  /** Where the text of a well-formed half occurs, the half matches and reads back the same groups. */
  lemma ClockAtString(t: string, i: nat, c: ClockText)
    requires WellFormedClock(c) && OccursAt(t, ClockString(c), i)
    ensures ClockAt(t, i) == Some(c)
  {
    var n := |c.hour|;
    ClockHourRun(t, i, c);
    ClockTailAt(t, i, c);
    assert IsDigit(t[i + n + 1]) && IsDigit(t[i + n + 2]) by {
      assert t[i + n + 1] == c.minute[0] && t[i + n + 2] == c.minute[1];
    }
  }

  /** Two halves joined by '-' are matched by the time-range pattern, which reads back both. */
  lemma TimeMatchAtString(a: ClockText, b: ClockText)
    requires WellFormedClock(a) && WellFormedClock(b)
    ensures TimeMatchAt(ClockString(a) + "-" + ClockString(b), 0) == Some(TimeCaptures(a, b))
  {
    var fa, fb := ClockString(a), ClockString(b);
    var s := fa + "-" + fb;
    assert OccursAt(s, fa, 0) by { assert s[0..|fa|] == fa; }
    assert OccursAt(s, fb, |fa| + 1) by { assert s[|fa| + 1..|fa| + 1 + |fb|] == fb; }
    assert s[|fa|] == '-';
    ClockAtString(s, 0, a);
    ClockAtString(s, |fa| + 1, b);
  }

  /** `Page\s+\([0-9]+\s+of\s+([0-9+])\)` matched at position i: the one captured character. */
  function PageNumMatchAt(t: string, i: nat): (r: Option<char>)
    requires i <= |t|
    ensures r.Some? ==> IsDigit(r.value) || r.value == '+'
  {
    if !OccursAt(t, "Page", i) then None
    else
      var a := RunEnd(t, i + 4, Space);
      if a == i + 4 || a == |t| || t[a] != '(' then None
      else
        var b := RunEnd(t, a + 1, Digit);
        if b == a + 1 then None
        else
          var c := RunEnd(t, b, Space);
          if c == b || !OccursAt(t, "of", c) then None
          else
            var d := RunEnd(t, c + 2, Space);
            if d == c + 2 || d + 2 > |t| || !(IsDigit(t[d]) || t[d] == '+') || t[d + 1] != ')' then None
            else Some(t[d])
  }

  /** `[A-Z]+\s+-(.*)` matched at position i: the captured rest of the line. */
  function SubjectNameMatchAt(t: string, i: nat): (r: Option<string>)
    requires i <= |t|
  {
    var a := RunEnd(t, i, Upper);
    if a == i then None
    else
      var b := RunEnd(t, a, Space);
      if b == a || b == |t| || t[b] != '-' then None
      else Some(t[b + 1..RunEnd(t, b + 1, NotNewline)])
  }

  /** The unanchored patterns the program searches with. */
  datatype Pattern = DaysPattern | MeetingTypePattern | TimeRangePattern | PageNumPattern | SubjectNamePattern

  predicate MatchesAt(p: Pattern, t: string, i: nat)
    requires i <= |t|
  {
    match p
    case DaysPattern => DayAt(t, i).Some?
    case MeetingTypePattern => TypeAt(t, i).Some?
    case TimeRangePattern => TimeMatchAt(t, i).Some?
    case PageNumPattern => PageNumMatchAt(t, i).Some?
    case SubjectNamePattern => SubjectNameMatchAt(t, i).Some?
  }

  /** Whether the pattern matches at each position of t, the end of t included. */
  function Hits(p: Pattern, t: string): (h: seq<bool>)
    ensures |h| == |t| + 1
    ensures forall i :: 0 <= i <= |t| ==> h[i] == MatchesAt(p, t, i)
  {
    seq(|t| + 1, i requires 0 <= i <= |t| => MatchesAt(p, t, i))
  }

  /** The first position at or after `from` that is a hit. */
  function FirstHit(hits: seq<bool>, from: nat): (r: Option<nat>)
    requires from <= |hits|
    ensures r.Some? ==> from <= r.value < |hits| && hits[r.value]
    ensures r.Some? ==> forall j :: from <= j < r.value ==> !hits[j]
    ensures r.None? ==> forall j :: from <= j < |hits| ==> !hits[j]
    decreases |hits| - from
  {
    if from == |hits| then None
    else if hits[from] then Some(from)
    else FirstHit(hits, from + 1)
  }

  /** `re.search`: the leftmost position at or after `from` where the pattern matches. */
  function Search(p: Pattern, t: string, from: nat): (r: Option<nat>)
    requires from <= |t|
    ensures r.Some? ==> from <= r.value <= |t| && MatchesAt(p, t, r.value)
    ensures r.Some? ==> forall j :: from <= j < r.value ==> !MatchesAt(p, t, j)
    ensures r.None? ==> forall j :: from <= j <= |t| ==> !MatchesAt(p, t, j)
  {
    FirstHit(Hits(p, t), from)
  }
}
