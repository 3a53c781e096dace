/**
 * The table rows the spider works on, reduced to what it reads of them, and the
 * row filters of utils.py (lines 8-36), which the spider repeats as methods
 * (subject_courses_spider.py lines 211-239).
 */
module Rows {
  import opened Wrappers

  /** A `td` element: its class list if it has a class attribute, its text, and the text of its first link if it has one. */
  datatype Cell = Cell(classes: Option<seq<string>>, text: string, link: Option<string>)

  /** An element of the page: tag name, class list if any, its `td` descendants in document order, and its whole text. */
  datatype Row = Row(name: string, classes: Option<seq<string>>, cells: seq<Cell>, text: string)

  /** tag_matches_crsheader: a `tr` whose first `td` has the class "crsheader". */
  predicate MatchesCrsheader(row: Row) {
    && row.name == "tr"
    && |row.cells| > 0
    && row.cells[0].classes.Some?
    && "crsheader" in row.cells[0].classes.value
  }

  /** tag_matches_meeting: a `tr` of class "sectxt" or "nonenrtxt" with at least four cells. */
  predicate MatchesMeeting(row: Row) {
    && row.name == "tr"
    && row.classes.Some?
    && ("sectxt" in row.classes.value || "nonenrtxt" in row.classes.value)
    && |row.cells| >= 4
  }

  /** tag_matches_any: a header row or a meeting row. */
  predicate MatchesAny(row: Row) {
    MatchesCrsheader(row) || MatchesMeeting(row)
  }

  /** The rows before which split_before starts a new block: those with no class attribute. */
  predicate StartsBlock(row: Row) {
    row.classes.None?
  }

  /** soup.find_all(tag_matches_any): the matching elements, in document order. */
  function MatchingRows(rows: seq<Row>): (r: seq<Row>)
    ensures forall i :: 0 <= i < |r| ==> MatchesAny(r[i]) && r[i] in rows
    ensures forall i :: 0 <= i < |rows| && MatchesAny(rows[i]) ==> rows[i] in r
    ensures |r| <= |rows|
  {
    if rows == [] then []
    else
      var rest := MatchingRows(rows[1..]);
      assert forall i :: 1 <= i < |rows| ==> rows[i] == rows[1..][i - 1];
      if MatchesAny(rows[0]) then [rows[0]] + rest else rest
  }

  /** One element is kept exactly when it matches. */
  lemma MatchingRowsSingle(x: Row)
    ensures MatchingRows([x]) == if MatchesAny(x) then [x] else []
  {
    assert [x][1..] == [];
  }

  /** A meeting row always carries a class, so it never starts a block: it stays with the header above it. */
  lemma MeetingRowStaysInBlock(row: Row)
    requires MatchesMeeting(row)
    ensures !StartsBlock(row)
    ensures |row.classes.value| > 0
  {
    var cls := row.classes.value;
    if "sectxt" in cls {
      var i :| 0 <= i < |cls| && cls[i] == "sectxt";
    }
  }

  /** find_all keeps document order: filtering two stretches of the page is filtering each in turn. */
  lemma {:induction false} MatchingRowsAppend(a: seq<Row>, b: seq<Row>)
    ensures MatchingRows(a + b) == MatchingRows(a) + MatchingRows(b)
  {
    if a != [] {
      var ab := a + b;
      assert ab[0] == a[0];
      assert ab[1..] == a[1..] + b;
      MatchingRowsAppend(a[1..], b);
      assert MatchingRows(ab) == (if MatchesAny(a[0]) then [a[0]] else []) + MatchingRows(ab[1..]);
    } else {
      assert a + b == b;
    }
  }
}
