# EzSchedUCSD schedule-of-classes scraper, modelled in Dafny

The scraper reads UCSD's Schedule of Classes. For one quarter and one subject it
fetches the listing's pages. It cuts each page's table rows into course blocks: a
course header followed by its meeting rows. From each block it builds a
`CourseMeetingsUncategorized` item, with the first meeting, the `sectxt`
meetings and the `nonenrtxt` meetings. `CourseCleanerPipeline` then sorts those
meetings into section, general and dated meetings. It drops a course that has no
section meeting. `SubjectCleanerPipeline` turns the subject list of the other
spider into (code, name) pairs.

The project has these modules:

- `Wrappers`, `Errors`, `Text` (`Base.dfy`) hold `Option` and `Result`, the
  exceptions the program can raise (`Fault`; only `ScraperError` is ever caught),
  and Python's `str.strip`, `in` and `int()` on digit strings.
- `Patterns` models the regular expressions of the spider and of the subject
  cleaner as "matches at position i" functions. `Search` is the leftmost match
  that `re.search` finds.
- `Parsers` holds the field parsers `parse_days`, `parse_meeting_type`,
  `parse_sec_num`, `parse_time_range`, `parse_seats_avail` and `parse_date`,
  with `datetime.time`'s range check.
- `Items` holds the records of `items.py` and the effect of their loaders' input
  and output processors (`TakeFirst`, `MapCompose(str.strip, filter_empty_string)`,
  `Identity`).
- `Rows` holds the table rows, reduced to what the spider reads of them, and the
  `tag_matches_*` filters.
- `Spider` holds `build_item_from_meeting`, `split_before`,
  `build_item_from_group`, `course_meeting_items`, `get_num_pages`, `parse` and
  `parse_extra_page`. A generator that raises part-way is modelled as
  `Yielded(values, raised)`: what it handed out, then the exception.
- `Pipelines` holds both `process_item` methods. The course cleaner is specified
  by a per-meeting decision (`Classify`) and, per list, the meetings of each
  track that land in it (`Picked`).
- `Encoder` holds `CourseItemEncoder.default`.

The loops of the source are methods proved against the functions that specify
them: `SortLaterRows`, `CourseMeetingItems`, `GetNumPages`, `RequestPages`,
`SortSectxt`, `SortNonenrtxt` and `ProcessSubjects`. Each specification function
is defined from the back of its input, so that a loop invariant reads "the
specification of the prefix seen so far is the accumulator".

## Model

| member | source | states |
|---|---|---|
| `Parsers.MakeTime` | scraper_schedule_of_classes/spiders/subject_courses_spider.py:95-96 | `datetime.time(h, m)` succeeds exactly on a valid time (hour below 24, minute below 60) and is that time; otherwise it raises ValueError carrying the hour and minute |
| `Parsers.FindDays` | scraper_schedule_of_classes/spiders/subject_courses_spider.py:45-48 | a found days word is made of day tokens only and occurs in the text |
| `Parsers.ParseDays` | scraper_schedule_of_classes/spiders/subject_courses_spider.py:46-51 | the result is a days word occurring in the stripped text; failure is a ScraperError naming the days field and the stripped text |
| `Parsers.FindDaysLeftmostLongest` | scraper_schedule_of_classes/spiders/subject_courses_spider.py:45-48 | the word found starts at the first position where a day token occurs and extends over every following day token (the greedy `+`) |
| `Parsers.ParseDaysLeftmostLongest` | scraper_schedule_of_classes/spiders/subject_courses_spider.py:46-51 | a successful parse returns the leftmost, longest run of day tokens in the stripped text |
| `Parsers.ParseDaysSucceedsIff` | scraper_schedule_of_classes/spiders/subject_courses_spider.py:46-51 | parsing succeeds if and only if some day token occurs in the stripped text |
| `Parsers.ParseDaysRoundTrip` | scraper_schedule_of_classes/spiders/subject_courses_spider.py:46-51 | any days word parses back to itself |
| `Parsers.FindMeetingType` | scraper_schedule_of_classes/spiders/subject_courses_spider.py:54-57 | a found code is one of the twenty meeting-type codes and occurs in the text |
| `Parsers.ParseMeetingType` | scraper_schedule_of_classes/spiders/subject_courses_spider.py:55-60 | the result is a meeting-type code occurring in the stripped text; failure is a ScraperError naming the field and the stripped text |
| `Parsers.FindMeetingTypeLeftmost` | scraper_schedule_of_classes/spiders/subject_courses_spider.py:54-57 | the code found is at the leftmost position where any code occurs |
| `Parsers.ParseMeetingTypeSucceedsIff` | scraper_schedule_of_classes/spiders/subject_courses_spider.py:55-60 | parsing succeeds if and only if some code occurs in the stripped text, and then returns the leftmost one |
| `Parsers.ParseMeetingTypeRoundTrip` | scraper_schedule_of_classes/spiders/subject_courses_spider.py:55-60 | every meeting-type code parses back to itself |
| `Parsers.ParseSecNum` | scraper_schedule_of_classes/spiders/subject_courses_spider.py:63-69 | succeeds if and only if the stripped text is a capital letter or digit followed by two digits, and then returns that text; otherwise a ScraperError |
| `Parsers.ParseSecNumRoundTrip` | scraper_schedule_of_classes/spiders/subject_courses_spider.py:63-69 | a section number with any blank padding parses back to the number |
| `Parsers.To24OnClockHours` | scraper_schedule_of_classes/spiders/subject_courses_spider.py:82-85 | on clock hours 1 to 12 the conversion is `hour % 12`, plus 12 for "p"; it is below 24, and it is below 12 exactly for "a" |
| `Parsers.To24Injective` | scraper_schedule_of_classes/spiders/subject_courses_spider.py:82-93 | two different clock readings never give the same 24-hour hour |
| `Parsers.FindTimeRange` | scraper_schedule_of_classes/spiders/subject_courses_spider.py:72-75 | a match is found exactly when the pattern matches somewhere in the text, and it is the leftmost one; it captures two well-formed clock readings (digits, two minute digits, a or p) |
| `Parsers.ReadClock` | scraper_schedule_of_classes/spiders/subject_courses_spider.py:79-96 | a captured reading succeeds exactly when its 24-hour hour (12 becomes 0 before a p adds 12, so 13 with p is 25) is below 24 and its minutes below 60, and is then that time; otherwise it is the ValueError of `datetime.time` carrying that hour and minute |
| `Parsers.ParseTimeRange` | scraper_schedule_of_classes/spiders/subject_courses_spider.py:72-98 | no match in the stripped text is a ScraperError on that text; otherwise the result is the pair of the two converted readings, start first, and the first reading that fails decides the ValueError |
| `Parsers.ParseTimeRangeFound` | scraper_schedule_of_classes/spiders/subject_courses_spider.py:72-98 | given the match, parsing is: the start's ValueError, else the end's, else the pair of the two times |
| `Parsers.ParseTimeRangeOfClocks` | scraper_schedule_of_classes/spiders/subject_courses_spider.py:72-98 | for any two well-formed readings `h:mm(a/p)` joined by '-', including unpadded hours and hours above 12, the result is each half's 24-hour time, or the ValueError of the first half out of range |
| `Parsers.ParseTimeRangeAfternoonOverflow` | scraper_schedule_of_classes/spiders/subject_courses_spider.py:82-96 | "1:00p-13:00p" raises ValueError for hour 25 |
| `Parsers.ParseTimeRangeUnpaddedHours` | scraper_schedule_of_classes/spiders/subject_courses_spider.py:72-98 | "0:30a-07:05p" is 00:30 to 19:05 |
| `Parsers.ParseTimeRangeMorningHours` | scraper_schedule_of_classes/spiders/subject_courses_spider.py:82-96 | "13:00a-12:00a" is 13:00 to 00:00: an a reading keeps any hour but 12 |
| `Parsers.Clock12` | scraper_schedule_of_classes/spiders/subject_courses_spider.py:79-85 | every valid time has a well-formed 12-hour reading |
| `Parsers.ReadClock12` | scraper_schedule_of_classes/spiders/subject_courses_spider.py:79-96 | reading the 12-hour text of a valid time gives the time back |
| `Parsers.ParseTimeRangeRoundTrip` | scraper_schedule_of_classes/spiders/subject_courses_spider.py:72-98 | the text "h:mm(a/p)-h:mm(a/p)" of two valid times parses back to those two times |
| `Parsers.ParseSeatsAvail` | scraper_schedule_of_classes/spiders/subject_courses_spider.py:101-113 | an all-digit stripped text is its integer value; otherwise a text containing FULL is 0; a positive count comes from an all-digit text; failure is a ScraperError on the stripped text |
| `Parsers.ParseSeatsAvailCases` | scraper_schedule_of_classes/spiders/subject_courses_spider.py:101-113 | parsing succeeds if and only if the stripped text is all digits or contains "FULL"; the result is 0 exactly for a numeral of value 0 or a non-numeral containing "FULL" |
| `Parsers.ParseSeatsAvailRoundTrip` | scraper_schedule_of_classes/spiders/subject_courses_spider.py:101-108 | the decimal text of any count parses back to that count |
| `Parsers.ParseSeatsAvailFull` | scraper_schedule_of_classes/spiders/subject_courses_spider.py:109-110 | "FULL" gives 0 seats |
| `Parsers.ParseDate` | scraper_schedule_of_classes/spiders/subject_courses_spider.py:116-124 | succeeds exactly when the stripped text has the date pattern's shape, and is then that text; failure is a ScraperError on the stripped text |
| `Parsers.DateShape` | scraper_schedule_of_classes/spiders/subject_courses_spider.py:116 | three numerals joined by '/' have the shape the date pattern accepts |
| `Parsers.DateParts` | scraper_schedule_of_classes/spiders/subject_courses_spider.py:116 | conversely, every text of the date pattern's shape is three numerals joined by '/' |
| `Parsers.ParseDateRoundTrip` | scraper_schedule_of_classes/spiders/subject_courses_spider.py:116-124 | "m/d/y" of three numerals parses back to itself |
| `Parsers.SecNumExcludesDate` | scraper_schedule_of_classes/spiders/subject_courses_spider.py:341-346 | a cell read as a section number is never also a date, so the two branches do not overlap |
| `Items.FilterEmptyString` | scraper_schedule_of_classes/items.py:36-39 | "" becomes absent and every other text is kept as it is |
| `Items.TakeFirst` | scraper_schedule_of_classes/items.py:46 | the result is one of the collected values and not ""; it is absent exactly when every collected value is absent or "" |
| `Items.TakeFirstAppend` | scraper_schedule_of_classes/items.py:71-75 | a value added later never displaces the first non-empty one |
| `Items.MeetingText` | scraper_schedule_of_classes/items.py:42-50 | a meeting's sec_id, bldg, room and instructor are the stripped cell text, and absent exactly when that is blank |
| `Items.HeaderText` | scraper_schedule_of_classes/items.py:67-77 | a course header field, when present, is the stripped text |
| `Items.HeaderTextIsMeetingText` | scraper_schedule_of_classes/items.py:67-77 | stripping followed by TakeFirst already drops a blank header text, so header and meeting fields are read alike |
| `Items.MeetingTextNeverEmpty` | scraper_schedule_of_classes/items.py:50 | a meeting's text field is never the empty text |
| `Rows.MatchingRows` | scraper_schedule_of_classes/spiders/subject_courses_spider.py:192 | the elements kept are elements of the page that `tag_matches_any` accepts (header or meeting rows), every accepted element is kept, and no more than the page has |
| `Rows.MatchingRowsSingle` | scraper_schedule_of_classes/spiders/subject_courses_spider.py:192 | a single element is kept exactly when `tag_matches_any` accepts it |
| `Rows.MeetingRowStaysInBlock` | scraper_schedule_of_classes/utils.py:30-36 | a meeting row always has a class list, so `split_before` never starts a block at it |
| `Rows.MatchingRowsAppend` | scraper_schedule_of_classes/spiders/subject_courses_spider.py:211-239 | filtering keeps document order: filtering two stretches of rows is filtering each in turn |
| `Spider.SecNumOrDate` | scraper_schedule_of_classes/spiders/subject_courses_spider.py:341-346 | the number is taken when the cell is a section number, else the date when it is a date, else the date parser's ScraperError escapes |
| `Spider.ReadCommonFields` | scraper_schedule_of_classes/spiders/subject_courses_spider.py:332-349 | succeeds exactly when the row has a cell at index 3 and its type cell and number-or-date cell parse; the meeting type is the parsed type code and (number, date) the parsed number-or-date; sec_id is read only on a sectxt row; no other field is set; a failure on a row with enough cells is a ScraperError |
| `Spider.ReadLayoutFields` | scraper_schedule_of_classes/spiders/subject_courses_spider.py:354-361 | succeeds exactly when the days and time cells parse; days, start and end are the parsed values and building and room the cells' text; only the layout fields change; the days error comes before the time error |
| `Spider.ReadSectxtFields` | scraper_schedule_of_classes/spiders/subject_courses_spider.py:363-367 | instructor is the instructor cell's text; when the sec_id cell is not blank seats are the parsed seats cell, and a failure is that parse's ScraperError; only instructor and seats change |
| `Spider.BuildMeeting` | scraper_schedule_of_classes/spiders/subject_courses_spider.py:322-368 | succeeds exactly when the row is not cancelled, has a class, and every parse it reaches succeeds; a cancelled row raises ScraperError; the meeting type, number or date, days, times, building, room, instructor and seats are the parsed cell values; days and times are set exactly on a complete row (12 cells for sectxt, 10 for nonenrtxt); instructor only on a complete sectxt row; seats exactly on a complete sectxt row with a sec_id; essential never set |
| `Spider.BuildMeetingFaults` | scraper_schedule_of_classes/spiders/subject_courses_spider.py:322-349 | the exception raised is that of the first failing step: no class attribute (KeyError), an empty class list or a missing type cell (IndexError), then the type cell's parse error |
| `Spider.BuildMeetingLayoutFaults` | scraper_schedule_of_classes/spiders/subject_courses_spider.py:354-358 | on a complete row the days cell's error comes before the time cell's |
| `Spider.MeetingRowFaults` | scraper_schedule_of_classes/spiders/subject_courses_spider.py:322-368 | on a row `tag_matches_meeting` accepts, the only exceptions are a ScraperError or the ValueError of `datetime.time` |
| `Spider.SplitBeforePartition` | scraper_schedule_of_classes/spiders/subject_courses_spider.py:259-260 | the blocks put back together are the rows; no block is empty; every block after the first opens with a class-less row, and no other row of a block lacks a class |
| `Spider.Sort` | scraper_schedule_of_classes/spiders/subject_courses_spider.py:306-317 | the loop over later meeting rows raises exactly when some row raises something other than a ScraperError, and what it raises is never a ScraperError; it keeps at most one meeting per row |
| `Spider.SortSkip` | scraper_schedule_of_classes/spiders/subject_courses_spider.py:307-311 | a reading that raised a ScraperError changes nothing: the loop continues with the next row |
| `Spider.SortAppend` | scraper_schedule_of_classes/spiders/subject_courses_spider.py:313-317 | a meeting goes to the sectxt list when its row's first class is "sectxt" and to the nonenrtxt list otherwise, at the end |
| `Spider.LaterMeetingsSkip` | scraper_schedule_of_classes/spiders/subject_courses_spider.py:307-311 | a row whose meeting fails with a ScraperError can be removed without changing the lists |
| `Spider.SortStops` | scraper_schedule_of_classes/spiders/subject_courses_spider.py:306-317 | once a row has raised an uncaught exception, later rows change nothing |
| `Spider.SortAbortsAt` | scraper_schedule_of_classes/spiders/subject_courses_spider.py:306-317 | the first row that raises an uncaught exception decides what the loop raises |
| `Spider.SortLaterRows` | scraper_schedule_of_classes/spiders/subject_courses_spider.py:306-317 | the loop computes what `Sort` specifies for the readings of the rows |
| `Spider.GroupItem` | scraper_schedule_of_classes/spiders/subject_courses_spider.py:268-319 | an exception that leaves build_item_from_group is never a ScraperError |
| `Spider.GroupItemMeaning` | scraper_schedule_of_classes/spiders/subject_courses_spider.py:275-319 | a lone header gives no item; a first meeting failing with a ScraperError gives no item; an item's first meeting is the meeting read from the row after the header, its two lists are what the later rows give, its quarter and subject are the spider's and its number and title the header's cells |
| `Spider.GroupItemOutcome` | scraper_schedule_of_classes/spiders/subject_courses_spider.py:275-319 | a block whose first meeting and later rows build gives exactly the item made of them; any other exception from the first meeting or a later row propagates unchanged; a missing header, number cell or title cell raises IndexError |
| `Spider.BuildItemFromGroup` | scraper_schedule_of_classes/spiders/subject_courses_spider.py:268-319 | the method computes what `GroupItem` specifies |
| `Spider.Collect` | scraper_schedule_of_classes/spiders/subject_courses_spider.py:262-265 | the generator raises exactly when some block raises, with that block's exception, and yields at most one item per block |
| `Spider.CollectSnoc` | scraper_schedule_of_classes/spiders/subject_courses_spider.py:263-265 | a block that gives an item adds it at the end; one that gives none adds nothing |
| `Spider.CollectStops` | scraper_schedule_of_classes/spiders/subject_courses_spider.py:262-265 | after a block has raised, later blocks change nothing |
| `Spider.PageItemsRaiseUncaught` | scraper_schedule_of_classes/spiders/subject_courses_spider.py:252-265 | what leaves course_meeting_items is never a ScraperError |
| `Spider.CourseMeetingItems` | scraper_schedule_of_classes/spiders/subject_courses_spider.py:252-265 | the generator yields and raises what `PageItems` specifies for the page's rows |
| `Spider.PageNumIn` | scraper_schedule_of_classes/spiders/subject_courses_spider.py:24 | what PAGE_NUM_REGEX captures is one digit or '+' |
| `Spider.LastCount` | scraper_schedule_of_classes/spiders/subject_courses_spider.py:203-208 | the count is at most 9, positive only if some cell matched, and a captured '+' raises ValueError |
| `Spider.LastCountNoMatch` | scraper_schedule_of_classes/spiders/subject_courses_spider.py:203 | with no matching cell the count stays 0 |
| `Spider.LastCountIgnores` | scraper_schedule_of_classes/spiders/subject_courses_spider.py:204-207 | cells that do not match leave the count as it was |
| `Spider.LastCountLastMatch` | scraper_schedule_of_classes/spiders/subject_courses_spider.py:204-207 | the last matching cell decides the count, whatever earlier cells gave |
| `Spider.LastCountStops` | scraper_schedule_of_classes/spiders/subject_courses_spider.py:204-207 | once int() has raised, later cells change nothing |
| `Spider.GetNumPages` | scraper_schedule_of_classes/spiders/subject_courses_spider.py:198-208 | the loop computes what `LastCount` specifies for what each right-aligned cell captures |
| `Spider.PageCountSingleDigit` | scraper_schedule_of_classes/spiders/subject_courses_spider.py:24 | "Page (n of d)" with a one-digit d gives d pages |
| `Spider.PageCountSeveralDigits` | scraper_schedule_of_classes/spiders/subject_courses_spider.py:24 | "Page (n of c)" with a count of two or more digits matches nowhere, so the page count stays 0 |
| `Spider.RequestPages` | scraper_schedule_of_classes/spiders/subject_courses_spider.py:177-189 | one request per page from 2 to n, in order |
| `Spider.Parse` | scraper_schedule_of_classes/spiders/subject_courses_spider.py:164-195 | an exception from the page count comes first and alone; a count of 0 yields nothing; otherwise the requests for pages 2 to n, then the page's course items, then whatever they raised |
| `Spider.ParseExtraPage` | scraper_schedule_of_classes/spiders/subject_courses_spider.py:242-250 | the course items of the page's matching rows, in order, and whatever they raised |
| `Pipelines.Classify` | scraper_schedule_of_classes/pipelines.py:112-143 | a meeting is a section meeting if and only if it is the first or a sectxt meeting with a sec_id; dated if and only if it is a nonenrtxt meeting with a date; an essential general meeting if and only if it is the first meeting without a sec_id, or a nonenrtxt meeting without a date whose number is the section group's |
| `Pipelines.Placed` | scraper_schedule_of_classes/pipelines.py:113-143 | a general meeting gets its essential flag set; section and dated meetings are appended unchanged |
| `Pipelines.SortTrack` | scraper_schedule_of_classes/pipelines.py:122-143 | sorting a track's meetings adds each of them to exactly one list |
| `Pipelines.Picked` | scraper_schedule_of_classes/pipelines.py:122-143 | a list receives from a track only meetings of its category, no more than the track has; section and dated meetings are the track's own, general ones carry an essential flag |
| `Pipelines.SortTrackPicks` | scraper_schedule_of_classes/pipelines.py:122-143 | after a track is sorted, each list is what it held before followed by the track's meetings of its category, in the track's order |
| `Pipelines.PickedEmptyIff` | scraper_schedule_of_classes/pipelines.py:122-143 | a list gets none of a track's meetings exactly when none of them is of its category |
| `Pipelines.PickedPartition` | scraper_schedule_of_classes/pipelines.py:122-143 | the section, general and dated shares of a track add up to the whole track |
| `Pipelines.SortTrackStep` | scraper_schedule_of_classes/pipelines.py:122-127 | one more meeting is appended to the list of its category, placed |
| `Pipelines.Copy` | scraper_schedule_of_classes/pipelines.py:98-101 | a header field is copied unchanged unless it is "", which TakeFirst drops |
| `Pipelines.CourseListsPicks` | scraper_schedule_of_classes/pipelines.py:112-143 | each list of a course is the first meeting's share, then the sectxt meetings' share, then the nonenrtxt meetings' share |
| `Pipelines.TracksKeepToTheirLists` | scraper_schedule_of_classes/pipelines.py:112-143 | a nonenrtxt meeting is never a section meeting, and the first and sectxt meetings are never dated |
| `Pipelines.CleanCourseDroppedIff` | scraper_schedule_of_classes/pipelines.py:146-152 | a course is dropped if and only if neither its first meeting nor any sectxt meeting has a sec_id |
| `Pipelines.CleanCourseCleaned` | scraper_schedule_of_classes/pipelines.py:95-154 | a cleaned course copies quarter, subject, number and title, takes section group and instructor from the first meeting, has at least one section meeting, has each list made of the tracks' shares, and holds every meeting of the item exactly once |
| `Pipelines.FirstMeetingLeads` | scraper_schedule_of_classes/pipelines.py:112-117 | the first meeting opens the section list when it has a sec_id, and otherwise opens the general list marked essential |
| `Pipelines.SortSectxt` | scraper_schedule_of_classes/pipelines.py:122-127 | the sectxt loop leaves the lists as `SortTrack` specifies for the sectxt track |
| `Pipelines.SortNonenrtxt` | scraper_schedule_of_classes/pipelines.py:133-143 | the nonenrtxt loop leaves the lists as `SortTrack` specifies for the nonenrtxt track |
| `Pipelines.ProcessCourseItem` | scraper_schedule_of_classes/pipelines.py:84-154 | an item from another spider is returned unchanged; otherwise the outcome is `CleanCourse` of the item: dropped or cleaned as the lemmas above describe |
| `Pipelines.SubjectNameOf` | scraper_schedule_of_classes/pipelines.py:50-51 | a name found is stripped; a display text without a match fails on `.group` with that text |
| `Pipelines.SubjectNameOfFailsIff` | scraper_schedule_of_classes/pipelines.py:25-51 | an entry fails exactly when the pattern matches at no position of its display text |
| `Pipelines.SubjectNameMatchesEntry` | scraper_schedule_of_classes/pipelines.py:25 | on "CODE - Name" the pattern matches at the start and captures the text after the dash |
| `Pipelines.SubjectNameRoundTrip` | scraper_schedule_of_classes/pipelines.py:43-51 | the display text "CODE - Name" of an upper-case code gives back the name, stripped |
| `Pipelines.CleanEntry` | scraper_schedule_of_classes/pipelines.py:49-55 | an entry is cleaned exactly when its name is found, into its stripped code and that name; otherwise it fails with its display text |
| `Pipelines.CleanAll` | scraper_schedule_of_classes/pipelines.py:48-55 | the cleaned list exists exactly when every entry is cleaned, and then holds each entry's result, in order |
| `Pipelines.CleanAllFirstFailure` | scraper_schedule_of_classes/pipelines.py:48-55 | a failure is that of the first entry that fails |
| `Pipelines.CleanAllStops` | scraper_schedule_of_classes/pipelines.py:48-55 | once an entry has failed, later entries change nothing |
| `Pipelines.CleanSubjectsMeaning` | scraper_schedule_of_classes/pipelines.py:48-55 | cleaning succeeds if and only if every entry has a name, and then pairs each stripped code with its name in order; otherwise it fails on the first entry without one |
| `Pipelines.ProcessSubjects` | scraper_schedule_of_classes/pipelines.py:27-67 | an item from another spider passes through; a missing subject list cannot be iterated; otherwise the cleaned list is saved, or the first failing entry's exception leaves the call |
| `Encoder.IsoFormat` | scraper_schedule_of_classes/utils.py:123-124 | a time is written "HH:MM:00", whose two-digit fields stand for its hour and minute |
| `Encoder.Default` | scraper_schedule_of_classes/utils.py:121-125 | a time is encoded as an eight-character text that reads back as the same time; any other value raises TypeError |
| `Encoder.ReadIsoTimeExact` | scraper_schedule_of_classes/utils.py:123-124 | every text that reads back as a valid time is the ISO text of that time |
| `Encoder.IsoFormatInjective` | scraper_schedule_of_classes/utils.py:123-124 | different times are written differently |

## Left out

- HTML parsing with BeautifulSoup is not modelled. A page is given as its right-aligned cell texts and its elements in document order. A row is its tag name, its class list, its `td` cells (class list, text, first link text) and its whole text.
- The URLs, query payloads, `scrapy.Request` objects and `start_requests` are not modelled. A request is modelled by the page number it asks for.
- The database is not modelled: `insert_subjects`, commit and rollback, and the connection handling of `open_spider` and `close_spider`. `Saved` carries the list handed to the database; the success message is not modelled.
- `CoursePersistencePipeline`, `item_uploader.py`, the run scripts and `subjects_spider.py` are not part of this model.
- `Meeting` and `MeetingLoader` (items.py lines 80-94) are not used by any modelled code and are not modelled.
- The parsers of utils.py (lines 39-118) are the same code as the spider's parsers. One model covers both, and the table cites the spider's copy.
- `Pipelines.ProcessCourseItem`: the source sets `essential` on the input item's meeting dicts in place, so the input item is changed too. The model works on values: the placed meetings appear in the cleaned course, and the input is not shown as changed.
- `Pipelines.ProcessCourseItem`: the text of the DropItem message is not modelled; `Dropped` stands for the exception.
- `Pipelines.ProcessCourseItem`: an item without a `first_meeting` would raise AttributeError on `None.get`. The model's item always has a first meeting. `build_item_from_group` only yields items whose first meeting was built.
- `Pipelines.ProcessSubjects`: a KeyError for an entry without a "code" or "value" key is not modelled; an entry always has both.
- `Spider.PageCountSingleDigit`: PAGE_NUM_REGEX captures a single character (`([0-9+])`), so a listing of ten pages or more reads as 0 pages and `parse` yields nothing. The model keeps this as written, and `Spider.PageCountSeveralDigits` states it.
- `Patterns`: Python's regular-expression engine is not modelled in general. Each pattern the program uses has its own matcher, written from the pattern's text, and `Search` takes the leftmost position where it matches.
