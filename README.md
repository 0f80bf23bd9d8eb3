# Timetable parser, modelled in Dafny

This project models the parsing engine of a tool that turns a university
course-table spreadsheet into calendar courses. The sheet is taken as
already loaded. Its row 1 names the weekday columns, and its column 0 names
the big periods (`第一大节` … `第五大节`). Each cell holds one or more course
groups of four lines: name, teacher, weeks, room.

The engine has two variants, and the model covers both side by side.

The live parser is `course_parser.py`. It does the following:
- It normalises course and room names.
- It decodes each cell in strides of four lines, dropping groups whose weeks are empty.
- It parses week text such as `1-11,13-14[周]` into a sorted, de-duplicated list.
- It looks up the period numbers and the weekday.
- It walks the grid.
- It merges the records by (name, teacher, classroom) into a flat list of `Course`s.
- Each `Course` gets a map location derived from its room.

The older parser is `parse_courses.py`. It differs from the live one in these ways:
- It decodes raw lines.
- It parses weeks with two `findall` passes.
- It keeps groups whose weeks are empty.
- It returns the walk's records unmerged.

Module layout:
- `Text`: the string primitives the source relies on: `strip`, `split`, `in` and `int()` of a digit run.
- `Normalize`: it models `normalize_course_name` and `normalize_classroom_name`.
- `Location`: it models `classroom_to_location`, including its five building patterns.
- `Ordered`: it models `sorted(list(set(...)))` and `range`.
- `WeekParser` and `LegacyWeekParser`: they model the two `parse_weeks`.
- `Records`: the record types, plus the teacher rule `name(title)` that both decoders share.
- `Decoder` and `LegacyDecoder`: they model the two `parse_course_info`.
- `Tables` and `LegacyTables`: they model the two pairs of lookup tables.
- `Grid`: the row and column walk of `parse_timetable_from_xls`, shared by both parsers through a `Parser` value that holds the parser's decoder and tables.
- `Merge`: it models `merge_duplicate_courses`.
- `CourseParser` and `ParseCourses`: the two pipelines, each running from the loaded sheet to its result.
- `*Examples` modules: the values named in the source's comments and test scripts.

How each part is modelled:
- Pure code is written as functions with contracts.
- Each loop of the source is a `method` with its own loop, proved equal to the specification function. These loops are:
  - the decoder's `while`;
  - `parse_weeks`'s `for`;
  - the merger's two passes;
  - the grid's nested loops.
- A loop body is often a step method, so that each proof stays small.
- The merger's dictionary is modelled as two pieces:
  - the list of keys in insertion order, which is the order Python's `dict` iterates in;
  - a `map` from each key to its list of schedules.
- The grid is a `seq<seq<Option<string>>>` with a column count. `None` stands for a cell that `pd.isna` reports as missing.
- The engine never raises an error itself; its only failure comes from pandas. `df.iloc` raises `IndexError` in two cases, and both are modelled as an error outcome:
  - reading `iloc[1, col]` on a sheet with fewer than two rows;
  - reading `iloc[row, 0]` on a sheet with no columns.

Where the code and its comments disagree, the model follows the code:
- The `JB区` building pattern (`course_parser.py:82`) is not anchored at its end, so `re.sub` rewrites only the matched prefix. `JB区乒乓球馆室` therefore becomes `山东科技大学JB区乒乓球馆室`, not `山东科技大学JB区乒乓球馆` as the comment says. `LocationExamples.LocationExampleJBZone` proves the code's result.
- `merge_duplicate_courses` says it merges the time slots of one course. In fact it returns one `Course` per schedule (`course_parser.py:224-234`). The model returns that flat list.

Behaviour of the code that the proofs make explicit:
- The live decoder checks that the name line is not empty before it normalises it. A name such as `（实验）` normalises to `""` and is still emitted; `Decoder.WholeGroupNameEmitted` proves this.
- The teacher sentinel `未知教师` never reaches an emitted record. A group without a teacher line has no week line either, so the decoder drops it. `Decoder.RecordFields` proves this.
- On `3-1` the live week parser gives no week, while the older parser gives week 1.

## Model

| member | source | states |
|---|---|---|
| Text.Strip | course_parser.py:15 | `str.strip()`: no whitespace at either end; empty exactly when every character is whitespace |
| Text.Split | course_parser.py:102 | `str.split(sep)`: never empty, no piece holds the separator, joining the pieces with it gives the text back |
| Normalize.RemoveGroups | course_parser.py:18-21 | one `re.sub` of `（[^）]*）` or `\([^)]*\)`: no longer than the input, only input characters, and no opening delimiter followed later by a closing one |
| Normalize.Collapse | course_parser.py:24 | `re.sub(r'\s+', ' ', …)`: whitespace is single plain spaces; empty exactly when the input is; every other character comes from the input |
| Normalize.NormalizeCourseName | course_parser.py:12-26 | empty name returned unchanged; otherwise no full-width group, no ASCII group, no whitespace at the ends, whitespace collapsed |
| Normalize.CollapseNonSpace | course_parser.py:24 | collapsing whitespace keeps every other character, in order: the non-whitespace characters of the result are those of the input |
| Normalize.CollapseAppend | course_parser.py:24 | a text ending in a non-space collapses independently of what follows it |
| Normalize.CollapseSpaceRun | course_parser.py:24 | a maximal whitespace run between two other texts becomes exactly one space |
| Normalize.NormalizeCourseNameNoop | course_parser.py:12-26 | a non-empty name with no group, no whitespace at its ends and collapsed whitespace is returned unchanged |
| Normalize.NormalizeCourseNameContent | course_parser.py:12-26 | apart from whitespace, the normalised name is the stripped name with its full-width groups and then its ASCII groups removed |
| Normalize.NormalizeWholeGroup | course_parser.py:12-26 | a name that is one full-width group and nothing else normalises to the empty name |
| Normalize.RemoveGroupsKeeps | course_parser.py:18-21 | removing ASCII groups cannot bring back a full-width group |
| Normalize.CollapseKeeps | course_parser.py:24 | collapsing whitespace cannot create a group |
| Normalize.RemoveGroupsNoop | course_parser.py:18-21 | a string without groups passes the removal unchanged |
| Normalize.CollapseNoop | course_parser.py:24 | collapsed whitespace passes the collapse unchanged |
| Normalize.NormalizeCourseNameIdempotent | course_parser.py:6-26 | normalising a name twice gives the same name as normalising it once |
| Normalize.NormalizeClassroomName | course_parser.py:33-42 | empty room returned unchanged; otherwise stripped, a leading `Js<digit>` rewritten to `S<digit>` with the rest kept, anything else only stripped; the result never starts `Js<digit>` |
| Normalize.NormalizeClassroomNameIdempotent | course_parser.py:28-42 | normalising a room twice gives the same room as normalising it once |
| Normalize.RemoveGroupsGroup | course_parser.py:18 | a group whose inside holds no closing delimiter is removed whole |
| NormalizeExamples.CourseNameExampleCircuit | test_normalize_name.py:16 | `电路（2）` gives `电路` |
| NormalizeExamples.CourseNameExampleTwoGroups | test_normalize_name.py:18 | `高等数学（B）（2-1）` gives `高等数学` |
| NormalizeExamples.CourseNameExamplePlain | test_normalize_name.py:19 | `线性代数` is returned as it is |
| NormalizeExamples.CourseNameExampleAsciiGroup | test_normalize_name.py:20 | `程序设计基础(C语言)` gives `程序设计基础` |
| NormalizeExamples.CourseNameExampleOnlyGroup | course_parser.py:12-26 | `（实验）` gives the empty name |
| NormalizeExamples.CourseNameExampleSpaceBeforeGroup | test_normalize_name.py:23 | `大学物理 （实验）` gives `大学物理` |
| NormalizeExamples.ClassroomNameExample | course_parser.py:31 | `Js1-305室` gives `S1-305室` |
| Location.FirstFrom | course_parser.py:84 | the least split point in a range satisfying the match, and none below it: the order a lazy group tries |
| Location.LetterCodeUnique | course_parser.py:80-81 | a `J<n>-<m>` or `S<n>-<m>` match has one split only |
| Location.MatchLetterCode | course_parser.py:80-81 | matches exactly when `^(J\d+)-\d+室?$` (or the `S` form) does, and then gives the campus name and the building code |
| Location.RunOutsideDashAndRoom | course_parser.py:82 | the longest leading run of characters other than `-` and `室` |
| Location.MatchJBZone | course_parser.py:82 | matches exactly when the room starts `JB区` and one character other than `-`/`室`; gives the campus name followed by the whole room |
| Location.MatchTraining | course_parser.py:83 | matches exactly when `^实训.+-\d+室?$` does; gives the engineering-training building |
| Location.MatchGeneric | course_parser.py:84 | matches exactly when some split fits `^([^-]*?[^\d-])[A-Z]?\d+.*$`; gives the campus and the shortest fitting group |
| Location.BuildingMatch | course_parser.py:79-90 | the first matching building pattern; any match starts with the campus name and is longer than it |
| Location.Resolve | course_parser.py:63-93 | after the blank check: empty exactly for the two sentinel rooms or a course containing `体育`; an online room is returned as it is; anything else starts with the campus name |
| Location.ClassroomToLocation | course_parser.py:44-93 | total; empty exactly when the room is exempt (blank, `未知教室`, `线上虚拟教室`, or a `体育` course); an online room is returned normalised; every other room gives a location starting with the campus name |
| Location.LocationOfBuilding | course_parser.py:87-93 | past the exemptions and the online check: the first building match, else the campus followed by the room |
| Location.BuildingOfJCode | course_parser.py:80 | rule 1: `J7-106室` style gives the campus and `J7` |
| Location.BuildingOfSCode | course_parser.py:81 | rule 2: an `S` building code gives the campus and the code |
| Location.BuildingOfJBZone | course_parser.py:82 | rule 3: a `JB区` room gives the campus and the whole room |
| Location.BuildingOfTraining | course_parser.py:83 | rule 4: a `实训…-<m>` room gives the engineering-training building |
| Location.BuildingOfGeneric | course_parser.py:84 | rule 5: when rules 1-4 fail, the shortest dash-free prefix ending in a non-digit before an optional capital and a digit |
| Location.BuildingNone | course_parser.py:87-93 | when no pattern matches there is no building |
| Location.UnknownRoomHasNoLocation | course_parser.py:63-64 | the unknown-room sentinel gives no location for any course |
| LocationExamples.LocationExampleJ7 | test_unknown_classroom.py:22 | `J7-106室` gives `山东科技大学J7` |
| LocationExamples.LocationExamplePinXue | test_unknown_classroom.py:23 | `品学楼B107` gives `山东科技大学品学楼` |
| LocationExamples.LocationExampleUnknown | test_unknown_classroom.py:24 | `未知教室` gives no location |
| LocationExamples.LocationExampleVirtual | test_unknown_classroom.py:25 | `线上虚拟教室` gives no location |
| LocationExamples.LocationExampleBlank | test_unknown_classroom.py:26 | a blank room gives no location |
| LocationExamples.LocationExamplePhysicalEducation | course_parser.py:71-72 | a `体育` course gives no location even in a building room |
| LocationExamples.LocationExampleJBZone | course_parser.py:82 | `JB区乒乓球馆室` gives `山东科技大学JB区乒乓球馆室`, the whole room kept |
| Ordered.Range | course_parser.py:161 | `range(a, b + 1)`: the integers `a..b` in order, empty when `a > b` |
| Ordered.Insert | course_parser.py:168 | adding a value to an ascending list keeps it ascending; its members are the list's and the value |
| Ordered.SortedUnique | course_parser.py:168 | `sorted(list(set(xs)))`: strictly ascending, same members as `xs` |
| Ordered.AscendingUnique | course_parser.py:168 | two ascending lists with the same members are equal |
| Ordered.SortedUniqueOfSameSet | course_parser.py:168 | the result depends only on the set of values |
| Ordered.SortedUniqueNoop | course_parser.py:168 | an ascending list is its own sorted set |
| Ordered.FlattenMembers | course_parser.py:161-166 | a value is in the accumulated list exactly when one contribution holds it |
| WeekParser.RemoveMarkers | course_parser.py:148 | deleting the `[周]`/`[单周]`/`[双周]` markers: no longer, no new characters, unchanged without `[` |
| WeekParser.RemoveMarkersWeek | course_parser.py:148 | a leading `[周]` is cut |
| WeekParser.RemoveMarkersParity | course_parser.py:148 | a leading `[单周]` or `[双周]` is cut |
| WeekParser.RemoveMarkersPlain | course_parser.py:148 | a character that starts no marker is kept |
| WeekParser.RemoveTrailingMarker | course_parser.py:148 | a marker at the end is deleted whichever kind it is |
| WeekParser.MatchRange | course_parser.py:158 | `re.match(r'(\d+)-(\d+)')`: found exactly when the part starts with a range, and then its two numbers |
| WeekParser.MatchNumber | course_parser.py:164 | `re.match(r'(\d+)')`: found exactly when the part starts with a digit, and then its leading number |
| WeekParser.ContributionRange | course_parser.py:156-161 | a part with a dash starting `a-b` contributes exactly `a..b` |
| WeekParser.ContributionNoRange | course_parser.py:156-159 | a part with a dash not starting `a-b` contributes nothing |
| WeekParser.ContributionNumber | course_parser.py:162-166 | a part without a dash starting with digits contributes that number |
| WeekParser.ContributionNoNumber | course_parser.py:162-165 | a part without a dash and without a leading digit contributes nothing |
| WeekParser.Weeks | course_parser.py:142-168 | empty text gives `[]`; strictly ascending; a week is in the result exactly when some comma part contributes it |
| WeekParser.PartContribution | course_parser.py:155-166 | one pass of the loop yields the weeks its part contributes: a range on a dash, else one number |
| WeekParser.AccumulateWeeks | course_parser.py:153-166 | the loop's list is every part's contribution, in order |
| WeekParser.ParseWeeks | course_parser.py:142-168 | the method's result is `Weeks(text)` |
| WeeksExamples.WeeksExampleTwoRanges | course_parser.py:152 | `1-11,13-14[周]` gives weeks 1..11, 13, 14 |
| WeeksExamples.WeeksExampleEvenMarker | course_parser.py:148 | `1-4[双周]` gives 1, 2, 3, 4: no parity filtering |
| WeeksExamples.WeeksExampleDescending | course_parser.py:161 | `3-1` gives no week |
| LegacyWeekParser.FindRanges | parse_courses.py:59 | `re.findall(r'(\d+)-(\d+)')` scanning left to right without overlap: none without a dash, at most one per three characters |
| LegacyWeekParser.FindRangesSound | parse_courses.py:59 | every pair found is the two numbers of a range match at some position not preceded by a digit, both digit runs taken whole |
| LegacyWeekParser.FindRangesComplete | parse_courses.py:59 | every range match at a position not preceded by a digit, and not directly after a `<digit>-` (where an earlier match may have consumed it), is found |
| LegacyWeekParser.RangeEnd | parse_courses.py:59 | where the `(\d+)-(\d+)` match at the front ends: present exactly when a range stands there, both digit runs taken whole |
| LegacyWeekParser.FindSingles | parse_courses.py:64 | `re.findall(r'(?<!\d)(\d+)(?![-\d])')`: the whole digit runs not followed by a dash |
| LegacyWeekParser.SinglesMembers | parse_courses.py:64 | a value is found exactly when some maximal digit run not followed by `-` has that value |
| LegacyWeekParser.RangeLists | parse_courses.py:60-61 | each range found expands to `a..b` |
| LegacyWeekParser.LegacyWeeks | parse_courses.py:49-68 | empty text gives `[]`; strictly ascending; a week is in the result exactly when a range found covers it or a free-standing number equals it |
| LegacyWeekParser.LegacyWeeksFromRange | parse_courses.py:59-61 | a week covered by a range match of the marker-free text that no earlier match can consume is in the result |
| LegacyWeekParser.LegacyWeeksOrigin | parse_courses.py:59-66 | every week of the result is a free-standing number of the marker-free text or lies within the two numbers of a range match in it |
| LegacyWeekParser.AccumulateLegacyWeeks | parse_courses.py:57-66 | the two loops' list is the expanded ranges followed by the free-standing numbers |
| LegacyWeekParser.LegacyParseWeeks | parse_courses.py:49-68 | the method's result is `LegacyWeeks(text)` |
| LegacyWeeksExamples.LegacyWeeksExampleTwoRanges | parse_courses.py:58 | `1-11,13-14[周]` gives 1..11, 13, 14, as the live parser does |
| LegacyWeeksExamples.LegacyWeeksExampleDescending | parse_courses.py:59-66 | `3-1` gives `[1]` |
| LegacyWeeksExamples.ParsersDisagreeOnDescendingRange | parse_courses.py:59-66 | on `3-1` the live parser gives `[]` and the older one `[1]` |
| Records.Teacher | course_parser.py:112-113 | the teacher is a prefix of its line |
| Records.TeacherRule | course_parser.py:112-113 | where `([^(]+)\([^)]*\)` matches, the teacher is the text before the first `(`; where it does not, the whole line |
| Records.TeacherExample | course_parser.py:110 | `张三(教授)` gives `张三` |
| Decoder.CleanLines | course_parser.py:102 | the kept lines are stripped and non-empty, and no more than the input lines |
| Decoder.CleanLinesMembers | course_parser.py:102 | a line is kept exactly when it is the stripped form of a non-blank input line |
| Decoder.NonBlankIndices | course_parser.py:102 | the filter `if line.strip()` keeps exactly the non-empty items, in their order: the k-th kept item is the item at the k-th of a strictly increasing list of indices, which lists every non-empty item |
| Decoder.CleanLinesIndices | course_parser.py:102 | the k-th kept line is the stripped k-th non-blank input line: kept lines match a strictly increasing list of input indices covering every non-blank line |
| Decoder.Group | course_parser.py:105-138 | a group yields a record exactly when its name line is non-empty and its week line exists and parses to weeks; then its name is normalised, its teacher follows the teacher rule, and its room is the normalised room line or `未知教室` |
| Decoder.StridedMembers | course_parser.py:104-138 | an element of the stride-4 concatenation is exactly an element of one group |
| Decoder.StridedCount | course_parser.py:138 | at most one record per four lines |
| Decoder.DecodeFrom | course_parser.py:104-138 | the records from line `i` on: at most one per four lines |
| Decoder.DecodeUnfold | course_parser.py:105-138 | decoding reads a group and moves on by four lines |
| Decoder.DecodeMembers | course_parser.py:104-138 | a record is decoded exactly when it is the record of a group starting at a multiple of four |
| Decoder.DecodeSource | course_parser.py:104-138 | every decoded record is the one record of the group at some start line |
| Decoder.DecodedWeeks | course_parser.py:130 | every decoded record has non-empty, strictly ascending weeks |
| Decoder.CourseInfos | course_parser.py:97-98 | blank text gives no records |
| Decoder.CourseInfosRecords | course_parser.py:95-140 | every record of a cell has non-empty ascending weeks; at most one record per four lines |
| Decoder.CleanLinesNoop | course_parser.py:102 | already clean lines are kept as they are |
| Decoder.RecordFields | course_parser.py:107-136 | every record's name, teacher and weeks come from lines `j`, `j+1`, `j+2` of one group, so the `未知教师` sentinel never appears |
| Decoder.WholeGroupNameEmitted | course_parser.py:130-132 | a group whose name line is one full-width group and whose weeks parse is emitted, with the empty name |
| Decoder.ShortGroupRoom | course_parser.py:124-128 | a final three-line group gets `未知教室`, which has no location |
| Decoder.DecodeGroup | course_parser.py:107-136 | one pass of the loop body yields `Group(lines, i)` |
| Decoder.DecodeStep | course_parser.py:105-138 | one pass keeps `courses + rest` equal to the full decoding |
| Decoder.DecodeLines | course_parser.py:104-140 | the `while` loop yields `DecodeFrom(lines, 0)` |
| Decoder.ParseCourseInfo | course_parser.py:95-140 | the method's result is `CourseInfos(text)` |
| LegacyDecoder.LegacyGroup | parse_courses.py:21-43 | a group yields a record exactly when its four lines exist; name and room are only stripped; weeks are the older parser's, even when empty |
| LegacyDecoder.LegacyDecodeFrom | parse_courses.py:15-45 | at most one record per four lines |
| LegacyDecoder.LegacyCourseInfos | parse_courses.py:8-9 | blank text gives no records |
| LegacyDecoder.LegacySkipsBlank | parse_courses.py:17-19 | a blank line at a group start is skipped on its own |
| LegacyDecoder.LegacyReadsGroup | parse_courses.py:21-45 | a non-blank line starts a group, and decoding resumes four lines on |
| LegacyDecoder.LegacyRecordOrigin | parse_courses.py:15-45 | every record is the record of a group with a non-blank first line and all four lines present |
| LegacyDecoder.LegacyRecordsTrimmed | parse_courses.py:22-36 | names are non-blank; names and rooms are trimmed |
| LegacyDecoder.LegacyInteriorBlank | parse_courses.py:23-27 | a blank line inside a group is kept: as teacher line it gives an empty teacher |
| LegacyDecoder.TeacherOfBlank | parse_courses.py:25-27 | the teacher of a blank line is empty |
| LegacyDecoder.WeeklessGroupDiffers | parse_courses.py:29-43 | on a group whose weeks the live parser reads as none, the live decoder drops it and the older one keeps it |
| LegacyDecoder.ShortGroupDiffers | parse_courses.py:34-43 | on a three-line group the live decoder gives one record with `未知教室`, the older one none |
| LegacyDecoder.LegacyDecodeGroup | parse_courses.py:21-43 | one pass of the loop body on a non-blank line yields `LegacyGroup(lines, i)` |
| LegacyDecoder.LegacyDecodeStep | parse_courses.py:16-45 | one pass keeps `courses + rest` equal to the full decoding |
| LegacyDecoder.LegacyDecodeLines | parse_courses.py:15-47 | the `while` loop yields `LegacyDecodeFrom(lines, 0)` |
| LegacyDecoder.LegacyParseCourseInfo | parse_courses.py:6-47 | the method's result is `LegacyCourseInfos(text)` |
| Tables.TimeSlotToIndex | course_parser.py:170-181 | non-empty exactly for the five big-period names; the k-th (from 1) gives `[2k-1, 2k]` |
| Tables.WeekdayNameToNumber | course_parser.py:183-192 | 0 to 7; non-zero exactly for the seven day names; the k-th gives k |
| Tables.WeekdayNumberNamesDay | course_parser.py:183-192 | a non-zero number names back its day |
| LegacyTables.LegacyTimeSlotToIndex | parse_courses.py:70-79 | agrees with the live table on every name |
| LegacyTables.LegacyWeekdayNameToNumber | parse_courses.py:81-92 | agrees with the live table on every name |
| Grid.WeekdayColumns | course_parser.py:253-257 | the columns `1..n-1` whose row-1 cell contains `星期`, ascending, each with its header text, and every such column listed |
| Grid.Tag | course_parser.py:287-295 | one entry per decoded record, in order, each tagged with the weekday and the periods |
| Grid.Timetable | course_parser.py:253-295 | the walk fails exactly when the sheet's shape makes `iloc` raise: two or more columns with fewer than two rows, or no column with more than two rows |
| Grid.CellMembers | course_parser.py:276-295 | a cell contributes exactly its decoded records, tagged, when it is present and its day known |
| Grid.RowMembers | course_parser.py:272-295 | a row contributes exactly what its weekday columns contribute |
| Grid.RowOfMembers | course_parser.py:262-295 | a row contributes nothing unless its label contains `第` and names a big period |
| Grid.WalkOrigin | course_parser.py:262-295 | every record of the walk comes out of one cell of the rows walked |
| Grid.WalkComplete | course_parser.py:262-295 | every record of a walked row is in the walk |
| Grid.ColumnProduces | course_parser.py:272-295 | a weekday column of a row contributes exactly what its cell produces |
| Grid.WalkedRows | course_parser.py:253-295 | a walk that does not raise reads the rows after the header under the header's weekday columns |
| Grid.TimetableOrigin | course_parser.py:253-295 | every record of the walk is produced by a cell in row ≥ 2 and a weekday column whose label, day and cell pass the skip rules |
| Grid.EntrySource | course_parser.py:262-295 | the label, day name, cell text and decoded record each walk record comes from |
| Grid.TimetableComplete | course_parser.py:253-295 | every record such a cell produces is in the walk |
| Grid.FindWeekdayColumns | course_parser.py:253-257 | the header loop yields `WeekdayColumns` |
| Grid.TagRecords | course_parser.py:287-295 | the innermost loop yields `Tag` |
| Grid.WalkCell | course_parser.py:273-295 | one column pass extends the row's records by that column's |
| Grid.WalkRow | course_parser.py:272-295 | the column loop yields the row's records |
| Grid.WalkTimetable | course_parser.py:253-295 | the nested loops yield `Timetable` |
| Merge.Select | course_parser.py:196-221 | the records of one key, in input order |
| Merge.Keys | course_parser.py:196-221 | the dictionary's keys: no key twice |
| Merge.SelectMembers | course_parser.py:199-221 | a group holds exactly the records with its key |
| Merge.SelectAppend | course_parser.py:196-221 | selecting from two pieces is selecting from each |
| Merge.KeysMembers | course_parser.py:202-221 | a key is in the dictionary exactly when some record has it |
| Merge.KeysPrefix | course_parser.py:202-221 | the keys of any prefix of the input come first, in the same order: first-seen order |
| Merge.ConcatSelect | course_parser.py:224-234 | the regrouped records of one key are that key's group |
| Merge.ConcatPermutes | course_parser.py:224-234 | regrouping by keys that cover every record keeps the multiset |
| Merge.ConcatKeysOrder | course_parser.py:224-234 | the regrouped records list their keys in the dictionary's order |
| Merge.ConcatContiguous | course_parser.py:224-234 | the regrouped records of one key are contiguous |
| Merge.MergePermutes | course_parser.py:194-236 | the output has the input's length and the same multiset of (name, teacher, classroom, weekday, weeks, indexes) |
| Merge.MergeContiguous | course_parser.py:194-236 | records sharing a key are contiguous in the output |
| Merge.MergeKeepsOrder | course_parser.py:194-236 | the records of one key keep their input order |
| Merge.MergeKeyOrder | course_parser.py:194-236 | the output's keys appear in first-seen input order |
| Merge.MergeLocations | course_parser.py:228-231 | every location is `classroom_to_location(classroom, name)`, so one key has one location |
| Merge.TallySeen | course_parser.py:200-206 | a record whose key is already present appends its schedule under that key and leaves the key order as it is |
| Merge.TallyNew | course_parser.py:207-217 | a record with a new key puts the key last in the order, holding that record's schedule alone |
| Merge.MergeStep | course_parser.py:198-221 | one pass of the first loop keeps the dictionary equal to the grouping of the records read |
| Merge.EmitGroup | course_parser.py:225-234 | the courses built from a key's stored schedules are its records, located |
| Merge.EmitSchedules | course_parser.py:225-234 | the inner result loop appends one `Course` per schedule |
| Merge.EmitStep | course_parser.py:224-234 | one pass of the outer result loop appends one key's group |
| Merge.MergeDuplicateCourses | course_parser.py:194-236 | the method's result is `Merged(courses)` |
| CourseParser.ParsedTimetable | course_parser.py:253-298 | the live pipeline fails exactly on the sheets that make `iloc` raise |
| CourseParser.TablesRange | course_parser.py:170-192 | a known day gives 1..7 and a known label one big-period pair |
| CourseParser.LiveEntry | course_parser.py:262-295 | every live record has a weekday in 1..7, periods `[2k-1, 2k]` for some k in 1..5, and non-empty ascending weeks |
| CourseParser.LiveCourses | course_parser.py:253-298 | the merged output has as many courses as the walk has records, each one of them, located from its classroom and name |
| CourseParser.ParseTimetable | course_parser.py:253-298 | walk then merge yields `ParsedTimetable` |
| ParseCourses.SameSkipRules | parse_courses.py:70-92 | the older tables give the same periods and weekdays, so both walks skip the same rows and columns |
| ParseCourses.LegacyCellRecord | parse_courses.py:6-47 | every record of a cell has a trimmed non-blank name, a trimmed room and ascending weeks |
| ParseCourses.LegacyEntry | parse_courses.py:119-154 | every older record has a weekday in 1..7, one big-period pair, trimmed name and room, and ascending (possibly empty) weeks |
| ParseCourses.LegacyParseTimetable | parse_courses.py:109-156 | the older walk, unmerged, yields `Timetable` with the older decoder and tables |

## Left out

- File discovery and loading (`glob`, `pd.read_excel`, `course_parser.py:240-248`, `parse_courses.py:96-104`): file I/O. The sheet is a parameter; `pd.isna` is `None`.
- The `str()` coercion of non-string cells (`course_parser.py:256-257`, `264-267`, `285`, and the same lines of `parse_courses.py`): cells are taken to be strings already, and a non-string cell such as a number is not modelled.
- `pd.isna(course_text)` in both decoders: the walk only passes present cells, so the decoders take a string.
- The pipelines are assumed to get a rectangular sheet with a known column count, as a data frame always is.
- Console output (`print_course_summary`, the diagnostic `print`s) and the message and early `return []` when no spreadsheet file is found.
- `data.py` (`Course.title`, `School`, `Weeks`/`OddWeeks`/`EvenWeeks`/`Geo`, calendar output) is not part of this model; `Course` is a plain record.
- `main.py`, `upload_and_qr.py`, `qr_tool.py`, `build_exe.py` and the scripts that print results of parsing a real file: interactive I/O, networking, image rendering and packaging.
- Unicode character classes: Python's `\s` and `\d` also match further non-ASCII whitespace and digits. The model's whitespace is the six ASCII whitespace characters, the four separators U+001C–U+001F, U+00A0 and U+3000; other Unicode spaces (U+0085, U+1680, U+2000–U+200A, U+2028, U+2029, U+202F, U+205F) are not included, and its digits are `0`-`9`.
- LegacyWeeks: its own contract states the range half through `FindRanges`. `LegacyWeeksOrigin` and `LegacyWeeksFromRange` restate it over range matches in the text, but a match directly after `<digit>-` (`3-4` in `1-2-3-4`) is found only when the scan reaches it; those two lemmas do not decide that case, and `FindRanges` itself does.
- Grid.WalkTimetable: the walk calls the decoder as a function value; the decoder's own loop is `Decoder.ParseCourseInfo`, proved equal to that function.
- Merge.MergeDuplicateCourses: Python's `dict` is modelled as its insertion-ordered key list plus a `map` from each key to its schedules.
