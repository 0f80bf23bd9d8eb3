/**
 * `parse_timetable_from_xls` of the live parser, from the loaded sheet on:
 * the walk with the live cell decoder and tables, then the merge.
 */
module CourseParser {
  import opened Text
  import opened Wrappers
  import opened Records
  import opened Ordered
  import Grid
  import Tables
  import Decoder
  import Merge
  import Location

  /** The live cell decoder and lookup tables. */
  const Live: Grid.Parser := Grid.Parser(Decoder.CourseInfos, Tables.TimeSlotToIndex, Tables.WeekdayNameToNumber)

  /** The merged courses of a sheet, or `None` for the index error its shape provokes. */
  function ParsedTimetable(cells: Grid.Sheet, width: nat): (r: Option<seq<Course>>)
    requires Grid.Rectangular(cells, width)
    ensures r.None? <==> (width >= 2 && |cells| < 2) || (width == 0 && |cells| > 2)
  {
    match Grid.Timetable(Live, cells, width)
    case IndexError => None
    case Walked(es) => Some(Merge.Merged(es))
  }

  /** A big-period period gives the two periods of one of the five big periods. */
  predicate IsSlotPair(indexes: seq<int>) {
    exists k :: 1 <= k <= 5 && indexes == [2 * k - 1, 2 * k]
  }

  /** A known day name gives 1 to 7, a known big-period label one big period. */
  lemma TablesRange(period: string, name: string)
    requires Tables.TimeSlotToIndex(period) != [] && Tables.WeekdayNameToNumber(name) != 0
    ensures 1 <= Tables.WeekdayNameToNumber(name) <= 7 && IsSlotPair(Tables.TimeSlotToIndex(period))
  {
    var k :| 0 <= k < |Tables.SlotNames| && period == Tables.SlotNames[k];
    assert Tables.TimeSlotToIndex(period) == [2 * (k + 1) - 1, 2 * (k + 1)];
  }

  /** The live skip rules: a record's day is a known weekday and its periods are one big period. */
  lemma LiveEntry(cells: Grid.Sheet, width: nat, e: Entry)
    requires Grid.Rectangular(cells, width) && Grid.Timetable(Live, cells, width).Walked?
    requires e in Grid.Timetable(Live, cells, width).entries
    ensures 1 <= e.weekday <= 7 && IsSlotPair(e.indexes)
    ensures e.weeks != [] && StrictlyAscending(e.weeks)
  {
    var period, name, text, info := Grid.EntrySource(Live, cells, width, e);
    TablesRange(period, name);
    Decoder.CourseInfosRecords(text);
  }

  /**
   * The merged courses are the walk's records regrouped: as many, the same
   * ones, each located from its own classroom and name, each with a known
   * weekday, one big period and a non-empty ascending week list.
   */
  lemma LiveCourses(cells: Grid.Sheet, width: nat)
    requires Grid.Rectangular(cells, width) && Grid.Timetable(Live, cells, width).Walked?
    ensures var es := Grid.Timetable(Live, cells, width).entries;
      var cs := ParsedTimetable(cells, width).value;
      |cs| == |es| && multiset(Merge.Grouped(es)) == multiset(es)
      && forall i :: 0 <= i < |cs| ==>
        (Merge.EntryOf(cs[i]) in es && cs[i].location == Location.ClassroomToLocation(cs[i].classroom, cs[i].name)
        && 1 <= cs[i].weekday <= 7 && IsSlotPair(cs[i].indexes) && cs[i].weeks != [] && StrictlyAscending(cs[i].weeks))
  {
    var es := Grid.Timetable(Live, cells, width).entries;
    var cs := Merge.Merged(es);
    Merge.MergePermutes(es);
    Merge.MergeLocations(es);
    forall i | 0 <= i < |cs|
      ensures Merge.EntryOf(cs[i]) in es
      ensures 1 <= cs[i].weekday <= 7 && IsSlotPair(cs[i].indexes) && cs[i].weeks != [] && StrictlyAscending(cs[i].weeks)
    {
      var g := Merge.Grouped(es);
      assert g[i] in multiset(g);
      LiveEntry(cells, width, g[i]);
    }
  }

  /** The live `parse_timetable_from_xls` after loading: walk the sheet, then merge. */
  method ParseTimetable(cells: Grid.Sheet, width: nat) returns (r: Option<seq<Course>>)
    requires Grid.Rectangular(cells, width)
    ensures r == ParsedTimetable(cells, width)
  {
    var walk := Grid.WalkTimetable(Live, cells, width);
    match walk
    case IndexError =>
      r := None;
    case Walked(courses) =>
      var merged := Merge.MergeDuplicateCourses(courses);
      r := Some(merged);
  }
}

/**
 * `parse_timetable_from_xls` of the older parser: the same walk with the
 * older cell decoder and tables, returning the records unmerged.
 */
module ParseCourses {
  import opened Wrappers
  import opened Text
  import opened Records
  import opened Ordered
  import Grid
  import Tables
  import LegacyTables
  import LegacyDecoder
  import CourseParser

  /** The older cell decoder and lookup tables. */
  const Legacy: Grid.Parser := Grid.Parser(LegacyDecoder.LegacyCourseInfos, LegacyTables.LegacyTimeSlotToIndex, LegacyTables.LegacyWeekdayNameToNumber)

  /** The two parsers skip the same rows and columns: their tables agree on every period and day name. */
  lemma SameSkipRules(slot: Option<string>, name: string)
    ensures Grid.RowSlots(Legacy, slot) == Grid.RowSlots(CourseParser.Live, slot)
    ensures Legacy.weekday(name) == CourseParser.Live.weekday(name)
  {
  }

  /** Every record of a cell has a trimmed, non-blank name, a trimmed room and a strictly ascending week list. */
  lemma LegacyCellRecord(text: string, info: CourseInfo)
    requires info in LegacyDecoder.LegacyCourseInfos(text)
    ensures info.name != [] && NoSpaceAtEnds(info.name) && NoSpaceAtEnds(info.classroom) && StrictlyAscending(info.weeks)
  {
    var lines := Split(Strip(text), '\n');
    var j := LegacyDecoder.LegacyRecordOrigin(lines, 0, info);
    var g := LegacyDecoder.LegacyGroup(lines, j);
    assert info == g[0];
  }

  /**
   * The older walk's records: a known weekday, one big period, trimmed name
   * and room, and a strictly ascending week list, which may be empty.
   */
  lemma LegacyEntry(cells: Grid.Sheet, width: nat, e: Entry)
    requires Grid.Rectangular(cells, width) && Grid.Timetable(Legacy, cells, width).Walked?
    requires e in Grid.Timetable(Legacy, cells, width).entries
    ensures 1 <= e.weekday <= 7 && CourseParser.IsSlotPair(e.indexes)
    ensures e.name != [] && NoSpaceAtEnds(e.name) && NoSpaceAtEnds(e.classroom) && StrictlyAscending(e.weeks)
  {
    var period, name, text, info := Grid.EntrySource(Legacy, cells, width, e);
    CourseParser.TablesRange(period, name);
    LegacyCellRecord(text, info);
  }

  /** The older `parse_timetable_from_xls` after loading: the walk alone, unmerged. */
  method LegacyParseTimetable(cells: Grid.Sheet, width: nat) returns (r: Grid.Walk)
    requires Grid.Rectangular(cells, width)
    ensures r == Grid.Timetable(Legacy, cells, width)
  {
    r := Grid.WalkTimetable(Legacy, cells, width);
  }
}
