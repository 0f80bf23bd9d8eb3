/**
 * `parse_course_info` of the older parser: the cell's lines are kept as
 * they come from splitting the stripped text, blank lines included. A blank
 * line where a group would start is skipped on its own; otherwise a group is
 * read only when all four of its lines exist, its fields are just trimmed,
 * the week parser is the `findall` one, and a record with no weeks is kept.
 */
module LegacyDecoder {
  import opened Text
  import opened Ordered
  import opened WeekParser
  import opened LegacyWeekParser
  import opened Records
  import opened Location
  import opened Decoder

  /** The record of the group starting at line `i`: only when the four lines `i .. i + 3` all exist. */
  function LegacyGroup(lines: seq<string>, i: nat): (r: seq<CourseInfo>)
    requires i < |lines|
    ensures |r| <= 1
    ensures r != [] <==> i + 3 < |lines|
    ensures r != [] ==> (r[0].name == Strip(lines[i]) && r[0].teacher == Teacher(Strip(lines[i + 1]))
      && r[0].weeks == LegacyWeeks(Strip(lines[i + 2])) && r[0].classroom == Strip(lines[i + 3]))
  {
    if i + 3 < |lines| then
      [CourseInfo(Strip(lines[i]), Teacher(Strip(lines[i + 1])), LegacyWeeks(Strip(lines[i + 2])), Strip(lines[i + 3]))]
    else []
  }

  /**
   * The records from line `i` on: a blank line moves on by one, any other
   * line starts a group and moves on by four; there is at most one record
   * for every four lines.
   */
  function LegacyDecodeFrom(lines: seq<string>, i: nat): (r: seq<CourseInfo>)
    ensures i <= |lines| ==> 4 * |r| <= |lines| - i
    ensures i >= |lines| ==> r == []
    decreases |lines| - i
  {
    if i >= |lines| then []
    else if Strip(lines[i]) == [] then LegacyDecodeFrom(lines, i + 1)
    else LegacyGroup(lines, i) + LegacyDecodeFrom(lines, i + 4)
  }

  /** The older `parse_course_info`: blank text gives no records; otherwise the raw lines of the stripped text. */
  function LegacyCourseInfos(text: string): (r: seq<CourseInfo>)
    ensures Strip(text) == [] ==> r == []
  {
    if Strip(text) == [] then [] else LegacyDecodeFrom(Split(Strip(text), '\n'), 0)
  }

  /** A blank line where a group would start is skipped on its own. */
  lemma LegacySkipsBlank(lines: seq<string>, i: nat)
    requires i < |lines| && Strip(lines[i]) == []
    ensures LegacyDecodeFrom(lines, i) == LegacyDecodeFrom(lines, i + 1)
  {
  }

  /** A non-blank line starts a group, and decoding goes on four lines later. */
  lemma LegacyReadsGroup(lines: seq<string>, i: nat)
    requires i < |lines| && Strip(lines[i]) != []
    ensures LegacyDecodeFrom(lines, i) == LegacyGroup(lines, i) + LegacyDecodeFrom(lines, i + 4)
  {
  }

  /**
   * Every record comes from a group whose four lines all exist and whose
   * first line is not blank; its name and room are those lines trimmed, and
   * nothing more.
   */
  lemma {:induction false} LegacyRecordOrigin(lines: seq<string>, i: nat, c: CourseInfo) returns (j: nat)
    requires c in LegacyDecodeFrom(lines, i)
    ensures i <= j && j + 3 < |lines| && Strip(lines[j]) != [] && c == LegacyGroup(lines, j)[0]
    decreases |lines| - i
  {
    if Strip(lines[i]) == [] {
      LegacySkipsBlank(lines, i);
      j := LegacyRecordOrigin(lines, i + 1, c);
    } else {
      LegacyReadsGroup(lines, i);
      var g := LegacyGroup(lines, i);
      if c in g {
        j := i;
      } else {
        j := LegacyRecordOrigin(lines, i + 4, c);
      }
    }
  }

  /** Names and rooms are trimmed, and names are never blank. */
  lemma LegacyRecordsTrimmed(lines: seq<string>, c: CourseInfo)
    requires c in LegacyDecodeFrom(lines, 0)
    ensures c.name != [] && NoSpaceAtEnds(c.name) && NoSpaceAtEnds(c.classroom)
  {
    var j := LegacyRecordOrigin(lines, 0, c);
  }

  /** A blank line inside a group is not skipped: as the teacher line it gives an empty teacher. */
  lemma LegacyInteriorBlank(lines: seq<string>, i: nat)
    requires i + 3 < |lines| && Strip(lines[i]) != [] && Strip(lines[i + 1]) == []
    ensures |LegacyGroup(lines, i)| == 1 && LegacyGroup(lines, i)[0].teacher == ""
  {
    var g := LegacyGroup(lines, i);
    assert g[0].teacher == Teacher(Strip(lines[i + 1]));
    TeacherOfBlank(lines[i + 1]);
  }

  lemma TeacherOfBlank(line: string)
    requires Strip(line) == []
    ensures Teacher(Strip(line)) == []
  {
    var t := Strip(line);
    assert '(' !in t;
  }

  /**
   * On four clean lines whose week line the live parser reads as no weeks,
   * the live decoder drops the group while the older one keeps it, with the
   * week list its own parser gives.
   */
  lemma WeeklessGroupDiffers(lines: seq<string>)
    requires |lines| == 4 && forall k :: 0 <= k < 4 ==> lines[k] != [] && NoSpaceAtEnds(lines[k])
    requires Weeks(lines[2]) == []
    ensures DecodeFrom(lines, 0) == []
    ensures |LegacyDecodeFrom(lines, 0)| == 1 && LegacyDecodeFrom(lines, 0)[0].weeks == LegacyWeeks(lines[2])
  {
    assert DecodeFrom(lines, 0) == [] by {
      DecodeUnfold(lines, 0);
      assert Group(lines, 0) == [];
    }
    assert LegacyDecodeFrom(lines, 0) == LegacyGroup(lines, 0) by {
      StripNoop(lines[0]);
      LegacyReadsGroup(lines, 0);
    }
    assert LegacyGroup(lines, 0)[0].weeks == LegacyWeeks(lines[2]) by { StripNoop(lines[2]); }
  }

  /**
   * On three clean lines with weeks, the live decoder gives one record with
   * the unknown room, while the older one gives nothing.
   */
  lemma ShortGroupDiffers(lines: seq<string>)
    requires |lines| == 3 && forall k :: 0 <= k < 3 ==> lines[k] != [] && NoSpaceAtEnds(lines[k])
    requires Weeks(lines[2]) != []
    ensures |DecodeFrom(lines, 0)| == 1 && DecodeFrom(lines, 0)[0].classroom == UnknownRoom
    ensures LegacyDecodeFrom(lines, 0) == []
  {
    StripNoop(lines[0]);
    DecodeUnfold(lines, 0);
    ShortGroupRoom(lines, 0);
    assert LegacyDecodeFrom(lines, 0) == LegacyGroup(lines, 0) + LegacyDecodeFrom(lines, 4);
  }

  /** One pass of the older loop that reads a group. */
  method LegacyDecodeGroup(lines: seq<string>, i: nat) returns (g: seq<CourseInfo>)
    requires i < |lines|
    ensures g == LegacyGroup(lines, i)
  {
    g := [];
    var courseName := Strip(lines[i]);
    var teacher := "";
    var weeks := [];
    if i + 1 < |lines| {
      teacher := Teacher(Strip(lines[i + 1]));
    }
    if i + 2 < |lines| {
      weeks := LegacyParseWeeks(Strip(lines[i + 2]));
    }
    if i + 3 < |lines| {
      var classroom := Strip(lines[i + 3]);
      g := [CourseInfo(courseName, teacher, weeks, classroom)];
    }
  }

  /**
   * One pass of the older loop: a blank line is skipped by one, while a
   * group appends its record and is skipped by four; either way what is
   * collected plus the decoding from the next line is unchanged.
   */
  method LegacyDecodeStep(lines: seq<string>, i: nat, courses: seq<CourseInfo>) returns (next: seq<CourseInfo>, j: nat)
    requires i < |lines|
    ensures j == if Strip(lines[i]) == [] then i + 1 else i + 4
    ensures next + LegacyDecodeFrom(lines, j) == courses + LegacyDecodeFrom(lines, i)
  {
    if Strip(lines[i]) == [] {
      LegacySkipsBlank(lines, i);
      next, j := courses, i + 1;
    } else {
      var g := LegacyDecodeGroup(lines, i);
      next, j := courses + g, i + 4;
      LegacyReadsGroup(lines, i);
      ConcatAssoc(courses, g, LegacyDecodeFrom(lines, i + 4));
    }
  }

  /** The loop of the older `parse_course_info`: skip a blank line by one, read a group and skip by four. */
  method LegacyDecodeLines(lines: seq<string>) returns (courses: seq<CourseInfo>)
    ensures courses == LegacyDecodeFrom(lines, 0)
  {
    courses := [];
    var i := 0;
    while i < |lines|
      invariant courses + LegacyDecodeFrom(lines, i) == LegacyDecodeFrom(lines, 0)
      decreases |lines| - i
    {
      courses, i := LegacyDecodeStep(lines, i, courses);
    }
  }

  /** The older `parse_course_info`. */
  method LegacyParseCourseInfo(text: string) returns (courses: seq<CourseInfo>)
    ensures courses == LegacyCourseInfos(text)
  {
    if Strip(text) == [] {
      return [];
    }
    courses := LegacyDecodeLines(Split(Strip(text), '\n'));
  }
}
