/**
 * `parse_course_info` of the live parser: a cell's text is cut into trimmed,
 * non-blank lines, read four at a time as course name, teacher, weeks and
 * room; missing lines get sentinels and a group without weeks is dropped.
 */
module Decoder {
  import opened Text
  import opened Normalize
  import opened Location
  import opened Ordered
  import opened WeekParser
  import opened Records

  /** Every line of `raw`, stripped. */
  function StripAll(raw: seq<string>): (r: seq<string>)
    ensures |r| == |raw|
    ensures forall k :: 0 <= k < |r| ==> r[k] == Strip(raw[k])
  {
    if raw == [] then [] else [Strip(raw[0])] + StripAll(raw[1..])
  }

  /** The non-empty lines among `xs`, in order. */
  function NonBlank(xs: seq<string>): (r: seq<string>)
    ensures |r| <= |xs|
    ensures forall k :: 0 <= k < |r| ==> r[k] != [] && r[k] in xs
  {
    if xs == [] then []
    else if xs[0] != [] then [xs[0]] + NonBlank(xs[1..])
    else NonBlank(xs[1..])
  }

  /** A line survives the filter exactly when it is a non-empty line of the input. */
  lemma {:induction false} NonBlankMembers(xs: seq<string>, x: string)
    ensures x in NonBlank(xs) <==> x != [] && x in xs
  {
    if xs != [] {
      NonBlankMembers(xs[1..], x);
      assert xs == [xs[0]] + xs[1..];
    }
  }

  /** Non-empty lines all pass the filter. */
  lemma {:induction false} NonBlankNoop(xs: seq<string>)
    requires forall k :: 0 <= k < |xs| ==> xs[k] != []
    ensures NonBlank(xs) == xs
  {
    if xs != [] {
      NonBlankNoop(xs[1..]);
    }
  }

  /** The positions in `idx` are strictly increasing. */
  predicate Increasing(idx: seq<nat>) {
    forall m, n :: 0 <= m < n < |idx| ==> idx[m] < idx[n]
  }

  /** Every position in `rest` moved one place on. */
  lemma ShiftIndices(rest: seq<nat>) returns (sh: seq<nat>)
    ensures |sh| == |rest| && forall m :: 0 <= m < |sh| ==> sh[m] == rest[m] + 1
    ensures Increasing(rest) ==> Increasing(sh)
  {
    sh := seq(|rest|, m requires 0 <= m < |rest| => rest[m] + 1);
  }

  /** Position `0` in front of positive increasing positions keeps them increasing. */
  lemma IncreasingCons(sh: seq<nat>)
    requires Increasing(sh) && forall m :: 0 <= m < |sh| ==> sh[m] > 0
    ensures Increasing([0] + sh)
  {
    var idx := [0] + sh;
    forall m, n | 0 <= m < n < |idx|
      ensures idx[m] < idx[n]
    {
      assert idx[n] == sh[n - 1];
      if m > 0 {
        assert idx[m] == sh[m - 1];
      }
    }
  }

  /** `NonBlankIndices` for a list whose first line is kept, from the indices of its tail. */
  lemma IndicesKeep(xs: seq<string>, tail: seq<string>, nb: seq<string>, r: seq<string>, rest: seq<nat>) returns (idx: seq<nat>)
    requires xs != [] && tail == xs[1..] && xs[0] != [] && nb == [xs[0]] + r
    requires |rest| == |r|
    requires forall m :: 0 <= m < |rest| ==> rest[m] < |tail| && tail[rest[m]] != [] && r[m] == tail[rest[m]]
    requires Increasing(rest)
    requires forall k :: 0 <= k < |tail| && tail[k] != [] ==> k in rest
    ensures |idx| == |nb|
    ensures forall m :: 0 <= m < |idx| ==> idx[m] < |xs| && xs[idx[m]] != [] && nb[m] == xs[idx[m]]
    ensures Increasing(idx)
    ensures forall k :: 0 <= k < |xs| && xs[k] != [] ==> k in idx
  {
    var sh := ShiftIndices(rest);
    idx := [0] + sh;
    forall m | 0 <= m < |idx|
      ensures idx[m] < |xs| && xs[idx[m]] != [] && nb[m] == xs[idx[m]]
    {
      if m > 0 {
        var j := m - 1;
        assert idx[m] == sh[j] == rest[j] + 1;
        assert nb[m] == r[j] == tail[rest[j]];
        assert tail[rest[j]] == xs[rest[j] + 1];
      }
    }
    IncreasingCons(sh);
    forall k | 0 <= k < |xs| && xs[k] != []
      ensures k in idx
    {
      if k > 0 {
        assert tail[k - 1] != [];
        var m :| 0 <= m < |rest| && rest[m] == k - 1;
        assert idx[m + 1] == k;
      }
    }
  }

  /** `NonBlankIndices` for a list whose first line is dropped, from the indices of its tail. */
  lemma IndicesSkip(xs: seq<string>, tail: seq<string>, nb: seq<string>, rest: seq<nat>) returns (idx: seq<nat>)
    requires xs != [] && tail == xs[1..] && xs[0] == []
    requires |rest| == |nb|
    requires forall m :: 0 <= m < |rest| ==> rest[m] < |tail| && tail[rest[m]] != [] && nb[m] == tail[rest[m]]
    requires Increasing(rest)
    requires forall k :: 0 <= k < |tail| && tail[k] != [] ==> k in rest
    ensures |idx| == |nb|
    ensures forall m :: 0 <= m < |idx| ==> idx[m] < |xs| && xs[idx[m]] != [] && nb[m] == xs[idx[m]]
    ensures Increasing(idx)
    ensures forall k :: 0 <= k < |xs| && xs[k] != [] ==> k in idx
  {
    idx := ShiftIndices(rest);
    forall k | 0 <= k < |xs| && xs[k] != []
      ensures k in idx
    {
      assert tail[k - 1] != [];
      var m :| 0 <= m < |rest| && rest[m] == k - 1;
      assert idx[m] == k;
    }
  }

  /**
   * Where the kept lines come from: `idx` runs in increasing order through
   * the positions of exactly the non-empty lines of `xs`, and the filter's
   * `m`-th line is the line at `idx[m]`.
   */
  lemma {:induction false} NonBlankIndices(xs: seq<string>) returns (idx: seq<nat>)
    ensures |idx| == |NonBlank(xs)|
    ensures forall m :: 0 <= m < |idx| ==> idx[m] < |xs| && xs[idx[m]] != [] && NonBlank(xs)[m] == xs[idx[m]]
    ensures Increasing(idx)
    ensures forall k :: 0 <= k < |xs| && xs[k] != [] ==> k in idx
    decreases |xs|
  {
    if xs == [] {
      idx := [];
    } else {
      var rest := NonBlankIndices(xs[1..]);
      if xs[0] != [] {
        idx := IndicesKeep(xs, xs[1..], NonBlank(xs), NonBlank(xs[1..]), rest);
      } else {
        idx := IndicesSkip(xs, xs[1..], NonBlank(xs), rest);
      }
    }
  }

  /** The trimmed, non-blank lines among `raw`, in order: the comprehension `[l.strip() for l in raw if l.strip()]`. */
  function CleanLines(raw: seq<string>): (r: seq<string>)
    ensures |r| <= |raw|
    ensures forall k :: 0 <= k < |r| ==> r[k] != [] && NoSpaceAtEnds(r[k])
  {
    NonBlank(StripAll(raw))
  }

  /** The kept lines are exactly the stripped forms of the non-blank lines. */
  lemma CleanLinesMembers(raw: seq<string>, x: string)
    ensures x in CleanLines(raw) <==> exists k :: 0 <= k < |raw| && Strip(raw[k]) != [] && x == Strip(raw[k])
  {
    var xs := StripAll(raw);
    NonBlankMembers(xs, x);
    if x in CleanLines(raw) {
      var k :| 0 <= k < |xs| && xs[k] == x;
      assert Strip(raw[k]) != [] && x == Strip(raw[k]);
    }
    if exists k :: 0 <= k < |raw| && Strip(raw[k]) != [] && x == Strip(raw[k]) {
      var k :| 0 <= k < |raw| && Strip(raw[k]) != [] && x == Strip(raw[k]);
      assert xs[k] == x;
    }
  }

  /**
   * `CleanLines` keeps order and multiplicity: its `m`-th line is the
   * stripped `idx[m]`-th raw line, where `idx` runs increasingly through
   * exactly the raw lines that are not blank.
   */
  lemma CleanLinesIndices(raw: seq<string>) returns (idx: seq<nat>)
    ensures |idx| == |CleanLines(raw)|
    ensures forall m :: 0 <= m < |idx| ==> idx[m] < |raw| && Strip(raw[idx[m]]) != [] && CleanLines(raw)[m] == Strip(raw[idx[m]])
    ensures Increasing(idx)
    ensures forall k :: 0 <= k < |raw| && Strip(raw[k]) != [] ==> k in idx
  {
    idx := NonBlankIndices(StripAll(raw));
  }

  /** The lines of a cell: the whole text stripped, split at newlines, each line stripped, blank lines dropped. */
  function Lines(text: string): seq<string> {
    CleanLines(Split(Strip(text), '\n'))
  }

  /**
   * The record the group starting at line `i` yields, if any: it needs a
   * week line parsing to a non-empty list; a missing teacher or room line
   * gives the sentinel.
   */
  function Group(lines: seq<string>, i: nat): (r: seq<CourseInfo>)
    requires i < |lines|
    ensures |r| <= 1
    ensures r != [] <==> lines[i] != [] && i + 2 < |lines| && Weeks(lines[i + 2]) != []
    ensures r != [] ==> (r[0].name == NormalizeCourseName(lines[i]) && r[0].teacher == Teacher(lines[i + 1])
      && r[0].weeks == Weeks(lines[i + 2]))
    ensures r != [] ==> r[0].classroom == NormalizeClassroomName(if i + 3 < |lines| then lines[i + 3] else UnknownRoom)
  {
    var name := lines[i];
    var teacher := if i + 1 < |lines| then Teacher(lines[i + 1]) else UnknownTeacher;
    var weeks := if i + 2 < |lines| then Weeks(lines[i + 2]) else [];
    var classroom := if i + 3 < |lines| then lines[i + 3] else UnknownRoom;
    if name != [] && weeks != [] then
      [CourseInfo(NormalizeCourseName(name), teacher, weeks, NormalizeClassroomName(classroom))]
    else []
  }

  /** `j` is a group start when reading in strides of four from `i`. */
  predicate GroupStart(i: nat, j: nat)
    decreases j - i
  {
    i == j || (i + 4 <= j && GroupStart(i + 4, j))
  }

  /** The pieces `f(i)`, `f(i + 4)`, ... for the starts below `n`, concatenated in order. */
  function Strided<T>(f: nat -> seq<T>, n: nat, i: nat): seq<T>
    decreases n - i
  {
    if i >= n then [] else f(i) + Strided(f, n, i + 4)
  }

  /** An element of the strided concatenation is exactly an element of one of its pieces. */
  lemma {:induction false} StridedMembers<T>(f: nat -> seq<T>, n: nat, i: nat, c: T)
    ensures c in Strided(f, n, i) <==> exists j: nat :: GroupStart(i, j) && j < n && c in f(j)
    decreases n - i
  {
    if i < n {
      StridedMembers(f, n, i + 4, c);
      if c in f(i) {
        assert GroupStart(i, i);
      } else if c in Strided(f, n, i + 4) {
        var j: nat :| GroupStart(i + 4, j) && j < n && c in f(j);
        assert GroupStart(i, j);
      } else {
        forall j: nat | GroupStart(i, j) && j < n
          ensures c !in f(j)
        {
          if j != i {
            assert GroupStart(i + 4, j);
          }
        }
      }
    } else {
      forall j: nat | GroupStart(i, j)
        ensures j >= n
      {
      }
    }
  }

  /** With at most one element per piece, the concatenation has at most one element per four starts. */
  lemma {:induction false} StridedCount<T>(f: nat -> seq<T>, n: nat, i: nat)
    requires forall j: nat :: |f(j)| <= 1
    ensures i <= n ==> 4 * |Strided(f, n, i)| <= n - i + 3
    decreases n - i
  {
    if i < n {
      StridedCount(f, n, i + 4);
    }
  }

  /** The group records of `lines`, as a function of the start line. */
  function Groups(lines: seq<string>): nat -> seq<CourseInfo> {
    (j: nat) => if j < |lines| then Group(lines, j) else []
  }

  /** The records of the groups starting at `i`, `i + 4`, ...: at most one per group. */
  function DecodeFrom(lines: seq<string>, i: nat): (r: seq<CourseInfo>)
    ensures i <= |lines| ==> 4 * |r| <= |lines| - i + 3
    ensures i >= |lines| ==> r == []
  {
    StridedCount(Groups(lines), |lines|, i);
    Strided(Groups(lines), |lines|, i)
  }

  /** Decoding from a start line is that group's record followed by the decoding four lines on. */
  lemma DecodeUnfold(lines: seq<string>, i: nat)
    requires i < |lines|
    ensures DecodeFrom(lines, i) == Group(lines, i) + DecodeFrom(lines, i + 4)
  {
  }

  /** A record comes out of the decoder exactly when it is the record of some group. */
  lemma DecodeMembers(lines: seq<string>, i: nat, c: CourseInfo)
    ensures c in DecodeFrom(lines, i) <==> exists j: nat :: GroupStart(i, j) && j < |lines| && c in Group(lines, j)
  {
    StridedMembers(Groups(lines), |lines|, i, c);
  }

  /** Every record the decoder yields is the record of the group at some start line. */
  lemma DecodeSource(lines: seq<string>, c: CourseInfo) returns (j: nat)
    requires c in DecodeFrom(lines, 0)
    ensures j < |lines| && Group(lines, j) == [c]
  {
    DecodeMembers(lines, 0, c);
    j :| GroupStart(0, j) && j < |lines| && c in Group(lines, j);
    SingletonOf(Group(lines, j), c);
  }

  lemma SingletonOf<T>(s: seq<T>, c: T)
    requires |s| <= 1 && c in s
    ensures s == [c]
  {
  }

  /** Every record the decoder yields has a non-empty, strictly ascending week list. */
  lemma DecodedWeeks(lines: seq<string>, c: CourseInfo)
    requires c in DecodeFrom(lines, 0)
    ensures c.weeks != [] && StrictlyAscending(c.weeks)
  {
    var j := DecodeSource(lines, c);
    assert c.weeks == Weeks(lines[j + 2]) by { assert c == Group(lines, j)[0]; }
  }

  /** `parse_course_info`: blank text gives no records; otherwise the groups of its lines. */
  function CourseInfos(text: string): (r: seq<CourseInfo>)
    ensures Strip(text) == [] ==> r == []
  {
    if Strip(text) == [] then [] else DecodeFrom(Lines(text), 0)
  }

  /** Every record of a cell has a non-empty, strictly ascending week list, and a cell of `n` lines has at most one record per four lines. */
  lemma CourseInfosRecords(text: string)
    ensures forall c :: c in CourseInfos(text) ==> c.weeks != [] && StrictlyAscending(c.weeks)
    ensures 4 * |CourseInfos(text)| <= |Lines(text)| + 3
  {
    forall c | c in CourseInfos(text)
      ensures c.weeks != [] && StrictlyAscending(c.weeks)
    {
      DecodedWeeks(Lines(text), c);
    }
  }

  /** Lines that are already stripped and non-blank are kept as they are. */
  lemma CleanLinesNoop(raw: seq<string>)
    requires forall k :: 0 <= k < |raw| ==> raw[k] != [] && NoSpaceAtEnds(raw[k])
    ensures CleanLines(raw) == raw
  {
    forall k | 0 <= k < |raw|
      ensures StripAll(raw)[k] == raw[k]
    {
      StripNoop(raw[k]);
    }
    assert StripAll(raw) == raw;
    NonBlankNoop(raw);
  }

  /**
   * Each record's teacher is the one its teacher line names, never the
   * sentinel for a missing line: a group without a teacher line has no week
   * line either, so it yields nothing.
   */
  lemma RecordFields(lines: seq<string>, c: CourseInfo)
    requires c in DecodeFrom(lines, 0)
    ensures exists j: nat :: (j + 2 < |lines| && c.name == NormalizeCourseName(lines[j])
      && c.teacher == Teacher(lines[j + 1]) && c.weeks == Weeks(lines[j + 2]))
  {
    var j := DecodeSource(lines, c);
    assert c == Group(lines, j)[0];
  }

  /** A final group of three lines has no room line: its record gets the unknown room, which has no location. */
  lemma ShortGroupRoom(lines: seq<string>, i: nat)
    requires i + 3 == |lines| && lines[i] != [] && Weeks(lines[i + 2]) != []
    ensures |Group(lines, i)| == 1 && Group(lines, i)[0].classroom == UnknownRoom
    ensures ClassroomToLocation(Group(lines, i)[0].classroom, Group(lines, i)[0].name) == ""
  {
    var g := Group(lines, i);
    assert g[0].classroom == NormalizeClassroomName(UnknownRoom);
    UnknownRoomIsNormal();
    UnknownRoomHasNoLocation(g[0].name);
  }

  /**
   * The name line is tested before it is normalised: a name line that is one
   * full-width group and nothing else still yields a record, whose name is empty.
   */
  lemma WholeGroupNameEmitted(lines: seq<string>, i: nat, g: string)
    requires i + 2 < |lines| && lines[i] == [FullOpen] + g + [FullClose] && FullClose !in g
    requires Weeks(lines[i + 2]) != []
    ensures |Group(lines, i)| == 1 && Group(lines, i)[0].name == []
  {
    NormalizeWholeGroup(g);
  }

  /** One pass of the loop in `parse_course_info`: the record of the group starting at line `i`, if any. */
  method DecodeGroup(lines: seq<string>, i: nat) returns (g: seq<CourseInfo>)
    requires i < |lines|
    ensures g == Group(lines, i)
  {
    var name := lines[i];
    var teacher := UnknownTeacher;
    if i + 1 < |lines| {
      teacher := Teacher(lines[i + 1]);
    }
    var weeks := [];
    if i + 2 < |lines| {
      weeks := ParseWeeks(lines[i + 2]);
    }
    var classroom := UnknownRoom;
    if i + 3 < |lines| {
      classroom := lines[i + 3];
    }
    g := [];
    if name != [] && weeks != [] {
      g := [CourseInfo(NormalizeCourseName(name), teacher, weeks, NormalizeClassroomName(classroom))];
    }
  }

  lemma ConcatAssoc<T>(a: seq<T>, b: seq<T>, c: seq<T>)
    ensures (a + b) + c == a + (b + c)
  {
  }

  /** One pass of the loop appends the group's record, which is what the decoding from that group adds. */
  method DecodeStep(lines: seq<string>, i: nat, courses: seq<CourseInfo>) returns (next: seq<CourseInfo>, j: nat)
    requires i < |lines|
    ensures j == i + 4
    ensures next + DecodeFrom(lines, j) == courses + DecodeFrom(lines, i)
  {
    var g := DecodeGroup(lines, i);
    next, j := courses + g, i + 4;
    DecodeUnfold(lines, i);
    ConcatAssoc(courses, g, DecodeFrom(lines, i + 4));
  }

  /** The loop of `parse_course_info`: walk the lines in strides of four, appending each group's record. */
  method DecodeLines(lines: seq<string>) returns (courses: seq<CourseInfo>)
    ensures courses == DecodeFrom(lines, 0)
  {
    courses := [];
    var i: nat := 0;
    while i < |lines|
      invariant courses + DecodeFrom(lines, i) == DecodeFrom(lines, 0)
      decreases |lines| - i
    {
      courses, i := DecodeStep(lines, i, courses);
    }
  }

  /** `parse_course_info`: blank text gives no records; otherwise the lines are decoded group by group. */
  method ParseCourseInfo(text: string) returns (courses: seq<CourseInfo>)
    ensures courses == CourseInfos(text)
  {
    if Strip(text) == [] {
      return [];
    }
    courses := DecodeLines(Lines(text));
  }
}
