/**
 * The records that flow through the timetable parser: what one cell
 * decodes to, what the grid walk tags it with, and the merged course,
 * plus the teacher-name rule both decoders share.
 */
module Records {
  import opened Text

  /** The teacher a record gets when its cell group has no teacher line. */
  const UnknownTeacher: string := "未知教师"

  /** One decoded cell group: course name, teacher, week numbers and room. */
  datatype CourseInfo = CourseInfo(name: string, teacher: string, weeks: seq<int>, classroom: string)

  /** A decoded record tagged by the grid walk with its weekday and period numbers. */
  datatype Entry = Entry(name: string, teacher: string, classroom: string, weekday: int, weeks: seq<int>, indexes: seq<int>)

  /** The part of an entry that the merger keeps per schedule. */
  datatype Schedule = Schedule(weekday: int, weeks: seq<int>, indexes: seq<int>)

  /** The `Course` record the merger hands on, treated as plain data. */
  datatype Course = Course(name: string, teacher: string, classroom: string, location: string,
                           weekday: int, weeks: seq<int>, indexes: seq<int>)

  /**
   * The pattern `([^(]+)\([^)]*\)` matches at the start of `info` with its
   * group ending at `k`: the first `(` sits at `k >= 1`, and a `)` follows it.
   */
  predicate QualifiedAt(info: string, k: nat) {
    1 <= k < |info| && info[k] == '(' && '(' !in info[..k] && ')' in info[k + 1..]
  }

  /**
   * The teacher in a line of the form `name(title)`: the text before the first
   * `(` when that `(` is not the first character and a `)` follows it; the
   * whole line otherwise.
   */
  function Teacher(info: string): (r: string)
    ensures |r| <= |info| && r == info[..|r|]
  {
    if '(' in info then
      var k := IndexOf(info, '(');
      if k >= 1 && ')' in info[k + 1..] then info[..k] else info
    else info
  }

  /** The teacher is the group of the match where the pattern matches, and the whole line where it does not. */
  lemma TeacherRule(info: string)
    ensures forall k: nat :: QualifiedAt(info, k) ==> Teacher(info) == info[..k]
    ensures (forall k: nat :: !QualifiedAt(info, k)) ==> Teacher(info) == info
  {
    if '(' in info {
      var k := IndexOf(info, '(');
      if k >= 1 && ')' in info[k + 1..] {
        assert QualifiedAt(info, k);
      }
    }
  }

  /** The teacher line `张三(教授)` gives the teacher `张三`. */
  lemma TeacherExample()
    ensures Teacher("张三(教授)") == "张三"
  {
    assert QualifiedAt("张三(教授)", 2);
  }
}
