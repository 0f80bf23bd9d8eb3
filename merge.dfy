/**
 * `merge_duplicate_courses`: the tagged records are grouped by the key
 * (name, teacher, classroom). The dictionary of groups keeps its keys in
 * the order they were first seen; the result is flat, one `Course` per
 * schedule, group after group, each `Course` with the location of its
 * classroom.
 */
module Merge {
  import opened Records
  import Location

  /** The grouping key of a record. */
  type Key = (string, string, string)

  function KeyOf(e: Entry): Key {
    (e.name, e.teacher, e.classroom)
  }

  /** The per-schedule part of a record, as the merger stores it under its key. */
  function ScheduleOf(e: Entry): Schedule {
    Schedule(e.weekday, e.weeks, e.indexes)
  }

  /** The `Course` built from a key and one of its schedules, located from the key's classroom and name. */
  function CourseOf(k: Key, s: Schedule): Course {
    Course(k.0, k.1, k.2, Location.ClassroomToLocation(k.2, k.0), s.weekday, s.weeks, s.indexes)
  }

  function ToCourse(e: Entry): Course {
    CourseOf(KeyOf(e), ScheduleOf(e))
  }

  /** The record a `Course` carries, without its location. */
  function EntryOf(c: Course): Entry {
    Entry(c.name, c.teacher, c.classroom, c.weekday, c.weeks, c.indexes)
  }

  predicate Distinct(ks: seq<Key>) {
    forall i, j :: 0 <= i < j < |ks| ==> ks[i] != ks[j]
  }

  /** The records with key `k`, in input order. */
  function Select(es: seq<Entry>, k: Key): (r: seq<Entry>)
    ensures |r| <= |es|
  {
    if es == [] then []
    else Select(es[..|es| - 1], k) + (if KeyOf(es[|es| - 1]) == k then [es[|es| - 1]] else [])
  }

  /** The keys of the records in the order they are first seen: the key order of the dictionary. */
  function Keys(es: seq<Entry>): (r: seq<Key>)
    ensures Distinct(r)
  {
    if es == [] then []
    else
      var r := Keys(es[..|es| - 1]);
      if KeyOf(es[|es| - 1]) in r then r else r + [KeyOf(es[|es| - 1])]
  }

  /** The groups of the keys `ks`, one after the other. */
  function Concat(es: seq<Entry>, ks: seq<Key>): seq<Entry> {
    if ks == [] then [] else Concat(es, ks[..|ks| - 1]) + Select(es, ks[|ks| - 1])
  }

  /** The records regrouped: every group in first-seen key order. */
  function Grouped(es: seq<Entry>): seq<Entry> {
    Concat(es, Keys(es))
  }

  function Courses(es: seq<Entry>): (r: seq<Course>)
    ensures |r| == |es|
    ensures forall i :: 0 <= i < |r| ==> r[i] == ToCourse(es[i])
  {
    seq(|es|, i requires 0 <= i < |es| => ToCourse(es[i]))
  }

  /** What `merge_duplicate_courses` returns. */
  function Merged(es: seq<Entry>): seq<Course> {
    Courses(Grouped(es))
  }

  /** The schedules stored under key `k`, in input order. */
  function Schedules(es: seq<Entry>, k: Key): (r: seq<Schedule>)
    ensures |r| == |Select(es, k)|
    ensures forall i :: 0 <= i < |r| ==> r[i] == ScheduleOf(Select(es, k)[i])
  {
    var s := Select(es, k);
    seq(|s|, i requires 0 <= i < |s| => ScheduleOf(s[i]))
  }

  /** The courses emitted for key `k` from its stored schedules. */
  function Emit(k: Key, ss: seq<Schedule>): (r: seq<Course>)
    ensures |r| == |ss|
    ensures forall i :: 0 <= i < |r| ==> r[i] == CourseOf(k, ss[i])
  {
    seq(|ss|, i requires 0 <= i < |ss| => CourseOf(k, ss[i]))
  }

  /** Records that shared a key sit next to each other. */
  predicate Contiguous(s: seq<Entry>) {
    forall i, j, l :: 0 <= i < j < l < |s| && KeyOf(s[i]) == KeyOf(s[l]) ==> KeyOf(s[j]) == KeyOf(s[i])
  }

  // Facts about selecting and grouping.

  /** A group holds exactly the records with its key. */
  lemma {:induction false} SelectMembers(es: seq<Entry>, k: Key, e: Entry)
    ensures e in Select(es, k) <==> e in es && KeyOf(e) == k
  {
    if es != [] {
      var init := es[..|es| - 1];
      SelectMembers(init, k, e);
      assert es == init + [es[|es| - 1]];
    }
  }

  lemma SelectSnoc(es: seq<Entry>, x: Entry, k: Key)
    ensures Select(es + [x], k) == Select(es, k) + (if KeyOf(x) == k then [x] else [])
  {
    assert (es + [x])[..|es|] == es;
  }

  /** Selecting from two pieces is selecting from each. */
  lemma {:induction false} SelectAppend(a: seq<Entry>, b: seq<Entry>, k: Key)
    ensures Select(a + b, k) == Select(a, k) + Select(b, k)
  {
    if b != [] {
      var init, x := b[..|b| - 1], b[|b| - 1];
      assert b == init + [x];
      assert a + b == (a + init) + [x];
      SelectAppend(a, init, k);
      SelectSnoc(a + init, x, k);
      SelectSnoc(init, x, k);
    } else {
      assert a + b == a;
    }
  }

  /** Selecting a key from a group gives the group back for its own key and nothing for another. */
  lemma {:induction false} SelectSelect(es: seq<Entry>, k: Key, k': Key)
    ensures Select(Select(es, k'), k) == if k == k' then Select(es, k') else []
  {
    if es != [] {
      var init, x := es[..|es| - 1], es[|es| - 1];
      SelectSelect(init, k, k');
      SelectAppend(Select(init, k'), if KeyOf(x) == k' then [x] else [], k);
      if KeyOf(x) == k' {
        SelectSnoc([], x, k);
      }
    }
  }

  /** A key has been seen exactly when its group is not empty. */
  lemma {:induction false} KeysMembers(es: seq<Entry>, k: Key)
    ensures k in Keys(es) <==> Select(es, k) != []
  {
    if es != [] {
      KeysMembers(es[..|es| - 1], k);
    }
  }

  lemma KeysSnoc(es: seq<Entry>, x: Entry)
    ensures Keys(es + [x]) == if KeyOf(x) in Keys(es) then Keys(es) else Keys(es) + [KeyOf(x)]
  {
    assert (es + [x])[..|es|] == es;
  }

  /** The key of every record has been seen. */
  lemma KeyOfMember(es: seq<Entry>, e: Entry)
    requires e in es
    ensures KeyOf(e) in Keys(es)
  {
    SelectMembers(es, KeyOf(e), e);
    KeysMembers(es, KeyOf(e));
  }

  /**
   * The keys seen in any prefix of the input come first, in the same order:
   * this is what makes `Keys` the first-seen order.
   */
  lemma {:induction false} KeysPrefix(es: seq<Entry>, n: nat)
    requires n <= |es|
    ensures Keys(es[..n]) <= Keys(es)
    decreases |es| - n
  {
    if n < |es| {
      KeysPrefix(es, n + 1);
      assert es[..n + 1] == es[..n] + [es[n]];
      KeysSnoc(es[..n], es[n]);
    } else {
      assert es[..n] == es;
    }
  }

  lemma {:induction false} DistinctInit(ks: seq<Key>)
    requires Distinct(ks) && ks != []
    ensures Distinct(ks[..|ks| - 1]) && ks[|ks| - 1] !in ks[..|ks| - 1]
  {
  }

  /** Selecting one key from the regrouped records gives that key's group when the key is among `ks`. */
  lemma {:induction false} ConcatSelect(es: seq<Entry>, ks: seq<Key>, k: Key)
    requires Distinct(ks)
    ensures Select(Concat(es, ks), k) == if k in ks then Select(es, k) else []
  {
    if ks != [] {
      var init, last := ks[..|ks| - 1], ks[|ks| - 1];
      DistinctInit(ks);
      ConcatSelect(es, init, k);
      SelectAppend(Concat(es, init), Select(es, last), k);
      SelectSelect(es, k, last);
      assert k in ks <==> k in init || k == last;
    }
  }

  /** Every regrouped record has one of the keys `ks`. */
  lemma ConcatKeys(es: seq<Entry>, ks: seq<Key>, e: Entry)
    requires Distinct(ks) && e in Concat(es, ks)
    ensures KeyOf(e) in ks
  {
    SelectMembers(Concat(es, ks), KeyOf(e), e);
    ConcatSelect(es, ks, KeyOf(e));
  }

  /** Adding a record to the input adds it to its group, and to nothing else. */
  lemma {:induction false} ConcatSnoc(es: seq<Entry>, x: Entry, ks: seq<Key>)
    requires Distinct(ks)
    ensures multiset(Concat(es + [x], ks)) == multiset(Concat(es, ks)) + (if KeyOf(x) in ks then multiset{x} else multiset{})
  {
    if ks != [] {
      var init, last := ks[..|ks| - 1], ks[|ks| - 1];
      DistinctInit(ks);
      ConcatSnoc(es, x, init);
      SelectSnoc(es, x, last);
      var a, b := Concat(es, init), Concat(es + [x], init);
      var sa, sb := Select(es, last), Select(es + [x], last);
      assert Concat(es, ks) == a + sa;
      assert Concat(es + [x], ks) == b + sb;
      assert ks == init + [last];
      MultisetSnoc(a, sa, b, sb, x, KeyOf(x) in init, KeyOf(x) == last);
    }
  }

  /** The multiset step of `ConcatSnoc`: `x` joins at most one of the two pieces. */
  lemma MultisetSnoc(a: seq<Entry>, sa: seq<Entry>, b: seq<Entry>, sb: seq<Entry>, x: Entry, inA: bool, inS: bool)
    requires multiset(b) == multiset(a) + (if inA then multiset{x} else multiset{})
    requires sb == sa + (if inS then [x] else [])
    requires !(inA && inS)
    ensures multiset(b + sb) == multiset(a + sa) + (if inA || inS then multiset{x} else multiset{})
  {
  }

  /** Regrouping by keys that cover every record keeps every record, as often as it occurs. */
  lemma {:induction false} ConcatPermutes(es: seq<Entry>, ks: seq<Key>)
    requires Distinct(ks)
    requires forall e :: e in es ==> KeyOf(e) in ks
    ensures multiset(Concat(es, ks)) == multiset(es)
  {
    if es == [] {
      ConcatEmpty(ks);
    } else {
      var init, x := es[..|es| - 1], es[|es| - 1];
      assert es == init + [x];
      ConcatPermutes(init, ks);
      ConcatSnoc(init, x, ks);
    }
  }

  lemma {:induction false} ConcatEmpty(ks: seq<Key>)
    ensures Concat([], ks) == []
  {
    if ks != [] {
      ConcatEmpty(ks[..|ks| - 1]);
    }
  }

  /** A non-empty group with a key not yet seen adds exactly that key. */
  lemma {:induction false} KeysAppendGroup(a: seq<Entry>, b: seq<Entry>, k: Key)
    requires b != [] && (forall e :: e in b ==> KeyOf(e) == k) && k !in Keys(a)
    ensures Keys(a + b) == Keys(a) + [k]
  {
    var init, x := b[..|b| - 1], b[|b| - 1];
    assert a + b == (a + init) + [x];
    KeysSnoc(a + init, x);
    if init != [] {
      KeysAppendGroup(a, init, k);
    } else {
      assert a + init == a;
    }
  }

  /** Grouping by keys whose groups are non-empty lists the keys in that order. */
  lemma {:induction false} ConcatKeysOrder(es: seq<Entry>, ks: seq<Key>)
    requires Distinct(ks)
    requires forall k :: k in ks ==> Select(es, k) != []
    ensures Keys(Concat(es, ks)) == ks
  {
    if ks == [] {
    } else {
      var init, last := ks[..|ks| - 1], ks[|ks| - 1];
      DistinctInit(ks);
      ConcatKeysOrder(es, init);
      forall e | e in Select(es, last)
        ensures KeyOf(e) == last
      {
        SelectMembers(es, last, e);
      }
      KeysAppendGroup(Concat(es, init), Select(es, last), last);
    }
  }

  /** A contiguous sequence followed by a run of one new key stays contiguous. */
  lemma AppendContiguous(a: seq<Entry>, b: seq<Entry>, k: Key)
    requires Contiguous(a)
    requires forall i :: 0 <= i < |b| ==> KeyOf(b[i]) == k
    requires forall i :: 0 <= i < |a| ==> KeyOf(a[i]) != k
    ensures Contiguous(a + b)
  {
    assert forall i :: 0 <= i < |a| ==> (a + b)[i] == a[i];
    assert forall i :: |a| <= i < |a + b| ==> (a + b)[i] == b[i - |a|];
  }

  lemma {:induction false} ConcatContiguous(es: seq<Entry>, ks: seq<Key>)
    requires Distinct(ks)
    ensures Contiguous(Concat(es, ks))
  {
    if ks != [] {
      var init, last := ks[..|ks| - 1], ks[|ks| - 1];
      DistinctInit(ks);
      ConcatContiguous(es, init);
      var a, b := Concat(es, init), Select(es, last);
      forall i | 0 <= i < |b|
        ensures KeyOf(b[i]) == last
      {
        SelectMembers(es, last, b[i]);
      }
      forall i | 0 <= i < |a|
        ensures KeyOf(a[i]) != last
      {
        ConcatKeys(es, init, a[i]);
      }
      AppendContiguous(a, b, last);
    }
  }

  // The properties of the merge.

  /** The merge keeps every record, as often as it occurs, so the output is as long as the input. */
  lemma MergePermutes(es: seq<Entry>)
    ensures multiset(Grouped(es)) == multiset(es)
    ensures |Merged(es)| == |es|
    ensures forall i :: 0 <= i < |es| ==> EntryOf(Merged(es)[i]) == Grouped(es)[i]
  {
    forall e | e in es
      ensures KeyOf(e) in Keys(es)
    {
      KeyOfMember(es, e);
    }
    ConcatPermutes(es, Keys(es));
    assert |multiset(Grouped(es))| == |multiset(es)|;
  }

  /** Records that share a key are next to each other in the output. */
  lemma MergeContiguous(es: seq<Entry>)
    ensures Contiguous(Grouped(es))
  {
    ConcatContiguous(es, Keys(es));
  }

  /** The records of one key keep their input order. */
  lemma MergeKeepsOrder(es: seq<Entry>, k: Key)
    ensures Select(Grouped(es), k) == Select(es, k)
  {
    ConcatSelect(es, Keys(es), k);
    KeysMembers(es, k);
  }

  /** The keys of the output come in the order the input first showed them. */
  lemma MergeKeyOrder(es: seq<Entry>)
    ensures Keys(Grouped(es)) == Keys(es)
  {
    forall k | k in Keys(es)
      ensures Select(es, k) != []
    {
      KeysMembers(es, k);
    }
    ConcatKeysOrder(es, Keys(es));
  }

  /** Every output location is that of its own classroom and course name, so one key has one location. */
  lemma MergeLocations(es: seq<Entry>)
    ensures forall i :: 0 <= i < |Merged(es)| ==>
      Merged(es)[i].location == Location.ClassroomToLocation(Merged(es)[i].classroom, Merged(es)[i].name)
    ensures forall i, j :: 0 <= i < |Merged(es)| && 0 <= j < |Merged(es)| && KeyOf(EntryOf(Merged(es)[i])) == KeyOf(EntryOf(Merged(es)[j])) ==>
      Merged(es)[i].location == Merged(es)[j].location
  {
    var m, g := Merged(es), Grouped(es);
    forall i | 0 <= i < |m|
      ensures m[i].location == Location.ClassroomToLocation(m[i].classroom, m[i].name)
    {
      assert m[i] == ToCourse(g[i]);
    }
  }

  // The dictionary the merge builds, and the loops that build and read it.

  /** The dictionary after the first `n` records: its keys in first-seen order and the schedules under each. */
  ghost predicate Tally(es: seq<Entry>, n: nat, order: seq<Key>, merged: map<Key, seq<Schedule>>)
    requires n <= |es|
  {
    order == Keys(es[..n])
    && (forall k :: k in merged <==> k in order)
    && (forall k :: k in merged ==> merged[k] == Schedules(es[..n], k))
  }

  lemma SchedulesSnoc(es: seq<Entry>, x: Entry, k: Key)
    ensures Schedules(es + [x], k) == Schedules(es, k) + (if KeyOf(x) == k then [ScheduleOf(x)] else [])
  {
    SelectSnoc(es, x, k);
  }

  /** A record whose key has been seen appends its schedule to that key's list. */
  lemma TallySeen(es: seq<Entry>, i: nat, order: seq<Key>, merged: map<Key, seq<Schedule>>)
    requires i < |es| && Tally(es, i, order, merged) && KeyOf(es[i]) in merged
    ensures Tally(es, i + 1, order, merged[KeyOf(es[i]) := merged[KeyOf(es[i])] + [ScheduleOf(es[i])]])
  {
    var x := es[i];
    var key := KeyOf(x);
    var m := merged[key := merged[key] + [ScheduleOf(x)]];
    assert es[..i + 1] == es[..i] + [x];
    assert Keys(es[..i + 1]) == order by { KeysSnoc(es[..i], x); }
    forall k | k in m
      ensures m[k] == Schedules(es[..i + 1], k)
    {
      SchedulesSnoc(es[..i], x, k);
    }
  }

  /** A record with a new key adds the key at the end of the order, with its schedule alone. */
  lemma TallyNew(es: seq<Entry>, i: nat, order: seq<Key>, merged: map<Key, seq<Schedule>>)
    requires i < |es| && Tally(es, i, order, merged) && KeyOf(es[i]) !in merged
    ensures Tally(es, i + 1, order + [KeyOf(es[i])], merged[KeyOf(es[i]) := [ScheduleOf(es[i])]])
  {
    var x := es[i];
    var key := KeyOf(x);
    var m := merged[key := [ScheduleOf(x)]];
    assert es[..i + 1] == es[..i] + [x];
    assert Keys(es[..i + 1]) == order + [key] by { KeysSnoc(es[..i], x); }
    forall k | k in m
      ensures m[k] == Schedules(es[..i + 1], k)
    {
      SchedulesSnoc(es[..i], x, k);
      if k == key {
        assert |Schedules(es[..i], key)| == 0 by { KeysMembers(es[..i], key); }
      }
    }
  }

  /** One pass of the first loop: add the record's schedule under its key, creating the key when new. */
  method MergeStep(es: seq<Entry>, i: nat, order: seq<Key>, merged: map<Key, seq<Schedule>>)
    returns (order': seq<Key>, merged': map<Key, seq<Schedule>>)
    requires i < |es| && Tally(es, i, order, merged)
    ensures Tally(es, i + 1, order', merged')
  {
    var course := es[i];
    var key := KeyOf(course);
    if key in merged {
      TallySeen(es, i, order, merged);
      order', merged' := order, merged[key := merged[key] + [ScheduleOf(course)]];
    } else {
      TallyNew(es, i, order, merged);
      order', merged' := order + [key], merged[key := [ScheduleOf(course)]];
    }
  }

  /** The courses of one group, built from its key and stored schedules, are its records located. */
  lemma EmitGroup(es: seq<Entry>, k: Key)
    ensures Emit(k, Schedules(es, k)) == Courses(Select(es, k))
  {
    forall i | 0 <= i < |Select(es, k)|
      ensures KeyOf(Select(es, k)[i]) == k
    {
      SelectMembers(es, k, Select(es, k)[i]);
    }
  }

  /** The inner result loop: one `Course` per schedule of one key. */
  method EmitSchedules(k: Key, ss: seq<Schedule>, result: seq<Course>) returns (next: seq<Course>)
    ensures next == result + Emit(k, ss)
  {
    next := result;
    for t := 0 to |ss|
      invariant next == result + Emit(k, ss[..t])
    {
      next := next + [CourseOf(k, ss[t])];
    }
    assert ss[..|ss|] == ss;
  }

  /** One pass of the outer result loop: the courses of the `j`-th key follow those before it. */
  method EmitStep(es: seq<Entry>, order: seq<Key>, j: nat, ss: seq<Schedule>, result: seq<Course>) returns (next: seq<Course>)
    requires j < |order| && ss == Schedules(es, order[j])
    requires result == Courses(Concat(es, order[..j]))
    ensures next == Courses(Concat(es, order[..j + 1]))
  {
    next := EmitSchedules(order[j], ss, result);
    EmitGroup(es, order[j]);
    var a, b := Concat(es, order[..j]), Select(es, order[j]);
    assert Concat(es, order[..j + 1]) == a + b by { assert order[..j + 1][..j] == order[..j]; }
    CoursesAppend(a, b);
  }

  lemma CoursesAppend(a: seq<Entry>, b: seq<Entry>)
    ensures Courses(a + b) == Courses(a) + Courses(b)
  {
  }

  /** `merge_duplicate_courses`: build the dictionary of groups, then emit one `Course` per stored schedule. */
  method MergeDuplicateCourses(courses: seq<Entry>) returns (result: seq<Course>)
    ensures result == Merged(courses)
  {
    var order: seq<Key> := [];
    var merged: map<Key, seq<Schedule>> := map[];
    for i := 0 to |courses|
      invariant Tally(courses, i, order, merged)
    {
      order, merged := MergeStep(courses, i, order, merged);
    }
    assert courses[..|courses|] == courses;
    result := [];
    for j := 0 to |order|
      invariant result == Courses(Concat(courses, order[..j]))
    {
      result := EmitStep(courses, order, j, merged[order[j]], result);
    }
    assert order[..|order|] == order;
  }
}
