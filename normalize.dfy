/**
 * The two name normalisers of the course parser: course names lose every
 * parenthesised qualifier, classroom names lose the stray `J` of a `Js<digits>`
 * building code.
 */
module Normalize {
  import opened Text

  const FullOpen: char := '（'
  const FullClose: char := '）'

  /** No `open` in `s` is followed, anywhere later, by a `close`: no group is left to remove. */
  predicate NoGroup(s: string, open: char, close: char) {
    forall i, j :: 0 <= i < j < |s| && s[i] == open ==> s[j] != close
  }

  /** Every whitespace character is a plain space and none is followed by another whitespace character. */
  predicate Collapsed(s: string) {
    forall i :: 0 <= i < |s| && IsSpace(s[i]) ==> s[i] == ' ' && (i + 1 < |s| ==> !IsSpace(s[i + 1]))
  }

  /**
   * `re.sub(open + '[^' + close + ']*' + close, '', s)`: scanning from the
   * left, an `open` that has a `close` somewhere after it is deleted together
   * with everything up to and including the first such `close`; an `open`
   * without one is kept.
   */
  function RemoveGroups(s: string, open: char, close: char): (r: string)
    ensures |r| <= |s|
    ensures forall k :: 0 <= k < |r| ==> r[k] in s
    ensures NoGroup(r, open, close)
    decreases |s|
  {
    if s == [] then []
    else if s[0] == open && close in s[1..] then
      var t := s[1..];
      RemoveGroups(t[IndexOf(t, close) + 1..], open, close)
    else
      var rest := RemoveGroups(s[1..], open, close);
      assert s[0] == open ==> close !in rest;
      [s[0]] + rest
  }

  /** `re.sub(r'\s+', ' ', s)`: each maximal run of whitespace becomes one space. */
  function Collapse(s: string): (r: string)
    ensures Collapsed(r)
    ensures r == [] <==> s == []
    ensures s != [] && !IsSpace(s[0]) ==> r[0] == s[0]
    ensures forall k :: 0 <= k < |r| && !IsSpace(r[k]) ==> r[k] in s
    decreases |s|
  {
    if s == [] then []
    else if IsSpace(s[0]) then
      var t := TrimLeft(s);
      assert |t| < |s|;
      [' '] + Collapse(t)
    else
      [s[0]] + Collapse(s[1..])
  }

  /**
   * `normalize_course_name`: the empty name is returned as it is; any other
   * name is stripped, loses its full-width groups, then its ASCII groups,
   * and has its whitespace runs collapsed and its ends stripped.
   */
  function NormalizeCourseName(name: string): (r: string)
    ensures name == [] ==> r == []
    ensures NoGroup(r, FullOpen, FullClose) && NoGroup(r, '(', ')')
    ensures NoSpaceAtEnds(r) && Collapsed(r)
  {
    if name == [] then name
    else
      var a := RemoveGroups(Strip(name), FullOpen, FullClose);
      var b := RemoveGroups(a, '(', ')');
      RemoveGroupsKeeps(a, '(', ')', FullOpen, FullClose);
      var c := Collapse(b);
      CollapseKeeps(b, FullOpen, FullClose);
      CollapseKeeps(b, '(', ')');
      var r := Strip(c);
      StripKeeps(c);
      r
  }

  lemma NoGroupCons(x: char, s: string, open: char, close: char)
    requires NoGroup(s, open, close)
    requires x == open ==> close !in s
    ensures NoGroup([x] + s, open, close)
  {
    var t := [x] + s;
    forall i, j | 0 <= i < j < |t| && t[i] == open ensures t[j] != close {
      if i == 0 { assert t[j] == s[j - 1]; } else { assert t[i] == s[i - 1] && t[j] == s[j - 1]; }
    }
  }

  /** Removing groups of one kind leaves a string with no group of another kind still without one. */
  lemma {:induction false} RemoveGroupsKeeps(s: string, open: char, close: char, open2: char, close2: char)
    requires NoGroup(s, open2, close2)
    ensures NoGroup(RemoveGroups(s, open, close), open2, close2)
    decreases |s|
  {
    if s == [] {
    } else if s[0] == open && close in s[1..] {
      var t := s[1..];
      var u := t[IndexOf(t, close) + 1..];
      assert u == s[IndexOf(t, close) + 2..];
      RemoveGroupsKeeps(u, open, close, open2, close2);
    } else {
      var rest := RemoveGroups(s[1..], open, close);
      RemoveGroupsKeeps(s[1..], open, close, open2, close2);
      if s[0] == open2 {
        forall k | 0 <= k < |rest| ensures rest[k] != close2 {
          var m :| 0 <= m < |s[1..]| && s[1..][m] == rest[k];
          assert s[m + 1] == rest[k];
        }
      }
      NoGroupCons(s[0], rest, open2, close2);
    }
  }

  /** Collapsing whitespace cannot create a group of two non-space delimiters. */
  lemma {:induction false} CollapseKeeps(s: string, open: char, close: char)
    requires !IsSpace(open) && !IsSpace(close)
    requires NoGroup(s, open, close)
    ensures NoGroup(Collapse(s), open, close)
    decreases |s|
  {
    if s == [] {
    } else if IsSpace(s[0]) {
      var t := TrimLeft(s);
      assert |t| < |s|;
      CollapseKeeps(t, open, close);
      NoGroupCons(' ', Collapse(t), open, close);
    } else {
      var rest := Collapse(s[1..]);
      CollapseKeeps(s[1..], open, close);
      if s[0] == open {
        forall k | 0 <= k < |rest| ensures rest[k] != close {
          if !IsSpace(rest[k]) {
            var m :| 0 <= m < |s[1..]| && s[1..][m] == rest[k];
            assert s[m + 1] == rest[k];
          }
        }
      }
      NoGroupCons(s[0], rest, open, close);
    }
  }

  lemma SliceKeepsNoGroup(s: string, a: nat, b: nat, open: char, close: char)
    requires a <= b <= |s|
    requires NoGroup(s, open, close)
    ensures NoGroup(s[a..b], open, close)
  {
    var t := s[a..b];
    forall i, j | 0 <= i < j < |t| && t[i] == open ensures t[j] != close {
      assert t[i] == s[a + i] && t[j] == s[a + j];
    }
  }

  lemma SliceKeepsCollapsed(s: string, a: nat, b: nat)
    requires a <= b <= |s|
    requires Collapsed(s)
    ensures Collapsed(s[a..b])
  {
    var t := s[a..b];
    forall i | 0 <= i < |t| && IsSpace(t[i]) ensures t[i] == ' ' && (i + 1 < |t| ==> !IsSpace(t[i + 1])) {
      assert t[i] == s[a + i];
      if i + 1 < |t| { assert t[i + 1] == s[a + i + 1]; }
    }
  }

  /** Stripping keeps both kinds of group absent and the whitespace collapsed. */
  lemma StripKeeps(s: string)
    requires NoGroup(s, FullOpen, FullClose) && NoGroup(s, '(', ')') && Collapsed(s)
    ensures NoGroup(Strip(s), FullOpen, FullClose) && NoGroup(Strip(s), '(', ')') && Collapsed(Strip(s))
  {
    var a, b := StripIsSlice(s);
    assert NoGroup(Strip(s), FullOpen, FullClose) by { SliceKeepsNoGroup(s, a, b, FullOpen, FullClose); }
    assert NoGroup(Strip(s), '(', ')') by { SliceKeepsNoGroup(s, a, b, '(', ')'); }
    assert Collapsed(Strip(s)) by { SliceKeepsCollapsed(s, a, b); }
  }

  /** A string without groups is left as it is by `RemoveGroups`. */
  lemma {:induction false} RemoveGroupsNoop(s: string, open: char, close: char)
    requires NoGroup(s, open, close)
    ensures RemoveGroups(s, open, close) == s
    decreases |s|
  {
    if s != [] {
      assert !(s[0] == open && close in s[1..]);
      RemoveGroupsNoop(s[1..], open, close);
    }
  }

  /** Collapsed whitespace is left as it is by `Collapse`. */
  lemma {:induction false} CollapseNoop(s: string)
    requires Collapsed(s)
    ensures Collapse(s) == s
    decreases |s|
  {
    if s != [] {
      if IsSpace(s[0]) {
        assert s[0] == ' ';
        assert TrimLeft(s) == s[1..];
        CollapseNoop(s[1..]);
      } else {
        CollapseNoop(s[1..]);
      }
    }
  }

  /** Normalising a name twice gives the same name as normalising it once. */
  lemma NormalizeCourseNameIdempotent(name: string)
    ensures NormalizeCourseName(NormalizeCourseName(name)) == NormalizeCourseName(name)
  {
    var y := NormalizeCourseName(name);
    if y != [] {
      StripNoop(y);
      RemoveGroupsNoop(y, FullOpen, FullClose);
      RemoveGroupsNoop(y, '(', ')');
      CollapseNoop(y);
    }
  }

  /** Collapsing whitespace keeps every other character, in order. */
  lemma {:induction false} CollapseNonSpace(s: string)
    ensures NonSpace(Collapse(s)) == NonSpace(s)
    decreases |s|
  {
    if s != [] {
      if IsSpace(s[0]) {
        var t := TrimLeft(s);
        assert |t| < |s|;
        CollapseNonSpace(t);
        NonSpaceTrimLeft(s);
        NonSpaceAppend([' '], Collapse(t));
      } else {
        CollapseNonSpace(s[1..]);
        NonSpaceAppend([s[0]], Collapse(s[1..]));
      }
    }
  }

  /** Text that ends in a non-space character is collapsed independently of what follows it. */
  lemma {:induction false} CollapseAppend(p: string, x: string)
    requires p == [] || !IsSpace(p[|p| - 1])
    ensures Collapse(p + x) == Collapse(p) + Collapse(x)
    decreases |p|
  {
    if p == [] {
      assert p + x == x;
    } else if IsSpace(p[0]) {
      var t := TrimLeft(p);
      assert t != [] && t[|t| - 1] == p[|p| - 1];
      TrimLeftAppend(p, x);
      CollapseAppend(t, x);
      CollapseSpaceFront(p);
      HeadTailAppend(p, x);
      CollapseSpaceFront(p + x);
      ConsAssoc(' ', Collapse(t), Collapse(x));
    } else {
      var t := p[1..];
      HeadTailAppend(p, x);
      CollapseAppend(t, x);
      CollapsePlainFront(p);
      CollapsePlainFront(p + x);
      ConsAssoc(p[0], Collapse(t), Collapse(x));
    }
  }

  /** A whitespace run in front of a non-space character becomes one space. */
  lemma CollapseRunFront(w: string, q: string)
    requires w != [] && forall i :: 0 <= i < |w| ==> IsSpace(w[i])
    requires q == [] || !IsSpace(q[0])
    ensures Collapse(w + q) == [' '] + Collapse(q)
  {
    var x := w + q;
    TrimLeftSpaces(w, q);
    assert x[0] == w[0];
    CollapseSpaceFront(x);
  }

  /** A whitespace run between two pieces of text becomes exactly one space. */
  lemma CollapseSpaceRun(p: string, w: string, q: string)
    requires p == [] || !IsSpace(p[|p| - 1])
    requires w != [] && forall i :: 0 <= i < |w| ==> IsSpace(w[i])
    requires q == [] || !IsSpace(q[0])
    ensures Collapse(p + (w + q)) == Collapse(p) + ([' '] + Collapse(q))
  {
    CollapseAppend(p, w + q);
    CollapseRunFront(w, q);
  }

  /** One step of `Collapse` on leading whitespace. */
  lemma CollapseSpaceFront(s: string)
    requires s != [] && IsSpace(s[0])
    ensures Collapse(s) == [' '] + Collapse(TrimLeft(s))
  {
  }

  /** One step of `Collapse` on a leading non-space character. */
  lemma CollapsePlainFront(s: string)
    requires s != [] && !IsSpace(s[0])
    ensures Collapse(s) == [s[0]] + Collapse(s[1..])
  {
  }

  /** A name already free of groups, trimmed and collapsed is left as it is. */
  lemma NormalizeCourseNameNoop(name: string)
    requires name != [] && NoGroup(name, FullOpen, FullClose) && NoGroup(name, '(', ')')
    requires NoSpaceAtEnds(name) && Collapsed(name)
    ensures NormalizeCourseName(name) == name
  {
    StripNoop(name);
    RemoveGroupsNoop(name, FullOpen, FullClose);
    RemoveGroupsNoop(name, '(', ')');
    CollapseNoop(name);
  }

  /**
   * What a name keeps: apart from whitespace, the normalised name is the
   * stripped name with its full-width groups and then its ASCII groups removed.
   */
  lemma NormalizeCourseNameContent(name: string)
    requires name != []
    ensures NonSpace(NormalizeCourseName(name)) ==
      NonSpace(RemoveGroups(RemoveGroups(Strip(name), FullOpen, FullClose), '(', ')'))
  {
    var b := RemoveGroups(RemoveGroups(Strip(name), FullOpen, FullClose), '(', ')');
    CollapseNonSpace(b);
    NonSpaceStrip(Collapse(b));
  }

  /** A name that is one full-width group and nothing else normalises to the empty name. */
  lemma NormalizeWholeGroup(g: string)
    requires FullClose !in g
    ensures NormalizeCourseName([FullOpen] + g + [FullClose]) == []
  {
    var name := [FullOpen] + g + [FullClose];
    StripNoopVia(name, FullOpen, FullClose);
    assert name == [FullOpen] + g + [FullClose] + [];
    RemoveGroupsGroup(g, [], FullOpen, FullClose);
    NormalizeCourseNameVia(name, [], [], []);
  }

  /** A leading `Js` immediately followed by a digit. */
  predicate HasJsPrefix(s: string) {
    |s| >= 3 && s[0] == 'J' && s[1] == 's' && IsDigit(s[2])
  }

  /**
   * `normalize_classroom_name`: the empty name is returned as it is; any
   * other name is stripped, and a leading `Js<digits>` is rewritten to
   * `S<digits>`, the rest of the name being kept.
   */
  function NormalizeClassroomName(room: string): (r: string)
    ensures room == [] ==> r == []
    ensures room != [] ==> NoSpaceAtEnds(r) && !HasJsPrefix(r)
    ensures room != [] ==> (r == [] <==> Strip(room) == [])
    ensures room != [] && HasJsPrefix(Strip(room)) ==> r == "S" + Strip(room)[2..]
    ensures room != [] && !HasJsPrefix(Strip(room)) ==> r == Strip(room)
  {
    if room == [] then room
    else
      var t := Strip(room);
      if HasJsPrefix(t) then "S" + t[2..] else t
  }

  /** Normalising a classroom name twice gives the same name as normalising it once. */
  lemma NormalizeClassroomNameIdempotent(room: string)
    ensures NormalizeClassroomName(NormalizeClassroomName(room)) == NormalizeClassroomName(room)
  {
    var y := NormalizeClassroomName(room);
    if y != [] {
      StripNoop(y);
    }
  }

  /** A prefix without an opening delimiter passes through `RemoveGroups` untouched. */
  lemma {:induction false} RemoveGroupsPrefix(p: string, t: string, open: char, close: char)
    requires open !in p
    ensures RemoveGroups(p + t, open, close) == p + RemoveGroups(t, open, close)
  {
    if p != [] {
      assert (p + t)[0] == p[0] && (p + t)[1..] == p[1..] + t;
      RemoveGroupsPrefix(p[1..], t, open, close);
      assert p == [p[0]] + p[1..];
    } else {
      assert p + t == t;
    }
  }

  /** A group whose inside holds no closing delimiter is removed as a whole. */
  lemma RemoveGroupsGroup(g: string, t: string, open: char, close: char)
    requires close !in g
    ensures RemoveGroups([open] + g + [close] + t, open, close) == RemoveGroups(t, open, close)
  {
    var s := [open] + g + [close] + t;
    assert s[1..] == g + [close] + t;
    IndexOfFirst(s[1..], close, |g|);
    assert s[1..][|g| + 1..] == t;
  }

  /**
   * Unfolds `NormalizeCourseName` on a name whose stages are known: the
   * stripped name, what the two group removals leave, and a result that is
   * already collapsed and stripped.
   */
  lemma NormalizeCourseNameVia(name: string, a: string, b: string, r: string)
    requires name != [] && Strip(name) == name
    requires RemoveGroups(name, FullOpen, FullClose) == a
    requires RemoveGroups(a, '(', ')') == b
    requires Strip(Collapse(b)) == r
    ensures NormalizeCourseName(name) == r
  {
  }
}

/** The name normalisations the repository's own test script expects, worked out on the model. */
module NormalizeExamples {
  import opened Text
  import opened Normalize

  // Each example is split into lemmas about one stage each, so that no single
  // proof has to unfold the pipeline on a literal more than once.

  /** A name that is already clean passes the stages after the group removals unchanged. */
  lemma CleanStages(n: string)
    requires NoGroup(n, '(', ')') && Collapsed(n) && NoSpaceAtEnds(n)
    ensures RemoveGroups(n, '(', ')') == n && Strip(Collapse(n)) == n
  {
    RemoveGroupsNoop(n, '(', ')');
    CollapseNoop(n);
    StripNoop(n);
  }

  /** One group after a prefix without opening delimiters: the group goes, the prefix stays. */
  lemma RemoveOneGroup(p: string, g: string, t: string, open: char, close: char)
    requires open !in p && close !in g
    ensures RemoveGroups(p + ([open] + g + [close] + t), open, close) == p + RemoveGroups(t, open, close)
  {
    RemoveGroupsPrefix(p, [open] + g + [close] + t, open, close);
    RemoveGroupsGroup(g, t, open, close);
  }

  lemma CircuitStrip() ensures Strip("电路（2）") == "电路（2）" { StripNoopVia("电路（2）", '电', '）'); }

  lemma CircuitGroups() ensures RemoveGroups("电路（2）", FullOpen, FullClose) == "电路" {
    assert "电路（2）" == "电路" + ([FullOpen] + "2" + [FullClose] + "");
    RemoveOneGroup("电路", "2", "", FullOpen, FullClose);
  }

  lemma CircuitClean() ensures RemoveGroups("电路", '(', ')') == "电路" && Strip(Collapse("电路")) == "电路" {
    CleanStages("电路");
  }

  /** `电路（2）` normalises to `电路`. */
  lemma CourseNameExampleCircuit()
    ensures NormalizeCourseName("电路（2）") == "电路"
  {
    CircuitStrip();
    CircuitGroups();
    CircuitClean();
    NormalizeCourseNameVia("电路（2）", "电路", "电路", "电路");
  }

  lemma TwoGroupsStrip() ensures Strip("高等数学（B）（2-1）") == "高等数学（B）（2-1）" { StripNoopVia("高等数学（B）（2-1）", '高', '）'); }

  lemma TwoGroupsSecond() ensures RemoveGroups("（2-1）", FullOpen, FullClose) == "" {
    assert "（2-1）" == [] + ([FullOpen] + "2-1" + [FullClose] + "");
    RemoveOneGroup("", "2-1", "", FullOpen, FullClose);
  }

  lemma TwoGroupsGroups() ensures RemoveGroups("高等数学（B）（2-1）", FullOpen, FullClose) == "高等数学" {
    assert "高等数学（B）（2-1）" == "高等数学" + ([FullOpen] + "B" + [FullClose] + "（2-1）");
    RemoveOneGroup("高等数学", "B", "（2-1）", FullOpen, FullClose);
    TwoGroupsSecond();
  }

  lemma TwoGroupsClean() ensures RemoveGroups("高等数学", '(', ')') == "高等数学" && Strip(Collapse("高等数学")) == "高等数学" {
    CleanStages("高等数学");
  }

  /** `高等数学（B）（2-1）` normalises to `高等数学`: both groups go. */
  lemma CourseNameExampleTwoGroups()
    ensures NormalizeCourseName("高等数学（B）（2-1）") == "高等数学"
  {
    TwoGroupsStrip();
    TwoGroupsGroups();
    TwoGroupsClean();
    NormalizeCourseNameVia("高等数学（B）（2-1）", "高等数学", "高等数学", "高等数学");
  }

  lemma SpaceStrip() ensures Strip("大学物理 （实验）") == "大学物理 （实验）" { StripNoopVia("大学物理 （实验）", '大', '）'); }

  lemma SpaceGroups() ensures RemoveGroups("大学物理 （实验）", FullOpen, FullClose) == "大学物理 " {
    assert "大学物理 （实验）" == "大学物理 " + ([FullOpen] + "实验" + [FullClose] + "");
    RemoveOneGroup("大学物理 ", "实验", "", FullOpen, FullClose);
  }

  lemma SpaceAscii() ensures RemoveGroups("大学物理 ", '(', ')') == "大学物理 " {
    RemoveGroupsNoop("大学物理 ", '(', ')');
  }

  lemma SpaceCollapse() ensures Collapse("大学物理 ") == "大学物理 " {
    CollapseNoop("大学物理 ");
  }

  lemma SpaceFinalStrip() ensures Strip("大学物理 ") == "大学物理" {
    assert "大学物理 " == "大学物理" + " ";
    StripTrailingSpace("大学物理");
  }

  /** `大学物理 （实验）` normalises to `大学物理`: the space left before the group is stripped. */
  lemma CourseNameExampleSpaceBeforeGroup()
    ensures NormalizeCourseName("大学物理 （实验）") == "大学物理"
  {
    SpaceStrip();
    SpaceGroups();
    SpaceAscii();
    SpaceCollapse();
    SpaceFinalStrip();
    NormalizeCourseNameVia("大学物理 （实验）", "大学物理 ", "大学物理 ", "大学物理");
  }

  lemma PlainStrip() ensures Strip("线性代数") == "线性代数" { StripNoopVia("线性代数", '线', '数'); }

  lemma PlainFullWidth() ensures RemoveGroups("线性代数", FullOpen, FullClose) == "线性代数" {
    RemoveGroupsNoop("线性代数", FullOpen, FullClose);
  }

  lemma PlainClean() ensures RemoveGroups("线性代数", '(', ')') == "线性代数" && Strip(Collapse("线性代数")) == "线性代数" {
    CleanStages("线性代数");
  }

  /** `线性代数` has nothing to remove and is returned as it is. */
  lemma CourseNameExamplePlain()
    ensures NormalizeCourseName("线性代数") == "线性代数"
  {
    PlainStrip();
    PlainFullWidth();
    PlainClean();
    NormalizeCourseNameVia("线性代数", "线性代数", "线性代数", "线性代数");
  }

  lemma AsciiStrip() ensures Strip("程序设计基础(C语言)") == "程序设计基础(C语言)" { StripNoopVia("程序设计基础(C语言)", '程', ')'); }

  lemma AsciiFullWidth() ensures RemoveGroups("程序设计基础(C语言)", FullOpen, FullClose) == "程序设计基础(C语言)" {
    RemoveGroupsNoop("程序设计基础(C语言)", FullOpen, FullClose);
  }

  lemma AsciiGroups() ensures RemoveGroups("程序设计基础(C语言)", '(', ')') == "程序设计基础" {
    assert "程序设计基础(C语言)" == "程序设计基础" + (['('] + "C语言" + [')'] + "");
    RemoveOneGroup("程序设计基础", "C语言", "", '(', ')');
  }

  lemma AsciiClean() ensures Strip(Collapse("程序设计基础")) == "程序设计基础" {
    CleanStages("程序设计基础");
  }

  /** `程序设计基础(C语言)` normalises to `程序设计基础`: an ASCII group goes as well. */
  lemma CourseNameExampleAsciiGroup()
    ensures NormalizeCourseName("程序设计基础(C语言)") == "程序设计基础"
  {
    AsciiStrip();
    AsciiFullWidth();
    AsciiGroups();
    AsciiClean();
    NormalizeCourseNameVia("程序设计基础(C语言)", "程序设计基础(C语言)", "程序设计基础", "程序设计基础");
  }

  /** `（实验）` normalises to the empty name. */
  lemma CourseNameExampleOnlyGroup()
    ensures NormalizeCourseName("（实验）") == ""
  {
    assert "（实验）" == [FullOpen] + "实验" + [FullClose];
    NormalizeWholeGroup("实验");
  }

  lemma ClassroomStripExamples()
    ensures Strip("Js1-305室") == "Js1-305室"
  {
    StripNoop("Js1-305室");
  }

  /** `Js1-305室` becomes `S1-305室`. */
  lemma ClassroomNameExample()
    ensures NormalizeClassroomName("Js1-305室") == "S1-305室"
  {
    ClassroomStripExamples();
  }
}
