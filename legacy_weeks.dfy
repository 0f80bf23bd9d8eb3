/**
 * `parse_weeks` of the older parser (`parse_courses.py`): instead of
 * splitting on commas it collects every `a-b` range and every free-standing
 * number anywhere in the text, so a descending range still leaves its
 * second number behind.
 */
module LegacyWeekParser {
  import opened Text
  import opened Ordered
  import opened WeekParser
  import opened Wrappers

  /**
   * `re.findall(r'(\d+)-(\d+)', s)`: scanning left to right, a match is tried
   * at each position; a match is a digit run, a dash and a digit run, both
   * runs as long as possible, and the scan resumes after it.
   */
  function FindRanges(s: string): (r: seq<(int, int)>)
    ensures '-' !in s ==> r == []
    ensures 3 * |r| <= |s|
  {
    if s == [] then []
    else
      match RangeEnd(s)
      case Some(e) =>
        [RangePair(s, LeadingDigits(s), e)] + FindRanges(s[e..])
      case None =>
        assert '-' !in s ==> '-' !in s[1..];
        FindRanges(s[1..])
  }

  /** Where the range match at the front of `s` ends, if there is one: both digit runs taken whole. */
  function RangeEnd(s: string): (r: Option<nat>)
    ensures r.Some? ==> RangeAt(s, LeadingDigits(s), r.value)
    ensures r.Some? <==> exists i: nat, j: nat :: RangeAt(s, i, j)
  {
    var a := LeadingDigits(s);
    if 1 <= a && a + 1 < |s| && s[a] == '-' && IsDigit(s[a + 1]) then
      var e := a + 1 + LeadingDigits(s[a + 1..]);
      LeadingRange(s, a, e);
      Some(e)
    else
      assert forall i: nat, j: nat :: !RangeAt(s, i, j) by {
        forall i: nat, j: nat | RangeAt(s, i, j) ensures false {
          RangeAtShape(s, i, j);
        }
      }
      None
  }

  /** The range match at the front ends where `RangeAt` says. */
  lemma RangeEndAt(s: string, i: nat, j: nat)
    requires RangeAt(s, i, j)
    ensures RangeEnd(s) == Some(j) && LeadingDigits(s) == i
  {
    RangeAtShape(s, i, j);
  }

  /** The two numbers of the range match `RangeAt(q, i, j)` at the front of `q`. */
  function RangePair(q: string, i: nat, j: nat): (int, int)
    requires RangeAt(q, i, j)
  {
    (Value(q[..i]), Value(q[i + 1..j]))
  }

  /** A range match can start at `p`: it is there, and no digit run reaches into it from the left. */
  predicate RangeMatchAt(s: string, p: nat, i: nat, j: nat) {
    p < |s| && (p == 0 || !IsDigit(s[p - 1])) && RangeAt(s[p..], i, j)
  }

  /** `p` is where the second run of an `a-b` starts: a dash just before it, with a digit before the dash. */
  predicate AfterDash(s: string, p: nat) {
    2 <= p <= |s| && s[p - 1] == '-' && IsDigit(s[p - 2])
  }

  /** A range match starts with a digit. */
  lemma RangeAtDigit(q: string, i: nat, j: nat)
    requires RangeAt(q, i, j)
    ensures IsDigit(q[0])
  {
    assert q[..i][0] == q[0];
  }

  /** A digit in front of a range match makes a longer range match. */
  lemma RangeAtExtend(s: string, i: nat, j: nat)
    requires s != [] && RangeAt(s[1..], i, j)
    ensures IsDigit(s[0]) ==> RangeAt(s, i + 1, j + 1)
  {
    var t := s[1..];
    if IsDigit(s[0]) {
      forall k | 0 <= k < i + 1
        ensures IsDigit(s[k])
      {
        if k > 0 {
          assert s[k] == t[..i][k - 1];
        }
      }
      assert AllDigits(s[..i + 1]);
      assert s[i + 1] == t[i];
      forall k | i + 2 <= k < j + 1
        ensures IsDigit(s[k])
      {
        assert s[k] == t[i + 1..j][k - i - 2];
      }
      assert AllDigits(s[i + 2..j + 1]);
      if j + 1 < |s| {
        assert s[j + 1] == t[j];
      }
    }
  }

  /** `FindRanges` when a range match sits at the front: its pair, then the ranges after it. */
  lemma FindRangesSome(s: string, e: nat)
    requires s != [] && RangeEnd(s) == Some(e)
    ensures RangeAt(s, LeadingDigits(s), e)
    ensures FindRanges(s) == [RangePair(s, LeadingDigits(s), e)] + FindRanges(s[e..])
  {
  }

  /** `FindRanges` when no range match sits at the front: the scan moves on by one character. */
  lemma FindRangesNone(s: string)
    requires s != [] && RangeEnd(s) == None
    ensures FindRanges(s) == FindRanges(s[1..])
  {
  }

  /**
   * One step of the `findall` scan: `e` is where the range match at the
   * front ends, or `0` when there is none and the scan moves on by one.
   */
  lemma FindRangesStep(s: string) returns (e: nat)
    requires s != []
    ensures e == 0 ==> FindRanges(s) == FindRanges(s[1..]) && forall i: nat, j: nat :: !RangeAt(s, i, j)
    ensures e > 0 ==> RangeAt(s, LeadingDigits(s), e)
    ensures e > 0 ==> FindRanges(s) == [RangePair(s, LeadingDigits(s), e)] + FindRanges(s[e..])
  {
    match RangeEnd(s)
    case Some(end) =>
      FindRangesSome(s, end);
      e := end;
    case None =>
      FindRangesNone(s);
      e := 0;
  }

  /** Dropping the first `d` characters moves a position `p` at or after the cut `d` places to the left. */
  lemma SuffixShift(s: string, d: nat, p: nat)
    requires d <= p < |s|
    ensures s[p..] == s[d..][p - d..]
    ensures p > d ==> s[p - 1] == s[d..][p - d - 1]
    ensures p >= d + 2 ==> s[p - 2] == s[d..][p - d - 2]
  {
  }

  /**
   * Inside the range match `RangeAt(s, a, e)`, every position but the
   * first is either preceded by a digit, or is the dash, or starts the
   * second run.
   */
  lemma InsideRange(s: string, a: nat, e: nat, p: nat)
    requires RangeAt(s, a, e) && 0 < p < e
    ensures IsDigit(s[p - 1]) || p == a || AfterDash(s, p)
  {
    if p < a {
      assert s[..a][p - 1] == s[p - 1];
    } else if p > a + 1 {
      assert s[a + 1..e][p - 1 - (a + 1)] == s[p - 1];
    } else if p == a + 1 {
      assert s[..a][a - 1] == s[p - 2];
    }
  }

  /** `x` is the pair of the range match at `p` in `s`, a position no digit precedes. */
  predicate PairOfMatch(s: string, x: (int, int), p: nat, i: nat, j: nat) {
    RangeMatchAt(s, p, i, j) && x == RangePair(s[p..], i, j)
  }

  /**
   * Every range `findall` reports is a range match in `s`: it starts at a
   * position no digit precedes, and its pair is the match's two numbers.
   */
  lemma {:induction false} FindRangesSound(s: string, x: (int, int)) returns (p: nat, i: nat, j: nat)
    requires x in FindRanges(s)
    ensures PairOfMatch(s, x, p, i, j)
    decreases |s|, 2
  {
    assert s != [];
    var e := FindRangesStep(s);
    if e > 0 {
      p, i, j := SoundWithFront(s, e, x);
    } else {
      p, i, j := SoundWithoutFront(s, x);
    }
  }

  /** `FindRangesSound` when a range match, ending at `e`, sits at the front of `s`. */
  lemma {:induction false} SoundWithFront(s: string, e: nat, x: (int, int)) returns (p: nat, i: nat, j: nat)
    requires 0 < e && RangeAt(s, LeadingDigits(s), e)
    requires x in [RangePair(s, LeadingDigits(s), e)] + FindRanges(s[e..])
    ensures PairOfMatch(s, x, p, i, j)
    decreases |s|, 1
  {
    if x == RangePair(s, LeadingDigits(s), e) {
      p, i, j := 0, LeadingDigits(s), e;
      SoundFront(s, e);
    } else {
      p, i, j := SoundAfterFront(s, e, x);
    }
  }

  /** `FindRangesSound` when no range match sits at the front of `s`. */
  lemma {:induction false} SoundWithoutFront(s: string, x: (int, int)) returns (p: nat, i: nat, j: nat)
    requires s != [] && (forall i: nat, j: nat :: !RangeAt(s, i, j)) && x in FindRanges(s[1..])
    ensures PairOfMatch(s, x, p, i, j)
    decreases |s|, 1
  {
    var p', i', j' := FindRangesSound(s[1..], x);
    p, i, j := p' + 1, i', j';
    SoundAfterSkip(s, x, p', i, j);
  }

  /** The front match is a match of `s` at position `0`. */
  lemma SoundFront(s: string, e: nat)
    requires RangeAt(s, LeadingDigits(s), e)
    ensures PairOfMatch(s, RangePair(s, LeadingDigits(s), e), 0, LeadingDigits(s), e)
  {
    assert s[0..] == s;
  }

  /**
   * A range reported after the front match, which ends at `e` before a
   * non-digit, is a match of `s`: it cannot start right at `e`.
   */
  lemma {:induction false} SoundAfterFront(s: string, e: nat, x: (int, int)) returns (p: nat, i: nat, j: nat)
    requires 0 < e <= |s| && (e == |s| || !IsDigit(s[e])) && x in FindRanges(s[e..])
    ensures PairOfMatch(s, x, p, i, j)
    decreases |s|, 0
  {
    var p', i', j' := FindRangesSound(s[e..], x);
    p, i, j := p' + e, i', j';
    SuffixShift(s, e, p);
    RangeAtDigit(s[p..], i, j);
  }

  /** A match in `s[1..]` is a match of `s` when no range match sits at the front of `s`. */
  lemma SoundAfterSkip(s: string, x: (int, int), p': nat, i: nat, j: nat)
    requires s != [] && (forall i: nat, j: nat :: !RangeAt(s, i, j)) && PairOfMatch(s[1..], x, p', i, j)
    ensures PairOfMatch(s, x, p' + 1, i, j)
  {
    SuffixShift(s, 1, p' + 1);
    if p' == 0 {
      assert s[1..][p'..] == s[1..];
      RangeAtExtend(s, i, j);
    }
  }

  /**
   * Every range match that starts at a position no digit precedes is
   * reported, unless its first run is the second run of an `a-b` just before
   * it, which an earlier match has consumed.
   */
  lemma {:induction false} FindRangesComplete(s: string, p: nat, i: nat, j: nat)
    requires RangeMatchAt(s, p, i, j) && !AfterDash(s, p)
    ensures RangePair(s[p..], i, j) in FindRanges(s)
    decreases |s|, 2
  {
    if p == 0 {
      assert s[0..] == s;
      RangeEndAt(s, i, j);
      FindRangesSome(s, j);
    } else {
      var e := FindRangesStep(s);
      if e > 0 {
        CompleteWithFront(s, e, p, i, j);
      } else {
        CompleteWithoutFront(s, p, i, j);
      }
    }
  }

  /** `FindRangesComplete` for a later match when a range match, ending at `e`, sits at the front of `s`. */
  lemma {:induction false} CompleteWithFront(s: string, e: nat, p: nat, i: nat, j: nat)
    requires 0 < e && RangeAt(s, LeadingDigits(s), e)
    requires FindRanges(s) == [RangePair(s, LeadingDigits(s), e)] + FindRanges(s[e..])
    requires 0 < p && RangeMatchAt(s, p, i, j) && !AfterDash(s, p)
    ensures RangePair(s[p..], i, j) in FindRanges(s)
    decreases |s|, 1
  {
    CompleteAfterFront(s, e, p, i, j);
    FindRangesComplete(s[e..], p - e, i, j);
  }

  /** `FindRangesComplete` for a later match when no range match sits at the front of `s`. */
  lemma {:induction false} CompleteWithoutFront(s: string, p: nat, i: nat, j: nat)
    requires s != [] && FindRanges(s) == FindRanges(s[1..])
    requires 0 < p && RangeMatchAt(s, p, i, j) && !AfterDash(s, p)
    ensures RangePair(s[p..], i, j) in FindRanges(s)
    decreases |s|, 1
  {
    CompleteAfterSkip(s, p, i, j);
    FindRangesComplete(s[1..], p - 1, i, j);
  }

  /** A match after the first character is a match of the rest of `s`. */
  lemma CompleteAfterSkip(s: string, p: nat, i: nat, j: nat)
    requires 0 < p && RangeMatchAt(s, p, i, j) && !AfterDash(s, p)
    ensures RangeMatchAt(s[1..], p - 1, i, j) && !AfterDash(s[1..], p - 1)
    ensures s[p..] == s[1..][p - 1..]
  {
    SuffixShift(s, 1, p);
  }

  /** A match that is not the front match starts after it, and is a match of the rest of `s`. */
  lemma CompleteAfterFront(s: string, e: nat, p: nat, i: nat, j: nat)
    requires 0 < p && RangeMatchAt(s, p, i, j) && !AfterDash(s, p)
    requires RangeAt(s, LeadingDigits(s), e)
    ensures e <= p && RangeMatchAt(s[e..], p - e, i, j) && !AfterDash(s[e..], p - e)
    ensures s[p..] == s[e..][p - e..]
  {
    RangeAtDigit(s[p..], i, j);
    assert s[p..][0] == s[p];
    if p < e {
      InsideRange(s, LeadingDigits(s), e, p);
    }
    SuffixShift(s, e, p);
  }


  /**
   * `(?<!\d)(\d+)(?![-\d])` matches `s[p..k]`: a digit run with no digit
   * before it and neither a digit nor a dash after it.
   */
  predicate SingleAt(s: string, p: nat, k: nat) {
    p < k <= |s| && AllDigits(s[p..k]) && (p == 0 || !IsDigit(s[p - 1]))
    && (k == |s| || (!IsDigit(s[k]) && s[k] != '-'))
  }

  /**
   * `re.findall(r'(?<!\d)(\d+)(?![-\d])', s)` when no digit precedes `s`:
   * the value of each whole digit run that is not followed by a dash.
   */
  function FindSingles(s: string): (r: seq<int>)
    ensures |r| <= |s|
  {
    if s == [] then []
    else if IsDigit(s[0]) then
      var k := LeadingDigits(s);
      (if k == |s| || s[k] != '-' then [Value(s[..k])] else []) + FindSingles(s[k..])
    else FindSingles(s[1..])
  }

  /** Dropping the first `d` characters shifts every single-number match, when no match straddles the cut. */
  lemma SingleAtShift(s: string, d: nat, p: nat, k: nat)
    requires d <= p && d <= |s|
    requires d == 0 || !IsDigit(s[d - 1]) || d == |s| || !IsDigit(s[d])
    ensures SingleAt(s, p, k) <==> k >= d && SingleAt(s[d..], p - d, k - d)
    ensures SingleAt(s, p, k) ==> s[p..k] == s[d..][p - d..k - d]
  {
    if k >= d && p <= k <= |s| {
      assert s[p..k] == s[d..][p - d..k - d];
    }
    if p == d && d > 0 && p < k <= |s| {
      assert s[p..k][0] == s[d];
      assert s[d..][p - d..k - d][0] == s[d];
    }
  }

  /** A match in a suffix of `s` is a match in `s`, when no match straddles the cut. */
  lemma SingleShiftedBack(s: string, d: nat, w: int, p': nat, k': nat)
    requires d <= |s|
    requires d == 0 || !IsDigit(s[d - 1]) || d == |s| || !IsDigit(s[d])
    requires SingleAt(s[d..], p', k') && w == Value(s[d..][p'..k'])
    ensures HasSingle(s, w)
  {
    SingleAtShift(s, d, p' + d, k' + d);
    assert SingleAt(s, p' + d, k' + d);
  }

  /** The single-number matches of `s` whose value is `w`. */
  ghost predicate HasSingle(s: string, w: int) {
    exists p: nat, k: nat :: SingleAt(s, p, k) && w == Value(s[p..k])
  }

  /** A value is found exactly when some single-number match in `s` has that value. */
  lemma {:induction false} SinglesMembers(s: string, w: int)
    ensures w in FindSingles(s) <==> HasSingle(s, w)
    decreases |s|
  {
    if s == [] {
    } else if IsDigit(s[0]) {
      var k0 := LeadingDigits(s);
      SinglesMembers(s[k0..], w);
      SinglesAfterRun(s, w);
      SinglesBeforeRun(s, w);
    } else {
      SinglesMembers(s[1..], w);
      SinglesSkipFound(s, w);
      SinglesSkipMatch(s, w);
    }
  }

  /** The first form of the run case: what is found in `s` is a match in `s`. */
  lemma SinglesAfterRun(s: string, w: int)
    requires s != [] && IsDigit(s[0])
    requires w in FindSingles(s[LeadingDigits(s)..]) ==> HasSingle(s[LeadingDigits(s)..], w)
    ensures w in FindSingles(s) ==> HasSingle(s, w)
  {
    var k0 := LeadingDigits(s);
    var rest := s[k0..];
    var head := if k0 == |s| || s[k0] != '-' then [Value(s[..k0])] else [];
    assert FindSingles(s) == head + FindSingles(rest);
    if w in head {
      assert SingleAt(s, 0, k0) && s[0..k0] == s[..k0];
    } else if w in FindSingles(rest) {
      var p': nat, k': nat :| SingleAt(rest, p', k') && w == Value(rest[p'..k']);
      SingleShiftedBack(s, k0, w, p', k');
    }
  }

  /** The second form of the run case: a match in `s` is found. */
  lemma SinglesBeforeRun(s: string, w: int)
    requires s != [] && IsDigit(s[0])
    requires HasSingle(s[LeadingDigits(s)..], w) ==> w in FindSingles(s[LeadingDigits(s)..])
    ensures HasSingle(s, w) ==> w in FindSingles(s)
  {
    var k0 := LeadingDigits(s);
    var rest := s[k0..];
    var head := if k0 == |s| || s[k0] != '-' then [Value(s[..k0])] else [];
    assert FindSingles(s) == head + FindSingles(rest);
    if HasSingle(s, w) {
      var p: nat, k: nat :| SingleAt(s, p, k) && w == Value(s[p..k]);
      if p < k0 {
        SingleStartsRun(s, p, k);
        LeadingDigitsOf(s, k);
        assert s[p..k] == s[..k0];
      } else {
        SingleAtShift(s, k0, p, k);
        assert SingleAt(rest, p - k0, k - k0);
      }
    }
  }

  /** A match that starts inside the leading run starts it and covers it. */
  lemma SingleStartsRun(s: string, p: nat, k: nat)
    requires SingleAt(s, p, k) && p < LeadingDigits(s)
    ensures p == 0
  {
    assert 0 < p ==> p - 1 < LeadingDigits(s);
  }

  lemma SingleStartsWithDigit(s: string, p: nat, k: nat)
    requires SingleAt(s, p, k)
    ensures IsDigit(s[p])
  {
    assert s[p..k][0] == s[p];
  }

  lemma SinglesSkipFound(s: string, w: int)
    requires s != [] && !IsDigit(s[0])
    requires w in FindSingles(s[1..]) ==> HasSingle(s[1..], w)
    ensures w in FindSingles(s) ==> HasSingle(s, w)
  {
    FindSinglesSkip(s);
    if w in FindSingles(s) {
      var p': nat, k': nat :| SingleAt(s[1..], p', k') && w == Value(s[1..][p'..k']);
      SingleShiftedBack(s, 1, w, p', k');
    }
  }

  lemma SinglesSkipMatch(s: string, w: int)
    requires s != [] && !IsDigit(s[0])
    requires HasSingle(s[1..], w) ==> w in FindSingles(s[1..])
    ensures HasSingle(s, w) ==> w in FindSingles(s)
  {
    if HasSingle(s, w) {
      var p: nat, k: nat :| SingleAt(s, p, k) && w == Value(s[p..k]);
      SingleSkipShift(s, p, k);
      assert HasSingle(s[1..], w);
      FindSinglesSkip(s);
    }
  }

  /** A match in `s` after a leading non-digit is a match in `s[1..]`, one place earlier. */
  lemma SingleSkipShift(s: string, p: nat, k: nat)
    requires s != [] && !IsDigit(s[0]) && SingleAt(s, p, k)
    ensures p >= 1 && SingleAt(s[1..], p - 1, k - 1) && s[p..k] == s[1..][p - 1..k - 1]
  {
    SingleStartsWithDigit(s, p, k);
    SingleAtShift(s, 1, p, k);
  }

  /** A leading non-digit contributes nothing to the matches. */
  lemma FindSinglesSkip(s: string)
    requires s != [] && !IsDigit(s[0])
    ensures FindSingles(s) == FindSingles(s[1..])
  {
  }

  /** Each range found, expanded to its weeks. */
  function RangeLists(rs: seq<(int, int)>): (ls: seq<seq<int>>)
    ensures |ls| == |rs|
    ensures forall k :: 0 <= k < |rs| ==> ls[k] == Range(rs[k].0, rs[k].1)
  {
    seq(|rs|, k requires 0 <= k < |rs| => Range(rs[k].0, rs[k].1))
  }

  /** Some range found covers `w`. */
  predicate InSomeRange(rs: seq<(int, int)>, w: int) {
    exists k :: 0 <= k < |rs| && rs[k].0 <= w <= rs[k].1
  }

  /**
   * The older `parse_weeks`: strictly ascending, empty for empty text, and
   * holding exactly the weeks some range found covers and the values of the
   * free-standing numbers.
   */
  function LegacyWeeks(text: string): (r: seq<int>)
    ensures StrictlyAscending(r)
    ensures text == [] ==> r == []
    ensures forall w :: w in r <==>
      (text != [] && (InSomeRange(FindRanges(RemoveMarkers(text)), w) || HasSingle(RemoveMarkers(text), w)))
  {
    if text == [] then []
    else
      var t := RemoveMarkers(text);
      var rs := FindRanges(t);
      var all := Flatten(RangeLists(rs)) + FindSingles(t);
      assert forall w :: w in all <==> InSomeRange(rs, w) || HasSingle(t, w) by {
        forall w ensures w in all <==> InSomeRange(rs, w) || HasSingle(t, w) {
          FlattenMembers(RangeLists(rs), w);
          SinglesMembers(t, w);
        }
      }
      SortedUnique(all)
  }

  /** A week inside a range match that `findall` reaches is parsed. */
  lemma LegacyWeeksFromRange(text: string, p: nat, i: nat, j: nat, w: int)
    requires text != [] && RangeMatchAt(RemoveMarkers(text), p, i, j) && !AfterDash(RemoveMarkers(text), p)
    requires RangePair(RemoveMarkers(text)[p..], i, j).0 <= w <= RangePair(RemoveMarkers(text)[p..], i, j).1
    ensures w in LegacyWeeks(text)
  {
    var t := RemoveMarkers(text);
    var rs := FindRanges(t);
    FindRangesComplete(t, p, i, j);
    var k :| 0 <= k < |rs| && rs[k] == RangePair(t[p..], i, j);
    assert InSomeRange(rs, w);
  }

  /**
   * Where a parsed week comes from: a free-standing number with its value,
   * or a range match in the text, starting where no digit precedes it, whose
   * two numbers enclose the week.
   */
  lemma LegacyWeeksOrigin(text: string, w: int) returns (single: bool, p: nat, i: nat, j: nat)
    requires w in LegacyWeeks(text)
    ensures single ==> HasSingle(RemoveMarkers(text), w)
    ensures !single ==> RangeMatchAt(RemoveMarkers(text), p, i, j)
    ensures !single ==> RangePair(RemoveMarkers(text)[p..], i, j).0 <= w <= RangePair(RemoveMarkers(text)[p..], i, j).1
  {
    var t := RemoveMarkers(text);
    var rs := FindRanges(t);
    single, p, i, j := true, 0, 0, 0;
    if !HasSingle(t, w) {
      var k :| 0 <= k < |rs| && rs[k].0 <= w <= rs[k].1;
      single := false;
      p, i, j := FindRangesSound(t, rs[k]);
      assert rs[k] == RangePair(t[p..], i, j);
    }
  }

  /** The `findall` passes: every range extends the list, then every free-standing number is appended. */
  method AccumulateLegacyWeeks(t: string) returns (acc: seq<int>)
    ensures acc == Flatten(RangeLists(FindRanges(t))) + FindSingles(t)
  {
    var ranges := FindRanges(t);
    ghost var ls := RangeLists(ranges);
    acc := [];
    for k := 0 to |ranges|
      invariant acc == Flatten(ls[..k])
    {
      FlattenPrefix(ls, k);
      var (start, end) := ranges[k];
      acc := acc + Range(start, end);
    }
    assert ls[..|ranges|] == ls;
    var singles := FindSingles(t);
    for k := 0 to |singles|
      invariant acc == Flatten(ls) + singles[..k]
    {
      assert singles[..k + 1] == singles[..k] + [singles[k]];
      acc := acc + [singles[k]];
    }
    assert singles[..|singles|] == singles;
  }

  /** The older `parse_weeks`: the markers removed, both passes accumulated, the list sorted and de-duplicated. */
  method LegacyParseWeeks(text: string) returns (weeks: seq<int>)
    ensures weeks == LegacyWeeks(text)
  {
    if text == [] {
      return [];
    }
    var acc := AccumulateLegacyWeeks(RemoveMarkers(text));
    weeks := SortedUnique(acc);
  }
}
