/** Week texts worked through the older week parser, side by side with the live one. */
module LegacyWeeksExamples {
  import opened Text
  import opened Ordered
  import opened WeekParser
  import opened LegacyWeekParser
  import opened WeeksExamples

  lemma LegacyWeeksVia(text: string, t: string, rs: seq<(int, int)>, singles: seq<int>)
    requires text != [] && RemoveMarkers(text) == t && FindRanges(t) == rs && FindSingles(t) == singles
    ensures LegacyWeeks(text) == SortedUnique(Flatten(RangeLists(rs)) + singles)
  {
  }

  /** A range at the front is taken whole and the scan resumes after it. */
  lemma FindRangesVia(s: string, i: nat, j: nat, lo: int, hi: int)
    requires RangeAt(s, i, j) && Value(s[..i]) == lo && Value(s[i + 1..j]) == hi
    ensures FindRanges(s) == [(lo, hi)] + FindRanges(s[j..])
  {
    RangeEndAt(s, i, j);
  }

  /** A digit run at the front is taken whole; it counts when no dash follows. */
  lemma FindSinglesVia(s: string, k: nat)
    requires NumberAt(s, k)
    ensures FindSingles(s) == (if k == |s| || s[k] != '-' then [Value(s[..k])] else []) + FindSingles(s[k..])
  {
    LeadingDigitsOf(s, k);
  }

  lemma DescendingRanges()
    ensures FindRanges("3-1") == [(3, 1)]
  {
    assert "3-1"[..1] == "3" && "3-1"[2..3] == "1" && "3-1"[3..] == [];
    Value3();
    ValueOne();
    FindRangesVia("3-1", 1, 3, 3, 1);
  }

  lemma DescendingSingles()
    ensures FindSingles("3-1") == [1]
  {
    assert "3-1"[..1] == "3" && "3-1"[1..] == "-1";
    FindSinglesVia("3-1", 1);
    assert "-1"[1..] == "1";
    assert "1"[..1] == "1" && "1"[1..] == [];
    FindSinglesVia("1", 1);
    ValueOne();
  }

  lemma DescendingAccumulated()
    ensures Flatten(RangeLists([(3, 1)])) + [1] == [1]
  {
    assert RangeLists([(3, 1)]) == [[]];
    FlattenOne([]);
  }

  /** The older parser keeps the second number of a descending range: `3-1` gives week 1. */
  lemma LegacyWeeksExampleDescending()
    ensures LegacyWeeks("3-1") == [1]
  {
    DescendingRanges();
    DescendingSingles();
    LegacyWeeksVia("3-1", "3-1", [(3, 1)], [1]);
    DescendingAccumulated();
    SortedUniqueNoop([1]);
  }

  /** On `3-1` the two parsers disagree: the live one gives no week, the older one week 1. */
  lemma ParsersDisagreeOnDescendingRange()
    ensures Weeks("3-1") == [] && LegacyWeeks("3-1") == [1]
  {
    WeeksExampleDescending();
    LegacyWeeksExampleDescending();
  }

  lemma FirstRangeFound()
    ensures FindRanges("1-11,13-14") == [(1, 11)] + FindRanges(",13-14")
  {
    var s := "1-11,13-14";
    assert s[..1] == "1";
    assert s[2..4] == "11";
    assert s[4..] == ",13-14";
    assert s[1] == '-';
    ValueOne();
    Value11();
    FindRangesVia(s, 1, 4, 1, 11);
  }

  lemma CommaSkipped()
    ensures FindRanges(",13-14") == FindRanges("13-14")
    ensures FindSingles(",13-14") == FindSingles("13-14")
  {
    assert ",13-14"[1..] == "13-14";
  }

  lemma SecondRangeFound()
    ensures FindRanges("13-14") == [(13, 14)]
  {
    var t := "13-14";
    assert t[..2] == "13" && t[3..5] == "14" && t[5..] == [];
    assert t[2] == '-';
    Value13();
    Value14();
    FindRangesVia(t, 2, 5, 13, 14);
  }

  lemma TwoRangesFound()
    ensures FindRanges("1-11,13-14") == [(1, 11), (13, 14)]
  {
    FirstRangeFound();
    CommaSkipped();
    SecondRangeFound();
  }

  lemma TwoRangesSinglesTail()
    ensures FindSingles("13-14") == [14]
  {
    assert "13-14"[..2] == "13" && "13-14"[2..] == "-14";
    FindSinglesVia("13-14", 2);
    assert "-14"[1..] == "14";
    assert "14"[..2] == "14" && "14"[2..] == [];
    FindSinglesVia("14", 2);
    Value14();
  }

  lemma TwoRangesSinglesHead()
    ensures FindSingles("1-11,13-14") == FindSingles("11,13-14")
  {
    var s := "1-11,13-14";
    assert s[..1] == "1" && s[1..] == "-11,13-14";
    FindSinglesVia(s, 1);
    assert "-11,13-14"[1..] == "11,13-14";
  }

  lemma TwoRangesSinglesMiddle()
    ensures FindSingles("11,13-14") == [11] + FindSingles(",13-14")
  {
    var t := "11,13-14";
    assert t[..2] == "11" && t[2..] == ",13-14";
    FindSinglesVia(t, 2);
    Value11();
  }

  lemma TwoRangesSingles()
    ensures FindSingles("1-11,13-14") == [11, 14]
  {
    TwoRangesSinglesHead();
    TwoRangesSinglesMiddle();
    CommaSkipped();
    TwoRangesSinglesTail();
  }

  lemma TwoRangesAccumulated()
    ensures Flatten(RangeLists([(1, 11), (13, 14)])) == Range(1, 11) + Range(13, 14)
  {
    assert RangeLists([(1, 11), (13, 14)]) == [Range(1, 11), Range(13, 14)];
    FlattenTwo(Range(1, 11), Range(13, 14));
  }

  lemma TwoRangesSameSet()
    ensures forall y :: y in Range(1, 11) + Range(13, 14) + [11, 14] <==> y in Range(1, 11) + Range(13, 14)
  {
  }

  /** On `1-11,13-14[周]` the older parser agrees with the live one: weeks 1 to 11, 13 and 14. */
  lemma LegacyWeeksExampleTwoRanges()
    ensures LegacyWeeks("1-11,13-14[周]") == Range(1, 11) + Range(13, 14)
    ensures LegacyWeeks("1-11,13-14[周]") == Weeks("1-11,13-14[周]")
  {
    MarkersOfFirst();
    TwoRangesFound();
    TwoRangesSingles();
    LegacyWeeksVia("1-11,13-14[周]", "1-11,13-14", [(1, 11), (13, 14)], [11, 14]);
    TwoRangesAccumulated();
    TwoRangesSameSet();
    SortedUniqueOfSameSet(Range(1, 11) + Range(13, 14) + [11, 14], Range(1, 11) + Range(13, 14));
    RangesAscending(1, 11, 13, 14);
    SortedUniqueNoop(Range(1, 11) + Range(13, 14));
    WeeksExampleTwoRanges();
  }
}
