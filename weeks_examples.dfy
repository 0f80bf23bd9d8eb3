/** Week texts worked through the live week parser. */
module WeeksExamples {
  import opened Text
  import opened Ordered
  import opened WeekParser

  lemma ValueOne()
    ensures Value("1") == 1
  {
    assert "1"[..0] == [];
  }

  lemma ValueSmall(d: string, v: int, c: char)
    requires AllDigits(d) && IsDigit(c) && Value(d) == v
    ensures AllDigits(d + [c]) && Value(d + [c]) == 10 * v + ((c as int) - ('0' as int))
  {
    assert (d + [c])[..|d|] == d;
  }

  lemma Value11()
    ensures Value("11") == 11
  {
    ValueOne();
    ValueSmall("1", 1, '1');
    assert "1" + ['1'] == "11";
  }

  lemma Value13()
    ensures Value("13") == 13
  {
    ValueOne();
    ValueSmall("1", 1, '3');
    assert "1" + ['3'] == "13";
  }

  lemma Value14()
    ensures Value("14") == 14
  {
    ValueOne();
    ValueSmall("1", 1, '4');
    assert "1" + ['4'] == "14";
  }

  lemma Value3()
    ensures Value("3") == 3
  {
    assert "3"[..0] == [];
  }

  lemma Value4()
    ensures Value("4") == 4
  {
    assert "4"[..0] == [];
  }

  /** A part that is already stripped and starts with the range `lo-hi` contributes `Range(lo, hi)`. */
  lemma PartWeeksVia(part: string, i: nat, j: nat, lo: int, hi: int)
    requires NoSpaceAtEnds(part) && '-' in part && RangeAt(part, i, j)
    requires Value(part[..i]) == lo && Value(part[i + 1..j]) == hi
    ensures PartWeeks(part) == Range(lo, hi)
  {
    StripNoop(part);
  }

  lemma PartOneToEleven()
    ensures PartWeeks("1-11") == Range(1, 11)
  {
    var p := "1-11";
    assert p[..1] == "1" && p[2..4] == "11";
    assert p[1] == '-';
    ValueOne();
    Value11();
    PartWeeksVia(p, 1, 4, 1, 11);
  }

  lemma PartThirteenToFourteen()
    ensures PartWeeks("13-14") == Range(13, 14)
  {
    var p := "13-14";
    assert p[..2] == "13" && p[3..5] == "14";
    assert p[2] == '-';
    Value13();
    Value14();
    PartWeeksVia(p, 2, 5, 13, 14);
  }

  lemma MarkersOfFirst()
    ensures RemoveMarkers("1-11,13-14[周]") == "1-11,13-14"
  {
    assert "1-11,13-14[周]" == "1-11,13-14" + "[周]";
    RemoveTrailingMarker("1-11,13-14", "[周]");
  }

  lemma SplitOfFirst()
    ensures Split("1-11,13-14", ',') == ["1-11", "13-14"]
  {
    var s := "1-11,13-14";
    IndexOfFirst(s, ',', 4);
    assert s[..4] == "1-11";
    assert s[5..] == "13-14";
    assert ',' !in "13-14";
  }

  lemma PartsOfFirst()
    ensures Parts("1-11,13-14[周]") == ["1-11", "13-14"]
  {
    MarkersOfFirst();
    SplitOfFirst();
  }

  lemma FlattenTwo(a: seq<int>, b: seq<int>)
    ensures Flatten([a, b]) == a + b
  {
    assert [a, b][..1] == [a];
    FlattenOne(a);
  }

  /** The week list of a text is fixed by its parts and what they contribute. */
  lemma WeeksVia(text: string, parts: seq<string>, cs: seq<seq<int>>)
    requires text != [] && Parts(text) == parts && Contributions(parts) == cs
    ensures Weeks(text) == SortedUnique(Flatten(cs))
  {
  }

  lemma ContributionsTwo(p1: string, p2: string, c1: seq<int>, c2: seq<int>)
    requires PartWeeks(p1) == c1 && PartWeeks(p2) == c2
    ensures Contributions([p1, p2]) == [c1, c2]
  {
    var cs := Contributions([p1, p2]);
    PairOf(cs, c1, c2);
  }

  /** A sequence of two elements is the display of those two elements. */
  lemma PairOf(cs: seq<seq<int>>, a: seq<int>, b: seq<int>)
    requires |cs| == 2 && cs[0] == a && cs[1] == b
    ensures cs == [a, b]
  {
  }

  lemma ContributionsOne(p1: string, c1: seq<int>)
    requires PartWeeks(p1) == c1
    ensures Contributions([p1]) == [c1]
  {
  }

  /** A text with two ranges and a marker: weeks 1 to 11, 13 and 14. */
  lemma WeeksExampleTwoRanges()
    ensures Weeks("1-11,13-14[周]") == Range(1, 11) + Range(13, 14)
  {
    PartsOfFirst();
    PartOneToEleven();
    PartThirteenToFourteen();
    ContributionsTwo("1-11", "13-14", Range(1, 11), Range(13, 14));
    WeeksVia("1-11,13-14[周]", ["1-11", "13-14"], [Range(1, 11), Range(13, 14)]);
    FlattenTwo(Range(1, 11), Range(13, 14));
    RangesAscending(1, 11, 13, 14);
    SortedUniqueNoop(Range(1, 11) + Range(13, 14));
  }

  lemma PartOneToFour()
    ensures PartWeeks("1-4") == Range(1, 4)
  {
    var p := "1-4";
    assert p[..1] == "1" && p[2..3] == "4";
    assert p[1] == '-';
    ValueOne();
    Value4();
    PartWeeksVia(p, 1, 3, 1, 4);
  }

  lemma RangeOneToFour()
    ensures Range(1, 4) == [1, 2, 3, 4]
  {
  }

  lemma PartsOfEven()
    ensures Parts("1-4[双周]") == ["1-4"]
  {
    assert "1-4[双周]" == "1-4" + "[双周]";
    RemoveTrailingMarker("1-4", "[双周]");
    assert ',' !in "1-4";
  }

  lemma FlattenOne(a: seq<int>)
    ensures Flatten([a]) == a
  {
    assert [a][..0] == [];
  }

  lemma WeeksOfEven()
    ensures Weeks("1-4[双周]") == Range(1, 4)
  {
    PartsOfEven();
    PartOneToFour();
    ContributionsOne("1-4", Range(1, 4));
    WeeksVia("1-4[双周]", ["1-4"], [Range(1, 4)]);
    FlattenOne(Range(1, 4));
    RangeAscending(1, 4);
    SortedUniqueNoop(Range(1, 4));
  }

  /** The even-week marker filters nothing: `1-4[双周]` gives weeks 1 to 4, odd ones included. */
  lemma WeeksExampleEvenMarker()
    ensures Weeks("1-4[双周]") == [1, 2, 3, 4]
  {
    WeeksOfEven();
    RangeOneToFour();
  }

  lemma PartThreeToOne()
    ensures PartWeeks("3-1") == []
  {
    var p := "3-1";
    assert p[..1] == "3" && p[2..3] == "1";
    assert p[1] == '-';
    Value3();
    ValueOne();
    PartWeeksVia(p, 1, 3, 3, 1);
  }

  lemma PartsOfDescending()
    ensures Parts("3-1") == ["3-1"]
  {
    assert ',' !in "3-1";
  }

  /** A descending range names no week. */
  lemma WeeksExampleDescending()
    ensures Weeks("3-1") == []
  {
    PartsOfDescending();
    PartThreeToOne();
    ContributionsOne("3-1", []);
    WeeksVia("3-1", ["3-1"], [[]]);
    FlattenOne([]);
  }
}
