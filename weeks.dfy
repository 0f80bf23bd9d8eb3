/**
 * `parse_weeks` of the live parser: week text such as `1-11,13-14[周]`
 * becomes the ascending list of distinct week numbers it names. The odd-
 * and even-week markers are deleted and never filter anything.
 */
module WeekParser {
  import opened Text
  import opened Ordered
  import opened Wrappers

  /** One of the markers the week text may carry: `[周]`, `[单周]`, `[双周]`. */
  predicate MarkerAt(s: string, i: nat) {
    OccursAt(s, "[周]", i) || OccursAt(s, "[单周]", i) || OccursAt(s, "[双周]", i)
  }

  /** Every member of a suffix is a member of the whole. */
  lemma SuffixMembers(s: string, n: nat)
    requires n <= |s|
    ensures forall c :: c in s[n..] ==> c in s
  {
    forall c | c in s[n..] ensures c in s {
      var j :| 0 <= j < |s[n..]| && s[n..][j] == c;
      assert s[n + j] == c;
    }
  }

  /**
   * Deleting every marker, scanning left to right without re-scanning what is
   * left: the text with its markers cut out, and unchanged when it holds no `[`.
   */
  function RemoveMarkers(s: string): (r: string)
    ensures |r| <= |s|
    ensures forall c :: c in r ==> c in s
    ensures '[' !in s ==> r == s
  {
    if s == [] then []
    else if OccursAt(s, "[周]", 0) then
      SuffixMembers(s, 3);
      assert s[..3][0] == s[0] == '[';
      RemoveMarkers(s[3..])
    else if OccursAt(s, "[单周]", 0) || OccursAt(s, "[双周]", 0) then
      SuffixMembers(s, 4);
      assert s[..4][0] == s[0] == '[';
      RemoveMarkers(s[4..])
    else
      SuffixMembers(s, 1);
      assert '[' !in s ==> '[' !in s[1..];
      assert s == [s[0]] + s[1..];
      [s[0]] + RemoveMarkers(s[1..])
  }

  lemma WeekMarkerRemoved()
    ensures RemoveMarkers("[周]") == []
  {
    assert OccursAt("[周]", "[周]", 0);
    assert "[周]"[3..] == [];
  }

  lemma OddMarkerRemoved()
    ensures RemoveMarkers("[单周]") == []
  {
    assert !OccursAt("[单周]", "[周]", 0) by { assert "[单周]"[1] != "[周]"[1]; }
    assert OccursAt("[单周]", "[单周]", 0);
    assert "[单周]"[4..] == [];
  }

  lemma EvenMarkerRemoved()
    ensures RemoveMarkers("[双周]") == []
  {
    assert !OccursAt("[双周]", "[周]", 0) by { assert "[双周]"[1] != "[周]"[1]; }
    assert OccursAt("[双周]", "[双周]", 0);
    assert "[双周]"[4..] == [];
  }

  /** A leading `[周]` is cut. */
  lemma RemoveMarkersWeek(s: string)
    requires OccursAt(s, "[周]", 0)
    ensures RemoveMarkers(s) == RemoveMarkers(s[3..])
  {
  }

  /** A leading `[单周]` or `[双周]` is cut. */
  lemma RemoveMarkersParity(s: string)
    requires !OccursAt(s, "[周]", 0) && (OccursAt(s, "[单周]", 0) || OccursAt(s, "[双周]", 0))
    ensures RemoveMarkers(s) == RemoveMarkers(s[4..])
  {
  }

  /** A character that starts no marker is kept. */
  lemma RemoveMarkersPlain(s: string)
    requires s != [] && !MarkerAt(s, 0)
    ensures RemoveMarkers(s) == [s[0]] + RemoveMarkers(s[1..])
  {
  }

  predicate IsMarker(m: string) {
    m == "[周]" || m == "[单周]" || m == "[双周]"
  }

  /** The step past a leading `[周]` of `t`. */
  lemma TrailingAfterWeek(t: string, m: string)
    requires IsMarker(m) && OccursAt(t, "[周]", 0)
    requires RemoveMarkers(t[3..] + m) == RemoveMarkers(t[3..])
    ensures RemoveMarkers(t + m) == RemoveMarkers(t)
  {
    assert RemoveMarkers(t + m) == RemoveMarkers(t[3..] + m) by {
      assert OccursAt(t + m, "[周]", 0) by { assert (t + m)[..3] == t[..3]; }
      assert (t + m)[3..] == t[3..] + m;
      RemoveMarkersWeek(t + m);
    }
    RemoveMarkersWeek(t);
  }

  /** The step past a leading `[单周]` or `[双周]` of `t`. */
  lemma TrailingAfterParity(t: string, m: string)
    requires IsMarker(m) && !OccursAt(t, "[周]", 0) && (OccursAt(t, "[单周]", 0) || OccursAt(t, "[双周]", 0))
    requires RemoveMarkers(t[4..] + m) == RemoveMarkers(t[4..])
    ensures RemoveMarkers(t + m) == RemoveMarkers(t)
  {
    assert RemoveMarkers(t + m) == RemoveMarkers(t[4..] + m) by {
      assert !OccursAt(t + m, "[周]", 0) && (OccursAt(t + m, "[单周]", 0) || OccursAt(t + m, "[双周]", 0)) by {
        assert (t + m)[..3] == t[..3];
        assert (t + m)[..4] == t[..4];
      }
      assert (t + m)[4..] == t[4..] + m;
      RemoveMarkersParity(t + m);
    }
    RemoveMarkersParity(t);
  }

  /** The step past a leading character of `t` that starts no marker. */
  lemma TrailingAfterPlain(t: string, m: string)
    requires IsMarker(m) && t != [] && !MarkerAt(t, 0)
    requires RemoveMarkers(t[1..] + m) == RemoveMarkers(t[1..])
    ensures RemoveMarkers(t + m) == RemoveMarkers(t)
  {
    assert RemoveMarkers(t + m) == [t[0]] + RemoveMarkers(t[1..] + m) by {
      assert !MarkerAt(t + m, 0) by { NoMarkerAcross(t, m); }
      assert (t + m)[1..] == t[1..] + m;
      assert (t + m)[0] == t[0];
      RemoveMarkersPlain(t + m);
    }
    RemoveMarkersPlain(t);
  }

  /** A marker is deleted wherever it stands at the end. */
  lemma {:induction false} RemoveTrailingMarker(t: string, m: string)
    requires IsMarker(m)
    ensures RemoveMarkers(t + m) == RemoveMarkers(t)
    decreases |t|
  {
    if t == [] {
      assert t + m == m;
      WeekMarkerRemoved();
      OddMarkerRemoved();
      EvenMarkerRemoved();
    } else if OccursAt(t, "[周]", 0) {
      RemoveTrailingMarker(t[3..], m);
      TrailingAfterWeek(t, m);
    } else if OccursAt(t, "[单周]", 0) || OccursAt(t, "[双周]", 0) {
      RemoveTrailingMarker(t[4..], m);
      TrailingAfterParity(t, m);
    } else {
      RemoveTrailingMarker(t[1..], m);
      TrailingAfterPlain(t, m);
    }
  }

  /** A marker cannot start inside `t` and end inside an appended marker: markers hold one `[`, at their start. */
  lemma NoMarkerAcross(t: string, m: string)
    requires t != [] && !MarkerAt(t, 0)
    requires IsMarker(m)
    ensures !MarkerAt(t + m, 0)
  {
    var s := t + m;
    assert s[|t|] == '[';
    assert |t| >= 3 ==> s[..3] == t[..3];
    assert |t| >= 4 ==> s[..4] == t[..4];
    assert forall k :: 1 <= k < 4 ==> "[单周]"[k] != '[' && "[双周]"[k] != '[';
    assert forall k :: 1 <= k < 3 ==> "[周]"[k] != '[';
  }

  /**
   * `re.match(r'(\d+)-(\d+)', q)`: `q` starts with a digit run that ends at
   * `i`, a dash, and a second digit run that ends at `j`; both runs are as
   * long as possible, as greedy matching takes them.
   */
  predicate RangeAt(q: string, i: nat, j: nat) {
    1 <= i && i + 1 < j <= |q| && AllDigits(q[..i]) && q[i] == '-' && AllDigits(q[i + 1..j])
    && (j == |q| || !IsDigit(q[j]))
  }

  /** `re.match(r'(\d+)', q)`: `q` starts with a digit run that ends at `i`. */
  predicate NumberAt(q: string, i: nat) {
    1 <= i <= |q| && AllDigits(q[..i]) && (i == |q| || !IsDigit(q[i]))
  }

  /** A range match starts with the whole leading digit run, followed by a dash and a digit. */
  lemma RangeAtShape(q: string, i: nat, j: nat)
    requires RangeAt(q, i, j)
    ensures LeadingDigits(q) == i && q[i] == '-' && IsDigit(q[i + 1])
    ensures LeadingDigits(q[i + 1..]) == j - i - 1
  {
    LeadingDigitsOf(q, i);
    assert q[i + 1..j][0] == q[i + 1];
    assert q[i + 1..][..j - i - 1] == q[i + 1..j];
    LeadingDigitsOf(q[i + 1..], j - i - 1);
  }

  /** When the leading digits are followed by a dash and a digit, the range match is there. */
  lemma LeadingRange(q: string, i: nat, j: nat)
    requires i == LeadingDigits(q) && 1 <= i && i + 1 < |q| && q[i] == '-' && IsDigit(q[i + 1])
    requires j == i + 1 + LeadingDigits(q[i + 1..])
    ensures RangeAt(q, i, j)
  {
    var t := q[i + 1..];
    var m := j - i - 1;
    LeadingDigitsRun(q);
    LeadingDigitsRun(t);
    assert q[i + 1..j] == t[..m];
    if j < |q| {
      assert q[j] == t[m];
    }
  }

  /** `re.match(r'(\d+)-(\d+)', q)`: the two numbers of the range at the start of `q`, if there is one. */
  function MatchRange(q: string): (r: Option<(int, int)>)
    ensures r.Some? <==> exists i: nat, j: nat :: RangeAt(q, i, j)
    ensures forall i: nat, j: nat :: RangeAt(q, i, j) ==> r == Some((Value(q[..i]), Value(q[i + 1..j])))
  {
    var i := LeadingDigits(q);
    if 1 <= i && i + 1 < |q| && q[i] == '-' && IsDigit(q[i + 1]) then
      var j := i + 1 + LeadingDigits(q[i + 1..]);
      LeadingRange(q, i, j);
      assert forall i2: nat, j2: nat :: RangeAt(q, i2, j2) ==> i2 == i && j2 == j by {
        forall i2: nat, j2: nat | RangeAt(q, i2, j2) ensures i2 == i && j2 == j {
          RangeAtShape(q, i2, j2);
        }
      }
      Some((Value(q[..i]), Value(q[i + 1..j])))
    else
      assert forall i2: nat, j2: nat :: !RangeAt(q, i2, j2) by {
        forall i2: nat, j2: nat | RangeAt(q, i2, j2) ensures false {
          RangeAtShape(q, i2, j2);
        }
      }
      None
  }

  /** `re.match(r'(\d+)', q)`: the number at the start of `q`, if there is one. */
  function MatchNumber(q: string): (r: Option<int>)
    ensures r.Some? <==> exists i: nat :: NumberAt(q, i)
    ensures forall i: nat :: NumberAt(q, i) ==> r == Some(Value(q[..i]))
  {
    var i := LeadingDigits(q);
    assert forall i2: nat :: NumberAt(q, i2) ==> i2 == i by {
      forall i2: nat | NumberAt(q, i2) ensures i2 == i { LeadingDigitsOf(q, i2); }
    }
    if i >= 1 then
      assert NumberAt(q, i);
      Some(Value(q[..i]))
    else None
  }

  /** What one comma-separated part contributes, before de-duplication. */
  function PartWeeks(part: string): seq<int> {
    Contribution(Strip(part))
  }

  /** The contribution of a part once it is stripped: a range when it holds a dash, else one number. */
  function Contribution(q: string): seq<int> {
    if '-' in q then
      match MatchRange(q)
      case Some((lo, hi)) => Range(lo, hi)
      case None => []
    else
      match MatchNumber(q)
      case Some(n) => [n]
      case None => []
  }

  /** A part with a dash that starts `a-b` contributes exactly the weeks `a..b`, none when `a > b`. */
  lemma ContributionRange(q: string, i: nat, j: nat)
    requires '-' in q && RangeAt(q, i, j)
    ensures forall w :: w in Contribution(q) <==> Value(q[..i]) <= w <= Value(q[i + 1..j])
  {
  }

  /** A part with a dash that does not start `a-b` contributes nothing. */
  lemma ContributionNoRange(q: string)
    requires '-' in q && forall i: nat, j: nat :: !RangeAt(q, i, j)
    ensures Contribution(q) == []
  {
  }

  /** A part without a dash that starts with digits contributes that one number. */
  lemma ContributionNumber(q: string, i: nat)
    requires '-' !in q && NumberAt(q, i)
    ensures Contribution(q) == [Value(q[..i])]
  {
  }

  /** A part without a dash that does not start with a digit contributes nothing. */
  lemma ContributionNoNumber(q: string)
    requires '-' !in q && forall i: nat :: !NumberAt(q, i)
    ensures Contribution(q) == []
  {
  }

  /** What each part contributes, in order. */
  function Contributions(parts: seq<string>): (cs: seq<seq<int>>)
    ensures |cs| == |parts|
    ensures forall k :: 0 <= k < |parts| ==> cs[k] == PartWeeks(parts[k])
  {
    seq(|parts|, k requires 0 <= k < |parts| => PartWeeks(parts[k]))
  }

  /** The comma-separated parts of the week text once its markers are gone. */
  function Parts(text: string): seq<string> {
    Split(RemoveMarkers(text), ',')
  }

  /**
   * `parse_weeks`: strictly ascending, empty for empty text, and holding
   * exactly the weeks some comma-separated part contributes.
   */
  function Weeks(text: string): (r: seq<int>)
    ensures StrictlyAscending(r)
    ensures text == [] ==> r == []
    ensures forall w :: w in r <==> text != [] && exists k :: 0 <= k < |Parts(text)| && w in PartWeeks(Parts(text)[k])
  {
    if text == [] then []
    else
      var cs := Contributions(Parts(text));
      assert forall w :: w in Flatten(cs) <==> exists k :: 0 <= k < |cs| && w in cs[k] by {
        forall w ensures w in Flatten(cs) <==> exists k :: 0 <= k < |cs| && w in cs[k] {
          FlattenMembers(cs, w);
        }
      }
      SortedUnique(Flatten(cs))
  }

  /** The loop of `parse_weeks`: each stripped part extends the list by its range or appends its number. */
  method AccumulateWeeks(parts: seq<string>) returns (acc: seq<int>)
    ensures acc == Flatten(Contributions(parts))
  {
    ghost var cs := Contributions(parts);
    acc := [];
    for k := 0 to |parts|
      invariant acc == Flatten(cs[..k])
    {
      var c := PartContribution(parts[k]);
      FlattenPrefix(cs, k);
      acc := acc + c;
    }
    assert cs[..|parts|] == cs;
  }

  /** One pass of the loop of `parse_weeks`: the weeks one part adds. */
  method PartContribution(p: string) returns (c: seq<int>)
    ensures c == PartWeeks(p)
  {
    c := [];
    var part := Strip(p);
    if '-' in part {
      var m := MatchRange(part);
      if m.Some? {
        c := Range(m.value.0, m.value.1);
      }
    } else {
      var m := MatchNumber(part);
      if m.Some? {
        c := [m.value];
      }
    }
  }

  /** `parse_weeks`: the markers removed, the parts accumulated, the list sorted and de-duplicated. */
  method ParseWeeks(text: string) returns (weeks: seq<int>)
    ensures weeks == Weeks(text)
  {
    if text == [] {
      return [];
    }
    var parts := Split(RemoveMarkers(text), ',');
    var acc := AccumulateWeeks(parts);
    weeks := SortedUnique(acc);
  }
}
