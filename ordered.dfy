/** `sorted(list(set(xs)))` on integers: the distinct values in ascending order. */
module Ordered {

  predicate StrictlyAscending(s: seq<int>) {
    forall i, j :: 0 <= i < j < |s| ==> s[i] < s[j]
  }

  /** `list(range(lo, hi + 1))`: the integers from `lo` to `hi`, empty when `lo > hi`. */
  function Range(lo: int, hi: int): (r: seq<int>)
    ensures |r| == if lo <= hi then hi - lo + 1 else 0
    ensures forall i :: 0 <= i < |r| ==> r[i] == lo + i
    ensures forall x :: x in r <==> lo <= x <= hi
    decreases hi - lo
  {
    if lo > hi then []
    else
      var rest := Range(lo + 1, hi);
      assert forall x :: x in [lo] + rest <==> lo <= x <= hi by {
        forall x ensures x in [lo] + rest <==> lo <= x <= hi {
          if lo < x <= hi { assert rest[x - lo - 1] == x; }
        }
      }
      [lo] + rest
  }

  lemma RangeAscending(a: int, b: int)
    ensures StrictlyAscending(Range(a, b))
  {
  }

  /** Two ranges, the first ending before the second starts, make an ascending list. */
  lemma RangesAscending(a: int, b: int, c: int, d: int)
    requires b < c
    ensures StrictlyAscending(Range(a, b) + Range(c, d))
  {
    var r := Range(a, b) + Range(c, d);
    forall i, j | 0 <= i < j < |r| ensures r[i] < r[j] {
      var n := |Range(a, b)|;
      if j < n {
      } else if i < n {
        assert r[i] == a + i && r[i] <= b;
        assert r[j] == c + (j - n);
      } else {
        assert r[i] == c + (i - n) && r[j] == c + (j - n);
      }
    }
  }

  /** An ascending list with `x` added, if it is not there yet. */
  function Insert(x: int, s: seq<int>): (r: seq<int>)
    requires StrictlyAscending(s)
    ensures StrictlyAscending(r)
    ensures forall y :: y in r <==> y == x || y in s
  {
    if s == [] then [x]
    else if x < s[0] then [x] + s
    else if x == s[0] then s
    else
      var rest := Insert(x, s[1..]);
      assert forall y :: y in s <==> y == s[0] || y in s[1..] by {
        assert s == [s[0]] + s[1..];
      }
      assert forall k :: 0 <= k < |rest| ==> rest[k] in rest;
      [s[0]] + rest
  }

  /** The distinct values of `xs`, ascending. */
  function SortedUnique(xs: seq<int>): (r: seq<int>)
    ensures StrictlyAscending(r)
    ensures forall y :: y in r <==> y in xs
  {
    if xs == [] then []
    else
      var init := xs[..|xs| - 1];
      assert xs == init + [xs[|xs| - 1]];
      Insert(xs[|xs| - 1], SortedUnique(init))
  }

  /** The head of an ascending list is its least member. */
  lemma AscendingMin(s: seq<int>, y: int)
    requires StrictlyAscending(s) && y in s
    ensures s[0] <= y
  {
    var k :| 0 <= k < |s| && s[k] == y;
    assert k == 0 || s[0] < s[k];
  }

  /** The tail of an ascending list holds every member but the head. */
  lemma AscendingTail(s: seq<int>, y: int)
    requires StrictlyAscending(s) && s != []
    ensures StrictlyAscending(s[1..])
    ensures y in s[1..] <==> y in s && y != s[0]
  {
    assert s == [s[0]] + s[1..];
    if y in s[1..] {
      var k :| 0 <= k < |s| - 1 && s[1..][k] == y;
      assert s[k + 1] == y;
    }
  }

  /** Two ascending lists with the same members are equal: the ascending form of a set is unique. */
  lemma {:induction false} AscendingUnique(a: seq<int>, b: seq<int>)
    requires StrictlyAscending(a) && StrictlyAscending(b)
    requires forall y :: y in a <==> y in b
    ensures a == b
    decreases |a|
  {
    if a != [] { assert a[0] in a && a[0] in b; }
    if b != [] { assert b[0] in b && b[0] in a; }
    if a != [] && b != [] {
      AscendingMin(a, b[0]);
      AscendingMin(b, a[0]);
      forall y ensures y in a[1..] <==> y in b[1..] {
        AscendingTail(a, y);
        AscendingTail(b, y);
      }
      AscendingTail(a, a[0]);
      AscendingTail(b, b[0]);
      AscendingUnique(a[1..], b[1..]);
      assert a == [a[0]] + a[1..];
      assert b == [b[0]] + b[1..];
    }
  }

  /** The result of `SortedUnique` is determined by the set of values it is given. */
  lemma SortedUniqueOfSameSet(xs: seq<int>, ys: seq<int>)
    requires forall y :: y in xs <==> y in ys
    ensures SortedUnique(xs) == SortedUnique(ys)
  {
    AscendingUnique(SortedUnique(xs), SortedUnique(ys));
  }

  /** An ascending list is its own `SortedUnique`. */
  lemma SortedUniqueNoop(xs: seq<int>)
    requires StrictlyAscending(xs)
    ensures SortedUnique(xs) == xs
  {
    AscendingUnique(SortedUnique(xs), xs);
  }

  /** The lists of `cs` one after the other. */
  function Flatten(cs: seq<seq<int>>): seq<int> {
    if cs == [] then [] else Flatten(cs[..|cs| - 1]) + cs[|cs| - 1]
  }

  /** Flattening one list more appends that list. */
  lemma FlattenPrefix(cs: seq<seq<int>>, k: nat)
    requires k < |cs|
    ensures Flatten(cs[..k + 1]) == Flatten(cs[..k]) + cs[k]
  {
    assert cs[..k + 1][..k] == cs[..k];
  }

  /** A value is in the flattened list exactly when it is in one of the lists. */
  lemma {:induction false} FlattenMembers(cs: seq<seq<int>>, w: int)
    ensures w in Flatten(cs) <==> exists k :: 0 <= k < |cs| && w in cs[k]
  {
    if cs != [] {
      var init := cs[..|cs| - 1];
      FlattenMembers(init, w);
      assert forall k :: 0 <= k < |init| ==> init[k] == cs[k];
    }
  }
}
