/**
 * Character classes and the string primitives the parsers use:
 * Python's `str.strip()`, `str.split(sep)`, the `in` substring test,
 * and reading a run of decimal digits with `int()`.
 */
module Text {

  /** The whitespace that `str.strip()` and the regex class `\s` remove or match. */
  predicate IsSpace(c: char) {
    c == ' ' || c == '\t' || c == '\n' || c == '\r' || c == '\U{000B}' || c == '\U{000C}'
    || ('\U{001C}' <= c <= '\U{001F}') || c == '\U{00A0}' || c == '\U{3000}'
  }

  /** The regex class `\d`, restricted to ASCII digits. */
  predicate IsDigit(c: char) {
    '0' <= c <= '9'
  }

  /** The regex class `[A-Z]`. */
  predicate IsUpper(c: char) {
    'A' <= c <= 'Z'
  }

  predicate AllDigits(s: string) {
    forall i :: 0 <= i < |s| ==> IsDigit(s[i])
  }

  predicate NoSpaceAtEnds(s: string) {
    s == [] || (!IsSpace(s[0]) && !IsSpace(s[|s| - 1]))
  }

  /** `s.lstrip()`: the longest suffix of `s` that does not start with whitespace. */
  function TrimLeft(s: string): (r: string)
    ensures |r| <= |s| && r == s[|s| - |r|..]
    ensures forall i :: 0 <= i < |s| - |r| ==> IsSpace(s[i])
    ensures r == [] || !IsSpace(r[0])
  {
    if s != [] && IsSpace(s[0]) then TrimLeft(s[1..]) else s
  }

  /** `s.rstrip()`: the longest prefix of `s` that does not end with whitespace. */
  function TrimRight(s: string): (r: string)
    ensures |r| <= |s| && r == s[..|r|]
    ensures forall i :: |r| <= i < |s| ==> IsSpace(s[i])
    ensures r == [] || !IsSpace(r[|r| - 1])
  {
    if s != [] && IsSpace(s[|s| - 1]) then TrimRight(s[..|s| - 1]) else s
  }

  /** `s.strip()`. */
  function Strip(s: string): (r: string)
    ensures NoSpaceAtEnds(r)
    ensures |r| <= |s|
    ensures r == [] <==> forall i :: 0 <= i < |s| ==> IsSpace(s[i])
  {
    TrimRight(TrimLeft(s))
  }

  /** Stripping a string that has no whitespace at either end changes nothing, so `Strip` is idempotent. */
  lemma StripNoop(s: string)
    requires NoSpaceAtEnds(s)
    ensures Strip(s) == s
  {
  }

  /** `StripNoop` for a string whose two end characters are named. */
  lemma StripNoopVia(s: string, first: char, last: char)
    requires s != [] && s[0] == first && s[|s| - 1] == last && !IsSpace(first) && !IsSpace(last)
    ensures Strip(s) == s
  {
    StripNoop(s);
  }

  /** A trailing space is the only thing `Strip` removes from a string that is otherwise trimmed. */
  lemma StripTrailingSpace(s: string)
    requires s != [] && NoSpaceAtEnds(s)
    ensures Strip(s + " ") == s
  {
    assert TrimLeft(s + " ") == s + " ";
    assert (s + " ")[..|s|] == s;
  }

  /** `Strip(s)` is a contiguous piece of `s`. */
  lemma StripIsSlice(s: string) returns (a: nat, b: nat)
    ensures a <= b <= |s| && Strip(s) == s[a..b]
  {
    var l := TrimLeft(s);
    a := |s| - |l|;
    b := a + |TrimRight(l)|;
  }

  /** The characters of `s` that are not whitespace, in order. */
  function NonSpace(s: string): (r: string)
    ensures |r| <= |s|
  {
    if s == [] then [] else (if IsSpace(s[0]) then [] else [s[0]]) + NonSpace(s[1..])
  }

  lemma {:induction false} NonSpaceAppend(a: string, b: string)
    ensures NonSpace(a + b) == NonSpace(a) + NonSpace(b)
  {
    if a == [] {
      assert a + b == b;
    } else {
      assert (a + b)[1..] == a[1..] + b;
      NonSpaceAppend(a[1..], b);
    }
  }

  lemma {:induction false} NonSpaceOfSpaces(s: string)
    requires forall i :: 0 <= i < |s| ==> IsSpace(s[i])
    ensures NonSpace(s) == []
  {
    if s != [] {
      NonSpaceOfSpaces(s[1..]);
    }
  }

  /** `lstrip` removes only whitespace. */
  lemma NonSpaceTrimLeft(s: string)
    ensures NonSpace(TrimLeft(s)) == NonSpace(s)
  {
    var r := TrimLeft(s);
    var w := s[..|s| - |r|];
    assert s == w + r;
    NonSpaceOfSpaces(w);
    NonSpaceAppend(w, r);
  }

  /** `strip` removes only whitespace: the other characters survive, in order. */
  lemma NonSpaceStrip(s: string)
    ensures NonSpace(Strip(s)) == NonSpace(s)
  {
    NonSpaceTrimLeft(s);
    NonSpaceTrimRight(TrimLeft(s));
  }

  /** `rstrip` removes only whitespace. */
  lemma NonSpaceTrimRight(s: string)
    ensures NonSpace(TrimRight(s)) == NonSpace(s)
  {
    var r := TrimRight(s);
    var w := s[|r|..];
    assert s == r + w;
    NonSpaceOfSpaces(w);
    NonSpaceAppend(r, w);
  }

  /** Splitting a concatenation after its first character. */
  lemma HeadTailAppend(p: string, x: string)
    requires p != []
    ensures (p + x)[0] == p[0] && (p + x)[1..] == p[1..] + x
  {
  }

  /** Regrouping a concatenation behind one leading character. */
  lemma ConsAssoc(c: char, a: string, b: string)
    ensures [c] + (a + b) == ([c] + a) + b
  {
  }

  /** `lstrip` only looks at the leading whitespace, so text after a non-space character plays no part. */
  lemma {:induction false} TrimLeftAppend(p: string, x: string)
    requires p != [] && !IsSpace(p[|p| - 1])
    ensures TrimLeft(p + x) == TrimLeft(p) + x
  {
    if IsSpace(p[0]) {
      assert (p + x)[1..] == p[1..] + x;
      TrimLeftAppend(p[1..], x);
    }
  }

  /** A run of whitespace in front of a non-space character is exactly what `lstrip` removes. */
  lemma {:induction false} TrimLeftSpaces(w: string, q: string)
    requires forall i :: 0 <= i < |w| ==> IsSpace(w[i])
    requires q == [] || !IsSpace(q[0])
    ensures TrimLeft(w + q) == q
  {
    if w == [] {
      assert w + q == q;
    } else {
      assert (w + q)[1..] == w[1..] + q;
      TrimLeftSpaces(w[1..], q);
    }
  }

  /** `sub` occurs in `s` starting at position `i`. */
  predicate OccursAt(s: string, sub: string, i: nat) {
    i + |sub| <= |s| && s[i..i + |sub|] == sub
  }

  /** True when `sub` occurs in `s` as a contiguous piece: Python's `sub in s`. */
  predicate Contains(s: string, sub: string) {
    exists i: nat :: i <= |s| && OccursAt(s, sub, i)
  }

  /** Position of the first `c` in `s`: `s.index(c)`. */
  function IndexOf(s: string, c: char): (i: nat)
    requires c in s
    ensures i < |s| && s[i] == c && c !in s[..i]
  {
    if s[0] == c then 0 else 1 + IndexOf(s[1..], c)
  }

  /** The first `c` in `s` is the one at `k` when no earlier character is `c`. */
  lemma {:induction false} IndexOfFirst(s: string, c: char, k: nat)
    requires k < |s| && s[k] == c
    requires forall i :: 0 <= i < k ==> s[i] != c
    ensures IndexOf(s, c) == k
  {
    if k > 0 {
      IndexOfFirst(s[1..], c, k - 1);
    }
  }

  /** The pieces of `s` between occurrences of `sep` joined back with `sep`. */
  function Join(parts: seq<string>, sep: char): string
    requires |parts| >= 1
  {
    if |parts| == 1 then parts[0] else parts[0] + [sep] + Join(parts[1..], sep)
  }

  /**
   * `s.split(sep)`: never empty, no piece holds the separator, and joining
   * the pieces with the separator gives `s` back.
   */
  function Split(s: string, sep: char): (parts: seq<string>)
    ensures |parts| >= 1
    ensures forall k :: 0 <= k < |parts| ==> sep !in parts[k]
    ensures Join(parts, sep) == s
    decreases |s|
  {
    if sep !in s then [s]
    else
      var i := IndexOf(s, sep);
      var rest := Split(s[i + 1..], sep);
      assert s == s[..i] + [sep] + s[i + 1..];
      [s[..i]] + rest
  }

  /** The length of the run of digits at the start of `s`. */
  function LeadingDigits(s: string): (k: nat)
    ensures k <= |s|
    ensures forall i :: 0 <= i < k ==> IsDigit(s[i])
    ensures k == |s| || !IsDigit(s[k])
  {
    if s != [] && IsDigit(s[0]) then 1 + LeadingDigits(s[1..]) else 0
  }

  /** The leading digit run is all digits. */
  lemma LeadingDigitsRun(s: string)
    ensures AllDigits(s[..LeadingDigits(s)])
  {
    var k := LeadingDigits(s);
    forall i | 0 <= i < k
      ensures IsDigit(s[..k][i])
    {
      assert s[..k][i] == s[i];
    }
  }

  /** The digit run at the start of `s` is the one that ends at the first non-digit. */
  lemma {:induction false} LeadingDigitsOf(s: string, k: nat)
    requires k <= |s| && AllDigits(s[..k]) && (k == |s| || !IsDigit(s[k]))
    ensures LeadingDigits(s) == k
  {
    if k > 0 {
      assert s[..k][0] == s[0];
      assert s[1..][..k - 1] == s[..k][1..];
      LeadingDigitsOf(s[1..], k - 1);
    }
  }

  /** `int(d)` for a string of decimal digits. */
  function Value(d: string): nat
    requires AllDigits(d)
  {
    if d == [] then 0 else 10 * Value(d[..|d| - 1]) + ((d[|d| - 1] as int) - ('0' as int))
  }
}
