/**
 * The Python string operations the chat pages rely on: `str.strip`, `str.lstrip(chars)`,
 * `str.split(sep)`, `sep.join(parts)`, `str.find`/`str.rfind` and `str(n)` for a
 * non-negative integer.
 */
module Text {
  import opened Wrappers

  /** The characters for which Python's `str.isspace()` holds; `str.strip()` removes these. */
  const Whitespace: set<char> := {
    '\t', '\n', '\U{000B}', '\U{000C}', '\r', '\U{001C}', '\U{001D}', '\U{001E}', '\U{001F}',
    ' ', '\U{0085}', '\U{00A0}', '\U{1680}',
    '\U{2000}', '\U{2001}', '\U{2002}', '\U{2003}', '\U{2004}', '\U{2005}', '\U{2006}',
    '\U{2007}', '\U{2008}', '\U{2009}', '\U{200A}',
    '\U{2028}', '\U{2029}', '\U{202F}', '\U{205F}', '\U{3000}'
  }

  // ---------------------------------------------------------------------------
  // Stripping
  // ---------------------------------------------------------------------------

  /** `s.lstrip(chars)`: the longest suffix of `s` that does not start with a character of `chars`. */
  function LStrip(s: string, chars: set<char>): (r: string)
    ensures |r| <= |s| && r == s[|s| - |r|..]
    ensures forall i :: 0 <= i < |s| - |r| ==> s[i] in chars
    ensures r == [] || r[0] !in chars
  {
    if s != [] && s[0] in chars then LStrip(s[1..], chars) else s
  }

  /** `s.rstrip(chars)`: the longest prefix of `s` that does not end with a character of `chars`. */
  function RStrip(s: string, chars: set<char>): (r: string)
    ensures |r| <= |s| && r == s[..|r|]
    ensures forall i :: |r| <= i < |s| ==> s[i] in chars
    ensures r == [] || r[|r| - 1] !in chars
  {
    if s != [] && s[|s| - 1] in chars then RStrip(s[..|s| - 1], chars) else s
  }

  /** `s.strip()`: whitespace removed from both ends; empty exactly when `s` is all whitespace. */
  function Strip(s: string): (r: string)
    ensures |r| <= |s|
    ensures r == [] || (r[0] !in Whitespace && r[|r| - 1] !in Whitespace)
    ensures r == [] <==> forall i :: 0 <= i < |s| ==> s[i] in Whitespace
  {
    var left := LStrip(s, Whitespace);
    var r := RStrip(left, Whitespace);
    assert r != [] ==> r[0] == left[0];
    r
  }

  /** `r` is the slice of `s` at `i`, and everything before and after it is in `chars`. */
  predicate TrimmedAt(s: string, r: string, i: nat, chars: set<char>) {
    i + |r| <= |s| && s[i..i + |r|] == r &&
    (forall k :: 0 <= k < i ==> s[k] in chars) &&
    (forall k :: i + |r| <= k < |s| ==> s[k] in chars)
  }

  /**
   * `strip()` keeps a slice of `s` and removes only whitespace around it: everything before
   * and after the result is whitespace.
   */
  lemma StripKeepsMiddle(s: string)
    ensures exists i: nat :: TrimmedAt(s, Strip(s), i, Whitespace)
  {
    var i := TrimBothEnds(s, Whitespace);
    assert Strip(s) == RStrip(LStrip(s, Whitespace), Whitespace);
    assert TrimmedAt(s, Strip(s), i, Whitespace);
  }

  /** Stripping `chars` from the left and then the right leaves a slice of `s` trimmed of `chars`. */
  lemma TrimBothEnds(s: string, chars: set<char>) returns (i: nat)
    ensures TrimmedAt(s, RStrip(LStrip(s, chars), chars), i, chars)
  {
    var left := LStrip(s, chars);
    var r := RStrip(left, chars);
    i := |s| - |left|;
    TrimmedSlice(s, left, r, i, chars);
  }

  /** A prefix `r` of the suffix `left == s[i..]`, with only `chars` around it, is trimmed out of `s` at `i`. */
  lemma TrimmedSlice(s: string, left: string, r: string, i: nat, chars: set<char>)
    requires i + |left| == |s| && left == s[i..] && |r| <= |left| && r == left[..|r|]
    requires forall k :: 0 <= k < i ==> s[k] in chars
    requires forall j :: |r| <= j < |left| ==> left[j] in chars
    ensures TrimmedAt(s, r, i, chars)
  {
    PrefixOfSuffix(s, left, r, i);
    TailOfSuffix(s, left, r, i, chars);
  }

  /** What `rstrip` removed from the suffix `left == s[i..]` is also the end of `s`. */
  lemma TailOfSuffix(s: string, left: string, r: string, i: nat, chars: set<char>)
    requires i + |left| == |s| && left == s[i..] && |r| <= |left|
    requires forall j :: |r| <= j < |left| ==> left[j] in chars
    ensures forall k :: i + |r| <= k < |s| ==> s[k] in chars
  {
    forall k | i + |r| <= k < |s|
      ensures s[k] in chars
    {
      assert s[k] == left[k - i];
    }
  }

  /** A prefix `r` of the suffix `left == s[i..]` is the slice of `s` at `i`. */
  lemma PrefixOfSuffix(s: string, left: string, r: string, i: nat)
    requires i + |left| == |s| && left == s[i..] && |r| <= |left| && r == left[..|r|]
    ensures i + |r| <= |s| && s[i..i + |r|] == r
  {
    forall k | 0 <= k < |r|
      ensures s[i..i + |r|][k] == r[k]
    {
      assert r[k] == left[k] == s[i + k];
    }
  }

  // ---------------------------------------------------------------------------
  // Searching
  // ---------------------------------------------------------------------------

  /** `sep` occurs in `s` starting at index `i`. */
  predicate OccursAt(s: string, sep: string, i: nat) {
    i + |sep| <= |s| && s[i..i + |sep|] == sep
  }

  ghost predicate Contains(s: string, sep: string) {
    exists i: nat :: OccursAt(s, sep, i)
  }

  /** `s.find(sep, from)`: the first occurrence of `sep` at or after index `from`. */
  function FindFrom(s: string, sep: string, from: nat): (r: Option<nat>)
    requires sep != []
    ensures r.Some? ==> from <= r.value && OccursAt(s, sep, r.value)
    ensures r.Some? ==> forall j: nat :: from <= j < r.value ==> !OccursAt(s, sep, j)
    ensures r.None? ==> forall j: nat :: from <= j ==> !OccursAt(s, sep, j)
    decreases |s| - from
  {
    if |s| < from + |sep| then None
    else if OccursAt(s, sep, from) then Some(from)
    else FindFrom(s, sep, from + 1)
  }

  /** `s.rfind(sep)` restricted to occurrences starting at or before index `upto`. */
  function RFindUpTo(s: string, sep: string, upto: nat): (r: Option<nat>)
    requires sep != []
    ensures r.Some? ==> r.value <= upto && OccursAt(s, sep, r.value)
    ensures r.Some? ==> forall j: nat :: r.value < j <= upto ==> !OccursAt(s, sep, j)
    ensures r.None? ==> forall j: nat :: j <= upto ==> !OccursAt(s, sep, j)
    decreases upto
  {
    if OccursAt(s, sep, upto) then Some(upto)
    else if upto == 0 then None
    else RFindUpTo(s, sep, upto - 1)
  }

  /** `s.rfind(sep)`: the last occurrence of `sep` in `s`. */
  function RFind(s: string, sep: string): (r: Option<nat>)
    requires sep != []
    ensures r.Some? ==> OccursAt(s, sep, r.value)
    ensures r.Some? ==> forall j: nat :: r.value < j ==> !OccursAt(s, sep, j)
    ensures r.None? <==> !Contains(s, sep)
  {
    if |s| < |sep| then None else RFindUpTo(s, sep, |s| - |sep|)
  }

  /** An occurrence inside a slice is an occurrence in the whole string, shifted by the slice start. */
  lemma OccursInSlice(s: string, sep: string, lo: nat, hi: nat, j: nat)
    requires lo <= hi <= |s|
    requires OccursAt(s[lo..hi], sep, j)
    ensures OccursAt(s, sep, lo + j) && lo + j + |sep| <= hi
  {
    assert j + |sep| <= hi - lo;
    forall k | 0 <= k < |sep| ensures s[lo + j + k] == sep[k] {
      assert s[lo..hi][j..j + |sep|][k] == sep[k];
    }
    assert s[lo + j..lo + j + |sep|] == sep;
  }

  // ---------------------------------------------------------------------------
  // Splitting and joining
  // ---------------------------------------------------------------------------

  /** The total length of the parts. */
  function TotalLength(parts: seq<string>): nat {
    if parts == [] then 0 else |parts[0]| + TotalLength(parts[1..])
  }

  /**
   * `sep.join(parts)`: the parts in order with the separator between neighbours, so one
   * separator fewer than there are parts.
   */
  function Join(parts: seq<string>, sep: string): (s: string)
    ensures parts == [] ==> s == []
  {
    if parts == [] then []
    else if |parts| == 1 then parts[0]
    else parts[0] + sep + Join(parts[1..], sep)
  }

  /** The length of a join: the parts' lengths and one separator fewer than there are parts. */
  lemma {:induction false} JoinLength(parts: seq<string>, sep: string)
    requires parts != []
    ensures |Join(parts, sep)| == TotalLength(parts) + (|parts| - 1) * |sep|
    decreases |parts|
  {
    if |parts| >= 2 {
      JoinLength(parts[1..], sep);
    }
  }

  /** `s[from:].split(sep)`: cut at each occurrence found by a left-to-right scan that resumes after it. */
  function SplitFrom(s: string, sep: string, from: nat): (parts: seq<string>)
    requires sep != [] && from <= |s|
    ensures |parts| >= 1
    ensures forall k :: 0 <= k < |parts| ==> !Contains(parts[k], sep)
    ensures |parts| == 1 <==> FindFrom(s, sep, from).None?
    decreases |s| - from
  {
    match FindFrom(s, sep, from)
    case None =>
      assert !Contains(s[from..], sep) by {
        assert s[from..] == s[from..|s|];
        forall j: nat | OccursAt(s[from..], sep, j) ensures false {
          OccursInSlice(s, sep, from, |s|, j);
        }
      }
      [s[from..]]
    case Some(k) =>
      var rest := SplitFrom(s, sep, k + |sep|);
      assert !Contains(s[from..k], sep) by {
        forall j: nat | OccursAt(s[from..k], sep, j) ensures false {
          OccursInSlice(s, sep, from, k, j);
        }
      }
      [s[from..k]] + rest
  }

  /**
   * The first occurrence of `sep` at or after `from` is at `k`, so in `s[from..k] + sep`
   * the first occurrence is the appended one.
   */
  lemma FirstCut(s: string, sep: string, from: nat, k: nat)
    requires sep != [] && from <= k
    requires OccursAt(s, sep, k)
    requires forall j: nat :: from <= j < k ==> !OccursAt(s, sep, j)
    ensures FindFrom(s[from..k] + sep, sep, 0) == Some(|s[from..k]|)
  {
    var t := s[from..k] + sep;
    assert t == s[from..k + |sep|];
    assert OccursAt(t, sep, k - from) by {
      assert t[k - from..k - from + |sep|] == sep;
    }
    forall j: nat | j < k - from
      ensures !OccursAt(t, sep, j)
    {
      if OccursAt(t, sep, j) {
        OccursInSlice(s, sep, from, k + |sep|, j);
      }
    }
  }

  /** Each part but the last ends where the first occurrence of `sep` in it, followed by `sep`, starts. */
  predicate CutsLeftmost(parts: seq<string>, sep: string)
    requires sep != []
  {
    forall k :: 0 <= k < |parts| - 1 ==> FindFrom(parts[k] + sep, sep, 0) == Some(|parts[k]|)
  }

  lemma CutsLeftmostPrepend(first: string, rest: seq<string>, sep: string)
    requires sep != []
    requires FindFrom(first + sep, sep, 0) == Some(|first|) && CutsLeftmost(rest, sep)
    ensures CutsLeftmost([first] + rest, sep)
  {
    var parts := [first] + rest;
    forall k | 1 <= k < |parts| - 1
      ensures FindFrom(parts[k] + sep, sep, 0) == Some(|parts[k]|)
    {
      assert parts[k] == rest[k - 1];
    }
  }

  /** One step of `SplitFrom`: the part before the first occurrence, then the split of the rest. */
  lemma SplitFromStep(s: string, sep: string, from: nat, cut: nat, next: nat)
    requires sep != [] && from <= |s|
    requires FindFrom(s, sep, from) == Some(cut) && next == cut + |sep|
    ensures next <= |s|
    ensures SplitFrom(s, sep, from) == [s[from..cut]] + SplitFrom(s, sep, next)
  {
  }

  /** An occurrence of `sep` at `cut` splits the rest of `s` from `from` around it. */
  lemma SliceAround(s: string, sep: string, from: nat, cut: nat, next: nat)
    requires from <= cut && OccursAt(s, sep, cut) && next == cut + |sep|
    ensures s[from..] == s[from..cut] + sep + s[next..]
  {
    assert s[from..cut] + sep == s[from..next];
  }

  /** Joining the parts of `SplitFrom` with the separator gives back the rest of the string. */
  lemma {:induction false} JoinSplitFrom(s: string, sep: string, from: nat)
    requires sep != [] && from <= |s|
    ensures Join(SplitFrom(s, sep, from), sep) == s[from..]
    decreases |s| - from
  {
    var found := FindFrom(s, sep, from);
    if found.Some? {
      var next: nat := found.value + |sep|;
      JoinSplitFrom(s, sep, next);
      JoinSplitFromStep(s, sep, from, found.value, next);
    } else {
      assert SplitFrom(s, sep, from) == [s[from..]];
    }
  }

  lemma JoinSplitFromStep(s: string, sep: string, from: nat, cut: nat, next: nat)
    requires sep != [] && from <= |s|
    requires FindFrom(s, sep, from) == Some(cut) && next == cut + |sep| <= |s|
    requires Join(SplitFrom(s, sep, next), sep) == s[next..]
    ensures Join(SplitFrom(s, sep, from), sep) == s[from..]
  {
    SplitFromStep(s, sep, from, cut, next);
    SliceAround(s, sep, from, cut, next);
    JoinPrepend(s[from..cut], SplitFrom(s, sep, next), sep, s[next..]);
  }

  /** Prepending a part to parts that join to `tail` joins to the part, the separator and `tail`. */
  lemma JoinPrepend(first: string, rest: seq<string>, sep: string, tail: string)
    requires rest != [] && Join(rest, sep) == tail
    ensures Join([first] + rest, sep) == first + sep + tail
  {
    assert ([first] + rest)[1..] == rest;
  }

  /** Each cut `SplitFrom` makes is at the first occurrence that starts in the part before it. */
  lemma {:induction false} SplitFromCutsLeftmost(s: string, sep: string, from: nat)
    requires sep != [] && from <= |s|
    ensures CutsLeftmost(SplitFrom(s, sep, from), sep)
    decreases |s| - from
  {
    var found := FindFrom(s, sep, from);
    if found.Some? {
      var cut := found.value;
      var next: nat := cut + |sep|;
      SplitFromStep(s, sep, from, cut, next);
      var first, rest := s[from..cut], SplitFrom(s, sep, next);
      assert SplitFrom(s, sep, from) == [first] + rest;
      SplitFromCutsLeftmost(s, sep, next);
      FirstCut(s, sep, from, cut);
      CutsLeftmostPrepend(first, rest, sep);
    } else {
      assert |SplitFrom(s, sep, from)| == 1;
    }
  }


  /** `s.split(sep)`: joining the parts gives `s` back, and no part contains `sep`. */
  function Split(s: string, sep: string): (parts: seq<string>)
    requires sep != []
    ensures |parts| >= 1
    ensures Join(parts, sep) == s
    ensures forall k :: 0 <= k < |parts| ==> !Contains(parts[k], sep)
    ensures |parts| == 1 <==> !Contains(s, sep)
  {
    assert s[0..] == s;
    JoinSplitFrom(s, sep, 0);
    SplitFrom(s, sep, 0)
  }

  /**
   * `s.split(sep)` cuts at the leftmost occurrence each time: every part but the last is
   * followed by the first occurrence of `sep` that starts in it.
   */
  lemma SplitCutsLeftmost(s: string, sep: string)
    requires sep != []
    ensures CutsLeftmost(Split(s, sep), sep)
  {
    SplitFromCutsLeftmost(s, sep, 0);
  }

  /** Joining all parts is joining all but the last, then the separator, then the last. */
  lemma {:induction false} JoinLast(parts: seq<string>, sep: string)
    requires |parts| >= 2
    ensures Join(parts, sep) == Join(parts[..|parts| - 1], sep) + sep + parts[|parts| - 1]
    decreases |parts|
  {
    if |parts| > 2 {
      JoinLast(parts[1..], sep);
      assert parts[1..][..|parts| - 2] == parts[..|parts| - 1][1..];
    }
  }

  // ---------------------------------------------------------------------------
  // Decimal rendering of non-negative integers
  // ---------------------------------------------------------------------------

  predicate IsDigit(c: char) {
    '0' <= c <= '9'
  }

  function DigitChar(d: nat): (c: char)
    requires d < 10
    ensures IsDigit(c)
  {
    ('0' as int + d) as char
  }

  /** `str(n)` for `n >= 0`: decimal digits, without leading zeros. */
  function Decimal(n: nat): (s: string)
    ensures |s| >= 1
    ensures forall i :: 0 <= i < |s| ==> IsDigit(s[i])
    ensures s[0] == '0' ==> s == "0"
  {
    if n < 10 then [DigitChar(n)] else Decimal(n / 10) + [DigitChar(n % 10)]
  }

  /** The value of a string of decimal digits (the inverse of `Decimal`). */
  function ParseDecimal(s: string): nat
    requires forall i :: 0 <= i < |s| ==> IsDigit(s[i])
  {
    if s == [] then 0
    else
      assert IsDigit(s[|s| - 1]);
      ParseDecimal(s[..|s| - 1]) * 10 + (s[|s| - 1] as int - '0' as int)
  }

  lemma {:induction false} ParseDecimalOfDecimal(n: nat)
    ensures ParseDecimal(Decimal(n)) == n
  {
    var s := Decimal(n);
    if n >= 10 {
      ParseDecimalOfDecimal(n / 10);
      assert s[..|s| - 1] == Decimal(n / 10);
    }
  }

  /** Distinct numbers render as distinct strings. */
  lemma DecimalInjective(a: nat, b: nat)
    requires Decimal(a) == Decimal(b)
    ensures a == b
  {
    ParseDecimalOfDecimal(a);
    ParseDecimalOfDecimal(b);
  }

  // ---------------------------------------------------------------------------
  // Sequences
  // ---------------------------------------------------------------------------

  /** The first `i + 1` elements are the first `i` followed by element `i`. */
  lemma PrefixAppend<T>(xs: seq<T>, i: nat)
    requires i < |xs|
    ensures xs[..i] + [xs[i]] == xs[..i + 1]
  {
  }
}
