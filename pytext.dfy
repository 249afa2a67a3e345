/** The parts of Python's `str` that the core relies on, over `seq<char>`
    (one `char` per code point, as Python indexes strings). */
module PyText {
  import opened Wrappers

  /** `c.isspace()`: the code points Python's `str.strip()` removes. */
  predicate IsWhitespace(c: char)
  {
    ('\t' <= c <= '\r') || ('\U{1C}' <= c <= ' ') || c == '\U{85}' || c == '\U{A0}'
    || c == '\U{1680}' || ('\U{2000}' <= c <= '\U{200A}') || c == '\U{2028}' || c == '\U{2029}'
    || c == '\U{202F}' || c == '\U{205F}' || c == '\U{3000}'
  }

  /** Number of whitespace characters at the front of `s`. */
  function LeadingSpace(s: string): (n: nat)
    ensures n <= |s|
  {
    if |s| > 0 && IsWhitespace(s[0]) then 1 + LeadingSpace(s[1..]) else 0
  }

  /** Number of whitespace characters at the end of `s`. */
  function TrailingSpace(s: string): (n: nat)
    ensures n <= |s|
  {
    if |s| > 0 && IsWhitespace(s[|s| - 1]) then 1 + TrailingSpace(s[..|s| - 1]) else 0
  }

  /** `LeadingSpace` counts the whole whitespace run at the front: the
      characters it covers are whitespace and the one after them is not. */
  lemma {:induction false} LeadingSpaceIsRun(s: string)
    ensures forall k :: 0 <= k < LeadingSpace(s) ==> IsWhitespace(s[k])
    ensures LeadingSpace(s) < |s| ==> !IsWhitespace(s[LeadingSpace(s)])
  {
    if |s| > 0 && IsWhitespace(s[0]) {
      LeadingSpaceIsRun(s[1..]);
      forall k | 0 < k < LeadingSpace(s) ensures IsWhitespace(s[k]) {
        assert s[k] == s[1..][k - 1];
      }
    }
  }

  /** `TrailingSpace` counts the whole whitespace run at the end. */
  lemma {:induction false} TrailingSpaceIsRun(s: string)
    ensures forall k :: |s| - TrailingSpace(s) <= k < |s| ==> IsWhitespace(s[k])
    ensures TrailingSpace(s) < |s| ==> !IsWhitespace(s[|s| - TrailingSpace(s) - 1])
  {
    if |s| > 0 && IsWhitespace(s[|s| - 1]) {
      var t := s[..|s| - 1];
      TrailingSpaceIsRun(t);
      forall k | |s| - TrailingSpace(s) <= k < |s| - 1 ensures IsWhitespace(s[k]) {
        assert s[k] == t[k];
      }
      if TrailingSpace(s) < |s| {
        assert s[|s| - TrailingSpace(s) - 1] == t[|t| - TrailingSpace(t) - 1];
      }
    }
  }

  /** `s.strip()`: the slice of `s` left after dropping leading and trailing
      whitespace, starting at `LeadingSpace(s)`. */
  function Strip(s: string): (r: string)
    ensures LeadingSpace(s) + |r| <= |s|
    ensures r == s[LeadingSpace(s)..LeadingSpace(s) + |r|]
  {
    var t := s[LeadingSpace(s)..];
    t[..|t| - TrailingSpace(t)]
  }

  /** `r` is `s[lo:hi].strip()` found at `p`: it lies inside `s[lo..hi]`,
      everything of that slice before and after it is whitespace, and its
      own ends are not. */
  predicate IsStrippedSpan(s: string, lo: nat, hi: nat, p: nat, r: string)
  {
    && lo <= p && p + |r| <= hi <= |s|
    && s[p..p + |r|] == r
    && (forall m :: lo <= m < p ==> IsWhitespace(s[m]))
    && (forall m :: p + |r| <= m < hi ==> IsWhitespace(s[m]))
    && (r == [] || (!IsWhitespace(r[0]) && !IsWhitespace(r[|r| - 1])))
  }

  /** What `Strip` removes is whitespace, on both sides, and what it keeps
      neither starts nor ends with whitespace. */
  lemma StripCutsOnlyWhitespace(s: string)
    ensures forall k :: 0 <= k < LeadingSpace(s) ==> IsWhitespace(s[k])
    ensures forall k :: LeadingSpace(s) + |Strip(s)| <= k < |s| ==> IsWhitespace(s[k])
    ensures var r := Strip(s);
      r == [] || (!IsWhitespace(r[0]) && !IsWhitespace(r[|r| - 1]))
  {
    LeadingSpaceIsRun(s);
    StripTailIsWhitespace(s);
    StripEdgesAreVisible(s);
  }

  lemma StripTailIsWhitespace(s: string)
    ensures forall k :: LeadingSpace(s) + |Strip(s)| <= k < |s| ==> IsWhitespace(s[k])
  {
    var lead := LeadingSpace(s);
    var t := s[lead..];
    var r := Strip(s);
    assert r == t[..|t| - TrailingSpace(t)];
    TrailingSpaceIsRun(t);
    forall k | lead + |r| <= k < |s| ensures IsWhitespace(s[k]) {
      assert s[k] == t[k - lead];
    }
  }

  lemma StripEdgesAreVisible(s: string)
    ensures var r := Strip(s);
      r == [] || (!IsWhitespace(r[0]) && !IsWhitespace(r[|r| - 1]))
  {
    var lead := LeadingSpace(s);
    var t := s[lead..];
    var cut := TrailingSpace(t);
    var r := Strip(s);
    assert r == t[..|t| - cut];
    if r != [] {
      assert !IsWhitespace(r[0]) by {
        LeadingSpaceIsRun(s);
        assert r[0] == t[0] == s[lead];
      }
      assert !IsWhitespace(r[|r| - 1]) by {
        TrailingSpaceIsRun(t);
        assert r[|r| - 1] == t[|t| - cut - 1];
      }
    }
  }

  /** `k` occurs in `s` starting at index `i`. */
  predicate OccursAt(s: string, k: string, i: int)
  {
    0 <= i && i + |k| <= |s| && s[i..i + |k|] == k
  }

  /** First index at or after `from` where `k` occurs in `s`. */
  function FindFrom(s: string, k: string, from: nat): (r: Option<nat>)
    ensures r.Some? ==> from <= r.value && OccursAt(s, k, r.value)
    ensures r.Some? ==> forall j :: from <= j < r.value ==> !OccursAt(s, k, j)
    ensures r.None? ==> forall j :: from <= j ==> !OccursAt(s, k, j)
    decreases |s| - from
  {
    if from + |k| > |s| then None
    else if s[from..from + |k|] == k then Some(from)
    else FindFrom(s, k, from + 1)
  }

  /** `s.index(k)` when `k in s`, None otherwise: the first occurrence. */
  function Find(s: string, k: string): (r: Option<nat>)
    ensures r.Some? ==> OccursAt(s, k, r.value) && forall j :: 0 <= j < r.value ==> !OccursAt(s, k, j)
    ensures r.None? ==> forall j :: !OccursAt(s, k, j)
  {
    FindFrom(s, k, 0)
  }

  /** Python's `k in s` on strings. */
  predicate Contains(s: string, k: string)
  {
    Find(s, k).Some?
  }

  /** An occurrence of `k` in `s` that lies inside the part `Strip` keeps
      survives stripping, at the same place shifted by the cut-off prefix. */
  lemma {:induction false} StripKeepsInnerOccurrence(s: string, k: string, i: nat)
    requires OccursAt(s, k, i) && |k| > 0
    requires !IsWhitespace(k[0]) && !IsWhitespace(k[|k| - 1])
    ensures LeadingSpace(s) <= i
    ensures OccursAt(Strip(s), k, i - LeadingSpace(s))
  {
    var lead := LeadingSpace(s);
    var r := Strip(s);
    StripCutsOnlyWhitespace(s);
    assert s[i] == k[0];
    assert s[i + |k| - 1] == k[|k| - 1];
    assert i + |k| - 1 < lead + |r|;
    forall m | 0 <= m < |k|
      ensures r[i - lead + m] == k[m]
    {
      assert s[i + m] == s[i..i + |k|][m];
    }
    assert r[i - lead..i - lead + |k|] == k;
  }

  /** A slice of a slice is a slice of the original. */
  lemma SliceOfSlice(s: string, a: nat, b: nat, lo: nat, hi: nat)
    requires a <= b <= |s| && lo <= hi <= b - a
    ensures s[a..b][lo..hi] == s[a + lo..a + hi]
  {
    forall m | 0 <= m < hi - lo
      ensures s[a..b][lo..hi][m] == s[a + lo..a + hi][m]
    {
      assert s[a..b][lo..hi][m] == s[a..b][lo + m];
    }
  }

  /** The stripped slice `s[a..b]` sits in `s` at `a` plus the cut-off
      leading whitespace. */
  lemma StripOfSlice(s: string, a: nat, b: nat)
    requires a <= b <= |s|
    ensures a + LeadingSpace(s[a..b]) + |Strip(s[a..b])| <= b
    ensures OccursAt(s, Strip(s[a..b]), a + LeadingSpace(s[a..b]))
  {
    var t := s[a..b];
    var lead := LeadingSpace(t);
    var r := Strip(t);
    SliceOfSlice(s, a, b, lead, lead + |r|);
  }

  /** `s[a:b].strip()` is the stripped span of that slice, found right
      after the slice's leading whitespace. */
  lemma StripOfSliceIsSpan(s: string, a: nat, b: nat)
    requires a <= b <= |s|
    ensures IsStrippedSpan(s, a, b, a + LeadingSpace(s[a..b]), Strip(s[a..b]))
  {
    var t := s[a..b];
    StripOfSlice(s, a, b);
    StripCutsOnlyWhitespace(t);
    assert forall m :: a <= m < b ==> s[m] == t[m - a];
  }

  /** Stripping a slice `s[a..b]` that contains an occurrence of `k` at `i`
      whose ends are not whitespace keeps that occurrence: the stripped text
      sits in `s` after the cut-off whitespace, which all lies before `i`. */
  lemma StripSliceKeepsOccurrence(s: string, k: string, a: nat, b: nat, i: nat)
    requires a <= i && OccursAt(s, k, i) && i + |k| <= b <= |s| && |k| > 0
    requires !IsWhitespace(k[0]) && !IsWhitespace(k[|k| - 1])
    ensures LeadingSpace(s[a..b]) <= i - a
    ensures a + LeadingSpace(s[a..b]) + |Strip(s[a..b])| <= b
    ensures OccursAt(s, Strip(s[a..b]), a + LeadingSpace(s[a..b]))
    ensures OccursAt(Strip(s[a..b]), k, i - a - LeadingSpace(s[a..b]))
  {
    assert OccursAt(s[a..b], k, i - a) by {
      SliceOfSlice(s, a, b, i - a, i - a + |k|);
    }
    StripKeepsInnerOccurrence(s[a..b], k, i - a);
    StripOfSlice(s, a, b);
  }

  /** `s.split(sep, 1)` unpacked into two names: Some((before, after)) at the
      first `sep`, None when `sep` does not occur (Python then raises
      ValueError on the unpacking). */
  function SplitOnce(s: string, sep: char): (r: Option<(string, string)>)
    ensures r.None? <==> sep !in s
    ensures r.Some? ==> sep !in r.value.0 && r.value.0 + [sep] + r.value.1 == s
  {
    if |s| == 0 then None
    else if s[0] == sep then Some(([], s[1..]))
    else match SplitOnce(s[1..], sep)
      case None => None
      case Some(parts) => Some(([s[0]] + parts.0, parts.1))
  }

  /** `s[::-1]`. */
  function Reverse<T>(s: seq<T>): (r: seq<T>)
    ensures |r| == |s|
  {
    seq(|s|, k requires 0 <= k < |s| => s[|s| - 1 - k])
  }

  /** `sep.join(parts)`. */
  function Join(sep: string, parts: seq<string>): string
  {
    if |parts| == 0 then ""
    else if |parts| == 1 then parts[0]
    else parts[0] + sep + Join(sep, parts[1..])
  }

  /** The value of one decimal digit character. */
  function DigitValue(c: char): (d: nat)
    requires '0' <= c <= '9'
    ensures d < 10
  {
    (c as int) - ('0' as int)
  }

  /** The character of one decimal digit. */
  function DigitChar(d: nat): (c: char)
    requires d < 10
    ensures '0' <= c <= '9' && DigitValue(c) == d
  {
    (('0' as int) + d) as char
  }

  /** The number a string of decimal digits denotes, most significant
      digit first. */
  function DigitsValue(s: string): nat
    requires forall k :: 0 <= k < |s| ==> '0' <= s[k] <= '9'
  {
    if s == [] then 0 else 10 * DigitsValue(s[..|s| - 1]) + DigitValue(s[|s| - 1])
  }

  /** `str(n)` for a non-negative integer: the decimal digits that denote
      `n`, with no leading zero except for `n == 0` itself. */
  function DecimalString(n: nat): (r: string)
    ensures |r| > 0 && forall k :: 0 <= k < |r| ==> '0' <= r[k] <= '9'
    ensures DigitsValue(r) == n
    ensures r[0] == '0' <==> n == 0
  {
    if n < 10 then [DigitChar(n)]
    else
      var r := DecimalString(n / 10) + [DigitChar(n % 10)];
      assert r[..|r| - 1] == DecimalString(n / 10);
      r
  }

  /** A digit string without a leading zero denotes a positive number. */
  lemma {:induction false} LeadingDigitPositive(s: string)
    requires |s| > 0 && forall k :: 0 <= k < |s| ==> '0' <= s[k] <= '9'
    requires s[0] != '0'
    ensures DigitsValue(s) > 0
  {
    if |s| > 1 {
      LeadingDigitPositive(s[..|s| - 1]);
    }
  }

  /** `str(int(s))` gives `s` back for every digit string without a leading
      zero: together with `DigitsValue(DecimalString(n)) == n`, printing a
      number and reading its digits are inverse. */
  lemma {:induction false} DecimalStringOfDigits(s: string)
    requires |s| > 0 && forall k :: 0 <= k < |s| ==> '0' <= s[k] <= '9'
    requires |s| == 1 || s[0] != '0'
    ensures DecimalString(DigitsValue(s)) == s
  {
    var last := s[|s| - 1];
    assert DigitChar(DigitValue(last)) == last;
    if |s| > 1 {
      var front := s[..|s| - 1];
      LeadingDigitPositive(front);
      DecimalStringOfDigits(front);
      var v := DigitsValue(s);
      assert v / 10 == DigitsValue(front) && v % 10 == DigitValue(last);
      assert s == front + [last];
    }
  }

  /** Python truthiness of an optional string: present and non-empty. */
  predicate Truthy(x: Option<string>)
  {
    x.Some? && x.value != ""
  }

  /** `str(x)` for an optional string: None prints as "None", as in an
      f-string. */
  function OptionText(x: Option<string>): string
  {
    match x
    case Some(s) => s
    case None => "None"
  }
}
