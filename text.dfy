/**
 * The string operations the scraper relies on: Python's `str.strip()`,
 * `str.startswith`, `str.split(sep, 1)` and the decimal rendering of an int
 * inside an f-string.
 */
module Text {
  import opened Wrappers

  /** The characters for which Python's `str.isspace()` holds; `str.strip()`
      with no argument removes exactly these from both ends. */
  predicate IsSpace(c: char) {
    || ('\t' <= c <= '\r')
    || ('\U{1C}' <= c <= '\U{1F}')
    || c == ' '
    || c == '\U{85}'
    || c == '\U{A0}'
    || c == '\U{1680}'
    || ('\U{2000}' <= c <= '\U{200A}')
    || c == '\U{2028}'
    || c == '\U{2029}'
    || c == '\U{202F}'
    || c == '\U{205F}'
    || c == '\U{3000}'
  }

  predicate AllSpace(s: string) {
    forall i :: 0 <= i < |s| ==> IsSpace(s[i])
  }

  /** Neither the first nor the last character is whitespace. */
  predicate Trimmed(s: string) {
    s == [] || (!IsSpace(s[0]) && !IsSpace(s[|s| - 1]))
  }

  /** Whitespace fills the positions `lo` to `hi` of `s`. */
  predicate SpaceBetween(s: string, lo: nat, hi: nat)
    requires lo <= hi <= |s|
  {
    forall i :: lo <= i < hi ==> IsSpace(s[i])
  }

  /** Where the text after the leading whitespace starts, scanning from `i`. */
  function StripStart(s: string, i: nat): (j: nat)
    requires i <= |s|
    ensures i <= j <= |s| && SpaceBetween(s, i, j)
    ensures j == |s| || !IsSpace(s[j])
    decreases |s| - i
  {
    if i < |s| && IsSpace(s[i]) then StripStart(s, i + 1) else i
  }

  /** Where the text before the trailing whitespace ends, scanning down from
      `j` but not below `lo`. */
  function StripEnd(s: string, lo: nat, j: nat): (k: nat)
    requires lo <= j <= |s|
    ensures lo <= k <= j && SpaceBetween(s, k, j)
    ensures k == lo || !IsSpace(s[k - 1])
  {
    if lo < j && IsSpace(s[j - 1]) then StripEnd(s, lo, j - 1) else j
  }

  /** `s.strip()`: the text between the leading and the trailing whitespace. */
  function Strip(s: string): (r: string)
    ensures |r| <= |s|
    ensures Trimmed(r)
  {
    var i := StripStart(s, 0);
    s[i..StripEnd(s, i, |s|)]
  }

  /** What Strip removes is whitespace on both sides: `s` is the result
      framed by a whitespace prefix and a whitespace suffix. */
  lemma {:induction false} StripFrames(s: string) returns (pre: string, post: string)
    ensures AllSpace(pre) && AllSpace(post)
    ensures s == pre + Strip(s) + post
  {
    var i := StripStart(s, 0);
    var k := StripEnd(s, i, |s|);
    pre, post := s[..i], s[k..];
    assert s == pre + s[i..k] + post;
  }

  /** Where the pieces of a framing `pre + r + post` of `s` sit inside `s`. */
  lemma {:induction false} FramingAt(s: string, pre: string, r: string, post: string)
    requires AllSpace(pre) && AllSpace(post) && Trimmed(r)
    requires s == pre + r + post
    ensures forall i :: 0 <= i < |pre| ==> IsSpace(s[i])
    ensures forall i :: |pre| + |r| <= i < |s| ==> IsSpace(s[i])
    ensures r == s[|pre|..|pre| + |r|]
    ensures r != [] ==> !IsSpace(s[|pre|]) && !IsSpace(s[|pre| + |r| - 1])
  {
    forall i | 0 <= i < |pre| ensures IsSpace(s[i]) { assert s[i] == pre[i]; }
    forall i | |pre| + |r| <= i < |s| ensures IsSpace(s[i]) {
      assert s[i] == post[i - |pre| - |r|];
    }
  }

  /** Strip is the only way to frame a trimmed string in whitespace: any
      decomposition `pre + r + post` of `s` with whitespace `pre` and `post`
      and a trimmed `r` has `r == Strip(s)`. */
  lemma {:induction false} StripUnique(s: string, pre: string, r: string, post: string)
    requires AllSpace(pre) && AllSpace(post) && Trimmed(r)
    requires s == pre + r + post
    ensures r == Strip(s)
  {
    var r' := Strip(s);
    var pre', post' := StripFrames(s);
    FramingAt(s, pre, r, post);
    FramingAt(s, pre', r', post');
  }

  /** Stripping twice changes nothing more. */
  lemma {:induction false} StripIdempotent(s: string)
    ensures Strip(Strip(s)) == Strip(s)
  {
    StripTrimmed(Strip(s));
  }

  /** A string with no whitespace at either end strips to itself. */
  lemma {:induction false} StripTrimmed(s: string)
    requires Trimmed(s)
    ensures Strip(s) == s
  {
    StripUnique(s, [], s, []);
  }

  /** One blank in front of a trimmed string is all that strip removes. */
  lemma {:induction false} StripAfterSpace(s: string)
    requires Trimmed(s)
    ensures Strip(" " + s) == s
  {
    assert AllSpace(" ");
    StripUnique(" " + s, " ", s, []);
  }

  /** `s.startswith(p)` */
  predicate StartsWith(s: string, p: string) {
    |p| <= |s| && s[..|p|] == p
  }

  /** `s.split(sep, 1)`: `None` when `sep` does not occur in `s` (Python then
      returns a one-element list), otherwise the text before the FIRST `sep`
      and everything after it, further separators included. */
  function SplitFirst(s: string, sep: char): (r: Option<(string, string)>)
    ensures r.None? <==> sep !in s
    ensures r.Some? ==> sep !in r.value.0 && s == r.value.0 + [sep] + r.value.1
  {
    if s == [] then None
    else if s[0] == sep then Some(([], s[1..]))
    else
      match SplitFirst(s[1..], sep)
      case None => None
      case Some(parts) =>
        assert s == [s[0]] + s[1..];
        Some(([s[0]] + parts.0, parts.1))
  }

  /** The first-occurrence split is the only split whose head avoids `sep`. */
  lemma {:induction false} SplitFirstUnique(s: string, sep: char, head: string, tail: string)
    requires sep !in head && s == head + [sep] + tail
    ensures SplitFirst(s, sep) == Some((head, tail))
  {
    var r := SplitFirst(s, sep);
    var h := r.value.0;
    // both heads are the separator-free run before the separator at their end
    assert forall i :: 0 <= i < |head| ==> s[i] == head[i];
    assert forall i :: 0 <= i < |h| ==> s[i] == h[i];
    assert s[|head|] == sep && s[|h|] == sep;
    assert h == s[..|head|] == head;
    assert r.value.1 == s[|head| + 1..] == tail;
  }

  function DigitChar(d: nat): (c: char)
    requires d < 10
    ensures '0' <= c <= '9' && c as int - '0' as int == d
  {
    "0123456789"[d]
  }

  predicate AllDigits(s: string) {
    forall i :: 0 <= i < |s| ==> '0' <= s[i] <= '9'
  }

  /** Python's `f'{n}'` for a non-negative int: decimal digits, without
      leading zeros, "0" only for zero. */
  function Decimal(n: nat): (r: string)
    ensures |r| > 0 && AllDigits(r)
    ensures r[0] == '0' <==> n == 0
  {
    if n < 10 then [DigitChar(n)] else Decimal(n / 10) + [DigitChar(n % 10)]
  }

  /** Reading a string of decimal digits back as a number. */
  function DecimalValue(s: string): nat
    requires AllDigits(s)
  {
    if s == [] then 0
    else 10 * DecimalValue(s[..|s| - 1]) + (s[|s| - 1] as int - '0' as int)
  }

  lemma {:induction false} DecimalRoundTrip(n: nat)
    ensures DecimalValue(Decimal(n)) == n
  {
    if n >= 10 {
      var r := Decimal(n);
      assert r[..|r| - 1] == Decimal(n / 10);
      DecimalRoundTrip(n / 10);
    }
  }

  /** Distinct numbers render as distinct strings. */
  lemma {:induction false} DecimalInjective(m: nat, n: nat)
    requires m != n
    ensures Decimal(m) != Decimal(n)
  {
    DecimalRoundTrip(m);
    DecimalRoundTrip(n);
  }
}
