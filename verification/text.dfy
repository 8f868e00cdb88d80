/**
 * The string helpers the chat server applies to user input: Python's `str.strip()`,
 * `startswith`, substring tests, `split(' ', 1)`, the display-name clean-up and the
 * message length cap.
 */
module Text {
  import opened Wrappers

  /** Python's `str.isspace()` for one character: what `strip()` with no argument removes. */
  predicate IsSpace(c: char) {
    || ('\U{9}' <= c <= '\U{D}')
    || ('\U{1C}' <= c <= '\U{20}')
    || c == '\U{85}' || c == '\U{A0}' || c == '\U{1680}'
    || ('\U{2000}' <= c <= '\U{200A}')
    || c == '\U{2028}' || c == '\U{2029}' || c == '\U{202F}' || c == '\U{205F}' || c == '\U{3000}'
  }

  predicate AllSpace(s: string) {
    forall i :: 0 <= i < |s| ==> IsSpace(s[i])
  }

  /** How many whitespace characters `s` starts with: what `s.lstrip()` removes. */
  function LeadingSpace(s: string): (n: nat)
    ensures n <= |s|
    ensures forall i :: 0 <= i < n ==> IsSpace(s[i])
    ensures n == |s| || !IsSpace(s[n])
    decreases |s|
  {
    if |s| > 0 && IsSpace(s[0]) then 1 + LeadingSpace(s[1..]) else 0
  }

  /** How many whitespace characters `s` ends with: what `s.rstrip()` removes. */
  function TrailingSpace(s: string): (n: nat)
    ensures n <= |s|
    ensures forall i :: |s| - n <= i < |s| ==> IsSpace(s[i])
    ensures n == |s| || !IsSpace(s[|s| - 1 - n])
    decreases |s|
  {
    if |s| > 0 && IsSpace(s[|s| - 1]) then 1 + TrailingSpace(s[..|s| - 1]) else 0
  }

  /**
   * `s.strip()`: the infix of `s` left after removing the whitespace at both ends.
   * The result is empty exactly when `s` is nothing but whitespace.
   */
  function Strip(s: string): (r: string)
    ensures var k := LeadingSpace(s); k + |r| <= |s| && r == s[k..k + |r|]
    ensures var k := LeadingSpace(s);
      forall i :: 0 <= i < |s| && !(k <= i < k + |r|) ==> IsSpace(s[i])
    ensures r == [] || (!IsSpace(r[0]) && !IsSpace(r[|r| - 1]))
    ensures r == [] <==> AllSpace(s)
  {
    var lo := LeadingSpace(s);
    var rest := s[lo..];
    var n := TrailingSpace(rest);
    assert forall i :: |s| - n <= i < |s| ==> s[i] == rest[i - lo];
    s[lo..|s| - n]
  }

  /** A string with no whitespace at either end is its own strip. */
  lemma StripClean(s: string)
    requires s == [] || (!IsSpace(s[0]) && !IsSpace(s[|s| - 1]))
    ensures Strip(s) == s
  {
    assert LeadingSpace(s) == 0;
    assert s[0..] == s;
    assert TrailingSpace(s) == 0;
  }

  /** Stripping twice is stripping once. */
  lemma StripIdempotent(s: string)
    ensures Strip(Strip(s)) == Strip(s)
  {
    StripClean(Strip(s));
  }

  predicate StartsWith(s: string, prefix: string) {
    |prefix| <= |s| && s[..|prefix|] == prefix
  }

  /** Python's `k in s` for strings: `k` occurs as a contiguous substring of `s`. */
  predicate Contains(s: string, k: string)
    decreases |s|
  {
    StartsWith(s, k) || (|s| > 0 && Contains(s[1..], k))
  }

  /** `Contains` agrees with the positional definition of a substring occurrence. */
  lemma {:induction false} ContainsAt(s: string, k: string, i: nat)
    requires i + |k| <= |s| && s[i..i + |k|] == k
    ensures Contains(s, k)
    decreases i
  {
    if i > 0 {
      assert s[1..][i - 1..i - 1 + |k|] == s[i..i + |k|];
      ContainsAt(s[1..], k, i - 1);
    }
  }

  /** Conversely, `Contains` only holds where `k` occurs at some position of `s`. */
  lemma {:induction false} ContainsWitness(s: string, k: string)
    requires Contains(s, k)
    ensures exists i :: 0 <= i <= |s| - |k| && StartsWith(s[i..], k)
    decreases |s|
  {
    if StartsWith(s, k) {
      assert s[0..] == s;
    } else {
      ContainsWitness(s[1..], k);
      var j :| 0 <= j <= |s| - 1 - |k| && StartsWith(s[1..][j..], k);
      assert s[j + 1..] == s[1..][j..];
    }
  }

  /** Index of the first `' '` in `s`, if any. */
  function FindSpace(s: string): (r: Option<nat>)
    ensures r.None? <==> ' ' !in s
    ensures r.Some? ==> r.value < |s| && s[r.value] == ' ' && ' ' !in s[..r.value]
  {
    if |s| == 0 then None
    else if s[0] == ' ' then Some(0)
    else match FindSpace(s[1..])
      case None => None
      case Some(i) =>
        assert s[..i + 1] == [s[0]] + s[1..][..i];
        Some(i + 1)
  }

  /**
   * Python's `s.split(' ', 1)` seen through `len(parts) > 1`: `None` when `s` has no
   * space, otherwise the text before the first space and everything after it.
   */
  function SplitAtFirstSpace(s: string): (r: Option<(string, string)>)
    ensures r.None? <==> ' ' !in s
    ensures r.Some? ==> s == r.value.0 + " " + r.value.1 && ' ' !in r.value.0
  {
    match FindSpace(s)
    case None => None
    case Some(i) =>
      assert s == s[..i] + " " + s[i + 1..];
      Some((s[..i], s[i + 1..]))
  }

  /** The split is determined by the string: any head without a space is the split's head. */
  lemma SplitUnique(head: string, tail: string)
    requires ' ' !in head
    ensures SplitAtFirstSpace(head + " " + tail) == Some((head, tail))
  {
    var s := head + " " + tail;
    assert s[..|head|] == head;
    assert s[|head|] == ' ';
    assert s[|head| + 1..] == tail;
  }

  /** `a` can be obtained from `b` by deleting characters. */
  predicate IsSubsequence(a: string, b: string)
    decreases |b|
  {
    if |a| == 0 then true
    else if |b| == 0 then false
    else if a[0] == b[0] then IsSubsequence(a[1..], b[1..])
    else IsSubsequence(a, b[1..])
  }

  lemma {:induction false} SubsequenceShorter(a: string, b: string)
    requires IsSubsequence(a, b)
    ensures |a| <= |b|
    decreases |b|
  {
    if |a| > 0 {
      if a[0] == b[0] { SubsequenceShorter(a[1..], b[1..]); } else { SubsequenceShorter(a, b[1..]); }
    }
  }

  /** Python's `c.isalnum()`, restricted to ASCII letters and digits and the CJK ideograph blocks. */
  predicate IsAlnum(c: char) {
    || ('0' <= c <= '9') || ('a' <= c <= 'z') || ('A' <= c <= 'Z')
    || ('\U{3400}' <= c <= '\U{4DBF}') || ('\U{4E00}' <= c <= '\U{9FFF}')
  }

  /**
   * The literal membership string of the name filter. Written as a range in the
   * program's source, it is in fact the five characters space, underscore, U+4E00,
   * hyphen and U+9FA5.
   */
  const NameExtras: string := " _\U{4E00}-\U{9FA5}"

  const MaxNameLength: nat := 30

  predicate IsNameChar(c: char) {
    IsAlnum(c) || c in NameExtras
  }

  predicate AllNameChars(s: string) {
    forall i :: 0 <= i < |s| ==> IsNameChar(s[i])
  }

  /** The extras are a literal set, not a range: the hyphen is allowed, U+4E01 only as alphanumeric. */
  lemma NameExtrasAreLiteral()
    ensures |NameExtras| == 5
    ensures IsNameChar('-') && IsNameChar('_') && IsNameChar(' ')
    ensures '\U{4E01}' !in NameExtras && '!' !in NameExtras && !IsNameChar('!')
  {
  }

  /** How many characters of `s` the name filter allows. */
  function CountNameChars(s: string): nat
    decreases |s|
  {
    if |s| == 0 then 0 else (if IsNameChar(s[0]) then 1 else 0) + CountNameChars(s[1..])
  }

  /** `''.join(c for c in s if <c allowed>)`. */
  function KeepNameChars(s: string): (r: string)
    ensures IsSubsequence(r, s)
    ensures AllNameChars(r)
    ensures |r| == CountNameChars(s)
    ensures AllNameChars(s) ==> r == s
  {
    if |s| == 0 then []
    else if IsNameChar(s[0]) then [s[0]] + KeepNameChars(s[1..])
    else KeepNameChars(s[1..])
  }

  /** The filter works character by character: it distributes over concatenation. */
  lemma {:induction false} KeepNameCharsAppend(a: string, b: string)
    ensures KeepNameChars(a + b) == KeepNameChars(a) + KeepNameChars(b)
    decreases |a|
  {
    if |a| > 0 {
      assert (a + b)[1..] == a[1..] + b;
      KeepNameCharsAppend(a[1..], b);
    } else {
      assert a + b == b;
    }
  }

  /** Every allowed character of `s` survives the filter. */
  lemma {:induction false} KeepNameCharsKeeps(s: string, i: nat)
    requires i < |s| && IsNameChar(s[i])
    ensures s[i] in KeepNameChars(s)
    decreases i
  {
    if i > 0 { KeepNameCharsKeeps(s[1..], i - 1); }
  }

  /** An allowed-only subsequence of `s` has at most as many characters as `s` allows. */
  lemma {:induction false} SubsequenceCount(a: string, s: string)
    requires IsSubsequence(a, s) && AllNameChars(a)
    ensures |a| <= CountNameChars(s)
    decreases |s|
  {
    if |a| > 0 {
      if a[0] == s[0] {
        assert IsNameChar(a[0]);
        SubsequenceCount(a[1..], s[1..]);
      } else {
        SubsequenceCount(a, s[1..]);
      }
    }
  }

  /**
   * The filter's contract determines it: the only allowed-only subsequence of `s` with as
   * many characters as `s` allows is the filter's result.
   */
  lemma {:induction false} KeepNameCharsUnique(a: string, s: string)
    requires IsSubsequence(a, s) && AllNameChars(a) && |a| == CountNameChars(s)
    ensures a == KeepNameChars(s)
    decreases |s|
  {
    if |s| > 0 {
      if |a| > 0 && a[0] == s[0] {
        assert IsNameChar(s[0]);
        KeepNameCharsUnique(a[1..], s[1..]);
      } else if IsNameChar(s[0]) {
        if |a| > 0 { SubsequenceCount(a, s[1..]); }
      } else {
        KeepNameCharsUnique(a, s[1..]);
      }
    }
  }

  /**
   * The display-name clean-up of join and of the chat page: strip, keep at most the
   * first 30 characters, then drop every character outside the allowed set. An
   * all-rejected name yields the empty string; nothing rejects it.
   */
  function NormaliseName(s: string): (r: string)
    ensures |r| <= MaxNameLength
    ensures AllNameChars(r)
    ensures var t := Strip(s); var cut := t[..if |t| < MaxNameLength then |t| else MaxNameLength];
      && IsSubsequence(r, cut)
      && |r| == CountNameChars(cut)
      && (AllNameChars(cut) ==> r == cut)
  {
    var t := Strip(s);
    var cut := t[..if |t| < MaxNameLength then |t| else MaxNameLength];
    var r := KeepNameChars(cut);
    SubsequenceShorter(r, cut);
    r
  }

  const MaxMessageLength: nat := 500
  const Ellipsis: string := "..."

  /** The message cap: more than 500 characters become the first 500 followed by `...`. */
  function Truncate(m: string): (r: string)
    ensures |r| <= MaxMessageLength + |Ellipsis|
    ensures |m| <= MaxMessageLength ==> r == m
    ensures |m| > MaxMessageLength ==> |r| == MaxMessageLength + |Ellipsis| && StartsWith(m, r[..MaxMessageLength]) && r[MaxMessageLength..] == Ellipsis
  {
    if |m| > MaxMessageLength then m[..MaxMessageLength] + Ellipsis else m
  }

  /** Capping an already capped message changes nothing. */
  lemma TruncateIdempotent(m: string)
    ensures Truncate(Truncate(m)) == Truncate(m)
  {
  }
}
