/**
 * The handful of Python `str` operations the key spammer relies on:
 * `strip()`, `lower()`, `split(",")`, `startswith(...)` and `replace(pat, "")`.
 */
module Text {

  /** Python's `str.isspace()`: the characters `str.strip()` removes. */
  predicate IsSpace(c: char) {
    || c == ' '
    || ('\t' <= c <= '\r')
    || ('\U{1C}' <= c <= '\U{1F}')
    || c == '\U{85}' || c == '\U{A0}' || c == '\U{1680}'
    || ('\U{2000}' <= c <= '\U{200A}')
    || c == '\U{2028}' || c == '\U{2029}' || c == '\U{202F}' || c == '\U{205F}' || c == '\U{3000}'
  }

  predicate AllSpace(s: string) {
    forall k :: 0 <= k < |s| ==> IsSpace(s[k])
  }

  predicate IsUpper(c: char) {
    'A' <= c <= 'Z'
  }

  /** No character of `s` is changed by `lower()`. */
  predicate IsLowerCase(s: string) {
    forall k :: 0 <= k < |s| ==> !IsUpper(s[k])
  }

  // ---------------------------------------------------------------- strip

  /** The number of whitespace characters `s.lstrip()` removes. */
  function StripStart(s: string): (n: nat)
    ensures n <= |s|
    ensures forall k :: 0 <= k < n ==> IsSpace(s[k])
    ensures n == |s| || !IsSpace(s[n])
  {
    if s == [] || !IsSpace(s[0]) then 0 else 1 + StripStart(s[1..])
  }

  /** The length `s.rstrip()` keeps. */
  function StripEnd(s: string): (m: nat)
    ensures m <= |s|
    ensures forall k :: m <= k < |s| ==> IsSpace(s[k])
    ensures m == 0 || !IsSpace(s[m - 1])
  {
    if s == [] || !IsSpace(s[|s| - 1]) then |s| else StripEnd(s[..|s| - 1])
  }

  /** No whitespace at either end: what `strip()` returns. */
  predicate Trimmed(s: string) {
    s == [] || (!IsSpace(s[0]) && !IsSpace(s[|s| - 1]))
  }

  /**
   * `s.strip()`: the slice of `s` left after removing whitespace at both
   * ends (see StripIsSlice and StripEmpty).
   */
  function Strip(s: string): (r: string)
    ensures Trimmed(r) && |r| <= |s|
  {
    var i := StripStart(s);
    if i == |s| then [] else
      var j := StripEnd(s);
      assert i < j by { assert !IsSpace(s[i]); }
      s[i..j]
  }

  /** `strip()` keeps the slice starting after the leading whitespace and drops only whitespace. */
  lemma StripIsSlice(s: string)
    ensures StripStart(s) + |Strip(s)| <= |s|
    ensures Strip(s) == s[StripStart(s)..StripStart(s) + |Strip(s)|]
    ensures forall k :: 0 <= k < StripStart(s) ==> IsSpace(s[k])
    ensures forall k :: StripStart(s) + |Strip(s)| <= k < |s| ==> IsSpace(s[k])
  {
    var i := StripStart(s);
    if i < |s| {
      var j := StripEnd(s);
      assert i < j by { assert !IsSpace(s[i]); }
    }
  }

  /** `strip()` yields the empty string exactly for all-whitespace input. */
  lemma StripEmpty(s: string)
    ensures Strip(s) == [] <==> AllSpace(s)
  {
    if StripStart(s) < |s| {
      assert !IsSpace(s[StripStart(s)]);
    }
  }

  /** A string without surrounding whitespace is left alone by `strip()`. */
  lemma StripUntouched(s: string)
    requires Trimmed(s)
    ensures Strip(s) == s
  {
  }

  /** `strip()` is idempotent. */
  lemma StripIdempotent(s: string)
    ensures Strip(Strip(s)) == Strip(s)
  {
    StripUntouched(Strip(s));
  }

  // ---------------------------------------------------------------- lower

  /** `c.lower()` on ASCII letters; every other character is kept. */
  function LowerChar(c: char): (d: char)
    ensures !IsUpper(d)
    ensures d == c || (IsUpper(c) && d as int == c as int + 32)
    ensures IsSpace(d) <==> IsSpace(c)
  {
    if IsUpper(c) then (c as int + 32) as char else c
  }

  /** `s.lower()`: the same length, every character lowered. */
  function Lower(s: string): (r: string)
    ensures |r| == |s| && IsLowerCase(r)
    ensures forall k :: 0 <= k < |s| ==> r[k] == LowerChar(s[k])
  {
    seq(|s|, k requires 0 <= k < |s| => LowerChar(s[k]))
  }

  /** A string without upper-case letters is its own `lower()`. */
  lemma LowerOfLowerCase(s: string)
    requires IsLowerCase(s)
    ensures Lower(s) == s
  {
  }

  /** `lower()` is idempotent. */
  lemma LowerIdempotent(s: string)
    ensures Lower(Lower(s)) == Lower(s)
  {
    LowerOfLowerCase(Lower(s));
  }

  /** `lower()` keeps whitespace where it was, so it commutes with `strip()`'s view of the ends. */
  lemma LowerKeepsEnds(s: string)
    requires Trimmed(s)
    ensures Trimmed(Lower(s))
  {
  }

  // ---------------------------------------------------------------- startswith / replace

  /** `s.startswith(prefix)`. */
  predicate StartsWith(s: string, prefix: string) {
    |prefix| <= |s| && s[..|prefix|] == prefix
  }

  /** `pat in s`, written as a search from the left. */
  predicate Contains(s: string, pat: string) {
    StartsWith(s, pat) || (s != [] && Contains(s[1..], pat))
  }

  /** A pattern whose first character does not occur in `s` does not occur in `s`. */
  lemma {:induction false} NotContainsFirstChar(s: string, pat: string)
    requires pat != [] && pat[0] !in s
    ensures !Contains(s, pat)
  {
    if s != [] {
      assert s[0] != pat[0];
      assert pat[0] !in s[1..] by {
        forall k | 0 <= k < |s[1..]| ensures s[1..][k] != pat[0] {
          assert s[1..][k] == s[k + 1];
        }
      }
      NotContainsFirstChar(s[1..], pat);
    }
  }

  /**
   * `s.replace(pat, "")`: every occurrence found scanning left to right
   * (without rescanning what removal brings together) is dropped.
   */
  function RemoveAll(s: string, pat: string): (r: string)
    requires pat != []
    ensures |r| <= |s|
    ensures !Contains(s, pat) ==> r == s
    decreases |s|
  {
    if s == [] then []
    else if StartsWith(s, pat) then RemoveAll(s[|pat|..], pat)
    else [s[0]] + RemoveAll(s[1..], pat)
  }

  // ---------------------------------------------------------------- split

  /** `s.split(d)` for a single separator character: never empty, and no part holds `d`. */
  function Split(s: string, d: char): (parts: seq<string>)
    ensures |parts| >= 1
    ensures forall i :: 0 <= i < |parts| ==> d !in parts[i]
  {
    if s == [] then [""]
    else
      var rest := Split(s[1..], d);
      if s[0] == d then [""] + rest else [[s[0]] + rest[0]] + rest[1..]
  }

  /** Text without the separator is a single part. */
  lemma {:induction false} SplitNoSeparator(s: string, d: char)
    requires d !in s
    ensures Split(s, d) == [s]
  {
    if s != [] {
      assert d !in s[1..] by {
        forall k | 0 <= k < |s[1..]| ensures s[1..][k] != d { assert s[1..][k] == s[k + 1]; }
      }
      SplitNoSeparator(s[1..], d);
      assert s[0] != d;
      assert [s[0]] + s[1..] == s;
    }
  }

  /** The text before the first separator is the first part; the rest is split on. */
  lemma {:induction false} SplitFirst(a: string, d: char, b: string)
    requires d !in a
    ensures Split(a + [d] + b, d) == [a] + Split(b, d)
  {
    if a == [] {
      assert a + [d] + b == [d] + b;
      assert ([d] + b)[1..] == b;
    } else {
      assert d !in a[1..] by {
        forall k | 0 <= k < |a[1..]| ensures a[1..][k] != d { assert a[1..][k] == a[k + 1]; }
      }
      SplitFirst(a[1..], d, b);
      var s := a + [d] + b;
      assert s[0] == a[0] && a[0] != d;
      assert s[1..] == a[1..] + [d] + b;
      assert [a[0]] + a[1..] == a;
    }
  }

  /** `d.join(parts)`. */
  function Join(parts: seq<string>, d: char): string {
    if |parts| == 0 then ""
    else if |parts| == 1 then parts[0]
    else parts[0] + [d] + Join(parts[1..], d)
  }

  /** Splitting loses nothing: joining the parts back with the separator gives the input. */
  lemma {:induction false} JoinSplit(s: string, d: char)
    ensures Join(Split(s, d), d) == s
  {
    if s != [] {
      var rest := Split(s[1..], d);
      JoinSplit(s[1..], d);
      if s[0] == d {
        assert Split(s, d)[1..] == rest;
      } else {
        var parts := Split(s, d);
        if |rest| == 1 {
          assert parts == [[s[0]] + rest[0]];
        } else {
          assert parts[1..] == rest[1..];
          assert Join(rest, d) == rest[0] + [d] + Join(rest[1..], d);
        }
      }
    }
  }

  function CountChar(s: string, d: char): nat {
    if s == [] then 0 else (if s[0] == d then 1 else 0) + CountChar(s[1..], d)
  }

  /** There is one part more than there are separators. */
  lemma {:induction false} SplitCount(s: string, d: char)
    ensures |Split(s, d)| == CountChar(s, d) + 1
  {
    if s != [] {
      SplitCount(s[1..], d);
    }
  }
}
