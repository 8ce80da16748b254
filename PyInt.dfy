/**
 * Python's `int(text)` in base 10 and `str(n)`, as far as the key spammer uses
 * them: the delay entry is read with `int()`, and the text of a key code
 * without a character is `"<" + str(vk) + ">"`.
 */
module PyInt {
  import opened Wrappers
  import opened Text

  predicate IsDigit(c: char) {
    '0' <= c <= '9'
  }

  predicate AllDigits(s: string) {
    forall k :: 0 <= k < |s| ==> IsDigit(s[k])
  }

  function DigitValue(c: char): (v: nat)
    requires IsDigit(c)
    ensures v < 10
  {
    c as int - '0' as int
  }

  function DigitChar(v: nat): (c: char)
    requires v < 10
    ensures IsDigit(c) && DigitValue(c) == v
  {
    ('0' as int + v) as char
  }

  /** The value of a string of decimal digits, most significant first. */
  function DigitsValue(ds: string): nat
    requires AllDigits(ds)
  {
    if ds == [] then 0 else DigitsValue(ds[..|ds| - 1]) * 10 + DigitValue(ds[|ds| - 1])
  }

  /** `str(n)` for a natural number: decimal digits without leading zeros. */
  function ShowNat(n: nat): (r: string)
    ensures r != [] && AllDigits(r)
    ensures r[0] == '0' ==> r == "0"
  {
    if n < 10 then [DigitChar(n)] else ShowNat(n / 10) + [DigitChar(n % 10)]
  }

  /** `str(n)` for any integer. */
  function ShowInt(n: int): (r: string)
    ensures r != []
    ensures r[0] == '-' <==> n < 0
    ensures n >= 0 ==> AllDigits(r)
    ensures n < 0 ==> AllDigits(r[1..])
  {
    if n < 0 then "-" + ShowNat(-n) else ShowNat(n)
  }

  /** Reading back the digits `str` wrote gives the number. */
  lemma {:induction false} ShowNatValue(n: nat)
    ensures DigitsValue(ShowNat(n)) == n
  {
    if n >= 10 {
      ShowNatValue(n / 10);
      var s := ShowNat(n);
      assert s[..|s| - 1] == ShowNat(n / 10);
    }
  }

  /**
   * The digit part `int()` accepts: digits, where single underscores may
   * separate two digits.
   */
  predicate IsDigitRun(s: string) {
    && s != []
    && IsDigit(s[0]) && IsDigit(s[|s| - 1])
    && (forall k :: 0 <= k < |s| ==> IsDigit(s[k]) || s[k] == '_')
    && (forall i, j :: 0 <= i < |s| && 0 <= j < |s| && j == i + 1 && s[i] == '_' ==> s[j] != '_')
  }

  /** The digits of a run with its underscores dropped. */
  function DropUnderscores(s: string): (r: string)
    requires forall k :: 0 <= k < |s| ==> IsDigit(s[k]) || s[k] == '_'
    ensures AllDigits(r) && |r| <= |s|
    ensures AllDigits(s) ==> r == s
  {
    if s == [] then []
    else if s[0] == '_' then DropUnderscores(s[1..])
    else [s[0]] + DropUnderscores(s[1..])
  }

  /** `int()` on text that has already been stripped: an optional sign, then a digit run. */
  function ParseStripped(t: string): (r: Option<int>)
    ensures t == [] ==> r.None?
    ensures r.Some? ==> IsDigit(t[|t| - 1])
  {
    if t != [] && (t[0] == '+' || t[0] == '-') then
      var body := t[1..];
      if IsDigitRun(body) then
        var v: int := DigitsValue(DropUnderscores(body));
        Some(if t[0] == '-' then -v else v)
      else None
    else if IsDigitRun(t) then Some(DigitsValue(DropUnderscores(t)))
    else None
  }

  /**
   * U+001C to U+001F: whitespace to `str.strip()`, but not to `int()`, which
   * skips only the ASCII whitespace of C's `isspace` and the non-ASCII spaces.
   */
  predicate IsSeparatorControl(c: char) {
    '\U{1C}' <= c <= '\U{1F}'
  }

  predicate NoSeparatorControl(s: string) {
    forall k :: 0 <= k < |s| ==> !IsSeparatorControl(s[k])
  }

  /**
   * `int(text)`: surrounding whitespace is ignored, then an optional sign,
   * then a digit run. Anything else raises, which is `None` here. A
   * separator control is no digit, sign or underscore and is not skipped,
   * so wherever it stands `int()` raises; without one, the whitespace
   * `int()` skips is exactly the whitespace `strip()` removes.
   */
  function ParseInt(text: string): (r: Option<int>)
    ensures AllSpace(text) ==> r.None?
    ensures !NoSeparatorControl(text) ==> r.None?
  {
    StripEmpty(text);
    if !NoSeparatorControl(text) then None else ParseStripped(Strip(text))
  }

  /** A plain string of digits is a digit run with nothing to drop. */
  lemma DigitsAreRun(s: string)
    requires s != [] && AllDigits(s)
    ensures IsDigitRun(s) && DropUnderscores(s) == s
  {
  }

  /** A string of digits reads as its value. */
  lemma ParseDigits(d: string)
    requires d != [] && AllDigits(d)
    ensures ParseStripped(d) == Some(DigitsValue(d))
  {
    DigitsAreRun(d);
    assert IsDigit(d[0]);
  }

  /** A minus sign before a digit run negates its value. */
  lemma ParseNegativeRun(d: string)
    requires IsDigitRun(d)
    ensures ParseStripped("-" + d) == Some(-(DigitsValue(DropUnderscores(d)) as int))
  {
    var t := "-" + d;
    assert t[0] == '-' && t[1..] == d;
  }

  /** A string of digits, signed or not, has no whitespace at its ends and no separator control. */
  lemma DigitsTrimmed(d: string)
    requires d != [] && AllDigits(d)
    ensures Trimmed(d) && Trimmed("-" + d)
    ensures NoSeparatorControl(d) && NoSeparatorControl("-" + d)
  {
    assert IsDigit(d[0]) && IsDigit(d[|d| - 1]);
    var t := "-" + d;
    assert t[|d|] == d[|d| - 1];
    forall k | 0 <= k < |t| ensures !IsSeparatorControl(t[k]) {
      if k > 0 { assert t[k] == d[k - 1]; }
    }
  }

  /** `int(str(n)) == n` for every natural number. */
  lemma ParseShowNat(n: nat)
    ensures ParseInt(ShowNat(n)) == Some(n)
  {
    var d := ShowNat(n);
    ShowNatValue(n);
    ParseDigits(d);
    DigitsTrimmed(d);
    StripUntouched(d);
  }

  /** `int(str(n)) == n` for every integer. */
  lemma ParseShowInt(n: int)
    ensures ParseInt(ShowInt(n)) == Some(n)
  {
    if n < 0 {
      var m: nat := -n;
      assert ShowInt(n) == "-" + ShowNat(m);
      ParseShowNegative(m);
    } else {
      ParseShowNat(n);
    }
  }

  /** `int("-" + str(m)) == -m`. */
  lemma ParseShowNegative(m: nat)
    ensures ParseInt("-" + ShowNat(m)) == Some(-(m as int))
  {
    var d := ShowNat(m);
    ShowNatValue(m);
    DigitsAreRun(d);
    ParseNegativeRun(d);
    DigitsTrimmed(d);
    StripUntouched("-" + d);
  }

  /**
   * `int()` ignores whitespace before and after the number, the two sides
   * chosen independently, as long as neither holds a separator control.
   */
  lemma ParseIntPadded(pre: string, text: string, post: string)
    requires AllSpace(pre) && NoSeparatorControl(pre)
    requires AllSpace(post) && NoSeparatorControl(post)
    ensures ParseInt(pre + text + post) == ParseInt(text)
  {
    StripPadded(pre, text, post);
    PaddedControls(pre, text, post);
  }

  /** Padding without separator controls adds none. */
  lemma PaddedControls(pre: string, text: string, post: string)
    requires NoSeparatorControl(pre) && NoSeparatorControl(post)
    ensures NoSeparatorControl(pre + text + post) <==> NoSeparatorControl(text)
  {
    var s := pre + text + post;
    if NoSeparatorControl(text) {
      forall k | 0 <= k < |s| ensures !IsSeparatorControl(s[k]) {
        if k < |pre| { assert s[k] == pre[k]; }
        else if k < |pre| + |text| { assert s[k] == text[k - |pre|]; }
        else { assert s[k] == post[k - |pre| - |text|]; }
      }
    } else {
      var k :| 0 <= k < |text| && IsSeparatorControl(text[k]);
      assert s[|pre| + k] == text[k];
    }
  }

  /** Whitespace added on either side does not change what `strip()` returns. */
  lemma StripPadded(pre: string, text: string, post: string)
    requires AllSpace(pre) && AllSpace(post)
    ensures Strip(pre + text + post) == Strip(text)
  {
    StripEmpty(text);
    if Strip(text) == [] {
      PaddedBlank(pre, text, post);
    } else {
      PaddedNonBlank(pre, text, post);
    }
  }

  lemma PaddedBlank(pre: string, text: string, post: string)
    requires AllSpace(pre) && AllSpace(text) && AllSpace(post)
    ensures Strip(pre + text + post) == []
  {
    var s := pre + text + post;
    forall k | 0 <= k < |s| ensures IsSpace(s[k]) {
      if k < |pre| { assert s[k] == pre[k]; }
      else if k < |pre| + |text| { assert s[k] == text[k - |pre|]; }
      else { assert s[k] == post[k - |pre| - |text|]; }
    }
    StripEmpty(s);
  }

  lemma PaddedNonBlank(pre: string, text: string, post: string)
    requires AllSpace(pre) && AllSpace(post) && Strip(text) != []
    ensures Strip(pre + text + post) == Strip(text)
  {
    var s := pre + text + post;
    var t := Strip(text);
    StripIsSlice(text);
    var i := StripStart(text);
    var j := |pre| + i;
    assert s[j..j + |t|] == t;
    forall k | 0 <= k < j ensures IsSpace(s[k]) {
      if k < |pre| { assert s[k] == pre[k]; } else { assert s[k] == text[k - |pre|]; }
    }
    forall k | j + |t| <= k < |s| ensures IsSpace(s[k]) {
      if k < |pre| + |text| { assert s[k] == text[k - |pre|]; }
      else { assert s[k] == post[k - |pre| - |text|]; }
    }
    SliceStrip(s, j, |t|);
  }

  /** A slice with non-space ends and only whitespace around it is what `strip()` returns. */
  lemma SliceStrip(s: string, i: nat, n: nat)
    requires 0 < n && i + n <= |s|
    requires !IsSpace(s[i]) && !IsSpace(s[i + n - 1])
    requires forall k :: 0 <= k < i ==> IsSpace(s[k])
    requires forall k :: i + n <= k < |s| ==> IsSpace(s[k])
    ensures Strip(s) == s[i..i + n]
  {
    StripIsSlice(s);
    StripEmpty(s);
    var r := Strip(s);
    var j := StripStart(s);
    assert !AllSpace(s) by { assert !IsSpace(s[i]); }
    assert s[j] == r[0] && s[j + |r| - 1] == r[|r| - 1];
  }
}
